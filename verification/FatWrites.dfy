/**
  The effect of the builder's writes on a volume, as relations between the volume
  before and after.  A byte array grows or shrinks when a slice is assigned
  something of another length, so that the image keeps its length is proved.
*/
module FatWrites {
  import opened Bytes
  import opened FatGeometry
  import opened FatRecords
  import opened FatReader
  import opened FatLayout

  /** `image[from:to] = chunk` on a resizable byte array. */
  function SliceAssign(image: seq<byte>, from: nat, to: nat, chunk: seq<byte>): seq<byte> {
    var start: nat := Min(from, |image|);
    var stop: nat := Max(start, Min(to, |image|));
    image[..start] + chunk + image[stop..]
  }

  lemma SliceAssignInside(image: seq<byte>, at: nat, chunk: seq<byte>)
    requires at + |chunk| <= |image|
    ensures |SliceAssign(image, at, at + |chunk|, chunk)| == |image|
    ensures forall i :: 0 <= i < |image| ==>
      SliceAssign(image, at, at + |chunk|, chunk)[i] == if at <= i < at + |chunk| then chunk[i - at] else image[i]
  {
  }

  function ClusterStart(dataStart: nat, c: nat): nat
    requires c >= 2
  {
    dataStart + (c - 2) * CLUSTER_BYTES
  }

  /** The cluster lies inside the image. */
  predicate InImage(v: Volume, c: nat) {
    2 <= c < |v.fat| && ClusterStart(v.dataStart, c) + CLUSTER_BYTES <= |v.image|
  }

  /** `w` is `v` after giving cluster `c` a link and new bytes, and nothing else. */
  ghost predicate IsPut(v: Volume, w: Volume, c: nat, link: nat, piece: seq<byte>) {
    && c < |v.fat| && w.fat == v.fat[c := link]
    && w.dataStart == v.dataStart && |w.image| == |v.image| && v.dataStart <= |v.image|
    && w.image[..v.dataStart] == v.image[..v.dataStart]
    && ClusterBytes(w, c) == piece
    && forall d {:trigger ClusterBytes(w, d)} :: d != c ==> ClusterBytes(w, d) == ClusterBytes(v, d)
  }

  /** Cluster `d` lies before or behind cluster `c`. */
  lemma ClustersApart(dataStart: nat, c: nat, d: nat)
    requires 2 <= c && 2 <= d && c != d
    ensures d < c ==> ClusterStart(dataStart, d) + CLUSTER_BYTES <= ClusterStart(dataStart, c)
    ensures d > c ==> ClusterStart(dataStart, c) + CLUSTER_BYTES <= ClusterStart(dataStart, d)
  {
  }

  /** A slice in front of or behind an assigned one is as it was. */
  lemma SliceApart(image: seq<byte>, at: nat, chunk: seq<byte>, lo: nat, hi: nat)
    requires at + |chunk| <= |image| && lo <= hi <= |image| && (hi <= at || at + |chunk| <= lo)
    ensures |SliceAssign(image, at, at + |chunk|, chunk)| == |image|
    ensures SliceAssign(image, at, at + |chunk|, chunk)[lo..hi] == image[lo..hi]
  {
    SliceAssignInside(image, at, chunk);
  }

  lemma OtherCluster(v: Volume, c: nat, chunk: seq<byte>, d: nat)
    requires InImage(v, c) && |chunk| <= CLUSTER_BYTES && d != c
    ensures var at := ClusterStart(v.dataStart, c);
      ClusterBytes(v.(image := SliceAssign(v.image, at, at + |chunk|, chunk)), d) == ClusterBytes(v, d)
  {
    var at := ClusterStart(v.dataStart, c);
    SliceAssignInside(v.image, at, chunk);
    if d >= 2 && ClusterStart(v.dataStart, d) + CLUSTER_BYTES <= |v.image| {
      ClustersApart(v.dataStart, c, d);
      SliceApart(v.image, at, chunk, ClusterStart(v.dataStart, d), ClusterStart(v.dataStart, d) + CLUSTER_BYTES);
    }
  }

  lemma FrontReplaced(image: seq<byte>, at: nat, chunk: seq<byte>, n: nat)
    requires |chunk| <= n && at + n <= |image|
    ensures |SliceAssign(image, at, at + |chunk|, chunk)| == |image|
    ensures SliceAssign(image, at, at + |chunk|, chunk)[at..at + n] == chunk + image[at..at + n][|chunk|..]
  {
    SliceAssignInside(image, at, chunk);
  }

  /** Writing at the start of a cluster replaces only the front of that cluster. */
  lemma WriteInCluster(v: Volume, c: nat, chunk: seq<byte>, link: nat, w: Volume)
    requires InImage(v, c) && |chunk| <= CLUSTER_BYTES
    requires var at := ClusterStart(v.dataStart, c);
      w == Volume(v.fat[c := link], SliceAssign(v.image, at, at + |chunk|, chunk), v.dataStart)
    ensures IsPut(v, w, c, link, chunk + ClusterBytes(v, c)[|chunk|..])
  {
    var at := ClusterStart(v.dataStart, c);
    SliceAssignInside(v.image, at, chunk);
    FrontReplaced(v.image, at, chunk, CLUSTER_BYTES);
    assert ClusterBytes(v, c) == v.image[at..at + CLUSTER_BYTES];
    assert w.image[..v.dataStart] == v.image[..v.dataStart];
    forall d | d != c ensures ClusterBytes(w, d) == ClusterBytes(v, d) {
      OtherCluster(v, c, chunk, d);
    }
  }

  /** Zero-filling a cluster and then writing, as a directory is written. */
  lemma ZeroAndWrite(v: Volume, c: nat, chunk: seq<byte>, link: nat, mid: Volume, w: Volume)
    requires InImage(v, c) && |chunk| <= CLUSTER_BYTES
    requires IsPut(v, mid, c, link, Zeros(CLUSTER_BYTES))
    requires IsPut(mid, w, c, link, chunk + Zeros(CLUSTER_BYTES)[|chunk|..])
    ensures IsPut(v, w, c, link, chunk + Zeros(CLUSTER_BYTES - |chunk|))
  {
    assert Zeros(CLUSTER_BYTES)[|chunk|..] == Zeros(CLUSTER_BYTES - |chunk|);
    assert v.fat[c := link][c := link] == v.fat[c := link];
  }

  // ---------------------------------------------------------------- unused clusters

  ghost predicate FreshAt(v: Volume, c: nat) {
    InImage(v, c) && v.fat[c] == 0 && ClusterBytes(v, c) == Zeros(CLUSTER_BYTES)
  }

  ghost predicate FreshFrom(v: Volume, next: nat) {
    forall c :: next <= c < |v.fat| ==> FreshAt(v, c)
  }

  lemma FreshAfterPut(v: Volume, w: Volume, c: nat, link: nat, piece: seq<byte>, next: nat)
    requires IsPut(v, w, c, link, piece) && FreshFrom(v, next) && c < next
    ensures FreshFrom(w, next)
  {
    forall d | next <= d < |w.fat| ensures FreshAt(w, d) {
      assert FreshAt(v, d);
    }
  }

  /** Clusters below `next` other than `c` are as before. */
  lemma SameAfterPut(v: Volume, w: Volume, c: nat, link: nat, piece: seq<byte>, d: nat)
    requires IsPut(v, w, c, link, piece) && d < |v.fat| && d != c
    ensures SameCluster(v, w, d)
  {
  }

  lemma AgreeTransitive(u: Volume, v: Volume, w: Volume, lo: nat, hi: nat)
    requires Agree(u, v, lo, hi) && Agree(v, w, lo, hi)
    ensures Agree(u, w, lo, hi)
  {
    forall c | lo <= c < hi && c < |u.fat| ensures SameCluster(u, w, c) {
      assert SameCluster(u, v, c) && SameCluster(v, w, c);
    }
  }

  lemma AgreeAfterPut(u: Volume, v: Volume, w: Volume, c: nat, link: nat, piece: seq<byte>, lo: nat, hi: nat)
    requires Agree(u, v, lo, hi) && IsPut(v, w, c, link, piece) && !(lo <= c < hi)
    ensures Agree(u, w, lo, hi)
  {
    forall d | lo <= d < hi && d < |v.fat| ensures SameCluster(v, w, d) {
      SameAfterPut(v, w, c, link, piece, d);
    }
    AgreeTransitive(u, v, w, lo, hi);
  }

  // ---------------------------------------------------------------- growing a chain

  /** The bytes of the i-th cluster of an object. */
  function Chunk(data: seq<byte>, i: nat): (chunk: seq<byte>)
    requires CLUSTER_BYTES * i <= |data|
    ensures |chunk| <= CLUSTER_BYTES
  {
    data[CLUSTER_BYTES * i..Min(CLUSTER_BYTES * (i + 1), |data|)]
  }

  lemma ChunkIsPiece(data: seq<byte>, n: nat, i: nat)
    requires i < n && CLUSTER_BYTES * i <= |data| <= CLUSTER_BYTES * n
    requires i < n - 1 ==> CLUSTER_BYTES * (i + 1) <= |data|
    ensures Chunk(data, i) + Zeros(CLUSTER_BYTES - |Chunk(data, i)|)
         == Padded(data, n)[CLUSTER_BYTES * i..CLUSTER_BYTES * (i + 1)]
  {
  }

  /** The first `i` clusters of a chain hold the first `i` pieces of the data and are linked in order. */
  ghost predicate Grown(v: Volume, chain: seq<nat>, data: seq<byte>, i: nat)
    requires i <= |chain| && |data| <= CLUSTER_BYTES * |chain|
  {
    forall k :: 0 <= k < i ==> Cell(v, chain, data, k, i)
  }

  ghost predicate Cell(v: Volume, chain: seq<nat>, data: seq<byte>, k: nat, i: nat)
    requires k < i <= |chain| && |data| <= CLUSTER_BYTES * |chain|
  {
    && 2 <= chain[k] < |v.fat|
    && v.fat[chain[k]] == (if k + 1 < i then chain[k + 1] else EOC)
    && PieceAt(v, chain, data, k)
  }

  lemma GrownIsStored(v: Volume, chain: seq<nat>, data: seq<byte>)
    requires 1 <= |chain| && |data| <= CLUSTER_BYTES * |chain| && Grown(v, chain, data, |chain|)
    ensures ObjectStored(v, chain, data)
  {
    forall i | 0 <= i < |chain| ensures LinkAt(v.fat, chain, i) && PieceAt(v, chain, data, i) {
      assert Cell(v, chain, data, i, |chain|);
    }
  }

  /** Relinking the last cluster of a grown chain to the next one, then filling that one. */
  lemma GrowChain(u: Volume, v: Volume, w: Volume, chain: seq<nat>, data: seq<byte>, i: nat)
    requires i < |chain| && |data| <= CLUSTER_BYTES * |chain|
    requires forall a, b :: 0 <= a < b < |chain| ==> chain[a] < chain[b]
    requires Grown(u, chain, data, i) && 2 <= chain[i] < |u.fat|
    requires if i == 0 then v == u else IsPut(u, v, chain[i - 1], chain[i], ClusterBytes(u, chain[i - 1]))
    requires IsPut(v, w, chain[i], EOC, Padded(data, |chain|)[CLUSTER_BYTES * i..CLUSTER_BYTES * (i + 1)])
    ensures Grown(w, chain, data, i + 1)
  {
    var next := i + 1;
    forall k | 0 <= k < next ensures Cell(w, chain, data, k, next) {
      if k < i {
        assert Cell(u, chain, data, k, i);
        assert chain[k] < chain[i];
        if k < i - 1 {
          assert chain[k] < chain[i - 1];
        }
      }
    }
  }

  /** The first `i` clusters of a chain are final: filled, and linked onwards. */
  ghost predicate Laid(v: Volume, chain: seq<nat>, data: seq<byte>, i: nat)
    requires i <= |chain| && |data| <= CLUSTER_BYTES * |chain|
  {
    forall k :: 0 <= k < i ==> LinkAt(v.fat, chain, k) && PieceAt(v, chain, data, k)
  }

  lemma LayChain(v: Volume, w: Volume, chain: seq<nat>, data: seq<byte>, i: nat)
    requires i < |chain| && |data| <= CLUSTER_BYTES * |chain|
    requires forall a, b :: 0 <= a < b < |chain| ==> chain[a] < chain[b]
    requires Laid(v, chain, data, i) && 2 <= chain[i] < |v.fat|
    requires IsPut(v, w, chain[i], if i + 1 < |chain| then chain[i + 1] else EOC,
                   Padded(data, |chain|)[CLUSTER_BYTES * i..CLUSTER_BYTES * (i + 1)])
    ensures Laid(w, chain, data, i + 1)
  {
    forall k | 0 <= k < i ensures LinkAt(w.fat, chain, k) && PieceAt(w, chain, data, k) {
      assert LinkAt(v.fat, chain, k) && PieceAt(v, chain, data, k);
      assert chain[k] < chain[i];
    }
    assert LinkAt(w.fat, chain, i) && PieceAt(w, chain, data, i);
  }
}
