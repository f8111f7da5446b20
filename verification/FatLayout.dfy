/**
  Where the builder puts a tree.  Every subtree occupies one contiguous range of
  clusters starting with its own first cluster, but a directory owns the first
  cluster of its range and, when its table is long, the last ones, with all of its
  children in between.  A `Plan` is that layout worked out for one subtree; `Stored`
  says that a volume holds a plan, and `StoredReads` that the reader then finds
  exactly the tree the plan was made for.
*/
module FatLayout {
  import opened Bytes
  import opened FatGeometry
  import opened FatRecords
  import opened FatReader

  /** A tree whose objects already carry the names they are recorded under. */
  datatype Node =
    | File(name: FileName, naming: Naming, data: seq<byte>)
    | Dir(name: FileName, naming: Naming, kids: seq<Node>)

  const EOC := 0xFFFF

  function AttrOf(n: Node): byte {
    if n.Dir? then ATTR_DIRECTORY else ATTR_FILE
  }

  function SizeOf(n: Node): nat {
    if n.Dir? then 0 else |n.data|
  }

  /** The fields of the object's record can be packed and read back. */
  predicate Recordable(n: Node) {
    && PlainShort(n.naming.short)
    && (n.naming.long ==> SixteenBit(n.name))
    && SizeOf(n) < 0x1_0000_0000
  }

  ghost predicate Buildable(n: Node) {
    match n
    case File(_, _, _) => Recordable(n)
    case Dir(_, _, kids) => Recordable(n) && AllBuildable(kids)
  }

  ghost predicate AllBuildable(kids: seq<Node>) {
    forall j {:trigger Buildable(kids[j])} :: 0 <= j < |kids| ==> Buildable(kids[j])
  }

  function TableLength(kids: seq<Node>, j: nat): nat
    requires j <= |kids|
  {
    if j == 0 then 0 else TableLength(kids, j - 1) + RecordLength(kids[j - 1].name, kids[j - 1].naming)
  }

  // ---------------------------------------------------------------- cluster ranges

  function DirClusters(kids: seq<Node>): nat {
    (64 + TableLength(kids, |kids|)) / CLUSTER_BYTES + 1
  }

  function DataClusters(length: nat): (n: nat)
    ensures n >= 1 && CLUSTER_BYTES * n >= length
    ensures length > 0 ==> CLUSTER_BYTES * (n - 1) < length
  {
    Max(1, CeilDiv(length, CLUSTER_BYTES))
  }

  /** How many clusters a subtree takes. */
  function Clusters(n: Node): (c: nat)
    ensures c >= 1
  {
    match n
    case File(_, _, data) => DataClusters(|data|)
    case Dir(_, _, kids) => Span(kids, |kids|) + DirClusters(kids)
  }

  function Span(kids: seq<Node>, j: nat): nat
    requires j <= |kids|
    decreases kids, j
  {
    if j == 0 then 0 else Span(kids, j - 1) + Clusters(kids[j - 1])
  }

  lemma {:induction false} SpanMonotone(kids: seq<Node>, i: nat, j: nat)
    requires i <= j <= |kids|
    ensures Span(kids, i) <= Span(kids, j)
    ensures i < j ==> Span(kids, i) + Clusters(kids[i]) <= Span(kids, j)
    decreases j
  {
    if i < j - 1 {
      SpanMonotone(kids, i, j - 1);
    }
  }

  function Run(from: nat, count: nat): (s: seq<nat>)
    ensures |s| == count && forall i :: 0 <= i < count ==> s[i] == from + i
  {
    seq<nat>(count, (i: nat) => from + i)
  }

  // ---------------------------------------------------------------- directory contents

  /** Where child j starts when the children start at `base`. */
  function FirstOf(kids: seq<Node>, j: nat, base: nat): nat
    requires j <= |kids|
  {
    base + Span(kids, j)
  }

  function ItemAt(n: Node, cluster: nat): Item {
    Item(n.name, n.naming, AttrOf(n), cluster, SizeOf(n))
  }

  function ItemOf(kids: seq<Node>, j: nat, base: nat): Item
    requires j < |kids|
  {
    ItemAt(kids[j], FirstOf(kids, j, base))
  }

  function Items(kids: seq<Node>, j: nat, base: nat): (items: seq<Item>)
    requires j <= |kids|
    ensures |items| == j && forall i :: 0 <= i < j ==> items[i] == ItemOf(kids, i, base)
  {
    if j == 0 then [] else Items(kids, j - 1, base) + [ItemOf(kids, j - 1, base)]
  }

  lemma AppendLength(items: seq<Item>, it: Item)
    ensures |TableBytes(items + [it])| == |TableBytes(items)| + RecordLength(it.name, it.naming)
  {
    TableAppend(items, it);
  }

  lemma {:induction false} ItemsLength(kids: seq<Node>, j: nat, base: nat)
    requires j <= |kids|
    ensures |TableBytes(Items(kids, j, base))| == TableLength(kids, j)
  {
    if j == 0 {
      assert TableBytes([]) == [];
    } else {
      var front, it := Items(kids, j - 1, base), ItemOf(kids, j - 1, base);
      ItemsLength(kids, j - 1, base);
      AppendLength(front, it);
      assert Items(kids, j, base) == front + [it];
    }
  }

  function DotTable(lo: nat, parent: nat): (t: seq<byte>)
    ensures |t| == 64
  {
    DirEntry(DOT, ATTR_DIRECTORY, lo, 0) + DirEntry(DOTDOT, ATTR_DIRECTORY, parent, 0)
  }

  /** A table filled up with zeros; at least one zero byte ends it. */
  function ZeroEnded(table: seq<byte>): (b: seq<byte>)
    ensures |b| == CLUSTER_BYTES * (|table| / CLUSTER_BYTES + 1) && table <= b
  {
    table + Zeros(CLUSTER_BYTES - |table| % CLUSTER_BYTES)
  }

  function DirBytes(items: seq<Item>, lo: nat, parent: nat): seq<byte> {
    ZeroEnded(DotTable(lo, parent) + TableBytes(items))
  }

  lemma DirBytesLength(kids: seq<Node>, lo: nat, parent: nat)
    ensures |DirBytes(Items(kids, |kids|, lo + 1), lo, parent)| == CLUSTER_BYTES * DirClusters(kids)
  {
    ItemsLength(kids, |kids|, lo + 1);
    assert |DotTable(lo, parent) + TableBytes(Items(kids, |kids|, lo + 1))| == 64 + TableLength(kids, |kids|);
  }

  // ---------------------------------------------------------------- chains and contents

  /** The clusters of the object itself, in chain order. */
  function Chain(n: Node, lo: nat): (chain: seq<nat>)
    ensures |chain| >= 1 && chain[0] == lo
  {
    match n
    case File(_, _, data) => Run(lo, DataClusters(|data|))
    case Dir(_, _, kids) => DirChain(kids, lo)
  }

  function DirChain(kids: seq<Node>, lo: nat): seq<nat> {
    SplitChain(lo, lo + 1 + Span(kids, |kids|), DirClusters(kids))
  }

  /** A chain that starts at a reserved cluster and goes on at `tail`. */
  function SplitChain(first: nat, tail: nat, count: nat): (chain: seq<nat>)
    requires count >= 1
    ensures |chain| == count && forall k :: 0 <= k < count ==> chain[k] == SplitLink(first, tail, k)
  {
    [first] + Run(tail, count - 1)
  }

  function SplitLink(first: nat, tail: nat, k: int): int {
    if k <= 0 then first else tail + k - 1
  }

  function Content(n: Node, lo: nat, parent: nat): seq<byte> {
    match n
    case File(_, _, data) => data
    case Dir(_, _, kids) => DirBytes(Items(kids, |kids|, lo + 1), lo, parent)
  }

  /** A chain stays in the range of its subtree and is strictly increasing. */
  lemma ChainInRange(n: Node, lo: nat)
    ensures forall i :: 0 <= i < |Chain(n, lo)| ==> lo <= Chain(n, lo)[i] < lo + Clusters(n)
    ensures forall i, j :: 0 <= i < j < |Chain(n, lo)| ==> Chain(n, lo)[i] < Chain(n, lo)[j]
  {
  }

  // ---------------------------------------------------------------- what a volume holds

  /** Content filled with zeros to `n` whole clusters. */
  function Padded(content: seq<byte>, n: nat): (p: seq<byte>)
    requires |content| <= CLUSTER_BYTES * n
    ensures |p| == CLUSTER_BYTES * n && content <= p
  {
    content + Zeros(CLUSTER_BYTES * n - |content|)
  }

  /** The i-th cluster of a chain is in the table and names its successor, or ends the chain. */
  ghost predicate LinkAt(fat: seq<nat>, chain: seq<nat>, i: nat)
    requires i < |chain|
  {
    2 <= chain[i] < |fat| && fat[chain[i]] == (if i + 1 < |chain| then chain[i + 1] else EOC)
  }

  ghost predicate PieceAt(v: Volume, chain: seq<nat>, content: seq<byte>, i: nat)
    requires i < |chain| && |content| <= CLUSTER_BYTES * |chain|
  {
    ClusterBytes(v, chain[i]) == Padded(content, |chain|)[CLUSTER_BYTES * i..CLUSTER_BYTES * (i + 1)]
  }

  ghost predicate ObjectStored(v: Volume, chain: seq<nat>, content: seq<byte>) {
    && 1 <= |chain|
    && |content| <= CLUSTER_BYTES * |chain|
    && (forall i :: 0 <= i < |chain| ==> LinkAt(v.fat, chain, i))
    && (forall i :: 0 <= i < |chain| ==> PieceAt(v, chain, content, i))
  }

  ghost predicate Stored(v: Volume, n: Node, lo: nat, parent: nat)
    decreases n, 1
  {
    match n
    case File(_, _, data) => ObjectStored(v, Chain(n, lo), data)
    case Dir(_, _, kids) => ObjectStored(v, Chain(n, lo), Content(n, lo, parent)) && KidsStored(v, kids, lo + 1, lo)
  }

  ghost predicate KidsStored(v: Volume, kids: seq<Node>, base: nat, parent: nat)
    decreases kids, 1
  {
    forall j :: 0 <= j < |kids| ==> KidStored(v, kids, j, base, parent)
  }

  ghost predicate KidStored(v: Volume, kids: seq<Node>, j: nat, base: nat, parent: nat)
    requires j < |kids|
    decreases kids, 0
  {
    Stored(v, kids[j], FirstOf(kids, j, base), parent)
  }

  /** A directory is stored, whatever name its parent records for it. */
  ghost predicate DirStored(v: Volume, kids: seq<Node>, lo: nat, parent: nat) {
    && ObjectStored(v, DirChain(kids, lo), DirBytes(Items(kids, |kids|, lo + 1), lo, parent))
    && KidsStored(v, kids, lo + 1, lo)
  }

  lemma NamedDirStored(v: Volume, n: Node, lo: nat, parent: nat)
    requires n.Dir? && DirStored(v, n.kids, lo, parent)
    ensures Stored(v, n, lo, parent)
  {
  }

  ghost predicate SameCluster(v: Volume, w: Volume, c: nat) {
    c < |v.fat| && c < |w.fat| && v.fat[c] == w.fat[c] && ClusterBytes(v, c) == ClusterBytes(w, c)
  }

  /** Two volumes hold the same in a range of clusters. */
  ghost predicate Agree(v: Volume, w: Volume, lo: nat, hi: nat) {
    |v.fat| == |w.fat| && forall c :: lo <= c < hi && c < |v.fat| ==> SameCluster(v, w, c)
  }

  lemma ObjectFrame(v: Volume, w: Volume, chain: seq<nat>, content: seq<byte>, lo: nat, hi: nat)
    requires ObjectStored(v, chain, content) && Agree(v, w, lo, hi)
    requires forall i :: 0 <= i < |chain| ==> lo <= chain[i] < hi
    ensures ObjectStored(w, chain, content)
  {
    forall i | 0 <= i < |chain| ensures LinkAt(w.fat, chain, i) && PieceAt(w, chain, content, i) {
      assert LinkAt(v.fat, chain, i) && PieceAt(v, chain, content, i);
      assert SameCluster(v, w, chain[i]);
    }
  }

  /** What a subtree is depends only on its own range: later allocations never disturb it. */
  lemma {:induction false} StoredFrame(v: Volume, w: Volume, n: Node, lo: nat, parent: nat)
    requires Stored(v, n, lo, parent) && Agree(v, w, lo, lo + Clusters(n))
    ensures Stored(w, n, lo, parent)
    decreases n
  {
    ChainInRange(n, lo);
    ObjectFrame(v, w, Chain(n, lo), Content(n, lo, parent), lo, lo + Clusters(n));
    if n.Dir? {
      KidsFrame(v, w, n.kids, lo + 1, lo);
    }
  }

  lemma {:induction false} KidsFrame(v: Volume, w: Volume, kids: seq<Node>, base: nat, parent: nat)
    requires KidsStored(v, kids, base, parent) && Agree(v, w, base, base + Span(kids, |kids|))
    ensures KidsStored(w, kids, base, parent)
    decreases kids
  {
    forall j | 0 <= j < |kids| ensures KidStored(w, kids, j, base, parent) {
      assert KidStored(v, kids, j, base, parent);
      SpanMonotone(kids, j, |kids|);
      StoredFrame(v, w, kids[j], FirstOf(kids, j, base), parent);
    }
  }

  // ---------------------------------------------------------------- adding a child to a directory

  lemma {:induction false} SpanOfPrefix(front: seq<Node>, n: Node, j: nat)
    requires j <= |front|
    ensures Span(front + [n], j) == Span(front, j)
  {
    if j > 0 {
      SpanOfPrefix(front, n, j - 1);
    }
  }

  lemma SpanOfAppend(front: seq<Node>, n: Node)
    ensures Span(front + [n], |front| + 1) == Span(front, |front|) + Clusters(n)
  {
    SpanOfPrefix(front, n, |front|);
  }

  lemma {:induction false} ItemsOfPrefix(front: seq<Node>, n: Node, j: nat, base: nat)
    requires j <= |front|
    ensures Items(front + [n], j, base) == Items(front, j, base)
  {
    if j > 0 {
      ItemsOfPrefix(front, n, j - 1, base);
      SpanOfPrefix(front, n, j - 1);
    }
  }

  lemma ItemsOfAppend(front: seq<Node>, n: Node, j: nat, base: nat, next: nat)
    requires j == |front| && next == FirstOf(front, j, base)
    ensures Items(front + [n], j + 1, base) == Items(front, j, base) + [ItemAt(n, next)]
  {
    ItemsOfPrefix(front, n, j, base);
    SpanOfPrefix(front, n, j);
  }

  lemma TableOfAppend(front: seq<Node>, n: Node, j: nat, base: nat, next: nat)
    requires j == |front| && next == FirstOf(front, j, base)
    ensures TableBytes(Items(front + [n], j + 1, base))
      == TableBytes(Items(front, j, base)) + ItemBytes(ItemAt(n, next))
  {
    ItemsOfAppend(front, n, j, base, next);
    TableAppend(Items(front, j, base), ItemAt(n, next));
  }

  lemma FirstOfPrefix(front: seq<Node>, n: Node, j: nat, base: nat)
    requires j <= |front|
    ensures FirstOf(front + [n], j, base) == FirstOf(front, j, base)
  {
    SpanOfPrefix(front, n, j);
  }

  lemma KidsOfAppend(v: Volume, front: seq<Node>, n: Node, base: nat, parent: nat)
    requires KidsStored(v, front, base, parent) && KidStored(v, front + [n], |front|, base, parent)
    ensures KidsStored(v, front + [n], base, parent)
  {
    var all := front + [n];
    forall j | 0 <= j < |all| ensures KidStored(v, all, j, base, parent) {
      if j < |front| {
        KidKept(v, front, n, base, parent, j);
      }
    }
  }

  lemma KidKept(v: Volume, front: seq<Node>, n: Node, base: nat, parent: nat, j: nat)
    requires j < |front| && KidStored(v, front, j, base, parent)
    ensures KidStored(v, front + [n], j, base, parent)
  {
    FirstOfPrefix(front, n, j, base);
    assert (front + [n])[j] == front[j];
  }

  lemma KidAdded(v: Volume, front: seq<Node>, n: Node, base: nat, parent: nat)
    requires Stored(v, n, FirstOf(front, |front|, base), parent)
    ensures KidStored(v, front + [n], |front|, base, parent)
  {
    FirstOfPrefix(front, n, |front|, base);
    assert (front + [n])[|front|] == n;
  }

  // ---------------------------------------------------------------- reading it back

  lemma {:induction false} FollowLinked(fat: seq<nat>, chain: seq<nat>, i: nat, fuel: nat)
    requires forall k :: 0 <= k < |chain| ==> LinkAt(fat, chain, k)
    requires |fat| <= 0xFFF8 && i < |chain| && fuel >= |chain| - i
    ensures Follow(fat, chain[i], fuel) == Ok(chain[i..])
    decreases |chain| - i
  {
    assert LinkAt(fat, chain, i);
    if i < |chain| - 1 {
      assert LinkAt(fat, chain, i + 1);
      FollowLinked(fat, chain, i + 1, fuel - 1);
      assert [chain[i]] + chain[i + 1..] == chain[i..];
    } else {
      assert chain[i..] == [chain[i]];
    }
  }

  lemma {:induction false} GatherStored(v: Volume, chain: seq<nat>, content: seq<byte>, i: nat)
    requires ObjectStored(v, chain, content) && i <= |chain|
    ensures Gather(v, chain[i..]) == Padded(content, |chain|)[CLUSTER_BYTES * i..]
    decreases |chain| - i
  {
    var p := Padded(content, |chain|);
    if i < |chain| {
      assert PieceAt(v, chain, content, i);
      GatherStored(v, chain, content, i + 1);
      assert chain[i..][1..] == chain[i + 1..];
      assert p[CLUSTER_BYTES * i..] == p[CLUSTER_BYTES * i..CLUSTER_BYTES * (i + 1)] + p[CLUSTER_BYTES * (i + 1)..];
    }
  }

  /** An increasing chain inside the table is no longer than the table. */
  lemma {:induction false} IncreasingLength(chain: seq<nat>, i: nat)
    requires forall a, b :: 0 <= a < b < |chain| ==> chain[a] < chain[b]
    requires i < |chain|
    ensures i <= chain[i]
  {
    if i > 0 {
      IncreasingLength(chain, i - 1);
    }
  }

  lemma ReadStoredChain(v: Volume, chain: seq<nat>, content: seq<byte>)
    requires ObjectStored(v, chain, content) && |v.fat| <= 0xFFF8
    requires forall i, j :: 0 <= i < j < |chain| ==> chain[i] < chain[j]
    ensures ReadChain(v, chain[0]) == Ok(Padded(content, |chain|))
  {
    assert LinkAt(v.fat, chain, |chain| - 1);
    IncreasingLength(chain, |chain| - 1);
    FollowLinked(v.fat, chain, 0, |v.fat|);
    GatherStored(v, chain, content, 0);
    assert chain[0..] == chain;
  }

  function DotEntries(lo: nat, parent: nat): seq<Entry> {
    [Entry([0x2E], 0x10, lo, 0), Entry([0x2E, 0x2E], 0x10, parent, 0)]
  }

  lemma PrependBoth(a: Entry, b: Entry, r: Result<seq<Entry>>)
    ensures Prepend(a, Prepend(b, r)) == PrependAll([a, b], r)
  {
    if r.Ok? {
      assert [a] + ([b] + r.value) == [a, b] + r.value;
    }
  }

  lemma DotNames()
    ensures ShortText(DOT) == [0x2E] && ShortText(DOTDOT) == [0x2E, 0x2E]
  {
    var none: seq<byte>, one: seq<byte>, two: seq<byte> := [], [0x2E], [0x2E, 0x2E];
    assert DOT[..8] == one + seq(7, _ => 0x20) && DOTDOT[..8] == two + seq(6, _ => 0x20);
    assert DOT[8..] == none + seq(3, _ => 0x20) && DOTDOT[8..] == none + seq(3, _ => 0x20);
    TrimmedFilling(one, 7);
    TrimmedFilling(two, 6);
    TrimmedFilling(none, 3);
  }

  lemma DotsRoundTrip(lo: nat, parent: nat, rest: seq<byte>)
    requires lo < 0x10000 && parent < 0x10000
    ensures ParseDir(DotTable(lo, parent) + rest, NoPending)
      == PrependAll(DotEntries(lo, parent), ParseDir(rest, NoPending))
  {
    var dot, dotdot := DirEntry(DOT, ATTR_DIRECTORY, lo, 0), DirEntry(DOTDOT, ATTR_DIRECTORY, parent, 0);
    assert DotTable(lo, parent) + rest == dot + (dotdot + rest);
    ParseDirEntry(DOT, ATTR_DIRECTORY, lo, 0, dotdot + rest, NoPending);
    ParseDirEntry(DOTDOT, ATTR_DIRECTORY, parent, 0, rest, NoPending);
    DotNames();
    var e := DotEntries(lo, parent);
    PrependBoth(e[0], e[1], ParseDir(rest, NoPending));
  }

  lemma DirBytesRoundTrip(items: seq<Item>, lo: nat, parent: nat)
    requires lo < 0x10000 && parent < 0x10000
    requires GoodTable(items)
    ensures ParseDir(DirBytes(items, lo, parent), NoPending) == Ok(DotEntries(lo, parent) + ItemEntries(items))
  {
    var table := TableBytes(items);
    var n := CLUSTER_BYTES - |DotTable(lo, parent) + table| % CLUSTER_BYTES;
    assert DirBytes(items, lo, parent) == DotTable(lo, parent) + (table + Zeros(n));
    DotsRoundTrip(lo, parent, table + Zeros(n));
    TableEnds(items, n);
  }

  // ---------------------------------------------------------------- the tree a reader should see

  function View(n: Node): Object
    decreases n, 1
  {
    match n
    case File(name, naming, data) => FileObject(StoredName(name, naming), data)
    case Dir(name, naming, kids) => DirObject(StoredName(name, naming), Views(kids, |kids|))
  }

  function Views(kids: seq<Node>, j: nat): (vs: seq<Object>)
    requires j <= |kids|
    ensures |vs| == j
    decreases kids, 0, j
  {
    if j == 0 then [] else Views(kids, j - 1) + [View(kids[j - 1])]
  }

  lemma {:induction false} ViewsAt(kids: seq<Node>, j: nat, i: nat)
    requires i < j <= |kids|
    ensures Views(kids, j)[i] == View(kids[i])
    decreases j
  {
    if i < j - 1 {
      ViewsAt(kids, j - 1, i);
    }
  }

  lemma GoodItems(kids: seq<Node>, base: nat)
    requires AllBuildable(kids)
    requires base + Span(kids, |kids|) < 0x10000
    ensures GoodTable(Items(kids, |kids|, base))
  {
    var items := Items(kids, |kids|, base);
    forall i | 0 <= i < |items| ensures GoodItem(items[i]) {
      assert Buildable(kids[i]);
      SpanMonotone(kids, i, |kids|);
    }
  }

  lemma ReadFile(v: Volume, chain: seq<nat>, data: seq<byte>, name: seq<nat>, parent: nat, depth: nat)
    requires ObjectStored(v, chain, data) && |v.fat| <= 0xFFF8
    requires forall i, j :: 0 <= i < j < |chain| ==> chain[i] < chain[j]
    ensures ReadObject(v, Entry(name, ATTR_FILE, chain[0], |data|), parent, depth) == Ok(FileObject(name, data))
  {
    ReadStoredChain(v, chain, data);
    assert Padded(data, |chain|)[..|data|] == data;
  }

  lemma ReadDir(
      v: Volume, chain: seq<nat>, bytes: seq<byte>, entries: seq<Entry>, name: seq<nat>, parent: nat, depth: nat,
      objects: seq<Object>)
    requires ObjectStored(v, chain, bytes) && |bytes| == CLUSTER_BYTES * |chain| && |v.fat| <= 0xFFF8 && depth > 0
    requires forall i, j :: 0 <= i < j < |chain| ==> chain[i] < chain[j]
    requires ParseDir(bytes, NoPending) == Ok(DotEntries(chain[0], parent) + entries)
    requires ReadObjects(v, entries, chain[0], depth - 1) == Ok(objects)
    ensures ReadObject(v, Entry(name, ATTR_DIRECTORY, chain[0], 0), parent, depth) == Ok(DirObject(name, objects))
  {
    ReadStoredChain(v, chain, bytes);
    assert Padded(bytes, |chain|) == bytes;
    assert (DotEntries(chain[0], parent) + entries)[2..] == entries;
  }

  /** The reader, started from the record of an object, finds that object. */
  ghost predicate NodeReads(v: Volume, n: Node, lo: nat, parent: nat, depth: nat) {
    ReadObject(v, Entry(StoredName(n.name, n.naming), AttrOf(n), lo, SizeOf(n)), parent, depth) == Ok(View(n))
  }

  /** The reader, given the parsed table of a directory, finds its children. */
  ghost predicate KidsRead(v: Volume, kids: seq<Node>, base: nat, parent: nat, depth: nat) {
    ReadObjects(v, ItemEntries(Items(kids, |kids|, base)), parent, depth) == Ok(Views(kids, |kids|))
  }

  lemma ReadStoredDir(v: Volume, n: Node, lo: nat, parent: nat, depth: nat)
    requires n.Dir? && Stored(v, n, lo, parent)
    requires |v.fat| <= 0xFFF8 && lo < 0xFFF8 && parent < 0xFFF8 && depth > 0
    requires Buildable(n) && lo + 1 + Span(n.kids, |n.kids|) < 0x10000
    ensures KidsRead(v, n.kids, lo + 1, lo, depth - 1) ==> NodeReads(v, n, lo, parent, depth)
  {
    var items, chain, content := Items(n.kids, |n.kids|, lo + 1), Chain(n, lo), Content(n, lo, parent);
    ChainInRange(n, lo);
    DirBytesLength(n.kids, lo, parent);
    assert |content| == CLUSTER_BYTES * |chain|;
    BuildableTable(n, lo + 1);
    DirBytesRoundTrip(items, lo, parent);
    if KidsRead(v, n.kids, lo + 1, lo, depth - 1) {
      ReadDir(v, chain, content, ItemEntries(items), StoredName(n.name, n.naming), parent, depth,
        Views(n.kids, |n.kids|));
    }
  }

  lemma BuildableTable(n: Node, base: nat)
    requires n.Dir? && Buildable(n) && base + Span(n.kids, |n.kids|) < 0x10000
    ensures GoodTable(Items(n.kids, |n.kids|, base))
  {
    GoodItems(n.kids, base);
  }

  /** An object that is recorded, stored, and within the table and the reader's depth. */
  ghost predicate NodeReadable(v: Volume, n: Node, lo: nat, parent: nat, depth: nat) {
    && Buildable(n) && Stored(v, n, lo, parent)
    && lo + Clusters(n) <= |v.fat| <= 0xFFF8 && parent < 0xFFF8
    && depth >= Clusters(n)
  }

  /** The reader, started from the entry of a stored object, finds exactly that object. */
  lemma {:induction false} StoredReads(v: Volume, n: Node, lo: nat, parent: nat, depth: nat)
    requires NodeReadable(v, n, lo, parent, depth)
    ensures NodeReads(v, n, lo, parent, depth)
    decreases n
  {
    if n.Dir? {
      StoredReadsDir(v, n, lo, parent, depth);
      StoredReadsAll(v, n.kids, lo + 1, lo, depth - 1);
    } else {
      StoredReadsFile(v, n, lo, parent, depth);
    }
  }

  lemma StoredReadsDir(v: Volume, n: Node, lo: nat, parent: nat, depth: nat)
    requires n.Dir? && NodeReadable(v, n, lo, parent, depth)
    ensures depth > 0 && Readable(v, n.kids, lo + 1, lo, depth - 1)
    ensures KidsRead(v, n.kids, lo + 1, lo, depth - 1) ==> NodeReads(v, n, lo, parent, depth)
  {
    KidsReadable(v, n, lo, parent, depth);
    ReadStoredDir(v, n, lo, parent, depth);
  }

  lemma StoredReadsFile(v: Volume, n: Node, lo: nat, parent: nat, depth: nat)
    requires n.File? && NodeReadable(v, n, lo, parent, depth)
    ensures NodeReads(v, n, lo, parent, depth)
  {
    ChainInRange(n, lo);
    ReadFile(v, Chain(n, lo), n.data, StoredName(n.name, n.naming), parent, depth);
  }

  /** Children that are recorded, stored, and within the table and the reader's depth. */
  ghost predicate Readable(v: Volume, kids: seq<Node>, base: nat, parent: nat, depth: nat) {
    match v
    case Volume(fat, _, _) =>
      && AllBuildable(kids) && KidsStored(v, kids, base, parent)
      && base + Span(kids, |kids|) <= |fat| <= 0xFFF8 && parent < 0xFFF8
      && depth >= Span(kids, |kids|)
  }

  lemma KidsReadable(v: Volume, n: Node, lo: nat, parent: nat, depth: nat)
    requires n.Dir? && Buildable(n) && Stored(v, n, lo, parent)
    requires lo + Clusters(n) <= |v.fat| <= 0xFFF8 && depth >= Clusters(n)
    ensures depth > 0 && lo + 1 + Span(n.kids, |n.kids|) < 0x10000 && Readable(v, n.kids, lo + 1, lo, depth - 1)
  {
    assert Span(n.kids, |n.kids|) + 1 <= Clusters(n);
  }

  /** A stored directory, or the root, reads back as the list of its children. */
  lemma {:induction false} StoredReadsAll(v: Volume, kids: seq<Node>, base: nat, parent: nat, depth: nat)
    ensures Readable(v, kids, base, parent, depth) ==> KidsRead(v, kids, base, parent, depth)
    decreases kids
  {
    if Readable(v, kids, base, parent, depth) {
      var entries := ItemEntries(Items(kids, |kids|, base));
      forall j | 0 <= j < |kids| ensures ReadObject(v, entries[j], parent, depth) == Ok(Views(kids, |kids|)[j]) {
        assert KidStored(v, kids, j, base, parent);
        assert Buildable(kids[j]);
        SpanMonotone(kids, j, |kids|);
        ViewsAt(kids, |kids|, j);
        StoredReads(v, kids[j], FirstOf(kids, j, base), parent, depth);
      }
      ReadPointwise(v, entries, parent, depth, Views(kids, |kids|));
    }
  }
}
