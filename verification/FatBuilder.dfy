/**
  The image builder: allocates cluster chains, writes directories depth first and
  finally the root directory and both copies of the allocation table.
*/
module FatBuilder {
  import opened Bytes
  import opened FatGeometry
  import opened FatRecords
  import opened FatReader
  import opened FatLayout
  import opened FatOwnership
  import opened FatNaming
  import opened FatNames
  import opened FatWrites
  import opened FatMount

  /** More clusters than this would not be FAT16. */
  const MAX_CLUSTERS := 65525

  class ImageBuilder {
    const totalSectors: nat
    const fatSectors: nat
    const rootSector: nat
    const dataSector: nat
    const clusterCount: nat
    var image: seq<byte>
    var fat: seq<nat>
    var nextCluster: nat

    /** Sizes the image and the table for a total the geometry search can handle. */
    constructor (total: nat)
      requires Solvable(total) && total < 0x1_0000_0000
      requires 0 <= ClustersFor(total, FixedPoint(total)) < MAX_CLUSTERS
      ensures Valid() && Describable() && SmallLinks(fat) && nextCluster == 2
      ensures totalSectors == total && clusterCount == ClustersFor(total, FixedPoint(total))
    {
      var g := ComputeGeometry(total);
      TableHolds(total, g);
      totalSectors, fatSectors, rootSector := total, g.fatSectors, g.rootSector;
      dataSector, clusterCount := g.rootSector + g.rootDirSectors, g.clusters;
      image := Zeros(BYTES_PER_SECTOR * total);
      fat := [0xFFF0 + 8, EOC] + seq<nat>(g.clusters, _ => 0);
      nextCluster := 2;
      new;
      AllFresh(Vol());
    }

    ghost function Vol(): Volume
      reads this
    {
      Volume(fat, image, BYTES_PER_SECTOR * dataSector)
    }

    /** Allocated clusters are exactly 2 up to the next one; all later ones are untouched. */
    ghost predicate Valid()
      reads this
    {
      && Shaped()
      && 2 <= nextCluster <= |fat|
      && FreshFrom(Vol(), nextCluster)
      && Taken(fat, nextCluster)
    }

    /** The image and the table have the sizes the geometry gives them. */
    ghost predicate Shaped()
      reads this
    {
      && |image| == BYTES_PER_SECTOR * totalSectors
      && |fat| == clusterCount + 2 && fat[0] == 0xFFF8 && fat[1] == EOC
      && rootSector == RESERVED_SECTORS + FAT_COUNT * fatSectors
      && dataSector == rootSector + ROOT_DIR_SECTORS
      && dataSector + SECTORS_PER_CLUSTER * clusterCount <= totalSectors
      && clusterCount < MAX_CLUSTERS
    }

    /** The table has room for every cluster, and the boot sector for the sizes. */
    ghost predicate Describable() {
      && clusterCount == (totalSectors - dataSector) / SECTORS_PER_CLUSTER
      && 2 * (clusterCount + 2) <= BYTES_PER_SECTOR * fatSectors
      && fatSectors < 0x10000 && totalSectors < 0x1_0000_0000
    }

    /** Reserves the next cluster as a chain of one; fails when the table is full. */
    method ReserveCluster() returns (r: Result<nat>)
      requires Valid()
      modifies this
      ensures r.Ok? <==> old(nextCluster) < |old(fat)|
      ensures r.Ok? ==> Valid() && r.value == old(nextCluster) && nextCluster == old(nextCluster) + 1
      ensures r.Ok? ==> fat[r.value] == EOC && Undisturbed(old(Vol()), Vol(), r.value)
    {
      var cluster := nextCluster;
      nextCluster := nextCluster + 1;
      if cluster >= |fat| {
        return Err;
      }
      ghost var before := Vol();
      fat := fat[cluster := EOC];
      RelinkIsPut(before, cluster, EOC);
      UndisturbedAfterPut(before, before, Vol(), cluster, EOC, ClusterBytes(before, cluster), cluster);
      assert FreshFrom(before, nextCluster);
      FreshAfterPut(before, Vol(), cluster, EOC, ClusterBytes(before, cluster), nextCluster);
      TakeNext(before.fat, cluster);
      return Ok(cluster);
    }

    /** Links a cluster and writes a chunk at its start. */
    method StoreChunk(cluster: nat, link: nat, chunk: seq<byte>)
      requires InImage(Vol(), cluster) && |chunk| <= CLUSTER_BYTES
      modifies this`fat, this`image
      ensures IsPut(old(Vol()), Vol(), cluster, link, chunk + ClusterBytes(old(Vol()), cluster)[|chunk|..])
    {
      ghost var v := Vol();
      fat := fat[cluster := link];
      var at := ClusterOffset(cluster);
      image := SliceAssign(image, at, at + |chunk|, chunk);
      WriteInCluster(v, cluster, chunk, link, Vol());
    }

    /** Ends a chain at a cluster, zero-fills the cluster and writes a chunk at its start. */
    method StoreZeroed(cluster: nat, chunk: seq<byte>)
      requires InImage(Vol(), cluster) && |chunk| <= CLUSTER_BYTES
      modifies this`fat, this`image
      ensures IsPut(old(Vol()), Vol(), cluster, EOC, chunk + Zeros(CLUSTER_BYTES - |chunk|))
    {
      ghost var v := Vol();
      StoreChunk(cluster, EOC, Zeros(CLUSTER_BYTES));
      ghost var mid := Vol();
      StoreChunk(cluster, EOC, chunk);
      FillIsPut(v, cluster, chunk, mid, Vol());
    }

    /** Makes a cluster point to another one. */
    method Relink(cluster: nat, next: nat)
      requires cluster < |fat| && Vol().dataStart <= |image|
      modifies this`fat
      ensures IsPut(old(Vol()), Vol(), cluster, next, ClusterBytes(old(Vol()), cluster))
    {
      ghost var u := Vol();
      fat := fat[cluster := next];
      RelinkIsPut(u, cluster, next);
    }

    /** Writes a file into the next clusters. */
    method AllocateChain(data: seq<byte>) returns (r: Result<nat>)
      requires Valid()
      modifies this
      ensures r.Ok? <==> old(nextCluster) + DataClusters(|data|) <= |old(fat)|
      ensures r.Ok? ==> Valid() && r.value == old(nextCluster) && nextCluster == old(nextCluster) + DataClusters(|data|)
      ensures r.Ok? ==> ObjectStored(Vol(), Run(old(nextCluster), DataClusters(|data|)), data)
      ensures r.Ok? ==> Undisturbed(old(Vol()), Vol(), old(nextCluster))
    {
      var count := Max(1, CeilDiv(|data|, CLUSTER_BYTES));
      var first := nextCluster;
      ghost var start := Vol();
      for i := 0 to count
        invariant nextCluster == first + i <= |fat| == |start.fat|
        invariant Laying(start, Vol(), first, count, data, i)
      {
        ghost var v := Vol();
        var cluster := nextCluster;
        nextCluster := nextCluster + 1;
        if cluster >= |fat| {
          return Err;
        }
        assert FreshAt(v, cluster);
        StoreChunk(cluster, if i + 1 < count then nextCluster else EOC, Chunk(data, i));
        AllocateStep(start, v, Vol(), first, count, data, i);
      }
      UndisturbedShape(start, Vol(), first);
      LaidIsStored(Vol(), Run(first, count), data);
      TakenByFile(start, Vol(), first, count, data);
      return Ok(first);
    }

    /** Writes a directory into its reserved cluster and as many further ones as it needs. */
    method WriteChain(first: nat, data: seq<byte>) returns (ok: bool)
      requires Valid() && 2 <= first < nextCluster
      modifies this
      ensures ok <==> old(nextCluster) + DataClusters(|data|) - 1 <= |old(fat)|
      ensures ok ==> Valid() && nextCluster == old(nextCluster) + DataClusters(|data|) - 1
      ensures ok ==> ObjectStored(Vol(), SplitChain(first, old(nextCluster), DataClusters(|data|)), data)
      ensures ok ==> Undisturbed(old(Vol()), Vol(), first) && Agree(old(Vol()), Vol(), first + 1, old(nextCluster))
    {
      var count := Max(1, CeilDiv(|data|, CLUSTER_BYTES));
      var cluster := first;
      ghost var tail, start := nextCluster, Vol();
      for i := 0 to count
        invariant nextCluster == Max(tail, tail + i - 1) <= |fat| == |start.fat|
        invariant cluster == SplitLink(first, tail, i - 1)
        invariant Growing(start, Vol(), first, tail, count, data, i)
      {
        ok, cluster := WriteNext(cluster, Chunk(data, i), start, first, tail, count, data, i);
        if !ok {
          return;
        }
      }
      UndisturbedShape(start, Vol(), first);
      GrownIsStored(Vol(), SplitChain(first, tail, count), data);
      TakenByDirectory(start, Vol(), first, tail, count, data);
      return true;
    }

    /** One round of the loop: links a further cluster except in the first round, then zeroes and fills it. */
    method WriteNext(cluster: nat, chunk: seq<byte>,
                     ghost start: Volume, ghost first: nat, ghost tail: nat, ghost count: nat,
                     ghost data: seq<byte>, i: nat)
        returns (ok: bool, here: nat)
      requires nextCluster == Max(tail, tail + i - 1) <= |fat| && i < count && cluster == SplitLink(first, tail, i - 1)
      requires Growing(start, Vol(), first, tail, count, data, i) && chunk == Chunk(data, i)
      modifies this
      ensures ok <==> SplitLink(first, tail, i) < |old(fat)|
      ensures ok ==> here == SplitLink(first, tail, i) && nextCluster == tail + i && |fat| == |old(fat)|
      ensures ok ==> Growing(start, Vol(), first, tail, count, data, i + 1)
    {
      ghost var u := Vol();
      here := cluster;
      if i > 0 {
        here := nextCluster;
        nextCluster := nextCluster + 1;
        Relink(cluster, here);
      }
      if here >= |fat| {
        return false, here;
      }
      ghost var v := Vol();
      assert InImage(u, here) && InImage(v, here);
      StoreZeroed(here, chunk);
      WriteStep(start, u, v, Vol(), first, tail, count, data, i);
      return true, here;
    }

    /** Builds one child and its record, as in the loops over the children of a directory and of the root. */
    method BuildKid(h: Host, parent: nat, used: set<seq<byte>>) returns (r: Result<seq<byte>>, used': set<seq<byte>>)
      requires Valid() && parent < 0xFFF8
      modifies this
      ensures r.Ok? <==> NameNext(h, used).Some? && old(nextCluster) + Clusters(NameNext(h, used).value) <= |old(fat)|
      ensures r.Ok? ==> KidBuilt(old(Vol()), Vol(), NameNext(h, used).value, old(nextCluster), parent)
      ensures r.Ok? ==> Valid() && nextCluster == old(nextCluster) + Clusters(NameNext(h, used).value)
      ensures r.Ok? ==> r.value == ItemBytes(ItemAt(NameNext(h, used).value, old(nextCluster)))
      ensures r.Ok? ==> used' == used + {NameNext(h, used).value.naming.short}
      decreases h
    {
      used' := used;
      var cluster: Result<nat>;
      match h {
        case HostDir(_, kids) =>
          cluster := BuildDirectory(kids, parent);
        case HostFile(_, data) =>
          cluster := AllocateChain(data);
      }
      if cluster.Err? {
        return Err, used;
      }
      var attr := if h.HostDir? then ATTR_DIRECTORY else ATTR_FILE;
      r, used' := DirectoryRecord(h.name, attr, cluster.value, HostSize(h), used);
      if r.Ok? && h.HostDir? {
        NamedDirStored(Vol(), NameNext(h, used).value, cluster.value, parent);
      }
    }

    /** Builds the children of one directory in order and returns the bytes of its table. */
    method BuildKids(hosts: seq<Host>, parent: nat, names: set<seq<byte>>) returns (r: Result<seq<byte>>)
      requires Valid() && parent < 0xFFF8
      modifies this
      ensures r.Ok? <==> KidsFit(hosts, names, old(nextCluster), |old(fat)|)
      ensures r.Ok? ==> Valid() && nextCluster == old(nextCluster) + Extent(NameAll(hosts, names).value)
      ensures r.Ok? ==> r.value == KidTable(NameAll(hosts, names).value, old(nextCluster))
      ensures r.Ok? ==> KidsBuilt(old(Vol()), Vol(), NameAll(hosts, names).value, old(nextCluster), parent)
      decreases hosts, 0
    {
      ghost var start, base := Vol(), nextCluster;
      var entries: seq<byte> := [];
      var used := names;
      ghost var front: seq<Node> := [];
      for j := 0 to |hosts|
        invariant Valid() && |fat| == |start.fat|
        invariant Partial(start, Vol(), hosts, j, front, names, used, base, parent, nextCluster)
        invariant entries == TableBytes(Items(front, j, base))
      {
        ghost var v, next := Vol(), nextCluster;
        var record, used' := BuildKid(hosts[j], parent, used);
        if record.Err? {
          KidFails(hosts, j, front, names, base, |start.fat|);
          return Err;
        }
        ghost var node := NameNext(hosts[j], used).value;
        PartialStep(start, v, Vol(), hosts, j, front, node, names, used, base, parent, next);
        TableOfAppend(front, node, j, base, next);
        front := front + [node];
        entries, used := entries + record.value, used';
      }
      return Ok(entries);
    }

    /** Builds a subdirectory depth first; its table is written after its children. */
    method BuildDirectory(hosts: seq<Host>, parent: nat) returns (r: Result<nat>)
      requires Valid() && parent < 0xFFF8
      modifies this
      ensures r.Ok? <==> DirFits(hosts, old(nextCluster), |old(fat)|)
      ensures r.Ok? ==> Valid() && r.value == old(nextCluster)
      ensures r.Ok? ==> nextCluster == old(nextCluster) + DirSpan(NameAll(hosts, DOT_NAMES).value)
      ensures r.Ok? ==> DirBuilt(old(Vol()), Vol(), NameAll(hosts, DOT_NAMES).value, old(nextCluster), parent)
      decreases hosts, 1
    {
      ghost var start, limit := Vol(), |fat|;
      DirFitsParts(hosts, nextCluster, limit);
      var reserved := ReserveCluster();
      if reserved.Err? {
        return Err;
      }
      var self := reserved.value;
      ghost var own := Vol();
      var table := BuildKids(hosts, self, DOT_NAMES);
      if table.Err? {
        return Err;
      }
      ghost var v := Vol();
      var ok := WriteDirectory(self, parent, table.value, NameAll(hosts, DOT_NAMES).value);
      if !ok {
        return Err;
      }
      DirectoryKeeps(start, own, v, Vol(), self);
      return Ok(self);
    }

    /** Writes the table of a directory whose children are in place, after its two dot entries. */
    method WriteDirectory(self: nat, parent: nat, table: seq<byte>, ghost kids: seq<Node>) returns (ok: bool)
      requires Valid() && 2 <= self && nextCluster == self + 1 + Extent(kids)
      requires table == KidTable(kids, self + 1)
      modifies this
      ensures ok <==> old(nextCluster) + DirClusters(kids) - 1 <= |old(fat)|
      ensures ok ==> Valid() && nextCluster == old(nextCluster) + DirClusters(kids) - 1
      ensures ok ==> Undisturbed(old(Vol()), Vol(), self)
      ensures ok && old(KidsStored(Vol(), kids, self + 1, self)) ==> DirStored(Vol(), kids, self, parent)
    {
      ghost var v, tail := Vol(), nextCluster;
      var directory := DotTable(self, parent) + table;
      directory := directory + Zeros(CLUSTER_BYTES - |directory| % CLUSTER_BYTES);
      TableClusters(kids, self, parent, table);
      ok := WriteChain(self, directory);
      if ok && KidsStored(v, kids, self + 1, self) {
        KidsKept(v, Vol(), kids, self, tail);
        StoredAsDir(Vol(), kids, self, parent, tail, directory);
      }
    }

    /** Overwrites a region in front of the data. */
    method PutRegion(at: nat, bytes: seq<byte>)
      requires at + |bytes| <= BYTES_PER_SECTOR * dataSector <= |image|
      modifies this`image
      ensures |image| == |old(image)| && Agree(old(Vol()), Vol(), 2, |fat|)
      ensures image[at..at + |bytes|] == bytes
      ensures forall i, j :: 0 <= i <= j <= |image| && (j <= at || at + |bytes| <= i) ==>
        image[i..j] == old(image[i..j])
    {
      ghost var v := Vol();
      image := SliceAssign(image, at, at + |bytes|, bytes);
      RegionWrite(v, Vol(), at, bytes);
    }

    ghost predicate TableFits()
      reads this
    {
      && 2 * |fat| <= BYTES_PER_SECTOR * fatSectors
      && rootSector == RESERVED_SECTORS + FAT_COUNT * fatSectors
      && dataSector == rootSector + ROOT_DIR_SECTORS
    }

    /** Packs the table into sectors; the bound check never drops an entry. */
    method EncodeFat() returns (table: seq<byte>)
      requires TableFits() && SmallLinks(fat)
      ensures |table| == BYTES_PER_SECTOR * fatSectors
      ensures forall i :: 0 <= i < |fat| ==> GetU16(table, 2 * i) == fat[i]
    {
      var bytes := new byte[BYTES_PER_SECTOR * fatSectors](_ => 0);
      for index := 0 to |fat|
        invariant forall i :: 0 <= i < index ==> (bytes[2 * i] as int) + 256 * (bytes[2 * i + 1] as int) == fat[i]
      {
        if index * 2 + 2 <= bytes.Length {
          var value := fat[index];
          bytes[index * 2], bytes[index * 2 + 1] := value % 256, (value / 256) % 256;
        }
      }
      table := bytes[..];
    }

    /** Writes both copies of the table. */
    method WriteFats() returns (ghost table: seq<byte>)
      requires TableFits() && SmallLinks(fat) && BYTES_PER_SECTOR * dataSector <= |image|
      modifies this`image
      ensures |image| == |old(image)| && Agree(old(Vol()), Vol(), 2, |fat|)
      ensures |table| == BYTES_PER_SECTOR * fatSectors
      ensures forall i :: 0 <= i < |fat| ==> GetU16(table, 2 * i) == fat[i]
      ensures image[512..512 + |table|] == table && image[512 + |table|..512 * rootSector] == table
      ensures image[0..512] == old(image[0..512])
      ensures image[512 * rootSector..512 * rootSector + ROOT_BYTES]
        == old(image[512 * rootSector..512 * rootSector + ROOT_BYTES])
    {
      var bytes := EncodeFat();
      table := bytes;
      ghost var v := Vol();
      PutRegion(BYTES_PER_SECTOR * RESERVED_SECTORS, bytes);
      ghost var mid := Vol();
      PutRegion(BYTES_PER_SECTOR * (RESERVED_SECTORS + fatSectors), bytes);
      AgreeTransitive(v, mid, Vol(), 2, |fat|);
    }

    /** Builds the whole image. */
    method Build(hosts: seq<Host>) returns (ok: bool)
      requires Valid() && Describable() && SmallLinks(fat) && nextCluster == 2
      modifies this
      ensures ok <==> KidsFit(hosts, {}, 2, clusterCount + 2)
      ensures ok ==> (ReadsBack(image, hosts) <==> RootFits(NameAll(hosts, {}).value))
      ensures ok && RootFits(NameAll(hosts, {}).value) ==>
        ReadVolume(image) == Ok(Views(NameAll(hosts, {}).value, |hosts|))
      ensures ok ==> |image| == BYTES_PER_SECTOR * totalSectors
      ensures ok ==> OneHolderEach(fat, NameAll(hosts, {}).value, 2)
    {
      PutRegion(0, BootSector(fatSectors, totalSectors));
      ghost var booted := Vol();
      FreshIfAgree(old(Vol()), booted, 2);
      var table := BuildKids(hosts, 0, {});
      if table.Err? {
        return false;
      }
      BootKept(booted, Vol());
      InUseBelow(Vol(), nextCluster);
      Allocated(fat, NameAll(hosts, {}).value, 2);
      FinishImage(table.value, NameAll(hosts, {}).value);
      BuiltShows(image, hosts, NameAll(hosts, {}).value);
      return true;
    }

    /** Writes the root directory and the tables, after all chains are in place. */
    method FinishImage(table: seq<byte>, ghost kids: seq<Node>)
      requires Shaped() && Describable() && SmallLinks(fat) && image[0..512] == BootSector(fatSectors, totalSectors)
      requires table == KidTable(kids, 2) && AllBuildable(kids) && 2 + Extent(kids) <= |fat|
      modifies this`image
      ensures old(KidsStored(Vol(), kids, 2, 0)) && RootFits(kids) ==> ReadVolume(image) == Ok(Views(kids, |kids|))
      ensures !RootFits(kids) ==> ReadsFewer(image, |kids|)
      ensures |image| == |old(image)|
    {
      ghost var built := Vol();
      var root := table + Zeros(Max(0, ROOT_BYTES - |table|));
      RootLength(kids, table, root);
      RootInside(kids, table, root, rootSector, clusterCount, totalSectors);
      ghost var rooted := WriteRegions(root);
      BuiltReads(built, rooted, Vol(), kids, table, root);
      CutOffReads(Vol(), kids, table, root);
    }

    /** Writes the root directory at its place, however long it is. */
    method WriteRoot(root: seq<byte>)
      requires Shaped() && |root| >= ROOT_BYTES
      modifies this`image
      ensures |image| >= |old(image)| && (512 * rootSector + |root| <= |old(image)| ==> |image| == |old(image)|)
      ensures |root| == ROOT_BYTES ==> |image| == |old(image)| && Agree(old(Vol()), Vol(), 2, |fat|)
      ensures image[0..512 * rootSector] == old(image[0..512 * rootSector])
      ensures image[512 * rootSector..512 * rootSector + ROOT_BYTES] == root[..ROOT_BYTES]
    {
      ghost var v := Vol();
      var start := rootSector * BYTES_PER_SECTOR;
      image := SliceAssign(image, start, start + |root|, root);
      RootWrite(v, Vol(), start, root);
    }

    /** Writes the root directory and both tables; the reader then mounts this volume. */
    method WriteRegions(root: seq<byte>) returns (ghost rooted: Volume)
      requires Shaped() && Describable() && SmallLinks(fat) && image[0..512] == BootSector(fatSectors, totalSectors)
      requires |root| >= ROOT_BYTES
      modifies this`image
      ensures MountVolume(image) == Ok((Vol(), root[..ROOT_BYTES]))
      ensures 512 * rootSector + |root| <= |old(image)| ==> |image| == |old(image)|
      ensures |root| == ROOT_BYTES ==> Agree(old(Vol()), rooted, 2, |fat|)
      ensures Agree(rooted, Vol(), 2, |fat|)
    {
      ghost var built := image;
      WriteRoot(root);
      rooted := Vol();
      ghost var sectors := WriteFats();
      ghost var fatEnd, rootStart := 512 + |sectors|, 512 * rootSector;
      assert rootStart == fatEnd + |sectors| && rootStart + ROOT_BYTES == 512 * dataSector;
      AllRegions(built, rooted.image, fatSectors, totalSectors, root, sectors, fatEnd, rootStart, Vol());
    }

    function ClusterOffset(cluster: nat): (offset: nat)
      requires cluster >= 2
      ensures offset == ClusterStart(BYTES_PER_SECTOR * dataSector, cluster)
    {
      var sector := dataSector + (cluster - 2) * SECTORS_PER_CLUSTER;
      sector * BYTES_PER_SECTOR
    }
  }

  /** Everything below a cluster, and everything in front of the data region, is as it was. */
  ghost predicate Undisturbed(v: Volume, w: Volume, next: nat) {
    && Agree(v, w, 2, next) && w.dataStart == v.dataStart && |w.image| == |v.image| && v.dataStart <= |v.image|
    && w.image[..v.dataStart] == v.image[..v.dataStart]
    && |v.fat| >= 2 && |w.fat| == |v.fat| && w.fat[..2] == v.fat[..2]
    && (SmallLinks(v.fat) ==> SmallLinks(w.fat))
  }

  /** Every table entry is a 16-bit word. */
  ghost predicate SmallLinks(fat: seq<nat>) {
    forall c :: 0 <= c < |fat| ==> fat[c] <= EOC
  }

  lemma UndisturbedShape(v: Volume, w: Volume, next: nat)
    requires Undisturbed(v, w, next)
    ensures |w.fat| == |v.fat| && |w.image| == |v.image| && w.fat[0] == v.fat[0] && w.fat[1] == v.fat[1]
  {
    assert w.fat[0] == w.fat[..2][0] && w.fat[1] == w.fat[..2][1];
    assert v.fat[0] == v.fat[..2][0] && v.fat[1] == v.fat[..2][1];
  }

  lemma UndisturbedAfterPut(u: Volume, v: Volume, w: Volume, c: nat, link: nat, piece: seq<byte>, next: nat)
    requires Undisturbed(u, v, next) && IsPut(v, w, c, link, piece) && c >= next && c >= 2 && link <= EOC
    ensures Undisturbed(u, w, next)
  {
    AgreeAfterPut(u, v, w, c, link, piece, 2, next);
  }

  /** A file partly written: its chain so far, with nothing else changed. */
  ghost predicate Laying(start: Volume, v: Volume, first: nat, count: nat, data: seq<byte>, i: nat) {
    && 2 <= first && i <= count == DataClusters(|data|) && |v.fat| <= EOC
    && Laid(v, Run(first, count), data, i)
    && Undisturbed(start, v, first) && FreshFrom(v, first + i)
  }

  /** One round of writing a file: the chain grows by a cluster and nothing else changes. */
  lemma AllocateStep(start: Volume, v: Volume, w: Volume, first: nat, count: nat, data: seq<byte>, i: nat)
    requires Laying(start, v, first, count, data, i) && i < count && first + i < |v.fat|
    requires FreshAt(v, first + i)
    requires IsPut(v, w, first + i, if i + 1 < count then first + i + 1 else EOC,
                   Chunk(data, i) + ClusterBytes(v, first + i)[|Chunk(data, i)|..])
    ensures Laying(start, w, first, count, data, i + 1)
  {
    var c, chunk := first + i, Chunk(data, i);
    var link := if i + 1 < count then c + 1 else EOC;
    var piece := chunk + Zeros(CLUSTER_BYTES - |chunk|);
    assert Zeros(CLUSTER_BYTES)[|chunk|..] == Zeros(CLUSTER_BYTES - |chunk|);
    ChunkIsPiece(data, count, i);
    LayChain(v, w, Run(first, count), data, i);
    UndisturbedAfterPut(start, v, w, c, link, piece, first);
    assert FreshFrom(v, c + 1);
    FreshAfterPut(v, w, c, link, piece, c + 1);
  }

  ghost predicate Growing(start: Volume, v: Volume, first: nat, tail: nat, count: nat, data: seq<byte>, i: nat) {
    && 2 <= first < tail && i <= count == DataClusters(|data|) && |v.fat| <= EOC
    && Grown(v, SplitChain(first, tail, count), data, i)
    && Undisturbed(start, v, first) && Agree(start, v, first + 1, tail)
    && FreshFrom(v, Max(tail, tail + i - 1)) && (forall c :: 2 <= c < |v.fat| ==> InImage(v, c))
  }

  lemma RelinkIsPut(u: Volume, c: nat, link: nat)
    requires c < |u.fat| && u.dataStart <= |u.image|
    ensures IsPut(u, u.(fat := u.fat[c := link]), c, link, ClusterBytes(u, c))
  {
  }

  lemma FillIsPut(v: Volume, c: nat, chunk: seq<byte>, mid: Volume, w: Volume)
    requires InImage(v, c) && |chunk| <= CLUSTER_BYTES
    requires IsPut(v, mid, c, EOC, Zeros(CLUSTER_BYTES) + ClusterBytes(v, c)[CLUSTER_BYTES..])
    requires IsPut(mid, w, c, EOC, chunk + ClusterBytes(mid, c)[|chunk|..])
    ensures IsPut(v, w, c, EOC, chunk + Zeros(CLUSTER_BYTES - |chunk|))
  {
    assert Zeros(CLUSTER_BYTES) + ClusterBytes(v, c)[CLUSTER_BYTES..] == Zeros(CLUSTER_BYTES);
    ZeroAndWrite(v, c, chunk, EOC, mid, w);
  }

  /** One round of writing a directory: relink the previous cluster, then zero and fill this one. */
  lemma WriteStep(start: Volume, u: Volume, v: Volume, w: Volume, first: nat, tail: nat, count: nat,
                  data: seq<byte>, i: nat)
    requires Growing(start, u, first, tail, count, data, i) && i < count
    requires SplitLink(first, tail, i) < |u.fat|
    requires if i == 0 then v == u
             else
               var previous := SplitLink(first, tail, i - 1);
               IsPut(u, v, previous, SplitLink(first, tail, i), ClusterBytes(u, previous))
    requires IsPut(v, w, SplitLink(first, tail, i), EOC, Chunk(data, i) + Zeros(CLUSTER_BYTES - |Chunk(data, i)|))
    ensures Growing(start, w, first, tail, count, data, i + 1)
  {
    var chunk := Chunk(data, i);
    ChunkIsPiece(data, count, i);
    GrowChain(u, v, w, SplitChain(first, tail, count), data, i);
    GrowFrame(start, u, v, w, first, tail, count, data, i, chunk + Zeros(CLUSTER_BYTES - |chunk|));
  }

  lemma GrowFrame(start: Volume, u: Volume, v: Volume, w: Volume,
                  first: nat, tail: nat, count: nat, data: seq<byte>, i: nat, piece: seq<byte>)
    requires Growing(start, u, first, tail, count, data, i) && i < count && SplitLink(first, tail, i) < |u.fat|
    requires var chain := SplitChain(first, tail, count);
      && (if i == 0 then v == u else IsPut(u, v, chain[i - 1], chain[i], ClusterBytes(u, chain[i - 1])))
      && IsPut(v, w, chain[i], EOC, piece)
    ensures Undisturbed(start, w, first) && Agree(start, w, first + 1, tail)
    ensures FreshFrom(w, tail + i) && forall c :: 2 <= c < |w.fat| ==> InImage(w, c)
  {
    var chain := SplitChain(first, tail, count);
    if i > 0 {
      var c := chain[i - 1];
      UndisturbedAfterPut(start, u, v, c, chain[i], ClusterBytes(u, c), first);
      AgreeAfterPut(start, u, v, c, chain[i], ClusterBytes(u, c), first + 1, tail);
      FreshAfterPut(u, v, c, chain[i], ClusterBytes(u, c), tail + i - 1);
    }
    assert FreshFrom(v, tail + i);
    UndisturbedAfterPut(start, v, w, chain[i], EOC, piece, first);
    AgreeAfterPut(start, v, w, chain[i], EOC, piece, first + 1, tail);
    FreshAfterPut(v, w, chain[i], EOC, piece, tail + i);
    forall c | 2 <= c < |w.fat| ensures InImage(w, c) {
      assert InImage(u, c);
    }
  }

  lemma LaidIsStored(v: Volume, chain: seq<nat>, data: seq<byte>)
    requires 1 <= |chain| && |data| <= CLUSTER_BYTES * |chain| && Laid(v, chain, data, |chain|)
    ensures ObjectStored(v, chain, data)
  {
  }

  lemma TakenByFile(v: Volume, w: Volume, first: nat, count: nat, data: seq<byte>)
    requires Taken(v.fat, first) && Undisturbed(v, w, first) && ObjectStored(w, Run(first, count), data)
    requires first + count <= |w.fat|
    ensures Taken(w.fat, first + count)
  {
    forall c | 2 <= c < first + count ensures InUse(w.fat, c) {
      if c < first {
        assert InUse(v.fat, c) && SameCluster(v, w, c);
      } else {
        assert Run(first, count)[c - first] == c;
        StoredLinks(w, Run(first, count), data, c);
      }
    }
  }

  lemma InUseBelow(v: Volume, next: nat)
    requires Taken(v.fat, next) && FreshFrom(v, next)
    ensures forall c :: 2 <= c < |v.fat| ==> (v.fat[c] != 0 <==> c < next)
  {
    forall c | 2 <= c < |v.fat| ensures v.fat[c] != 0 <==> c < next {
      assert if c < next then InUse(v.fat, c) else FreshAt(v, c);
    }
  }

  lemma TakenByDirectory(v: Volume, w: Volume, first: nat, tail: nat, count: nat, data: seq<byte>)
    requires 2 <= first < tail && count >= 1 && Taken(v.fat, tail) && tail + count - 1 <= |w.fat|
    requires Undisturbed(v, w, first) && Agree(v, w, first + 1, tail)
    requires ObjectStored(w, SplitChain(first, tail, count), data)
    ensures Taken(w.fat, tail + count - 1)
  {
    var chain := SplitChain(first, tail, count);
    forall c | 2 <= c < tail + count - 1 ensures InUse(w.fat, c) {
      if c < tail && c != first {
        assert InUse(v.fat, c) && SameCluster(v, w, c);
      } else {
        assert chain[if c == first then 0 else c - tail + 1] == c;
        StoredLinks(w, chain, data, c);
      }
    }
  }

  // ---------------------------------------------------------------- building trees

  function NameAll(hosts: seq<Host>, names: set<seq<byte>>): (r: Option<seq<Node>>)
    ensures r.Some? ==> |r.value| == |hosts| && AllBuildable(r.value)
  {
    KidsBuildable(hosts, names);
    NameKids(hosts, |hosts|, names)
  }

  function Extent(kids: seq<Node>): nat {
    Span(kids, |kids|)
  }

  function KidTable(kids: seq<Node>, base: nat): seq<byte> {
    TableBytes(Items(kids, |kids|, base))
  }

  /** Clusters of a subdirectory with the given children. */
  function DirSpan(kids: seq<Node>): nat {
    Span(kids, |kids|) + DirClusters(kids)
  }

  /** All children can be recorded and there are clusters for all of them. */
  ghost predicate KidsFit(hosts: seq<Host>, names: set<seq<byte>>, base: nat, limit: nat) {
    match NameAll(hosts, names)
    case None => false
    case Some(kids) => base + Span(kids, |kids|) <= limit
  }

  ghost predicate DirFits(hosts: seq<Host>, lo: nat, limit: nat) {
    match NameAll(hosts, DOT_NAMES)
    case None => false
    case Some(kids) => lo + DirSpan(kids) <= limit
  }

  lemma DirFitsParts(hosts: seq<Host>, lo: nat, limit: nat)
    ensures DirFits(hosts, lo, limit) ==> lo + 1 <= limit && KidsFit(hosts, DOT_NAMES, lo + 1, limit)
    ensures KidsFit(hosts, DOT_NAMES, lo + 1, limit) ==>
      (DirFits(hosts, lo, limit) <==>
       lo + 1 + Extent(NameAll(hosts, DOT_NAMES).value) + DirClusters(NameAll(hosts, DOT_NAMES).value) - 1 <= limit)
  {
  }

  ghost predicate KidBuilt(v: Volume, w: Volume, n: Node, lo: nat, parent: nat) {
    Stored(w, n, lo, parent) && Undisturbed(v, w, lo)
  }

  ghost predicate KidsBuilt(v: Volume, w: Volume, kids: seq<Node>, base: nat, parent: nat) {
    KidsStored(w, kids, base, parent) && Undisturbed(v, w, base)
  }

  ghost predicate DirBuilt(v: Volume, w: Volume, kids: seq<Node>, lo: nat, parent: nat) {
    DirStored(w, kids, lo, parent) && Undisturbed(v, w, lo)
  }

  lemma UndisturbedTransitive(u: Volume, v: Volume, w: Volume, lo: nat, hi: nat)
    requires Undisturbed(u, v, lo) && Undisturbed(v, w, hi) && lo <= hi
    ensures Undisturbed(u, w, lo)
  {
    assert Agree(v, w, 2, lo);
    AgreeTransitive(u, v, w, 2, lo);
  }

  /** The first `j` children are named, built in a row from `base` on, and nothing before them was touched. */
  ghost predicate Partial(start: Volume, v: Volume, hosts: seq<Host>, j: nat, front: seq<Node>,
                          names: set<seq<byte>>, used: set<seq<byte>>, base: nat, parent: nat, next: nat) {
    && 2 <= base && NamedAs(hosts, j, names, front) && |front| == j
    && used == names + Shorts(front)
    && next == FirstOf(front, j, base)
    && KidsBuilt(start, v, front, base, parent)
  }

  lemma PartialStep(start: Volume, v: Volume, w: Volume, hosts: seq<Host>, j: nat, front: seq<Node>, n: Node,
                    names: set<seq<byte>>, used: set<seq<byte>>, base: nat, parent: nat, next: nat)
    requires Partial(start, v, hosts, j, front, names, used, base, parent, next) && j < |hosts|
    requires NameNext(hosts[j], used) == Some(n) && KidBuilt(v, w, n, next, parent)
    ensures Partial(start, w, hosts, j + 1, front + [n], names, used + {n.naming.short}, base, parent,
      next + Clusters(n))
  {
    NameKidsNext(hosts, j, front, n, names);
    ShortsOfAppend(front, n);
    SpanOfAppend(front, n);
    KidJoins(start, v, w, front, n, base, parent, next);
  }

  /** Building one more child keeps the children built before it. */
  lemma KidJoins(start: Volume, v: Volume, w: Volume, front: seq<Node>, n: Node, base: nat, parent: nat, next: nat)
    requires KidsBuilt(start, v, front, base, parent) && base >= 2
    requires next == FirstOf(front, |front|, base) && KidBuilt(v, w, n, next, parent)
    ensures KidsBuilt(start, w, front + [n], base, parent)
  {
    assert Agree(v, w, base, next);
    KidsFrame(v, w, front, base, parent);
    KidAdded(w, front, n, base, parent);
    KidsOfAppend(w, front, n, base, parent);
    UndisturbedTransitive(start, v, w, base, next);
  }

  /** The padded table of a directory takes exactly the clusters the layout gives it. */
  lemma TableClusters(kids: seq<Node>, lo: nat, parent: nat, table: seq<byte>)
    requires table == TableBytes(Items(kids, |kids|, lo + 1))
    ensures ZeroEnded(DotTable(lo, parent) + table) == DirBytes(Items(kids, |kids|, lo + 1), lo, parent)
    ensures DataClusters(|ZeroEnded(DotTable(lo, parent) + table)|) == DirClusters(kids)
  {
    DirBytesLength(kids, lo, parent);
  }

  /** Reserving, building the children and writing the table leave everything before a directory alone. */
  lemma DirectoryKeeps(start: Volume, own: Volume, v: Volume, w: Volume, lo: nat)
    requires Undisturbed(start, own, lo) && Undisturbed(own, v, lo + 1) && Undisturbed(v, w, lo)
    ensures Undisturbed(start, w, lo)
  {
    UndisturbedTransitive(start, own, v, lo, lo + 1);
    UndisturbedTransitive(start, v, w, lo, lo);
  }

  lemma KidsKept(v: Volume, w: Volume, kids: seq<Node>, lo: nat, tail: nat)
    requires KidsStored(v, kids, lo + 1, lo)
    requires tail == lo + 1 + Span(kids, |kids|) && Agree(v, w, lo + 1, tail)
    ensures KidsStored(w, kids, lo + 1, lo)
  {
    KidsFrame(v, w, kids, lo + 1, lo);
  }

  lemma StoredAsDir(w: Volume, kids: seq<Node>, lo: nat, parent: nat, tail: nat, bytes: seq<byte>)
    requires tail == lo + 1 + Span(kids, |kids|) && bytes == DirBytes(Items(kids, |kids|, lo + 1), lo, parent)
    ensures KidsStored(w, kids, lo + 1, lo) && ObjectStored(w, SplitChain(lo, tail, DirClusters(kids)), bytes)
      ==> DirStored(w, kids, lo, parent)
  {
  }

  lemma {:induction false} SpanOfTake(all: seq<Node>, j: nat, i: nat)
    requires i <= j <= |all|
    ensures Span(all[..j], i) == Span(all, i)
    decreases i
  {
    if i > 0 {
      SpanOfTake(all, j, i - 1);
    }
  }

  /** If a child cannot be named or does not fit, neither do all children together. */
  lemma KidFails(hosts: seq<Host>, j: nat, front: seq<Node>, names: set<seq<byte>>, base: nat, limit: nat)
    requires j < |hosts| && NamedAs(hosts, j, names, front)
    requires NameNext(hosts[j], names + Shorts(front)).Some? ==>
      base + Span(front, j) + Clusters(NameNext(hosts[j], names + Shorts(front)).value) > limit
    ensures !KidsFit(hosts, names, base, limit)
  {
    if KidsFit(hosts, names, base, limit) {
      KidInAll(hosts, j, front, names, NameAll(hosts, names).value);
    }
  }

  lemma KidInAll(hosts: seq<Host>, j: nat, front: seq<Node>, used: set<seq<byte>>, all: seq<Node>)
    requires j < |hosts| && NamedAs(hosts, j, used, front) && NamedAs(hosts, |hosts|, used, all)
    ensures NameNext(hosts[j], used + Shorts(front)).Some?
    ensures Span(front, j) + Clusters(NameNext(hosts[j], used + Shorts(front)).value) <= Span(all, |all|)
  {
    NameKidsPrefix(hosts, j, |hosts|, used, all);
    NamedAfter(hosts, j, |hosts|, used, all);
    SpanOfTake(all, j, j);
    SpanMonotone(all, j, |all|);
  }

  // ---------------------------------------------------------------- the regions in front of the data

  lemma AllFresh(v: Volume)
    requires |v.fat| >= 2 && forall c :: 2 <= c < |v.fat| ==> v.fat[c] == 0
    requires forall i :: 0 <= i < |v.image| ==> v.image[i] == 0
    requires v.dataStart + CLUSTER_BYTES * (|v.fat| - 2) <= |v.image|
    ensures FreshFrom(v, 2)
  {
    forall c | 2 <= c < |v.fat| ensures FreshAt(v, c) {
      assert ClusterBytes(v, c) == Zeros(CLUSTER_BYTES);
    }
  }

  /** At the fixed point one table copy has room for an entry per cluster and two more. */
  lemma TableHolds(total: nat, g: Geometry)
    requires IsGeometry(total, g) && 0 <= g.clusters < MAX_CLUSTERS
    ensures 0 < g.fatSectors < 0x10000 && 2 * (g.clusters + 2) <= BYTES_PER_SECTOR * g.fatSectors
    ensures g.clusters == (total - (g.rootSector + g.rootDirSectors)) / SECTORS_PER_CLUSTER
  {
    assert Needed(total, g.fatSectors) == g.fatSectors;
  }

  /** At most 512 slots: the records of the root directory fit their region. */
  predicate RootFits(kids: seq<Node>) {
    TableLength(kids, |kids|) <= ROOT_BYTES
  }

  lemma FreshIfAgree(v: Volume, w: Volume, next: nat)
    requires FreshFrom(v, next) && next >= 2 && Agree(v, w, 2, |v.fat|)
    requires w.dataStart == v.dataStart && |w.image| == |v.image|
    ensures FreshFrom(w, next)
  {
    forall c | next <= c < |w.fat| ensures FreshAt(w, c) {
      assert FreshAt(v, c) && SameCluster(v, w, c);
    }
  }

  /** Writing the root directory: the region gets the front of it, and the data is safe if it fits. */
  lemma RootWrite(v: Volume, w: Volume, start: nat, root: seq<byte>)
    requires start + ROOT_BYTES == v.dataStart <= |v.image| && |root| >= ROOT_BYTES
    requires w == v.(image := SliceAssign(v.image, start, start + |root|, root))
    ensures |w.image| >= |v.image| && (start + |root| <= |v.image| ==> |w.image| == |v.image|)
    ensures w.image[start..start + ROOT_BYTES] == root[..ROOT_BYTES]
    ensures w.image[0..start] == v.image[0..start]
    ensures |root| == ROOT_BYTES ==> |w.image| == |v.image| && Agree(v, w, 2, |v.fat|)
  {
    if |root| == ROOT_BYTES {
      RegionWrite(v, w, start, root);
    }
  }

  /** Building the data region leaves the boot sector alone. */
  lemma BootKept(v: Volume, w: Volume)
    requires Undisturbed(v, w, 2) && 512 <= v.dataStart
    ensures w.image[0..512] == v.image[0..512]
  {
    assert v.image[0..512] == v.image[..v.dataStart][0..512];
    assert w.image[0..512] == w.image[..v.dataStart][0..512];
  }

  lemma BootSurvives(built: seq<byte>, rooted: seq<byte>, final: seq<byte>, rootStart: nat)
    requires 512 <= rootStart <= |built| && rootStart <= |rooted| && 512 <= |final|
    requires rooted[0..rootStart] == built[0..rootStart] && final[0..512] == rooted[0..512]
    ensures final[..512] == built[0..512]
  {
    assert rooted[0..512] == rooted[0..rootStart][0..512];
    assert built[0..512] == built[0..rootStart][0..512];
  }

  /** The boot sector survives the root directory, and the root directory survives the tables. */
  lemma AllRegions(built: seq<byte>, rooted: seq<byte>, fatSectors: nat, totalSectors: nat,
                   root: seq<byte>, table: seq<byte>, fatEnd: nat, rootStart: nat, v: Volume)
    requires fatSectors < 0x10000 && totalSectors < 0x1_0000_0000 && |root| >= ROOT_BYTES
    requires |table| == 512 * fatSectors && fatEnd == 512 + |table| && rootStart == fatEnd + |table|
    requires |v.fat| == (totalSectors - (33 + 2 * fatSectors)) / SECTORS_PER_CLUSTER + 2 && 2 * |v.fat| <= |table|
    requires forall i :: 0 <= i < |v.fat| ==> GetU16(table, 2 * i) == v.fat[i]
    requires v.dataStart == rootStart + ROOT_BYTES <= |built| == 512 * totalSectors <= |rooted| == |v.image|
    requires built[0..512] == BootSector(fatSectors, totalSectors)
    requires rooted[0..rootStart] == built[0..rootStart]
    requires rooted[rootStart..rootStart + ROOT_BYTES] == root[..ROOT_BYTES]
    requires v.image[0..512] == rooted[0..512]
    requires v.image[512..fatEnd] == table && v.image[fatEnd..rootStart] == table
    requires v.image[rootStart..rootStart + ROOT_BYTES] == rooted[rootStart..rootStart + ROOT_BYTES]
    ensures MountVolume(v.image) == Ok((v, root[..ROOT_BYTES]))
  {
    BootSurvives(built, rooted, v.image, rootStart);
    assert HasRegions(v.image, BootSector(fatSectors, totalSectors), table, fatEnd, rootStart, root[..ROOT_BYTES]);
    MountRoundTrip(fatSectors, totalSectors, table, fatEnd, rootStart, root[..ROOT_BYTES], v);
  }

  lemma RootLength(kids: seq<Node>, table: seq<byte>, root: seq<byte>)
    requires table == KidTable(kids, 2) && root == table + Zeros(Max(0, ROOT_BYTES - |table|))
    ensures |root| >= ROOT_BYTES && (RootFits(kids) <==> |root| == ROOT_BYTES)
    ensures RootFits(kids) <==> |table| <= ROOT_BYTES
  {
    ItemsLength(kids, |kids|, 2);
  }

  /** A record is shorter than a cluster, and its object takes at least one. */
  lemma {:induction false} TableWithinSpan(kids: seq<Node>, j: nat)
    requires j <= |kids|
    ensures TableLength(kids, j) <= CLUSTER_BYTES * Span(kids, j)
  {
    if j > 0 {
      TableWithinSpan(kids, j - 1);
      RecordInCluster(kids[j - 1]);
    }
  }

  lemma RecordInCluster(n: Node)
    ensures RecordLength(n.name, n.naming) <= CLUSTER_BYTES <= CLUSTER_BYTES * Clusters(n)
  {
  }

  /** Even a root directory that is too long ends inside the image. */
  lemma RootInside(kids: seq<Node>, table: seq<byte>, root: seq<byte>, rootSector: nat, clusters: nat, total: nat)
    requires table == KidTable(kids, 2) && root == table + Zeros(Max(0, ROOT_BYTES - |table|))
    requires Extent(kids) <= clusters
    requires rootSector + ROOT_DIR_SECTORS + SECTORS_PER_CLUSTER * clusters <= total
    ensures 512 * rootSector + |root| <= 512 * total
  {
    ItemsLength(kids, |kids|, 2);
    TableWithinSpan(kids, |kids|);
  }

  lemma RootReadable(built: Volume, final: Volume, kids: seq<Node>)
    requires AllBuildable(kids) && 2 + Extent(kids) <= |final.fat| <= 0xFFF8
    requires KidsStored(built, kids, 2, 0) && Agree(built, final, 2, |final.fat|)
    ensures Readable(final, kids, 2, 0, |final.fat|)
  {
    KidsFrame(built, final, kids, 2, 0);
  }

  /** A root directory of whole records followed by zeros parses into its entries. */
  lemma RootParses(kids: seq<Node>, n: nat)
    requires AllBuildable(kids) && 2 + Extent(kids) < 0x10000
    ensures ParseDir(KidTable(kids, 2) + Zeros(n), NoPending) == Ok(ItemEntries(Items(kids, |kids|, 2)))
  {
    GoodItems(kids, 2);
    TableEnds(Items(kids, |kids|, 2), n);
  }

  /** A root directory that fits: the mounted image reads back as the tree. */
  lemma BuiltReads(built: Volume, rooted: Volume, final: Volume, kids: seq<Node>, table: seq<byte>, root: seq<byte>)
    requires AllBuildable(kids) && 2 + Extent(kids) <= |final.fat| <= 0xFFF8
    requires table == KidTable(kids, 2) && root == table + Zeros(Max(0, ROOT_BYTES - |table|))
    requires |root| >= ROOT_BYTES && MountVolume(final.image) == Ok((final, root[..ROOT_BYTES]))
    requires |root| == ROOT_BYTES ==> Agree(built, rooted, 2, |final.fat|)
    requires Agree(rooted, final, 2, |final.fat|)
    ensures |table| <= ROOT_BYTES && KidsStored(built, kids, 2, 0) ==>
      ReadVolume(final.image) == Ok(Views(kids, |kids|))
  {
    if |table| <= ROOT_BYTES && KidsStored(built, kids, 2, 0) {
      AgreeTransitive(built, rooted, final, 2, |final.fat|);
      RootReadable(built, final, kids);
      assert root[..ROOT_BYTES] == root;
      RootParses(kids, Max(0, ROOT_BYTES - |table|));
      VolumeReads(final.image, final, root, kids);
    }
  }

  /** What the reader finds of the builder's tree is, or cannot be, the source tree. */
  lemma BuiltShows(image: seq<byte>, hosts: seq<Host>, kids: seq<Node>)
    requires NamedAs(hosts, |hosts|, {}, kids)
    ensures ReadVolume(image) == Ok(Views(kids, |kids|)) ==> ReadsBack(image, hosts)
    ensures ReadsFewer(image, |kids|) ==> !ReadsBack(image, hosts)
  {
    KidsShow(hosts, {}, kids);
  }

  /** A root directory that does not fit is cut off, and the image does not read back. */
  lemma CutOffReads(final: Volume, kids: seq<Node>, table: seq<byte>, root: seq<byte>)
    requires AllBuildable(kids) && 2 + Extent(kids) <= |final.fat| <= 0xFFF8
    requires table == KidTable(kids, 2) && root == table + Zeros(Max(0, ROOT_BYTES - |table|))
    requires |root| >= ROOT_BYTES && MountVolume(final.image) == Ok((final, root[..ROOT_BYTES]))
    ensures |table| > ROOT_BYTES ==> ReadsFewer(final.image, |kids|)
  {
    if |table| > ROOT_BYTES {
      assert root[..ROOT_BYTES] == table[..ROOT_BYTES];
      TruncatedVolume(final.image, final, root[..ROOT_BYTES], kids);
    }
  }

  /** A cluster depends only on the image from the data region on. */
  lemma ClusterInFront(v: Volume, w: Volume, c: nat)
    requires 2 <= c < |v.fat| && w.fat == v.fat && w.dataStart == v.dataStart <= |v.image| == |w.image|
    requires forall i, j :: v.dataStart <= i <= j <= |v.image| ==> w.image[i..j] == v.image[i..j]
    ensures SameCluster(v, w, c)
  {
  }

  lemma RegionWrite(v: Volume, w: Volume, at: nat, bytes: seq<byte>)
    requires at + |bytes| <= v.dataStart <= |v.image|
    requires w == v.(image := SliceAssign(v.image, at, at + |bytes|, bytes))
    ensures |w.image| == |v.image| && Agree(v, w, 2, |v.fat|)
    ensures w.image[at..at + |bytes|] == bytes
    ensures forall i, j :: 0 <= i <= j <= |v.image| && (j <= at || at + |bytes| <= i) ==> w.image[i..j] == v.image[i..j]
  {
    SliceAssignInside(v.image, at, bytes);
    forall i, j | 0 <= i <= j <= |v.image| && (j <= at || at + |bytes| <= i) ensures w.image[i..j] == v.image[i..j] {
      SliceApart(v.image, at, bytes, i, j);
    }
    forall c | 2 <= c < |v.fat| ensures SameCluster(v, w, c) {
      ClusterInFront(v, w, c);
    }
  }
}
