/**
  The regions in front of the data: boot sector, both copies of the table, root
  directory.  If they hold what the builder writes there, the reader mounts exactly
  the builder's volume.
*/
module FatMount {
  import opened Bytes
  import opened FatGeometry
  import opened FatRecords
  import opened FatReader
  import opened FatLayout
  import opened FatWrites

  const ROOT_BYTES := 16384

  const OEM_NAME: seq<byte> := [0x48, 0x59, 0x42, 0x52, 0x49, 0x44, 0x4F, 0x53]
  const VOLUME_LABEL: seq<byte> := [0x48, 0x59, 0x42, 0x52, 0x49, 0x44, 0x4B, 0x45, 0x52, 0x4E, 0x20]
  const FILE_SYSTEM: seq<byte> := [0x46, 0x41, 0x54, 0x31, 0x36, 0x20, 0x20, 0x20]

  /** Bytes 11 to 23: the sizes and counts of the regions. */
  function RegionFields(fatSectors: nat): (b: seq<byte>)
    ensures |b| == 13 && b[0..2] == U16(BYTES_PER_SECTOR) && b[2] == SECTORS_PER_CLUSTER
    ensures b[3..5] == U16(RESERVED_SECTORS) && b[5] == FAT_COUNT
    ensures b[6..8] == U16(ROOT_ENTRIES) && b[11..13] == U16(fatSectors)
  {
    var front := U16(BYTES_PER_SECTOR) + [SECTORS_PER_CLUSTER] + U16(RESERVED_SECTORS) + [FAT_COUNT];
    var back := U16(ROOT_ENTRIES) + U16(0) + [0xF8] + U16(fatSectors);
    front + back
  }

  /** Bytes 24 to 35: the drive geometry and the size of the volume. */
  function SizeFields(totalSectors: nat): (b: seq<byte>)
    ensures |b| == 12 && b[8..12] == U32(totalSectors)
  {
    U16(63) + U16(255) + U32(0) + U32(totalSectors)
  }

  /** Bytes 0 to 35 of the boot sector: what a reader needs to find the regions. */
  function BiosParameters(fatSectors: nat, totalSectors: nat): (b: seq<byte>)
    ensures |b| == 36
  {
    [0xEB, 0x3C, 0x90] + OEM_NAME + RegionFields(fatSectors) + SizeFields(totalSectors)
  }

  function BootSector(fatSectors: nat, totalSectors: nat): (b: seq<byte>)
    ensures |b| == 512
  {
    BiosParameters(fatSectors, totalSectors)
    + [0x80, 0, 0x29] + U32(0x484B0001) + VOLUME_LABEL + FILE_SYSTEM
    + Zeros(448) + [0x55, 0xAA]
  }

  lemma BiosFields(fatSectors: nat, totalSectors: nat)
    requires fatSectors < 0x10000 && totalSectors < 0x1_0000_0000
    ensures var b := BiosParameters(fatSectors, totalSectors);
      && GetU16(b, 11) == BYTES_PER_SECTOR && b[13] == SECTORS_PER_CLUSTER
      && GetU16(b, 14) == RESERVED_SECTORS && b[16] == FAT_COUNT && GetU16(b, 17) == ROOT_ENTRIES
      && GetU16(b, 22) == fatSectors && GetU32(b, 32) == totalSectors
  {
    var b, f, t := BiosParameters(fatSectors, totalSectors), RegionFields(fatSectors), SizeFields(totalSectors);
    FieldU16(f, 0, BYTES_PER_SECTOR);
    FieldU16(f, 3, RESERVED_SECTORS);
    FieldU16(f, 6, ROOT_ENTRIES);
    FieldU16(f, 11, fatSectors);
    FieldU32(t, 8, totalSectors);
    assert b[11..24] == f && b[24..36] == t;
    assert forall i :: 0 <= i < 13 ==> f[i] == b[11..24][i] == b[11 + i];
    assert forall i :: 0 <= i < 12 ==> t[i] == b[24..36][i] == b[24 + i];
  }

  lemma FieldU16(b: seq<byte>, at: nat, v: nat)
    requires at + 2 <= |b| && v < 0x10000 && b[at..at + 2] == U16(v)
    ensures GetU16(b, at) == v
  {
    U16RoundTrip(v);
    assert GetU16(b[at..at + 2], 0) == GetU16(b, at);
  }

  lemma FieldU32(b: seq<byte>, at: nat, v: nat)
    requires at + 4 <= |b| && v < 0x1_0000_0000 && b[at..at + 4] == U32(v)
    ensures GetU32(b, at) == v
  {
    U32RoundTrip(v);
    assert GetU32(b[at..at + 4], 0) == GetU32(b, at);
  }

  /** The regions of an image: the boot sector, both copies of the table, the root directory. */
  ghost predicate HasRegions(image: seq<byte>, boot: seq<byte>, table: seq<byte>, fatEnd: nat, rootStart: nat,
                             root: seq<byte>) {
    && fatEnd == 512 + |table| && rootStart == fatEnd + |table|
    && rootStart + |root| <= |image|
    && image[..512] == boot
    && image[512..fatEnd] == table && image[fatEnd..rootStart] == table
    && image[rootStart..rootStart + |root|] == root
  }

  lemma BootFields(image: seq<byte>, fatSectors: nat, totalSectors: nat)
    requires fatSectors < 0x10000 && totalSectors < 0x1_0000_0000
    requires |image| >= 512 && image[..512] == BootSector(fatSectors, totalSectors)
    ensures GetU16(image, 11) == BYTES_PER_SECTOR && image[13] == SECTORS_PER_CLUSTER
    ensures GetU16(image, 14) == RESERVED_SECTORS && image[16] == FAT_COUNT && GetU16(image, 17) == ROOT_ENTRIES
    ensures GetU16(image, 22) == fatSectors && GetU32(image, 32) == totalSectors && GetU16(image, 510) == 0xAA55
  {
    var boot, b := BootSector(fatSectors, totalSectors), BiosParameters(fatSectors, totalSectors);
    BiosFields(fatSectors, totalSectors);
    assert forall i :: 0 <= i < 512 ==> image[i] == boot[i];
    assert forall i :: 0 <= i < 36 ==> boot[i] == b[i];
    assert boot[510] == 0x55 && boot[511] == 0xAA;
  }

  /** The boot sector byte by byte, where a reader looks. */
  lemma BootLayout(fatSectors: nat, totalSectors: nat)
    ensures var b := BootSector(fatSectors, totalSectors);
      && b[11..19] == [0x00, 0x02, 4, 0x01, 0x00, 2, 0x00, 0x02]
      && b[19..24] == [0, 0, 0xF8, fatSectors % 256, fatSectors / 256 % 256]
      && b[32..36] == [totalSectors % 256, totalSectors / 256 % 256, totalSectors / 65536 % 256,
                       totalSectors / 16777216 % 256]
      && b[54..59] == [0x46, 0x41, 0x54, 0x31, 0x36] && b[510..512] == [0x55, 0xAA]
  {
    var b, bios := BootSector(fatSectors, totalSectors), BiosParameters(fatSectors, totalSectors);
    RegionBytes(fatSectors);
    SizeBytes(totalSectors);
    assert b[11..24] == bios[11..24] == RegionFields(fatSectors);
    assert b[24..36] == bios[24..36] == SizeFields(totalSectors);
    assert b[11..19] == b[11..24][..8] && b[19..24] == b[11..24][8..] && b[32..36] == b[24..36][8..];
    assert b[54..59] == FILE_SYSTEM[..5];
  }

  lemma RegionBytes(fatSectors: nat)
    ensures RegionFields(fatSectors)
      == [0x00, 0x02, 4, 0x01, 0x00, 2, 0x00, 0x02, 0, 0, 0xF8, fatSectors % 256, fatSectors / 256 % 256]
  {
    U16Bytes(512);
    U16Bytes(1);
    U16Bytes(0);
    U16Bytes(fatSectors);
  }

  lemma SizeBytes(total: nat)
    ensures SizeFields(total)[8..] == [total % 256, total / 256 % 256, total / 65536 % 256, total / 16777216 % 256]
  {
    assert U32(total) == [total % 256] + LittleEndian(total / 256, 3);
    assert LittleEndian(total / 256, 3) == [total / 256 % 256] + LittleEndian(total / 256 / 256, 2);
    U16Bytes(total / 256 / 256);
  }

  lemma DecodedTable(image: seq<byte>, at: nat, table: seq<byte>, fat: seq<nat>)
    requires at + |table| <= |image| && image[at..at + |table|] == table && 2 * |fat| <= |table|
    requires forall i :: 0 <= i < |fat| ==> GetU16(table, 2 * i) == fat[i]
    ensures DecodeFat(image, at, |fat|) == fat
  {
    forall i | 0 <= i < |fat| ensures GetU16(image, at + 2 * i) == fat[i] {
      assert table[2 * i] == image[at + 2 * i] && table[2 * i + 1] == image[at + 2 * i + 1];
      assert GetU16(table, 2 * i) == fat[i];
    }
  }

  /** The reader finds the table, the root directory and the start of the data from the boot sector. */
  lemma MountRoundTrip(fatSectors: nat, totalSectors: nat, table: seq<byte>, fatEnd: nat, rootStart: nat,
                       root: seq<byte>, v: Volume)
    requires fatSectors < 0x10000 && totalSectors < 0x1_0000_0000
    requires |table| == 512 * fatSectors && |root| == ROOT_BYTES
    requires v.dataStart == rootStart + ROOT_BYTES <= 512 * totalSectors <= |v.image|
    requires HasRegions(v.image, BootSector(fatSectors, totalSectors), table, fatEnd, rootStart, root)
    requires |v.fat| == (totalSectors - (33 + 2 * fatSectors)) / SECTORS_PER_CLUSTER + 2 && 2 * |v.fat| <= |table|
    requires forall i :: 0 <= i < |v.fat| ==> GetU16(table, 2 * i) == v.fat[i]
    ensures MountVolume(v.image) == Ok((v, root))
  {
    DataStartSector(fatSectors, v.dataStart);
    RegionsRoundTrip(totalSectors, table, fatEnd, rootStart, root, v);
    RegionsAre(v.image, fatSectors, totalSectors, fatEnd, rootStart, v.dataStart);
    MountsRegions(v.image, fatSectors, totalSectors);
  }

  lemma MountsRegions(image: seq<byte>, fatSectors: nat, totalSectors: nat)
    requires fatSectors < 0x10000 && totalSectors < 0x1_0000_0000
    requires |image| >= 512 && image[..512] == BootSector(fatSectors, totalSectors)
    ensures MountVolume(image) == MountRegions(image, RESERVED_SECTORS, ROOT_ENTRIES, fatSectors, totalSectors)
  {
    BootFields(image, fatSectors, totalSectors);
  }

  lemma RegionsAre(image: seq<byte>, fatSectors: nat, totalSectors: nat, fatEnd: nat, rootStart: nat, dataStart: nat)
    requires fatEnd == 512 + 512 * fatSectors && rootStart == fatEnd + 512 * fatSectors
    requires dataStart == rootStart + ROOT_BYTES
    ensures MountRegions(image, RESERVED_SECTORS, ROOT_ENTRIES, fatSectors, totalSectors)
         == MountAt(image, 512, fatEnd, rootStart, dataStart, totalSectors)
  {
  }

  lemma RegionsRoundTrip(totalSectors: nat, table: seq<byte>, fatEnd: nat, rootStart: nat, root: seq<byte>, v: Volume)
    requires fatEnd == 512 + |table| && rootStart == fatEnd + |table| && v.dataStart == rootStart + |root|
    requires v.dataStart <= 512 * totalSectors <= |v.image| && v.dataStart % 512 == 0
    requires v.image[512..fatEnd] == table && v.image[fatEnd..rootStart] == table
    requires v.image[rootStart..v.dataStart] == root
    requires |v.fat| == (totalSectors - v.dataStart / 512) / SECTORS_PER_CLUSTER + 2 && 2 * |v.fat| <= |table|
    requires forall i :: 0 <= i < |v.fat| ==> GetU16(table, 2 * i) == v.fat[i]
    ensures MountAt(v.image, 512, fatEnd, rootStart, v.dataStart, totalSectors) == Ok((v, root))
  {
    DecodedTable(v.image, 512, table, v.fat);
  }

  lemma DataStartSector(fatSectors: nat, dataStart: nat)
    requires dataStart == 512 + 512 * fatSectors + 512 * fatSectors + ROOT_BYTES
    ensures dataStart / 512 == 33 + 2 * fatSectors && dataStart % 512 == 0
  {
    assert dataStart == 512 * (33 + 2 * fatSectors);
  }

  // ---------------------------------------------------------------- a root directory that is too long

  ghost predicate YieldsNothing(b: seq<byte>, pending: Pending) {
    ParseDir(b, pending) == Ok([])
  }

  lemma LfnTailCut(name: string, short: seq<byte>, k: nat, i: nat)
    requires i < k <= ChunkCount(name) < 64
    ensures LfnTail(name, short, k)[..32 * (i + 1)]
      == ChunkSlot(name, short, k - 1) + LfnTail(name, short, k - 1)[..32 * i]
  {
    CutOfAppend(ChunkSlot(name, short, k - 1), LfnTail(name, short, k - 1), 32 * (i + 1));
  }

  lemma LfnCutStep(name: string, short: seq<byte>, k: nat, i: nat, pending: Pending)
    requires HostName(name) && SixteenBit(name) && i < k <= ChunkCount(name)
    requires k < ChunkCount(name) ==> pending == PendingFrom(name, short, k)
    ensures YieldsNothing(LfnTail(name, short, k - 1)[..32 * i], PendingFrom(name, short, k - 1))
        ==> YieldsNothing(LfnTail(name, short, k)[..32 * (i + 1)], pending)
  {
    var rest := LfnTail(name, short, k - 1)[..32 * i];
    LfnTailCut(name, short, k, i);
    ParseChunk(name, short, k - 1, rest, pending);
  }

  lemma {:induction false} LfnCut(name: string, short: seq<byte>, k: nat, i: nat, pending: Pending)
    requires HostName(name) && SixteenBit(name) && i <= k <= ChunkCount(name)
    requires k < ChunkCount(name) ==> pending == PendingFrom(name, short, k)
    ensures YieldsNothing(LfnTail(name, short, k)[..32 * i], pending)
  {
    if i > 0 {
      LfnCut(name, short, k - 1, i - 1, PendingFrom(name, short, k - 1));
      LfnCutStep(name, short, k, i - 1, pending);
    }
  }

  lemma CutOfAppend(a: seq<byte>, b: seq<byte>, n: nat)
    requires n <= |a| + |b|
    ensures n <= |a| ==> (a + b)[..n] == a[..n]
    ensures n >= |a| ==> (a + b)[..n] == a + b[..n - |a|]
  {
  }

  lemma ItemCut(it: Item, k: nat)
    requires 32 * k < |ItemBytes(it)|
    ensures k > 0 ==> it.naming.long && k <= ChunkCount(it.name)
    ensures k > 0 ==> ItemBytes(it)[..32 * k] == LfnBytes(it.name, it.naming.short)[..32 * k]
  {
    if it.naming.long {
      CutOfAppend(LfnBytes(it.name, it.naming.short), DirEntry(it.naming.short, it.attr, it.cluster, it.size), 32 * k);
    }
  }

  /** A record cut short at a slot boundary yields no entry. */
  lemma RecordCut(it: Item, k: nat)
    requires GoodItem(it) && 32 * k < |ItemBytes(it)|
    ensures YieldsNothing(ItemBytes(it)[..32 * k], NoPending)
  {
    ItemCut(it, k);
    if k > 0 {
      LfnCut(it.name, it.naming.short, ChunkCount(it.name), k, NoPending);
    }
  }

  function SlotCount(items: seq<Item>): nat {
    if items == [] then 0
    else
      var last := items[|items| - 1];
      SlotCount(items[..|items| - 1]) + 1 + if last.naming.long then ChunkCount(last.name) else 0
  }

  lemma SplitLast(items: seq<Item>, front: seq<Item>, last: Item)
    requires items == front + [last]
    ensures TableBytes(items) == TableBytes(front) + ItemBytes(last)
    ensures SlotCount(items) == SlotCount(front) + |ItemBytes(last)| / 32
    ensures |ItemBytes(last)| == 32 * (|ItemBytes(last)| / 32)
  {
    TableAppend(front, last);
    assert items[..|items| - 1] == front;
  }

  lemma {:induction false} TableInSlots(items: seq<Item>)
    ensures |TableBytes(items)| == 32 * SlotCount(items)
  {
    if items != [] {
      var front, last := items[..|items| - 1], items[|items| - 1];
      SplitLast(items, front, last);
      TableInSlots(front);
    }
  }

  ghost predicate ParsesShort(b: seq<byte>, n: nat) {
    match ParseDir(b, NoPending)
    case Err => false
    case Ok(entries) => |entries| < n
  }

  lemma ParsesShorter(b: seq<byte>, m: nat, n: nat)
    requires ParsesShort(b, m) && m <= n
    ensures ParsesShort(b, n)
  {
  }

  /** The parse of a table that ends inside the record of `last`. */
  lemma {:induction false} CutInLast(front: seq<Item>, last: Item, k: nat, root: seq<byte>)
    requires GoodTable(front) && GoodItem(last) && 32 * k < |ItemBytes(last)|
    requires root == TableBytes(front) + ItemBytes(last)[..32 * k]
    ensures ParsesShort(root, |front| + 1)
  {
    TableRoundTrip(front, ItemBytes(last)[..32 * k]);
    RecordCut(last, k);
    assert ItemEntries(front) + [] == ItemEntries(front);
  }

  /** The root directory ends at a slot boundary. */
  lemma SlotCut(front: seq<Item>, b: seq<byte>, root: seq<byte>) returns (k: nat)
    requires |TableBytes(front)| <= ROOT_BYTES < |TableBytes(front)| + |b|
    requires root == (TableBytes(front) + b)[..ROOT_BYTES]
    ensures 32 * k < |b| && root == TableBytes(front) + b[..32 * k]
  {
    TableInSlots(front);
    k := 512 - SlotCount(front);
    CutOfAppend(TableBytes(front), b, ROOT_BYTES);
  }

  /** A table cut off at the end of the root directory parses into fewer entries than it has records. */
  lemma {:induction false} TruncatedRoot(items: seq<Item>, root: seq<byte>)
    requires GoodTable(items) && |TableBytes(items)| > ROOT_BYTES && root == TableBytes(items)[..ROOT_BYTES]
    ensures ParsesShort(root, |items|)
    decreases |items|
  {
    var front, last := items[..|items| - 1], items[|items| - 1];
    SplitLast(items, front, last);
    if |TableBytes(front)| > ROOT_BYTES {
      CutOfAppend(TableBytes(front), ItemBytes(last), ROOT_BYTES);
      TruncatedRoot(front, root);
      ParsesShorter(root, |front|, |items|);
    } else {
      var k := SlotCut(front, ItemBytes(last), root);
      CutInLast(front, last, k, root);
    }
  }

  lemma {:induction false} ReadCount(v: Volume, entries: seq<Entry>, parent: nat, depth: nat)
    ensures ReadObjects(v, entries, parent, depth).Ok? ==> |ReadObjects(v, entries, parent, depth).value| == |entries|
    decreases |entries|
  {
    if entries != [] {
      ReadCount(v, entries[1..], parent, depth);
    }
  }

  /** If an image reads at all, then as fewer than n objects. */
  ghost predicate ReadsFewer(image: seq<byte>, n: nat) {
    match ReadVolume(image)
    case Err => true
    case Ok(objects) => |objects| < n
  }

  /** An image whose root directory was cut off reads as fewer objects than were written. */
  lemma TruncatedVolume(image: seq<byte>, v: Volume, root: seq<byte>, kids: seq<Node>)
    requires MountVolume(image) == Ok((v, root))
    requires AllBuildable(kids) && 2 + Span(kids, |kids|) < 0x10000
    requires |TableBytes(Items(kids, |kids|, 2))| > ROOT_BYTES
    requires root == TableBytes(Items(kids, |kids|, 2))[..ROOT_BYTES]
    ensures ReadsFewer(image, |kids|)
  {
    GoodItems(kids, 2);
    TruncatedRoot(Items(kids, |kids|, 2), root);
    ReadCount(v, ParseDir(root, NoPending).value, 0, |v.fat|);
  }

  /** The tree in the data region is what the reader returns for the whole image. */
  lemma VolumeReads(image: seq<byte>, v: Volume, root: seq<byte>, kids: seq<Node>)
    requires MountVolume(image) == Ok((v, root))
    requires ParseDir(root, NoPending) == Ok(ItemEntries(Items(kids, |kids|, 2)))
    ensures Readable(v, kids, 2, 0, |v.fat|) ==> ReadVolume(image) == Ok(Views(kids, |kids|))
  {
    StoredReadsAll(v, kids, 2, 0, |v.fat|);
  }
}
