/**
  A FAT16 reader, written from the on-disk format and independent of the builder:
  it decodes directory slots, follows cluster chains and mounts a whole volume.
  What the builder writes is specified by what this reader finds.
*/
module FatReader {
  import opened Bytes
  import opened FatGeometry
  import opened FatRecords
  import Words

  /** A directory entry; its name is the long one in code units, or the 8.3 name as it is shown. */
  datatype Entry = Entry(name: seq<nat>, attr: byte, cluster: nat, size: nat)

  /** Long-name slots seen so far: the chunk number that must come next, counting down to 0. */
  datatype Pending = NoPending | Pending(next: nat, sum: byte, units: seq<nat>)

  /** The units before the first terminator. */
  function UntilNul(units: seq<nat>): seq<nat> {
    if units == [] || units[0] == 0 then [] else [units[0]] + UntilNul(units[1..])
  }

  /** Where the thirteen code units of a long-name slot are. */
  function UnitAt(i: nat): (at: nat)
    requires i < 13
    ensures at <= 30
  {
    [1, 3, 5, 7, 9, 14, 16, 18, 20, 22, 24, 28, 30][i]
  }

  function SlotUnits(s: seq<byte>): (u: seq<nat>)
    requires |s| == 32
    ensures |u| == 13 && forall i :: 0 <= i < 13 ==> u[i] == GetU16(s, UnitAt(i))
  {
    seq<nat>(13, (i: nat) requires i < 13 => GetU16(s, UnitAt(i)))
  }

  /** A field without the blanks that fill it up. */
  function Trimmed(field: seq<byte>): seq<nat> {
    if field != [] && field[|field| - 1] == 0x20 then Trimmed(field[..|field| - 1]) else field
  }

  /** An 8.3 name as it is shown: eight characters and, after a dot, three more, without the filling. */
  function ShortText(short: seq<byte>): seq<nat>
    requires |short| == 11
  {
    var base, ext := Trimmed(short[..8]), Trimmed(short[8..]);
    if ext == [] then base else base + [0x2E] + ext
  }

  /** The eight bits of a byte, rotated right by one. */
  function RotatedByte(b: byte): byte {
    var bits := Words.Bits(8, b);
    Words.OctetRoundTrip(bits[1..] + [bits[0]]);
    Words.Number(bits[1..] + [bits[0]])
  }

  /** What ties the slots of a long name to the 8.3 name behind them. */
  function NameSum(short: seq<byte>): byte {
    if short == [] then 0 else (RotatedByte(NameSum(short[..|short| - 1])) + short[|short| - 1]) % 256
  }

  /** A long-name slot: the first one on disk is flagged, the others count down and agree on the checksum. */
  function PushSlot(slot: seq<byte>, pending: Pending): Result<Pending>
    requires |slot| == 32
  {
    var marker, units := slot[0], SlotUnits(slot);
    if (marker / 64) % 2 == 1 then
      if marker % 64 == 0 then Err else Ok(Pending(marker % 64 - 1, slot[13], units))
    else if pending.Pending? && pending.next == marker && marker > 0 && pending.sum == slot[13] then
      Ok(Pending(marker - 1, pending.sum, units + pending.units))
    else Err
  }

  function TakeName(slot: seq<byte>, pending: Pending): Result<seq<nat>>
    requires |slot| == 32
  {
    match pending
    case NoPending => Ok(ShortText(slot[..11]))
    case Pending(next, sum, units) =>
      if next == 0 && sum == NameSum(slot[..11]) then Ok(UntilNul(units)) else Err
  }

  /** Decodes slots up to the end marker or the end of the table. */
  function ParseDir(b: seq<byte>, pending: Pending): Result<seq<Entry>> {
    if |b| < 32 || b[0] == 0 then Ok([])
    else
      var slot, rest := b[..32], b[32..];
      if slot[11] == 0x0F then
        match PushSlot(slot, pending)
        case Err => Err
        case Ok(p) => ParseDir(rest, p)
      else if slot[0] == 0xE5 then ParseDir(rest, NoPending)
      else
        match TakeName(slot, pending)
        case Err => Err
        case Ok(name) =>
          match ParseDir(rest, NoPending)
          case Err => Err
          case Ok(tail) => Ok([Entry(name, slot[11], GetU16(slot, 26), GetU32(slot, 28))] + tail)
  }

  /** The name an object is recorded under, as it is shown. */
  function StoredName(name: string, naming: Naming): seq<nat> {
    if naming.long then CodeUnits(name) else ShortText(naming.short)
  }

  function CodeUnits(name: string): (u: seq<nat>)
    ensures |u| == |name| && forall i :: 0 <= i < |u| ==> u[i] == name[i] as int
  {
    seq<nat>(|name|, (i: nat) requires i < |name| => name[i] as int)
  }

  /** A name a host file system can hold. */
  predicate HostName(name: string) {
    0 < |name| <= 255 && forall c :: c in name ==> c != '\0'
  }

  type FileName = s: string | HostName(s) witness "A"

  predicate SixteenBit(name: string) {
    forall c :: c in name ==> (c as int) < 0x10000
  }

  // ---------------------------------------------------------------- the pieces of a name

  lemma UnitsInPlace(i: nat)
    requires i < 13
    ensures UnitAt(i) == UnitOffset(i)
  {
  }

  lemma SlotUnitsRoundTrip(marker: byte, units: seq<nat>, sum: byte)
    requires |units| == LFN_CHARS && forall i :: 0 <= i < LFN_CHARS ==> units[i] < 0x10000
    ensures SlotUnits(Slot(marker, units, sum)) == units
  {
    forall i | 0 <= i < LFN_CHARS ensures SlotUnits(Slot(marker, units, sum))[i] == units[i] {
      UnitsInPlace(i);
      SlotUnitAt(marker, units, sum, i);
    }
  }

  lemma RotatedIs(b: byte)
    ensures RotatedByte(b) == b / 2 + 128 * (b % 2)
  {
    var bits := Words.Bits(8, b);
    var rest, low := bits[1..], if bits[0] then 1 else 0;
    Words.BitsRoundTrip(b);
    assert b == low + 2 * Words.Number(rest);
    Words.NumberAppend(rest, [bits[0]]);
    assert Words.Number([bits[0]]) == low;
    assert Words.Scaled(7, low) == 128 * low;
  }

  lemma SumStep(sum: byte, value: byte)
    ensures ChecksumStep(sum, value) == (RotatedByte(sum) + value) % 256
  {
    RotatedIs(sum);
  }

  /** The builder's checksum is the reader's. */
  ghost predicate SumsAgree(short: seq<byte>) {
    Checksum(short) == NameSum(short)
  }

  lemma {:induction false} SameSums(short: seq<byte>)
    ensures SumsAgree(short)
  {
    if short != [] {
      var front := short[..|short| - 1];
      SameSums(front);
      SumStep(Checksum(front), short[|short| - 1]);
    }
  }

  lemma {:induction false} TrimmedFilling(b: seq<byte>, k: nat)
    requires b == [] || b[|b| - 1] != 0x20
    ensures Trimmed(b + seq(k, _ => 0x20)) == b
    decreases k
  {
    var field := b + seq(k, _ => 0x20);
    if k == 0 {
      assert field == b;
    } else {
      assert field[..|field| - 1] == b + seq(k - 1, _ => 0x20);
      TrimmedFilling(b, k - 1);
    }
  }

  lemma TrimmedField(text: string, n: nat)
    requires |text| <= n && forall c :: c in text ==> Allowed(c)
    ensures |PadTo(Ascii(text), n)| == n && Trimmed(PadTo(Ascii(text), n)) == CodeUnits(text)
  {
    var b := Ascii(text);
    forall i | 0 <= i < |text| ensures b[i] == text[i] as int && b[i] != 0x20 {
      assert text[i] in text;
      AllowedIsPlain(text[i]);
    }
    TrimmedFilling(b, n - |b|);
    assert PadTo(b, n) == b + seq(n - |b|, _ => 0x20);
    assert b == CodeUnits(text);
  }

  lemma ShortTextOf(base: string, ext: string, short: seq<byte>)
    requires |base| <= 8 && |ext| <= 3
    requires (forall c :: c in base ==> Allowed(c)) && (forall c :: c in ext ==> Allowed(c))
    requires short == PadTo(Ascii(base), 8) + PadTo(Ascii(ext), 3)
    ensures |short| == 11 && ShortText(short) == CodeUnits(base + if ext == "" then "" else "." + ext)
  {
    TrimmedField(base, 8);
    TrimmedField(ext, 3);
    assert short[..8] == PadTo(Ascii(base), 8) && short[8..] == PadTo(Ascii(ext), 3);
  }

  /** An 8.3 name is shown in capitals, extension and all. */
  lemma ShortNameShown(name: string)
    requires IsShortName(name)
    ensures ShortText(ShortName(name)) == CodeUnits(Capitals(name))
  {
    var base, ext := Upper(Base(name)), Upper(Ext(name));
    forall c | c in base ensures Allowed(c) {
      assert c in base + ext;
    }
    forall c | c in ext ensures Allowed(c) {
      assert c in base + ext;
    }
    UpperEmpty(Ext(name));
    ShortTextOf(base, ext, ShortName(name));
  }

  /** An alias is shown as the front of the cleaned name, a tilde and the number, and the cleaned extension. */
  lemma AliasShown(name: string, index: nat)
    requires 1 <= index < 100
    ensures var base, suffix, ext := Sanitize(Base(name)), AliasSuffix(index), AliasExt(name);
      ShortText(Alias(name, index)) ==
        CodeUnits(base[..Min(|base|, 8 - |suffix|)] + suffix + if ext == "" then "" else "." + ext)
  {
    var base, suffix, ext := Sanitize(Base(name)), AliasSuffix(index), AliasExt(name);
    var field := base[..Min(|base|, 8 - |suffix|)] + suffix;
    forall c | c in field ensures Allowed(c) {
      DigitsAllowed(index);
    }
    ShortTextOf(field, ext, Alias(name, index));
  }

  lemma DigitsAllowed(index: nat)
    requires 1 <= index < 100
    ensures forall c :: c in AliasSuffix(index) ==> Allowed(c)
  {
  }

  lemma UpperEmpty(s: string)
    ensures Upper(s) == "" <==> s == ""
  {
  }

  // ---------------------------------------------------------------- records

  lemma {:induction false} UntilNulOfPrefix(name: string, n: nat, k: nat)
    requires k <= |name| <= n
    requires forall c :: c in name ==> c != '\0'
    ensures UntilNul(Units(name, k, n - k)) == CodeUnits(name)[k..]
    decreases |name| - k
  {
    var units := Units(name, k, n - k);
    if k < |name| {
      assert name[k] in name;
      assert units[1..] == Units(name, k + 1, n - k - 1);
      UntilNulOfPrefix(name, n, k + 1);
      assert CodeUnits(name)[k..] == [units[0]] + CodeUnits(name)[k + 1..];
    } else if k < n {
      assert units[0] == 0;
    }
  }

  lemma ParseLongSlot(slot: seq<byte>, rest: seq<byte>, pending: Pending, next: Pending)
    requires |slot| == 32 && slot[0] != 0 && slot[11] == LFN_ATTR
    requires PushSlot(slot, pending) == Ok(next)
    ensures ParseDir(slot + rest, pending) == ParseDir(rest, next)
  {
    assert (slot + rest)[..32] == slot && (slot + rest)[32..] == rest;
  }

  lemma ChunkUnitsFit(name: string, k: nat)
    requires SixteenBit(name)
    ensures forall i :: 0 <= i < 13 ==> Units(name, 13 * k, 13)[i] < 0x10000
  {
    forall i | 0 <= i < 13 ensures Units(name, 13 * k, 13)[i] < 0x10000 {
      if 13 * k + i < |name| {
        assert name[13 * k + i] in name;
      }
    }
  }

  /** The code units of the chunks from k on. */
  function UnitsFrom(name: string, k: nat): seq<nat>
    requires k <= ChunkCount(name)
  {
    Units(name, 13 * k, 13 * (ChunkCount(name) - k))
  }

  lemma UnitsNext(name: string, k: nat)
    requires k < ChunkCount(name)
    ensures Units(name, 13 * k, 13) + UnitsFrom(name, k + 1) == UnitsFrom(name, k)
  {
  }

  /** What is pending once the chunks from k on have been read. */
  function PendingFrom(name: string, short: seq<byte>, k: nat): Pending
    requires k <= ChunkCount(name)
  {
    Pending(k, Checksum(short), UnitsFrom(name, k))
  }

  /** One slot of a long name: decoding it extends the collected units at the front. */
  lemma ChunkSlotPushed(name: string, short: seq<byte>, k: nat, pending: Pending)
    requires HostName(name) && SixteenBit(name)
    requires k < ChunkCount(name)
    requires k + 1 < ChunkCount(name) ==> pending == PendingFrom(name, short, k + 1)
    ensures PushSlot(ChunkSlot(name, short, k), pending) == Ok(PendingFrom(name, short, k))
  {
    var total := ChunkCount(name);
    ChunkUnitsFit(name, k);
    SlotUnitsRoundTrip(Marker(k, total), Units(name, 13 * k, 13), Checksum(short));
    UnitsNext(name, k);
    if k + 1 == total {
      assert Units(name, 13 * k, 13) == UnitsFrom(name, k);
    }
  }

  lemma ParseChunk(name: string, short: seq<byte>, k: nat, rest: seq<byte>, pending: Pending)
    requires HostName(name) && SixteenBit(name) && k < ChunkCount(name)
    requires k + 1 < ChunkCount(name) ==> pending == PendingFrom(name, short, k + 1)
    ensures ParseDir(ChunkSlot(name, short, k) + rest, pending) == ParseDir(rest, PendingFrom(name, short, k))
  {
    ChunkSlotPushed(name, short, k, pending);
    ParseLongSlot(ChunkSlot(name, short, k), rest, pending, PendingFrom(name, short, k));
  }

  lemma {:induction false} ParseLfnTail(name: string, short: seq<byte>, k: nat, rest: seq<byte>, pending: Pending)
    requires HostName(name) && SixteenBit(name)
    requires 0 < k <= ChunkCount(name)
    requires k < ChunkCount(name) ==> pending == PendingFrom(name, short, k)
    ensures ParseDir(LfnTail(name, short, k) + rest, pending) == ParseDir(rest, PendingFrom(name, short, 0))
  {
    var slot, tail := ChunkSlot(name, short, k - 1), LfnTail(name, short, k - 1);
    assert LfnTail(name, short, k) + rest == slot + (tail + rest);
    ParseChunk(name, short, k - 1, tail + rest, pending);
    if k > 1 {
      ParseLfnTail(name, short, k - 1, rest, PendingFrom(name, short, k - 1));
    } else {
      assert tail + rest == rest;
    }
  }

  function CollectedUnits(name: string): seq<nat> {
    Units(name, 0, 13 * ChunkCount(name))
  }

  /** Reading the long-name slots back yields the name, whatever follows and for every length. */
  lemma LfnRoundTrip(name: string, short: seq<byte>, rest: seq<byte>)
    requires HostName(name) && SixteenBit(name)
    ensures ParseDir(LfnBytes(name, short) + rest, NoPending)
         == ParseDir(rest, Pending(0, Checksum(short), CollectedUnits(name)))
    ensures UntilNul(CollectedUnits(name)) == CodeUnits(name)
  {
    var n := ChunkCount(name);
    ParseLfnTail(name, short, n, rest, NoPending);
    UntilNulOfPrefix(name, 13 * n, 0);
    assert CodeUnits(name)[0..] == CodeUnits(name);
  }

  lemma DirEntryFields(short: seq<byte>, attr: byte, cluster: nat, size: nat)
    requires |short| == 11 && cluster < 0x10000 && size < 0x1_0000_0000
    ensures DirEntry(short, attr, cluster, size)[..11] == short
    ensures DirEntry(short, attr, cluster, size)[11] == attr
    ensures GetU16(DirEntry(short, attr, cluster, size), 26) == cluster
    ensures GetU32(DirEntry(short, attr, cluster, size), 28) == size
  {
    var e := DirEntry(short, attr, cluster, size);
    assert e[26..28] == U16(cluster) && e[28..32] == U32(size);
    U16RoundTrip(cluster);
    U32RoundTrip(size);
    assert GetU16(e[26..28], 0) == GetU16(e, 26);
    assert GetU32(e[28..32], 0) == GetU32(e, 28);
  }

  function Prepend(e: Entry, r: Result<seq<Entry>>): Result<seq<Entry>> {
    match r
    case Err => Err
    case Ok(tail) => Ok([e] + tail)
  }

  lemma ParseDirEntry(short: seq<byte>, attr: byte, cluster: nat, size: nat, rest: seq<byte>, pending: Pending)
    requires |short| == 11 && short[0] != 0 && short[0] != 0xE5 && attr != LFN_ATTR
    requires cluster < 0x10000 && size < 0x1_0000_0000
    requires pending.Pending? ==> pending.next == 0 && pending.sum == NameSum(short)
    ensures var name := if pending.Pending? then UntilNul(pending.units) else ShortText(short);
      ParseDir(DirEntry(short, attr, cluster, size) + rest, pending)
        == Prepend(Entry(name, attr, cluster, size), ParseDir(rest, NoPending))
  {
    var e := DirEntry(short, attr, cluster, size);
    DirEntryFields(short, attr, cluster, size);
    assert (e + rest)[..32] == e && (e + rest)[32..] == rest;
    assert e[0] == short[0];
  }

  /** A record reads back as one entry holding the name, attribute, cluster and size it was made from. */
  lemma RecordRoundTrip(name: string, naming: Naming, attr: byte, cluster: nat, size: nat, rest: seq<byte>)
    requires HostName(name) && PlainShort(naming.short) && attr != LFN_ATTR
    requires Encodable(name, naming, cluster, size)
    ensures ParseDir(Record(name, naming, attr, cluster, size) + rest, NoPending)
         == Prepend(Entry(StoredName(name, naming), attr, cluster, size), ParseDir(rest, NoPending))
  {
    var e := DirEntry(naming.short, attr, cluster, size);
    if naming.long {
      var pending := Pending(0, Checksum(naming.short), CollectedUnits(name));
      assert Record(name, naming, attr, cluster, size) + rest == LfnBytes(name, naming.short) + (e + rest);
      LfnRoundTrip(name, naming.short, e + rest);
      SameSums(naming.short);
      ParseDirEntry(naming.short, attr, cluster, size, rest, pending);
    } else {
      assert Record(name, naming, attr, cluster, size) == e;
      ParseDirEntry(naming.short, attr, cluster, size, rest, NoPending);
    }
  }

  // ---------------------------------------------------------------- tables

  /** What one record of a directory says. */
  datatype Item = Item(name: FileName, naming: Naming, attr: byte, cluster: nat, size: nat)

  ghost predicate GoodItem(it: Item) {
    && PlainShort(it.naming.short) && it.attr != LFN_ATTR
    && Encodable(it.name, it.naming, it.cluster, it.size)
  }

  ghost predicate GoodTable(items: seq<Item>) {
    forall i :: 0 <= i < |items| ==> GoodItem(items[i])
  }

  function ItemBytes(it: Item): (b: seq<byte>)
    ensures |b| == RecordLength(it.name, it.naming)
  {
    Record(it.name, it.naming, it.attr, it.cluster, it.size)
  }

  function ItemEntry(it: Item): Entry {
    Entry(StoredName(it.name, it.naming), it.attr, it.cluster, it.size)
  }

  function TableBytes(items: seq<Item>): seq<byte> {
    if items == [] then []
    else TableBytes(items[..|items| - 1]) + ItemBytes(items[|items| - 1])
  }

  lemma TableAppend(items: seq<Item>, it: Item)
    ensures TableBytes(items + [it]) == TableBytes(items) + ItemBytes(it)
  {
    assert (items + [it])[..|items|] == items;
  }

  function ItemEntries(items: seq<Item>): (es: seq<Entry>)
    ensures |es| == |items| && forall i :: 0 <= i < |items| ==> es[i] == ItemEntry(items[i])
  {
    seq<Entry>(|items|, (i: nat) requires i < |items| => ItemEntry(items[i]))
  }

  function PrependAll(es: seq<Entry>, r: Result<seq<Entry>>): Result<seq<Entry>> {
    match r
    case Err => Err
    case Ok(tail) => Ok(es + tail)
  }

  lemma PrependLast(es: seq<Entry>, e: Entry, r: Result<seq<Entry>>)
    ensures PrependAll(es, Prepend(e, r)) == PrependAll(es + [e], r)
  {
    if r.Ok? {
      assert es + ([e] + r.value) == es + [e] + r.value;
    }
  }

  /** A text of whole records yields these entries and then what the rest yields. */
  ghost predicate Yields(b: seq<byte>, es: seq<Entry>, rest: seq<byte>) {
    ParseDir(b, NoPending) == PrependAll(es, ParseDir(rest, NoPending))
  }

  lemma ItemRoundTrip(it: Item, rest: seq<byte>)
    requires GoodItem(it)
    ensures ParseDir(ItemBytes(it) + rest, NoPending) == Prepend(ItemEntry(it), ParseDir(rest, NoPending))
  {
    RecordRoundTrip(it.name, it.naming, it.attr, it.cluster, it.size, rest);
  }

  lemma YieldsNext(b: seq<byte>, es: seq<Entry>, it: Item, rest: seq<byte>)
    requires GoodItem(it) && Yields(b, es, ItemBytes(it) + rest)
    ensures Yields(b, es + [ItemEntry(it)], rest)
  {
    ItemRoundTrip(it, rest);
    PrependLast(es, ItemEntry(it), ParseDir(rest, NoPending));
  }

  lemma YieldsNone(rest: seq<byte>)
    ensures Yields(rest, [], rest)
  {
    if ParseDir(rest, NoPending).Ok? {
      assert [] + ParseDir(rest, NoPending).value == ParseDir(rest, NoPending).value;
    }
  }

  /** A table of records parses into one entry per record, in order, whatever follows. */
  lemma {:induction false} TableRoundTrip(items: seq<Item>, rest: seq<byte>)
    requires GoodTable(items)
    ensures Yields(TableBytes(items) + rest, ItemEntries(items), rest)
  {
    if items == [] {
      assert TableBytes(items) + rest == rest && ItemEntries(items) == [];
      YieldsNone(rest);
    } else {
      var front, it := items[..|items| - 1], items[|items| - 1];
      assert TableBytes(items) + rest == TableBytes(front) + (ItemBytes(it) + rest);
      TableRoundTrip(front, ItemBytes(it) + rest);
      YieldsNext(TableBytes(items) + rest, ItemEntries(front), it, rest);
      assert ItemEntries(front) + [ItemEntry(it)] == ItemEntries(items);
    }
  }

  lemma ZerosEnd(n: nat)
    ensures ParseDir(Zeros(n), NoPending) == Ok([])
  {
  }

  lemma PrependToNone(es: seq<Entry>)
    ensures PrependAll(es, Ok([])) == Ok(es)
  {
    assert es + [] == es;
  }

  /** A table filled up with zeros parses into its entries. */
  lemma TableEnds(items: seq<Item>, n: nat)
    requires GoodTable(items)
    ensures ParseDir(TableBytes(items) + Zeros(n), NoPending) == Ok(ItemEntries(items))
  {
    TableRoundTrip(items, Zeros(n));
    ZerosEnd(n);
    PrependToNone(ItemEntries(items));
  }

  // ---------------------------------------------------------------- chains, objects, volumes

  /** A volume after mounting: the decoded table and where cluster 2 starts. */
  datatype Volume = Volume(fat: seq<nat>, image: seq<byte>, dataStart: nat)

  datatype Object = FileObject(name: seq<nat>, data: seq<byte>) | DirObject(name: seq<nat>, kids: seq<Object>)

  /** Values from 0xFFF8 on end a chain. */
  function Follow(fat: seq<nat>, c: nat, fuel: nat): Result<seq<nat>>
    decreases fuel
  {
    if fuel == 0 || c < 2 || c >= |fat| then Err
    else if fat[c] >= 0xFFF8 then Ok([c])
    else
      match Follow(fat, fat[c], fuel - 1)
      case Err => Err
      case Ok(tail) => Ok([c] + tail)
  }

  /** Clusters are four sectors of 512 bytes, the first one numbered 2. */
  function ClusterBytes(v: Volume, c: nat): seq<byte> {
    var at := v.dataStart + (c - 2) * 2048;
    if c >= 2 && at + 2048 <= |v.image| then v.image[at..at + 2048] else []
  }

  function Gather(v: Volume, chain: seq<nat>): seq<byte> {
    if chain == [] then [] else ClusterBytes(v, chain[0]) + Gather(v, chain[1..])
  }

  function ReadChain(v: Volume, c: nat): Result<seq<byte>> {
    match Follow(v.fat, c, |v.fat|)
    case Err => Err
    case Ok(chain) => Ok(Gather(v, chain))
  }

  /** A directory must start with entries for itself and for its parent. */
  function ReadObject(v: Volume, e: Entry, parent: nat, depth: nat): Result<Object>
    decreases depth, 0
  {
    match ReadChain(v, e.cluster)
    case Err => Err
    case Ok(bytes) =>
      if (e.attr / 16) % 2 == 0 then
        if e.size <= |bytes| then Ok(FileObject(e.name, bytes[..e.size])) else Err
      else if depth == 0 then Err
      else
        match ParseDir(bytes, NoPending)
        case Err => Err
        case Ok(entries) =>
          if |entries| < 2
             || entries[0] != Entry([0x2E], 0x10, e.cluster, 0)
             || entries[1] != Entry([0x2E, 0x2E], 0x10, parent, 0) then Err
          else
            match ReadObjects(v, entries[2..], e.cluster, depth - 1)
            case Err => Err
            case Ok(kids) => Ok(DirObject(e.name, kids))
  }

  function ReadObjects(v: Volume, entries: seq<Entry>, parent: nat, depth: nat): Result<seq<Object>>
    decreases depth, |entries|
  {
    if entries == [] then Ok([])
    else
      match ReadObject(v, entries[0], parent, depth)
      case Err => Err
      case Ok(o) =>
        match ReadObjects(v, entries[1..], parent, depth)
        case Err => Err
        case Ok(tail) => Ok([o] + tail)
  }

  lemma {:induction false} ReadPointwise(v: Volume, entries: seq<Entry>, parent: nat, depth: nat, objects: seq<Object>)
    requires |entries| == |objects|
    requires forall i :: 0 <= i < |entries| ==> ReadObject(v, entries[i], parent, depth) == Ok(objects[i])
    ensures ReadObjects(v, entries, parent, depth) == Ok(objects)
    decreases |entries|
  {
    if entries != [] {
      ReadPointwise(v, entries[1..], parent, depth, objects[1..]);
      assert [objects[0]] + objects[1..] == objects;
    }
  }

  function DecodeFat(image: seq<byte>, at: nat, count: nat): (fat: seq<nat>)
    requires at + 2 * count <= |image|
    ensures |fat| == count && forall i :: 0 <= i < count ==> fat[i] == GetU16(image, at + 2 * i)
  {
    seq<nat>(count, (i: nat) requires i < count => GetU16(image, at + 2 * i))
  }

  /** Finds the regions from the boot sector alone. */
  function MountVolume(image: seq<byte>): Result<(Volume, seq<byte>)> {
    if |image| < 512 || GetU16(image, 510) != 0xAA55 then Err
    else if GetU16(image, 11) != 512 || image[13] != 4 || image[16] != 2 then Err
    else MountRegions(image, GetU16(image, 14), GetU16(image, 17), GetU16(image, 22), GetU32(image, 32))
  }

  /** Cuts out the table and the root directory; both table copies must agree. */
  function MountRegions(image: seq<byte>, reserved: nat, rootEntries: nat, fatSectors: nat, total: nat)
      : Result<(Volume, seq<byte>)> {
    var fatStart: nat := 512 * reserved;
    var fatEnd: nat := fatStart + 512 * fatSectors;
    var rootStart: nat := fatEnd + 512 * fatSectors;
    MountAt(image, fatStart, fatEnd, rootStart, rootStart + 32 * rootEntries, total)
  }

  /** Both copies of the table must agree, and the first must have an entry for every cluster. */
  function MountAt(image: seq<byte>, fatStart: nat, fatEnd: nat, rootStart: nat, dataStart: nat, total: nat)
      : Result<(Volume, seq<byte>)>
    requires fatStart <= fatEnd <= rootStart <= dataStart
  {
    if dataStart > 512 * total || 512 * total > |image| || dataStart % 512 != 0 then Err
    else if image[fatStart..fatEnd] != image[fatEnd..rootStart] then Err
    else
      var count: nat := (total - dataStart / 512) / 4 + 2;
      if 2 * count > fatEnd - fatStart then Err
      else Ok((Volume(DecodeFat(image, fatStart, count), image, dataStart), image[rootStart..dataStart]))
  }

  /** The whole file tree of an image. */
  function ReadVolume(image: seq<byte>): Result<seq<Object>> {
    match MountVolume(image)
    case Err => Err
    case Ok((v, root)) =>
      match ParseDir(root, NoPending)
      case Err => Err
      case Ok(entries) => ReadObjects(v, entries, 0, |v.fat|)
  }
}
