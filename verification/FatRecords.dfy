/**
  Directory records: 8.3 names, generated aliases and long-file-name slots, and a
  parser for the resulting 32-byte slots that is written from the format alone.
*/
module FatRecords {
  import opened Bytes
  import opened FatGeometry

  const ATTR_DIRECTORY: byte := 0x10
  const ATTR_FILE: byte := 0x20
  const LFN_ATTR: byte := 0x0F
  const LFN_LAST := 0x40
  const LFN_CHARS := 13

  // ---------------------------------------------------------------- 8.3 names

  predicate Allowed(c: char) {
    'A' <= c <= 'Z' || '0' <= c <= '9'
    || c in {'$', '%', '\'', '-', '_', '@', '~', '`', '!', '(', ')', '{', '}', '^', '#', '&'}
  }

  /**
    The upper case of a character, as far as it holds letters an 8.3 name allows.  Every
    other character beyond ASCII has no such letter in its upper case and may stay as it is.
  */
  function UpperChar(c: char): string {
    var n := c as int;
    if 'a' <= c <= 'z' then [(n - 32) as char]
    else if n < 0x80 then [c]
    else if n == 0xDF then "SS"
    else if n == 0x131 then "I"
    else if n == 0x149 then ['\U{02BC}', 'N']
    else if n == 0x17F then "S"
    else if n == 0x1F0 then ['J', '\U{030C}']
    else if 0x1E96 <= n <= 0x1E9A then ["HTWYA"[n - 0x1E96], '\U{0331}']
    else if n == 0xFB00 then "FF"
    else if n == 0xFB01 then "FI"
    else if n == 0xFB02 then "FL"
    else if n == 0xFB03 then "FFI"
    else if n == 0xFB04 then "FFL"
    else if n == 0xFB05 || n == 0xFB06 then "ST"
    else [c]
  }

  function Upper(s: string): string {
    if s == "" then "" else UpperChar(s[0]) + Upper(s[1..])
  }

  /** Capitals, digits and punctuation are their own upper case. */
  lemma {:induction false} UpperAllowed(s: string)
    requires forall c :: c in s ==> Allowed(c)
    ensures Upper(s) == s
  {
    if s != "" {
      assert s[0] in s;
      UpperAllowed(s[1..]);
    }
  }

  /** Position of the last dot, or the length when there is none. */
  function LastDot(s: string): (k: nat)
    ensures k <= |s|
    ensures k < |s| ==> s[k] == '.'
    ensures forall i :: k < i < |s| ==> s[i] != '.'
  {
    if s == "" then 0
    else if s[|s| - 1] == '.' then |s| - 1
    else
      var k := LastDot(s[..|s| - 1]);
      if k == |s| - 1 then |s| else k
  }

  lemma {:induction false} NoDot(s: string)
    ensures LastDot(s) == |s| <==> '.' !in s
  {
    if s != "" {
      var front := s[..|s| - 1];
      NoDot(front);
      assert s == front + [s[|s| - 1]];
    }
  }

  function Base(name: string): string { name[..LastDot(name)] }

  function Ext(name: string): string {
    if LastDot(name) == |name| then "" else name[LastDot(name) + 1..]
  }

  function Ascii(s: string): (b: seq<byte>)
    ensures |b| == |s|
  {
    seq(|s|, i requires 0 <= i < |s| => (s[i] as int) % 256)
  }

  /** Left-justifies in a field of spaces; longer text is kept whole. */
  function PadTo(b: seq<byte>, n: nat): (p: seq<byte>)
    ensures |p| == Max(|b|, n)
    ensures b <= p
  {
    b + seq(Max(0, n - |b|), _ => 0x20)
  }

  predicate IsShortName(name: string) {
    var base, ext := Upper(Base(name)), Upper(Ext(name));
    0 < |base| <= 8 && |ext| <= 3 && (forall c :: c in base + ext ==> Allowed(c))
  }

  type ShortBytes = s: seq<byte> | |s| == 11 witness seq(11, _ => 0x20)

  /** What a first name byte must not be: end marker, deleted marker, dot entry. */
  predicate PlainShort(short: seq<byte>) {
    |short| == 11 && short[0] != 0 && short[0] != 0xE5 && short[0] != 0x2E
  }

  function ShortName(name: string): (short: seq<byte>)
    requires IsShortName(name)
    ensures PlainShort(short)
  {
    var base, ext := Upper(Base(name)), Upper(Ext(name));
    assert base[0] in base + ext;
    AllowedIsPlain(base[0]);
    PadTo(Ascii(base), 8) + PadTo(Ascii(ext), 3)
  }

  /** An 8.3 name in capitals, with its extension after a dot. */
  function Capitals(name: string): string {
    Upper(Base(name)) + if Ext(name) == "" then "" else "." + Upper(Ext(name))
  }

  lemma AllowedIsPlain(c: char)
    requires Allowed(c)
    ensures 0x20 < (c as int) < 0x7F && c != '.'
  {
  }

  function KeepAllowed(s: string): (r: string)
    ensures forall c :: c in r ==> Allowed(c)
  {
    if s == "" then ""
    else if Allowed(s[0]) then [s[0]] + KeepAllowed(s[1..])
    else KeepAllowed(s[1..])
  }

  function Sanitize(s: string): (r: string)
    ensures r != "" && forall c :: c in r ==> Allowed(c)
  {
    var kept := KeepAllowed(Upper(s));
    if kept == "" then "FILE" else kept
  }

  function AliasSuffix(index: nat): (s: string)
    requires 1 <= index < 100
    ensures 2 <= |s| <= 3
  {
    if index < 10 then ['~', Digit(index)] else ['~', Digit(index / 10), Digit(index % 10)]
  }

  function Digit(d: nat): char
    requires d < 10
  {
    "0123456789"[d]
  }

  function Alias(name: string, index: nat): (short: seq<byte>)
    requires 1 <= index < 100
    ensures PlainShort(short)
  {
    var base := Sanitize(Base(name));
    assert base[0] in base;
    AliasField(base, AliasSuffix(index)) + PadTo(Ascii(AliasExt(name)), 3)
  }

  function AliasExt(name: string): (ext: string)
    ensures |ext| <= 3
  {
    if Ext(name) == "" then "" else var e := Sanitize(Ext(name)); e[..Min(3, |e|)]
  }

  function AliasField(base: string, suffix: string): (b: seq<byte>)
    requires base != "" && Allowed(base[0]) && 2 <= |suffix| <= 3
    ensures |b| == 8 && b[0] != 0 && b[0] != 0xE5 && b[0] != 0x2E
  {
    AllowedIsPlain(base[0]);
    PadTo(Ascii(base[..Min(|base|, 8 - |suffix|)] + suffix), 8)
  }

  /** The first unused alias from `index` on. */
  function FirstFreeAlias(name: string, used: set<seq<byte>>, index: nat): (r: Option<seq<byte>>)
    requires 1 <= index <= 100
    ensures r.Some? ==> PlainShort(r.value) && r.value !in used
    decreases 100 - index
  {
    if index == 100 then None
    else if Alias(name, index) !in used then Some(Alias(name, index))
    else FirstFreeAlias(name, used, index + 1)
  }

  method MakeShortAlias(name: string, used: set<seq<byte>>) returns (r: Option<seq<byte>>)
    ensures r == FirstFreeAlias(name, used, 1)
  {
    for index := 1 to 100
      invariant FirstFreeAlias(name, used, 1) == FirstFreeAlias(name, used, index)
    {
      var candidate := Alias(name, index);
      if candidate !in used {
        return Some(candidate);
      }
    }
    return None;
  }

  // ---------------------------------------------------------------- long names

  function ChecksumStep(sum: byte, value: byte): byte {
    ((sum % 2) * 128 + sum / 2 + value) % 256
  }

  function Checksum(short: seq<byte>): byte {
    if short == [] then 0 else ChecksumStep(Checksum(short[..|short| - 1]), short[|short| - 1])
  }

  method LfnChecksum(short: seq<byte>) returns (sum: byte)
    ensures sum == Checksum(short)
  {
    sum := 0;
    for i := 0 to |short|
      invariant sum == Checksum(short[..i])
    {
      assert short[..i + 1][..i] == short[..i];
      sum := ((sum % 2) * 128 + sum / 2 + short[i]) % 256;
    }
    assert short[..|short|] == short;
  }

  /** Code unit at a position: the name, one terminator, then fill. */
  function Unit(name: string, pos: nat): nat {
    if pos < |name| then name[pos] as int
    else if pos == |name| then 0
    else 0xFFFF
  }

  function Units(name: string, from: nat, count: nat): (u: seq<nat>)
    ensures |u| == count && forall i :: 0 <= i < count ==> u[i] == Unit(name, from + i)
  {
    seq<nat>(count, (i: nat) => Unit(name, from + i))
  }

  function ChunkCount(name: string): (n: nat)
    ensures 13 * n - 13 < |name| <= 13 * n
  {
    CeilDiv(|name|, LFN_CHARS)
  }

  /** Offset of the i-th code unit inside a slot. */
  function UnitOffset(i: nat): nat {
    if i < 5 then 1 + i * 2 else if i < 11 then 14 + (i - 5) * 2 else 28 + (i - 11) * 2
  }

  function Slot(marker: byte, units: seq<nat>, sum: byte): (s: seq<byte>)
    requires |units| == LFN_CHARS
    ensures |s| == 32 && s[0] == marker && s[11] == LFN_ATTR && s[13] == sum
  {
    seq(32, k requires 0 <= k < 32 => SlotByte(marker, units, sum, k))
  }

  function SlotByte(marker: byte, units: seq<nat>, sum: byte, k: nat): byte
    requires |units| == LFN_CHARS && k < 32
  {
    if k == 0 then marker
    else if k < 11 then U16(units[(k - 1) / 2])[(k - 1) % 2]
    else if k == 11 then LFN_ATTR
    else if k == 12 then 0
    else if k == 13 then sum
    else if k < 26 then U16(units[5 + (k - 14) / 2])[(k - 14) % 2]
    else if k < 28 then 0
    else U16(units[11 + (k - 28) / 2])[(k - 28) % 2]
  }

  lemma SlotUnitAt(marker: byte, units: seq<nat>, sum: byte, i: nat)
    requires |units| == LFN_CHARS && i < LFN_CHARS && units[i] < 0x10000
    ensures GetU16(Slot(marker, units, sum), UnitOffset(i)) == units[i]
  {
    var s, at := Slot(marker, units, sum), UnitOffset(i);
    assert s[at] == SlotByte(marker, units, sum, at) == U16(units[i])[0];
    assert s[at + 1] == SlotByte(marker, units, sum, at + 1) == U16(units[i])[1];
    U16RoundTrip(units[i]);
  }

  /** The unit a byte of a slot belongs to, or -1 for the fixed bytes. */
  function UnitIndex(k: nat): int {
    if 1 <= k < 11 then (k - 1) / 2
    else if 14 <= k < 26 then 5 + (k - 14) / 2
    else if 28 <= k < 32 then 11 + (k - 28) / 2
    else -1
  }

  lemma UnitBytes(marker: byte, units: seq<nat>, sum: byte, i: nat, k: nat)
    requires |units| == LFN_CHARS && i < LFN_CHARS && k < 32
    ensures UnitIndex(k) == i <==> k == UnitOffset(i) || k == UnitOffset(i) + 1
    ensures k == UnitOffset(i) ==> SlotByte(marker, units, sum, k) == units[i] % 256
    ensures k == UnitOffset(i) + 1 ==> SlotByte(marker, units, sum, k) == (units[i] / 256) % 256
  {
    U16Bytes(units[i]);
  }

  method LfnEntry(marker: byte, units: seq<nat>, sum: byte) returns (entry: seq<byte>)
    requires |units| == LFN_CHARS
    ensures entry == Slot(marker, units, sum)
  {
    var a := new byte[32](_ => 0);
    a[0], a[11], a[13] := marker, LFN_ATTR, sum;
    for i := 0 to LFN_CHARS
      invariant forall k :: 0 <= k < 32 ==> a[k] == if UnitIndex(k) < i then SlotByte(marker, units, sum, k) else 0
    {
      forall k | 0 <= k < 32
        ensures UnitIndex(k) == i <==> k == UnitOffset(i) || k == UnitOffset(i) + 1
      {
        UnitBytes(marker, units, sum, i, k);
      }
      var offset := UnitOffset(i);
      UnitBytes(marker, units, sum, i, offset);
      UnitBytes(marker, units, sum, i, offset + 1);
      a[offset], a[offset + 1] := units[i] % 256, (units[i] / 256) % 256;
    }
    entry := a[..];
  }

  /** `sequence | 0x40` on the last chunk. */
  function Marker(k: nat, total: nat): byte
    requires k < total < 64
  {
    k + 1 + (if k + 1 == total then LFN_LAST else 0)
  }

  function ChunkSlot(name: string, short: seq<byte>, k: nat): (s: seq<byte>)
    requires k < ChunkCount(name) < 64
    ensures |s| == 32
  {
    Slot(Marker(k, ChunkCount(name)), Units(name, LFN_CHARS * k, LFN_CHARS), Checksum(short))
  }

  /** The slots of the first `k` chunks, last chunk first, as they are laid out on disk. */
  function LfnTail(name: string, short: seq<byte>, k: nat): (b: seq<byte>)
    requires k <= ChunkCount(name) < 64
    ensures |b| == 32 * k
  {
    if k == 0 then [] else ChunkSlot(name, short, k - 1) + LfnTail(name, short, k - 1)
  }

  function LfnBytes(name: string, short: seq<byte>): (b: seq<byte>)
    requires |name| <= 255
    ensures |b| == 32 * ChunkCount(name)
  {
    LfnTail(name, short, ChunkCount(name))
  }

  /** The code units of a chunk: characters, then a terminator, then filling. */
  method ChunkUnits(name: string, k: nat) returns (values: seq<nat>)
    requires |name| <= 255 && k < ChunkCount(name)
    ensures values == Units(name, LFN_CHARS * k, LFN_CHARS)
  {
    values := seq<nat>(Min(LFN_CHARS, |name| - LFN_CHARS * k),
      (i: nat) requires LFN_CHARS * k + i < |name| => name[LFN_CHARS * k + i] as int);
    ghost var filled := |values|;
    if |values| < LFN_CHARS {
      values := values + [0];
      while |values| < LFN_CHARS
        invariant filled < |values| <= LFN_CHARS
        invariant forall i :: 0 <= i < |values| ==> values[i] == Unit(name, LFN_CHARS * k + i)
      {
        values := values + [0xFFFF];
      }
    }
  }

  /** Builds the slots chunk by chunk, then reverses them. */
  method LfnEntries(name: string, short: seq<byte>) returns (entries: seq<byte>)
    requires |name| <= 255
    ensures entries == LfnBytes(name, short)
  {
    var total := ChunkCount(name);
    var sum := LfnChecksum(short);
    entries := [];
    for k := 0 to total
      invariant entries == LfnTail(name, short, k)
    {
      var values := ChunkUnits(name, k);
      var marker := if k + 1 == total then k + 1 + LFN_LAST else k + 1;
      var entry := LfnEntry(marker, values, sum);
      // entries are listed in reverse, so each later chunk goes in front
      entries := entry + entries;
    }
  }

  // ---------------------------------------------------------------- records

  /** The names of a directory's first two records. */
  const DOT: seq<byte> := [0x2E, 0x20, 0x20, 0x20, 0x20, 0x20, 0x20, 0x20, 0x20, 0x20, 0x20]
  const DOTDOT: seq<byte> := [0x2E, 0x2E, 0x20, 0x20, 0x20, 0x20, 0x20, 0x20, 0x20, 0x20, 0x20]

  function DirEntry(short: seq<byte>, attr: byte, cluster: nat, size: nat): (e: seq<byte>)
    requires |short| == 11
    ensures |e| == 32
  {
    short + [attr] + Zeros(14) + U16(cluster) + U32(size)
  }

  /** The stored name of an object and whether long-name slots precede it. */
  datatype Naming = Naming(short: ShortBytes, long: bool)

  function ChooseName(name: string, used: set<seq<byte>>): (r: Option<Naming>)
    ensures r.Some? ==> PlainShort(r.value.short)
    ensures r.Some? && r.value.short in used ==> IsShortName(name) && r.value == Naming(ShortName(name), true)
  {
    if IsShortName(name) then Some(Naming(ShortName(name), ShortName(name) in used))
    else match FirstFreeAlias(name, used, 1)
      case None => None
      case Some(alias) => Some(Naming(alias, true))
  }

  function Record(name: string, naming: Naming, attr: byte, cluster: nat, size: nat): (b: seq<byte>)
    requires |name| <= 255
    ensures |b| == RecordLength(name, naming)
  {
    (if naming.long then LfnBytes(name, naming.short) else []) + DirEntry(naming.short, attr, cluster, size)
  }

  function RecordLength(name: string, naming: Naming): nat {
    32 * (1 + if naming.long then ChunkCount(name) else 0)
  }

  /** What the packing of the record's fields demands. */
  predicate Encodable(name: string, naming: Naming, cluster: nat, size: nat) {
    && cluster < 0x10000 && size < 0x1_0000_0000
    && (naming.long ==> forall c :: c in name ==> (c as int) < 0x10000)
  }

  method DirectoryRecord(name: string, attr: byte, cluster: nat, size: nat, used: set<seq<byte>>)
    returns (r: Result<seq<byte>>, used': set<seq<byte>>)
    requires |name| <= 255
    ensures r.Ok? <==> ChooseName(name, used).Some? && Encodable(name, ChooseName(name, used).value, cluster, size)
    ensures r.Ok? ==> r.value == Record(name, ChooseName(name, used).value, attr, cluster, size)
    ensures r.Ok? ==> used' == used + {ChooseName(name, used).value.short}
  {
    var short: seq<byte>;
    var long := true;
    if IsShortName(name) {
      short := ShortName(name);
      long := short in used;
    } else {
      var alias := MakeShortAlias(name, used);
      if alias.None? {
        return Err, used;
      }
      short := alias.value;
    }
    used' := used + {short};
    if cluster >= 0x10000 || size >= 0x1_0000_0000 || (long && exists c :: c in name && (c as int) >= 0x10000) {
      return Err, used';
    }
    var slots := [];
    if long {
      slots := LfnEntries(name, short);
    }
    r := Ok(slots + DirEntry(short, attr, cluster, size));
  }
}
