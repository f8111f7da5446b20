/**
  Base64 as in section 4 of RFC 4648, encoded through a carry of three bytes and decoded
  through a quad of four characters.  Characters are their codes.
*/
module Base64 {
  import opened Bytes
  import opened Reads

  const PAD: byte := '=' as int
  const RETURN: byte := 13
  const NEWLINE: byte := 10

  // ---------------------------------------------------------------- the alphabet

  function Letter(v: nat): byte
    requires v < 64
  {
    if v < 26 then 'A' as int + v
    else if v < 52 then 'a' as int + v - 26
    else if v < 62 then '0' as int + v - 52
    else if v == 62 then '+' as int
    else '/' as int
  }

  datatype Value = Sextet(v: nat) | Padding | Blank | Invalid

  function DecodeValue(c: byte): (r: Value)
    ensures r.Sextet? ==> r.v < 64
  {
    if 'A' as int <= c <= 'Z' as int then Sextet(c - 'A' as int)
    else if 'a' as int <= c <= 'z' as int then Sextet(26 + c - 'a' as int)
    else if '0' as int <= c <= '9' as int then Sextet(52 + c - '0' as int)
    else if c == '+' as int then Sextet(62)
    else if c == '/' as int then Sextet(63)
    else if c == PAD then Padding
    else if c == RETURN || c == NEWLINE || c == 9 || c == ' ' as int then Blank
    else Invalid
  }

  /** Letters and sextets are in one-to-one correspondence. */
  lemma LetterValue(v: nat, c: byte)
    requires v < 64
    ensures DecodeValue(c) == Sextet(v) <==> c == Letter(v)
  {
  }

  // ---------------------------------------------------------------- three bytes, four characters

  type Triplet = t: seq<byte> | 1 <= |t| <= 3 witness [0]
  type Quad = q: seq<byte> | |q| == 4 witness [0, 0, 0, 0]

  function Bits24(a: nat, b: nat, c: nat): nat {
    a * 0x1_0000 + b * 0x100 + c
  }

  function Six(bits: nat, shift: nat): (v: nat)
    requires shift > 0
    ensures v < 64
  {
    bits / shift % 64
  }

  function TripletBits(t: Triplet): nat
  {
    Bits24(t[0], if |t| > 1 then t[1] else 0, if |t| > 2 then t[2] else 0)
  }

  /** One to three bytes; the characters no byte reaches are padding. */
  function EncodeTriplet(t: Triplet): Quad
  {
    var bits := TripletBits(t);
    [ Letter(Six(bits, 0x4_0000)), Letter(Six(bits, 0x1000)),
      if |t| > 1 then Letter(Six(bits, 0x40)) else PAD,
      if |t| > 2 then Letter(Six(bits, 1)) else PAD ]
  }

  predicate GoodQuad(q: Quad)
  {
    var v2, v3 := DecodeValue(q[2]), DecodeValue(q[3]);
    && DecodeValue(q[0]).Sextet? && DecodeValue(q[1]).Sextet?
    && (v2.Sextet? || v2.Padding?) && (v3.Sextet? || v3.Padding?) && (v2.Padding? ==> v3.Padding?)
  }

  function SextetOf(c: byte): nat {
    var v := DecodeValue(c);
    if v.Sextet? then v.v else 0
  }

  function Joined(q: Quad): nat
  {
    SextetOf(q[0]) * 0x4_0000 + SextetOf(q[1]) * 0x1000 + SextetOf(q[2]) * 0x40 + SextetOf(q[3])
  }

  function DecodeQuad(q: Quad): Result<seq<byte>>
  {
    if !GoodQuad(q) then Err
    else
      var bits := Joined(q);
      var first, second, third := bits / 0x1_0000 % 0x100, bits / 0x100 % 0x100, bits % 0x100;
      if DecodeValue(q[2]).Padding? then Ok([first])
      else if DecodeValue(q[3]).Padding? then Ok([first, second])
      else Ok([first, second, third])
  }

  lemma SixesJoin(bits: nat)
    requires bits < 0x100_0000
    ensures bits == Six(bits, 0x4_0000) * 0x4_0000 + Six(bits, 0x1000) * 0x1000 + Six(bits, 0x40) * 0x40 + Six(bits, 1)
  {
    var q, r, t := bits / 0x40, bits / 0x1000, bits / 0x4_0000;
    assert q / 0x40 == r && r / 0x40 == t && t % 0x40 == t;
    assert bits == q * 0x40 + bits % 0x40 && q == r * 0x40 + q % 0x40 && r == t * 0x40 + r % 0x40;
  }

  lemma LowByte(q: nat, r: byte)
    ensures (0x100 * q + r) / 0x100 == q && (0x100 * q + r) % 0x100 == r
  {
  }

  lemma BytesOf(a: byte, b: byte, c: byte)
    ensures var bits := Bits24(a, b, c);
            bits < 0x100_0000 && bits / 0x1_0000 % 0x100 == a && bits / 0x100 % 0x100 == b && bits % 0x100 == c
  {
    var bits := Bits24(a, b, c);
    LowByte(0x100 * a + b, c);
    LowByte(a, b);
    assert bits == 0x100 * (0x100 * a + b) + c;
    assert bits / 0x1_0000 == a;
  }

  lemma LowSixes(a: byte, b: byte)
    ensures Six(Bits24(a, b, 0), 1) == 0 && Six(Bits24(a, 0, 0), 0x40) == 0
  {
    WholeSixes(0x400 * a + 4 * b);
    WholeSixes(0x400 * a);
    WholeSixes(0x10 * a);
    assert Bits24(a, b, 0) == 0x40 * (0x400 * a + 4 * b) && Bits24(a, 0, 0) == 0x40 * (0x400 * a);
  }

  lemma WholeSixes(q: nat)
    ensures 0x40 * q / 0x40 == q && 0x40 * q % 0x40 == 0
  {
  }

  /** The characters of an encoded triplet carry its sextets. */
  lemma TripletValues(t: Triplet)
    ensures var bits, q := TripletBits(t), EncodeTriplet(t);
            && DecodeValue(q[0]) == Sextet(Six(bits, 0x4_0000)) && DecodeValue(q[1]) == Sextet(Six(bits, 0x1000))
            && DecodeValue(q[2]) == (if |t| > 1 then Sextet(Six(bits, 0x40)) else Padding)
            && DecodeValue(q[3]) == (if |t| > 2 then Sextet(Six(bits, 1)) else Padding)
  {
    var bits, q := TripletBits(t), EncodeTriplet(t);
    LetterValue(Six(bits, 0x4_0000), q[0]);
    LetterValue(Six(bits, 0x1000), q[1]);
    LetterValue(Six(bits, 0x40), q[2]);
    LetterValue(Six(bits, 1), q[3]);
  }

  lemma TripletJoined(t: Triplet)
    ensures Joined(EncodeTriplet(t)) == TripletBits(t)
  {
    TripletValues(t);
    var a, b, c := t[0], if |t| > 1 then t[1] else 0, if |t| > 2 then t[2] else 0;
    BytesOf(a, b, c);
    LowSixes(a, b);
    SixesJoin(TripletBits(t));
  }

  lemma TripletRoundTrip(t: Triplet)
    ensures DecodeQuad(EncodeTriplet(t)) == Ok(t)
  {
    TripletValues(t);
    TripletJoined(t);
    BytesOf(t[0], if |t| > 1 then t[1] else 0, if |t| > 2 then t[2] else 0);
    assert t == if |t| == 1 then [t[0]] else if |t| == 2 then [t[0], t[1]] else [t[0], t[1], t[2]];
  }

  // ---------------------------------------------------------------- whole texts

  /** The data in triplets, each put through f. */
  function Chunked(f: Triplet -> Quad, data: seq<byte>): seq<byte>
    decreases |data|
  {
    if data == [] then [] else if |data| <= 3 then f(data) else f(data[..3]) + Chunked(f, data[3..])
  }

  function Followed(a: Result<seq<byte>>, b: Result<seq<byte>>): Result<seq<byte>> {
    if a.Ok? && b.Ok? then Ok(a.value + b.value) else Err
  }

  /** The text in quads, each put through g. */
  function Unchunked(g: Quad -> Result<seq<byte>>, s: seq<byte>): Result<seq<byte>>
    decreases |s|
  {
    if s == [] then Ok([]) else if |s| < 4 then Err else Followed(g(s[..4]), Unchunked(g, s[4..]))
  }

  /** The characters that are not white space. */
  function Strip(text: seq<byte>): seq<byte> {
    if text == [] then []
    else
      var rest := Strip(text[..|text| - 1]);
      if DecodeValue(text[|text| - 1]).Blank? then rest else rest + [text[|text| - 1]]
  }

  function Encode(data: seq<byte>): seq<byte> {
    Chunked(EncodeTriplet, data)
  }

  function Decode(text: seq<byte>): Result<seq<byte>> {
    Unchunked(DecodeQuad, Strip(text))
  }

  lemma {:induction false} ChunkedLength(f: Triplet -> Quad, data: seq<byte>)
    ensures |Chunked(f, data)| == 4 * ((|data| + 2) / 3)
    decreases |data|
  {
    if |data| > 3 {
      ChunkedLength(f, data[3..]);
    }
  }

  lemma {:induction false} ChunkedAppend(f: Triplet -> Quad, a: seq<byte>, b: seq<byte>)
    requires |a| % 3 == 0
    ensures Chunked(f, a + b) == Chunked(f, a) + Chunked(f, b)
    decreases |a|
  {
    if a == [] {
      assert a + b == b;
    } else {
      var front, rest := a[..3], a[3..];
      assert (a + b)[..3] == front && (a + b)[3..] == rest + b;
      ChunkedAppend(f, rest, b);
      ChunkedCons(f, a);
      ChunkedCons(f, a + b);
      assert f(front) + (Chunked(f, rest) + Chunked(f, b)) == f(front) + Chunked(f, rest) + Chunked(f, b);
    }
  }

  lemma ChunkedCons(f: Triplet -> Quad, data: seq<byte>)
    requires |data| >= 3
    ensures Chunked(f, data) == f(data[..3]) + Chunked(f, data[3..])
  {
    if |data| == 3 {
      assert data[..3] == data && data[3..] == [];
      assert Chunked(f, []) == [];
    }
  }

  lemma {:induction false} UnchunkedAppend(g: Quad -> Result<seq<byte>>, s: seq<byte>, t: seq<byte>)
    requires |s| % 4 == 0
    ensures Unchunked(g, s + t) == Followed(Unchunked(g, s), Unchunked(g, t))
    decreases |s|
  {
    if s == [] {
      assert s + t == t;
      FollowedNothing(Unchunked(g, t));
    } else {
      assert (s + t)[..4] == s[..4] && (s + t)[4..] == s[4..] + t;
      UnchunkedAppend(g, s[4..], t);
      FollowedAssociates(g(s[..4]), Unchunked(g, s[4..]), Unchunked(g, t));
    }
  }

  lemma FollowedAssociates(a: Result<seq<byte>>, b: Result<seq<byte>>, c: Result<seq<byte>>)
    ensures Followed(Followed(a, b), c) == Followed(a, Followed(b, c))
  {
    if a.Ok? && b.Ok? && c.Ok? {
      assert a.value + b.value + c.value == a.value + (b.value + c.value);
    }
  }

  lemma FollowedNothing(a: Result<seq<byte>>)
    ensures Followed(Ok([]), a) == a && Followed(a, Ok([])) == a
  {
    if a.Ok? {
      assert [] + a.value == a.value && a.value + [] == a.value;
    }
  }

  lemma UnchunkedOne(g: Quad -> Result<seq<byte>>, q: Quad)
    ensures Unchunked(g, q) == g(q)
  {
    assert q[..4] == q && q[4..] == [];
    assert Unchunked(g, []) == Ok([]);
    FollowedNothing(g(q));
  }

  lemma {:induction false} ChunkedRoundTrip(f: Triplet -> Quad, g: Quad -> Result<seq<byte>>, data: seq<byte>)
    requires forall t: Triplet :: g(f(t)) == Ok(t)
    ensures Unchunked(g, Chunked(f, data)) == Ok(data)
    decreases |data|
  {
    if data == [] {
    } else if |data| <= 3 {
      UnchunkedOne(g, f(data));
    } else {
      UnchunkedOne(g, f(data[..3]));
      ChunkedRoundTrip(f, g, data[3..]);
      UnchunkedAppend(g, f(data[..3]), Chunked(f, data[3..]));
      assert data == data[..3] + data[3..];
    }
  }

  lemma EncodedLength(data: seq<byte>)
    ensures |Encode(data)| == 4 * ((|data| + 2) / 3)
  {
    ChunkedLength(EncodeTriplet, data);
  }

  /** Any text that is an encoding with white space put in anywhere decodes to the data. */
  lemma RoundTrip(data: seq<byte>, text: seq<byte>)
    requires Strip(text) == Encode(data)
    ensures Decode(text) == Ok(data)
  {
    forall t: Triplet ensures DecodeQuad(EncodeTriplet(t)) == Ok(t) {
      TripletRoundTrip(t);
    }
    ChunkedRoundTrip(EncodeTriplet, DecodeQuad, data);
  }

  lemma {:induction false} StripAppend(a: seq<byte>, b: seq<byte>)
    ensures Strip(a + b) == Strip(a) + Strip(b)
    decreases |b|
  {
    if b == [] {
      assert a + b == a;
    } else {
      assert (a + b)[..|a + b| - 1] == a + b[..|b| - 1];
      StripAppend(a, b[..|b| - 1]);
    }
  }

  function Concat(pieces: seq<seq<byte>>): seq<byte> {
    if pieces == [] then [] else pieces[0] + Concat(pieces[1..])
  }

  lemma {:induction false} ConcatChunks(f: Triplet -> Quad, g: Quad -> Result<seq<byte>>, data: seq<seq<byte>>,
                                        texts: seq<seq<byte>>)
    requires forall t: Triplet :: g(f(t)) == Ok(t)
    requires |data| == |texts| && forall i :: 0 <= i < |data| ==> Strip(texts[i]) == Chunked(f, data[i])
    ensures Unchunked(g, Strip(Concat(texts))) == Ok(Concat(data))
    decreases |data|
  {
    if data != [] {
      var rest := Concat(texts[1..]);
      ConcatChunks(f, g, data[1..], texts[1..]);
      StripAppend(texts[0], rest);
      ChunkedLength(f, data[0]);
      ChunkedRoundTrip(f, g, data[0]);
      UnchunkedAppend(g, Strip(texts[0]), Strip(rest));
    }
  }

  /** Texts that encode one piece of data each, put together, decode to the pieces put together. */
  lemma ConcatenationRoundTrip(data: seq<seq<byte>>, texts: seq<seq<byte>>)
    requires |data| == |texts| && forall i :: 0 <= i < |data| ==> Strip(texts[i]) == Encode(data[i])
    ensures Decode(Concat(texts)) == Ok(Concat(data))
  {
    forall t: Triplet ensures DecodeQuad(EncodeTriplet(t)) == Ok(t) {
      TripletRoundTrip(t);
    }
    ConcatChunks(EncodeTriplet, DecodeQuad, data, texts);
  }

  predicate Bad(c: byte) {
    DecodeValue(c).Invalid? || DecodeValue(c).Blank?
  }

  ghost predicate Rejects(g: Quad -> Result<seq<byte>>) {
    forall q: Quad, i :: 0 <= i < 4 && Bad(q[i]) ==> g(q) == Err
  }

  /** One bad character anywhere spoils the text. */
  lemma {:induction false} BadCharacter(g: Quad -> Result<seq<byte>>, s: seq<byte>, i: nat)
    requires Rejects(g) && i < |s| && Bad(s[i])
    ensures Unchunked(g, s) == Err
    decreases |s|
  {
    if |s| >= 4 {
      if i < 4 {
        assert Bad(s[..4][i]);
      } else {
        BadCharacter(g, s[4..], i - 4);
      }
    }
  }

  lemma DecodeQuadRejects()
    ensures Rejects(DecodeQuad)
  {
    forall q: Quad, i | 0 <= i < 4 && Bad(q[i]) ensures DecodeQuad(q) == Err {
    }
  }

  // ---------------------------------------------------------------- output lines

  const LINE_SIZE := 80

  /** The lines written, and the one being filled. */
  datatype Layout = Layout(lines: seq<seq<byte>>, open: seq<byte>)

  function Put(l: Layout, c: byte): Layout {
    if |l.open| + 1 >= LINE_SIZE then Layout(l.lines + [l.open], [c]) else Layout(l.lines, l.open + [c])
  }

  function PutAll(l: Layout, s: seq<byte>): Layout {
    if s == [] then l else Put(PutAll(l, s[..|s| - 1]), s[|s| - 1])
  }

  /** Decoded bytes break the line at a newline, and carriage returns are dropped. */
  function PutDecoded(l: Layout, s: seq<byte>): Layout {
    if s == [] then l
    else
      var before, c := PutDecoded(l, s[..|s| - 1]), s[|s| - 1];
      if c == RETURN then before else if c == NEWLINE then Layout(before.lines + [before.open], []) else Put(before, c)
  }

  /** Carriage returns are not counted. */
  function Produced(s: seq<byte>): nat {
    if s == [] then 0 else Produced(s[..|s| - 1]) + if s[|s| - 1] == RETURN then 0 else 1
  }

  lemma {:induction false} ProducedAppend(a: seq<byte>, b: seq<byte>)
    ensures Produced(a + b) == Produced(a) + Produced(b)
    decreases |b|
  {
    if b == [] {
      assert a + b == a;
    } else {
      assert (a + b)[..|a + b| - 1] == a + b[..|b| - 1];
      ProducedAppend(a, b[..|b| - 1]);
    }
  }

  function Written(l: Layout): seq<byte> {
    Concat(l.lines) + l.open
  }

  function Shown(s: seq<byte>): seq<byte> {
    if s == [] then []
    else
      var before, c := Shown(s[..|s| - 1]), s[|s| - 1];
      if c == RETURN || c == NEWLINE then before else before + [c]
  }

  lemma {:induction false} ConcatSnoc(lines: seq<seq<byte>>, line: seq<byte>)
    ensures Concat(lines + [line]) == Concat(lines) + line
  {
    if lines == [] {
      assert lines + [line] == [line];
      assert Concat([]) == [] && line + [] == line;
    } else {
      assert (lines + [line])[1..] == lines[1..] + [line];
      ConcatSnoc(lines[1..], line);
    }
  }

  predicate FullLines(l: Layout) {
    |l.open| < 80 && forall i :: 0 <= i < |l.lines| ==> |l.lines[i]| == 79
  }

  lemma PutWrites(l: Layout, c: byte)
    ensures Written(Put(l, c)) == Written(l) + [c] && (FullLines(l) ==> FullLines(Put(l, c)))
  {
    ConcatSnoc(l.lines, l.open);
  }

  /** Encoded output is cut into lines of 79 characters that join to the encoding. */
  lemma {:induction false} PutAllWrites(s: seq<byte>)
    ensures Written(PutAll(Layout([], []), s)) == s && FullLines(PutAll(Layout([], []), s))
  {
    if s != [] {
      var front, c := s[..|s| - 1], s[|s| - 1];
      var before := PutAll(Layout([], []), front);
      PutAllWrites(front);
      PutWrites(before, c);
      assert PutAll(Layout([], []), s) == Put(before, c) && front + [c] == s;
    }
  }

  lemma {:induction false} PutAllAppend(l: Layout, a: seq<byte>, b: seq<byte>)
    ensures PutAll(l, a + b) == PutAll(PutAll(l, a), b)
    decreases |b|
  {
    if b == [] {
      assert a + b == a;
    } else {
      assert (a + b)[..|a + b| - 1] == a + b[..|b| - 1];
      PutAllAppend(l, a, b[..|b| - 1]);
    }
  }

  lemma {:induction false} PutDecodedAppend(l: Layout, a: seq<byte>, b: seq<byte>)
    ensures PutDecoded(l, a + b) == PutDecoded(PutDecoded(l, a), b)
    decreases |b|
  {
    if b == [] {
      assert a + b == a;
    } else {
      assert (a + b)[..|a + b| - 1] == a + b[..|b| - 1];
      PutDecodedAppend(l, a, b[..|b| - 1]);
    }
  }

  /** What has been written once an open line is ended too. */
  function Closed(l: Layout): seq<seq<byte>> {
    if l.open == [] then l.lines else l.lines + [l.open]
  }

  lemma ClosedWritten(l: Layout)
    ensures Concat(Closed(l)) == Written(l)
  {
    ConcatSnoc(l.lines, l.open);
  }

  /** Decoded output keeps every byte but the line breaks, in order. */
  lemma {:induction false} PutDecodedWrites(s: seq<byte>)
    ensures Written(PutDecoded(Layout([], []), s)) == Shown(s)
  {
    if s != [] {
      var before := PutDecoded(Layout([], []), s[..|s| - 1]);
      PutDecodedWrites(s[..|s| - 1]);
      ConcatSnoc(before.lines, before.open);
    }
  }

  class LineWriter {
    const line: array<byte>
    var lines: seq<seq<byte>>
    var used: nat
    var produced: nat

    ghost predicate Valid()
      reads this
    {
      used < line.Length == LINE_SIZE
    }

    ghost function Contents(): Layout
      requires Valid()
      reads this, line
    {
      Layout(lines, line[..used])
    }

    constructor ()
      ensures Valid() && Contents() == Layout([], []) && produced == 0 && fresh(line)
    {
      line := new byte[LINE_SIZE](_ => 0);
      lines, used, produced := [], 0, 0;
    }

    method EndLine()
      requires Valid()
      modifies this`lines, this`used
      ensures Valid() && Contents() == Layout(old(lines) + [old(line[..used])], [])
    {
      lines := lines + [line[..used]];
      used := 0;
    }

    method Emit(c: byte)
      requires Valid()
      modifies this, line
      ensures Valid() && Contents() == Put(old(Contents()), c) && produced == old(produced) + 1
    {
      if used + 1 >= LINE_SIZE {
        EndLine();
      }
      line[used] := c;
      used := used + 1;
      line[used] := 0;
      produced := produced + 1;
    }

    method EmitAll(s: seq<byte>)
      requires Valid()
      modifies this, line
      ensures Valid() && Contents() == PutAll(old(Contents()), s) && produced == old(produced) + |s|
    {
      for i := 0 to |s|
        invariant Valid() && Contents() == PutAll(old(Contents()), s[..i]) && produced == old(produced) + i
      {
        Emit(s[i]);
        assert s[..i + 1][..i] == s[..i];
      }
      assert s[..|s|] == s;
    }

    method EmitDecoded(s: seq<byte>)
      requires Valid()
      modifies this, line
      ensures Valid() && Contents() == PutDecoded(old(Contents()), s) && produced == old(produced) + Produced(s)
    {
      for i := 0 to |s|
        invariant Valid() && Contents() == PutDecoded(old(Contents()), s[..i])
        invariant produced == old(produced) + Produced(s[..i])
      {
        assert s[..i + 1][..i] == s[..i];
        if s[i] == NEWLINE {
          EndLine();
          produced := produced + 1;
        } else if s[i] != RETURN {
          Emit(s[i]);
        }
      }
      assert s[..|s|] == s;
    }
  }

  // ---------------------------------------------------------------- encoding a stream

  class Encoder {
    const f: Triplet -> Quad
    const out: LineWriter
    const carry: array<byte>
    var carryUsed: nat
    /** What is encoded already. */
    ghost var done: seq<byte>

    ghost predicate Valid()
      reads this, out, out.line, carry
    {
      && carryUsed < carry.Length == 3 && carry != out.line && out.Valid() && |done| % 3 == 0
      && out.Contents() == PutAll(Layout([], []), Chunked(f, done))
      && out.produced == |Chunked(f, done)|
    }

    ghost function Fed(): seq<byte>
      requires carryUsed <= carry.Length
      reads this, carry
    {
      done + carry[..carryUsed]
    }

    constructor (encode: Triplet -> Quad)
      ensures Valid() && Fed() == [] && f == encode && fresh(out) && fresh(out.line) && fresh(carry)
    {
      f := encode;
      out := new LineWriter();
      carry := new byte[3](_ => 0);
      carryUsed, done := 0, [];
    }

    method EmitCarry()
      requires 0 < carryUsed <= carry.Length == 3 && carry != out.line && out.Valid() && |done| % 3 == 0
      requires out.Contents() == PutAll(Layout([], []), Chunked(f, done)) && out.produced == |Chunked(f, done)|
      modifies this`carryUsed, this`done, out, out.line
      ensures done == old(Fed()) && carryUsed == 0 && out.Valid()
      ensures out.Contents() == PutAll(Layout([], []), Chunked(f, done)) && out.produced == |Chunked(f, done)|
    {
      var t := carry[..carryUsed];
      ChunkedAppend(f, done, t);
      assert Chunked(f, t) == f(t);
      PutAllAppend(Layout([], []), Chunked(f, done), f(t));
      out.EmitAll(f(t));
      done, carryUsed := done + t, 0;
    }

    method FeedByte(c: byte)
      requires Valid()
      modifies this`carryUsed, this`done, out, out.line, carry
      ensures Valid() && Fed() == old(Fed()) + [c]
    {
      Carry(c);
      if carryUsed == 3 {
        EmitCarry();
        assert done + carry[..0] == done;
      }
    }

    method Carry(c: byte)
      requires carryUsed < carry.Length
      modifies this`carryUsed, carry
      ensures carryUsed == old(carryUsed) + 1 && Fed() == old(Fed()) + [c]
    {
      carry[carryUsed] := c;
      carryUsed := carryUsed + 1;
      assert Fed() == old(Fed()) + [c];
    }

    method Feed(data: seq<byte>)
      requires Valid()
      modifies this`carryUsed, this`done, out, out.line, carry
      ensures Valid() && Fed() == old(Fed()) + data
    {
      ghost var before := Fed();
      for i := 0 to |data|
        invariant Valid() && Fed() == before + data[..i]
      {
        assert before + data[..i + 1] == before + data[..i] + [data[i]];
        FeedByte(data[i]);
      }
      assert data[..|data|] == data;
    }

    method Finish()
      requires Valid()
      modifies this`carryUsed, this`done, out, out.line
      ensures out.lines == Closed(PutAll(Layout([], []), Chunked(f, old(Fed()))))
      ensures out.produced == |Chunked(f, old(Fed()))|
    {
      if carryUsed != 0 {
        EmitCarry();
      } else {
        assert Fed() == done;
      }
      if out.used != 0 {
        out.EndLine();
      }
    }
  }

  /** The bytes before the first read that gives none, for whatever reason. */
  function Delivered(inputs: seq<Read>): seq<byte> {
    if inputs == [] || !inputs[0].Chunk? || inputs[0].data == [] then [] else inputs[0].data + Delivered(inputs[1..])
  }

  lemma DeliveredNext(before: seq<byte>, inputs: seq<Read>, i: nat)
    requires i < |inputs| && inputs[i].Chunk? && inputs[i].data != []
    ensures before + Delivered(inputs[i..]) == before + inputs[i].data + Delivered(inputs[i + 1..])
  {
    assert inputs[i..][1..] == inputs[i + 1..];
  }

  method EncodeReads(f: Triplet -> Quad, inputs: seq<Read>) returns (lines: seq<seq<byte>>, produced: nat)
    ensures lines == Closed(PutAll(Layout([], []), Chunked(f, Delivered(inputs))))
    ensures produced == |Chunked(f, Delivered(inputs))|
  {
    var encoder := new Encoder(f);
    var i := 0;
    assert inputs[0..] == inputs;
    while i < |inputs| && inputs[i].Chunk? && inputs[i].data != []
      invariant i <= |inputs| && encoder.Valid() && encoder.f == f
      invariant fresh(encoder) && fresh(encoder.out) && fresh(encoder.out.line) && fresh(encoder.carry)
      invariant encoder.Fed() + Delivered(inputs[i..]) == Delivered(inputs)
    {
      DeliveredNext(encoder.Fed(), inputs, i);
      encoder.Feed(inputs[i].data);
      i := i + 1;
    }
    assert encoder.Fed() + [] == encoder.Fed();
    encoder.Finish();
    lines, produced := encoder.out.lines, encoder.out.produced;
  }

  /** However the reads cut the input, the lines printed join to its encoding. */
  method EncodeProgram(inputs: seq<Read>) returns (lines: seq<seq<byte>>, produced: nat)
    ensures Concat(lines) == Encode(Delivered(inputs)) && produced == |Encode(Delivered(inputs))|
    ensures forall i :: 0 <= i < |lines| - 1 ==> |lines[i]| == LINE_SIZE - 1
  {
    lines, produced := EncodeReads(EncodeTriplet, inputs);
    ghost var text := Encode(Delivered(inputs));
    PutAllWrites(text);
    ClosedWritten(PutAll(Layout([], []), text));
  }

  // ---------------------------------------------------------------- decoding a stream

  /** Whether a text decodes, and the bytes of its quads before the first bad one. */
  datatype Decoding = Decoding(ok: bool, bytes: seq<byte>)

  function Trial(g: Quad -> Result<seq<byte>>, s: seq<byte>): Decoding
    decreases |s|
  {
    if s == [] then Decoding(true, [])
    else if |s| < 4 || g(s[..4]) == Err then Decoding(false, [])
    else
      var rest := Trial(g, s[4..]);
      Decoding(rest.ok, g(s[..4]).value + rest.bytes)
  }

  lemma {:induction false} TrialDecodes(g: Quad -> Result<seq<byte>>, s: seq<byte>)
    ensures Unchunked(g, s) == if Trial(g, s).ok then Ok(Trial(g, s).bytes) else Err
    decreases |s|
  {
    if |s| >= 4 {
      TrialDecodes(g, s[4..]);
    }
  }

  lemma {:induction false} TrialAppend(g: Quad -> Result<seq<byte>>, s: seq<byte>, t: seq<byte>)
    requires Trial(g, s).ok
    ensures Trial(g, s + t) == Decoding(Trial(g, t).ok, Trial(g, s).bytes + Trial(g, t).bytes)
    decreases |s|
  {
    if s == [] {
      assert s + t == t && [] + Trial(g, t).bytes == Trial(g, t).bytes;
    } else {
      var first, rest := g(s[..4]).value, Trial(g, s[4..]).bytes;
      assert (s + t)[..4] == s[..4] && (s + t)[4..] == s[4..] + t;
      TrialAppend(g, s[4..], t);
      assert first + (rest + Trial(g, t).bytes) == (first + rest) + Trial(g, t).bytes;
    }
  }

  /** No continuation of the text can be decoded, and none adds to the bytes there are. */
  ghost predicate Spoiled(g: Quad -> Result<seq<byte>>, s: seq<byte>, bytes: seq<byte>) {
    forall rest :: Trial(g, s + rest) == Decoding(false, bytes)
  }

  /** A text whose first quad is bad, however it goes on. */
  ghost predicate BadStart(g: Quad -> Result<seq<byte>>, s: seq<byte>) {
    forall rest :: Trial(g, s + rest) == Decoding(false, [])
  }

  lemma SpoiledBy(g: Quad -> Result<seq<byte>>, whole: seq<byte>, s: seq<byte>)
    requires Trial(g, whole).ok && BadStart(g, s)
    ensures Spoiled(g, whole + s, Trial(g, whole).bytes)
  {
    var bytes := Trial(g, whole).bytes;
    forall rest ensures Trial(g, whole + s + rest) == Decoding(false, bytes) {
      assert whole + s + rest == whole + (s + rest);
      TrialAppend(g, whole, s + rest);
      assert Trial(g, s + rest) == Decoding(false, []) && bytes + [] == bytes;
    }
  }

  lemma BadByCharacter(g: Quad -> Result<seq<byte>>, part: seq<byte>, c: byte)
    requires Rejects(g) && |part| < 4 && DecodeValue(c).Invalid?
    ensures BadStart(g, part + [c])
  {
    forall rest ensures Trial(g, part + [c] + rest) == Decoding(false, []) {
      var s := part + [c] + rest;
      if |s| >= 4 {
        assert s[..4][|part|] == c;
      }
    }
  }

  lemma BadByQuad(g: Quad -> Result<seq<byte>>, q: Quad)
    requires g(q) == Err
    ensures BadStart(g, q)
  {
    forall rest ensures Trial(g, q + rest) == Decoding(false, []) {
      assert (q + rest)[..4] == q;
    }
  }

  lemma QuadStep(g: Quad -> Result<seq<byte>>, whole: seq<byte>, q: Quad)
    requires Trial(g, whole).ok && g(q).Ok?
    ensures Trial(g, whole + q) == Decoding(true, Trial(g, whole).bytes + g(q).value)
  {
    TrialAppend(g, whole, q);
    assert q[..4] == q && q[4..] == [];
    assert Trial(g, []) == Decoding(true, []);
    assert g(q).value + [] == g(q).value;
  }

  lemma SpoiledByCharacter(g: Quad -> Result<seq<byte>>, whole: seq<byte>, part: seq<byte>, c: byte)
    requires Rejects(g) && Trial(g, whole).ok && |part| < 4 && DecodeValue(c).Invalid?
    ensures Spoiled(g, whole + part + [c], Trial(g, whole).bytes)
  {
    BadByCharacter(g, part, c);
    SpoiledBy(g, whole, part + [c]);
    assert whole + part + [c] == whole + (part + [c]);
  }

  lemma CutShort(g: Quad -> Result<seq<byte>>, whole: seq<byte>, part: seq<byte>)
    requires Trial(g, whole).ok && 0 < |part| < 4
    ensures Trial(g, whole + part) == Decoding(false, Trial(g, whole).bytes)
  {
    TrialAppend(g, whole, part);
    assert Trial(g, whole).bytes + [] == Trial(g, whole).bytes;
  }

  /** What is printed: all lines of a text that decodes, the full lines before an error otherwise. */
  function PrintedLines(d: Decoding): seq<seq<byte>> {
    var l := PutDecoded(Layout([], []), d.bytes);
    if d.ok then Closed(l) else l.lines
  }

  class Decoder {
    const g: Quad -> Result<seq<byte>>
    const out: LineWriter
    const quad: array<byte>
    var quadUsed: nat
    var invalid: bool
    /** The text seen; the quads decoded, and the bytes they gave. */
    ghost var text: seq<byte>
    ghost var whole: seq<byte>
    ghost var bytes: seq<byte>

    ghost predicate Shaped()
      reads this, out, out.line, quad
    {
      && quadUsed <= quad.Length == 4 && quad != out.line && out.Valid()
      && Trial(g, whole) == Decoding(true, bytes) && out.Contents() == PutDecoded(Layout([], []), bytes)
      && out.produced == Produced(bytes)
    }

    ghost predicate Valid()
      reads this, out, out.line, quad
    {
      && Shaped() && quadUsed < 4
      && if invalid then Spoiled(g, Strip(text), bytes) else Strip(text) == whole + quad[..quadUsed]
    }

    constructor (decode: Quad -> Result<seq<byte>>)
      ensures Valid() && !invalid && text == [] && g == decode && fresh(out) && fresh(out.line) && fresh(quad)
    {
      g := decode;
      out := new LineWriter();
      quad := new byte[4](_ => 0);
      quadUsed, invalid, text, whole, bytes := 0, false, [], [], [];
    }

    /** A full quad is decoded, or spoils the text. */
    method DecodeFull(ghost stripped: seq<byte>)
      requires Shaped() && quadUsed == 4 && !invalid && stripped == whole + quad[..]
      modifies this`quadUsed, this`invalid, this`whole, this`bytes, out, out.line
      ensures Shaped() && quadUsed == 0
      ensures if invalid then Spoiled(g, stripped, bytes) else stripped == whole
    {
      var q := quad[..];
      quadUsed := 0;
      var r := g(q);
      if r == Err {
        BadByQuad(g, q);
        SpoiledBy(g, whole, q);
        invalid := true;
        return;
      }
      QuadStep(g, whole, q);
      ProducedAppend(bytes, r.value);
      PutDecodedAppend(Layout([], []), bytes, r.value);
      out.EmitDecoded(r.value);
      whole, bytes := whole + q, bytes + r.value;
    }

    method FeedByte(c: byte)
      requires Valid() && !invalid && Rejects(g)
      modifies this`quadUsed, this`invalid, this`text, this`whole, this`bytes, out, out.line, quad
      ensures Valid() && text == old(text) + [c]
    {
      ghost var before := Strip(text);
      assert (text + [c])[..|text|] == text;
      text := text + [c];
      var v := DecodeValue(c);
      if v.Blank? {
        return;
      }
      if v.Invalid? {
        SpoiledByCharacter(g, whole, quad[..quadUsed], c);
        invalid := true;
        return;
      }
      Hold(c);
      assert before + [c] == whole + quad[..quadUsed];
      if quadUsed == 4 {
        assert quad[..4] == quad[..];
        DecodeFull(before + [c]);
        assert !invalid ==> whole + quad[..0] == whole;
      }
    }

    method Hold(c: byte)
      requires quadUsed < quad.Length
      modifies this`quadUsed, quad
      ensures quadUsed == old(quadUsed) + 1 && quad[..quadUsed] == old(quad[..quadUsed]) + [c]
    {
      quad[quadUsed] := c;
      quadUsed := quadUsed + 1;
    }

    method Feed(data: seq<byte>) returns (ghost taken: nat)
      requires Valid() && !invalid && Rejects(g)
      modifies this`quadUsed, this`invalid, this`text, this`whole, this`bytes, out, out.line, quad
      ensures Valid() && taken <= |data| && text == old(text) + data[..taken] && (!invalid ==> taken == |data|)
    {
      ghost var before := text;
      taken := 0;
      for i := 0 to |data|
        invariant Valid() && !invalid && text == before + data[..i] && taken == i
      {
        assert before + data[..i + 1] == before + data[..i] + [data[i]];
        FeedByte(data[i]);
        taken := taken + 1;
        if invalid {
          return;
        }
      }
    }

    /** One read: either all of it is taken, or the text is spoiled whatever comes after. */
    method FeedRead(data: seq<byte>, ghost after: seq<byte>)
      requires Valid() && !invalid && Rejects(g)
      modifies this`quadUsed, this`invalid, this`text, this`whole, this`bytes, out, out.line, quad
      ensures Valid() && (!invalid ==> text == old(text) + data)
      ensures invalid ==> var d := Trial(g, Strip(old(text) + data + after));
        !d.ok && out.lines == PrintedLines(d) && out.produced == Produced(d.bytes)
    {
      ghost var before := text;
      ghost var taken := Feed(data);
      if invalid {
        CutAt(g, before, data, taken, after, bytes);
      } else {
        assert data[..taken] == data;
      }
    }

    /** The end of the input: an open quad is an error, an open line is closed. */
    method Finish() returns (ok: bool)
      requires Valid() && !invalid
      modifies out
      ensures var d := Trial(g, Strip(text));
        ok == d.ok && out.lines == PrintedLines(d) && out.produced == Produced(d.bytes)
    {
      if quadUsed != 0 {
        CutShort(g, whole, quad[..quadUsed]);
        return false;
      }
      assert whole + quad[..0] == whole;
      if out.used != 0 {
        out.EndLine();
      }
      return true;
    }
  }

  method DecodeReads(g: Quad -> Result<seq<byte>>, inputs: seq<Read>)
    returns (ok: bool, lines: seq<seq<byte>>, produced: nat)
    requires Rejects(g)
    ensures var d := Trial(g, Strip(Delivered(inputs)));
      ok == d.ok && lines == PrintedLines(d) && produced == Produced(d.bytes)
  {
    var decoder := new Decoder(g);
    var i := 0;
    assert inputs[0..] == inputs;
    while i < |inputs| && inputs[i].Chunk? && inputs[i].data != []
      invariant i <= |inputs| && decoder.Valid() && !decoder.invalid && decoder.g == g
      invariant fresh(decoder) && fresh(decoder.out) && fresh(decoder.out.line) && fresh(decoder.quad)
      invariant decoder.text + Delivered(inputs[i..]) == Delivered(inputs)
    {
      DeliveredNext(decoder.text, inputs, i);
      decoder.FeedRead(inputs[i].data, Delivered(inputs[i + 1..]));
      if decoder.invalid {
        return false, decoder.out.lines, decoder.out.produced;
      }
      i := i + 1;
    }
    assert decoder.text + [] == decoder.text;
    ok := decoder.Finish();
    return ok, decoder.out.lines, decoder.out.produced;
  }

  lemma CutAt(g: Quad -> Result<seq<byte>>, before: seq<byte>, data: seq<byte>, taken: nat, after: seq<byte>,
              bytes: seq<byte>)
    requires taken <= |data| && Spoiled(g, Strip(before + data[..taken]), bytes)
    ensures Trial(g, Strip(before + data + after)) == Decoding(false, bytes)
  {
    var rest := data[taken..] + after;
    assert before + data + after == (before + data[..taken]) + rest;
    StripAppend(before + data[..taken], rest);
  }

  /** However the reads cut the input, what is printed is what it decodes to, or an error if it does not decode. */
  method DecodeProgram(inputs: seq<Read>) returns (ok: bool, lines: seq<seq<byte>>, produced: nat)
    ensures match Decode(Delivered(inputs))
            case Ok(bytes) =>
              && ok && lines == Closed(PutDecoded(Layout([], []), bytes)) && Concat(lines) == Shown(bytes)
              && produced == Produced(bytes)
            case Err => !ok && lines == PrintedLines(Trial(DecodeQuad, Strip(Delivered(inputs))))
  {
    DecodeQuadRejects();
    ok, lines, produced := DecodeReads(DecodeQuad, inputs);
    ghost var text := Strip(Delivered(inputs));
    ghost var bytes := Trial(DecodeQuad, text).bytes;
    TrialDecodes(DecodeQuad, text);
    PutDecodedWrites(bytes);
    ClosedWritten(PutDecoded(Layout([], []), bytes));
  }
}
