/**
  The reflected CRC-32 of `cksum`, computed a bit at a time, and exactly which bursts
  of errors it misses.  A machine word is the sequence of its 32 bits, lowest first.
*/
module Crc32 {
  import opened Bytes
  import opened Reads
  import opened Words

  /** A generator of degree 32 with its highest term implied: bit 31 holds its constant term. */
  type Polynomial = r: Word | r[WIDTH - 1] witness seq<bool>(WIDTH, (i: nat) => true)

  const IEEE := 0xEDB8_8320

  function Ieee(): Polynomial {
    TopPowers();
    TopBit(WIDTH, IEEE);
    Bits(WIDTH, IEEE)
  }

  // ---------------------------------------------------------------- division by the polynomial

  /** Shifts out the lowest bit and subtracts the polynomial if it was set. */
  function Step(p: Polynomial, c: Word): (d: Word)
    ensures forall i :: 0 <= i < WIDTH ==> d[i] == ((i + 1 < WIDTH && c[i + 1]) != (c[0] && p[i]))
  {
    seq<bool>(WIDTH, (i: nat) requires i < WIDTH => (i + 1 < WIDTH && c[i + 1]) != (c[0] && p[i]))
  }

  function Steps(p: Polynomial, n: nat, c: Word): Word {
    if n == 0 then c else Steps(p, n - 1, Step(p, c))
  }

  /** A word with some bits, from the lowest on, flipped. */
  function Flip(c: Word, bits: seq<bool>): (d: Word)
    requires |bits| <= WIDTH
    ensures forall i :: 0 <= i < WIDTH ==> d[i] == if i < |bits| then c[i] != bits[i] else c[i]
  {
    seq<bool>(WIDTH, (i: nat) requires i < WIDTH => if i < |bits| then c[i] != bits[i] else c[i])
  }

  /** The register after a stream of bits. */
  function Divide(p: Polynomial, c: Word, bits: seq<bool>): Word
    decreases |bits|
  {
    if bits == [] then c else Divide(p, Step(p, Flip(c, [bits[0]])), bits[1..])
  }

  // ---------------------------------------------------------------- the register is a window on the stream

  /** The polynomial has its top bit set, so the bit shifted out can be told from the result. */
  lemma StepInjective(p: Polynomial, c: Word, d: Word)
    ensures Step(p, c) == Step(p, d) <==> c == d
  {
    if Step(p, c) == Step(p, d) {
      assert c[0] == Step(p, c)[WIDTH - 1] == Step(p, d)[WIDTH - 1] == d[0];
      forall i | 0 < i < WIDTH ensures c[i] == d[i] {
        assert Step(p, c)[i - 1] == Step(p, d)[i - 1];
      }
      assert c == d;
    }
  }

  lemma {:induction false} StepsInjective(p: Polynomial, n: nat, c: Word, d: Word)
    requires c != d
    ensures Steps(p, n, c) != Steps(p, n, d)
    decreases n
  {
    if n > 0 {
      StepInjective(p, c, d);
      StepsInjective(p, n - 1, Step(p, c), Step(p, d));
    }
  }

  /** Bits still to come can be flipped into the register early, one place further up. */
  lemma Absorbs(p: Polynomial, c: Word, bits: seq<bool>)
    requires 0 < |bits| <= WIDTH
    ensures Flip(Step(p, Flip(c, [bits[0]])), bits[1..]) == Step(p, Flip(c, bits))
  {
    var e, d := Flip(c, [bits[0]]), Flip(c, bits);
    assert e[0] == d[0];
    forall i | 0 <= i < WIDTH ensures Flip(Step(p, e), bits[1..])[i] == Step(p, d)[i] {
    }
  }

  lemma {:induction false} DivideFlip(p: Polynomial, c: Word, bits: seq<bool>)
    requires |bits| <= WIDTH
    ensures Divide(p, c, bits) == Steps(p, |bits|, Flip(c, bits))
    decreases |bits|
  {
    if bits == [] {
      assert Flip(c, bits) == c;
    } else {
      DivideFlip(p, Step(p, Flip(c, [bits[0]])), bits[1..]);
      Absorbs(p, c, bits);
    }
  }

  lemma FlipInjective(c: Word, u: seq<bool>, v: seq<bool>)
    requires |u| == |v| <= WIDTH
    ensures Flip(c, u) == Flip(c, v) <==> u == v
  {
    if Flip(c, u) == Flip(c, v) {
      forall i | 0 <= i < |u| ensures u[i] == v[i] {
        assert Flip(c, u)[i] == Flip(c, v)[i];
      }
    }
  }

  lemma FlipBack(c: Word, d: Word, bits: seq<bool>)
    requires |bits| <= WIDTH
    ensures Flip(c, bits) == Flip(d, bits) <==> c == d
  {
    if Flip(c, bits) == Flip(d, bits) {
      forall i | 0 <= i < WIDTH ensures c[i] == d[i] {
        assert Flip(c, bits)[i] == Flip(d, bits)[i];
      }
      assert c == d;
    }
  }

  lemma {:induction false} DivideInjective(p: Polynomial, c: Word, d: Word, bits: seq<bool>)
    ensures Divide(p, c, bits) == Divide(p, d, bits) <==> c == d
    decreases |bits|
  {
    if bits != [] {
      var c', d' := Flip(c, [bits[0]]), Flip(d, [bits[0]]);
      DivideInjective(p, Step(p, c'), Step(p, d'), bits[1..]);
      StepInjective(p, c', d');
      FlipBack(c, d, [bits[0]]);
    }
  }

  lemma {:induction false} DivideAppend(p: Polynomial, c: Word, a: seq<bool>, b: seq<bool>)
    ensures Divide(p, c, a + b) == Divide(p, Divide(p, c, a), b)
    decreases |a|
  {
    if a == [] {
      assert a + b == b;
    } else {
      assert (a + b)[1..] == a[1..] + b;
      DivideAppend(p, Step(p, Flip(c, [a[0]])), a[1..], b);
    }
  }

  // ---------------------------------------------------------------- bursts

  /** Streams of at most 32 bits end alike exactly when the registers they are flipped into agree. */
  lemma Preloaded(p: Polynomial, c: Word, d: Word, u: seq<bool>, v: seq<bool>)
    requires |u| == |v| <= WIDTH
    ensures Divide(p, c, u) == Divide(p, d, v) <==> Flip(c, u) == Flip(d, v)
  {
    DivideFlip(p, c, u);
    DivideFlip(p, d, v);
    if Flip(c, u) != Flip(d, v) {
      StepsInjective(p, |u|, Flip(c, u), Flip(d, v));
    }
  }

  /** Two windows of 33 bits that differ by exactly the generator: its leading one, then the polynomial. */
  predicate DifferByGenerator(p: Polynomial, u: seq<bool>, v: seq<bool>) {
    |u| == |v| == WIDTH + 1 && u[0] != v[0] && Xor(u[1..], v[1..]) == p
  }

  lemma StepApart(p: Polynomial, c: Word)
    ensures Xor(Step(p, Flip(c, [true])), Step(p, Flip(c, [false]))) == p
  {
    var d, e := Flip(c, [true]), Flip(c, [false]);
    assert d[0] != e[0];
  }

  lemma FlipApart(a: Word, b: Word, x: seq<bool>, y: seq<bool>)
    requires |x| == |y| == WIDTH
    ensures Flip(a, x) == Flip(b, y) <==> Xor(x, y) == Xor(a, b)
  {
    forall i | 0 <= i < WIDTH ensures Flip(a, x)[i] == Flip(b, y)[i] <==> Xor(x, y)[i] == Xor(a, b)[i] {
    }
  }

  lemma XorCommutes(a: seq<bool>, b: seq<bool>)
    requires |a| == |b|
    ensures Xor(a, b) == Xor(b, a)
  {
  }

  lemma LongBurst(p: Polynomial, c: Word, u: seq<bool>, v: seq<bool>)
    requires |u| == |v| == WIDTH + 1
    ensures Divide(p, c, u) == Divide(p, c, v) <==> u == v || DifferByGenerator(p, u, v)
  {
    var a, b, x, y := Step(p, Flip(c, [u[0]])), Step(p, Flip(c, [v[0]])), u[1..], v[1..];
    Preloaded(p, a, b, x, y);
    if u[0] == v[0] {
      FlipInjective(a, x, y);
      assert u == [u[0]] + x && v == [v[0]] + y;
    } else {
      StepApart(p, c);
      XorCommutes(a, b);
      FlipApart(a, b, x, y);
    }
  }

  /** Errors confined to a window of 33 bits go unnoticed exactly when they spell the generator. */
  lemma BurstTheorem(p: Polynomial, c: Word, before: seq<bool>, u: seq<bool>, v: seq<bool>, after: seq<bool>)
    requires |u| == |v| <= WIDTH + 1
    ensures Divide(p, c, before + u + after) == Divide(p, c, before + v + after) <==>
      u == v || DifferByGenerator(p, u, v)
  {
    var start := Divide(p, c, before);
    DivideAppend(p, c, before, u);
    DivideAppend(p, c, before, v);
    DivideAppend(p, c, before + u, after);
    DivideAppend(p, c, before + v, after);
    DivideInjective(p, Divide(p, start, u), Divide(p, start, v), after);
    if |u| == WIDTH + 1 {
      LongBurst(p, start, u, v);
    } else {
      Preloaded(p, start, start, u, v);
      FlipInjective(start, u, v);
    }
  }

  // ---------------------------------------------------------------- messages

  function BitStream(data: seq<byte>): (bits: seq<bool>)
    ensures |bits| == 8 * |data|
  {
    if data == [] then [] else Bits(8, data[0]) + BitStream(data[1..])
  }

  /** The checksum of a message, continuing from that of what came before. */
  function Checksum(p: Polynomial, crc: Word, data: seq<byte>): Word {
    Not(Divide(p, Not(crc), BitStream(data)))
  }

  lemma {:induction false} BitStreamAppend(a: seq<byte>, b: seq<byte>)
    ensures BitStream(a + b) == BitStream(a) + BitStream(b)
  {
    if a == [] {
      assert a + b == b;
    } else {
      assert (a + b)[1..] == a[1..] + b;
      BitStreamAppend(a[1..], b);
    }
  }

  lemma {:induction false} BitStreamInjective(a: seq<byte>, b: seq<byte>)
    requires |a| == |b|
    ensures BitStream(a) == BitStream(b) <==> a == b
  {
    if a != [] && BitStream(a) == BitStream(b) {
      assert Bits(8, a[0]) == BitStream(a)[..8] == BitStream(b)[..8] == Bits(8, b[0]);
      BitsRoundTrip(a[0]);
      BitsRoundTrip(b[0]);
      assert BitStream(a[1..]) == BitStream(a)[8..] == BitStream(b)[8..] == BitStream(b[1..]);
      BitStreamInjective(a[1..], b[1..]);
      assert a == [a[0]] + a[1..] && b == [b[0]] + b[1..];
    }
  }

  lemma NotNot(c: Word)
    ensures Not(Not(c)) == c
  {
  }

  /** Feeding a message in pieces, of any sizes, is feeding it whole. */
  lemma ChecksumAppend(p: Polynomial, crc: Word, a: seq<byte>, b: seq<byte>)
    ensures Checksum(p, Checksum(p, crc, a), b) == Checksum(p, crc, a + b)
  {
    BitStreamAppend(a, b);
    NotNot(Divide(p, Not(crc), BitStream(a)));
    DivideAppend(p, Not(crc), BitStream(a), BitStream(b));
  }

  /** Two streams differ at most in the `length` bits from `first` on. */
  predicate ConfinedTo(u: seq<bool>, v: seq<bool>, first: nat, length: nat) {
    && |u| == |v| && first + length <= |u|
    && u[..first] == v[..first] && u[first + length..] == v[first + length..]
  }

  /** The two windows in question are the generator apart. */
  predicate Undetected(p: Polynomial, u: seq<bool>, v: seq<bool>, first: nat, length: nat) {
    ConfinedTo(u, v, first, length) && DifferByGenerator(p, u[first..first + length], v[first..first + length])
  }

  lemma StreamBurst(p: Polynomial, c: Word, u: seq<bool>, v: seq<bool>, first: nat, length: nat)
    requires length <= WIDTH + 1 && ConfinedTo(u, v, first, length)
    ensures Divide(p, c, u) == Divide(p, c, v) <==> u == v || Undetected(p, u, v, first, length)
  {
    var next := first + length;
    BurstTheorem(p, c, u[..first], u[first..next], v[first..next], u[next..]);
    Pieces(u, first, next);
    Pieces(v, first, next);
  }

  /** Messages alike outside 33 consecutive bits have the same checksum only if equal or a generator apart. */
  lemma ErrorDetection(p: Polynomial, crc: Word, a: seq<byte>, b: seq<byte>, first: nat, length: nat)
    requires |a| == |b| && length <= WIDTH + 1 && ConfinedTo(BitStream(a), BitStream(b), first, length)
    ensures Checksum(p, crc, a) == Checksum(p, crc, b) <==>
      a == b || Undetected(p, BitStream(a), BitStream(b), first, length)
  {
    var c, u, v := Not(crc), BitStream(a), BitStream(b);
    StreamBurst(p, c, u, v, first, length);
    BitStreamInjective(a, b);
    NotNot(Divide(p, c, u));
    NotNot(Divide(p, c, v));
  }

  lemma Pieces(bits: seq<bool>, first: nat, next: nat)
    requires first <= next <= |bits|
    ensures bits == bits[..first] + bits[first..next] + bits[next..]
  {
  }

  /** Messages that differ only within four bytes have different checksums. */
  lemma FourBytes(p: Polynomial, crc: Word, before: seq<byte>, u: seq<byte>, v: seq<byte>, after: seq<byte>)
    requires |u| == |v| <= 4
    ensures Checksum(p, crc, before + u + after) == Checksum(p, crc, before + v + after) <==> u == v
  {
    BitStreamAppend(before, u);
    BitStreamAppend(before, v);
    BitStreamAppend(before + u, after);
    BitStreamAppend(before + v, after);
    BurstTheorem(p, Not(crc), BitStream(before), BitStream(u), BitStream(v), BitStream(after));
    BitStreamInjective(u, v);
    NotNot(Divide(p, Not(crc), BitStream(before + u + after)));
    NotNot(Divide(p, Not(crc), BitStream(before + v + after)));
  }

  // ---------------------------------------------------------------- a message with its own checksum

  lemma StreamOfOctet(b: byte)
    ensures BitStream([b]) == Bits(8, b)
  {
    assert BitStream([b][1..]) == [];
  }

  lemma StreamOfFour(a: byte, b: byte, c: byte, d: byte)
    ensures BitStream([a, b, c, d]) == LoadWord([a, b, c, d])
  {
    StreamOfOctet(a);
    StreamOfOctet(b);
    StreamOfOctet(c);
    StreamOfOctet(d);
    BitStreamAppend([a], [b]);
    BitStreamAppend([a, b], [c]);
    BitStreamAppend([a, b, c], [d]);
    assert [a] + [b] == [a, b] && [a, b] + [c] == [a, b, c] && [a, b, c] + [d] == [a, b, c, d];
  }

  lemma StreamOfWord(w: Word)
    ensures BitStream(StoreWord(w)) == w
  {
    var b := StoreWord(w);
    StreamOfFour(b[0], b[1], b[2], b[3]);
    LoadStored(w);
    assert b == [b[0], b[1], b[2], b[3]];
  }

  /** The checksum of four more bytes, from the register before them. */
  lemma FourMore(p: Polynomial, crc: Word, m: seq<byte>, b: seq<byte>)
    requires |b| == 4
    ensures Checksum(p, crc, m + b) == Not(Steps(p, WIDTH, Flip(Not(Checksum(p, crc, m)), BitStream(b))))
  {
    var c, d := Not(crc), Divide(p, Not(crc), BitStream(m));
    BitStreamAppend(m, b);
    DivideAppend(p, c, BitStream(m), BitStream(b));
    DivideFlip(p, d, BitStream(b));
    NotNot(d);
  }

  /** What every message followed by its own checksum leaves, and no other four bytes do. */
  lemma Residue(p: Polynomial, crc: Word, m: seq<byte>, b: seq<byte>)
    requires |b| == 4
    ensures Checksum(p, crc, m + b) == Not(Steps(p, WIDTH, Not(Blank(WIDTH)))) <==> b == StoreWord(Checksum(p, crc, m))
  {
    var sum := Checksum(p, crc, m);
    var own := StoreWord(sum);
    FourMore(p, crc, m, own);
    StreamOfWord(sum);
    assert Flip(Not(sum), sum) == Not(Blank(WIDTH));
    FourBytes(p, crc, m, b, own, []);
    assert m + b + [] == m + b && m + own + [] == m + own;
  }

  // ---------------------------------------------------------------- the polynomial

  /** What the term of degree k is worth in the reflected word. */
  function Reflected(k: nat): nat
    requires k < WIDTH
  {
    Power(WIDTH - 1 - k)
  }

  /** The generator of IEEE 802.3, whose highest term x^32 is implied. */
  lemma IeeeTerms()
    ensures Number(Ieee()) == Reflected(26) + Reflected(23) + Reflected(22) + Reflected(16) + Reflected(12)
                              + Reflected(11) + Reflected(10) + Reflected(8) + Reflected(7) + Reflected(5)
                              + Reflected(4) + Reflected(2) + Reflected(1) + Reflected(0)
  {
    TopPowers();
    NumberOfBits(WIDTH, IEEE);
    LowPowers();
  }

  lemma LowPowers()
    ensures Power(5) == 0x20 && Power(8) == 0x100 && Power(9) == 0x200 && Power(15) == 0x8000
    ensures Power(19) == 0x8_0000 && Power(20) == 0x10_0000 && Power(21) == 0x20_0000 && Power(23) == 0x80_0000
    ensures Power(24) == 0x100_0000 && Power(26) == 0x400_0000 && Power(27) == 0x800_0000
    ensures Power(29) == 0x2000_0000 && Power(30) == 0x4000_0000
  {
  }

  // ---------------------------------------------------------------- the program

  method OneStep(p: Polynomial, crc: Word) returns (next: Word)
    ensures next == Step(p, crc)
  {
    var mask := if crc[0] then p else Blank(WIDTH);
    next := Xor(ShiftRight(crc, 1), mask);
  }

  method Advance(p: Polynomial, n: nat, start: Word) returns (crc: Word)
    ensures crc == Steps(p, n, start)
  {
    crc := start;
    for k := 0 to n
      invariant Steps(p, n - k, crc) == Steps(p, n, start)
    {
      crc := OneStep(p, crc);
    }
  }

  method CrcUpdate(p: Polynomial, crc: Word, data: seq<byte>) returns (r: Word)
    ensures r == Checksum(p, crc, data)
  {
    r := Not(crc);
    for i := 0 to |data|
      invariant r == Divide(p, Not(crc), BitStream(data[..i]))
    {
      var bits := Bits(8, data[i]);
      DivideFlip(p, r, bits);
      ExtendDivision(p, Not(crc), data, i);
      r := Advance(p, 8, Flip(r, bits));
    }
    assert data[..|data|] == data;
    r := Not(r);
  }

  lemma ExtendDivision(p: Polynomial, c: Word, data: seq<byte>, i: nat)
    requires i < |data|
    ensures Divide(p, c, BitStream(data[..i + 1])) == Divide(p, Divide(p, c, BitStream(data[..i])), Bits(8, data[i]))
  {
    assert data[..i + 1] == data[..i] + [data[i]];
    BitStreamAppend(data[..i], [data[i]]);
    assert BitStream([data[i]]) == Bits(8, data[i]);
    DivideAppend(p, c, BitStream(data[..i]), Bits(8, data[i]));
  }

  /** The checksum printed is that of the whole input, however the reads cut it. */
  method Cksum(inputs: seq<Read>) returns (r: Result<(Word, nat)>)
    ensures match Received(inputs)
            case Ok(message) => r == Ok((Checksum(Ieee(), Blank(WIDTH), message), |message|))
            case Err => r == Err
  {
    r := CksumWith(Ieee(), inputs);
  }

  method CksumWith(p: Polynomial, inputs: seq<Read>) returns (r: Result<(Word, nat)>)
    ensures match Received(inputs)
            case Ok(message) => r == Ok((Checksum(p, Blank(WIDTH), message), |message|))
            case Err => r == Err
  {
    var crc, count := Blank(WIDTH), 0;
    NotNot(crc);
    ghost var done: seq<byte> := [];
    assert inputs[0..] == inputs;
    assert Received(inputs).Ok? ==> done + Received(inputs).value == Received(inputs).value;
    for i := 0 to |inputs|
      invariant crc == Checksum(p, Blank(WIDTH), done) && count == |done|
      invariant match Received(inputs[i..])
                case Ok(rest) => Received(inputs) == Ok(done + rest)
                case Err => Received(inputs) == Err
    {
      assert done + [] == done;
      match inputs[i] {
        case End => return Ok((crc, count));
        case Failure => return Err;
        case Chunk(data) =>
          if data == [] {
            return Ok((crc, count));
          }
          assert inputs[i..][1..] == inputs[i + 1..];
          ghost var rest := Received(inputs[i + 1..]);
          assert rest.Ok? ==> done + (data + rest.value) == (done + data) + rest.value;
          ChecksumAppend(p, Blank(WIDTH), done, data);
          crc := CrcUpdate(p, crc, data);
          count := count + |data|;
          done := done + data;
      }
    }
    assert done + [] == done;
    return Ok((crc, count));
  }
}
