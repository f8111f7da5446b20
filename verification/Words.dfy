/** Machine words as the sequence of their 32 bits, lowest first. */
module Words {
  import opened Bytes

  const WIDTH := 32

  type Word = w: seq<bool> | |w| == WIDTH witness seq<bool>(WIDTH, (i: nat) => false)

  function Xor(a: seq<bool>, b: seq<bool>): (c: seq<bool>)
    requires |a| == |b|
    ensures |c| == |a| && forall i :: 0 <= i < |a| ==> c[i] == (a[i] != b[i])
  {
    seq<bool>(|a|, (i: nat) requires i < |a| => a[i] != b[i])
  }

  function And(a: Word, b: Word): (c: Word)
    ensures forall i :: 0 <= i < WIDTH ==> c[i] == (a[i] && b[i])
  {
    seq<bool>(WIDTH, (i: nat) requires i < WIDTH => a[i] && b[i])
  }

  function Or(a: Word, b: Word): (c: Word)
    ensures forall i :: 0 <= i < WIDTH ==> c[i] == (a[i] || b[i])
  {
    seq<bool>(WIDTH, (i: nat) requires i < WIDTH => a[i] || b[i])
  }

  function Not(a: seq<bool>): (c: seq<bool>)
    ensures |c| == |a| && forall i :: 0 <= i < |a| ==> c[i] == !a[i]
  {
    seq<bool>(|a|, (i: nat) requires i < |a| => !a[i])
  }

  function Blank(n: nat): (w: seq<bool>)
    ensures |w| == n && forall i :: 0 <= i < n ==> !w[i]
  {
    seq<bool>(n, (i: nat) => false)
  }

  function ShiftRight(a: Word, n: nat): Word
    requires n <= WIDTH
  {
    a[n..] + Blank(n)
  }

  function ShiftLeft(a: Word, n: nat): Word
    requires n <= WIDTH
  {
    Blank(n) + a[..WIDTH - n]
  }

  function Rotate(a: Word, n: nat): Word
    requires n <= WIDTH
  {
    a[WIDTH - n..] + a[..WIDTH - n]
  }

  lemma RotateMoves(a: Word, n: nat, i: nat)
    requires n <= WIDTH && i < WIDTH
    ensures Rotate(a, n)[(i + n) % WIDTH] == a[i]
  {
  }

  lemma RotateByShifts(a: Word, n: nat)
    requires n <= WIDTH
    ensures Or(ShiftLeft(a, n), ShiftRight(a, WIDTH - n)) == Rotate(a, n)
  {
  }

  // ---------------------------------------------------------------- numbers

  /** The low bits of a number, lowest first. */
  function Bits(n: nat, x: nat): (bits: seq<bool>)
    ensures |bits| == n
  {
    if n == 0 then [] else [x % 2 == 1] + Bits(n - 1, x / 2)
  }

  function Number(bits: seq<bool>): nat {
    if bits == [] then 0 else (if bits[0] then 1 else 0) + 2 * Number(bits[1..])
  }

  function Power(n: nat): nat {
    if n == 0 then 1 else 2 * Power(n - 1)
  }

  lemma TopPowers()
    ensures Power(31) == 0x8000_0000 && Power(32) == 0x1_0000_0000
  {
    assert Power(8) == 0x100;
    assert Power(16) == 0x1_0000;
    assert Power(24) == 0x100_0000;
  }

  lemma {:induction false} TopBit(n: nat, x: nat)
    requires n > 0 && Power(n - 1) <= x < Power(n)
    ensures Bits(n, x)[n - 1]
  {
    if n > 1 {
      TopBit(n - 1, x / 2);
    }
  }

  lemma {:induction false} NumberOfBits(n: nat, x: nat)
    requires x < Power(n)
    ensures Number(Bits(n, x)) == x
  {
    if n > 0 {
      NumberOfBits(n - 1, x / 2);
      assert Bits(n, x)[1..] == Bits(n - 1, x / 2);
    }
  }

  lemma {:induction false} BitsOfNumber(bits: seq<bool>)
    ensures Number(bits) < Power(|bits|) && Bits(|bits|, Number(bits)) == bits
  {
    if bits != [] {
      BitsOfNumber(bits[1..]);
      assert bits == [bits[0]] + bits[1..];
    }
  }

  /** A number with k zero bits put below it. */
  function Scaled(k: nat, n: nat): nat {
    if k == 0 then n else 2 * Scaled(k - 1, n)
  }

  lemma {:induction false} NumberAppend(a: seq<bool>, b: seq<bool>)
    ensures Number(a + b) == Number(a) + Scaled(|a|, Number(b))
  {
    if a == [] {
      assert a + b == b;
    } else {
      assert (a + b)[1..] == a[1..] + b;
      NumberAppend(a[1..], b);
    }
  }

  lemma {:induction false} BitsAppend(m: nat, n: nat, x: nat, y: nat)
    requires x < Power(m)
    ensures Bits(m + n, x + Scaled(m, y)) == Bits(m, x) + Bits(n, y)
  {
    if m == 0 {
      assert Bits(0, x) + Bits(n, y) == Bits(n, y);
    } else {
      BitsAppend(m - 1, n, x / 2, y);
      HalfOfSum(x, Scaled(m - 1, y));
    }
  }

  lemma HalfOfSum(x: nat, y: nat)
    ensures (x + 2 * y) % 2 == x % 2 && (x + 2 * y) / 2 == x / 2 + y
  {
  }

  lemma BitsRoundTrip(b: byte)
    ensures Number(Bits(8, b)) == b
  {
    assert Power(8) == 256;
    NumberOfBits(8, b);
  }

  lemma OctetRoundTrip(bits: seq<bool>)
    requires |bits| == 8
    ensures Number(bits) < 256 && Bits(8, Number(bits)) == bits
  {
    assert Power(8) == 256;
    BitsOfNumber(bits);
  }

  // ---------------------------------------------------------------- addition modulo 2 to the 32

  function Add(a: Word, b: Word): Word {
    Bits(WIDTH, Number(a) + Number(b))
  }

  lemma ScaledByNibble(k: nat, n: nat)
    ensures Scaled(k + 4, n) == 16 * Scaled(k, n)
  {
    assert Scaled(k + 2, n) == 4 * Scaled(k, n);
  }

  lemma ScaledByOctet(k: nat, n: nat)
    ensures Scaled(k + 8, n) == 0x100 * Scaled(k, n)
  {
    ScaledByNibble(k, n);
    ScaledByNibble(k + 4, n);
  }

  lemma ScaledByOctets(n: nat)
    ensures Scaled(8, n) == 0x100 * n && Scaled(16, n) == 0x1_0000 * n && Scaled(24, n) == 0x100_0000 * n
    ensures Scaled(32, n) == 0x1_0000_0000 * n
  {
    ScaledByOctet(0, n);
    ScaledByOctet(8, n);
    ScaledByOctet(16, n);
    ScaledByOctet(24, n);
  }

  /** A word keeps its number modulo 2 to the 32. */
  lemma NumberOfWord(x: nat)
    ensures Number(Bits(WIDTH, x)) == x % 0x1_0000_0000
  {
    var q, m := x / 0x1_0000_0000, x % 0x1_0000_0000;
    TopPowers();
    ScaledByOctets(q);
    BitsAppend(WIDTH, 0, m, q);
    assert Bits(WIDTH, m) + Bits(0, q) == Bits(WIDTH, m);
    NumberOfBits(WIDTH, m);
  }

  lemma AddIs(a: Word, b: Word)
    ensures Number(Add(a, b)) == (Number(a) + Number(b)) % 0x1_0000_0000
  {
    NumberOfWord(Number(a) + Number(b));
  }

  // ---------------------------------------------------------------- bytes in little-endian order

  function LoadWord(b: seq<byte>): Word
    requires |b| == 4
  {
    Bits(8, b[0]) + Bits(8, b[1]) + Bits(8, b[2]) + Bits(8, b[3])
  }

  function Octet(w: Word, i: nat): byte
    requires i < 4
  {
    OctetRoundTrip(w[8 * i..8 * i + 8]);
    Number(w[8 * i..8 * i + 8])
  }

  function StoreWord(w: Word): (b: seq<byte>)
    ensures |b| == 4
  {
    [Octet(w, 0), Octet(w, 1), Octet(w, 2), Octet(w, 3)]
  }

  lemma LoadStored(w: Word)
    ensures LoadWord(StoreWord(w)) == w
  {
    forall i: nat | i < 4 ensures Bits(8, Octet(w, i)) == w[8 * i..8 * i + 8] {
      OctetRoundTrip(w[8 * i..8 * i + 8]);
    }
    assert w == w[0..8] + w[8..16] + w[16..24] + w[24..32];
  }

  function Base256(b0: nat, b1: nat, b2: nat, b3: nat): nat {
    b0 + 0x100 * b1 + 0x1_0000 * b2 + 0x100_0000 * b3
  }

  lemma LoadIs(b: seq<byte>)
    requires |b| == 4
    ensures Number(LoadWord(b)) == Base256(b[0], b[1], b[2], b[3])
  {
    var b0, b1, b2, b3 := Bits(8, b[0]), Bits(8, b[1]), Bits(8, b[2]), Bits(8, b[3]);
    forall i | 0 <= i < 4 ensures Number(Bits(8, b[i])) == b[i] {
      BitsRoundTrip(b[i]);
    }
    NumberAppend(b0, b1);
    NumberAppend(b0 + b1, b2);
    NumberAppend(b0 + b1 + b2, b3);
    ScaledByOctets(b[1]);
    ScaledByOctets(b[2]);
    ScaledByOctets(b[3]);
  }

  lemma LowDigit(b: byte, y: nat)
    ensures (b + 0x100 * y) % 0x100 == b && (b + 0x100 * y) / 0x100 == y
  {
  }

  lemma StoreIs(w: Word)
    ensures var b := StoreWord(w); Number(w) == Base256(b[0], b[1], b[2], b[3])
  {
    LoadIs(StoreWord(w));
    LoadStored(w);
  }

  lemma DigitsOf(b: seq<byte>, x: nat)
    requires |b| == 4 && x == Base256(b[0], b[1], b[2], b[3])
    ensures b == [x % 0x100, x / 0x100 % 0x100, x / 0x100 / 0x100 % 0x100, x / 0x100 / 0x100 / 0x100 % 0x100]
  {
    var b3: nat := b[3];
    var high: nat := b[2] + 0x100 * b3;
    LowDigit(b[2], b3);
    LowDigit(b[1], high);
    LowDigit(b[0], b[1] + 0x100 * high);
  }

  /** The bytes stored are the digits of the number to the base 256. */
  method Digits(w: Word) returns (b: seq<byte>)
    ensures b == StoreWord(w)
  {
    StoreIs(w);
    DigitsOf(StoreWord(w), Number(w));
    var x := Number(w);
    b := [x % 0x100, x / 0x100 % 0x100, x / 0x100 / 0x100 % 0x100, x / 0x100 / 0x100 / 0x100 % 0x100];
  }
}
