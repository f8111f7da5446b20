/**
  What Base64 text spells: its letters are places in the alphabet, and read six bits
  each they make the same number as the data read eight bits each, followed by zeros.
*/
module Base64Bits {
  import opened Bytes
  import opened Base64

  // ---------------------------------------------------------------- the alphabet

  /** The alphabet of RFC 4648, eight letters to a row. */
  const ALPHABET: seq<string> := [
    "ABCDEFGH", "IJKLMNOP", "QRSTUVWX", "YZabcdef", "ghijklmn", "opqrstuv", "wxyz0123", "456789+/"
  ]

  lemma Eight(j: nat)
    requires j < 8
    ensures j == 0 || j == 1 || j == 2 || j == 3 || j == 4 || j == 5 || j == 6 || j == 7
  {
  }

  lemma LetterIs(v: nat)
    requires v < 64
    ensures |ALPHABET[v / 8]| == 8 && ALPHABET[v / 8][v % 8] as int == Letter(v)
  {
    Eight(v / 8);
    Eight(v % 8);
  }

  // ---------------------------------------------------------------- numbers, highest digit first

  /** The number that the letters of a text spell, six bits each. */
  function TextNumber(text: seq<byte>): nat {
    if text == [] then 0
    else
      var high, v := TextNumber(text[..|text| - 1]), DecodeValue(text[|text| - 1]);
      if v.Sextet? then 64 * high + v.v else high
  }

  /** The number that bytes spell, eight bits each. */
  function DataNumber(data: seq<byte>): nat {
    if data == [] then 0 else 256 * DataNumber(data[..|data| - 1]) + data[|data| - 1]
  }

  lemma {:induction false} NextLetter(text: seq<byte>, c: byte)
    ensures TextNumber(text + [c])
         == if DecodeValue(c).Sextet? then 64 * TextNumber(text) + DecodeValue(c).v else TextNumber(text)
  {
    assert (text + [c])[..|text|] == text;
  }

  lemma {:induction false} NextByte(data: seq<byte>, b: byte)
    ensures DataNumber(data + [b]) == 256 * DataNumber(data) + b
  {
    assert (data + [b])[..|data|] == data;
  }

  lemma {:induction false} NextQuad(text: seq<byte>, q: Quad)
    requires DecodeValue(q[0]).Sextet? && DecodeValue(q[1]).Sextet?
    ensures var n := 4096 * TextNumber(text) + 64 * DecodeValue(q[0]).v + DecodeValue(q[1]).v;
            var m := if DecodeValue(q[2]).Sextet? then 64 * n + DecodeValue(q[2]).v else n;
            TextNumber(text + q) == if DecodeValue(q[3]).Sextet? then 64 * m + DecodeValue(q[3]).v else m
  {
    NextLetter(text, q[0]);
    NextLetter(text + [q[0]], q[1]);
    NextLetter(text + [q[0]] + [q[1]], q[2]);
    NextLetter(text + [q[0]] + [q[1]] + [q[2]], q[3]);
    assert text + q == text + [q[0]] + [q[1]] + [q[2]] + [q[3]];
  }

  lemma {:induction false} NextBytes(data: seq<byte>, t: Triplet)
    ensures DataNumber(data + t)
         == MoreBytes(DataNumber(data), t[0], if |t| > 1 then t[1] else 0, if |t| > 2 then t[2] else 0, |t|)
  {
    NextByte(data, t[0]);
    if |t| == 1 {
      assert data + t == data + [t[0]];
    } else {
      NextByte(data + [t[0]], t[1]);
      if |t| == 2 {
        assert data + t == data + [t[0]] + [t[1]];
      } else {
        NextByte(data + [t[0]] + [t[1]], t[2]);
        assert data + t == data + [t[0]] + [t[1]] + [t[2]];
      }
    }
  }

  /** A number with the zero bits after it that fill up the last letter of k bytes. */
  function Filled(n: nat, k: nat): nat {
    if k % 3 == 0 then n else if k % 3 == 1 then 16 * n else 4 * n
  }

  /** What k bytes add to a number, and what the letters that carry them add. */
  function MoreBytes(n: nat, a: nat, b: nat, c: nat, k: nat): nat {
    if k > 2 then 256 * (256 * (256 * n + a) + b) + c else if k > 1 then 256 * (256 * n + a) + b else 256 * n + a
  }

  function MoreSixes(n: nat, s0: nat, s1: nat, s2: nat, s3: nat, k: nat): nat {
    var m := 4096 * n + 64 * s0 + s1;
    if k > 2 then 64 * (64 * m + s2) + s3 else if k > 1 then 64 * m + s2 else m
  }

  lemma SameNumber(n: nat, a: nat, b: nat, c: nat, s0: nat, s1: nat, s2: nat, s3: nat, k: nat)
    requires 1 <= k <= 3 && (k < 3 ==> c == s3 == 0) && (k < 2 ==> b == s2 == 0)
    requires s0 * 0x4_0000 + s1 * 0x1000 + s2 * 0x40 + s3 == Bits24(a, b, c)
    ensures MoreSixes(n, s0, s1, s2, s3, k) == Filled(MoreBytes(n, a, b, c, k), k)
  {
    if k == 1 {
      assert 64 * s0 + s1 == 16 * a;
    } else if k == 2 {
      assert 4096 * s0 + 64 * s1 + s2 == 4 * (256 * a + b);
    }
  }

  ghost predicate Adds(f: Triplet -> Quad, text: seq<byte>, data: seq<byte>, t: Triplet) {
    TextNumber(text) == DataNumber(data) ==> TextNumber(text + f(t)) == Filled(DataNumber(data + t), |t|)
  }

  lemma {:induction false} QuadValues(text: seq<byte>, q: Quad, s0: nat, s1: nat, s2: nat, s3: nat, k: nat)
    requires DecodeValue(q[0]) == Sextet(s0) && DecodeValue(q[1]) == Sextet(s1)
    requires DecodeValue(q[2]) == if k > 1 then Sextet(s2) else Padding
    requires DecodeValue(q[3]) == if k > 2 then Sextet(s3) else Padding
    ensures TextNumber(text + q) == MoreSixes(TextNumber(text), s0, s1, s2, s3, k)
  {
    NextQuad(text, q);
  }

  /** Letters whose sextets make up the bytes of a triplet. */
  ghost predicate Carries(q: Quad, t: Triplet, s0: nat, s1: nat, s2: nat, s3: nat) {
    && DecodeValue(q[0]) == Sextet(s0) && DecodeValue(q[1]) == Sextet(s1)
    && DecodeValue(q[2]) == (if |t| > 1 then Sextet(s2) else Padding)
    && DecodeValue(q[3]) == (if |t| > 2 then Sextet(s3) else Padding)
    && s0 * 0x4_0000 + s1 * 0x1000 + s2 * 0x40 + s3 == TripletBits(t)
    && (|t| < 3 ==> s3 == 0) && (|t| < 2 ==> s2 == 0)
  }

  lemma TripletCarries(t: Triplet) returns (s0: nat, s1: nat, s2: nat, s3: nat)
    ensures Carries(EncodeTriplet(t), t, s0, s1, s2, s3)
  {
    var bits := TripletBits(t);
    var a, b, c := t[0], if |t| > 1 then t[1] else 0, if |t| > 2 then t[2] else 0;
    s0, s1, s2, s3 := Six(bits, 0x4_0000), Six(bits, 0x1000), Six(bits, 0x40), Six(bits, 1);
    TripletValues(t);
    BytesOf(a, b, c);
    LowSixes(a, b);
    SixesJoin(bits);
  }

  lemma {:induction false} CarriedAdds(text: seq<byte>, data: seq<byte>, t: Triplet, q: Quad,
                                       s0: nat, s1: nat, s2: nat, s3: nat)
    requires TextNumber(text) == DataNumber(data) && Carries(q, t, s0, s1, s2, s3)
    ensures TextNumber(text + q) == Filled(DataNumber(data + t), |t|)
  {
    var a, b, c := t[0], if |t| > 1 then t[1] else 0, if |t| > 2 then t[2] else 0;
    SameNumber(DataNumber(data), a, b, c, s0, s1, s2, s3, |t|);
    NextBytes(data, t);
    QuadValues(text, q, s0, s1, s2, s3, |t|);
  }

  lemma {:induction false} NextTriplet(text: seq<byte>, data: seq<byte>, t: Triplet)
    ensures Adds(EncodeTriplet, text, data, t)
  {
    if TextNumber(text) == DataNumber(data) {
      var s0, s1, s2, s3 := TripletCarries(t);
      CarriedAdds(text, data, t, EncodeTriplet(t), s0, s1, s2, s3);
    }
  }

  lemma LastTriplet(data: seq<byte>) returns (front: seq<byte>, last: Triplet)
    requires data != []
    ensures data == front + last && |front| % 3 == 0 && |last| % 3 == |data| % 3
  {
    var k := (|data| - 1) / 3;
    front, last := data[..3 * k], data[3 * k..];
    assert |data| == 3 * k + |last|;
  }

  lemma {:induction false} ChunksSpell(f: Triplet -> Quad, data: seq<byte>)
    requires forall text: seq<byte>, front: seq<byte>, t: Triplet :: Adds(f, text, front, t)
    ensures TextNumber(Chunked(f, data)) == Filled(DataNumber(data), |data|)
    decreases |data|
  {
    if data != [] {
      var front, last := LastTriplet(data);
      ChunksSpell(f, front);
      ChunkedAppend(f, front, last);
      assert Chunked(f, last) == f(last);
      assert Adds(f, Chunked(f, front), front, last);
    }
  }

  /** The letters of an encoding spell the bits of the data, and zeros fill up the last letter. */
  lemma {:induction false} EncodingSpells(data: seq<byte>)
    ensures TextNumber(Encode(data)) == Filled(DataNumber(data), |data|)
  {
    forall text: seq<byte>, front: seq<byte>, t: Triplet ensures Adds(EncodeTriplet, text, front, t) {
      NextTriplet(text, front, t);
    }
    ChunksSpell(EncodeTriplet, data);
  }
}
