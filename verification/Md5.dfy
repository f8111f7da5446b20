/**
  The streaming hash of `md5sum`: blocks are transformed as they fill up, and the last
  one or two carry the padding.  Any way of cutting the input gives the digest of
  sections 3.1 to 3.5 of RFC 1321.
*/
module Md5 {
  import opened Bytes
  import opened Reads
  import opened Words
  import opened Md5Rounds

  const BLOCK := 64
  const COUNTS := 0x1_0000_0000_0000_0000

  // ---------------------------------------------------------------- the digest of a whole message

  /** The state after every full block of the data, for any block transformation. */
  function Fold<S>(f: (S, Block) -> S, s: S, data: seq<byte>): S
    decreases |data|
  {
    if |data| < BLOCK then s else Fold(f, f(s, data[..BLOCK]), data[BLOCK..])
  }

  /** The number that bytes spell, lowest first. */
  function ValueOf(b: seq<byte>): nat {
    if b == [] then 0 else b[0] + 256 * ValueOf(b[1..])
  }

  /** 256 to the given power. */
  function Places(width: nat): nat {
    if width == 0 then 1 else 256 * Places(width - 1)
  }

  lemma EightBytes()
    ensures Places(8) == COUNTS
  {
  }

  lemma {:induction false} ValueOfLittleEndian(v: nat, width: nat)
    requires v < Places(width)
    ensures ValueOf(LittleEndian(v, width)) == v
  {
    if width > 0 {
      ValueOfLittleEndian(v / 256, width - 1);
      assert LittleEndian(v, width)[1..] == LittleEndian(v / 256, width - 1);
    }
  }

  /** One bit, zeros up to 8 bytes short of a block, and the length in bits. */
  function Padding(n: nat): seq<byte> {
    [0x80] + Zeros(ZeroCount(n % BLOCK)) + LittleEndian(Wrapped(8 * n), 8)
  }

  function ZeroCount(used: nat): nat
    requires used < BLOCK
  {
    if used < 56 then 55 - used else 119 - used
  }

  /** A 64-bit counter. */
  function Wrapped(n: nat): nat {
    n % COUNTS
  }

  function Digest(r: Registers): (d: seq<byte>)
    ensures |d| == 16
  {
    StoreWord(r[0]) + StoreWord(r[1]) + StoreWord(r[2]) + StoreWord(r[3])
  }

  lemma DigestPiece(r: Registers, i: nat)
    requires i < 4
    ensures Digest(r)[4 * i..4 * i + 4] == StoreWord(r[i])
  {
    var a, b, c, d := StoreWord(r[0]), StoreWord(r[1]), StoreWord(r[2]), StoreWord(r[3]);
    Quarters(a, b, c, d);
  }

  lemma Quarters(a: seq<byte>, b: seq<byte>, c: seq<byte>, d: seq<byte>)
    requires |a| == |b| == |c| == |d| == 4
    ensures var s := a + b + c + d; s[0..4] == a && s[4..8] == b && s[8..12] == c && s[12..16] == d
  {
  }

  /** The bytes of the registers, lowest first, as they are printed. */
  method WriteDigest(r: Registers) returns (digest: seq<byte>)
    ensures digest == Digest(r)
  {
    digest := [];
    for i := 0 to 4
      invariant digest == Digest(r)[..4 * i]
    {
      DigestPiece(r, i);
      var bytes := Digits(r[i]);
      digest := digest + bytes;
    }
  }

  /** Different final registers give different digests. */
  lemma DigestInjective(r: Registers, q: Registers)
    ensures Digest(r) == Digest(q) <==> r == q
  {
    forall i | 0 <= i < 4 && Digest(r) == Digest(q) ensures r[i] == q[i] {
      DigestPiece(r, i);
      DigestPiece(q, i);
      LoadStored(r[i]);
      LoadStored(q[i]);
    }
  }

  /** A set bit, zeros, and the number of bits modulo 2 to the 64, lowest byte first. */
  lemma PaddingIs(n: nat)
    ensures var p := Padding(n);
            && |p| >= 9 && p[0] == 128 && (forall i :: 1 <= i < |p| - 8 ==> p[i] == 0)
            && ValueOf(p[|p| - 8..]) == (8 * n) % 0x1_0000_0000_0000_0000
  {
    var p, count := Padding(n), LittleEndian(Wrapped(8 * n), 8);
    assert p[|p| - 8..] == count;
    ValueOfLittleEndian(Wrapped(8 * n), 8);
    EightBytes();
  }

  function Padded(message: seq<byte>): seq<byte> {
    message + Padding(|message|)
  }

  /** The padded message is the shortest whole number of blocks with room for a bit and the length. */
  lemma PaddedLength(n: nat)
    ensures (n + |Padding(n)|) % BLOCK == 0 && 9 <= |Padding(n)| < 9 + BLOCK
  {
    var q, m := n / BLOCK, n % BLOCK;
    assert |Padding(n)| == 9 + ZeroCount(m);
    Whole(q, m, 9 + ZeroCount(m));
  }

  lemma Whole(q: nat, m: nat, rest: nat)
    requires m + rest == BLOCK || m + rest == 2 * BLOCK
    ensures (BLOCK * q + m + rest) % BLOCK == 0
  {
  }

  lemma {:induction false} FoldAppend<S>(f: (S, Block) -> S, s: S, a: seq<byte>, b: seq<byte>)
    requires |a| % BLOCK == 0
    ensures Fold(f, s, a + b) == Fold(f, Fold(f, s, a), b)
    decreases |a|
  {
    if a == [] {
      assert a + b == b;
    } else {
      assert (a + b)[..BLOCK] == a[..BLOCK];
      assert (a + b)[BLOCK..] == a[BLOCK..] + b;
      FoldAppend(f, f(s, a[..BLOCK]), a[BLOCK..], b);
    }
  }

  lemma FoldBlock<S>(f: (S, Block) -> S, s: S, block: Block)
    ensures Fold(f, s, block) == f(s, block)
  {
    assert block[..BLOCK] == block;
  }

  lemma Remainder(whole: nat, used: nat)
    requires whole % BLOCK == 0 && used < BLOCK
    ensures (whole + used) % BLOCK == used
  {
  }

  lemma AddWraps(a: nat, b: nat)
    ensures Wrapped(Wrapped(a) + b) == Wrapped(a + b)
  {
    Wraps(a % COUNTS + b, a / COUNTS);
  }

  lemma CountWraps(n: nat)
    ensures Wrapped(Wrapped(n) * 8) == Wrapped(8 * n)
  {
    var q, m := n / COUNTS, n % COUNTS;
    assert 8 * n == 8 * m + 8 * q * COUNTS;
    Wraps(8 * m, 8 * q);
  }

  lemma {:induction false} Wraps(x: nat, k: nat)
    ensures (x + k * COUNTS) % COUNTS == x % COUNTS
    decreases k
  {
    if k > 0 {
      Wraps(x + COUNTS, k - 1);
    }
  }

  // ---------------------------------------------------------------- the running hash

  /** A function that gives what the transformation of a block gives; the proofs below use no more of it. */
  ghost predicate Computes(f: (Registers, Block) -> Registers) {
    forall r: Registers, b: Block :: Same(f, r, b)
  }

  ghost predicate Same(f: (Registers, Block) -> Registers, r: Registers, b: Block) {
    f(r, b) == Compress(r, b)
  }

  class Hasher {
    const block: array<byte>
    var state: Registers
    var used: nat
    var bytes: nat

    ghost const f: (Registers, Block) -> Registers
    ghost const initial: Registers
    /** Everything hashed so far: what was transformed, then what waits in the block. */
    ghost var done: seq<byte>

    ghost function Message(): seq<byte>
      requires used <= block.Length
      reads this, block
    {
      done + block[..used]
    }

    ghost predicate Valid()
      reads this, block
    {
      && block.Length == BLOCK && used < BLOCK && |done| % BLOCK == 0 && Computes(f)
      && state == Fold(f, initial, done)
      && bytes == Wrapped(|Message()|)
    }

    constructor (ghost f: (Registers, Block) -> Registers, start: Registers)
      requires Computes(f)
      ensures Valid() && this.f == f && initial == start && Message() == [] && fresh(block)
    {
      block := new byte[BLOCK](_ => 0);
      this.f := f;
      state, initial, used, bytes, done := start, start, 0, 0, [];
    }

    method Copy(data: seq<byte>, consumed: nat, take: nat)
      requires used + take <= block.Length && consumed + take <= |data|
      modifies block
      ensures block[..used + take] == old(block[..used]) + data[consumed..consumed + take]
    {
      for i := 0 to take
        invariant block[..used + i] == old(block[..used]) + data[consumed..consumed + i]
      {
        block[used + i] := data[consumed + i];
      }
    }

    method TransformBlock()
      requires Computes(f) && block.Length == BLOCK
      modifies this`state
      ensures state == f(old(state), block[..])
    {
      assert Same(f, state, block[..]);
      state := Transform(state, block);
    }

    /** A full block is folded into the registers and waits no longer. */
    method Consume()
      requires Computes(f) && block.Length == BLOCK && used == BLOCK && |done| % BLOCK == 0
      requires state == Fold(f, initial, done)
      modifies this`state, this`used, this`done
      ensures used == 0 && done == old(done) + block[..] && |done| % BLOCK == 0 && state == Fold(f, initial, done)
    {
      TransformBlock();
      FoldAppend(f, initial, done, block[..]);
      FoldBlock(f, Fold(f, initial, done), block[..]);
      done := done + block[..];
      used := 0;
    }

    /** Adds as much as the block has room for, at least one byte. */
    method Absorb(data: seq<byte>, consumed: nat) returns (take: nat)
      requires Computes(f) && block.Length == BLOCK && used < BLOCK && |done| % BLOCK == 0
      requires state == Fold(f, initial, done)
      requires consumed < |data|
      modifies this`state, this`used, this`done, block
      ensures used < BLOCK && |done| % BLOCK == 0 && state == Fold(f, initial, done)
      ensures 0 < take && consumed + take <= |data|
      ensures Message() == old(Message()) + data[consumed..consumed + take]
    {
      var room := BLOCK - used;
      take := if |data| - consumed < room then |data| - consumed else room;
      ghost var piece := data[consumed..consumed + take];
      assert old(Message()) + piece == done + (block[..used] + piece);
      Copy(data, consumed, take);
      used := used + take;
      if used == BLOCK {
        assert block[..used] == block[..];
        Consume();
        assert done == done + block[..0];
      }
    }

    method Update(data: seq<byte>)
      requires Valid()
      modifies this`state, this`used, this`done, this`bytes, block
      ensures Valid() && Message() == old(Message()) + data
    {
      AddWraps(|Message()|, |data|);
      bytes := Wrapped(bytes + |data|);
      var consumed := 0;
      ghost var before := Message();
      assert before == before + data[..0];
      while consumed < |data|
        invariant consumed <= |data| && block.Length == BLOCK && used < BLOCK
        invariant |done| % BLOCK == 0 && state == Fold(f, initial, done)
        invariant Message() == before + data[..consumed] && bytes == Wrapped(|before| + |data|)
      {
        var take := Absorb(data, consumed);
        Extended(before, data, consumed, take);
        consumed := consumed + take;
      }
      assert data[..|data|] == data;
      assert |Message()| == |before| + |data|;
    }

    method FillZeros(limit: nat)
      requires used <= limit <= block.Length
      modifies this`used, block
      ensures used == limit && block[..limit] == old(block[..used]) + Zeros(limit - old(used))
    {
      ghost var start := used;
      while used < limit
        invariant start <= used <= limit
        invariant block[..used] == old(block[..used]) + Zeros(used - start)
      {
        block[used] := 0;
        used := used + 1;
      }
    }

    method StoreCount(bits: nat)
      requires block.Length == BLOCK
      modifies block
      ensures block[..] == old(block[..56]) + LittleEndian(bits, 8)
    {
      var value := bits;
      ghost var whole := LittleEndian(bits, 8);
      for i := 0 to 8
        invariant block[..56 + i] == old(block[..56]) + whole[..i]
        invariant whole[i..] == LittleEndian(value, 8 - i)
      {
        block[56 + i] := value % 256;
        value := value / 256;
      }
      assert block[..64] == block[..];
    }

    /** The bit after the message, and zeros up to a full block if the length no longer fits into this one. */
    method Mark()
      requires Computes(f) && block.Length == BLOCK && used < BLOCK && |done| % BLOCK == 0
      requires state == Fold(f, initial, done)
      modifies this`state, this`used, this`done, block
      ensures used == (if old(used) < 56 then old(used) + 1 else 0) && |done| % BLOCK == 0
      ensures state == Fold(f, initial, done)
      ensures Message() == old(Message()) + [0x80] + Zeros(if old(used) < 56 then 0 else 63 - old(used))
    {
      ghost var front := block[..used];
      block[used] := 0x80;
      used := used + 1;
      assert block[..used] == front + [0x80];
      assert Message() == old(Message()) + [0x80] + Zeros(0);
      if used > 56 {
        ghost var zeros := Zeros(BLOCK - used);
        assert done + (front + [0x80] + zeros) == old(Message()) + [0x80] + zeros;
        FillZeros(BLOCK);
        assert block[..used] == block[..];
        Consume();
        assert done == done + block[..0];
      }
    }

    /** Zeros and the length complete the last block. */
    method Close(bits: nat)
      requires Computes(f) && block.Length == BLOCK && used <= 56 && |done| % BLOCK == 0
      requires state == Fold(f, initial, done)
      modifies this`state, this`used, this`done, block
      ensures state == Fold(f, initial, old(Message()) + Zeros(56 - old(used)) + LittleEndian(bits, 8))
    {
      Rejoined(done, block[..used], Zeros(56 - used), LittleEndian(bits, 8));
      FillZeros(56);
      StoreCount(bits);
      used := BLOCK;
      Consume();
    }

    /** The state after the padded message, from which the digest is read off. */
    method Finish() returns (final: Registers)
      requires Valid()
      modifies this`state, this`used, this`done, block
      ensures final == Fold(f, initial, Padded(old(Message())))
    {
      var bits := Wrapped(bytes * 8);
      ghost var message, waiting := Message(), used;
      Remainder(|done|, used);
      assert |message| % BLOCK == waiting;
      CountWraps(|message|);
      Mark();
      ghost var marked, zeros := Message(), Zeros(56 - used);
      Close(bits);
      PaddedTail(message, waiting, marked, zeros);
      final := state;
    }
  }

  lemma Extended(before: seq<byte>, data: seq<byte>, consumed: nat, take: nat)
    requires consumed + take <= |data|
    ensures before + data[..consumed] + data[consumed..consumed + take] == before + data[..consumed + take]
  {
  }

  lemma Rejoined(a: seq<byte>, b: seq<byte>, c: seq<byte>, d: seq<byte>)
    ensures a + (b + c + d) == a + b + c + d
  {
  }

  lemma PaddedTail(message: seq<byte>, used: nat, marked: seq<byte>, zeros: seq<byte>)
    requires && used == |message| % BLOCK
             && marked == message + [0x80] + Zeros(if used < 56 then 0 else 63 - used)
             && zeros == Zeros(if used < 56 then 55 - used else 56)
    ensures marked + zeros + LittleEndian(Wrapped(8 * |message|), 8) == Padded(message)
  {
    var some := Zeros(if used < 56 then 0 else 63 - used);
    assert some + zeros == Zeros(ZeroCount(used));
    Joined(message, some, zeros, LittleEndian(Wrapped(8 * |message|), 8));
  }

  lemma Joined(a: seq<byte>, b: seq<byte>, c: seq<byte>, d: seq<byte>)
    ensures a + [0x80] + b + c + d == a + ([0x80] + (b + c) + d)
  {
  }

  // ---------------------------------------------------------------- the program

  const START: seq<nat> := [0x6745_2301, 0xEFCD_AB89, 0x98BA_DCFE, 0x1032_5476]

  function Initial(): Registers {
    seq<Word>(4, (i: nat) requires i < 4 => Bits(WIDTH, START[i]))
  }

  const START_BYTES: seq<seq<byte>> := [
    [0x01, 0x23, 0x45, 0x67], [0x89, 0xAB, 0xCD, 0xEF], [0xFE, 0xDC, 0xBA, 0x98], [0x76, 0x54, 0x32, 0x10]
  ]

  /** The registers start as section 3.3 of the RFC spells them, lowest byte first. */
  lemma InitialBytes(i: nat)
    requires i < 4
    ensures var b := START_BYTES[i]; |b| == 4 && Number(Initial()[i]) == Base256(b[0], b[1], b[2], b[3])
  {
    NumberOfWord(START[i]);
  }

  /** The digest printed is that of the whole input, however the reads cut it. */
  method Md5Sum(inputs: seq<Read>) returns (r: Result<seq<byte>>)
    ensures match Received(inputs)
            case Ok(message) => r == Ok(Digest(Fold(Compress, Initial(), Padded(message))))
            case Err => r == Err
  {
    forall r: Registers, b: Block ensures Same(Compress, r, b) {
    }
    var final := HashReads(Compress, Initial(), inputs);
    if final.Err? {
      return Err;
    }
    var digest := WriteDigest(final.value);
    r := Ok(digest);
  }

  method HashReads(ghost f: (Registers, Block) -> Registers, start: Registers, inputs: seq<Read>)
      returns (r: Result<Registers>)
    requires Computes(f)
    ensures match Received(inputs)
            case Ok(message) => r == Ok(Fold(f, start, Padded(message)))
            case Err => r == Err
  {
    var hasher := new Hasher(f, start);
    assert inputs[0..] == inputs;
    ghost var whole := Received(inputs);
    assert whole.Ok? ==> hasher.Message() + whole.value == whole.value;
    var i := 0;
    while i < |inputs| && inputs[i].Chunk? && inputs[i].data != []
      invariant i <= |inputs| && hasher.Valid() && hasher.f == f && hasher.initial == start
      invariant fresh(hasher) && fresh(hasher.block)
      invariant Continues(whole, hasher.Message(), Received(inputs[i..]))
    {
      assert inputs[i..][1..] == inputs[i + 1..];
      Continued(whole, hasher.Message(), inputs[i].data, Received(inputs[i + 1..]));
      hasher.Update(inputs[i].data);
      i := i + 1;
    }
    if i < |inputs| && inputs[i].Failure? {
      return Err;
    }
    assert hasher.Message() + [] == hasher.Message();
    var final := hasher.Finish();
    r := Ok(final);
  }

  /** The input as a whole is what came so far and what the remaining reads give. */
  ghost predicate Continues(whole: Result<seq<byte>>, done: seq<byte>, rest: Result<seq<byte>>) {
    if rest.Ok? then whole == Ok(done + rest.value) else whole == Err
  }

  lemma Continued(whole: Result<seq<byte>>, done: seq<byte>, data: seq<byte>, rest: Result<seq<byte>>)
    requires Continues(whole, done, if rest.Ok? then Ok(data + rest.value) else Err)
    ensures Continues(whole, done + data, rest)
  {
    assert rest.Ok? ==> done + (data + rest.value) == (done + data) + rest.value;
  }
}
