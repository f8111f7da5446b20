/**
  The block transformation of MD5: the four-register form of section 3.4 of RFC 1321,
  and the rotating-register loop that computes it.
*/
module Md5Rounds {
  import opened Bytes
  import opened Words

  const SINES: seq<nat> := [
    0xD76A_A478, 0xE8C7_B756, 0x2420_70DB, 0xC1BD_CEEE, 0xF57C_0FAF, 0x4787_C62A, 0xA830_4613, 0xFD46_9501,
    0x6980_98D8, 0x8B44_F7AF, 0xFFFF_5BB1, 0x895C_D7BE, 0x6B90_1122, 0xFD98_7193, 0xA679_438E, 0x49B4_0821,
    0xF61E_2562, 0xC040_B340, 0x265E_5A51, 0xE9B6_C7AA, 0xD62F_105D, 0x0244_1453, 0xD8A1_E681, 0xE7D3_FBC8,
    0x21E1_CDE6, 0xC337_07D6, 0xF4D5_0D87, 0x455A_14ED, 0xA9E3_E905, 0xFCEF_A3F8, 0x676F_02D9, 0x8D2A_4C8A,
    0xFFFA_3942, 0x8771_F681, 0x6D9D_6122, 0xFDE5_380C, 0xA4BE_EA44, 0x4BDE_CFA9, 0xF6BB_4B60, 0xBEBF_BC70,
    0x289B_7EC6, 0xEAA1_27FA, 0xD4EF_3085, 0x0488_1D05, 0xD9D4_D039, 0xE6DB_99E5, 0x1FA2_7CF8, 0xC4AC_5665,
    0xF429_2244, 0x432A_FF97, 0xAB94_23A7, 0xFC93_A039, 0x655B_59C3, 0x8F0C_CC92, 0xFFEF_F47D, 0x8584_5DD1,
    0x6FA8_7E4F, 0xFE2C_E6E0, 0xA301_4314, 0x4E08_11A1, 0xF753_7E82, 0xBD3A_F235, 0x2AD7_D2BB, 0xEB86_D391
  ]

  /** The rotations of the program, operation by operation. */
  const SHIFTS: seq<nat> := Row([7, 12, 17, 22]) + Row([5, 9, 14, 20]) + Row([4, 11, 16, 23]) + Row([6, 10, 15, 21])

  function Row(four: seq<nat>): (row: seq<nat>)
    ensures |row| == 4 * |four|
  {
    four + four + four + four
  }

  // ---------------------------------------------------------------- RFC 1321, section 3.4

  /** The auxiliary function of the round that operation i belongs to. */
  function Auxiliary(i: nat, x: Word, y: Word, z: Word): Word {
    if i < 16 then Or(And(x, y), And(Not(x), z))
    else if i < 32 then Or(And(x, z), And(y, Not(z)))
    else if i < 48 then Xor(Xor(x, y), z)
    else Xor(y, Or(x, Not(z)))
  }

  /** Bit by bit: a choice by x, a choice by z, the parity, and the fourth function. */
  lemma AuxiliaryBits(i: nat, x: Word, y: Word, z: Word, j: nat)
    requires i < 64 && j < WIDTH
    ensures i / 16 == 0 ==> Auxiliary(i, x, y, z)[j] == if x[j] then y[j] else z[j]
    ensures i / 16 == 1 ==> Auxiliary(i, x, y, z)[j] == if z[j] then x[j] else y[j]
    ensures i / 16 == 2 ==> Auxiliary(i, x, y, z)[j] == (x[j] == (y[j] == z[j]))
    ensures i / 16 == 3 ==> Auxiliary(i, x, y, z)[j] == if z[j] then x[j] != y[j] else !y[j]
  {
  }

  /** Which word of the block operation i uses, as listed round by round. */
  function Schedule(i: nat): (k: nat)
    requires i < 64
    ensures k < 16
  {
    var round2 := [1, 6, 11, 0, 5, 10, 15, 4, 9, 14, 3, 8, 13, 2, 7, 12];
    var round3 := [5, 8, 11, 14, 1, 4, 7, 10, 13, 0, 3, 6, 9, 12, 15, 2];
    var round4 := [0, 7, 14, 5, 12, 3, 10, 1, 8, 15, 6, 13, 4, 11, 2, 9];
    if i < 16 then i else if i < 32 then round2[i - 16] else if i < 48 then round3[i - 32] else round4[i - 48]
  }

  /** The rotation of operation i: four amounts per round, in turn. */
  function Amount(i: nat): (s: nat)
    requires i < 64
    ensures s < 32
  {
    var four := if i < 16 then [7, 12, 17, 22] else if i < 32 then [5, 9, 14, 20]
      else if i < 48 then [4, 11, 16, 23] else [6, 10, 15, 21];
    four[i % 4]
  }

  function Sine(i: nat): Word
    requires i < 64
  {
    Bits(WIDTH, SINES[i])
  }

  type Block = b: seq<byte> | |b| == 64 witness seq<byte>(64, (i: nat) => 0)
  type Registers = r: seq<Word> | |r| == 4 witness [Blank(WIDTH), Blank(WIDTH), Blank(WIDTH), Blank(WIDTH)]

  function BlockWords(block: Block): (x: seq<Word>)
    ensures |x| == 16
  {
    seq<Word>(16, (i: nat) requires i < 16 => LoadWord(block[4 * i..4 * i + 4]))
  }

  function Next(x: seq<Word>, i: nat, a: Word, b: Word, c: Word, d: Word): Word
    requires |x| == 16 && i < 64
  {
    Add(b, Rotate(Add(Add(Add(a, Auxiliary(i, b, c, d)), Sine(i)), x[Schedule(i)]), Amount(i)))
  }

  /** Operation i overwrites one register; the register in the leading role steps backwards from A. */
  function Operation(x: seq<Word>, i: nat, r: Registers): Registers
    requires |x| == 16 && i < 64
  {
    var t := (64 - i) % 4;
    var b, c, d := r[(t + 1) % 4], r[(t + 2) % 4], r[(t + 3) % 4];
    r[t := Next(x, i, r[t], b, c, d)]
  }

  function Operations(x: seq<Word>, i: nat, r: Registers): Registers
    requires |x| == 16 && i <= 64
    decreases 4 * |x| - i
  {
    if i == 64 then r else Operations(x, i + 1, Operation(x, i, r))
  }

  /** One block: the 64 operations, then each register is increased by what it held before. */
  function Compress(r: Registers, block: Block): Registers {
    Increase(r, Operations(BlockWords(block), 0, r))
  }

  function Increase(r: Registers, q: Registers): Registers {
    [Add(r[0], q[0]), Add(r[1], q[1]), Add(r[2], q[2]), Add(r[3], q[3])]
  }

  lemma IncreaseIs(r: Registers, q: Registers, i: nat)
    requires i < 4
    ensures Number(Increase(r, q)[i]) == (Number(r[i]) + Number(q[i])) % 0x1_0000_0000
  {
    AddIs(r[i], q[i]);
  }

  // ---------------------------------------------------------------- the rotating loop

  /** Where the registers of the RFC are when the loop holds a, b, c, d before operation i. */
  function Unrotated<W>(i: nat, a: W, b: W, c: W, d: W): (r: seq<W>)
    ensures |r| == 4
  {
    match i % 4
    case 0 => [a, b, c, d]
    case 1 => [b, c, d, a]
    case 2 => [c, d, a, b]
    case _ => [d, a, b, c]
  }

  lemma Leading(i: nat)
    requires i < 64
    ensures (64 - i) % 4 == if i % 4 == 0 then 0 else 4 - i % 4
  {
  }

  lemma RoleOf<W>(i: nat, a: W, b: W, c: W, d: W)
    requires i < 64
    ensures var r, t := Unrotated(i, a, b, c, d), (64 - i) % 4;
            r[t] == a && r[(t + 1) % 4] == b && r[(t + 2) % 4] == c && r[(t + 3) % 4] == d
  {
    Leading(i);
  }

  lemma Placed<W>(i: nat, a: W, b: W, c: W, d: W, next: W)
    requires i < 64
    ensures Unrotated(i, a, b, c, d)[(64 - i) % 4 := next] == Unrotated(i + 1, d, next, b, c)
  {
    Leading(i);
  }

  lemma Sixteen(j: nat)
    requires j < 16
    ensures j == 0 || j == 1 || j == 2 || j == 3 || j == 4 || j == 5 || j == 6 || j == 7 || j == 8
            || j == 9 || j == 10 || j == 11 || j == 12 || j == 13 || j == 14 || j == 15
  {
  }

  lemma SecondRound(j: nat)
    requires j < 16
    ensures Schedule(16 + j) == (5 * (16 + j) + 1) % 16
  {
    Sixteen(j);
  }

  lemma ThirdRound(j: nat)
    requires j < 16
    ensures Schedule(32 + j) == (3 * (32 + j) + 5) % 16
  {
    Sixteen(j);
  }

  lemma FourthRound(j: nat)
    requires j < 16
    ensures Schedule(48 + j) == (7 * (48 + j)) % 16
  {
    Sixteen(j);
  }

  lemma RowRepeats(four: seq<nat>, j: nat)
    requires |four| == 4 && j < 16
    ensures Row(four)[j] == four[j % 4]
  {
  }

  lemma FourRows(a: seq<nat>, b: seq<nat>, c: seq<nat>, d: seq<nat>, i: nat)
    requires |a| == |b| == |c| == |d| == 4 && i < 64
    ensures var all := Row(a) + Row(b) + Row(c) + Row(d);
            && |all| == 64
            && all[i] == (if i < 16 then a else if i < 32 then b else if i < 48 then c else d)[i % 4]
  {
    if i < 16 {
      RowRepeats(a, i);
    } else if i < 32 {
      RowRepeats(b, i - 16);
    } else if i < 48 {
      RowRepeats(c, i - 32);
    } else {
      RowRepeats(d, i - 48);
    }
  }

  lemma Selects(b: Word, c: Word, d: Word)
    ensures Or(And(d, b), And(Not(d), c)) == Or(And(b, d), And(c, Not(d)))
  {
  }

  method Mix(i: nat, b: Word, c: Word, d: Word) returns (f: Word, g: nat)
    requires i < 64
    ensures f == Auxiliary(i, b, c, d) && g == Schedule(i)
  {
    if i < 16 {
      f, g := Or(And(b, c), And(Not(b), d)), i;
    } else if i < 32 {
      Selects(b, c, d);
      SecondRound(i - 16);
      f, g := Or(And(d, b), And(Not(d), c)), (5 * i + 1) % 16;
    } else if i < 48 {
      ThirdRound(i - 32);
      f, g := Xor(Xor(b, c), d), (3 * i + 5) % 16;
    } else {
      FourthRound(i - 48);
      f, g := Xor(c, Or(b, Not(d))), (7 * i) % 16;
    }
  }

  /** Rotating the registers instead of the roles changes nothing. */
  lemma RotatedOperation(x: seq<Word>, i: nat, a: Word, b: Word, c: Word, d: Word)
    requires |x| == 16 && i < 64
    ensures Operation(x, i, Unrotated(i, a, b, c, d)) == Unrotated(i + 1, d, Next(x, i, a, b, c, d), b, c)
  {
    RoleOf(i, a, b, c, d);
    Placed(i, a, b, c, d, Next(x, i, a, b, c, d));
  }

  method Turn(x: seq<Word>, i: nat, a: Word, b: Word, c: Word, d: Word) returns (next: Word)
    requires |x| == 16 && i < 64
    ensures next == Next(x, i, a, b, c, d)
  {
    var f, g := Mix(i, b, c, d);
    var sum := Add(Add(Add(a, f), Sine(i)), x[g]);
    FourRows([7, 12, 17, 22], [5, 9, 14, 20], [4, 11, 16, 23], [6, 10, 15, 21], i);
    var s := SHIFTS[i];
    RotateByShifts(sum, s);
    next := Add(b, Or(ShiftLeft(sum, s), ShiftRight(sum, WIDTH - s)));
  }

  method LoadWords(block: array<byte>) returns (x: seq<Word>)
    requires block.Length == 64
    ensures x == BlockWords(block[..])
  {
    x := [];
    for i := 0 to 16
      invariant x == BlockWords(block[..])[..i]
    {
      assert block[..][4 * i..4 * i + 4] == block[4 * i..4 * i + 4];
      x := x + [LoadWord(block[4 * i..4 * i + 4])];
    }
  }

  lemma FullTurns(x: seq<Word>, i: nat, a: Word, b: Word, c: Word, d: Word)
    requires |x| == 16 && i == 64
    ensures Operations(x, i, Unrotated(i, a, b, c, d)) == [a, b, c, d]
  {
    assert Unrotated(i, a, b, c, d) == [a, b, c, d];
  }

  ghost predicate LeadsTo(x: seq<Word>, i: nat, r: Registers, final: Registers)
    requires |x| == 16 && i <= 64
  {
    Operations(x, i, r) == final
  }

  method RunOperations(x: seq<Word>, state: Registers) returns (r: Registers)
    requires |x| == 16
    ensures r == Operations(x, 0, state)
  {
    var a, b, c, d := state[0], state[1], state[2], state[3];
    ghost var final := Operations(x, 0, state);
    assert Unrotated(0, a, b, c, d) == state;
    for i := 0 to 64
      invariant LeadsTo(x, i, Unrotated(i, a, b, c, d), final)
    {
      var next := Turn(x, i, a, b, c, d);
      RotatedOperation(x, i, a, b, c, d);
      a, d, c, b := d, c, b, next;
    }
    FullTurns(x, 64, a, b, c, d);
    r := [a, b, c, d];
  }

  method Transform(state: Registers, block: array<byte>) returns (r: Registers)
    requires block.Length == 64
    ensures r == Compress(state, block[..])
  {
    var x := LoadWords(block);
    var q := RunOperations(x, state);
    r := [Add(state[0], q[0]), Add(state[1], q[1]), Add(state[2], q[2]), Add(state[3], q[3])];
  }
}
