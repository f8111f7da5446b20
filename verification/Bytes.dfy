/** Bytes, little-endian words and zero filling, shared by the other modules. */
module Bytes {
  type byte = b: int | 0 <= b < 256

  datatype Option<+T> = None | Some(value: T)

  datatype Result<+T> = Ok(value: T) | Err

  function Zeros(n: nat): (z: seq<byte>)
    ensures |z| == n && forall i :: 0 <= i < n ==> z[i] == 0
  {
    seq(n, _ => 0)
  }

  /** Little-endian representation of the low `width` bytes. */
  function LittleEndian(v: nat, width: nat): (b: seq<byte>)
    ensures |b| == width
  {
    if width == 0 then [] else [v % 256] + LittleEndian(v / 256, width - 1)
  }

  function U16(v: nat): (b: seq<byte>)
    ensures |b| == 2
  {
    LittleEndian(v, 2)
  }

  function U32(v: nat): (b: seq<byte>)
    ensures |b| == 4
  {
    LittleEndian(v, 4)
  }

  lemma U16RoundTrip(v: nat)
    requires v < 0x10000
    ensures GetU16(U16(v), 0) == v
  {
    U16Bytes(v);
  }

  lemma U16Bytes(v: nat)
    ensures U16(v) == [v % 256, (v / 256) % 256]
  {
    assert LittleEndian(v / 256, 1) == [(v / 256) % 256];
  }

  lemma U32RoundTrip(v: nat)
    requires v < 0x1_0000_0000
    ensures GetU32(U32(v), 0) == v
  {
    var w := v / 256;
    assert LittleEndian(v, 4)[1..] == LittleEndian(w, 3);
    assert LittleEndian(w, 3)[1..] == LittleEndian(w / 256, 2);
    U16Bytes(w / 256);
  }

  function GetU16(b: seq<byte>, at: nat): nat
    requires at + 2 <= |b|
  {
    (b[at] as int) + 256 * (b[at + 1] as int)
  }

  function GetU32(b: seq<byte>, at: nat): nat
    requires at + 4 <= |b|
  {
    GetU16(b, at) + 0x10000 * GetU16(b, at + 2)
  }

  function Min(a: int, b: int): int {
    if a <= b then a else b
  }

  function Max(a: int, b: int): int {
    if a >= b then a else b
  }
}
