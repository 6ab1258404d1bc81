/** Bytes, little-endian integers, and records made of fixed-width integer fields.
    Every header of the ZIP format is such a record: the writer puts integers, LE, and the reader
    takes them, Value. */
module Bytes {
  type byte = x: int | 0 <= x < 0x100
  type u16 = x: int | 0 <= x < 0x1_0000
  type u32 = x: int | 0 <= x < 0x1_0000_0000
  type u64 = x: int | 0 <= x < 0x1_0000_0000_0000_0000

  const UINT16_MAX: u16 := 0xffff
  const UINT32_MAX: u32 := 0xffff_ffff
  const UINT64_BOUND := 0x1_0000_0000_0000_0000
  /** One more than the largest int64. */
  const INT64_BOUND := 0x8000_0000_0000_0000

  function Pow256(n: nat): (p: nat)
    ensures p >= 1
  {
    if n == 0 then 1 else 256 * Pow256(n - 1)
  }

  lemma Pow256Values()
    ensures Pow256(1) == 0x100
    ensures Pow256(2) == 0x1_0000
    ensures Pow256(4) == 0x1_0000_0000
    ensures Pow256(8) == 0x1_0000_0000_0000_0000
  {
    assert Pow256(4) == 256 * (256 * Pow256(2));
    assert Pow256(6) == 256 * (256 * Pow256(4));
    assert Pow256(8) == 256 * (256 * Pow256(6));
  }

  /** The `n` low-order bytes of `v`, least significant first; higher bytes are dropped. */
  function LE(n: nat, v: nat): (s: seq<byte>)
    ensures |s| == n
  {
    if n == 0 then [] else [v % 256] + LE(n - 1, v / 256)
  }

  function Value(s: seq<byte>): (v: nat)
    ensures v < Pow256(|s|)
  {
    if s == [] then 0 else s[0] + 256 * Value(s[1..])
  }

  lemma {:induction false} ValueOfLE(n: nat, v: nat)
    requires v < Pow256(n)
    ensures Value(LE(n, v)) == v
  {
    if n > 0 {
      ValueOfLE(n - 1, v / 256);
      assert LE(n, v)[1..] == LE(n - 1, v / 256);
    }
  }

  lemma {:induction false} LEOfZero(n: nat)
    ensures LE(n, 0) == seq(n, _ => 0)
  {
    if n > 0 {
      LEOfZero(n - 1);
    }
  }

  /** A record: integers of fixed widths one after another. Read left to right, a chain such as
      Nil.U32(a).U16(b) is a followed by b. */
  datatype Record = Nil | Put(front: Record, width: nat, value: nat)
  {
    function U8(v: byte): (r: Record)
      ensures r.Size() == Size() + 1 && (Fits() ==> r.Fits())
    {
      Pow256Values();
      Put(this, 1, v)
    }

    function U16(v: u16): (r: Record)
      ensures r.Size() == Size() + 2 && (Fits() ==> r.Fits())
    {
      Pow256Values();
      Put(this, 2, v)
    }

    function U32(v: u32): (r: Record)
      ensures r.Size() == Size() + 4 && (Fits() ==> r.Fits())
    {
      Pow256Values();
      Put(this, 4, v)
    }

    function U64(v: u64): (r: Record)
      ensures r.Size() == Size() + 8 && (Fits() ==> r.Fits())
    {
      Pow256Values();
      Put(this, 8, v)
    }

    function Zeros(n: nat): (r: Record)
      ensures r.Size() == Size() + n && (Fits() ==> r.Fits())
    {
      Put(this, n, 0)
    }

    function Size(): nat {
      if Nil? then 0 else front.Size() + width
    }

    function Bytes(): (b: seq<byte>)
      ensures |b| == Size()
    {
      if Nil? then [] else front.Bytes() + LE(width, value)
    }

    predicate Fits() {
      Put? ==> front.Fits() && value < Pow256(width)
    }
  }

  /** The integer of width `n` at position `i`. */
  function At(b: seq<byte>, i: nat, n: nat): (v: nat)
    requires i + n <= |b|
    ensures v < Pow256(n)
  {
    Value(b[i..][..n])
  }

  function U16At(b: seq<byte>, i: nat): u16
    requires i + 2 <= |b|
  {
    Pow256Values();
    At(b, i, 2)
  }

  function U32At(b: seq<byte>, i: nat): u32
    requires i + 4 <= |b|
  {
    Pow256Values();
    At(b, i, 4)
  }

  function U64At(b: seq<byte>, i: nat): u64
    requires i + 8 <= |b|
  {
    Pow256Values();
    At(b, i, 8)
  }
}
