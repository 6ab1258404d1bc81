/** The cursors with which headers are filled in and taken apart: writeBuf, a byte buffer
    re-sliced past every integer put into it, and readBuf, a slice consumed from the front.
    A ghost record keeps the integers that were put. */
module Buffers {
  import opened Bytes

  class WriteBuf {
    const buf: array<byte>
    var pos: nat
    ghost var record: Record

    ghost predicate Valid()
      reads this, buf
    {
      && pos <= buf.Length
      && buf[..pos] == record.Bytes()
      && forall i :: pos <= i < buf.Length ==> buf[i] == 0
    }

    constructor (n: nat)
      ensures Valid() && fresh(buf)
      ensures buf.Length == n && pos == 0 && record == Nil
    {
      buf := new byte[n](_ => 0);
      pos := 0;
      record := Nil;
    }

    /** Puts `v` at the cursor, low byte first, and moves the cursor past it. */
    method Put(width: nat, v: nat)
      requires Valid() && pos + width <= buf.Length
      modifies this, buf
      ensures Valid()
      ensures record == Record.Put(old(record), width, v) && pos == old(pos) + width
    {
      var i, x := 0, v;
      while i < width
        invariant i <= width && pos == old(pos) && record == old(record)
        invariant LE(width - i, x) == LE(width, v)[i..]
        invariant buf[..pos] == old(buf[..pos])
        invariant buf[pos..pos + i] == LE(width, v)[..i]
        invariant forall k :: pos + i <= k < buf.Length ==> buf[k] == 0
      {
        LowByte(width, v, i, x);
        buf[pos + i] := x % 256;
        i, x := i + 1, x / 256;
        assert buf[pos..pos + i] == buf[pos..pos + i - 1] + [buf[pos + i - 1]];
      }
      assert buf[..pos + width] == buf[..pos] + buf[pos..pos + width];
      pos := pos + width;
      record := Record.Put(record, width, v);
    }

    /** The next byte of an integer taken apart. */
    lemma LowByte(width: nat, v: nat, i: nat, x: nat)
      requires i < width && LE(width - i, x) == LE(width, v)[i..]
      ensures LE(width, v)[..i + 1] == LE(width, v)[..i] + [x % 256]
      ensures LE(width - i - 1, x / 256) == LE(width, v)[i + 1..]
    {
      var s := LE(width, v);
      assert s[i..][0] == x % 256;
      assert s[i + 1..] == s[i..][1..] == LE(width - i, x)[1..] == LE(width - i - 1, x / 256);
    }

    method Uint8(v: byte)
      requires Valid() && pos + 1 <= buf.Length
      modifies this, buf
      ensures Valid()
      ensures record == old(record).U8(v) && pos == old(pos) + 1
    {
      Put(1, v);
    }

    method Uint16(v: u16)
      requires Valid() && pos + 2 <= buf.Length
      modifies this, buf
      ensures Valid()
      ensures record == old(record).U16(v) && pos == old(pos) + 2
    {
      Put(2, v);
    }

    method Uint32(v: u32)
      requires Valid() && pos + 4 <= buf.Length
      modifies this, buf
      ensures Valid()
      ensures record == old(record).U32(v) && pos == old(pos) + 4
    {
      Put(4, v);
    }

    method Uint64(v: u64)
      requires Valid() && pos + 8 <= buf.Length
      modifies this, buf
      ensures Valid()
      ensures record == old(record).U64(v) && pos == old(pos) + 8
    {
      Put(8, v);
    }

    /** The filled buffer. */
    method Done() returns (b: seq<byte>)
      requires Valid() && pos == buf.Length
      ensures b == record.Bytes()
    {
      assert buf[..] == buf[..pos];
      b := buf[..];
    }

    /** Moves the cursor over `n` bytes that stay zero. */
    method Skip(n: nat)
      requires Valid() && pos + n <= buf.Length
      modifies this
      ensures Valid()
      ensures record == old(record).Zeros(n) && pos == old(pos) + n
    {
      LEOfZero(n);
      assert buf[..pos + n] == buf[..pos] + seq(n, _ => 0);
      pos := pos + n;
      record := record.Zeros(n);
    }
  }

  class ReadBuf {
    var rest: seq<byte>
    ghost const data: seq<byte>
    ghost var pos: nat

    ghost predicate Valid()
      reads this
    {
      pos <= |data| && rest == data[pos..]
    }

    constructor (b: seq<byte>)
      ensures Valid() && data == b && pos == 0
    {
      rest, data, pos := b, b, 0;
    }

    /** Takes the next `n` bytes off the front of the slice. */
    method Sub(n: nat) returns (b: seq<byte>)
      requires Valid() && pos + n <= |data|
      modifies this
      ensures Valid() && b == data[old(pos)..][..n] && pos == old(pos) + n
    {
      b := rest[..n];
      rest, pos := rest[n..], pos + n;
    }

    method Take(n: nat) returns (v: nat)
      requires Valid() && pos + n <= |data|
      modifies this
      ensures Valid() && v == At(data, old(pos), n) && pos == old(pos) + n
    {
      var b := Sub(n);
      v := 0;
      var i := n;
      while i > 0
        invariant 0 <= i <= n && v == Value(b[i..])
      {
        i := i - 1;
        assert b[i..][1..] == b[i + 1..];
        v := b[i] + 256 * v;
      }
      assert b[0..] == b;
    }

    method Uint16() returns (v: u16)
      requires Valid() && pos + 2 <= |data|
      modifies this
      ensures Valid() && v == U16At(data, old(pos)) && pos == old(pos) + 2
    {
      Pow256Values();
      v := Take(2);
    }

    method Uint32() returns (v: u32)
      requires Valid() && pos + 4 <= |data|
      modifies this
      ensures Valid() && v == U32At(data, old(pos)) && pos == old(pos) + 4
    {
      Pow256Values();
      v := Take(4);
    }

    method Uint64() returns (v: u64)
      requires Valid() && pos + 8 <= |data|
      modifies this
      ensures Valid() && v == U64At(data, old(pos)) && pos == old(pos) + 8
    {
      Pow256Values();
      v := Take(8);
    }

    /** Re-slices past `n` bytes. */
    method Skip(n: nat)
      requires Valid() && pos + n <= |data|
      modifies this
      ensures Valid() && pos == old(pos) + n
    {
      rest, pos := rest[n..], pos + n;
    }
  }
}
