/** What the reader makes of any bytes, written by this archiver or not: where it finds the end record,
    what it takes from it, and what it takes from an entry of the directory. Byte by byte, as APPNOTE 6.3
    numbers them. */
module ZipInput {
  import opened Bytes
  import opened Options
  import opened ZipFormat
  import opened ZipLayout
  import opened ZipRoundTrip
  import R = ZipReader

  // ---------- the end record ----------

  /** An end record with a comment that fits starts at position p. */
  predicate EndsHere(b: seq<byte>, p: nat) {
    p + 22 <= |b| && Signed(b, p, 5, 6) && p + 22 + Two(b, p + 20) <= |b|
  }

  lemma EndsAsRead(b: seq<byte>, p: nat)
    requires p + 22 <= |b|
    ensures R.EndAt(b, p) <==> EndsHere(b, p)
  {
    TwoAt(b, p + 20);
  }

  lemma EndsInPart(b: seq<byte>, lo: nat, p: nat)
    requires lo <= |b|
    ensures EndsHere(b[lo..], p) <==> EndsHere(b, lo + p)
  {
  }

  /** The last of them up to position i. */
  lemma {:induction false} LastIs(b: seq<byte>, i: int)
    requires i + 22 <= |b|
    ensures var p := R.LastEnd(b, i);
      && (p <= i || p == -1)
      && (p >= 0 ==> EndsHere(b, p))
      && forall q: nat :: p < q <= i ==> !EndsHere(b, q)
    decreases i + 1
  {
    hide EndsHere, R.EndAt;
    if i >= 0 {
      EndsAsRead(b, i);
      if !R.EndAt(b, i) {
        LastIs(b, i - 1);
      }
    }
  }

  /** The last end record of all, if it is in the last n bytes. */
  ghost predicate LastOfAll(b: seq<byte>, p: nat, n: nat) {
    EndsHere(b, p) && |b| <= p + n && forall q: nat :: q > p ==> !EndsHere(b, q)
  }

  lemma ProbeIs(b: seq<byte>, n: nat)
    ensures R.Probe(b, n) >= 0 ==> LastOfAll(b, R.Probe(b, n), n)
    ensures R.Probe(b, n) < 0 ==> forall q: nat :: EndsHere(b, q) ==> q + n < |b|
  {
    hide EndsHere, R.LastEnd;
    var k := if n < |b| then n else |b|;
    var lo := |b| - k;
    var p := R.LastEnd(b[lo..], k - 22);
    LastIs(b[lo..], k - 22);
    forall q: nat | q > lo + p
      ensures !EndsHere(b, q)
    {
      if q + 22 <= |b| {
        EndsInPart(b, lo, q - lo);
      } else {
        NoRoom(b, q);
      }
    }
    if p >= 0 {
      EndsInPart(b, lo, p);
    }
  }

  lemma NoRoom(b: seq<byte>, q: nat)
    requires q + 22 > |b|
    ensures !EndsHere(b, q)
  {
  }

  lemma EndsInside(b: seq<byte>, q: nat)
    requires EndsHere(b, q)
    ensures q + 22 <= |b|
  {
  }

  /** The end record is the last one that fits, if that is in the last 65 kilobytes; without it the
      archive is refused. */
  lemma EndFound(b: seq<byte>, p: nat)
    ensures R.EndOffset(b) == R.Ok(p) <==> EndsHere(b, p) && |b| <= p + 66560 && forall q: nat :: q > p ==> !EndsHere(b, q)
    ensures R.EndOffset(b).Err? ==> R.EndOffset(b) == R.Err(R.ErrFormat)
  {
    hide EndsHere, R.Probe;
    ProbeIs(b, 1024);
    ProbeIs(b, 66560);
    if EndsHere(b, p) {
      EndsInside(b, p);
    }
  }

  // ---------- what is taken from it ----------

  /** Whether the locator of a zip64 end record stands before position p and points into some file. */
  predicate Located(b: seq<byte>, p: nat) {
    p >= 20 && p <= |b| && Signed(b, p - 20, 6, 7) && Four(b, p - 16) == 0 && Four(b, p - 4) == 1
    && Eight(b, p - 12) < 0x8000_0000_0000_0000
  }

  lemma LocatedAsRead(b: seq<byte>, p: nat)
    requires p <= |b|
    ensures R.Locator(b, p) == if Located(b, p) then Some(Eight(b, p - 12)) else None
  {
    if p >= 20 {
      var loc := b[p - 20..][..20];
      assert Has(b, p - 20, loc);
      FieldBytes(b, p - 20, loc, 0);
      FieldBytes(b, p - 20, loc, 4);
      FieldBytes(b, p - 20, loc, 8);
      FieldBytes(b, p - 20, loc, 16);
      SignedIff(b, p - 20, 6, 7);
    }
  }

  lemma SignedIff(b: seq<byte>, i: nat, x: byte, y: byte)
    requires i + 4 <= |b|
    ensures Signed(b, i, x, y) <==> Four(b, i) == 0x4b50 + 0x1_0000 * x + 0x100_0000 * y
  {
  }

  lemma End64AsRead(b: seq<byte>, z: nat, d: R.DirectoryEnd)
    ensures R.End64(b, z, d) ==
      if z + 56 > |b| then R.Err(R.ErrEOF)
      else if !Signed(b, z, 6, 6) then R.Err(R.ErrFormat)
      else R.Ok(R.DirectoryEnd(Eight(b, z + 32), Eight(b, z + 40), Eight(b, z + 48), d.comment))
  {
    if z + 56 <= |b| {
      var r := b[z..][..56];
      assert Has(b, z, r);
      FieldBytes(b, z, r, 0);
      FieldBytes(b, z, r, 32);
      FieldBytes(b, z, r, 40);
      FieldBytes(b, z, r, 48);
      SignedIff(b, z, 6, 6);
    }
  }

  lemma End32AsRead(b: seq<byte>, p: nat)
    requires EndsHere(b, p)
    ensures R.End32(b[p..])
      == R.Ok(R.DirectoryEnd(Two(b, p + 10), Four(b, p + 12), Four(b, p + 16), b[p + 22..][..Two(b, p + 20)]))
  {
    var r := b[p..];
    assert Has(b, p, r);
    FieldBytes(b, p, r, 10);
    FieldBytes(b, p, r, 12);
    FieldBytes(b, p, r, 16);
    FieldBytes(b, p, r, 20);
    assert r[22..] == b[p + 22..];
  }

  /** What the end record at position p tells: how many entries there are, how long the directory is and
      where it starts, and the comment; the numbers are those of the zip64 end record instead if one of
      three values calls for it and there is a locator before p. The directory must start in the file. */
  lemma EndRead(b: seq<byte>, p: nat)
    requires EndsHere(b, p) && |b| <= p + 66560 && forall q: nat :: q > p ==> !EndsHere(b, q)
    ensures R.ReadEnd(b) ==
      var records, size, start, comment := Two(b, p + 10), Four(b, p + 12), Four(b, p + 16), b[p + 22..][..Two(b, p + 20)];
      if (records == 0xffff || size == 0xffff || start == 0xffff_ffff) && Located(b, p) then
        var z := Eight(b, p - 12);
        if z + 56 > |b| then R.Err(R.ErrEOF)
        else if !Signed(b, z, 6, 6) then R.Err(R.ErrFormat)
        else if Eight(b, z + 48) >= 0x8000_0000_0000_0000 || Eight(b, z + 48) >= |b| then R.Err(R.ErrFormat)
        else R.Ok(R.DirectoryEnd(Eight(b, z + 32), Eight(b, z + 40), Eight(b, z + 48), comment))
      else if start >= |b| then R.Err(R.ErrFormat)
      else R.Ok(R.DirectoryEnd(records, size, start, comment))
  {
    hide R.EndOffset, R.Locator, R.End64, R.End32, Located, Signed, EndsHere;
    EndFound(b, p);
    End32AsRead(b, p);
    LocatedAsRead(b, p);
    if Located(b, p) {
      LocatedInside(b, p);
      End64AsRead(b, Eight(b, p - 12), R.End32(b[p..]).value);
    }
  }

  lemma LocatedInside(b: seq<byte>, p: nat)
    requires Located(b, p)
    ensures 20 <= p <= |b|
  {
  }

  // ---------- extra fields ----------

  /** A block of an extra field. */
  datatype Block = Block(kind: u16, data: seq<byte>)

  /** The blocks one after another: kind and length, two bytes each, and the data. */
  ghost predicate BlocksAt(extra: seq<byte>, bs: seq<Block>, rest: seq<byte>)
    decreases |bs|
  {
    if bs == [] then rest == extra else
    && |extra| >= 4 && Two(extra, 0) == bs[0].kind && Two(extra, 2) == |bs[0].data|
    && |extra| >= 4 + |bs[0].data| && extra[4..][..|bs[0].data|] == bs[0].data
    && BlocksAt(extra[4 + |bs[0].data|..], bs[1..], rest)
  }

  /** No whole block: too short for kind and length, or for the data. */
  predicate NoBlock(rest: seq<byte>) {
    |rest| < 4 || 4 + Two(rest, 2) > |rest|
  }

  /** Every extra field is a sequence of blocks and a rest that is none. */
  lemma {:induction false} InBlocks(extra: seq<byte>) returns (bs: seq<Block>, rest: seq<byte>)
    ensures BlocksAt(extra, bs, rest) && NoBlock(rest)
    decreases |extra|
  {
    if NoBlock(extra) {
      bs, rest := [], extra;
    } else {
      var n := Two(extra, 2);
      var more;
      more, rest := InBlocks(extra[4 + n..]);
      var first := Block(Two(extra, 0), extra[4..][..n]);
      bs := [first] + more;
      assert bs[1..] == more;
    }
  }

  lemma NothingNeeded(s: R.Scan, extra: seq<byte>)
    requires !s.needU && !s.needC && !s.needO
    ensures R.ScanExtras(s, extra) == Some(s)
    decreases |extra|
  {
    if |extra| >= 4 && 4 + U16At(extra, 2) <= |extra| {
      NothingNeeded(s, extra[4 + U16At(extra, 2)..]);
    }
  }

  /** The first zip64 block is the i-th one. */
  ghost predicate FirstWide(bs: seq<Block>, i: nat) {
    i < |bs| && bs[i].kind == 1 && forall k :: 0 <= k < i ==> bs[k].kind != 1
  }

  /** Only the first zip64 block counts. */
  lemma {:induction false} ScansFirst(s: R.Scan, extra: seq<byte>, bs: seq<Block>, rest: seq<byte>)
    requires BlocksAt(extra, bs, rest) && NoBlock(rest)
    ensures (forall k :: 0 <= k < |bs| ==> bs[k].kind != 1) ==> R.ScanExtras(s, extra) == Some(s)
    ensures forall i: nat :: FirstWide(bs, i) ==> R.ScanExtras(s, extra) == R.TakeZip64(s, bs[i].data)
    decreases |bs|
  {
    hide R.TakeZip64;
    if bs == [] {
      if |extra| >= 4 {
        TwoAt(extra, 2);
      }
    } else {
      TwoAt(extra, 0);
      TwoAt(extra, 2);
      var more := extra[4 + |bs[0].data|..];
      if bs[0].kind == 1 {
        assert forall i: nat :: FirstWide(bs, i) ==> i == 0;
        var taken := R.TakeZip64(s, bs[0].data);
        if taken.Some? {
          NeedsMet(s, bs[0].data);
          NothingNeeded(taken.value, more);
        }
      } else {
        ScansFirst(s, more, bs[1..], rest);
        assert forall k :: 0 <= k < |bs| - 1 ==> bs[1..][k] == bs[k + 1];
        forall i: nat | FirstWide(bs, i)
          ensures R.ScanExtras(s, extra) == R.TakeZip64(s, bs[i].data)
        {
          FirstLater(bs, i);
        }
      }
    }
  }

  lemma FirstLater(bs: seq<Block>, i: nat)
    requires bs != [] && bs[0].kind != 1 && FirstWide(bs, i)
    ensures i >= 1 && FirstWide(bs[1..], i - 1) && bs[1..][i - 1] == bs[i]
  {
    assert forall k :: 0 <= k < |bs| - 1 ==> bs[1..][k] == bs[k + 1];
  }

  lemma NeedsMet(s: R.Scan, f: seq<byte>)
    requires R.TakeZip64(s, f).Some?
    ensures var t := R.TakeZip64(s, f).value; !t.needU && !t.needC && !t.needO
  {
  }

  /** A zip64 block gives, eight bytes each, those of size, compressed size and offset that are asked
      for, in this order; one that is too short is an error. */
  lemma TakesInOrder(s: R.Scan, f: seq<byte>)
    ensures var c := if s.needU then 8 else 0;
      var o := c + if s.needC then 8 else 0;
      var n := o + if s.needO then 8 else 0;
      R.TakeZip64(s, f) ==
        if |f| < n then None
        else Some(R.Scan(false, false, false,
          if s.needU then Eight(f, 0) else s.usize, if s.needC then Eight(f, c) else s.csize,
          if s.needO then Signed64(Eight(f, o)) else s.offset))
  {
    hide Eight;
    EightOfRest(f, 0);
    assert f[0..] == f;
    EightOfRest(f, 8);
    EightOfRest(f, 16);
    if |f| >= 16 {
      assert f[8..][8..] == f[16..];
    }
  }

  lemma EightOfRest(f: seq<byte>, i: nat)
    ensures i + 8 <= |f| ==> U64At(f[i..], 0) == Eight(f, i)
  {
    if i + 8 <= |f| {
      NumbersAreBytes(f[i..], 0);
    }
  }

  /** A 64-bit number taken as a signed one. */
  function Signed64(v: nat): int {
    if v < 0x8000_0000_0000_0000 then v else v - 0x1_0000_0000_0000_0000
  }

  // ---------- entries ----------

  /** What an entry's fixed part says, with size, compressed size and offset as given, and its name, extra
      field and comment, of n, e and c bytes. */
  function FileOf(b: seq<byte>, pos: nat, n: nat, e: nat, c: nat, usize: u64, csize: u64, offset: int): R.File
    requires pos + 46 + n + e + c <= |b|
  {
    var tail := b[pos + 46..];
    R.File(tail[..n], tail[n..][..e], tail[n + e..][..c],
           Two(b, pos + 4), Two(b, pos + 6), Two(b, pos + 8), Two(b, pos + 10), Two(b, pos + 12), Two(b, pos + 14),
           Four(b, pos + 16), Four(b, pos + 20), Four(b, pos + 24), csize, usize, Four(b, pos + 38), offset)
  }

  /** The numbers in the fixed part of an entry. */
  lemma FixedNumbers(b: seq<byte>, pos: nat)
    requires pos + 46 <= |b|
    ensures var fixed := b[pos..][..46];
      && (U32At(fixed, 0) == 0x0201_4b50 <==> Signed(b, pos, 1, 2))
      && U16At(fixed, 28) == Two(b, pos + 28) && U16At(fixed, 30) == Two(b, pos + 30) && U16At(fixed, 32) == Two(b, pos + 32)
  {
    hide U16At, U32At, Two, Four, Signed;
    var fixed := b[pos..][..46];
    assert Has(b, pos, fixed);
    FieldBytes(b, pos, fixed, 0);
    FieldBytes(b, pos, fixed, 28);
    FieldBytes(b, pos, fixed, 30);
    FieldBytes(b, pos, fixed, 32);
    SignedIff(b, pos, 1, 2);
  }

  lemma FixedFile(b: seq<byte>, pos: nat)
    requires pos + 46 <= |b|
    ensures R.FixedPart(b[pos..][..46])
      == FileOf(b, pos, 0, 0, 0, Four(b, pos + 24), Four(b, pos + 20), Four(b, pos + 42)).(name := [], extra := [], comment := [])
  {
    hide U16At, U32At, Two, Four;
    var fixed := b[pos..][..46];
    assert Has(b, pos, fixed);
    FieldBytes(b, pos, fixed, 4);
    FieldBytes(b, pos, fixed, 6);
    FieldBytes(b, pos, fixed, 8);
    FieldBytes(b, pos, fixed, 10);
    FieldBytes(b, pos, fixed, 12);
    FieldBytes(b, pos, fixed, 14);
    FieldBytes(b, pos, fixed, 16);
    FieldBytes(b, pos, fixed, 20);
    FieldBytes(b, pos, fixed, 24);
    FieldBytes(b, pos, fixed, 38);
    FieldBytes(b, pos, fixed, 42);
  }

  /** Where no entry can be read, and how that shows: the file ends, or there is no signature. */
  lemma NoEntry(b: seq<byte>, pos: nat)
    ensures |b| <= pos ==> R.EntryAt(b, pos) == R.Stop(R.ErrEOF)
    ensures pos < |b| < pos + 46 ==> R.EntryAt(b, pos) == R.Stop(R.ErrUnexpectedEOF)
    ensures pos + 46 <= |b| && !Signed(b, pos, 1, 2) ==> R.EntryAt(b, pos) == R.Stop(R.ErrFormat)
    ensures pos + 46 <= |b| && Signed(b, pos, 1, 2) && |b| < pos + 46 + Two(b, pos + 28) + Two(b, pos + 30) + Two(b, pos + 32) ==>
      R.EntryAt(b, pos) == R.Stop(if |b| == pos + 46 then R.ErrEOF else R.ErrUnexpectedEOF)
  {
    hide R.WithTail, R.FixedPart, U16At, U32At, Two, Signed;
    if pos + 46 <= |b| {
      FixedNumbers(b, pos);
    }
  }

  /** Reading an entry comes down to its tail: name, extra field and comment. */
  lemma TailDecides(b: seq<byte>, pos: nat, n: nat, e: nat, c: nat)
    requires pos + 46 + n + e + c <= |b| && Signed(b, pos, 1, 2)
    requires n == Two(b, pos + 28) && e == Two(b, pos + 30) && c == Two(b, pos + 32)
    ensures R.EntryAt(b, pos) ==
      match R.WithTail(R.FixedPart(b[pos..][..46]), b[pos + 46..][..n + e + c], n, e)
      case None => R.Stop(R.ErrFormat)
      case Some(f) => R.Entry(f, pos + 46 + n + e + c)
  {
    hide R.WithTail, R.FixedPart, U16At, U32At, Two, Signed;
    FixedNumbers(b, pos);
  }

  /** What is still asked of the extra field. */
  function Asked(b: seq<byte>, pos: nat): R.Scan
    requires pos + 46 <= |b|
  {
    R.Scan(Four(b, pos + 24) == 0xffff_ffff, Four(b, pos + 20) == 0xffff_ffff, Four(b, pos + 42) == 0xffff_ffff,
           Four(b, pos + 24), Four(b, pos + 20), Four(b, pos + 42))
  }

  lemma TailAsRead(b: seq<byte>, pos: nat, n: nat, e: nat, c: nat)
    requires pos + 46 + n + e + c <= |b|
    ensures R.WithTail(R.FixedPart(b[pos..][..46]), b[pos + 46..][..n + e + c], n, e) ==
      match R.ScanExtras(Asked(b, pos), b[pos + 46 + n..][..e])
      case None => None
      case Some(t) => if t.needC || t.needO then None else Some(FileOf(b, pos, n, e, c, t.usize, t.csize, t.offset))
  {
    hide R.ScanExtras, R.FixedPart, Two, Four;
    FixedFile(b, pos);
    var d, tail := b[pos + 46..][..n + e + c], b[pos + 46..];
    assert d[..n] == tail[..n] && d[n..n + e] == tail[n..][..e] == b[pos + 46 + n..][..e] && d[n + e..] == tail[n + e..][..c];
  }

  /** An entry with what a zip64 block has to tell: size, compressed size and offset, in this order, eight
      bytes for each whose place in the fixed part has all bits set. */
  function WideEntry(b: seq<byte>, pos: nat, n: nat, e: nat, c: nat, f: seq<byte>): R.Outcome
    requires pos + 46 + n + e + c <= |b|
  {
    var usize, csize, offset := Four(b, pos + 24), Four(b, pos + 20), Four(b, pos + 42);
    var at1 := if usize == 0xffff_ffff then 8 else 0;
    var at2 := at1 + if csize == 0xffff_ffff then 8 else 0;
    var at3 := at2 + if offset == 0xffff_ffff then 8 else 0;
    if |f| < at3 then R.Stop(R.ErrFormat)
    else
      var file := FileOf(b, pos, n, e, c,
                         if usize == 0xffff_ffff then Eight(f, 0) else usize,
                         if csize == 0xffff_ffff then Eight(f, at1) else csize,
                         if offset == 0xffff_ffff then Signed64(Eight(f, at2)) else offset);
      R.Entry(file, pos + 46 + n + e + c)
  }

  /** What is read at a position of the directory with a signature and a whole entry behind it: its
      fields are those in the fixed part, but size, compressed size and offset come, where all bits are set
      there, from the first zip64 block of the extra field. That block must have room for what is asked of
      it; without one, only the size may have all bits set. */
  lemma EntryRead(b: seq<byte>, pos: nat) returns (bs: seq<Block>, rest: seq<byte>)
    requires pos + 46 <= |b| && Signed(b, pos, 1, 2)
    requires pos + 46 + Two(b, pos + 28) + Two(b, pos + 30) + Two(b, pos + 32) <= |b|
    ensures BlocksAt(b[pos + 46 + Two(b, pos + 28)..][..Two(b, pos + 30)], bs, rest) && NoBlock(rest)
    ensures var n, e, c := Two(b, pos + 28), Two(b, pos + 30), Two(b, pos + 32);
      var usize, csize, offset := Four(b, pos + 24), Four(b, pos + 20), Four(b, pos + 42);
      var next := pos + 46 + n + e + c;
      && ((forall k :: 0 <= k < |bs| ==> bs[k].kind != 1) ==>
            R.EntryAt(b, pos) ==
              if csize == 0xffff_ffff || offset == 0xffff_ffff then R.Stop(R.ErrFormat)
              else R.Entry(FileOf(b, pos, n, e, c, usize, csize, offset), next))
      && (forall i: nat | FirstWide(bs, i) :: R.EntryAt(b, pos) == WideEntry(b, pos, n, e, c, bs[i].data))
  {
    hide R.EntryAt, R.WithTail, R.FixedPart, R.ScanExtras, R.TakeZip64, BlocksAt, Two, Four, Eight, Signed, FileOf;
    var n, e, c := Two(b, pos + 28), Two(b, pos + 30), Two(b, pos + 32);
    var extra := b[pos + 46 + n..][..e];
    bs, rest := InBlocks(extra);
    TailDecides(b, pos, n, e, c);
    TailAsRead(b, pos, n, e, c);
    ScansFirst(Asked(b, pos), extra, bs, rest);
    forall i: nat | FirstWide(bs, i)
      ensures R.EntryAt(b, pos) == WideEntry(b, pos, n, e, c, bs[i].data)
    {
      TakesInOrder(Asked(b, pos), bs[i].data);
    }
  }

  // ---------- contents ----------

  /** Where the content of an entry starts: behind the local header at its offset, with the lengths of name
      and extra field that this header tells. */
  lemma ContentRead(b: seq<byte>, f: R.File)
    ensures R.ContentStart(b, f) ==
      if f.headerOffset < 0 then R.Err(R.ErrNegativeOffset)
      else if |b| < f.headerOffset + 30 then R.Err(R.ErrEOF)
      else if !Signed(b, f.headerOffset, 3, 4) then R.Err(R.ErrFormat)
      else R.Ok(f.headerOffset + 30 + Two(b, f.headerOffset + 26) + Two(b, f.headerOffset + 28))
  {
    hide U16At, U32At, Two, Four, Signed;
    if 0 <= f.headerOffset <= |b| - 30 {
      var fixed := b[f.headerOffset..][..30];
      assert Has(b, f.headerOffset, fixed);
      FieldBytes(b, f.headerOffset, fixed, 0);
      FieldBytes(b, f.headerOffset, fixed, 26);
      FieldBytes(b, f.headerOffset, fixed, 28);
      SignedIff(b, f.headerOffset, 3, 4);
    }
  }

  // ---------- the whole directory ----------

  /** Entries one after another from pos on, each where the one before it ends, and nothing readable
      behind the last. */
  ghost predicate Chain(b: seq<byte>, pos: nat, files: seq<R.File>, stop: R.ReadError)
    decreases |files|
  {
    match R.EntryAt(b, pos)
    case Stop(e) => files == [] && stop == e
    case Entry(f, next) => files != [] && files[0] == f && Chain(b, next, files[1..], stop)
  }

  lemma {:induction false} ChainRead(b: seq<byte>, pos: nat)
    requires pos <= |b|
    ensures Chain(b, pos, R.EntriesAt(b, pos).0, R.EntriesAt(b, pos).1)
    decreases |b| - pos
  {
    hide R.EntryAt;
    match R.EntryAt(b, pos)
    case Stop(e) =>
    case Entry(f, next) =>
      ChainRead(b, next);
      var rest := R.EntriesAt(b, next).0;
      assert ([f] + rest)[1..] == rest;
  }

  /** Opening any bytes: the end record, room for the entries it tells, and the entries up to the first
      that cannot be read. That must be for want of a signature or in the middle of an entry, and their
      number right modulo 65536. */
  lemma OpenRead(b: seq<byte>, room: nat) returns (files: seq<R.File>, stop: R.ReadError)
    ensures R.ReadEnd(b).Err? ==> R.Open(b, room) == R.Err(R.ReadEnd(b).error)
    ensures R.ReadEnd(b).Ok? ==>
      var d := R.ReadEnd(b).value;
      && d.offset < |b| && Chain(b, d.offset, files, stop)
      && R.Open(b, room) ==
           if d.records > room then R.Err(R.Panicked)
           else if (stop == R.ErrFormat || stop == R.ErrUnexpectedEOF) && (|files| - d.records) % 0x1_0000 == 0 then
             R.Ok(R.Contents(files, d.comment))
           else R.Err(stop)
  {
    hide R.EntryAt, R.ReadEnd, R.EntriesAt, Chain;
    files, stop := [], R.ErrFormat;
    if R.ReadEnd(b).Ok? {
      R.EndInside(b);
      var d := R.ReadEnd(b).value;
      ChainRead(b, d.offset);
      files, stop := R.EntriesAt(b, d.offset).0, R.EntriesAt(b, d.offset).1;
      SameRemainder(|files|, d.records);
    }
  }

  lemma SameRemainder(m: nat, n: nat)
    ensures ToUint16(m) == ToUint16(n) <==> (m - n) % 0x1_0000 == 0
  {
  }
}
