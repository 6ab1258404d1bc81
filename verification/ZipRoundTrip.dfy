/** The reader inverts the writer: opening a complete archive gives back its entries, in the plain
    and in the zip64 form, and finds each content where the writer put it. */
module ZipRoundTrip {
  import opened Bytes
  import opened Numbers
  import opened Options
  import opened ZipFormat
  import opened ZipReader

  // ---------- integers inside slices ----------

  lemma AtShift(b: seq<byte>, i: nat, n: nat, j: nat, w: nat)
    requires i + n <= |b| && j + w <= n
    ensures At(b[i..][..n], j, w) == At(b, i + j, w)
  {
    var x := b[i..][..n];
    assert forall k :: 0 <= k < w ==> x[j..][k] == x[j + k] == b[i + j + k] == b[i + j..][k];
    assert x[j..][..w] == b[i + j..][..w];
  }

  /** `b` has the bytes `s` at position `i`. */
  predicate Has(b: seq<byte>, i: nat, s: seq<byte>) {
    i + |s| <= |b| && b[i..][..|s|] == s
  }

  lemma HasParts(b: seq<byte>, i: nat, s: seq<byte>, t: seq<byte>)
    ensures Has(b, i, s + t) <==> Has(b, i, s) && Has(b, i + |s|, t)
  {
    if i + |s| + |t| <= |b| {
      var x, y, z := b[i..][..|s| + |t|], b[i..][..|s|], b[i + |s|..][..|t|];
      assert x == y + z by {
        assert forall k :: 0 <= k < |t| ==> x[|s| + k] == b[i + |s| + k] == z[k];
      }
      assert (y + z)[..|s|] == y && (y + z)[|s|..] == z;
      assert (s + t)[..|s|] == s && (s + t)[|s|..] == t;
    }
  }

  /** The last integer of a record at position `i`, and the rest of the record. */
  lemma Last(r: Record, b: seq<byte>, i: nat)
    requires r.Put? && r.Fits() && Has(b, i, r.Bytes())
    ensures r.front.Fits() && Has(b, i, r.front.Bytes())
    ensures r.Size() == r.front.Size() + r.width && i + r.Size() <= |b|
    ensures At(b, i + r.front.Size(), r.width) == r.value
  {
    HasParts(b, i, r.front.Bytes(), LE(r.width, r.value));
    ValueOfLE(r.width, r.value);
  }

  // ---------- records ----------

  /** The later fields of a directory entry; its first ones are left in `front`. */
  lemma ReadsDirectoryEnd(h: FileHeader, offset: nat, b: seq<byte>) returns (front: Record)
    requires b == DirectoryRecord(h, offset).Bytes() && |b| == DIRECTORY_HEADER_LEN
    ensures front == Nil.U32(DIRECTORY_HEADER_SIGNATURE).U16(h.creatorVersion).U16(h.readerVersion)
      .U16(h.flags).U16(h.compression).U16(h.modifiedTime).U16(h.modifiedDate)
    ensures front.Size() == 16 && front.Fits() && Has(b, 0, front.Bytes())
    ensures U32At(b, 16) == h.crc32
    ensures U32At(b, 20) == (if Entry64(h, offset) then UINT32_MAX else h.compressedSize)
    ensures U32At(b, 24) == (if Entry64(h, offset) then UINT32_MAX else h.uncompressedSize)
    ensures U16At(b, 28) == ToUint16(|h.name|)
    ensures U16At(b, 30) == ToUint16(|DirectoryExtra(h, offset)|)
    ensures U16At(b, 32) == ToUint16(|h.comment|)
    ensures U32At(b, 38) == h.externalAttrs && U32At(b, 42) == Offset32(offset)
  {
    hide At, LE, DirectoryExtra;
    var r16 := DirectoryRecord(h, offset);
    assert Has(b, 0, r16.Bytes());
    var r15 := Peeled(r16, b, 0);
    var r14 := Peeled(r15, b, 0);
    var r13 := Peeled(r14, b, 0);
    var r12 := Peeled(r13, b, 0);
    var r11 := Peeled(r12, b, 0);
    var r10 := Peeled(r11, b, 0);
    var r9 := Peeled(r10, b, 0);
    var r8 := Peeled(r9, b, 0);
    front := Peeled(r8, b, 0);
  }

  lemma ReadsDirectoryRecord(h: FileHeader, offset: nat, b: seq<byte>)
    requires b == DirectoryRecord(h, offset).Bytes() && |b| == DIRECTORY_HEADER_LEN
    ensures U32At(b, 0) == DIRECTORY_HEADER_SIGNATURE
    ensures U16At(b, 28) == ToUint16(|h.name|)
    ensures U16At(b, 30) == ToUint16(|DirectoryExtra(h, offset)|)
    ensures U16At(b, 32) == ToUint16(|h.comment|)
    ensures var wide := Entry64(h, offset);
      FixedPart(b) == File([], [], [], h.creatorVersion, h.readerVersion, h.flags, h.compression,
        h.modifiedTime, h.modifiedDate, h.crc32,
        if wide then UINT32_MAX else h.compressedSize, if wide then UINT32_MAX else h.uncompressedSize,
        if wide then UINT32_MAX else h.compressedSize, if wide then UINT32_MAX else h.uncompressedSize,
        h.externalAttrs, Offset32(offset))
  {
    hide At, LE, DirectoryRecord, DirectoryExtra;
    var r7 := ReadsDirectoryEnd(h, offset, b);
    var r6 := Peeled(r7, b, 0);
    var r5 := Peeled(r6, b, 0);
    var r4 := Peeled(r5, b, 0);
    var r3 := Peeled(r4, b, 0);
    var r2 := Peeled(r3, b, 0);
    var r1 := Peeled(r2, b, 0);
    var r0 := Peeled(r1, b, 0);
  }

  lemma Peeled(r: Record, b: seq<byte>, i: nat) returns (front: Record)
    requires r.Put? && r.Fits() && Has(b, i, r.Bytes())
    ensures front == r.front && front.Fits() && Has(b, i, front.Bytes())
    ensures r.Size() == front.Size() + r.width && i + r.Size() <= |b|
    ensures At(b, i + front.Size(), r.width) == r.value
  {
    Last(r, b, i);
    front := r.front;
  }

  lemma ReadsLocalRecord(h: FileHeader, b: seq<byte>)
    requires b == LocalRecord(h).Bytes() && |b| == FILE_HEADER_LEN
    ensures U32At(b, 0) == FILE_HEADER_SIGNATURE
    ensures U16At(b, 26) == ToUint16(|h.name|) && U16At(b, 28) == ToUint16(|h.extra|)
  {
    hide At, LE;
    var r11 := LocalRecord(h);
    assert Has(b, 0, r11.Bytes());
    var r10 := Peeled(r11, b, 0);
    var r9 := Peeled(r10, b, 0);
    var r8 := Peeled(r9, b, 0);
    var r7 := Peeled(r8, b, 0);
    var r6 := Peeled(r7, b, 0);
    var r5 := Peeled(r6, b, 0);
    var r4 := Peeled(r5, b, 0);
    var r3 := Peeled(r4, b, 0);
    var r2 := Peeled(r3, b, 0);
    var r1 := Peeled(r2, b, 0);
    var r0 := Peeled(r1, b, 0);
  }

  lemma ReadsZip64Record(h: FileHeader, offset: nat, b: seq<byte>)
    requires b == Zip64Record(h, offset).Bytes() && |b| == 28
    ensures U16At(b, 0) == ZIP64_EXTRA_ID && U16At(b, 2) == 24
    ensures U64At(b, 4) == h.uncompressedSize64 && U64At(b, 12) == h.compressedSize64
    ensures U64At(b, 20) == ToUint64(offset)
  {
    hide At, LE;
    var r5 := Zip64Record(h, offset);
    assert Has(b, 0, r5.Bytes());
    var r4 := Peeled(r5, b, 0);
    var r3 := Peeled(r4, b, 0);
    var r2 := Peeled(r3, b, 0);
    var r1 := Peeled(r2, b, 0);
    var r0 := Peeled(r1, b, 0);
  }

  lemma ReadsStampRecord(s: Stamp, b: seq<byte>)
    requires b == StampRecord(s).Bytes() && |b| == 9
    ensures U16At(b, 0) == EXT_TIME_EXTRA_ID && U16At(b, 2) == 5
  {
    hide At, LE;
    var r4 := StampRecord(s);
    assert Has(b, 0, r4.Bytes());
    var r3 := Peeled(r4, b, 0);
    var r2 := Peeled(r3, b, 0);
    var r1 := Peeled(r2, b, 0);
    var r0 := Peeled(r1, b, 0);
  }

  lemma ReadsEndFields(records: u16, size: u32, offset: u32, b: seq<byte>)
    requires b == EndRecord(records, size, offset, []).Bytes() && |b| == DIRECTORY_END_LEN
    ensures U16At(b, 20) == 0 && U16At(b, 10) == records && U32At(b, 12) == size && U32At(b, 16) == offset
    ensures Has(b, 0, Nil.U32(DIRECTORY_END_SIGNATURE).Bytes())
  {
    hide At, LE;
    var r7 := EndRecord(records, size, offset, []);
    assert Has(b, 0, r7.Bytes());
    var r6 := Peeled(r7, b, 0);
    var r5 := Peeled(r6, b, 0);
    var r4 := Peeled(r5, b, 0);
    var r3 := Peeled(r4, b, 0);
    var r2 := Peeled(r3, b, 0);
    var r1 := Peeled(r2, b, 0);
  }

  lemma SignatureBytes(b: seq<byte>)
    requires Has(b, 0, Nil.U32(DIRECTORY_END_SIGNATURE).Bytes())
    ensures |b| >= 4 && b[0] == 0x50 && b[1] == 0x4b && b[2] == 0x05 && b[3] == 0x06
  {
    hide LE;
    EndSignature();
    assert Nil.U32(DIRECTORY_END_SIGNATURE).Bytes() == [] + LE(4, DIRECTORY_END_SIGNATURE);
    assert b[0..][..4] == [0x50, 0x4b, 0x05, 0x06];
  }

  lemma ReadsEndRecord(records: u16, size: u32, offset: u32, b: seq<byte>)
    requires b == EndRecord(records, size, offset, []).Bytes() && |b| == DIRECTORY_END_LEN
    ensures EndAt(b, 0)
    ensures End32(b) == Ok(DirectoryEnd(records, size, offset, []))
  {
    hide At, LE, Has, EndRecord;
    ReadsEndFields(records, size, offset, b);
    SignatureBytes(b);
  }

  lemma EndSignature()
    ensures LE(4, DIRECTORY_END_SIGNATURE) == [0x50, 0x4b, 0x05, 0x06]
  {
    assert LE(4, 0x06054b50) == [0x50] + LE(3, 0x06054b);
    assert LE(3, 0x06054b) == [0x4b] + LE(2, 0x0605);
    assert LE(2, 0x0605) == [0x05] + LE(1, 0x06);
    assert LE(1, 0x06) == [0x06];
  }

  const WIDE_LEN := 76

  lemma ReadsWideRecords(records: nat, size: nat, offset: nat, b: seq<byte>)
    requires b == LocatorRecord(End64Record(records, size, offset), offset + size).Bytes() && |b| == WIDE_LEN
    ensures U32At(b, 0) == DIRECTORY64_END_SIGNATURE
    ensures U64At(b, 32) == ToUint64(records) && U64At(b, 40) == ToUint64(size) && U64At(b, 48) == ToUint64(offset)
    ensures U32At(b, 56) == DIRECTORY64_LOC_SIGNATURE && U32At(b, 60) == 0
    ensures U64At(b, 64) == ToUint64(offset + size) && U32At(b, 72) == 1
  {
    hide At, LE, ToUint64;
    var r14 := LocatorRecord(End64Record(records, size, offset), offset + size);
    assert Has(b, 0, r14.Bytes());
    var r13 := Peeled(r14, b, 0);
    var r12 := Peeled(r13, b, 0);
    var r11 := Peeled(r12, b, 0);
    var r10 := Peeled(r11, b, 0);
    var r9 := Peeled(r10, b, 0);
    var r8 := Peeled(r9, b, 0);
    var r7 := Peeled(r8, b, 0);
    var r6 := Peeled(r7, b, 0);
    var r5 := Peeled(r6, b, 0);
    var r4 := Peeled(r5, b, 0);
    var r3 := Peeled(r4, b, 0);
    var r2 := Peeled(r3, b, 0);
    var r1 := Peeled(r2, b, 0);
    var r0 := Peeled(r1, b, 0);
  }

  // ---------- extra fields ----------

  /** Complete blocks only, none of them a zip64 block. */
  predicate WellFormedExtra(e: seq<byte>)
    decreases |e|
  {
    || e == []
    || (&& |e| >= 4 && U16At(e, 0) != ZIP64_EXTRA_ID
        && 4 + U16At(e, 2) <= |e|
        && WellFormedExtra(e[4 + U16At(e, 2)..]))
  }

  lemma {:induction false} ScanSkips(s: Scan, e: seq<byte>, tail: seq<byte>)
    requires WellFormedExtra(e)
    ensures ScanExtras(s, e + tail) == ScanExtras(s, tail)
    decreases |e|
  {
    if e == [] {
      assert e + tail == tail;
    } else {
      var n := 4 + U16At(e, 2);
      assert (e + tail)[0..][..2] == e[0..][..2] && (e + tail)[2..][..2] == e[2..][..2];
      assert (e + tail)[n..] == e[n..] + tail;
      ScanSkips(s, e[n..], tail);
    }
  }

  lemma StampIsWellFormed(s: Stamp)
    ensures |StampRecord(s).Bytes()| == 9 && WellFormedExtra(StampRecord(s).Bytes())
  {
    var b := StampRecord(s).Bytes();
    assert |b| == 9;
    ReadsStampRecord(s, b);
    assert b[9..] == [];
  }

  lemma ScansZip64(h: FileHeader, offset: nat, s: Scan)
    requires offset < INT64_BOUND && s.needU && s.needC
    ensures ScanExtras(s, Zip64Record(h, offset).Bytes()) == Some(
      s.(needU := false, needC := false, needO := false,
         usize := h.uncompressedSize64, csize := h.compressedSize64,
         offset := if s.needO then offset else s.offset))
  {
    var b := Zip64Record(h, offset).Bytes();
    assert |b| == 28;
    ReadsZip64Record(h, offset, b);
    var f := b[4..][..24];
    AtShift(b, 4, 24, 0, 8);
    AtShift(b, 4, 24, 8, 8);
    AtShift(b, 4, 24, 16, 8);
    assert f[8..][0..][..8] == f[8..][..8] && f[8..][8..] == f[16..] && f[16..][0..][..8] == f[16..][..8];
    assert U64At(f[8..], 0) == U64At(f, 8) && U64At(f[16..], 0) == U64At(f, 16);
    assert b[28..] == [];
  }

  // ---------- one entry ----------

  /** What CreateHeader makes, and what a caller has to respect: lengths that fit their fields,
      also with a zip64 block, and a well-formed extra field. */
  predicate Readable(h: FileHeader) {
    && |h.name| <= UINT16_MAX && |h.extra| + 28 <= UINT16_MAX && |h.comment| <= UINT16_MAX
    && WellFormedExtra(h.extra)
    && h.compressedSize == Offset32(h.compressedSize64)
    && h.uncompressedSize == Offset32(h.uncompressedSize64)
  }

  /** A written entry as the reader should see it. */
  function AsRead(h: FileHeader, offset: nat): File {
    var wide := Entry64(h, offset);
    File(h.name, DirectoryExtra(h, offset), h.comment, h.creatorVersion, h.readerVersion, h.flags,
         h.compression, h.modifiedTime, h.modifiedDate, h.crc32,
         if wide then UINT32_MAX else h.compressedSize, if wide then UINT32_MAX else h.uncompressedSize,
         h.compressedSize64, h.uncompressedSize64, h.externalAttrs, offset)
  }

  lemma TailAsRead(h: FileHeader, offset: nat, f: File, d: seq<byte>)
    requires Readable(h) && offset < INT64_BOUND
    requires var g := AsRead(h, offset);
      f == g.(name := [], extra := [], comment := [], compressedSize64 := g.compressedSize,
              uncompressedSize64 := g.uncompressedSize, headerOffset := Offset32(offset))
    requires d == h.name + DirectoryExtra(h, offset) + h.comment
    ensures WithTail(f, d, |h.name|, |DirectoryExtra(h, offset)|) == Some(AsRead(h, offset))
  {
    var n, e := |h.name|, |DirectoryExtra(h, offset)|;
    assert d[..n] == h.name && d[n..n + e] == DirectoryExtra(h, offset) && d[n + e..] == h.comment;
    var s := Scan(f.uncompressedSize == UINT32_MAX, f.compressedSize == UINT32_MAX,
                  f.headerOffset == UINT32_MAX, f.uncompressedSize64, f.compressedSize64, f.headerOffset);
    if Entry64(h, offset) {
      ScanSkips(s, h.extra, Zip64Record(h, offset).Bytes());
      ScansZip64(h, offset, s);
    } else {
      ScanSkips(s, h.extra, []);
      assert h.extra + [] == h.extra;
    }
  }

  function Tail(h: FileHeader, offset: nat): seq<byte> {
    h.name + DirectoryExtra(h, offset) + h.comment
  }

  lemma EntryParts(b: seq<byte>, pos: nat, h: FileHeader, offset: nat)
    requires Has(b, pos, DirectoryHeader(h, offset))
    ensures |DirectoryHeader(h, offset)| == DIRECTORY_HEADER_LEN + |Tail(h, offset)|
    ensures ReadFull(b, pos, DIRECTORY_HEADER_LEN) == Ok(DirectoryRecord(h, offset).Bytes())
    ensures ReadFull(b, pos + DIRECTORY_HEADER_LEN, |Tail(h, offset)|) == Ok(Tail(h, offset))
  {
    hide DirectoryExtra;
    var r := DirectoryRecord(h, offset);
    assert r.Size() == DIRECTORY_HEADER_LEN;
    assert DirectoryHeader(h, offset) == r.Bytes() + Tail(h, offset);
    HasParts(b, pos, r.Bytes(), Tail(h, offset));
  }

  /** Reading an entry where one was written gives that entry, and stops right after it. */
  lemma EntryAsRead(b: seq<byte>, pos: nat, h: FileHeader, offset: nat)
    requires Readable(h) && offset < INT64_BOUND && Has(b, pos, DirectoryHeader(h, offset))
    ensures EntryAt(b, pos) == Entry(AsRead(h, offset), pos + |DirectoryHeader(h, offset)|)
  {
    hide FixedPart, WithTail, AsRead, Has, U16At, U32At, DirectoryHeader, DirectoryRecord, ReadFull;
    EntryParts(b, pos, h, offset);
    assert Zip64Record(h, offset).Size() == 28;
    ReadsDirectoryRecord(h, offset, DirectoryRecord(h, offset).Bytes());
    FixedAsRead(h, offset, DirectoryRecord(h, offset).Bytes());
    TailAsRead(h, offset, FixedPart(DirectoryRecord(h, offset).Bytes()), Tail(h, offset));
  }

  lemma FixedAsRead(h: FileHeader, offset: nat, b: seq<byte>)
    requires b == DirectoryRecord(h, offset).Bytes() && |b| == DIRECTORY_HEADER_LEN
    ensures var g := AsRead(h, offset);
      FixedPart(b) == g.(name := [], extra := [], comment := [], compressedSize64 := g.compressedSize,
        uncompressedSize64 := g.uncompressedSize, headerOffset := Offset32(offset))
  {
    hide FixedPart;
    ReadsDirectoryRecord(h, offset, b);
  }

  // ---------- the directory ----------

  predicate ReadableDirectory(dir: seq<Header>) {
    forall e <- dir :: Readable(e.file) && e.offset < INT64_BOUND
  }

  function AllAsRead(dir: seq<Header>): (fs: seq<File>)
    ensures |fs| == |dir|
    ensures forall i :: 0 <= i < |dir| ==> fs[i] == AsRead(dir[i].file, dir[i].offset)
  {
    seq(|dir|, i requires 0 <= i < |dir| => AsRead(dir[i].file, dir[i].offset))
  }

  lemma {:induction false} DirectoryHas(b: seq<byte>, pos: nat, dir: seq<Header>, i: nat)
    requires Has(b, pos, Directory(dir)) && i < |dir|
    ensures Has(b, pos + |Directory(dir[..i])|, DirectoryHeader(dir[i].file, dir[i].offset))
    ensures |Directory(dir[..i + 1])| == |Directory(dir[..i])| + |DirectoryHeader(dir[i].file, dir[i].offset)|
  {
    hide DirectoryHeader, Has;
    var n := |dir| - 1;
    HasParts(b, pos, Directory(dir[..n]), DirectoryHeader(dir[n].file, dir[n].offset));
    if i < n {
      assert dir[..n][..i] == dir[..i] && dir[..n][..i + 1] == dir[..i + 1];
      DirectoryHas(b, pos, dir[..n], i);
    } else {
      assert dir[..i + 1] == dir;
    }
  }

  /** Reading entries until one fails gives exactly the written ones, in order. */
  lemma {:induction false} EntriesAsRead(b: seq<byte>, pos: nat, dir: seq<Header>, i: nat, e: ReadError)
    requires Has(b, pos, Directory(dir)) && ReadableDirectory(dir) && i <= |dir|
    requires EntryAt(b, pos + |Directory(dir)|) == Stop(e)
    ensures pos + |Directory(dir[..i])| <= |b|
    ensures EntriesAt(b, pos + |Directory(dir[..i])|) == (AllAsRead(dir)[i..], e)
    decreases |dir| - i
  {
    hide DirectoryHeader, EntryAt, EntriesAt, AsRead, Readable, Has, Directory, AllAsRead, ReadableDirectory;
    if i == |dir| {
      assert dir[..i] == dir;
      HasInside(b, pos, Directory(dir));
      NoEntries(b, pos + |Directory(dir)|, e);
    } else {
      DirectoryHas(b, pos, dir, i);
      HasInside(b, pos + |Directory(dir[..i])|, DirectoryHeader(dir[i].file, dir[i].offset));
      ReadableAt(dir, i);
      EntryAsRead(b, pos + |Directory(dir[..i])|, dir[i].file, dir[i].offset);
      EntriesAsRead(b, pos, dir, i + 1, e);
      EntryThenRest(b, pos + |Directory(dir[..i])|);
      assert AllAsRead(dir)[i..] == [AllAsRead(dir)[i]] + AllAsRead(dir)[i + 1..];
    }
  }

  lemma ReadableAt(dir: seq<Header>, i: nat)
    requires ReadableDirectory(dir) && i < |dir|
    ensures Readable(dir[i].file) && dir[i].offset < INT64_BOUND
  {
    hide Readable;
  }

  lemma HasInside(b: seq<byte>, pos: nat, s: seq<byte>)
    requires Has(b, pos, s)
    ensures pos + |s| <= |b|
  {
  }

  lemma NoEntries(b: seq<byte>, pos: nat, e: ReadError)
    requires pos <= |b| && EntryAt(b, pos) == Stop(e)
    ensures EntriesAt(b, pos) == ([], e)
  {
  }

  lemma EntryThenRest(b: seq<byte>, pos: nat)
    requires pos <= |b| && EntryAt(b, pos).Entry?
    ensures var o := EntryAt(b, pos);
      o.next <= |b| && EntriesAt(b, pos) == ([o.file] + EntriesAt(b, o.next).0, EntriesAt(b, o.next).1)
  {
    hide EntryAt;
  }

  lemma {:induction false} DirectoryIsLong(dir: seq<Header>)
    ensures |Directory(dir)| >= |dir|
  {
    if dir != [] {
      var e := dir[|dir| - 1];
      DirectoryIsLong(dir[..|dir| - 1]);
      assert DirectoryRecord(e.file, e.offset).Size() == DIRECTORY_HEADER_LEN;
    }
  }

  // ---------- the end records ----------

  /** The zip64 records, as they precede the end record. */
  function WideRecords(records: nat, size: nat, offset: nat): (b: seq<byte>) {
    LocatorRecord(End64Record(records, size, offset), offset + size).Bytes()
  }

  /** The 32-bit end record of a directory. */
  function Narrow(records: nat, size: nat, offset: nat): DirectoryEnd {
    if ZipFormat.End64(records, size, offset) then DirectoryEnd(UINT16_MAX, UINT32_MAX, UINT32_MAX, [])
    else DirectoryEnd(records, size, offset, [])
  }

  lemma EndRecordLast(b: seq<byte>, records: nat, size: nat, offset: nat)
    requires |b| >= DIRECTORY_END_LEN
    requires var d := Narrow(records, size, offset);
      Has(b, |b| - DIRECTORY_END_LEN, EndRecord(d.records, d.size, d.offset, []).Bytes())
    ensures EndOffset(b) == Ok(|b| - DIRECTORY_END_LEN)
    ensures End32(b[|b| - DIRECTORY_END_LEN..]) == Ok(Narrow(records, size, offset))
  {
    hide LE, At;
    var d, end := Narrow(records, size, offset), |b| - DIRECTORY_END_LEN;
    var r := EndRecord(d.records, d.size, d.offset, []);
    assert r.Size() == DIRECTORY_END_LEN;
    assert b[end..] == r.Bytes();
    ReadsEndRecord(d.records, d.size, d.offset, b[end..]);
    var n := Min(SMALL_BLOCK, |b|);
    var block, i := b[|b| - n..], n - DIRECTORY_END_LEN;
    assert block[i..] == b[end..];
    EndAtSuffix(block, i);
  }

  lemma EndAtSuffix(b: seq<byte>, i: nat)
    requires i + DIRECTORY_END_LEN == |b| && EndAt(b[i..], 0)
    ensures EndAt(b, i)
  {
    var e := b[i..];
    assert e[0] == b[i] && e[1] == b[i + 1] && e[2] == b[i + 2] && e[3] == b[i + 3];
    assert e[20..][..2] == b[i + 20..][..2];
  }

  /** The zip64 records are found behind the directory and tell its true place and size. */
  lemma WideRecordsFound(b: seq<byte>, records: nat, size: nat, offset: nat, d: DirectoryEnd)
    requires |b| < INT64_BOUND && offset + size + WIDE_LEN + DIRECTORY_END_LEN == |b| && records < UINT64_BOUND
    requires Has(b, offset + size, WideRecords(records, size, offset))
    ensures Locator(b, |b| - DIRECTORY_END_LEN) == Some(offset + size)
    ensures ZipReader.End64(b, offset + size, d) == Ok(d.(records := records, size := size, offset := offset))
    ensures U32At(b, offset + size) == DIRECTORY64_END_SIGNATURE
  {
    hide LE, At, WideRecords;
    WideFields(b, records, size, offset);
    var p, end := offset + size, |b| - DIRECTORY_END_LEN;
    assert end - DIRECTORY64_LOC_LEN == p + 56;
    AtShift(b, p + 56, 20, 0, 4);
    AtShift(b, p + 56, 20, 4, 4);
    AtShift(b, p + 56, 20, 8, 8);
    AtShift(b, p + 56, 20, 16, 4);
    AtShift(b, p, 56, 0, 4);
    AtShift(b, p, 56, 32, 8);
    AtShift(b, p, 56, 40, 8);
    AtShift(b, p, 56, 48, 8);
  }

  lemma WideFields(b: seq<byte>, records: nat, size: nat, offset: nat)
    requires Has(b, offset + size, WideRecords(records, size, offset))
    ensures var p := offset + size;
      && |WideRecords(records, size, offset)| == WIDE_LEN && p + WIDE_LEN <= |b|
      && U32At(b, p) == DIRECTORY64_END_SIGNATURE
      && U64At(b, p + 32) == ToUint64(records) && U64At(b, p + 40) == ToUint64(size) && U64At(b, p + 48) == ToUint64(offset)
      && U32At(b, p + 56) == DIRECTORY64_LOC_SIGNATURE && U32At(b, p + 60) == 0
      && U64At(b, p + 64) == ToUint64(offset + size) && U32At(b, p + 72) == 1
  {
    hide LE, At, ToUint64;
    var p := offset + size;
    assert LocatorRecord(End64Record(records, size, offset), offset + size).Size() == WIDE_LEN;
    ReadsWideRecords(records, size, offset, WideRecords(records, size, offset));
    AtShift(b, p, 76, 0, 4);
    AtShift(b, p, 76, 32, 8);
    AtShift(b, p, 76, 40, 8);
    AtShift(b, p, 76, 48, 8);
    AtShift(b, p, 76, 56, 4);
    AtShift(b, p, 76, 60, 4);
    AtShift(b, p, 76, 64, 8);
    AtShift(b, p, 76, 72, 4);
  }

  /** An archive without zip64 records whose directory is 65535 bytes long and ends in bytes that
      look like a zip64 locator: the one case in which the reader is led astray. */
  predicate Misleading(b: seq<byte>, records: nat, size: nat, offset: nat)
    requires |b| >= DIRECTORY_END_LEN
  {
    && !ZipFormat.End64(records, size, offset)
    && size == 0xffff
    && Locator(b, |b| - DIRECTORY_END_LEN).Some?
  }

  /** The end records of a plain archive. */
  lemma PlainEndAsRead(b: seq<byte>, records: nat, size: nat, offset: nat)
    requires !ZipFormat.End64(records, size, offset)
    requires Has(b, offset + size, EndRecords(records, size, offset, []))
    requires offset + size + |EndRecords(records, size, offset, [])| == |b|
    ensures |b| == offset + size + DIRECTORY_END_LEN
    ensures ReadEnd(b) == ReadEndOf(b, Narrow(records, size, offset))
    ensures !Misleading(b, records, size, offset) ==> ReadEnd(b) == Ok(DirectoryEnd(records, size, offset, []))
  {
    hide LE, At, Locator, ZipReader.End64, End32, EndOffset;
    var e := EndRecord(records, size, offset, []);
    assert e.Size() == DIRECTORY_END_LEN;
    assert e.Bytes() + [] == e.Bytes();
    EndRecordLast(b, records, size, offset);
  }

  /** The end records of a zip64 archive: the zip64 ones, then one with escape values. */
  lemma WideEnd(b: seq<byte>, records: nat, size: nat, offset: nat)
    requires ZipFormat.End64(records, size, offset)
    requires Has(b, offset + size, EndRecords(records, size, offset, []))
    requires offset + size + |EndRecords(records, size, offset, [])| == |b|
    ensures offset + size + WIDE_LEN + DIRECTORY_END_LEN == |b|
    ensures Has(b, offset + size, WideRecords(records, size, offset))
    ensures var d := Narrow(records, size, offset);
      Has(b, |b| - DIRECTORY_END_LEN, EndRecord(d.records, d.size, d.offset, []).Bytes())
  {
    hide LE, At, Has, WideRecords;
    var d := Narrow(records, size, offset);
    var e := EndRecord(d.records, d.size, d.offset, []);
    assert e.Size() == DIRECTORY_END_LEN;
    assert e.Bytes() + [] == e.Bytes();
    WideLength(records, size, offset);
    EndsWide(records, size, offset);
    HasParts(b, offset + size, WideRecords(records, size, offset), e.Bytes());
  }

  lemma EndsWide(records: nat, size: nat, offset: nat)
    requires ZipFormat.End64(records, size, offset)
    ensures var e := EndRecord(UINT16_MAX, UINT32_MAX, UINT32_MAX, []).Bytes();
      EndRecords(records, size, offset, []) == WideRecords(records, size, offset) + e
  {
    hide LE, At, Record.Bytes;
    var e := EndRecord(UINT16_MAX, UINT32_MAX, UINT32_MAX, []).Bytes();
    assert WideRecords(records, size, offset) + e + [] == WideRecords(records, size, offset) + e;
  }

  lemma WideEndAsRead(b: seq<byte>, records: nat, size: nat, offset: nat)
    requires |b| < INT64_BOUND && records < UINT64_BOUND && ZipFormat.End64(records, size, offset)
    requires Has(b, offset + size, EndRecords(records, size, offset, []))
    requires offset + size + |EndRecords(records, size, offset, [])| == |b|
    ensures |b| == offset + size + WIDE_LEN + DIRECTORY_END_LEN
    ensures ReadEnd(b) == ReadEndOf(b, Narrow(records, size, offset)) == Ok(DirectoryEnd(records, size, offset, []))
    ensures U32At(b, offset + size) == DIRECTORY64_END_SIGNATURE
  {
    hide LE, At, Has, EndRecord, EndRecords, Locator, ZipReader.End64, WideRecords, End32, EndOffset;
    WideEnd(b, records, size, offset);
    EndRecordLast(b, records, size, offset);
    WideRecordsFound(b, records, size, offset, Narrow(records, size, offset));
  }

  /** Where the directory ends, no further entry is read. */
  lemma NoEntryAtEnd(b: seq<byte>, records: nat, size: nat, offset: nat)
    requires |b| < INT64_BOUND && records < UINT64_BOUND
    requires Has(b, offset + size, EndRecords(records, size, offset, []))
    requires offset + size + |EndRecords(records, size, offset, [])| == |b|
    ensures offset + size <= |b|
    ensures EntryAt(b, offset + size) == Stop(if ZipFormat.End64(records, size, offset) then ErrFormat else ErrUnexpectedEOF)
  {
    hide LE, At, Has, EndRecords, ReadEnd, ReadEndOf, Locator, Misleading;
    if ZipFormat.End64(records, size, offset) {
      WideEndAsRead(b, records, size, offset);
      assert U32At(b[offset + size..][..DIRECTORY_HEADER_LEN], 0) == U32At(b, offset + size) by {
        AtShift(b, offset + size, DIRECTORY_HEADER_LEN, 0, 4);
      }
    } else {
      PlainEndAsRead(b, records, size, offset);
    }
  }

  lemma EndAsRead(b: seq<byte>, records: nat, size: nat, offset: nat)
    requires |b| < INT64_BOUND && records < UINT64_BOUND
    requires Has(b, offset + size, EndRecords(records, size, offset, []))
    requires offset + size + |EndRecords(records, size, offset, [])| == |b|
    ensures |b| >= DIRECTORY_END_LEN
    ensures !Misleading(b, records, size, offset) ==> ReadEnd(b) == Ok(DirectoryEnd(records, size, offset, []))
    ensures EntryAt(b, offset + size) == Stop(if ZipFormat.End64(records, size, offset) then ErrFormat else ErrUnexpectedEOF)
    ensures ReadEnd(b) == ReadEndOf(b, Narrow(records, size, offset))
  {
    hide Has, EndRecords, ReadEnd, ReadEndOf, Locator, EntryAt;
    NoEntryAtEnd(b, records, size, offset);
    if ZipFormat.End64(records, size, offset) {
      WideEndAsRead(b, records, size, offset);
    } else {
      PlainEndAsRead(b, records, size, offset);
    }
  }

  lemma WideLength(records: nat, size: nat, offset: nat)
    ensures |WideRecords(records, size, offset)| == WIDE_LEN
  {
    assert LocatorRecord(End64Record(records, size, offset), offset + size).Size() == WIDE_LEN;
  }

  /** What the reader makes of the 32-bit end record `d` at the end of `b`. */
  function ReadEndOf(b: seq<byte>, d: DirectoryEnd): Result<DirectoryEnd>
    requires |b| >= DIRECTORY_END_LEN
  {
    var d64 :=
      if !SeeksEnd64(d) then Ok(d)
      else match Locator(b, |b| - DIRECTORY_END_LEN)
        case None => Ok(d)
        case Some(p) => ZipReader.End64(b, p, d);
    if d64.Ok? && (ToInt64(d64.value.offset) < 0 || d64.value.offset >= |b|) then Err(ErrFormat) else d64
  }

  // ---------- the archive ----------

  predicate ReadableItems(items: seq<Item>) {
    forall it <- items :: Readable(it.header) && |it.content| == it.header.compressedSize64
  }

  /** The directory of an archive: how many entries, how long, and where. */
  predicate MisleadingArchive(items: seq<Item>) {
    |Archive(items, [])| >= DIRECTORY_END_LEN
    && Misleading(Archive(items, []), |items|, |Directory(Headers(items))|, |Stream(items)|)
  }

  lemma ArchiveParts(items: seq<Item>)
    requires ReadableItems(items) && |Archive(items, [])| < INT64_BOUND
    ensures var b, dir, start := Archive(items, []), Headers(items), |Stream(items)|;
      && Has(b, 0, Stream(items)) && Has(b, start, Directory(dir))
      && ReadableDirectory(dir) && |dir| <= |Directory(dir)|
      && Has(b, start + |Directory(dir)|, EndRecords(|dir|, |Directory(dir)|, start, []))
      && start + |Directory(dir)| + |EndRecords(|dir|, |Directory(dir)|, start, [])| == |b|
  {
    hide Stream, Directory, EndRecords, Readable;
    var dir, start := Headers(items), |Stream(items)|;
    var tail := EndRecords(|dir|, |Directory(dir)|, start, []);
    var b := Archive(items, []);
    assert b == Stream(items) + (Directory(dir) + tail);
    assert Has(b, 0, b);
    HasParts(b, 0, Stream(items), Directory(dir) + tail);
    HasParts(b, start, Directory(dir), tail);
    DirectoryIsLong(dir);
    forall i | 0 <= i < |items|
      ensures OffsetOf(items, i) <= start
    {
      OffsetBound(items, i);
    }
  }

  lemma {:induction false} OffsetBound(items: seq<Item>, i: nat)
    requires i <= |items|
    ensures OffsetOf(items, i) <= |Stream(items)|
  {
    hide Member;
    if i < |items| {
      OffsetBound(items[..|items| - 1], i);
      assert items[..|items| - 1][..i] == items[..i];
    } else {
      assert items[..i] == items;
    }
  }

  /** What a reader with that much room makes of a right archive: one entry per member, in order, with
      every field as written. */
  function Reread(items: seq<Item>, room: nat): Result<Contents> {
    if |items| <= room then Ok(Contents(AllAsRead(Headers(items)), [])) else Err(Panicked)
  }

  /** Opening an archive gives its members back, unless its directory is misleading; then the outcome
      is decided by a record that was never written. */
  lemma ReadsBack(items: seq<Item>, room: nat)
    requires ReadableItems(items) && |Archive(items, [])| < INT64_BOUND
    ensures !MisleadingArchive(items) ==> Open(Archive(items, []), room) == Reread(items, room)
  {
    hide Stream, Directory, EndRecords, ReadEnd, EntryAt, Archive, AllAsRead, Readable, ReadEndOf, Has;
    var b, dir, start := Archive(items, []), Headers(items), |Stream(items)|;
    ArchiveParts(items);
    EndAsRead(b, |dir|, |Directory(dir)|, start);
    WrittenEntries(items);
  }

  /** The entries read where the directory was written. */
  lemma WrittenEntries(items: seq<Item>)
    requires ReadableItems(items) && |Archive(items, [])| < INT64_BOUND
    ensures var b, start := Archive(items, []), |Stream(items)|;
      start <= |b| && EntriesAt(b, start).0 == AllAsRead(Headers(items))
      && EntriesAt(b, start).1 in {ErrFormat, ErrUnexpectedEOF}
  {
    hide Stream, Directory, EndRecords, ReadEnd, EntryAt, Archive, AllAsRead, Readable, ReadEndOf, Has;
    var b, dir, start := Archive(items, []), Headers(items), |Stream(items)|;
    var size := |Directory(dir)|;
    ArchiveParts(items);
    EndAsRead(b, |dir|, size, start);
    var e := if ZipFormat.End64(|dir|, size, start) then ErrFormat else ErrUnexpectedEOF;
    EntriesAsRead(b, start, dir, 0, e);
    assert dir[..0] == [];
    NoDirectory();
    assert AllAsRead(dir)[0..] == AllAsRead(dir);
  }

  lemma NoDirectory()
    ensures Directory([]) == []
  {
  }

  /** Whether a zip64 end record happens to be where the bytes before the end record point. */
  predicate StrayRecord(b: seq<byte>) {
    && |b| >= DIRECTORY_END_LEN
    && var p := Locator(b, |b| - DIRECTORY_END_LEN);
    && p.Some? && p.value + DIRECTORY64_END_LEN <= |b| && U32At(b, p.value) == DIRECTORY64_END_SIGNATURE
  }

  lemma Misled(b: seq<byte>, records: nat, size: nat, offset: nat)
    requires |b| >= DIRECTORY_END_LEN && Misleading(b, records, size, offset) && !StrayRecord(b)
    ensures ReadEndOf(b, Narrow(records, size, offset)).Err?
  {
    hide Locator, LE, At;
    var p := Locator(b, |b| - DIRECTORY_END_LEN).value;
    if p + DIRECTORY64_END_LEN <= |b| {
      AtShift(b, p, DIRECTORY64_END_LEN, 0, 4);
    }
  }

  /** A misleading directory makes the reader follow its locator; without a zip64 end record at
      that place, opening fails. So for archives that do not happen to hold such a record there,
      opening gives the members back exactly if the directory is not misleading and there is room. */
  lemma ReadsBackIffNotMisleading(items: seq<Item>, room: nat)
    requires ReadableItems(items) && |Archive(items, [])| < INT64_BOUND && !StrayRecord(Archive(items, []))
    ensures Open(Archive(items, []), room) == Ok(Contents(AllAsRead(Headers(items)), []))
      <==> !MisleadingArchive(items) && |items| <= room
  {
    hide Stream, Directory, EndRecords, ReadEnd, EntryAt, Archive, Readable, Has, ReadEndOf, Misleading, StrayRecord, AllAsRead;
    ReadsBack(items, room);
    if MisleadingArchive(items) {
      var b, dir, start := Archive(items, []), Headers(items), |Stream(items)|;
      ArchiveParts(items);
      EndAsRead(b, |dir|, |Directory(dir)|, start);
      Misled(b, |dir|, |Directory(dir)|, start);
    }
  }

  /** What the stray record tells: the number of entries and the place of the directory. */
  function StrayValues(b: seq<byte>): (u64, u64)
    requires StrayRecord(b)
  {
    var r := b[Locator(b, |b| - DIRECTORY_END_LEN).value..][..DIRECTORY64_END_LEN];
    (U64At(r, 32), U64At(r, 48))
  }

  lemma LedAstray(b: seq<byte>, records: nat, size: nat, offset: nat)
    requires |b| >= DIRECTORY_END_LEN && Misleading(b, records, size, offset) && StrayRecord(b)
    requires |b| < INT64_BOUND && StrayValues(b).1 < |b|
    ensures var d := ReadEndOf(b, Narrow(records, size, offset));
      d.Ok? && d.value.records == StrayValues(b).0 && d.value.offset == StrayValues(b).1 && d.value.comment == []
  {
    hide Locator, LE, At;
    AtShift(b, Locator(b, |b| - DIRECTORY_END_LEN).value, DIRECTORY64_END_LEN, 0, 4);
  }

  lemma StreamInside(items: seq<Item>)
    requires MisleadingArchive(items)
    ensures |Stream(items)| < |Archive(items, [])|
  {
    hide Stream, Directory, EndRecords, Locator;
  }

  /** A misleading archive with such a record that names the true place of the directory is read back
      if and only if the record also tells the true number of entries, modulo 65536, and there is room
      for the number it tells. */
  lemma StrayReadsBack(items: seq<Item>, room: nat)
    requires ReadableItems(items) && |Archive(items, [])| < INT64_BOUND
    requires MisleadingArchive(items) && StrayRecord(Archive(items, []))
    requires StrayValues(Archive(items, [])).1 == |Stream(items)|
    ensures var n := StrayValues(Archive(items, [])).0;
      && Open(Archive(items, []), room).Ok? == (ToUint16(n) == ToUint16(|items|) && n <= room)
      && (Open(Archive(items, []), room).Ok? ==>
            Open(Archive(items, []), room) == Ok(Contents(AllAsRead(Headers(items)), [])))
  {
    hide Stream, Directory, EndRecords, ReadEnd, EntryAt, EntriesAt, Archive, Readable, Has, ReadEndOf, Misleading, StrayRecord,
      StrayValues, AllAsRead;
    var b, dir, start := Archive(items, []), Headers(items), |Stream(items)|;
    ArchiveParts(items);
    EndAsRead(b, |dir|, |Directory(dir)|, start);
    StreamInside(items);
    LedAstray(b, |dir|, |Directory(dir)|, start);
    WrittenEntries(items);
  }

  /** Zip64 end records alone, 98 bytes, that tell of one entry more than there is room for: opening
      them panics, whatever the room, if a 16-bit number of entries fits into it. */
  lemma HugeNumberPanics(room: nat)
    requires UINT16_MAX - 1 <= room < UINT64_BOUND - 1
    ensures var b := EndRecords(room + 1, 0, 0, []);
      |b| == WIDE_LEN + DIRECTORY_END_LEN && Open(b, room) == Err(Panicked)
  {
    hide EndRecords, ReadEndOf, EntryAt;
    var b := EndRecords(room + 1, 0, 0, []);
    assert b[0..] == b && b[0..][..|b|] == b;
    ShortEnd(room + 1);
    WideEndAsRead(b, room + 1, 0, 0);
  }

  lemma ShortEnd(records: nat)
    requires records >= UINT16_MAX
    ensures |EndRecords(records, 0, 0, [])| == WIDE_LEN + DIRECTORY_END_LEN
  {
    hide LE, At, WideRecords;
    WideLength(records, 0, 0);
    EndsWide(records, 0, 0);
    assert EndRecord(UINT16_MAX, UINT32_MAX, UINT32_MAX, []).Size() == DIRECTORY_END_LEN;
  }

  /** Without zip64 records no number of entries is a panic where a 16-bit one is none. */
  lemma PlainNeverPanics(b: seq<byte>, room: nat)
    requires room >= UINT16_MAX && Open(b, room) == Err(Panicked)
    ensures EndOffset(b).Ok? && Locator(b, EndOffset(b).value).Some?
  {
    hide EntryAt, Probe, Locator, LE, At;
    EntriesEnd(b, if ReadEnd(b).Ok? && ReadEnd(b).value.offset <= |b| then ReadEnd(b).value.offset else 0);
  }

  lemma {:induction false} EntriesEnd(b: seq<byte>, pos: nat)
    requires pos <= |b|
    ensures EntriesAt(b, pos).1 != Panicked
    decreases |b| - pos
  {
    match EntryAt(b, pos)
    case Stop(_) =>
    case Entry(_, next) => EntriesEnd(b, next);
  }

  // ---------- where contents are ----------

  lemma {:induction false} MemberHas(b: seq<byte>, items: seq<Item>, i: nat)
    requires Has(b, 0, Stream(items)) && i < |items|
    ensures Has(b, OffsetOf(items, i), Member(items[i]))
    ensures OffsetOf(items, i + 1) == OffsetOf(items, i) + |Member(items[i])|
  {
    hide Member, Has;
    var n := |items| - 1;
    HasParts(b, 0, Stream(items[..n]), Member(items[n]));
    if i < n {
      assert items[..n][..i] == items[..i] && items[..n][..i + 1] == items[..i + 1];
      MemberHas(b, items[..n], i);
    } else {
      assert items[..i + 1] == items;
    }
  }

  lemma BodyAt(b: seq<byte>, at: nat, h: FileHeader, f: File)
    requires |h.name| <= UINT16_MAX && |h.extra| <= UINT16_MAX && f.headerOffset == at
    requires Has(b, at, LocalHeader(h))
    ensures BodyOffset(b, f) == Ok(|LocalHeader(h)|)
  {
    hide LE, At;
    var r := LocalRecord(h);
    assert r.Size() == FILE_HEADER_LEN;
    assert LocalHeader(h) == r.Bytes() + (h.name + h.extra);
    HasParts(b, at, r.Bytes(), h.name + h.extra);
    ReadsLocalRecord(h, r.Bytes());
  }

  /** The data offset of an entry read back is where its content is, and header, content and
      descriptor end where the next member, or the directory, begins. */
  lemma ContentFound(items: seq<Item>, i: nat)
    requires ReadableItems(items) && |Archive(items, [])| < INT64_BOUND && i < |items|
    ensures var b, h := Archive(items, []), items[i].header;
      var f := AsRead(h, OffsetOf(items, i));
      && ContentStart(b, f).Ok?
      && var data := ContentStart(b, f).value;
      && data >= 0 && Has(b, data, items[i].content) && |items[i].content| == f.compressedSize64
      && data + f.compressedSize64 + |Descriptor(h)| == OffsetOf(items, i + 1)
  {
    hide Stream, Archive, Descriptor, LocalHeader, Has, BodyOffset, Directory, EndRecords, Headers,
      DirectoryExtra, WellFormedExtra, Entry64, Offset32, ReadableDirectory;
    var b, h, at := Archive(items, []), items[i].header, OffsetOf(items, i);
    assert Has(b, 0, Stream(items)) by {
      ArchiveParts(items);
    }
    assert items[i] in items;
    MemberHas(b, items, i);
    HasParts(b, at, LocalHeader(h) + items[i].content, Descriptor(h));
    HasParts(b, at, LocalHeader(h), items[i].content);
    BodyAt(b, at, h, AsRead(h, at));
  }
}
