/** The bytes of an archive, position by position: which signature, number or name stands where in
    every record, as APPNOTE 6.3 numbers them. The statements name none of the records that the writer
    is described with. */
module ZipLayout {
  import opened Bytes
  import opened Options
  import opened ZipFormat
  import R = ZipReader
  import opened ZipRoundTrip

  /** Two, four and eight bytes, least significant first. */
  function Two(b: seq<byte>, i: nat): nat
    requires i + 2 <= |b|
  {
    b[i] as int + 0x100 * b[i + 1] as int
  }

  function Four(b: seq<byte>, i: nat): nat
    requires i + 4 <= |b|
  {
    Two(b, i) + 0x1_0000 * Two(b, i + 2)
  }

  function Eight(b: seq<byte>, i: nat): nat
    requires i + 8 <= |b|
  {
    Four(b, i) + 0x1_0000_0000 * Four(b, i + 4)
  }

  /** The four bytes of a signature, which all start with the letters PK. */
  predicate Signed(b: seq<byte>, i: nat, x: byte, y: byte) {
    i + 4 <= |b| && b[i] == 0x50 && b[i + 1] == 0x4b && b[i + 2] == x && b[i + 3] == y
  }

  lemma ValueOfTwo(s: seq<byte>)
    requires |s| == 2
    ensures Value(s) == s[0] as int + 0x100 * s[1] as int
  {
    assert s[1..] == [s[1]] && s[1..][1..] == [];
    assert Value(s[1..]) == s[1] + 256 * Value([]);
  }

  lemma {:induction false} ValueOfBoth(s: seq<byte>, t: seq<byte>)
    ensures Value(s + t) == Value(s) + Pow256(|s|) * Value(t)
  {
    if s == [] {
      assert s + t == t;
    } else {
      assert (s + t)[1..] == s[1..] + t;
      ValueOfBoth(s[1..], t);
      Scaled(Value(s[1..]), Pow256(|s| - 1), Value(t));
    }
  }

  lemma Scaled(a: nat, p: nat, v: nat)
    ensures 256 * (a + p * v) == 256 * a + (256 * p) * v
  {
  }

  /** A number in a record is the sum of its bytes. */
  lemma NumbersAreBytes(b: seq<byte>, i: nat)
    ensures i + 2 <= |b| ==> U16At(b, i) == Two(b, i)
    ensures i + 4 <= |b| ==> U32At(b, i) == Four(b, i)
    ensures i + 8 <= |b| ==> U64At(b, i) == Eight(b, i)
  {
    hide Value;
    if i + 2 <= |b| {
      TwoAt(b, i);
    }
    if i + 4 <= |b| {
      FourAt(b, i);
    }
    if i + 8 <= |b| {
      EightAt(b, i);
    }
  }

  lemma TwoAt(b: seq<byte>, i: nat)
    requires i + 2 <= |b|
    ensures At(b, i, 2) == Two(b, i)
  {
    ValueOfTwo(b[i..][..2]);
  }

  lemma FourAt(b: seq<byte>, i: nat)
    requires i + 4 <= |b|
    ensures At(b, i, 4) == Four(b, i)
  {
    hide Value;
    TwoAt(b, i);
    TwoAt(b, i + 2);
    assert b[i..][..4] == b[i..][..2] + b[i + 2..][..2];
    ValueOfBoth(b[i..][..2], b[i + 2..][..2]);
    Pow256Values();
  }

  lemma EightAt(b: seq<byte>, i: nat)
    requires i + 8 <= |b|
    ensures At(b, i, 8) == Eight(b, i)
  {
    hide Value;
    FourAt(b, i);
    FourAt(b, i + 4);
    assert b[i..][..8] == b[i..][..4] + b[i + 4..][..4];
    ValueOfBoth(b[i..][..4], b[i + 4..][..4]);
    Pow256Values();
  }

  lemma SignatureIs(b: seq<byte>, i: nat, x: byte, y: byte)
    requires i + 4 <= |b| && U32At(b, i) == 0x4b50 + 0x1_0000 * x + 0x100_0000 * y
    ensures Signed(b, i, x, y)
  {
    hide Value;
    FourAt(b, i);
  }

  // ---------- local headers ----------

  /** The fixed part of a local header, section 4.3.7: `b` has it at position `at`, with these values
      and nothing where the sizes and the checksum would be. */
  ghost predicate LocalFixed(b: seq<byte>, at: nat, f: R.File) {
    && at + 30 <= |b|
    && Signed(b, at, 3, 4)
    && Two(b, at + 4) == f.readerVersion && Two(b, at + 6) == f.flags && Two(b, at + 8) == f.compression
    && Two(b, at + 10) == f.modifiedTime && Two(b, at + 12) == f.modifiedDate
    && Four(b, at + 14) == 0 && Four(b, at + 18) == 0 && Four(b, at + 22) == 0
    && Two(b, at + 26) == |f.name|
  }

  lemma ReadsLocalFields(h: FileHeader, b: seq<byte>)
    requires b == LocalRecord(h).Bytes() && |b| == 30 && |h.name| <= UINT16_MAX && |h.extra| <= UINT16_MAX
    ensures U32At(b, 0) == 0x0403_4b50 && U16At(b, 4) == h.readerVersion && U16At(b, 6) == h.flags
    ensures U16At(b, 8) == h.compression && U16At(b, 10) == h.modifiedTime && U16At(b, 12) == h.modifiedDate
    ensures U32At(b, 14) == 0 && U32At(b, 18) == 0 && U32At(b, 22) == 0
    ensures U16At(b, 26) == |h.name| && U16At(b, 28) == |h.extra|
  {
    hide At, LE;
    var r11 := LocalRecord(h);
    assert Has(b, 0, r11.Bytes());
    var r10 := Peeled(r11, b, 0);
    var r9 := Peeled(r10, b, 0);
    var r8 := Peeled(r9, b, 0);
    var r7 := Peeled(r8, b, 0);
    var r6 := Peeled(r7, b, 0);
    var r5 := Peeled(r6, b, 0);
    var r4 := Peeled(r5, b, 0);
    var r3 := Peeled(r4, b, 0);
    var r2 := Peeled(r3, b, 0);
    var r1 := Peeled(r2, b, 0);
    var r0 := Peeled(r1, b, 0);
  }

  /** Fields of a record that stands at position `at` of `b`. */
  lemma FieldsMove(b: seq<byte>, at: nat, s: seq<byte>, i: nat)
    requires Has(b, at, s)
    ensures i + 2 <= |s| ==> U16At(b, at + i) == U16At(s, i)
    ensures i + 4 <= |s| ==> U32At(b, at + i) == U32At(s, i)
    ensures i + 8 <= |s| ==> U64At(b, at + i) == U64At(s, i)
  {
    hide Value;
    if i + 2 <= |s| {
      AtShift(b, at, |s|, i, 2);
    }
    if i + 4 <= |s| {
      AtShift(b, at, |s|, i, 4);
    }
    if i + 8 <= |s| {
      AtShift(b, at, |s|, i, 8);
    }
  }

  lemma FieldBytes(b: seq<byte>, at: nat, s: seq<byte>, i: nat)
    requires Has(b, at, s)
    ensures i + 2 <= |s| ==> at + i + 2 <= |b| && Two(b, at + i) == U16At(s, i)
    ensures i + 4 <= |s| ==> at + i + 4 <= |b| && Four(b, at + i) == U32At(s, i)
    ensures i + 8 <= |s| ==> at + i + 8 <= |b| && Eight(b, at + i) == U64At(s, i)
  {
    hide At, Two, Four, Eight;
    FieldsMove(b, at, s, i);
    NumbersAreBytes(b, at + i);
  }

  lemma LocalFields(b: seq<byte>, at: nat, h: FileHeader, f: R.File)
    requires |h.name| <= UINT16_MAX && |h.extra| <= UINT16_MAX && Has(b, at, LocalRecord(h).Bytes())
    requires f.name == h.name && f.readerVersion == h.readerVersion && f.flags == h.flags
    requires f.compression == h.compression && f.modifiedTime == h.modifiedTime && f.modifiedDate == h.modifiedDate
    ensures LocalFixed(b, at, f) && Two(b, at + 28) == |h.extra|
  {
    hide At, LE, Two, Four, Has, LocalRecord, Signed, Record.Bytes;
    LocalSize(h);
    var s := LocalRecord(h).Bytes();
    ReadsLocalFields(h, s);
    FieldBytes(b, at, s, 0);
    FieldsMove(b, at, s, 0);
    SignatureIs(b, at, 3, 4);
    FieldBytes(b, at, s, 4);
    FieldBytes(b, at, s, 6);
    FieldBytes(b, at, s, 8);
    FieldBytes(b, at, s, 10);
    FieldBytes(b, at, s, 12);
    FieldBytes(b, at, s, 14);
    FieldBytes(b, at, s, 18);
    FieldBytes(b, at, s, 22);
    FieldBytes(b, at, s, 26);
    FieldBytes(b, at, s, 28);
  }

  lemma LocalSize(h: FileHeader)
    ensures |LocalRecord(h).Bytes()| == 30
  {
    assert LocalRecord(h).Size() == 30;
  }

  /** The i-th entry that is read from the directory of an archive. */
  function ReadEntry(items: seq<Item>, i: nat): (f: R.File)
    requires ReadableItems(items) && |Archive(items, [])| < INT64_BOUND && i < |items|
  {
    WrittenEntries(items);
    R.EntriesAt(Archive(items, []), |Stream(items)|).0[i]
  }

  lemma ReadEntryIs(items: seq<Item>, i: nat)
    requires ReadableItems(items) && |Archive(items, [])| < INT64_BOUND && i < |items|
    ensures ReadEntry(items, i) == AsRead(items[i].header, OffsetOf(items, i))
  {
    hide R.EntriesAt, AsRead, Archive, Stream, OffsetOf, Readable;
    WrittenEntries(items);
  }

  lemma MemberParts(items: seq<Item>, i: nat)
    requires ReadableItems(items) && |Archive(items, [])| < INT64_BOUND && i < |items|
    ensures var b, at, it := Archive(items, []), OffsetOf(items, i), items[i];
      var data := at + 30 + |it.header.name| + |it.header.extra|;
      && Has(b, at, LocalRecord(it.header).Bytes())
      && Has(b, at + 30, it.header.name)
      && Has(b, at + 30 + |it.header.name|, it.header.extra)
      && Has(b, data, it.content) && Has(b, data + |it.content|, Descriptor(it.header))
      && OffsetOf(items, i + 1) == data + |it.content| + |Descriptor(it.header)|
  {
    hide Stream, Archive, Descriptor, LocalRecord, Has, Directory, EndRecords, Headers, ReadableDirectory, Readable, Record.Bytes;
    var b, at, it := Archive(items, []), OffsetOf(items, i), items[i];
    assert Has(b, 0, Stream(items)) by {
      ArchiveParts(items);
    }
    MemberHas(b, items, i);
    var h := it.header;
    LocalSize(h);
    HasParts(b, at, LocalHeader(h) + it.content, Descriptor(h));
    HasParts(b, at, LocalHeader(h), it.content);
    HasParts(b, at, LocalRecord(h).Bytes() + h.name, h.extra);
    HasParts(b, at, LocalRecord(h).Bytes(), h.name);
  }

  /** Where an entry says its member is stands a local header with the same version, flags, method,
      time and date, zeros for the sizes and the checksum, the name, and the extra field of the entry
      without its zip64 block. */
  lemma LocalHeaderBytes(items: seq<Item>, i: nat)
    requires ReadableItems(items) && |Archive(items, [])| < INT64_BOUND && i < |items|
    ensures var b, f := Archive(items, []), ReadEntry(items, i);
      && f.headerOffset == OffsetOf(items, i)
      && LocalFixed(b, f.headerOffset, f)
      && var n, e := |f.name|, Two(b, f.headerOffset + 28);
      && f.headerOffset + 30 + n + e <= |b|
      && b[f.headerOffset + 30..][..n] == f.name
      && e <= |f.extra| && b[f.headerOffset + 30 + n..][..e] == f.extra[..e]
      && |f.extra| == e + if f.compressedSize64 >= 0xffff_ffff || f.uncompressedSize64 >= 0xffff_ffff || f.headerOffset >= 0xffff_ffff
                          then 28 else 0
  {
    hide Archive, OffsetOf, Descriptor, LocalRecord, ReadEntry, LocalFixed, Two, Zip64Record, WellFormedExtra, Record.Bytes;
    var h := items[i].header;
    assert items[i] in items;
    ReadEntryIs(items, i);
    MemberParts(items, i);
    LocalFields(Archive(items, []), OffsetOf(items, i), h, ReadEntry(items, i));
    ZipBlockSize(h, OffsetOf(items, i));
  }

  lemma ZipBlockSize(h: FileHeader, offset: nat)
    ensures |Zip64Record(h, offset).Bytes()| == 28
  {
    assert Zip64Record(h, offset).Size() == 28;
  }

  // ---------- data descriptors ----------

  lemma ReadsNarrowDescriptor(h: FileHeader, b: seq<byte>)
    requires !h.IsZip64() && b == DescriptorRecord(h).Bytes() && |b| == 16
    ensures U32At(b, 0) == 0x0807_4b50 && U32At(b, 4) == 0
    ensures U32At(b, 8) == h.compressedSize && U32At(b, 12) == h.uncompressedSize
  {
    hide At, LE;
    var r4 := DescriptorRecord(h);
    assert Has(b, 0, r4.Bytes());
    var r3 := Peeled(r4, b, 0);
    var r2 := Peeled(r3, b, 0);
    var r1 := Peeled(r2, b, 0);
    var r0 := Peeled(r1, b, 0);
  }

  lemma ReadsWideDescriptor(h: FileHeader, b: seq<byte>)
    requires h.IsZip64() && b == DescriptorRecord(h).Bytes() && |b| == 24
    ensures U32At(b, 0) == 0x0807_4b50 && U32At(b, 4) == 0
    ensures U64At(b, 8) == h.compressedSize64 && U64At(b, 16) == h.uncompressedSize64
  {
    hide At, LE;
    var r4 := DescriptorRecord(h);
    assert Has(b, 0, r4.Bytes());
    var r3 := Peeled(r4, b, 0);
    var r2 := Peeled(r3, b, 0);
    var r1 := Peeled(r2, b, 0);
    var r0 := Peeled(r1, b, 0);
  }

  lemma DescriptorSize(h: FileHeader)
    ensures |DescriptorRecord(h).Bytes()| == if h.IsZip64() then 24 else 16
  {
    assert DescriptorRecord(h).Size() == if h.IsZip64() then 24 else 16;
  }

  /** A data descriptor, section 4.3.9, with checksum 0 and the sizes of an entry, in the form with
      8-byte sizes if one of them needs it. */
  ghost predicate DescriptorAt(b: seq<byte>, z: nat, f: R.File) {
    if f.compressedSize64 >= 0xffff_ffff || f.uncompressedSize64 >= 0xffff_ffff then
      && Signed(b, z, 7, 8) && z + 24 <= |b|
      && Four(b, z + 4) == 0 && Eight(b, z + 8) == f.compressedSize64 && Eight(b, z + 16) == f.uncompressedSize64
    else
      && Signed(b, z, 7, 8) && z + 16 <= |b|
      && Four(b, z + 4) == 0 && Four(b, z + 8) == f.compressedSize64 && Four(b, z + 12) == f.uncompressedSize64
  }

  lemma DescriptorFields(b: seq<byte>, z: nat, h: FileHeader, f: R.File)
    requires Has(b, z, DescriptorRecord(h).Bytes())
    requires h.compressedSize == Offset32(h.compressedSize64) && h.uncompressedSize == Offset32(h.uncompressedSize64)
    requires f.compressedSize64 == h.compressedSize64 && f.uncompressedSize64 == h.uncompressedSize64
    ensures DescriptorAt(b, z, f)
  {
    hide At, LE, Two, Four, Eight, Has, DescriptorRecord, Signed, Record.Bytes;
    DescriptorSize(h);
    var s := DescriptorRecord(h).Bytes();
    FieldsMove(b, z, s, 0);
    FieldBytes(b, z, s, 0);
    FieldBytes(b, z, s, 4);
    FieldBytes(b, z, s, 8);
    if h.IsZip64() {
      ReadsWideDescriptor(h, s);
      FieldBytes(b, z, s, 16);
    } else {
      ReadsNarrowDescriptor(h, s);
      FieldBytes(b, z, s, 12);
    }
    SignatureIs(b, z, 7, 8);
  }

  /** Bit 3 of the flags is set exactly when a descriptor follows the content; the next member, or the
      directory, begins right behind it. */
  lemma DescriptorBytes(items: seq<Item>, i: nat)
    requires ReadableItems(items) && |Archive(items, [])| < INT64_BOUND && i < |items|
    ensures var b, f := Archive(items, []), ReadEntry(items, i);
      && f.headerOffset == OffsetOf(items, i) && f.headerOffset + 30 <= |b|
      && var z := f.headerOffset + 30 + |f.name| + Two(b, f.headerOffset + 28) + f.compressedSize64;
      if Two(b, f.headerOffset + 6) / 8 % 2 == 1 then
        DescriptorAt(b, z, f)
        && OffsetOf(items, i + 1)
           == z + if f.compressedSize64 >= 0xffff_ffff || f.uncompressedSize64 >= 0xffff_ffff then 24 else 16
      else OffsetOf(items, i + 1) == z
  {
    hide Archive, OffsetOf, DescriptorRecord, LocalRecord, ReadEntry, DescriptorAt, Two, DirectoryExtra, WellFormedExtra,
      Record.Bytes;
    var h := items[i].header;
    assert items[i] in items;
    ReadEntryIs(items, i);
    MemberParts(items, i);
    LocalFields(Archive(items, []), OffsetOf(items, i), h, ReadEntry(items, i));
    DescriptorSize(h);
    if h.HasDataDescriptor() {
      DescriptorFields(Archive(items, []),
                       OffsetOf(items, i) + 30 + |h.name| + |h.extra| + |items[i].content|, h, ReadEntry(items, i));
    }
  }

  // ---------- directory entries ----------

  /** The fixed part of a directory entry, section 4.3.12: an entry with these values starts at
      position `at`, its 32-bit sizes and offset escaped where a zip64 block has the true ones. */
  ghost predicate EntryFixed(b: seq<byte>, at: nat, f: R.File) {
    && at + 46 <= |b|
    && Signed(b, at, 1, 2)
    && Two(b, at + 4) == f.creatorVersion && Two(b, at + 6) == f.readerVersion && Two(b, at + 8) == f.flags
    && Two(b, at + 10) == f.compression && Two(b, at + 12) == f.modifiedTime && Two(b, at + 14) == f.modifiedDate
    && Four(b, at + 16) == f.crc32
    && Four(b, at + 20) == (if Wide(f) then 0xffff_ffff else f.compressedSize64)
    && Four(b, at + 24) == (if Wide(f) then 0xffff_ffff else f.uncompressedSize64)
    && Two(b, at + 28) == |f.name| && Two(b, at + 30) == |f.extra| && Two(b, at + 32) == |f.comment|
    && Two(b, at + 34) == 0 && Two(b, at + 36) == 0
    && Four(b, at + 38) == f.externalAttrs
    && Four(b, at + 42) == if f.headerOffset >= 0xffff_ffff then 0xffff_ffff else f.headerOffset
  }

  /** An entry with a size or an offset that 32 bits cannot tell. */
  predicate Wide(f: R.File) {
    f.compressedSize64 >= 0xffff_ffff || f.uncompressedSize64 >= 0xffff_ffff || f.headerOffset >= 0xffff_ffff
  }

  /** The zip64 block, section 4.5.3: size, compressed size and offset, eight bytes each. */
  ghost predicate ZipBlockAt(b: seq<byte>, at: nat, f: R.File) {
    && at + 28 <= |b|
    && Two(b, at) == 1 && Two(b, at + 2) == 24
    && Eight(b, at + 4) == f.uncompressedSize64 && Eight(b, at + 12) == f.compressedSize64
    && Eight(b, at + 20) == f.headerOffset
  }

  lemma EntrySize(h: FileHeader, offset: nat)
    ensures |DirectoryRecord(h, offset).Bytes()| == 46
  {
    assert DirectoryRecord(h, offset).Size() == 46;
  }

  lemma ReadsEntryRecord(h: FileHeader, offset: nat, b: seq<byte>)
    requires b == DirectoryRecord(h, offset).Bytes() && |b| == 46
    requires |h.name| <= UINT16_MAX && |DirectoryExtra(h, offset)| <= UINT16_MAX && |h.comment| <= UINT16_MAX
    ensures U32At(b, 0) == 0x0201_4b50 && U16At(b, 4) == h.creatorVersion && U16At(b, 6) == h.readerVersion
    ensures U16At(b, 8) == h.flags && U16At(b, 10) == h.compression
    ensures U16At(b, 12) == h.modifiedTime && U16At(b, 14) == h.modifiedDate && U32At(b, 16) == h.crc32
    ensures U32At(b, 20) == (if Entry64(h, offset) then 0xffff_ffff else h.compressedSize)
    ensures U32At(b, 24) == (if Entry64(h, offset) then 0xffff_ffff else h.uncompressedSize)
    ensures U16At(b, 28) == |h.name| && U16At(b, 30) == |DirectoryExtra(h, offset)| && U16At(b, 32) == |h.comment|
    ensures U32At(b, 38) == h.externalAttrs && U32At(b, 42) == Offset32(offset)
  {
    hide At, LE, DirectoryRecord, DirectoryExtra;
    var r7 := ReadsDirectoryEnd(h, offset, b);
    var r6 := Peeled(r7, b, 0);
    var r5 := Peeled(r6, b, 0);
    var r4 := Peeled(r5, b, 0);
    var r3 := Peeled(r4, b, 0);
    var r2 := Peeled(r3, b, 0);
    var r1 := Peeled(r2, b, 0);
    var r0 := Peeled(r1, b, 0);
  }

  /** The four bytes nobody fills in. */
  lemma EntryGap(h: FileHeader, offset: nat, b: seq<byte>)
    requires b == DirectoryRecord(h, offset).Bytes() && |b| == 46
    ensures U32At(b, 34) == 0
  {
    hide At, LE, DirectoryExtra;
    var r16 := DirectoryRecord(h, offset);
    assert Has(b, 0, r16.Bytes());
    var r15 := Peeled(r16, b, 0);
    var r14 := Peeled(r15, b, 0);
    var r13 := Peeled(r14, b, 0);
  }

  lemma EntryFields(b: seq<byte>, at: nat, h: FileHeader, offset: nat)
    requires Readable(h) && Has(b, at, DirectoryRecord(h, offset).Bytes())
    ensures EntryFixed(b, at, AsRead(h, offset))
  {
    hide At, LE, Two, Four, Has, DirectoryRecord, Signed, Record.Bytes, DirectoryExtra, WellFormedExtra;
    var s := DirectoryRecord(h, offset).Bytes();
    EntrySize(h, offset);
    ExtraSize(h, offset);
    ReadsEntryRecord(h, offset, s);
    EntryGap(h, offset, s);
    FieldsMove(b, at, s, 0);
    FieldBytes(b, at, s, 0);
    SignatureIs(b, at, 1, 2);
    FieldBytes(b, at, s, 4);
    FieldBytes(b, at, s, 6);
    FieldBytes(b, at, s, 8);
    FieldBytes(b, at, s, 10);
    FieldBytes(b, at, s, 12);
    FieldBytes(b, at, s, 14);
    FieldBytes(b, at, s, 16);
    FieldBytes(b, at, s, 20);
    FieldBytes(b, at, s, 24);
    FieldBytes(b, at, s, 28);
    FieldBytes(b, at, s, 30);
    FieldBytes(b, at, s, 32);
    FieldBytes(b, at, s, 34);
    FieldBytes(b, at, s, 38);
    FieldBytes(b, at, s, 42);
    GapBytes(b, at + 34);
  }

  lemma GapBytes(b: seq<byte>, i: nat)
    requires i + 4 <= |b| && Four(b, i) == 0
    ensures Two(b, i) == 0 && Two(b, i + 2) == 0
  {
  }

  lemma ExtraSize(h: FileHeader, offset: nat)
    ensures |DirectoryExtra(h, offset)| == |h.extra| + if Entry64(h, offset) then 28 else 0
  {
    ZipBlockSize(h, offset);
  }

  lemma ReadsZipBlock(h: FileHeader, offset: nat, b: seq<byte>)
    requires b == Zip64Record(h, offset).Bytes() && |b| == 28 && offset < INT64_BOUND
    ensures U16At(b, 0) == 1 && U16At(b, 2) == 24 && U64At(b, 20) == offset
    ensures U64At(b, 4) == h.uncompressedSize64 && U64At(b, 12) == h.compressedSize64
  {
    hide At, LE;
    ReadsZip64Record(h, offset, b);
  }

  lemma ZipBlockFields(b: seq<byte>, at: nat, h: FileHeader, offset: nat)
    requires Has(b, at, Zip64Record(h, offset).Bytes()) && offset < INT64_BOUND
    ensures ZipBlockAt(b, at, AsRead(h, offset))
  {
    hide At, LE, Two, Four, Eight, Has, Zip64Record, Record.Bytes, DirectoryExtra;
    var s := Zip64Record(h, offset).Bytes();
    ZipBlockSize(h, offset);
    ReadsZipBlock(h, offset, s);
    FieldBytes(b, at, s, 0);
    FieldBytes(b, at, s, 2);
    FieldBytes(b, at, s, 4);
    FieldBytes(b, at, s, 12);
    FieldBytes(b, at, s, 20);
  }

  /** An entry as a whole: its fixed part, then name, extra field and comment; and at the end of the
      extra field the zip64 block, if 32 bits do not do. */
  ghost predicate EntryBytesAt(b: seq<byte>, at: nat, f: R.File) {
    && EntryFixed(b, at, f)
    && at + 46 + |f.name| + |f.extra| + |f.comment| <= |b|
    && b[at + 46..][..|f.name|] == f.name
    && b[at + 46 + |f.name|..][..|f.extra|] == f.extra
    && b[at + 46 + |f.name| + |f.extra|..][..|f.comment|] == f.comment
    && (Wide(f) ==> |f.extra| >= 28 && ZipBlockAt(b, at + 46 + |f.name| + |f.extra| - 28, f))
  }

  lemma EntryBytesOf(b: seq<byte>, at: nat, h: FileHeader, offset: nat)
    requires Readable(h) && offset < INT64_BOUND && Has(b, at, DirectoryHeader(h, offset))
    ensures EntryBytesAt(b, at, AsRead(h, offset))
  {
    hide DirectoryRecord, DirectoryHeader, Record.Bytes, EntryFixed, ZipBlockAt, WellFormedExtra, Zip64Record, DirectoryExtra;
    EntryHas(b, at, h, offset);
    EntryFields(b, at, h, offset);
    ExtraSize(h, offset);
    if Entry64(h, offset) {
      ZipBlockFields(b, at + 46 + |h.name| + |h.extra|, h, offset);
    }
  }

  /** The directory entry of the i-th member stands where those before it end. */
  lemma EntryBytes(items: seq<Item>, i: nat)
    requires ReadableItems(items) && |Archive(items, [])| < INT64_BOUND && i < |items|
    ensures var f := ReadEntry(items, i);
      var at := |Stream(items)| + |Directory(Headers(items)[..i])|;
      && EntryBytesAt(Archive(items, []), at, f)
      && at + 46 + |f.name| + |f.extra| + |f.comment| == |Stream(items)| + |Directory(Headers(items)[..i + 1])|
  {
    hide Archive, Stream, Directory, DirectoryHeader, ReadEntry, EntryBytesAt, Has, EndRecords, OffsetOf, WellFormedExtra;
    var b, dir, h, offset := Archive(items, []), Headers(items), items[i].header, OffsetOf(items, i);
    assert items[i] in items;
    ReadEntryIs(items, i);
    ArchiveParts(items);
    DirectoryHas(b, |Stream(items)|, dir, i);
    OffsetInside(items, i);
    EntryBytesOf(b, |Stream(items)| + |Directory(dir[..i])|, h, offset);
    EntryLength(h, offset);
  }

  lemma EntryLength(h: FileHeader, offset: nat)
    ensures |DirectoryHeader(h, offset)| == 46 + |h.name| + |DirectoryExtra(h, offset)| + |h.comment|
  {
    EntrySize(h, offset);
  }

  lemma OffsetInside(items: seq<Item>, i: nat)
    requires i <= |items|
    ensures OffsetOf(items, i) <= |Archive(items, [])|
  {
    OffsetBound(items, i);
  }

  lemma EntryHas(b: seq<byte>, at: nat, h: FileHeader, offset: nat)
    requires Has(b, at, DirectoryHeader(h, offset))
    ensures |DirectoryHeader(h, offset)| == 46 + |h.name| + |DirectoryExtra(h, offset)| + |h.comment|
    ensures Has(b, at, DirectoryRecord(h, offset).Bytes()) && Has(b, at + 46, h.name)
    ensures Has(b, at + 46 + |h.name|, DirectoryExtra(h, offset))
    ensures Has(b, at + 46 + |h.name| + |DirectoryExtra(h, offset)|, h.comment)
    ensures Entry64(h, offset) ==> Has(b, at + 46 + |h.name| + |h.extra|, Zip64Record(h, offset).Bytes())
  {
    hide Has, DirectoryRecord, Record.Bytes, Zip64Record, Entry64;
    EntrySize(h, offset);
    var r, x := DirectoryRecord(h, offset).Bytes(), DirectoryExtra(h, offset);
    HasParts(b, at, r + h.name + x, h.comment);
    HasParts(b, at, r + h.name, x);
    HasParts(b, at, r, h.name);
    if Entry64(h, offset) {
      HasParts(b, at + 46 + |h.name|, h.extra, Zip64Record(h, offset).Bytes());
    }
  }

  // ---------- the end of the archive ----------

  /** The end record, section 4.3.14 ff.: with these numbers, and nothing behind it. */
  ghost predicate EndAt(b: seq<byte>, at: nat, records: nat, size: nat, offset: nat) {
    && at + 22 == |b|
    && Signed(b, at, 5, 6) && Two(b, at + 4) == 0 && Two(b, at + 6) == 0
    && Two(b, at + 8) == records && Two(b, at + 10) == records
    && Four(b, at + 12) == size && Four(b, at + 16) == offset && Two(b, at + 20) == 0
  }

  /** The zip64 end record and its locator. */
  ghost predicate WideEndAt(b: seq<byte>, at: nat, records: nat, size: nat, offset: nat) {
    && at + 76 <= |b|
    && Signed(b, at, 6, 6) && Eight(b, at + 4) == 44 && Two(b, at + 12) == 45 && Two(b, at + 14) == 45
    && Four(b, at + 16) == 0 && Four(b, at + 20) == 0
    && Eight(b, at + 24) == records && Eight(b, at + 32) == records
    && Eight(b, at + 40) == size && Eight(b, at + 48) == offset
    && Signed(b, at + 56, 6, 7) && Four(b, at + 60) == 0 && Eight(b, at + 64) == at && Four(b, at + 72) == 1
  }

  lemma ReadsEnd(records: u16, size: u32, offset: u32, b: seq<byte>)
    requires b == EndRecord(records, size, offset, []).Bytes() && |b| == 22
    ensures U32At(b, 0) == 0x0605_4b50 && U32At(b, 4) == 0
    ensures U16At(b, 8) == records && U16At(b, 10) == records
    ensures U32At(b, 12) == size && U32At(b, 16) == offset && U16At(b, 20) == 0
  {
    hide At, LE;
    var r7 := EndRecord(records, size, offset, []);
    assert Has(b, 0, r7.Bytes());
    var r6 := Peeled(r7, b, 0);
    var r5 := Peeled(r6, b, 0);
    var r4 := Peeled(r5, b, 0);
    var r3 := Peeled(r4, b, 0);
    var r2 := Peeled(r3, b, 0);
    var r1 := Peeled(r2, b, 0);
    var r0 := Peeled(r1, b, 0);
  }

  lemma EndFields(b: seq<byte>, at: nat, records: u16, size: u32, offset: u32)
    requires Has(b, at, EndRecord(records, size, offset, []).Bytes()) && at + 22 == |b|
    ensures EndAt(b, at, records, size, offset)
  {
    hide At, LE, Two, Four, Has, EndRecord, Signed, Record.Bytes;
    EndSize(records, size, offset);
    var s := EndRecord(records, size, offset, []).Bytes();
    ReadsEnd(records, size, offset, s);
    FieldsMove(b, at, s, 0);
    FieldBytes(b, at, s, 0);
    SignatureIs(b, at, 5, 6);
    FieldBytes(b, at, s, 4);
    GapBytes(b, at + 4);
    FieldBytes(b, at, s, 8);
    FieldBytes(b, at, s, 10);
    FieldBytes(b, at, s, 12);
    FieldBytes(b, at, s, 16);
    FieldBytes(b, at, s, 20);
  }

  lemma EndSize(records: u16, size: u32, offset: u32)
    ensures |EndRecord(records, size, offset, []).Bytes()| == 22
  {
    assert EndRecord(records, size, offset, []).Size() == 22;
  }

  lemma ReadsLocator(records: nat, size: nat, offset: nat, b: seq<byte>) returns (front: Record)
    requires b == WideRecords(records, size, offset) && |b| == 76 && offset + size < UINT64_BOUND
    ensures front == End64Record(records, size, offset) && front.Size() == 56 && front.Fits() && Has(b, 0, front.Bytes())
    ensures U32At(b, 56) == 0x0706_4b50 && U32At(b, 60) == 0 && U64At(b, 64) == offset + size && U32At(b, 72) == 1
  {
    hide At, LE;
    var r14 := LocatorRecord(End64Record(records, size, offset), offset + size);
    assert Has(b, 0, r14.Bytes());
    var r13 := Peeled(r14, b, 0);
    var r12 := Peeled(r13, b, 0);
    var r11 := Peeled(r12, b, 0);
    front := Peeled(r11, b, 0);
  }

  lemma ReadsWideEnd(records: nat, size: nat, offset: nat, b: seq<byte>)
    requires b == WideRecords(records, size, offset) && |b| == 76
    requires records < UINT64_BOUND && offset + size < UINT64_BOUND
    ensures U32At(b, 0) == 0x0606_4b50 && U64At(b, 4) == 44 && U16At(b, 12) == 45 && U16At(b, 14) == 45
    ensures U32At(b, 16) == 0 && U32At(b, 20) == 0 && U64At(b, 24) == records && U64At(b, 32) == records
    ensures U64At(b, 40) == size && U64At(b, 48) == offset
    ensures U32At(b, 56) == 0x0706_4b50 && U32At(b, 60) == 0 && U64At(b, 64) == offset + size && U32At(b, 72) == 1
  {
    hide At, LE, WideRecords;
    var r10 := ReadsLocator(records, size, offset, b);
    var r9 := Peeled(r10, b, 0);
    var r8 := Peeled(r9, b, 0);
    var r7 := Peeled(r8, b, 0);
    var r6 := Peeled(r7, b, 0);
    var r5 := Peeled(r6, b, 0);
    var r4 := Peeled(r5, b, 0);
    var r3 := Peeled(r4, b, 0);
    var r2 := Peeled(r3, b, 0);
    var r1 := Peeled(r2, b, 0);
    var r0 := Peeled(r1, b, 0);
  }

  lemma WideEndFields(b: seq<byte>, records: nat, size: nat, offset: nat)
    requires Has(b, offset + size, WideRecords(records, size, offset)) && |b| < INT64_BOUND && records < UINT64_BOUND
    ensures WideEndAt(b, offset + size, records, size, offset)
  {
    hide At, LE, Two, Four, Eight, WideRecords, Signed;
    var at, s := offset + size, WideRecords(records, size, offset);
    WideLength(records, size, offset);
    ReadsWideEnd(records, size, offset, s);
    WideSignatures(b, at, s);
    FieldBytes(b, at, s, 4);
    FieldBytes(b, at, s, 12);
    FieldBytes(b, at, s, 14);
    FieldBytes(b, at, s, 16);
    FieldBytes(b, at, s, 20);
    FieldBytes(b, at, s, 24);
    FieldBytes(b, at, s, 32);
    FieldBytes(b, at, s, 40);
    FieldBytes(b, at, s, 48);
    FieldBytes(b, at, s, 60);
    FieldBytes(b, at, s, 64);
    FieldBytes(b, at, s, 72);
  }

  lemma WideSignatures(b: seq<byte>, at: nat, s: seq<byte>)
    requires Has(b, at, s) && |s| == 76 && U32At(s, 0) == 0x0606_4b50 && U32At(s, 56) == 0x0706_4b50
    ensures Signed(b, at, 6, 6) && Signed(b, at + 56, 6, 7)
  {
    hide At, Signed;
    FieldsMove(b, at, s, 0);
    FieldsMove(b, at, s, 56);
    SignatureIs(b, at, 6, 6);
    SignatureIs(b, at + 56, 6, 7);
  }

  /** Behind the directory stand the zip64 records, if 65535 members, or a size or place of the
      directory from 2^32 - 1 on, call for them, and then the end record, with the true numbers or
      with escapes. */
  lemma EndBytes(items: seq<Item>)
    requires ReadableItems(items) && |Archive(items, [])| < INT64_BOUND
    ensures var b, n, size, start := Archive(items, []), |items|, |Directory(Headers(items))|, |Stream(items)|;
      if n >= 0xffff || size >= 0xffff_ffff || start >= 0xffff_ffff then
        WideEndAt(b, start + size, n, size, start) && EndAt(b, start + size + 76, 0xffff, 0xffff_ffff, 0xffff_ffff)
      else EndAt(b, start + size, n, size, start)
  {
    hide Archive, Stream, Directory, Headers, EndRecords, EndAt, WideEndAt, Has, Readable, WideRecords, EndRecord;
    var b, n, size, start := Archive(items, []), |items|, |Directory(Headers(items))|, |Stream(items)|;
    ArchiveParts(items);
    if n >= 0xffff || size >= 0xffff_ffff || start >= 0xffff_ffff {
      WideEnd(b, n, size, start);
      WideEndFields(b, n, size, start);
      EndFields(b, start + size + 76, 0xffff, 0xffff_ffff, 0xffff_ffff);
    } else {
      PlainEnd(n, size, start);
      EndFields(b, start + size, n, size, start);
    }
  }

  lemma PlainEnd(records: nat, size: nat, offset: nat)
    requires records < 0xffff && size < 0xffff_ffff && offset < 0xffff_ffff
    ensures EndRecords(records, size, offset, []) == EndRecord(records, size, offset, []).Bytes()
    ensures |EndRecords(records, size, offset, [])| == 22
  {
    hide EndRecord;
    EndSize(records, size, offset);
    var s := EndRecord(records, size, offset, []).Bytes();
    assert s + [] == s;
  }

  // ---------- completed headers ----------

  /** How a header is completed: version 2.0, or 4.5 for contents that 32 bits cannot measure; stored,
      not compressed; bit 3 for everything but directories, bit 11 for names that need it, the others as
      they were; directories of size 0. */
  lemma CompletedHeader(fh: FileHeader)
    ensures var h, directory := Prepare(fh), fh.name != [] && fh.name[|fh.name| - 1] == 0x2f;
      && h.name == fh.name && h.url == fh.url && h.comment == fh.comment && h.externalAttrs == fh.externalAttrs
      && h.readerVersion == (if fh.uncompressedSize64 >= 0xffff_ffff then 45 else 20)
      && h.creatorVersion % 0x100 == 20 && h.creatorVersion / 0x100 == fh.creatorVersion / 0x100
      && h.compression == 0
      && (h.flags / 8 % 2 == 1 <==> !directory)
      && (h.flags / 0x800 % 2 == 1 <==> !fh.nonUtf8 && (fh.needsUtf8 || fh.flags / 0x800 % 2 == 1))
      && h.flags % 8 == fh.flags % 8 && h.flags / 16 % 128 == fh.flags / 16 % 128 && h.flags / 0x1000 == fh.flags / 0x1000
      && h.compressedSize64 == h.uncompressedSize64 == (if directory then 0 else fh.uncompressedSize64)
      && h.compressedSize == h.uncompressedSize
         == (if directory then 0 else if fh.uncompressedSize64 >= 0xffff_ffff then 0xffff_ffff else fh.uncompressedSize64)
      && match fh.modified
         case None => h.modifiedTime == fh.modifiedTime && h.modifiedDate == fh.modifiedDate && h.extra == fh.extra
         case Some(s) =>
           h.modifiedTime == s.time && h.modifiedDate == s.date && h.extra == fh.extra + StampRecord(s).Bytes()
  {
    hide StampRecord, Record.Bytes, SetFlag, ClearFlag;
    FlagsCompleted(fh);
  }

  /** The bits of a flag word that the writer never touches. */
  predicate SameOtherFlags(f: u16, g: u16) {
    f % 8 == g % 8 && f / 16 % 128 == g / 16 % 128 && f / 0x1000 == g / 0x1000
  }

  /** A flag word taken apart: its upper four bits, bit 11, the seven below, bit 3, and the last three. */
  lemma Parts(f: nat, q: nat, t: nat, u: nat, d: nat, v: nat)
    requires f == 0x1000 * q + 0x800 * t + 16 * u + 8 * d + v && t < 2 && u < 128 && d < 2 && v < 8
    ensures f / 0x1000 == q && f / 0x800 == 2 * q + t && f / 0x800 % 2 == t && f / 16 % 128 == u
    ensures f / 8 % 2 == d && f % 8 == v
  {
    assert f / 0x800 == 2 * q + t;
    assert f / 16 == 256 * q + 128 * t + u;
    assert f / 8 == 2 * (256 * q + 128 * t + u) + d;
  }

  lemma TakenApart(f: nat) returns (q: nat, t: nat, u: nat, d: nat, v: nat)
    ensures f == 0x1000 * q + 0x800 * t + 16 * u + 8 * d + v && t < 2 && u < 128 && d < 2 && v < 8
  {
    v := f % 8;
    d := f / 8 % 2;
    u := f / 8 / 2 % 128;
    t := f / 8 / 2 / 128 % 2;
    q := f / 8 / 2 / 128 / 2;
  }

  lemma DescriptorFlag(f: u16, r: u16)
    requires r == SetFlag(f, FLAG_DESCRIPTOR) || r == ClearFlag(f, FLAG_DESCRIPTOR)
    ensures r == SetFlag(f, FLAG_DESCRIPTOR) ==> r / 8 % 2 == 1
    ensures r == ClearFlag(f, FLAG_DESCRIPTOR) ==> r / 8 % 2 == 0
    ensures SameOtherFlags(r, f) && r / 0x800 % 2 == f / 0x800 % 2
  {
    var q, t, u, d, v := TakenApart(f);
    Parts(f, q, t, u, d, v);
    if r != f {
      Parts(r, q, t, u, 1 - d, v);
    }
  }

  lemma NameFlag(f: u16, r: u16)
    requires r == SetFlag(f, FLAG_UTF8) || r == ClearFlag(f, FLAG_UTF8)
    ensures r == SetFlag(f, FLAG_UTF8) ==> r / 0x800 % 2 == 1
    ensures r == ClearFlag(f, FLAG_UTF8) ==> r / 0x800 % 2 == 0
    ensures SameOtherFlags(r, f)
  {
    var q, t, u, d, v := TakenApart(f);
    Parts(f, q, t, u, d, v);
    if r != f {
      Parts(r, q, 1 - t, u, d, v);
    }
  }

  lemma FlagsCompleted(fh: FileHeader)
    ensures var h, directory := Prepare(fh), fh.name != [] && fh.name[|fh.name| - 1] == 0x2f;
      && (h.flags / 8 % 2 == 1 <==> !directory)
      && (h.flags / 0x800 % 2 == 1 <==> !fh.nonUtf8 && (fh.needsUtf8 || fh.flags / 0x800 % 2 == 1))
      && SameOtherFlags(h.flags, fh.flags)
  {
    hide StampRecord, Record.Bytes, SetFlag, ClearFlag;
    var f := WithFlags(fh).flags;
    if fh.nonUtf8 {
      NameFlag(fh.flags, f);
    } else if fh.needsUtf8 {
      NameFlag(fh.flags, f);
    }
    DescriptorFlag(f, Prepare(fh).flags);
  }

  // ---------- timestamps ----------

  /** The extra field of a header that was given a modification time: kind UT, five bytes, the bit for
      the modification time, and its Unix seconds. */
  lemma StampBytes(s: Stamp)
    ensures var b := StampRecord(s).Bytes();
      |b| == 9 && b[0] == 0x55 && b[1] == 0x54 && Two(b, 2) == 5 && b[4] == 1 && Four(b, 5) == s.unix
  {
    hide At, LE;
    var r4 := StampRecord(s);
    var b := r4.Bytes();
    assert |b| == 9 && Has(b, 0, b);
    var r3 := Peeled(r4, b, 0);
    var r2 := Peeled(r3, b, 0);
    var r1 := Peeled(r2, b, 0);
    var r0 := Peeled(r1, b, 0);
    FourAt(b, 5);
    TwoAt(b, 2);
    TwoAt(b, 0);
    OneAt(b, 4);
  }

  lemma OneAt(b: seq<byte>, i: nat)
    requires i < |b|
    ensures At(b, i, 1) == b[i] as int
  {
    assert b[i..][..1] == [b[i]] && [b[i]][1..] == [];
    assert Value([b[i]]) == b[i] as int + 256 * Value([]);
  }
}
