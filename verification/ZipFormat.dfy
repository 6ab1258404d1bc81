/** The ZIP format as the archiver writes it (PKWARE APPNOTE 6.3): a pure description of every
    record and of the complete archive of a list of items. Sections named are of the APPNOTE. */
module ZipFormat {
  import opened Bytes
  import opened Options

  const FILE_HEADER_SIGNATURE: u32 := 0x04034b50
  const DIRECTORY_HEADER_SIGNATURE: u32 := 0x02014b50
  const DIRECTORY_END_SIGNATURE: u32 := 0x06054b50
  const DIRECTORY64_LOC_SIGNATURE: u32 := 0x07064b50
  const DIRECTORY64_END_SIGNATURE: u32 := 0x06064b50
  const DATA_DESCRIPTOR_SIGNATURE: u32 := 0x08074b50

  const FILE_HEADER_LEN := 30
  const DIRECTORY_HEADER_LEN := 46
  const DIRECTORY_END_LEN := 22
  const DATA_DESCRIPTOR_LEN := 16
  const DATA_DESCRIPTOR64_LEN := 24
  const DIRECTORY64_LOC_LEN := 20
  const DIRECTORY64_END_LEN := 56

  const ZIP_VERSION_20: u16 := 20
  const ZIP_VERSION_45: u16 := 45
  const ZIP64_EXTRA_ID: u16 := 0x0001
  const EXT_TIME_EXTRA_ID: u16 := 0x5455

  const STORE: u16 := 0
  const SLASH: byte := 0x2f
  const FLAG_DESCRIPTOR: u16 := 0x8
  const FLAG_UTF8: u16 := 0x800

  /** A modification time, in the two encodings a header carries. */
  datatype Stamp = Stamp(date: u16, time: u16, unix: u32)

  /** `url` names the page the content is fetched from. `needsUtf8` is the verdict of the
      character-set detection on name and comment. */
  datatype FileHeader = FileHeader(
    name: seq<byte>, url: Option<seq<byte>>, comment: seq<byte>,
    needsUtf8: bool, nonUtf8: bool,
    creatorVersion: u16, readerVersion: u16, flags: u16, compression: u16,
    modified: Option<Stamp>, modifiedTime: u16, modifiedDate: u16,
    crc32: u32, compressedSize: u32, uncompressedSize: u32,
    compressedSize64: u64, uncompressedSize64: u64,
    extra: seq<byte>, externalAttrs: u32)
  {
    predicate IsZip64() {
      compressedSize64 >= UINT32_MAX || uncompressedSize64 >= UINT32_MAX
    }

    predicate HasDataDescriptor() {
      HasFlag(flags, FLAG_DESCRIPTOR)
    }

    predicate IsDirectory() {
      name != [] && name[|name| - 1] == SLASH
    }
  }

  predicate HasFlag(flags: u16, bit: u16)
    requires bit in {FLAG_DESCRIPTOR, FLAG_UTF8}
  {
    (flags / bit) % 2 == 1
  }

  function SetFlag(flags: u16, bit: u16): (r: u16)
    requires bit in {FLAG_DESCRIPTOR, FLAG_UTF8}
    ensures HasFlag(r, bit)
  {
    if HasFlag(flags, bit) then flags else flags + bit
  }

  function ClearFlag(flags: u16, bit: u16): (r: u16)
    requires bit in {FLAG_DESCRIPTOR, FLAG_UTF8}
    ensures !HasFlag(r, bit)
  {
    if HasFlag(flags, bit) then flags - bit else flags
  }

  /** Go's conversions to narrower unsigned integers. */
  function ToUint16(n: nat): u16 { n % 0x1_0000 }
  function ToUint64(n: nat): u64 { n % 0x1_0000_0000_0000_0000 }

  // ---------- records ----------

  /** Section 4.3.7; sizes and checksum are left to the data descriptor. */
  function LocalRecord(h: FileHeader): Record {
    Nil.U32(FILE_HEADER_SIGNATURE).U16(h.readerVersion).U16(h.flags)
      .U16(h.compression).U16(h.modifiedTime).U16(h.modifiedDate)
      .U32(0).U32(0).U32(0)
      .U16(ToUint16(|h.name|)).U16(ToUint16(|h.extra|))
  }

  function LocalHeader(h: FileHeader): seq<byte> {
    LocalRecord(h).Bytes() + h.name + h.extra
  }

  /** Section 4.3.9, present when the header says so. */
  function DescriptorRecord(h: FileHeader): Record {
    if h.IsZip64() then
      Nil.U32(DATA_DESCRIPTOR_SIGNATURE).U32(0).U64(h.compressedSize64).U64(h.uncompressedSize64)
    else
      Nil.U32(DATA_DESCRIPTOR_SIGNATURE).U32(0).U32(h.compressedSize).U32(h.uncompressedSize)
  }

  function Descriptor(h: FileHeader): seq<byte> {
    if h.HasDataDescriptor() then DescriptorRecord(h).Bytes() else []
  }

  /** The extended timestamp block. */
  function StampRecord(s: Stamp): Record {
    Nil.U16(EXT_TIME_EXTRA_ID).U16(5).U8(1).U32(s.unix)
  }

  /** Section 4.5.3. */
  function Zip64Record(h: FileHeader, offset: nat): Record {
    Nil.U16(ZIP64_EXTRA_ID).U16(24)
      .U64(h.uncompressedSize64).U64(h.compressedSize64).U64(ToUint64(offset))
  }

  /** Whether the directory entry needs its zip64 block. */
  predicate Entry64(h: FileHeader, offset: nat) {
    h.IsZip64() || offset >= UINT32_MAX
  }

  function DirectoryExtra(h: FileHeader, offset: nat): seq<byte> {
    if Entry64(h, offset) then h.extra + Zip64Record(h, offset).Bytes() else h.extra
  }

  function Offset32(offset: nat): u32 {
    if offset > UINT32_MAX then UINT32_MAX else offset
  }

  /** Section 4.3.12. */
  function DirectoryRecord(h: FileHeader, offset: nat): Record {
    var wide := Entry64(h, offset);
    Nil.U32(DIRECTORY_HEADER_SIGNATURE).U16(h.creatorVersion).U16(h.readerVersion)
      .U16(h.flags).U16(h.compression).U16(h.modifiedTime).U16(h.modifiedDate)
      .U32(h.crc32)
      .U32(if wide then UINT32_MAX else h.compressedSize)
      .U32(if wide then UINT32_MAX else h.uncompressedSize)
      .U16(ToUint16(|h.name|)).U16(ToUint16(|DirectoryExtra(h, offset)|))
      .U16(ToUint16(|h.comment|)).Zeros(4).U32(h.externalAttrs)
      .U32(Offset32(offset))
  }

  function DirectoryHeader(h: FileHeader, offset: nat): seq<byte> {
    DirectoryRecord(h, offset).Bytes() + h.name + DirectoryExtra(h, offset) + h.comment
  }

  predicate End64(records: nat, size: nat, offset: nat) {
    records >= UINT16_MAX || size >= UINT32_MAX || offset >= UINT32_MAX
  }

  /** Section 4.3.14. */
  function End64Record(records: nat, size: nat, offset: nat): Record {
    Nil.U32(DIRECTORY64_END_SIGNATURE).U64(DIRECTORY64_END_LEN - 12)
      .U16(ZIP_VERSION_45).U16(ZIP_VERSION_45).U32(0).U32(0)
      .U64(ToUint64(records)).U64(ToUint64(records)).U64(ToUint64(size)).U64(ToUint64(offset))
  }

  /** Section 4.3.15. */
  function LocatorRecord(front: Record, end: nat): Record {
    front.U32(DIRECTORY64_LOC_SIGNATURE).U32(0).U64(ToUint64(end)).U32(1)
  }

  /** Section 4.3.16. */
  function EndRecord(records: u16, size: u32, offset: u32, comment: seq<byte>): Record {
    Nil.U32(DIRECTORY_END_SIGNATURE).Zeros(4).U16(records).U16(records)
      .U32(size).U32(offset).U16(ToUint16(|comment|))
  }

  /** What follows the directory entries: the zip64 records when needed, then the end record. */
  function EndRecords(records: nat, size: nat, offset: nat, comment: seq<byte>): seq<byte> {
    if End64(records, size, offset) then
      LocatorRecord(End64Record(records, size, offset), offset + size).Bytes()
      + EndRecord(UINT16_MAX, UINT32_MAX, UINT32_MAX, comment).Bytes() + comment
    else
      EndRecord(records, size, offset, comment).Bytes() + comment
  }

  // ---------- the archive ----------

  /** A directory entry: a header and the position of its local header. */
  datatype Header = Header(file: FileHeader, offset: nat)

  function Directory(dir: seq<Header>): seq<byte> {
    if dir == [] then []
    else
      var last := dir[|dir| - 1];
      Directory(dir[..|dir| - 1]) + DirectoryHeader(last.file, last.offset)
  }

  function Ending(dir: seq<Header>, start: nat, comment: seq<byte>): seq<byte> {
    Directory(dir) + EndRecords(|dir|, |Directory(dir)|, start, comment)
  }

  /** One archive member: its header as written, and its content. */
  datatype Item = Item(header: FileHeader, content: seq<byte>)

  function Member(it: Item): seq<byte> {
    LocalHeader(it.header) + it.content + Descriptor(it.header)
  }

  function Stream(items: seq<Item>): seq<byte> {
    if items == [] then [] else Stream(items[..|items| - 1]) + Member(items[|items| - 1])
  }

  /** The position of the `i`-th member; that of the directory when `i == |items|`. */
  function OffsetOf(items: seq<Item>, i: nat): nat
    requires i <= |items|
  {
    |Stream(items[..i])|
  }

  function Headers(items: seq<Item>): (dir: seq<Header>)
    ensures |dir| == |items|
    ensures forall i :: 0 <= i < |dir| ==> dir[i] == Header(items[i].header, OffsetOf(items, i))
  {
    seq(|items|, i requires 0 <= i < |items| => Header(items[i].header, OffsetOf(items, i)))
  }

  /** The whole archive. No server ever holds it: it is what every window is a slice of. */
  function Archive(items: seq<Item>, comment: seq<byte>): seq<byte> {
    Stream(items) + Ending(Headers(items), |Stream(items)|, comment)
  }

  lemma HeadersSnoc(items: seq<Item>, it: Item)
    ensures Headers(items + [it]) == Headers(items) + [Header(it.header, |Stream(items)|)]
    ensures Stream(items + [it]) == Stream(items) + Member(it)
  {
    var all := items + [it];
    assert all[..|items|] == items;
    forall i | 0 <= i < |items|
      ensures all[..i] == items[..i]
    {
    }
  }

  lemma DirectorySnoc(dir: seq<Header>, h: Header)
    ensures Directory(dir + [h]) == Directory(dir) + DirectoryHeader(h.file, h.offset)
  {
    assert (dir + [h])[..|dir|] == dir;
  }

  // ---------- how CreateHeader completes a header ----------

  function WithFlags(fh: FileHeader): FileHeader {
    fh.(flags := if fh.nonUtf8 then ClearFlag(fh.flags, FLAG_UTF8)
                 else if fh.needsUtf8 then SetFlag(fh.flags, FLAG_UTF8)
                 else fh.flags,
        creatorVersion := fh.creatorVersion / 0x100 * 0x100 + ZIP_VERSION_20,
        readerVersion := ZIP_VERSION_20)
  }

  function WithStamp(fh: FileHeader): FileHeader {
    match fh.modified
    case None => fh
    case Some(s) =>
      fh.(modifiedDate := s.date, modifiedTime := s.time, extra := fh.extra + StampRecord(s).Bytes())
  }

  function WithSizes(fh: FileHeader): FileHeader {
    var n := fh.uncompressedSize64;
    if n >= UINT32_MAX then
      fh.(compressedSize64 := n, compressedSize := UINT32_MAX, uncompressedSize := UINT32_MAX,
          readerVersion := ZIP_VERSION_45, compression := STORE)
    else
      fh.(compressedSize64 := n, compressedSize := n, uncompressedSize := n, compression := STORE)
  }

  function WithKind(fh: FileHeader): FileHeader {
    if fh.IsDirectory() then
      fh.(flags := ClearFlag(fh.flags, FLAG_DESCRIPTOR), compressedSize := 0,
          compressedSize64 := 0, uncompressedSize := 0, uncompressedSize64 := 0)
    else
      fh.(flags := SetFlag(fh.flags, FLAG_DESCRIPTOR))
  }

  function Prepare(fh: FileHeader): FileHeader {
    WithKind(WithSizes(WithStamp(WithFlags(fh))))
  }

  /** What the reader and the directory rely on: a prepared header's 32-bit sizes tell either
      the true size or, at 0xffffffff, that the 64-bit ones must be used. */
  lemma PreparedSizes(fh: FileHeader)
    ensures var h := Prepare(fh);
      && h.compressedSize64 == h.uncompressedSize64
      && h.compressedSize == h.uncompressedSize
      && h.uncompressedSize == Offset32(h.uncompressedSize64)
      && h.compression == STORE && h.name == fh.name
      && (h.HasDataDescriptor() <==> !h.IsDirectory())
      && (h.IsDirectory() ==> h.uncompressedSize64 == 0)
      && (!h.IsDirectory() ==> h.uncompressedSize64 == fh.uncompressedSize64)
  {
  }
}
