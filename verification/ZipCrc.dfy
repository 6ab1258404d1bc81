/** Windows under the checksum the writer computes, CRC-32: when a request is exact for one checksum
    function, and a request that is not. */
module ZipCrc {
  import opened Bytes
  import opened Options
  import opened ZipFormat
  import opened ZipWindow
  import opened ZipWriter
  import opened ZipPlan
  import opened ZipChecksums
  import Crc32

  predicate Shown(p: nat, begin: nat, end: int) {
    begin <= p && (end == -1 || p <= end)
  }

  /** Byte k of the checksum that a request writes for entry i is that of the true archive. */
  predicate RightByte(fhs: seq<FileHeader>, i: nat, k: nat, begin: nat, end: int, up: Upstream, sum: Checksum)
    requires ValidRange(begin, end) && i < |fhs| && k < CRC_LEN
  {
    LE(CRC_LEN, ItemsOf(fhs, begin, end, up, sum)[i].header.crc32)[k]
      == LE(CRC_LEN, ItemsOf(fhs, 0, -1, up, sum)[i].header.crc32)[k]
  }

  /** The checksum bytes in the window are those of the true archive. */
  predicate ChecksumsRight(fhs: seq<FileHeader>, begin: nat, end: int, up: Upstream, sum: Checksum)
    requires ValidRange(begin, end)
  {
    var xs := ItemsOf(fhs, begin, end, up, sum);
    forall i, k | 0 <= i < |fhs| && 0 <= k < CRC_LEN ::
      Shown(CrcField(xs, i) + k, begin, end) ==> RightByte(fhs, i, k, begin, end, up, sum)
  }

  /** What both archives have at a byte of a checksum field. */
  lemma FieldByte(fhs: seq<FileHeader>, i: nat, k: nat, begin: nat, end: int, up: Upstream, sum: Checksum)
    requires ValidRange(begin, end) && i < |fhs| && k < CRC_LEN
    ensures var xs, ys := ItemsOf(fhs, begin, end, up, sum), ItemsOf(fhs, 0, -1, up, sum);
      var p := CrcField(xs, i) + k;
      && p < |Archive(xs, [])| && p < |Archive(ys, [])|
      && (Archive(xs, [])[p] == Archive(ys, [])[p] <==> RightByte(fhs, i, k, begin, end, up, sum))
  {
    hide Archive, ItemsOf, CrcField, LE, Prepare, ShowsContent;
    PositionsAgree(fhs, i, begin, end, 0, -1, up, sum, sum);
    CrcInArchive(ItemsOf(fhs, begin, end, up, sum), i, k);
    CrcInArchive(ItemsOf(fhs, 0, -1, up, sum), i, k);
  }

  lemma OtherByte(fhs: seq<FileHeader>, p: nat, begin: nat, end: int, up: Upstream, sum: Checksum)
    requires ValidRange(begin, end) && p < |Archive(ItemsOf(fhs, begin, end, up, sum), [])|
    requires var xs := ItemsOf(fhs, begin, end, up, sum);
      forall i | 0 <= i < |fhs| :: !(CrcField(xs, i) <= p < CrcField(xs, i) + CRC_LEN)
    ensures var xs, ys := ItemsOf(fhs, begin, end, up, sum), ItemsOf(fhs, 0, -1, up, sum);
      p < |Archive(ys, [])| && Archive(xs, [])[p] == Archive(ys, [])[p]
  {
    hide Archive, ItemsOf, CrcField, Prepare;
    WindowsDifferInChecksums(fhs, begin, end, 0, -1, up, sum, sum);
    ArchivesAgree(ItemsOf(fhs, begin, end, up, sum), ItemsOf(fhs, 0, -1, up, sum), p);
  }

  lemma ByteAgrees(fhs: seq<FileHeader>, begin: nat, end: int, up: Upstream, sum: Checksum, p: nat)
    requires ValidRange(begin, end) && ChecksumsRight(fhs, begin, end, up, sum)
    requires p < |Archive(ItemsOf(fhs, begin, end, up, sum), [])| && Shown(p, begin, end)
    ensures var xs, ys := ItemsOf(fhs, begin, end, up, sum), ItemsOf(fhs, 0, -1, up, sum);
      p < |Archive(ys, [])| && Archive(xs, [])[p] == Archive(ys, [])[p]
  {
    hide Archive, ItemsOf, CrcField, RightByte;
    var xs := ItemsOf(fhs, begin, end, up, sum);
    if i :| 0 <= i < |fhs| && CrcField(xs, i) <= p < CrcField(xs, i) + CRC_LEN {
      FieldByte(fhs, i, p - CrcField(xs, i), begin, end, up, sum);
    } else {
      OtherByte(fhs, p, begin, end, up, sum);
    }
  }

  lemma WindowsEqualIff(s: seq<byte>, t: seq<byte>, begin: nat, end: int)
    requires ValidRange(begin, end) && |s| == |t|
    ensures Window(s, begin, end) == Window(t, begin, end)
      <==> forall p | 0 <= p < |s| :: Shown(p, begin, end) ==> s[p] == t[p]
  {
    hide Window;
    WindowLengths(s, t, begin, end);
    if Window(s, begin, end) == Window(t, begin, end) {
      forall p | 0 <= p < |s| && Shown(p, begin, end)
        ensures s[p] == t[p]
      {
        WindowAt(s, begin, end, p - begin);
        WindowAt(t, begin, end, p - begin);
      }
    }
    if forall p | 0 <= p < |s| :: Shown(p, begin, end) ==> s[p] == t[p] {
      forall j | 0 <= j < |Window(s, begin, end)|
        ensures Window(s, begin, end)[j] == Window(t, begin, end)[j]
      {
        WindowAt(s, begin, end, j);
        WindowAt(t, begin, end, j);
      }
    }
  }

  /** For one checksum function, a window is the slice of the true archive if and only if the checksum
      bytes it shows come out right: those of the part of each content it fetches against those of the
      whole content. */
  lemma ExactIffChecksumsRight(fhs: seq<FileHeader>, begin: nat, end: int, up: Upstream, sum: Checksum)
    requires ValidRange(begin, end)
    ensures WindowOf(fhs, begin, end, up, sum) == TrueWindow(fhs, begin, end, up, sum)
      <==> ChecksumsRight(fhs, begin, end, up, sum)
  {
    hide Archive, ItemsOf, Window, CrcField, RightByte, Shown;
    var xs, ys := ItemsOf(fhs, begin, end, up, sum), ItemsOf(fhs, 0, -1, up, sum);
    SameLength(fhs, begin, end, up, sum);
    WindowsEqualIff(Archive(xs, []), Archive(ys, []), begin, end);
    if ChecksumsRight(fhs, begin, end, up, sum) {
      forall p | 0 <= p < |Archive(xs, [])| && Shown(p, begin, end)
        ensures Archive(xs, [])[p] == Archive(ys, [])[p]
      {
        ByteAgrees(fhs, begin, end, up, sum, p);
      }
    } else {
      var i, k :| 0 <= i < |fhs| && 0 <= k < CRC_LEN
        && Shown(CrcField(xs, i) + k, begin, end) && !RightByte(fhs, i, k, begin, end, up, sum);
      FieldByte(fhs, i, k, begin, end, up, sum);
    }
  }

  /** A file of one byte, named `f`. */
  function OneByteFile(): FileHeader {
    Blank([0x66], Some([0x66]), None, 1)
  }

  lemma OneByteItem(begin: nat, end: int, up: Upstream)
    requires end >= -1 && up([0x66]).content == [0]
    ensures var xs := ItemsOf([OneByteFile()], begin, end, up, Crc32.Crc);
      && |xs| == 1 && xs[0].content == [0] && xs[0].header.crc32 == Crc32.Crc(Clip([0], 31, begin, end))
      && CrcField(xs, 0) == 64
  {
    hide Clip, Crc32.Crc, LocalHeader, Descriptor, Prepare, CrcField, Member, Stream, OneByteFile;
    var fhs := [OneByteFile()];
    var h := Prepare(OneByteFile());
    OneByteHeader();
    assert fhs[..0] == [];
    assert ItemsOf([], begin, end, up, Crc32.Crc) == [];
    var xs := ItemsOf(fhs, begin, end, up, Crc32.Crc);
    NoStream();
    assert xs == [] + [ItemAt(h, 0, begin, end, up, Crc32.Crc)];
    OneByteMember(xs[0]);
    assert xs[..0] == [] && xs[..1] == xs;
    FirstCrcField(xs);
  }

  lemma NoStream()
    ensures Stream([]) == []
  {
  }

  lemma OneByteHeader()
    ensures var h := Prepare(OneByteFile());
      && |h.name| == 1 && h.extra == [] && !h.IsDirectory() && h.url == Some([0x66]) && h.uncompressedSize64 == 1
      && |LocalHeader(h)| == 31 && |Descriptor(h)| == 16
  {
    PreparedSizes(OneByteFile());
    var h := Prepare(OneByteFile());
    assert LocalRecord(h).Size() == FILE_HEADER_LEN;
    assert DescriptorRecord(h).Size() == 16;
  }

  lemma OneByteMember(it: Item)
    requires it.header == Prepare(OneByteFile()).(crc32 := it.header.crc32) && it.content == [0]
    ensures |Member(it)| == 48
  {
    hide Prepare, LocalHeader, Descriptor;
    OneByteHeader();
    ChecksumNotInRecords(Prepare(OneByteFile()), it.header.crc32);
  }

  lemma FirstCrcField(xs: seq<Item>)
    requires |xs| == 1 && |Member(xs[0])| == 48
    ensures CrcField(xs, 0) == 64
  {
    hide Member, DirectoryHeader;
    assert xs[..0] == [] && Stream([]) == [];
    assert Headers(xs)[..0] == [] && Directory([]) == [];
  }

  /** The first byte of the checksum field, in the archive that a request cuts its window from. */
  lemma OneByteField(begin: nat, end: int, up: Upstream)
    requires end >= -1 && up([0x66]).content == [0]
    ensures var b := Archive(ItemsOf([OneByteFile()], begin, end, up, Crc32.Crc), []);
      |b| > 64 && b[64] == LE(CRC_LEN, Crc32.Crc(Clip([0], 31, begin, end)))[0]
  {
    hide ItemsOf, Archive, CrcField, Crc32.Crc, Clip, LE, OneByteFile;
    OneByteItem(begin, end, up);
    CrcInArchive(ItemsOf([OneByteFile()], begin, end, up, Crc32.Crc), 0, 0);
  }

  lemma ClippedByte()
    ensures Clip([0], 31, 48, 94) == [] && Clip([0], 31, 0, -1) == [0]
  {
  }

  lemma FirstBytes()
    ensures LE(CRC_LEN, Crc32.Crc([]))[0] == 0x00 && LE(CRC_LEN, Crc32.Crc([0]))[0] == 0x8D
  {
    hide Crc32.Crc;
    Crc32.CrcOfNothing();
    Crc32.CrcOfZeroByte();
  }

  /** A request for the directory alone of an archive with one file of one byte: the first byte of the
      entry's CRC-32 is that of no bytes at all. */
  lemma DirectoryAlone(up: Upstream)
    requires up([0x66]) == Page([0], Whole)
    ensures var fhs := [OneByteFile()];
      && |WindowOf(fhs, 48, 94, up, Crc32.Crc)| > 16 && |TrueWindow(fhs, 48, 94, up, Crc32.Crc)| > 16
      && WindowOf(fhs, 48, 94, up, Crc32.Crc)[16] == 0x00
      && TrueWindow(fhs, 48, 94, up, Crc32.Crc)[16] == 0x8D
  {
    hide ItemsOf, Archive, Window, Crc32.Crc, Clip, LE, OneByteFile;
    var fhs := [OneByteFile()];
    OneByteField(48, 94, up);
    OneByteField(0, -1, up);
    ClippedByte();
    FirstBytes();
    WindowAt(Archive(ItemsOf(fhs, 48, 94, up, Crc32.Crc), []), 48, 94, 16);
    WindowAt(Archive(ItemsOf(fhs, 0, -1, up, Crc32.Crc), []), 48, 94, 16);
  }
}
