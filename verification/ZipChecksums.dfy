/** How archives depend on checksums. A windowed request hashes only the bytes it fetches, so the
    checksum fields of the directory are the one part of the archive that a window can get wrong. */
module ZipChecksums {
  import opened Bytes
  import opened Options
  import opened ZipFormat
  import opened ZipWindow
  import opened ZipWriter

  /** Equal but for the checksum and for where the content comes from. */
  predicate Alike(a: FileHeader, b: FileHeader) {
    a.(crc32 := 0, url := None) == b.(crc32 := 0, url := None)
  }

  predicate AlikeItems(xs: seq<Item>, ys: seq<Item>) {
    && |xs| == |ys|
    && forall i :: 0 <= i < |xs| ==> Alike(xs[i].header, ys[i].header) && |xs[i].content| == |ys[i].content|
  }

  predicate AlikeHeaders(xs: seq<Header>, ys: seq<Header>) {
    && |xs| == |ys|
    && forall i :: 0 <= i < |xs| ==> Alike(xs[i].file, ys[i].file) && xs[i].offset == ys[i].offset
  }

  lemma AlikeRecords(a: FileHeader, b: FileHeader, offset: nat)
    requires Alike(a, b)
    ensures LocalHeader(a) == LocalHeader(b) && Descriptor(a) == Descriptor(b)
    ensures |DirectoryHeader(a, offset)| == |DirectoryHeader(b, offset)|
  {
    assert a == b.(crc32 := a.crc32, url := a.url);
    assert DirectoryExtra(a, offset) == DirectoryExtra(b, offset);
    DirectoryRecordSize(a, offset);
    DirectoryRecordSize(b, offset);
  }

  lemma {:induction false} AlikeStreams(xs: seq<Item>, ys: seq<Item>)
    requires AlikeItems(xs, ys)
    ensures |Stream(xs)| == |Stream(ys)|
    ensures (forall i :: 0 <= i < |xs| ==> xs[i].content == ys[i].content) ==> Stream(xs) == Stream(ys)
  {
    hide LocalHeader, Descriptor;
    if xs != [] {
      AlikeStreams(xs[..|xs| - 1], ys[..|ys| - 1]);
      AlikeRecords(xs[|xs| - 1].header, ys[|ys| - 1].header, 0);
    }
  }

  lemma AlikeOffsets(xs: seq<Item>, ys: seq<Item>)
    requires AlikeItems(xs, ys)
    ensures AlikeHeaders(Headers(xs), Headers(ys))
  {
    hide Stream;
    forall i | 0 <= i < |xs|
      ensures OffsetOf(xs, i) == OffsetOf(ys, i)
    {
      AlikeStreams(xs[..i], ys[..i]);
    }
  }

  lemma {:induction false} AlikeDirectories(xs: seq<Header>, ys: seq<Header>)
    requires AlikeHeaders(xs, ys)
    ensures |Directory(xs)| == |Directory(ys)|
  {
    hide DirectoryHeader;
    if xs != [] {
      AlikeDirectories(xs[..|xs| - 1], ys[..|ys| - 1]);
      AlikeRecords(xs[|xs| - 1].file, ys[|ys| - 1].file, xs[|xs| - 1].offset);
    }
  }

  /** The length of an archive does not depend on checksums, nor on what the contents are. */
  lemma AlikeArchives(xs: seq<Item>, ys: seq<Item>, comment: seq<byte>)
    requires AlikeItems(xs, ys)
    ensures |Archive(xs, comment)| == |Archive(ys, comment)|
  {
    hide Stream, Directory, EndRecords, Headers;
    AlikeStreams(xs, ys);
    AlikeOffsets(xs, ys);
    AlikeDirectories(Headers(xs), Headers(ys));
  }

  // ---------- the checksum field of a directory entry ----------

  const CRC_POS := 16
  const CRC_LEN := 4

  function DirectoryHead(h: FileHeader): Record {
    Nil.U32(DIRECTORY_HEADER_SIGNATURE).U16(h.creatorVersion).U16(h.readerVersion)
      .U16(h.flags).U16(h.compression).U16(h.modifiedTime).U16(h.modifiedDate)
  }

  lemma DirectoryRecordSize(h: FileHeader, offset: nat)
    ensures DirectoryRecord(h, offset).Size() == DIRECTORY_HEADER_LEN
    ensures DirectoryHead(h).Size() == CRC_POS
  {
    assert Nil.Size() == 0;
  }

  /** A byte of a longer record is that of its front, or of the last integer. */
  lemma ByteOfPut(f: Record, w: nat, v: nat, q: nat)
    requires q < f.Size() + w
    ensures Record.Put(f, w, v).Bytes()[q] == if q < f.Size() then f.Bytes()[q] else LE(w, v)[q - f.Size()]
  {
  }

  /** At position `q`, `a` and `b` have the same byte, and inside the field `a` has that of `crc`. */
  ghost predicate Differ(a: Record, b: Record, crc: u32, q: nat) {
    && a.Size() == b.Size()
    && (q < a.Size() ==>
          if CRC_POS <= q < CRC_POS + CRC_LEN then a.Bytes()[q] == LE(CRC_LEN, crc)[q - CRC_POS]
          else a.Bytes()[q] == b.Bytes()[q])
  }

  lemma DifferStep(a: Record, b: Record, w: nat, v: nat, crc: u32, q: nat)
    requires Differ(a, b, crc, q) && a.Size() >= CRC_POS + CRC_LEN
    ensures Differ(Record.Put(a, w, v), Record.Put(b, w, v), crc, q)
  {
    if q < a.Size() + w {
      ByteOfPut(a, w, v, q);
      ByteOfPut(b, w, v, q);
    }
  }

  /** Two directory entries that differ in the checksum differ only in its four bytes. */
  lemma HeadDiffers(h: FileHeader, crc: u32, q: nat)
    ensures DirectoryHead(h).Size() == CRC_POS
    ensures Differ(DirectoryHead(h).U32(h.crc32), DirectoryHead(h).U32(crc), h.crc32, q)
  {
    hide LE;
    if q < CRC_POS + CRC_LEN {
      ByteOfPut(DirectoryHead(h), 4, h.crc32, q);
      ByteOfPut(DirectoryHead(h), 4, crc, q);
    }
  }

  lemma EntryBytes(h: FileHeader, crc: u32, offset: nat, q: nat)
    requires q < DIRECTORY_HEADER_LEN
    ensures Differ(DirectoryRecord(h, offset), DirectoryRecord(h.(crc32 := crc), offset), h.crc32, q)
  {
    hide LE, Record.Bytes, Differ;
    DirectoryRecordSize(h, offset);
    var a0, b0 := DirectoryHead(h).U32(h.crc32), DirectoryHead(h).U32(crc);
    HeadDiffers(h, crc, q);
    var r := DirectoryRecord(h, offset);
    var a1, b1 := Step(a0, b0, r.front.front.front.front.front.front.front, h.crc32, q);
    var a2, b2 := Step(a1, b1, r.front.front.front.front.front.front, h.crc32, q);
    var a3, b3 := Step(a2, b2, r.front.front.front.front.front, h.crc32, q);
    var a4, b4 := Step(a3, b3, r.front.front.front.front, h.crc32, q);
    var a5, b5 := Step(a4, b4, r.front.front.front, h.crc32, q);
    var a6, b6 := Step(a5, b5, r.front.front, h.crc32, q);
    var a7, b7 := Step(a6, b6, r.front, h.crc32, q);
    var a8, b8 := Step(a7, b7, r, h.crc32, q);
  }

  lemma Step(a: Record, b: Record, like: Record, crc: u32, q: nat) returns (a': Record, b': Record)
    requires Differ(a, b, crc, q) && a.Size() >= CRC_POS + CRC_LEN && like.Put?
    ensures a' == Record.Put(a, like.width, like.value) && b' == Record.Put(b, like.width, like.value)
    ensures Differ(a', b', crc, q) && a'.Size() == a.Size() + like.width
  {
    DifferStep(a, b, like.width, like.value, crc, q);
    a', b' := Record.Put(a, like.width, like.value), Record.Put(b, like.width, like.value);
  }

  // ---------- the checksum fields of an archive ----------

  /** Where the checksum of the `i`-th directory entry starts in the directory. */
  function CrcInDirectory(dir: seq<Header>, i: nat): nat
    requires i < |dir|
  {
    |Directory(dir[..i])| + CRC_POS
  }

  lemma {:induction false} DirectoriesAgree(xs: seq<Header>, ys: seq<Header>, q: nat)
    requires AlikeHeaders(xs, ys) && q < |Directory(xs)|
    requires forall i :: 0 <= i < |xs| && CrcInDirectory(xs, i) <= q < CrcInDirectory(xs, i) + CRC_LEN ==>
      xs[i].file.crc32 == ys[i].file.crc32
    ensures |Directory(xs)| == |Directory(ys)| && Directory(xs)[q] == Directory(ys)[q]
  {
    hide DirectoryHeader;
    AlikeDirectories(xs, ys);
    if xs != [] {
      var n := |xs| - 1;
      var front := xs[..n];
      AlikeDirectories(front, ys[..n]);
      if q < |Directory(front)| {
        forall i | 0 <= i < n
          ensures front[..i] == xs[..i]
        {
        }
        DirectoriesAgree(front, ys[..n], q);
      } else {
        AlikeRecords(xs[n].file, ys[n].file, xs[n].offset);
        assert CrcInDirectory(xs, n) == |Directory(front)| + CRC_POS;
        EntriesAgree(xs[n].file, ys[n].file, xs[n].offset, q - |Directory(front)|);
      }
    }
  }

  lemma EntriesAgree(a: FileHeader, b: FileHeader, offset: nat, q: nat)
    requires Alike(a, b) && q < |DirectoryHeader(a, offset)| == |DirectoryHeader(b, offset)|
    requires CRC_POS <= q < CRC_POS + CRC_LEN ==> a.crc32 == b.crc32
    ensures DirectoryHeader(a, offset)[q] == DirectoryHeader(b, offset)[q]
  {
    hide LE, DirectoryRecord, DirectoryExtra;
    var c := a.(crc32 := b.crc32);
    SameRecord(a, b, offset);
    DirectoryRecordSize(a, offset);
    DirectoryRecordSize(c, offset);
    var x, y := DirectoryRecord(a, offset).Bytes(), DirectoryRecord(c, offset).Bytes();
    var t := a.name + DirectoryExtra(a, offset) + a.comment;
    assert DirectoryHeader(a, offset) == x + t && DirectoryHeader(b, offset) == y + t;
    if q < DIRECTORY_HEADER_LEN {
      EntryBytes(a, b.crc32, offset, q);
    }
  }

  lemma SameRecord(a: FileHeader, b: FileHeader, offset: nat)
    requires Alike(a, b)
    ensures a.name == b.name && a.comment == b.comment && DirectoryExtra(a, offset) == DirectoryExtra(b, offset)
    ensures DirectoryRecord(b, offset) == DirectoryRecord(a.(crc32 := b.crc32), offset)
  {
    hide LE;
    assert b == a.(crc32 := b.crc32, url := b.url);
  }

  lemma {:induction false} CrcByte(dir: seq<Header>, i: nat, k: nat)
    requires i < |dir| && k < CRC_LEN
    ensures CrcInDirectory(dir, i) + k < |Directory(dir)|
    ensures Directory(dir)[CrcInDirectory(dir, i) + k] == LE(CRC_LEN, dir[i].file.crc32)[k]
  {
    hide DirectoryHeader;
    var n := |dir| - 1;
    if i < n {
      assert dir[..n][..i] == dir[..i];
      CrcByte(dir[..n], i, k);
    } else {
      CrcOfEntry(dir[n].file, dir[n].offset, k);
    }
  }

  lemma CrcOfEntry(h: FileHeader, offset: nat, k: nat)
    requires k < CRC_LEN
    ensures CRC_POS + k < |DirectoryHeader(h, offset)|
    ensures DirectoryHeader(h, offset)[CRC_POS + k] == LE(CRC_LEN, h.crc32)[k]
  {
    DirectoryRecordSize(h, offset);
    EntryBytes(h, h.crc32, offset, CRC_POS + k);
  }

  /** Where the checksum of the `i`-th entry starts in the archive. */
  function CrcField(items: seq<Item>, i: nat): nat
    requires i < |items|
  {
    |Stream(items)| + CrcInDirectory(Headers(items), i)
  }

  predicate SameContents(xs: seq<Item>, ys: seq<Item>) {
    AlikeItems(xs, ys) && forall i :: 0 <= i < |xs| ==> xs[i].content == ys[i].content
  }

  /** Archives of the same contents agree at every position outside the checksum fields, and
      inside the fields of entries with equal checksums. */
  lemma ArchivesAgree(xs: seq<Item>, ys: seq<Item>, p: nat)
    requires SameContents(xs, ys) && p < |Archive(xs, [])|
    requires forall i :: 0 <= i < |xs| && CrcField(xs, i) <= p < CrcField(xs, i) + CRC_LEN ==>
      xs[i].header.crc32 == ys[i].header.crc32
    ensures |Archive(ys, [])| == |Archive(xs, [])| && Archive(xs, [])[p] == Archive(ys, [])[p]
  {
    hide Stream, Directory, EndRecords;
    AlikeArchives(xs, ys, []);
    AlikeStreams(xs, ys);
    AlikeOffsets(xs, ys);
    AlikeDirectories(Headers(xs), Headers(ys));
    var n := |Stream(xs)|;
    if n <= p < n + |Directory(Headers(xs))| {
      DirectoriesAgree(Headers(xs), Headers(ys), p - n);
    }
  }

  lemma CrcInArchive(items: seq<Item>, i: nat, k: nat)
    requires i < |items| && k < CRC_LEN
    ensures CrcField(items, i) + k < |Archive(items, [])|
    ensures Archive(items, [])[CrcField(items, i) + k] == LE(CRC_LEN, items[i].header.crc32)[k]
  {
    hide Stream, Directory, EndRecords;
    CrcByte(Headers(items), i, k);
  }

  // ---------- windows and checksums ----------

  lemma {:induction false} ItemsAre(fhs: seq<FileHeader>, begin: nat, end: int, up: Upstream, sum: Checksum)
    requires end >= -1
    ensures var items := ItemsOf(fhs, begin, end, up, sum);
      forall i :: 0 <= i < |items| ==>
        items[i] == ItemAt(Prepare(fhs[i]), OffsetOf(items, i), begin, end, up, sum)
  {
    hide Prepare, ItemAt, Stream;
    if fhs != [] {
      var n := |fhs| - 1;
      var front := ItemsOf(fhs[..n], begin, end, up, sum);
      var items := ItemsOf(fhs, begin, end, up, sum);
      ItemsAre(fhs[..n], begin, end, up, sum);
      assert items[..n] == front;
      forall i | 0 <= i < n
        ensures items[..i] == front[..i]
      {
      }
    }
  }

  /** The members two writers make of the same headers differ in checksums alone. */
  lemma WindowsDifferInChecksums(fhs: seq<FileHeader>, begin: nat, end: int, begin': nat, end': int, up: Upstream,
      sum: Checksum, sum': Checksum)
    requires end >= -1 && end' >= -1
    ensures SameContents(ItemsOf(fhs, begin, end, up, sum), ItemsOf(fhs, begin', end', up, sum'))
  {
    hide ItemAt, Alike, Prepare, OffsetOf, Stream;
    var xs, ys := ItemsOf(fhs, begin, end, up, sum), ItemsOf(fhs, begin', end', up, sum');
    ItemsAre(fhs, begin, end, up, sum);
    ItemsAre(fhs, begin', end', up, sum');
    forall i | 0 <= i < |fhs|
      ensures Alike(xs[i].header, ys[i].header) && xs[i].content == ys[i].content
    {
      AlikeItemAt(Prepare(fhs[i]), OffsetOf(xs, i), OffsetOf(ys, i), begin, end, begin', end', up, sum, sum');
    }
  }

  lemma AlikeItemAt(h: FileHeader, at: nat, at': nat, begin: nat, end: int, begin': nat, end': int, up: Upstream,
      sum: Checksum, sum': Checksum)
    requires end >= -1 && end' >= -1
    ensures var x, y := ItemAt(h, at, begin, end, up, sum), ItemAt(h, at', begin', end', up, sum');
      Alike(x.header, y.header) && x.content == y.content
  {
    hide LocalHeader, Clip;
  }

  /** Whether the window has a byte of the checksum of entry `i`. */
  predicate ShowsChecksum(items: seq<Item>, i: nat, begin: nat, end: int)
    requires i < |items|
  {
    begin < CrcField(items, i) + CRC_LEN && (end == -1 || CrcField(items, i) <= end)
  }

  /** Whether the window has all of the content of entry `i`. */
  predicate ShowsContent(items: seq<Item>, i: nat, begin: nat, end: int)
    requires i < |items|
  {
    var at, n := OffsetOf(items, i) + |LocalHeader(items[i].header)|, |items[i].content|;
    n == 0 || (begin <= at && (end == -1 || at + n <= end + 1))
  }

  /** No entry's checksum is in the window without its content. */
  predicate ChecksumsCovered(items: seq<Item>, begin: nat, end: int) {
    forall i :: 0 <= i < |items| && items[i].header.url.Some? && ShowsChecksum(items, i, begin, end) ==>
      ShowsContent(items, i, begin, end)
  }

  lemma CoveredContent(s: seq<byte>, at: nat, begin: nat, end: int)
    requires ValidRange(begin, end)
    ensures Clip(s, at, begin, end) == s <==> |s| == 0 || (begin <= at && (end == -1 || at + |s| <= end + 1))
  {
  }

  /** An entry's checksum is that of the part of its content it was made from, and that part is
      all of it exactly if the window shows the content. */
  lemma ChecksumOfWindow(fhs: seq<FileHeader>, i: nat, begin: nat, end: int, up: Upstream,
      sum: Checksum) returns (part: seq<byte>)
    requires ValidRange(begin, end) && i < |fhs|
    ensures var xs := ItemsOf(fhs, begin, end, up, sum);
      && (xs[i].header.url.None? ==> xs[i].header.crc32 == Prepare(fhs[i]).crc32)
      && (xs[i].header.url.Some? ==> xs[i].header.crc32 == sum(part))
      && (part == xs[i].content <==> ShowsContent(xs, i, begin, end))
  {
    hide Prepare, LocalHeader, Clip, Stream;
    ItemsAre(fhs, begin, end, up, sum);
    var h, xs := Prepare(fhs[i]), ItemsOf(fhs, begin, end, up, sum);
    var at := OffsetOf(xs, i) + |LocalHeader(h)|;
    ChecksumNotInRecords(h, xs[i].header.crc32);
    CoveredContent(xs[i].content, at, begin, end);
    part := Clip(xs[i].content, at, begin, end);
  }

  function WindowOf(fhs: seq<FileHeader>, begin: nat, end: int, up: Upstream, sum: Checksum): seq<byte>
    requires ValidRange(begin, end)
  {
    Window(Archive(ItemsOf(fhs, begin, end, up, sum), []), begin, end)
  }

  /** The window of the archive that a request for all of it would get. */
  function TrueWindow(fhs: seq<FileHeader>, begin: nat, end: int, up: Upstream, sum: Checksum): seq<byte>
    requires ValidRange(begin, end)
  {
    Window(Archive(ItemsOf(fhs, 0, -1, up, sum), []), begin, end)
  }

  lemma WindowAt(s: seq<byte>, begin: nat, end: int, j: nat)
    requires ValidRange(begin, end)
    ensures j < |Window(s, begin, end)| <==> begin + j < |s| && (end == -1 || begin + j <= end)
    ensures j < |Window(s, begin, end)| ==> Window(s, begin, end)[j] == s[begin + j]
  {
  }

  lemma WindowLengths(s: seq<byte>, t: seq<byte>, begin: nat, end: int)
    requires ValidRange(begin, end) && |s| == |t|
    ensures |Window(s, begin, end)| == |Window(t, begin, end)|
  {
  }

  /** Position `p` is in the checksum field of no entry whose content the window cuts. */
  predicate Trusted(items: seq<Item>, begin: nat, end: int, p: nat) {
    forall i :: 0 <= i < |items| && CrcField(items, i) <= p < CrcField(items, i) + CRC_LEN ==>
      items[i].header.url.None? || ShowsContent(items, i, begin, end)
  }

  /** What one request for a window delivers is, checksum fields of uncovered entries apart, what
      every other request delivers at the same positions: for every file list, every window and
      every position of it. */
  lemma WindowsAgree(fhs: seq<FileHeader>, begin: nat, end: int, up: Upstream, sum: Checksum, p: nat)
    requires ValidRange(begin, end)
    requires begin <= p < |Archive(ItemsOf(fhs, begin, end, up, sum), [])| && (end == -1 || p <= end)
    requires Trusted(ItemsOf(fhs, begin, end, up, sum), begin, end, p)
    ensures |WindowOf(fhs, begin, end, up, sum)| == |TrueWindow(fhs, begin, end, up, sum)|
    ensures p - begin < |WindowOf(fhs, begin, end, up, sum)|
    ensures WindowOf(fhs, begin, end, up, sum)[p - begin] == TrueWindow(fhs, begin, end, up, sum)[p - begin]
  {
    hide Archive, ShowsContent, CrcField, ItemsOf, Prepare;
    var xs, ys := ItemsOf(fhs, begin, end, up, sum), ItemsOf(fhs, 0, -1, up, sum);
    WindowsDifferInChecksums(fhs, begin, end, 0, -1, up, sum, sum);
    AlikeArchives(xs, ys, []);
    forall i | 0 <= i < |xs| && CrcField(xs, i) <= p < CrcField(xs, i) + CRC_LEN
      ensures xs[i].header.crc32 == ys[i].header.crc32
    {
      EqualChecksums(fhs, i, begin, end, up, sum);
    }
    ArchivesAgree(xs, ys, p);
  }

  /** Every window of every request is as long as the slice. */
  lemma SameLength(fhs: seq<FileHeader>, begin: nat, end: int, up: Upstream, sum: Checksum)
    requires ValidRange(begin, end)
    ensures |Archive(ItemsOf(fhs, begin, end, up, sum), [])| == |Archive(ItemsOf(fhs, 0, -1, up, sum), [])|
    ensures |WindowOf(fhs, begin, end, up, sum)| == |TrueWindow(fhs, begin, end, up, sum)|
  {
    hide Archive, ItemsOf;
    WindowsDifferInChecksums(fhs, begin, end, 0, -1, up, sum, sum);
    AlikeArchives(ItemsOf(fhs, begin, end, up, sum), ItemsOf(fhs, 0, -1, up, sum), []);
  }

  lemma EqualChecksums(fhs: seq<FileHeader>, i: nat, begin: nat, end: int, up: Upstream, sum: Checksum)
    requires ValidRange(begin, end) && i < |fhs|
    requires var xs := ItemsOf(fhs, begin, end, up, sum);
      xs[i].header.url.None? || ShowsContent(xs, i, begin, end)
    ensures ItemsOf(fhs, begin, end, up, sum)[i].header.crc32 == ItemsOf(fhs, 0, -1, up, sum)[i].header.crc32
  {
    hide ItemsOf, Prepare, ShowsContent, CrcField;
    PositionsAgree(fhs, i, begin, end, 0, -1, up, sum, sum);
    ShownInFull(ItemsOf(fhs, 0, -1, up, sum), i);
    var part := ChecksumOfWindow(fhs, i, begin, end, up, sum);
    var whole := ChecksumOfWindow(fhs, i, 0, -1, up, sum);
  }

  lemma UrlsAgree(fhs: seq<FileHeader>, i: nat, begin: nat, end: int, up: Upstream, sum: Checksum)
    requires ValidRange(begin, end) && i < |fhs|
    ensures ItemsOf(fhs, begin, end, up, sum)[i].header.url == Prepare(fhs[i]).url
  {
    hide Prepare, LocalHeader, Clip, Stream;
    ItemsAre(fhs, begin, end, up, sum);
  }

  lemma ExactWhenCovered(fhs: seq<FileHeader>, begin: nat, end: int, up: Upstream, sum: Checksum)
    requires ValidRange(begin, end) && ChecksumsCovered(ItemsOf(fhs, begin, end, up, sum), begin, end)
    ensures WindowOf(fhs, begin, end, up, sum) == TrueWindow(fhs, begin, end, up, sum)
  {
    hide Archive, ShowsContent, ItemsOf, Window, CrcField;
    var xs, ys := ItemsOf(fhs, begin, end, up, sum), ItemsOf(fhs, 0, -1, up, sum);
    WindowsDifferInChecksums(fhs, begin, end, 0, -1, up, sum, sum);
    AlikeArchives(xs, ys, []);
    var s, t := WindowOf(fhs, begin, end, up, sum), TrueWindow(fhs, begin, end, up, sum);
    WindowLengths(Archive(xs, []), Archive(ys, []), begin, end);
    forall j | 0 <= j < |s|
      ensures s[j] == t[j]
    {
      WindowAt(Archive(xs, []), begin, end, j);
      WindowsAgree(fhs, begin, end, up, sum, begin + j);
    }
  }

  /** If a window shows a byte of a checksum but not all of its content, some checksum function
      gives that byte a wrong value. */
  lemma InexactWhenUncovered(fhs: seq<FileHeader>, i: nat, begin: nat, end: int, up: Upstream,
      sum: Checksum) returns (bad: Checksum)
    requires ValidRange(begin, end) && i < |fhs|
    requires var xs := ItemsOf(fhs, begin, end, up, sum);
      xs[i].header.url.Some? && ShowsChecksum(xs, i, begin, end) && !ShowsContent(xs, i, begin, end)
    ensures WindowOf(fhs, begin, end, up, bad) != TrueWindow(fhs, begin, end, up, bad)
  {
    hide Archive, ShowsContent, ItemsOf, Window, CrcField, Prepare, LE;
    var content := ItemsOf(fhs, begin, end, up, sum)[i].content;
    bad := (s: seq<byte>) => if s == content then UINT32_MAX else 0;
    var xs, ys := ItemsOf(fhs, begin, end, up, bad), ItemsOf(fhs, 0, -1, up, bad);
    PositionsAgree(fhs, i, begin, end, begin, end, up, sum, bad);
    PositionsAgree(fhs, i, begin, end, 0, -1, up, sum, bad);
    ShownInFull(ys, i);
    var part := ChecksumOfWindow(fhs, i, begin, end, up, bad);
    var whole := ChecksumOfWindow(fhs, i, 0, -1, up, bad);
    var field := CrcField(xs, i);
    var k := if begin > field then begin - field else 0;
    CrcInArchive(xs, i, k);
    CrcInArchive(ys, i, k);
    FirstBytes(k);
    var j := field + k - begin;
    WindowAt(Archive(xs, []), begin, end, j);
    WindowAt(Archive(ys, []), begin, end, j);
    assert WindowOf(fhs, begin, end, up, bad)[j] == 0;
    assert TrueWindow(fhs, begin, end, up, bad)[j] == 255;
  }

  lemma FirstBytes(k: nat)
    requires k < CRC_LEN
    ensures LE(CRC_LEN, 0)[k] == 0 && LE(CRC_LEN, UINT32_MAX)[k] == 255
  {
    LEOfZero(CRC_LEN);
    assert LE(4, 0xffff_ffff) == [255] + LE(3, 0xff_ffff);
    assert LE(3, 0xff_ffff) == [255] + LE(2, 0xffff);
    assert LE(2, 0xffff) == [255] + LE(1, 0xff);
    assert LE(1, 0xff) == [255];
  }

  lemma ShownInFull(items: seq<Item>, i: nat)
    requires i < |items|
    ensures ShowsContent(items, i, 0, -1)
  {
  }

  /** Positions and contents are the same for every window and checksum function. */
  lemma PositionsAgree(fhs: seq<FileHeader>, i: nat, begin: nat, end: int, begin': nat, end': int, up: Upstream,
      sum: Checksum, sum': Checksum)
    requires ValidRange(begin, end) && ValidRange(begin', end') && i < |fhs|
    ensures var xs, ys := ItemsOf(fhs, begin, end, up, sum), ItemsOf(fhs, begin', end', up, sum');
      && CrcField(xs, i) == CrcField(ys, i) && xs[i].content == ys[i].content
      && xs[i].header.url == ys[i].header.url
      && (ShowsContent(xs, i, begin, end) <==> ShowsContent(ys, i, begin, end))
      && |Archive(xs, [])| == |Archive(ys, [])|
  {
    hide Stream, Directory, LocalHeader, ItemsOf, Prepare, Archive;
    AlikeArchives(ItemsOf(fhs, begin, end, up, sum), ItemsOf(fhs, begin', end', up, sum'), []) by {
      WindowsDifferInChecksums(fhs, begin, end, begin', end', up, sum, sum');
    }
    var xs, ys := ItemsOf(fhs, begin, end, up, sum), ItemsOf(fhs, begin', end', up, sum');
    WindowsDifferInChecksums(fhs, begin, end, begin', end', up, sum, sum');
    UrlsAgree(fhs, i, begin, end, up, sum);
    UrlsAgree(fhs, i, begin', end', up, sum');
    AlikeStreams(xs, ys);
    AlikeStreams(xs[..i], ys[..i]);
    AlikeRecords(xs[i].header, ys[i].header, 0);
    AlikeOffsets(xs, ys);
    AlikeDirectories(Headers(xs)[..i], Headers(ys)[..i]);
  }

  /** Exactly when windows are slices of the one true archive, whatever the checksum function:
      when no checksum byte is requested without the content it is the checksum of. */
  lemma WindowExactIffCovered(fhs: seq<FileHeader>, begin: nat, end: int, up: Upstream, sum: Checksum)
    requires ValidRange(begin, end)
    ensures ChecksumsCovered(ItemsOf(fhs, begin, end, up, sum), begin, end) <==>
      forall f: Checksum :: WindowOf(fhs, begin, end, up, f) == TrueWindow(fhs, begin, end, up, f)
  {
    hide WindowOf, TrueWindow, ShowsContent, ItemsOf, CrcField;
    var xs := ItemsOf(fhs, begin, end, up, sum);
    if ChecksumsCovered(xs, begin, end) {
      forall f: Checksum
        ensures WindowOf(fhs, begin, end, up, f) == TrueWindow(fhs, begin, end, up, f)
      {
        forall i | 0 <= i < |fhs|
          ensures var ys := ItemsOf(fhs, begin, end, up, f);
            && CrcField(xs, i) == CrcField(ys, i) && xs[i].header.url == ys[i].header.url
            && (ShowsContent(xs, i, begin, end) <==> ShowsContent(ys, i, begin, end))
        {
          PositionsAgree(fhs, i, begin, end, begin, end, up, sum, f);
        }
        ExactWhenCovered(fhs, begin, end, up, f);
      }
    } else {
      var i :| 0 <= i < |xs| && xs[i].header.url.Some? && ShowsChecksum(xs, i, begin, end) && !ShowsContent(xs, i, begin, end);
      var bad := InexactWhenUncovered(fhs, i, begin, end, up, sum);
    }
  }
}
