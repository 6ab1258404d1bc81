/** The archiver as a whole: what the service sends is what the reader reads. */
module ZipEndToEnd {
  import opened Bytes
  import opened Options
  import opened ZipFormat
  import opened ZipWindow
  import opened ZipWriter
  import opened ZipChecksums
  import P = ZipPlan
  import S = ZipService
  import R = ZipReader
  import opened ZipRoundTrip
  import opened ZipLayout
  import opened Utf8

  lemma PreparedIsReadable(e: P.Entry, root: P.Path)
    requires !TooLong(Prepare(P.HeaderOf(e, root, true)))
    ensures Readable(Prepare(P.HeaderOf(e, root, true)))
  {
    var fh := P.HeaderOf(e, root, true);
    PreparedSizes(fh);
    assert Prepare(fh).name == fh.name && Prepare(fh).comment == [];
    match fh.modified
    case None =>
      assert Prepare(fh).extra == [];
    case Some(s) =>
      StampIsWellFormed(s);
      assert Prepare(fh).extra == [] + StampRecord(s).Bytes() == StampRecord(s).Bytes();
  }

  lemma {:induction false} NamesFit(fhs: seq<FileHeader>, i: nat, begin: nat, end: int, up: Upstream, sum: Checksum)
    requires end >= -1 && S.Writable(fhs, begin, end, up, sum) && i < |fhs|
    ensures !TooLong(Prepare(fhs[i]))
  {
    hide Prepare, TooLong, ItemsOf, Stream;
    if i < |fhs| - 1 {
      NamesFit(fhs[..|fhs| - 1], i, begin, end, up, sum);
    }
  }

  /** Whatever window a request asks for, the archive it is a window of can be read back. */
  lemma PlannedIsReadable(files: seq<P.File>, root: P.Path, begin: nat, end: int, up: Upstream, sum: Checksum)
    requires ValidRange(begin, end) && S.AllSized(files, root, up)
    requires S.Writable(S.HeaderList(files, root, true), begin, end, up, sum)
    ensures ReadableItems(ItemsOf(S.HeaderList(files, root, true), begin, end, up, sum))
  {
    hide Prepare, P.Plan, TooLong, Stream, OffsetOf, Readable, LocalHeader, Clip, P.HeaderOf;
    var fhs := S.HeaderList(files, root, true);
    var es := P.Plan(files, root);
    ItemsAre(fhs, begin, end, up, sum);
    forall i | 0 <= i < |fhs|
      ensures var it := ItemsOf(fhs, begin, end, up, sum)[i];
        Readable(it.header) && |it.content| == it.header.compressedSize64
    {
      NamesFit(fhs, i, begin, end, up, sum);
      PreparedIsReadable(es[i], root);
      if es[i].FileEntry? {
        S.PlannedFiles(files, root, i);
      } else {
        S.FolderHasNoPage(es[i], root, true, up);
      }
      PreparedFits(fhs[i], up);
      PreparedSizes(fhs[i]);
      ReadableButChecksum(Prepare(fhs[i]), ItemsOf(fhs, begin, end, up, sum)[i].header.crc32);
    }
  }

  lemma ReadableButChecksum(h: FileHeader, crc: u32)
    requires Readable(h)
    ensures Readable(h.(crc32 := crc))
  {
  }

  // ---------- what a reader of the archive sees ----------

  /** What stays the same for every entry: stored, version 2.0 or 4.5, no comment, no attributes, the
      modification time it was given, and the UTF-8 flag if its name is text that needs it. */
  ghost predicate EntryAsPlanned(f: R.File, size: nat, modified: Option<Stamp>) {
    && f.compression == 0 && f.comment == [] && f.externalAttrs == 0
    && f.creatorVersion == 20 && f.readerVersion == (if size >= 0xffff_ffff then 45 else 20)
    && f.flags / 16 % 128 == 0 && f.flags / 0x1000 == 0 && f.flags % 8 == 0
    && (f.flags / 0x800 % 2 == 1 <==> SpecialText(f.name))
    && match modified
       case None => f.modifiedTime == 0 && f.modifiedDate == 0 && |f.extra| == if Wide(f) then 28 else 0
       case Some(s) =>
         && f.modifiedTime == s.time && f.modifiedDate == s.date && |f.extra| == (if Wide(f) then 37 else 9)
         && f.extra[0] == 0x55 && f.extra[1] == 0x54 && Two(f.extra, 2) == 5 && f.extra[4] == 1 && Four(f.extra, 5) == s.unix
  }

  /** A folder: its path and a slash, no content, no descriptor flag. */
  ghost predicate FolderAsPlanned(f: R.File, path: seq<byte>, modified: Option<Stamp>) {
    && f.name == path + [0x2f]
    && f.compressedSize64 == 0 && f.uncompressedSize64 == 0 && f.flags / 8 % 2 == 0 && f.crc32 == 0
    && EntryAsPlanned(f, 0, modified)
  }

  /** A file: the rest of its path after the root and a slash, or the whole path without that prefix;
      its declared size and the descriptor flag, or neither when that name ends in a slash. */
  ghost predicate FileAsPlanned(f: R.File, file: P.File, root: seq<byte>) {
    var prefix := root + [0x2f];
    && (if prefix <= file.path then file.path == prefix + f.name else f.name == file.path)
    && var directory := f.name != [] && f.name[|f.name| - 1] == 0x2f;
    && f.compressedSize64 == f.uncompressedSize64 == (if directory then 0 else file.size)
    && (f.flags / 8 % 2 == 1 <==> !directory)
    && EntryAsPlanned(f, file.size, file.modified)
  }

  lemma HeaderAsPlanned(e: P.Entry, root: P.Path, h: FileHeader, offset: nat)
    requires h == Prepare(P.HeaderOf(e, root, true)).(crc32 := h.crc32) && (e.FolderEntry? ==> h.crc32 == 0)
    ensures match e
      case FolderEntry(path, m) => FolderAsPlanned(AsRead(h, offset), path, m)
      case FileEntry(file) => FileAsPlanned(AsRead(h, offset), file, root)
  {
    hide Prepare, NeedsUtf8, SpecialText, StampRecord, Zip64Record, Two, Four, Record.Bytes, EntryAsPlanned;
    var fh := P.HeaderOf(e, root, true);
    CompletedHeader(fh);
    EntryAsPlannedFrom(fh, h, offset);
    assert (fh.name + [0x2f])[|fh.name|] == 0x2f;
  }

  lemma EntryAsPlannedFrom(fh: FileHeader, h: FileHeader, offset: nat)
    requires fh == P.Blank(fh.name, fh.url, fh.modified, fh.uncompressedSize64)
    requires h == Prepare(fh).(crc32 := h.crc32)
    ensures EntryAsPlanned(AsRead(h, offset), fh.uncompressedSize64, fh.modified)
  {
    hide Prepare, NeedsUtf8, SpecialText, StampRecord, Zip64Record, Two, Four, Record.Bytes;
    CompletedHeader(fh);
    FlagNeededIff(fh.name);
    ExtraSize(h, offset);
    match fh.modified
    case None =>
    case Some(s) =>
      StampedExtra(s, h, offset);
  }

  lemma StampedExtra(s: Stamp, h: FileHeader, offset: nat)
    requires h.extra == [] + StampRecord(s).Bytes()
    ensures var e := DirectoryExtra(h, offset);
      && |e| == (if Entry64(h, offset) then 37 else 9)
      && e[0] == 0x55 && e[1] == 0x54 && Two(e, 2) == 5 && e[4] == 1 && Four(e, 5) == s.unix
  {
    hide StampRecord, Zip64Record, Two, Four, Record.Bytes;
    StampBytes(s);
    ZipBlockSize(h, offset);
    var b, more := StampRecord(s).Bytes(), Zip64Record(h, offset).Bytes();
    assert h.extra == b;
    StampKept(b, more);
  }

  lemma StampKept(b: seq<byte>, more: seq<byte>)
    requires |b| == 9
    ensures var e := b + more;
      && e[0] == b[0] && e[1] == b[1] && e[4] == b[4] && Two(e, 2) == Two(b, 2) && Four(e, 5) == Four(b, 5)
  {
  }

  /** The i-th entry of an archive is a planned one, and its member stands where it says: a local header,
      then for a file the upstream's page and a descriptor, for a directory nothing. */
  ghost predicate AsPlanned(items: seq<Item>, i: nat, e: P.Entry, root: seq<byte>, up: Upstream)
    requires ReadableItems(items) && |Archive(items, [])| < INT64_BOUND && i < |items|
  {
    var b, f, at := Archive(items, []), ReadEntry(items, i), OffsetOf(items, i);
    && f.headerOffset == at && LocalFixed(b, at, f)
    && var data := at + 30 + |f.name| + Two(b, at + 28);
    match e
    case FolderEntry(path, m) =>
      FolderAsPlanned(f, path, m) && OffsetOf(items, i + 1) == data
    case FileEntry(file) =>
      && FileAsPlanned(f, file, root)
      && (if f.flags / 8 % 2 == 1 then
            && data + file.size <= |b| && b[data..][..file.size] == up(file.path).content
            && DescriptorAt(b, data + file.size, f)
            && OffsetOf(items, i + 1) == data + file.size + if file.size >= 0xffff_ffff then 24 else 16
          else OffsetOf(items, i + 1) == data)
  }

  /** The archive that a request cuts its window from has the planned entries, in order. */
  lemma PlannedEntry(files: seq<P.File>, root: P.Path, begin: nat, end: int, up: Upstream, sum: Checksum, i: nat)
    requires ValidRange(begin, end) && S.AllSized(files, root, up)
    requires S.Writable(S.HeaderList(files, root, true), begin, end, up, sum) && i < |P.Plan(files, root)|
    requires |Archive(ItemsOf(S.HeaderList(files, root, true), begin, end, up, sum), [])| < INT64_BOUND
    ensures var items := ItemsOf(S.HeaderList(files, root, true), begin, end, up, sum);
      && |items| == |P.Plan(files, root)| && ReadableItems(items)
      && AsPlanned(items, i, P.Plan(files, root)[i], root, up)
  {
    hide Prepare, P.Plan, Stream, OffsetOf, Archive, ReadableItems, S.Writable, S.AllSized, ItemsOf, AsPlanned,
      FolderAsPlanned, FileAsPlanned, ReadEntry, P.HeaderOf, S.HeaderList, ContentOf;
    var items := ItemsOf(S.HeaderList(files, root, true), begin, end, up, sum);
    PlannedIsReadable(files, root, begin, end, up, sum);
    PlannedItems(files, root, begin, end, up, sum, i);
    match P.Plan(files, root)[i]
    case FolderEntry(path, m) =>
      FolderBytes(items, i, path, m, root, up);
    case FileEntry(file) =>
      S.PlannedFiles(files, root, i);
      ContentThere(files, root, file, up);
      FileBytes(items, i, file, root, up);
  }

  lemma FolderBytes(items: seq<Item>, i: nat, path: P.Path, m: Option<Stamp>, root: P.Path, up: Upstream)
    requires ReadableItems(items) && |Archive(items, [])| < INT64_BOUND && i < |items|
    requires FolderAsPlanned(ReadEntry(items, i), path, m)
    ensures AsPlanned(items, i, P.FolderEntry(path, m), root, up)
  {
    hide Stream, OffsetOf, Archive, DescriptorAt, ReadableItems, ReadEntry, Two, EntryAsPlanned;
    LocalHeaderBytes(items, i);
    DescriptorBytes(items, i);
  }

  lemma FileBytes(items: seq<Item>, i: nat, file: P.File, root: P.Path, up: Upstream)
    requires ReadableItems(items) && |Archive(items, [])| < INT64_BOUND && i < |items|
    requires FileAsPlanned(ReadEntry(items, i), file, root) && |up(file.path).content| == file.size
    requires ReadEntry(items, i).flags / 8 % 2 == 1 ==> items[i].content == up(file.path).content
    ensures AsPlanned(items, i, P.FileEntry(file), root, up)
  {
    hide Stream, OffsetOf, Archive, DescriptorAt, ReadableItems, ReadEntry, Two, EntryAsPlanned;
    LocalHeaderBytes(items, i);
    DescriptorBytes(items, i);
    ContentBytes(items, i);
  }

  lemma PlannedItems(files: seq<P.File>, root: P.Path, begin: nat, end: int, up: Upstream, sum: Checksum, i: nat)
    requires ValidRange(begin, end) && i < |P.Plan(files, root)|
    requires var items := ItemsOf(S.HeaderList(files, root, true), begin, end, up, sum);
      ReadableItems(items) && |Archive(items, [])| < INT64_BOUND
    ensures var items := ItemsOf(S.HeaderList(files, root, true), begin, end, up, sum);
      var f := ReadEntry(items, i);
      && |items| == |P.Plan(files, root)|
      && match P.Plan(files, root)[i]
         case FolderEntry(path, m) => FolderAsPlanned(f, path, m)
         case FileEntry(file) =>
           && FileAsPlanned(f, file, root)
           && (f.flags / 8 % 2 == 1 ==>
                 items[i].content == ContentOf(Prepare(P.HeaderOf(P.FileEntry(file), root, true)), up)
                 && !Prepare(P.HeaderOf(P.FileEntry(file), root, true)).IsDirectory())
  {
    hide Prepare, P.Plan, Stream, OffsetOf, Archive, AsRead, ReadableItems, ItemsOf, FolderAsPlanned, FileAsPlanned, ReadEntry, P.HeaderOf;
    var fhs, e := S.HeaderList(files, root, true), P.Plan(files, root)[i];
    var items := ItemsOf(fhs, begin, end, up, sum);
    ItemsAre(fhs, begin, end, up, sum);
    PlannedItem(e, root, OffsetOf(items, i), begin, end, up, sum);
    ReadEntryIs(items, i);
    HeaderAsPlanned(e, root, items[i].header, OffsetOf(items, i));
    if e.FileEntry? {
      FlaggedIsFile(e, root, items[i].header, OffsetOf(items, i));
    }
  }

  lemma FlaggedIsFile(e: P.Entry, root: P.Path, h: FileHeader, offset: nat)
    requires h == Prepare(P.HeaderOf(e, root, true)).(crc32 := h.crc32)
    ensures AsRead(h, offset).flags / 8 % 2 == 1 ==> !Prepare(P.HeaderOf(e, root, true)).IsDirectory()
  {
    hide Prepare, P.HeaderOf;
    CompletedHeader(P.HeaderOf(e, root, true));
  }

  /** What the window fetched decides the checksum and nothing else of an item. */
  lemma PlannedItem(e: P.Entry, root: P.Path, at: nat, begin: nat, end: int, up: Upstream, sum: Checksum)
    requires end >= -1
    ensures var h, it := Prepare(P.HeaderOf(e, root, true)), ItemAt(Prepare(P.HeaderOf(e, root, true)), at, begin, end, up, sum);
      && it.header == h.(crc32 := it.header.crc32) && it.content == ContentOf(h, up)
      && (e.FolderEntry? ==> it.header.crc32 == 0)
  {
    hide LocalHeader, Clip, NeedsUtf8;
  }

  lemma ContentThere(files: seq<P.File>, root: P.Path, file: P.File, up: Upstream)
    requires S.AllSized(files, root, up) && file in files
    ensures |up(file.path).content| == file.size
    ensures var h := Prepare(P.HeaderOf(P.FileEntry(file), root, true)); !h.IsDirectory() ==> ContentOf(h, up) == up(file.path).content
  {
    hide NeedsUtf8;
    assert Sized(P.HeaderOf(P.FileEntry(file), root, true), up);
  }

  /** A content stands behind the local header of an entry. */
  ghost predicate ContentAt(b: seq<byte>, f: R.File, content: seq<byte>) {
    && f.headerOffset >= 0 && f.headerOffset + 30 <= |b|
    && var data := f.headerOffset + 30 + |f.name| + Two(b, f.headerOffset + 28);
    && data + |content| <= |b| && b[data..][..|content|] == content
  }

  lemma ContentBytes(items: seq<Item>, i: nat)
    requires ReadableItems(items) && |Archive(items, [])| < INT64_BOUND && i < |items|
    ensures ContentAt(Archive(items, []), ReadEntry(items, i), items[i].content)
  {
    hide Archive, OffsetOf, LocalRecord, Descriptor, ReadEntry, Two, DirectoryExtra, WellFormedExtra, Record.Bytes;
    assert items[i] in items;
    ReadEntryIs(items, i);
    MemberParts(items, i);
    LocalFields(Archive(items, []), OffsetOf(items, i), items[i].header, ReadEntry(items, i));
  }

  /** The positions lo, ..., hi - 1 of a content that starts at `data` are those that a window has: the
      content ends there or the window does, on both sides, or they have nothing in common. */
  predicate InWindow(n: nat, data: nat, begin: nat, end: int, lo: nat, hi: nat) {
    && lo <= hi <= n
    && if lo < hi then
         && begin <= data + lo && (lo == 0 || begin == data + lo)
         && (end == -1 || data + hi - 1 <= end) && (hi == n || end == data + hi - 1)
       else n == 0 || data + n <= begin || (end != -1 && end < data)
  }

  lemma ClippedPart(s: seq<byte>, data: nat, begin: nat, end: int) returns (lo: nat, hi: nat)
    requires ValidRange(begin, end)
    ensures InWindow(|s|, data, begin, end, lo, hi) && Clip(s, data, begin, end) == s[lo..hi]
  {
    var l, h := ClipLo(data, begin), ClipHi(|s|, data, end);
    if l < h {
      lo, hi := l, h;
    } else {
      lo, hi := 0, 0;
    }
  }

  /** The checksum that a request writes for a file is that of the part of the content that its window has,
      whatever else it asks for; all of the content for a request for the whole archive. */
  lemma PlannedChecksum(files: seq<P.File>, root: P.Path, begin: nat, end: int, up: Upstream, sum: Checksum, i: nat)
    returns (lo: nat, hi: nat)
    requires ValidRange(begin, end) && S.AllSized(files, root, up)
    requires S.Writable(S.HeaderList(files, root, true), begin, end, up, sum)
    requires i < |P.Plan(files, root)| && P.Plan(files, root)[i].FileEntry?
    requires |Archive(ItemsOf(S.HeaderList(files, root, true), begin, end, up, sum), [])| < INT64_BOUND
    ensures var items := ItemsOf(S.HeaderList(files, root, true), begin, end, up, sum);
      && |items| == |P.Plan(files, root)| && ReadableItems(items)
      && var f, content := ReadEntry(items, i), up(P.Plan(files, root)[i].file.path).content;
      && OffsetOf(items, i) + 30 <= |Archive(items, [])|
      && var data := OffsetOf(items, i) + 30 + |f.name| + Two(Archive(items, []), OffsetOf(items, i) + 28);
      if f.flags / 8 % 2 == 1 then InWindow(|content|, data, begin, end, lo, hi) && f.crc32 == sum(content[lo..hi])
      else f.crc32 == sum([])
    ensures var content := up(P.Plan(files, root)[i].file.path).content;
      begin == 0 && end == -1 && content != [] ==> lo == 0 && hi == |content|
  {
    hide Archive, OffsetOf, ItemsOf, ReadEntry, Two, LocalHeader, Clip, Prepare, S.Writable, S.AllSized, P.Plan, S.HeaderList,
      ReadableItems, P.HeaderOf, FileAsPlanned, FolderAsPlanned, InWindow;
    var items := ItemsOf(S.HeaderList(files, root, true), begin, end, up, sum);
    PlannedIsReadable(files, root, begin, end, up, sum);
    PlannedItems(files, root, begin, end, up, sum, i);
    ItemsAre(S.HeaderList(files, root, true), begin, end, up, sum);
    var e, at := P.Plan(files, root)[i], OffsetOf(items, i);
    S.PlannedFiles(files, root, i);
    assert S.HeaderList(files, root, true)[i] == P.HeaderOf(e, root, true) by {
      ListedHeader(files, root, i);
    }
    ContentThere(files, root, e.file, up);
    FileItem(e, root, at, begin, end, up, sum);
    ContentPlace(items, i);
    var data := at + |LocalHeader(items[i].header)|;
    if items[i].content == [] {
      ClipOfEmpty(data, begin, end);
    }
    lo, hi := ClippedPart(up(e.file.path).content, data, begin, end);
    WholeShown(|up(e.file.path).content|, data, lo, hi);
  }

  lemma ListedHeader(files: seq<P.File>, root: P.Path, i: nat)
    requires i < |P.Plan(files, root)|
    ensures i < |S.HeaderList(files, root, true)| && S.HeaderList(files, root, true)[i] == P.HeaderOf(P.Plan(files, root)[i], root, true)
  {
    hide P.Plan, P.HeaderOf;
  }

  lemma WholeShown(n: nat, data: nat, lo: nat, hi: nat)
    ensures InWindow(n, data, 0, -1, lo, hi) && n > 0 ==> lo == 0 && hi == n
  {
  }

  /** The item made of a file: only its checksum depends on the window. */
  lemma FileItem(e: P.Entry, root: P.Path, at: nat, begin: nat, end: int, up: Upstream, sum: Checksum)
    requires end >= -1 && e.FileEntry?
    ensures var h, it := Prepare(P.HeaderOf(e, root, true)), ItemAt(Prepare(P.HeaderOf(e, root, true)), at, begin, end, up, sum);
      && it.header.crc32 == sum(Clip(it.content, at + |LocalHeader(it.header)|, begin, end))
      && it.content == ContentOf(h, up) && (h.IsDirectory() ==> it.content == [])
      && (it.header.flags / 8 % 2 == 1 <==> !h.IsDirectory())
  {
    hide LocalHeader, Clip, Prepare, NeedsUtf8;
    var h := Prepare(P.HeaderOf(e, root, true));
    CompletedHeader(P.HeaderOf(e, root, true));
    ChecksumNotInRecords(h, ItemAt(h, at, begin, end, up, sum).header.crc32);
  }

  lemma ContentPlace(items: seq<Item>, i: nat)
    requires ReadableItems(items) && |Archive(items, [])| < INT64_BOUND && i < |items|
    ensures var b, f, at := Archive(items, []), ReadEntry(items, i), OffsetOf(items, i);
      && at + 30 <= |b| && at + |LocalHeader(items[i].header)| == at + 30 + |f.name| + Two(b, at + 28)
      && f.crc32 == items[i].header.crc32 && f.flags == items[i].header.flags
  {
    hide Archive, OffsetOf, LocalRecord, Descriptor, ReadEntry, Two, DirectoryExtra, WellFormedExtra, Record.Bytes;
    assert items[i] in items;
    ReadEntryIs(items, i);
    MemberParts(items, i);
    LocalFields(Archive(items, []), OffsetOf(items, i), items[i].header, ReadEntry(items, i));
    LocalSize(items[i].header);
  }

  /** What is read of the archive that a request cuts its window from: one entry for each planned
      folder and file, as planned, in order; PlannedEntry tells where their contents are. */
  lemma FilesReadBack(files: seq<P.File>, root: P.Path, begin: nat, end: int, up: Upstream, sum: Checksum)
    returns (read: seq<R.File>)
    requires ValidRange(begin, end)
    requires S.AllSized(files, root, up) && S.Writable(S.HeaderList(files, root, true), begin, end, up, sum)
    requires var items := ItemsOf(S.HeaderList(files, root, true), begin, end, up, sum);
      |Archive(items, [])| < INT64_BOUND && !MisleadingArchive(items)
    ensures var items := ItemsOf(S.HeaderList(files, root, true), begin, end, up, sum);
      && (forall room: nat :: |read| <= room ==> R.Open(Archive(items, []), room) == R.Ok(R.Contents(read, [])))
      && |read| == |P.Plan(files, root)| == |items|
      && forall i :: 0 <= i < |read| ==>
          && read[i].headerOffset == OffsetOf(items, i)
          && match P.Plan(files, root)[i]
             case FolderEntry(path, m) => FolderAsPlanned(read[i], path, m)
             case FileEntry(file) => FileAsPlanned(read[i], file, root)
  {
    hide Prepare, P.Plan, Stream, OffsetOf, Readable, Archive, LocalHeader, Clip, P.HeaderOf, DirectoryExtra, ReadEntry,
      MisleadingArchive, R.Open, ReadableItems, S.Writable, S.AllSized, ItemsOf, FolderAsPlanned, FileAsPlanned, Two, DescriptorAt;
    var items := ItemsOf(S.HeaderList(files, root, true), begin, end, up, sum);
    PlannedIsReadable(files, root, begin, end, up, sum);
    forall room: nat
      ensures R.Open(Archive(items, []), room) == Reread(items, room)
    {
      ReadsBack(items, room);
    }
    read := AllAsRead(Headers(items));
    forall i | 0 <= i < |read|
      ensures read[i] == ReadEntry(items, i) && read[i].headerOffset == OffsetOf(items, i)
      ensures match P.Plan(files, root)[i]
        case FolderEntry(path, m) => FolderAsPlanned(read[i], path, m)
        case FileEntry(file) => FileAsPlanned(read[i], file, root)
    {
      ReadEntryIs(items, i);
      PlannedEntry(files, root, begin, end, up, sum, i);
    }
  }

  /** The answers to two requests for adjacent windows, joined. */
  function Joined(fhs: seq<FileHeader>, begin: nat, mid: nat, end: nat, up: Upstream, sum: Checksum): seq<byte>
    requires begin <= mid < end
  {
    WindowOf(fhs, begin, mid, up, sum) + WindowOf(fhs, mid + 1, end, up, sum)
  }

  /** The request that position `p` is answered by asks for nothing that would make it wrong. */
  predicate TrustedInPart(fhs: seq<FileHeader>, begin: nat, mid: nat, end: nat, up: Upstream, sum: Checksum, p: nat)
    requires begin <= mid < end
  {
    if p <= mid then Trusted(ItemsOf(fhs, begin, mid, up, sum), begin, mid, p)
    else Trusted(ItemsOf(fhs, mid + 1, end, up, sum), mid + 1, end, p)
  }

  lemma JoinedLength(fhs: seq<FileHeader>, begin: nat, mid: nat, end: nat, up: Upstream, sum: Checksum)
    requires begin <= mid < end
    ensures |Joined(fhs, begin, mid, end, up, sum)| == |TrueWindow(fhs, begin, end, up, sum)|
  {
    hide ItemsOf, Archive, Window, WindowOf;
    SameLength(fhs, begin, mid, up, sum);
    SameLength(fhs, mid + 1, end, up, sum);
    WindowSplit(Archive(ItemsOf(fhs, 0, -1, up, sum), []), begin, mid, end);
  }

  /** Two requests for adjacent windows give, joined, the slice of the one true archive: of its length,
      and with its byte at every position that is not in the checksum field of an entry whose content
      the request for that position cuts. */
  lemma AdjacentWindows(fhs: seq<FileHeader>, begin: nat, mid: nat, end: nat, up: Upstream, sum: Checksum, p: nat)
    requires begin <= mid < end
    requires begin <= p <= end && p < |Archive(ItemsOf(fhs, 0, -1, up, sum), [])|
    requires TrustedInPart(fhs, begin, mid, end, up, sum, p)
    ensures |Joined(fhs, begin, mid, end, up, sum)| == |TrueWindow(fhs, begin, end, up, sum)|
    ensures p - begin < |TrueWindow(fhs, begin, end, up, sum)|
    ensures Joined(fhs, begin, mid, end, up, sum)[p - begin] == TrueWindow(fhs, begin, end, up, sum)[p - begin]
  {
    hide ItemsOf, Archive, Trusted;
    JoinedLength(fhs, begin, mid, end, up, sum);
    SameLength(fhs, begin, mid, up, sum);
    SameLength(fhs, mid + 1, end, up, sum);
    if p <= mid {
      WindowsAgree(fhs, begin, mid, up, sum, p);
    } else {
      WindowsAgree(fhs, mid + 1, end, up, sum, p);
    }
  }

  /** If both requests cover the checksums they show, nothing is left out. */
  lemma AdjacentCoveredWindows(fhs: seq<FileHeader>, begin: nat, mid: nat, end: nat, up: Upstream, sum: Checksum)
    requires begin <= mid < end
    requires ChecksumsCovered(ItemsOf(fhs, begin, mid, up, sum), begin, mid)
    requires ChecksumsCovered(ItemsOf(fhs, mid + 1, end, up, sum), mid + 1, end)
    ensures Joined(fhs, begin, mid, end, up, sum) == TrueWindow(fhs, begin, end, up, sum)
  {
    hide ItemsOf, Archive, Window, WindowOf, ShowsContent, CrcField;
    JoinedLength(fhs, begin, mid, end, up, sum);
    forall j | 0 <= j < |TrueWindow(fhs, begin, end, up, sum)|
      ensures Joined(fhs, begin, mid, end, up, sum)[j] == TrueWindow(fhs, begin, end, up, sum)[j]
    {
      WindowAt(Archive(ItemsOf(fhs, 0, -1, up, sum), []), begin, end, j);
      AdjacentWindows(fhs, begin, mid, end, up, sum, begin + j);
    }
  }

  // ---------- the reader's 65535 ----------

  /** A name whose entry makes a directory of 65535 bytes that ends like a zip64 locator. */
  function MisleadingName(): seq<byte> {
    seq(65469, _ => 0x61) + LocatorRecord(Nil, 0).Bytes()
  }

  function MisleadingItem(): Item {
    Item(Prepare(P.Blank(MisleadingName(), None, None, 0)), [])
  }

  lemma MisleadingHeader()
    ensures var h := MisleadingItem().header;
      && h.name == MisleadingName() && h.extra == [] && h.comment == []
      && Readable(h) && h.compressedSize64 == 0 && |h.name| == 65489
      && !Entry64(h, 0)
  {
    hide LE, MisleadingName;
    MisleadingLength();
    PreparedSizes(P.Blank(MisleadingName(), None, None, 0));
  }

  lemma MisleadingLength()
    ensures |MisleadingName()| == 65489
  {
    hide LE;
    assert LocatorRecord(Nil, 0).Size() == 20;
  }

  lemma MisleadingFill(tail: seq<byte>) returns (fill: seq<byte>)
    requires tail == LocatorRecord(Nil, 0).Bytes()
    ensures MisleadingName() == fill + tail
  {
    fill := seq(65469, _ => 0x61);
  }

  lemma MisleadingDirectory(h: FileHeader)
    requires h.name == MisleadingName() && h.extra == [] && h.comment == [] && !Entry64(h, 0) && |h.name| == 65489
    ensures |Directory([Header(h, 0)])| == 0xffff
    ensures exists front :: Directory([Header(h, 0)]) == front + LocatorRecord(Nil, 0).Bytes()
  {
    hide LE, MisleadingName, DirectoryRecord;
    var r := DirectoryRecord(h, 0);
    DirectoryRecordSize(h, 0);
    var tail := LocatorRecord(Nil, 0).Bytes();
    assert LocatorRecord(Nil, 0).Size() == 20;
    assert [Header(h, 0)][..0] == [] && Directory([]) == [];
    var fill := MisleadingFill(tail);
    assert Directory([Header(h, 0)]) == DirectoryHeader(h, 0) == (r.Bytes() + fill) + tail;
  }

  lemma LocatorBytes(b: seq<byte>, end: nat)
    requires end <= |b| && end >= 20 && Has(b, end - 20, LocatorRecord(Nil, 0).Bytes())
    ensures R.Locator(b, end) == Some(0)
  {
    hide At, LE;
    var r4 := LocatorRecord(Nil, 0);
    var loc := r4.Bytes();
    assert r4.Size() == 20 && Has(loc, 0, loc);
    var r3 := Peeled(r4, loc, 0);
    var r2 := Peeled(r3, loc, 0);
    var r1 := Peeled(r2, loc, 0);
    var r0 := Peeled(r1, loc, 0);
  }

  /** An archive of that shape is misleading, and what its locator points to is a local header. */
  lemma MisleadingShapeMisleads(it: Item)
    requires |Directory([Header(it.header, 0)])| == 0xffff && Headers([it]) == [Header(it.header, 0)]
    requires |Stream([it])| < UINT32_MAX
    requires var b := Archive([it], []);
      && DIRECTORY_END_LEN + 20 <= |b|
      && Has(b, |b| - DIRECTORY_END_LEN - 20, LocatorRecord(Nil, 0).Bytes())
      && U32At(b, 0) == FILE_HEADER_SIGNATURE
    ensures MisleadingArchive([it]) && !StrayRecord(Archive([it], []))
  {
    hide LE, At, R.Locator, Archive, Stream, Directory, Has;
    var b := Archive([it], []);
    LocatorBytes(b, |b| - DIRECTORY_END_LEN);
  }

  lemma MisleadingItemShape()
    ensures var items := [MisleadingItem()];
      ReadableItems(items) && |Archive(items, [])| < INT64_BOUND && MisleadingArchive(items) && !StrayRecord(Archive(items, []))
  {
    hide LE, At, Prepare, MisleadingName, Readable, Archive, Stream, Directory, Headers, Has, LocatorRecord, StrayRecord,
      MisleadingArchive, MisleadingItem;
    MisleadingHeader();
    EmptyItem();
    MisleadingDirectory(MisleadingItem().header);
    MisleadingShape(MisleadingItem());
    MisleadingShapeMisleads(MisleadingItem());
  }

  lemma EmptyItem()
    ensures MisleadingItem().content == []
  {
  }

  /** A member the writer accepts, whose archive the reader refuses. */
  lemma MisleadingExample()
    ensures var items := [MisleadingItem()];
      && ReadableItems(items) && |Archive(items, [])| < INT64_BOUND
      && MisleadingArchive(items)
      && forall room: nat :: R.Open(Archive(items, []), room) != R.Ok(R.Contents(AllAsRead(Headers(items)), []))
  {
    hide R.Open, Archive, Headers, AllAsRead, ReadableItems, MisleadingArchive, StrayRecord, MisleadingItem;
    var items := [MisleadingItem()];
    MisleadingItemShape();
    forall room: nat
      ensures R.Open(Archive(items, []), room) != R.Ok(R.Contents(AllAsRead(Headers(items)), []))
    {
      ReadsBackIffNotMisleading(items, room);
    }
  }

  lemma MisleadingShape(it: Item)
    requires it.header.name == MisleadingName() && it.header.extra == [] && it.content == []
    requires |it.header.name| == 65489 && |Directory([Header(it.header, 0)])| == 0xffff
    requires exists front :: Directory([Header(it.header, 0)]) == front + LocatorRecord(Nil, 0).Bytes()
    ensures var b := Archive([it], []);
      && DIRECTORY_END_LEN + 20 <= |b| < INT64_BOUND
      && |Stream([it])| < UINT32_MAX && Headers([it]) == [Header(it.header, 0)]
      && Has(b, |b| - DIRECTORY_END_LEN - 20, LocatorRecord(Nil, 0).Bytes())
      && U32At(b, 0) == FILE_HEADER_SIGNATURE
  {
    hide LE, At, MisleadingName, DirectoryHeader, Stream, LocalHeader, Descriptor, Directory, EndRecords, Member;
    OneMember(it);
    var dir, start := Headers([it]), |Stream([it])|;
    var loc, e := LocatorRecord(Nil, 0).Bytes(), EndRecord(1, 0xffff, start, []).Bytes();
    assert LocatorRecord(Nil, 0).Size() == 20 && EndRecord(1, 0xffff, start, []).Size() == DIRECTORY_END_LEN;
    var b := Archive([it], []);
    var front :| Directory(dir) == front + loc;
    ShortEndRecords(start);
    var before := Stream([it]) + front;
    Pieces(Stream([it]), front, loc, e);
    assert b == before + (loc + e);
    assert Has(b, 0, b);
    HasParts(b, 0, before, loc + e);
    HasParts(b, |before|, loc, e);
    LocalSignature(it, b);
  }

  lemma ShortEndRecords(start: nat)
    requires start < UINT32_MAX
    ensures EndRecords(1, 0xffff, start, []) == EndRecord(1, 0xffff, start, []).Bytes()
  {
    hide LE;
    var e := EndRecord(1, 0xffff, start, []).Bytes();
    assert e + [] == e;
  }

  lemma Pieces(a: seq<byte>, b: seq<byte>, c: seq<byte>, d: seq<byte>)
    ensures a + (b + c + d) == a + b + (c + d)
  {
  }

  lemma OneMember(it: Item)
    requires it.header.extra == [] && it.content == [] && |it.header.name| == 65489
    ensures Stream([it]) == Member(it) && Headers([it]) == [Header(it.header, 0)]
    ensures |Stream([it])| < UINT32_MAX
  {
    hide LE;
    assert [it][..0] == [] && Stream([]) == [];
    assert LocalRecord(it.header).Size() == FILE_HEADER_LEN;
    assert DescriptorRecord(it.header).Size() <= 24;
  }

  lemma LocalSignature(it: Item, b: seq<byte>)
    requires Member(it) <= b
    ensures |b| >= 4 && U32At(b, 0) == FILE_HEADER_SIGNATURE
  {
    hide LE, At, Descriptor;
    var r := LocalRecord(it.header);
    assert r.Size() == FILE_HEADER_LEN;
    assert Member(it) == r.Bytes() + (it.header.name + it.header.extra + it.content + Descriptor(it.header));
    assert b[0..][..FILE_HEADER_LEN] == r.Bytes();
    ReadsLocalRecord(it.header, r.Bytes());
    AtShift(b, 0, FILE_HEADER_LEN, 0, 4);
  }
}
