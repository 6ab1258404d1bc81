/** The streaming writer: it keeps a virtual position, clips every record to the requested
    window, and fetches only the part of each content that the window needs. */
module ZipWriter {
  import opened Bytes
  import opened Buffers
  import opened Numbers
  import opened Options
  import opened ZipFormat
  import opened ZipWindow

  /** How far a request for a page gets: all bytes asked for arrive, only the first `n` do,
      or the answer is an error status. */
  datatype Service = Whole | Broken(n: nat) | Refused

  /** A page of the upstream, which honours Range requests. */
  datatype Page = Page(content: seq<byte>, service: Service)

  type Upstream = seq<byte> -> Page
  type Checksum = seq<byte> -> u32

  /** The answer to a request for bytes lo, ..., hi - 1 of a page: what arrives before the
      transfer ends, and whether it ended well. */
  function Fetch(page: Page, lo: nat, hi: nat): (r: (seq<byte>, bool))
    requires lo <= hi <= |page.content|
    ensures r.1 <==> page.service == Whole
    ensures r.0 <= page.content[lo..hi] && (r.1 ==> r.0 == page.content[lo..hi])
  {
    var asked := page.content[lo..hi];
    match page.service
    case Whole => (asked, true)
    case Broken(n) => (asked[..Min(n, |asked|)], false)
    case Refused => ([], false)
  }

  lemma NoDescriptor(h: FileHeader)
    requires !h.HasDataDescriptor()
    ensures Descriptor(h) == []
  {
  }

  /** What a completed header's member holds: a directory nothing, whatever its page. */
  function ContentOf(h: FileHeader, up: Upstream): seq<byte> {
    match h.url
    case Some(url) => if h.IsDirectory() then [] else up(url).content
    case None => seq(h.uncompressedSize64, _ => 0)
  }

  /** The member a writer at position `at` makes of a completed header: the checksum is that of
      the bytes it fetched, which are all of the content only if the window covers it. */
  function ItemAt(h: FileHeader, at: nat, begin: nat, end: int, up: Upstream, sum: Checksum): Item
    requires end >= -1
  {
    var content := ContentOf(h, up);
    if h.url.None? then Item(h, content)
    else Item(h.(crc32 := sum(Clip(content, at + |LocalHeader(h)|, begin, end))), content)
  }

  /** Only the directory carries checksums. */
  lemma ChecksumNotInRecords(h: FileHeader, crc: u32)
    ensures LocalHeader(h.(crc32 := crc)) == LocalHeader(h)
    ensures Descriptor(h.(crc32 := crc)) == Descriptor(h)
  {
  }

  /** The members a writer makes of a list of headers given to CreateHeader one after another. */
  function ItemsOf(fhs: seq<FileHeader>, begin: nat, end: int, up: Upstream, sum: Checksum): (items: seq<Item>)
    requires end >= -1
    ensures |items| == |fhs|
  {
    if fhs == [] then []
    else
      var front := ItemsOf(fhs[..|fhs| - 1], begin, end, up, sum);
      front + [ItemAt(Prepare(fhs[|fhs| - 1]), |Stream(front)|, begin, end, up, sum)]
  }

  predicate TooLong(h: FileHeader) {
    |h.name| > UINT16_MAX || |h.extra| > UINT16_MAX
  }

  /** A page can be passed on if all of it arrives and there is a writer to take it: a directory has
      none, and the first byte of a page for one ends the request in a panic. */
  predicate Deliverable(h: FileHeader, page: Page) {
    page.service == Whole && (h.IsDirectory() ==> page.content == [])
  }

  /** When a completed header cannot be written: its name or extra field does not fit its length
      field, or the window asks for a page that cannot be passed on. The page of a directory is asked
      for, in full, when the window reaches over the place of its empty content. */
  predicate Fails(h: FileHeader, at: nat, begin: nat, end: int, up: Upstream) {
    || TooLong(h)
    || (&& h.url.Some?
        && !Outside(h.uncompressedSize64, at + |LocalHeader(h)|, begin, end)
        && !Deliverable(h, up(h.url.value)))
  }

  /** The upstream's page is as long as the file is declared to be. */
  predicate Sized(fh: FileHeader, up: Upstream) {
    fh.url.Some? ==> |up(fh.url.value).content| == fh.uncompressedSize64
  }

  /** A completed header fits its page: a directory has size 0, any other member that of its page. */
  predicate Fitting(h: FileHeader, up: Upstream) {
    if h.IsDirectory() then h.uncompressedSize64 == 0 else Sized(h, up)
  }

  lemma PreparedFits(fh: FileHeader, up: Upstream)
    requires Sized(fh, up)
    ensures Fitting(Prepare(fh), up) && |ContentOf(Prepare(fh), up)| == Prepare(fh).uncompressedSize64
  {
  }

  class Writer {
    const begin: nat
    const end: int
    const comment: seq<byte>
    const upstream: Upstream
    const sum: Checksum
    var sink: seq<byte>
    var dir: seq<Header>
    var current: nat
    var closed: bool
    /** The members written so far. */
    ghost var items: seq<Item>

    ghost predicate Valid()
      reads this
    {
      && ValidRange(begin, end)
      && dir == Headers(items)
      && current == |Stream(items)|
      && sink == Emit(items, begin, end)
    }

    constructor (begin: nat, end: int, comment: seq<byte>, upstream: Upstream, sum: Checksum)
      requires ValidRange(begin, end)
      ensures Valid() && !closed && items == [] && sink == []
      ensures this.begin == begin && this.end == end && this.comment == comment
      ensures this.upstream == upstream && this.sum == sum
    {
      this.begin, this.end, this.comment := begin, end, comment;
      this.upstream, this.sum := upstream, sum;
      sink, dir, current, closed, items := [], [], 0, false, [];
    }

    /** Which part of the next `n` bytes to write. */
    method GetRange(n: nat) returns (partial: bool, skip: bool, lo: int, hi: int)
      requires ValidRange(begin, end)
      ensures skip <==> Outside(n, current, begin, end)
      ensures !skip ==> 0 <= lo <= hi <= n && (if partial then lo < hi else lo == 0 && hi == n)
      ensures !skip ==> lo == ClipLo(current, begin) && hi == ClipHi(n, current, end)
    {
      partial, skip, lo, hi := false, false, 0, n;
      if current + n <= begin || (current > end && end != -1) {
        partial, skip := true, true;
        return;
      }
      if current + n > begin && current < begin {
        partial := true;
        lo := begin - current;
      }
      if current + n > end && current <= end {
        partial := true;
        hi := end - current + 1;
      }
    }

    /** Writes the part of `bytes` that falls into the window, and moves past all of them. */
    method WriteClipped(bytes: seq<byte>)
      requires ValidRange(begin, end)
      modifies this`sink, this`current
      ensures sink == old(sink) + Clip(bytes, old(current), begin, end)
      ensures current == old(current) + |bytes|
    {
      var _, skip, lo, hi := GetRange(|bytes|);
      ClipBounds(bytes, current, begin, end);
      current := current + |bytes|;
      if skip {
        return;
      }
      sink := sink + bytes[lo..hi];
    }

    method GetHeader(h: FileHeader) returns (r: Option<seq<byte>>)
      ensures r == if TooLong(h) then None else Some(LocalHeader(h))
    {
      if |h.name| > UINT16_MAX || |h.extra| > UINT16_MAX {
        return None;
      }
      var b := new WriteBuf(FILE_HEADER_LEN);
      b.Uint32(FILE_HEADER_SIGNATURE);
      b.Uint16(h.readerVersion);
      b.Uint16(h.flags);
      b.Uint16(h.compression);
      b.Uint16(h.modifiedTime);
      b.Uint16(h.modifiedDate);
      b.Uint32(0);
      b.Uint32(0);
      b.Uint32(0);
      b.Uint16(ToUint16(|h.name|));
      b.Uint16(ToUint16(|h.extra|));
      var fixed := b.Done();
      r := Some(fixed + h.name + h.extra);
    }

    method WriteHeader(h: FileHeader) returns (ok: bool)
      requires ValidRange(begin, end)
      modifies this`sink, this`current
      ensures ok <==> !TooLong(h)
      ensures !ok ==> sink == old(sink) && current == old(current)
      ensures ok ==> sink == old(sink) + Clip(LocalHeader(h), old(current), begin, end)
      ensures ok ==> current == old(current) + |LocalHeader(h)|
    {
      var bytes := GetHeader(h);
      if bytes.None? {
        return false;
      }
      WriteClipped(bytes.value);
      ok := true;
    }

    /** Fetches the needed part of a content and passes it on; the position stays. Without a writer
        behind it, the first byte to pass on is a panic. */
    method WriteFile(h: FileHeader, hasWriter: bool) returns (ok: bool, sent: seq<byte>)
      requires ValidRange(begin, end) && h.url.Some? && Fitting(h, upstream) && hasWriter == !h.IsDirectory()
      modifies this`sink
      ensures sink == old(sink) + sent
      ensures ok <==> Outside(h.uncompressedSize64, current, begin, end) || Deliverable(h, upstream(h.url.value))
      ensures ok ==> sent == Clip(ContentOf(h, upstream), current, begin, end)
      ensures !ok ==> sent <= Clip(ContentOf(h, upstream), current, begin, end)
    {
      var partial, skip, lo, hi := GetRange(h.uncompressedSize64);
      var page := upstream(h.url.value);
      ClipBounds(ContentOf(h, upstream), current, begin, end);
      if skip {
        return true, [];
      }
      var answer := if partial then Fetch(page, lo, hi) else Fetch(page, 0, |page.content|);
      if !hasWriter && answer.0 != [] {
        return false, [];
      }
      sent, ok := answer.0, answer.1;
      sink := sink + sent;
    }

    method GetDescriptor(h: FileHeader) returns (bytes: seq<byte>)
      requires h.HasDataDescriptor()
      ensures bytes == Descriptor(h)
    {
      var b;
      if h.IsZip64() {
        b := new WriteBuf(DATA_DESCRIPTOR64_LEN);
        b.Uint32(DATA_DESCRIPTOR_SIGNATURE);
        b.Uint32(0);
        b.Uint64(h.compressedSize64);
        b.Uint64(h.uncompressedSize64);
      } else {
        b := new WriteBuf(DATA_DESCRIPTOR_LEN);
        b.Uint32(DATA_DESCRIPTOR_SIGNATURE);
        b.Uint32(0);
        b.Uint32(h.compressedSize);
        b.Uint32(h.uncompressedSize);
      }
      bytes := b.Done();
    }

    /** Flags, versions and timestamp of a header. */
    method CompleteFlags(fh0: FileHeader) returns (fh: FileHeader)
      ensures fh == WithStamp(WithFlags(fh0))
    {
      fh := fh0;
      if fh.nonUtf8 {
        fh := fh.(flags := ClearFlag(fh.flags, FLAG_UTF8));
      } else if fh.needsUtf8 {
        fh := fh.(flags := SetFlag(fh.flags, FLAG_UTF8));
      }
      fh := fh.(creatorVersion := fh.creatorVersion / 0x100 * 0x100 + ZIP_VERSION_20);
      fh := fh.(readerVersion := ZIP_VERSION_20);
      if fh.modified.Some? {
        var stamp := fh.modified.value;
        fh := fh.(modifiedDate := stamp.date, modifiedTime := stamp.time);
        var b := new WriteBuf(9);
        b.Uint16(EXT_TIME_EXTRA_ID);
        b.Uint16(5);
        b.Uint8(1);
        b.Uint32(stamp.unix);
        var block := b.Done();
        fh := fh.(extra := fh.extra + block);
      }
    }

    /** Completes a header the way CreateHeader does before anything is written. */
    method Complete(fh0: FileHeader) returns (fh: FileHeader)
      ensures fh == Prepare(fh0)
    {
      hide WithFlags, WithStamp;
      fh := CompleteFlags(fh0);
      fh := fh.(compressedSize64 := fh.uncompressedSize64);
      if fh.IsZip64() {
        fh := fh.(compressedSize := UINT32_MAX, uncompressedSize := UINT32_MAX);
        fh := fh.(readerVersion := ZIP_VERSION_45);
      } else {
        fh := fh.(compressedSize := fh.compressedSize64, uncompressedSize := fh.uncompressedSize64);
      }
      fh := fh.(compression := STORE);
      assert fh == WithSizes(WithStamp(WithFlags(fh0)));
      if fh.IsDirectory() {
        fh := fh.(flags := ClearFlag(fh.flags, FLAG_DESCRIPTOR));
        fh := fh.(compressedSize := 0, compressedSize64 := 0, uncompressedSize := 0, uncompressedSize64 := 0);
      } else {
        fh := fh.(flags := SetFlag(fh.flags, FLAG_DESCRIPTOR));
      }
    }

    /** Adds one member: header, content and descriptor, each clipped to the window. */
    method CreateHeader(fh0: FileHeader) returns (ok: bool)
      requires Valid() && Sized(fh0, upstream)
      modifies this
      ensures closed == old(closed)
      ensures ok <==> !Fails(Prepare(fh0), old(current), begin, end, upstream)
      ensures ok ==> Valid()
      ensures ok ==> items == old(items) + [ItemAt(Prepare(fh0), old(current), begin, end, upstream, sum)]
      ensures !ok ==> old(sink) <= sink
    {
      hide Prepare, Fails, Fitting, ItemAt, EmitMember, Member, Headers, Emit, Stream;
      var fh := Complete(fh0);
      PreparedFits(fh0, upstream);
      ok := WriteMember(fh);
      if ok {
        ghost var it := ItemAt(fh, old(current), begin, end, upstream, sum);
        EmitSnoc(items, it, begin, end);
        HeadersSnoc(items, it);
        items := items + [it];
      }
    }

    /** The member made of a completed header at the current position, and what of it is written. */
    lemma MemberPieces(h: FileHeader)
      requires ValidRange(begin, end) && Fitting(h, upstream)
      ensures var it, body := ItemAt(h, current, begin, end, upstream, sum), current + |LocalHeader(h)|;
        && it.header == (if h.url.None? then h else h.(crc32 := sum(Clip(ContentOf(h, upstream), body, begin, end))))
        && |it.content| == h.uncompressedSize64
        && |Member(it)| == |LocalHeader(h)| + h.uncompressedSize64 + |Descriptor(h)|
        && EmitMember(it, current, begin, end)
           == Clip(LocalHeader(h), current, begin, end)
              + (if h.url.Some? then Clip(ContentOf(h, upstream), body, begin, end) else [])
              + Clip(Descriptor(h), body + h.uncompressedSize64, begin, end)
    {
      hide Clip, LocalHeader, Descriptor;
      ChecksumNotInRecords(h, sum(Clip(ContentOf(h, upstream), current + |LocalHeader(h)|, begin, end)));
    }

    method WriteMember(fh0: FileHeader) returns (ok: bool)
      requires ValidRange(begin, end) && Fitting(fh0, upstream)
      modifies this`sink, this`dir, this`current
      ensures ok <==> !Fails(fh0, old(current), begin, end, upstream)
      ensures ok ==> var it := ItemAt(fh0, old(current), begin, end, upstream, sum);
        && sink == old(sink) + EmitMember(it, old(current), begin, end)
        && dir == old(dir) + [Header(it.header, old(current))]
        && current == old(current) + |Member(it)|
      ensures !ok ==> old(sink) <= sink
    {
      hide Clip, LocalHeader, Descriptor, Outside, TooLong, Deliverable, EmitMember, Member, ItemAt, ContentOf, Fitting;
      var fh := fh0;
      MemberPieces(fh0);
      dir := dir + [Header(fh, current)];
      ok := WriteHeader(fh);
      if !ok {
        return;
      }
      if fh.url.Some? {
        var sent;
        ok, sent := WriteFile(fh, !fh.IsDirectory());
        if !ok {
          return;
        }
        ChecksumNotInRecords(fh, sum(sent));
        fh := fh.(crc32 := sum(sent));
        dir := dir[|dir| - 1 := Header(fh, dir[|dir| - 1].offset)];
      }
      current := current + fh.uncompressedSize64;
      if fh.HasDataDescriptor() {
        var bytes := GetDescriptor(fh);
        WriteClipped(bytes);
      } else {
        ClipOfEmpty(current, begin, end);
        NoDescriptor(fh);
      }
    }

    /** Renders one directory entry, with the zip64 block appended if the entry needs it. */
    method DirectoryEntry(e: Header) returns (bytes: seq<byte>)
      ensures bytes == DirectoryHeader(e.file, e.offset)
    {
      var h, offset := e.file, e.offset;
      var compressed, uncompressed := h.compressedSize, h.uncompressedSize;
      if h.IsZip64() || offset >= UINT32_MAX {
        compressed, uncompressed := UINT32_MAX, UINT32_MAX;
        var block := Zip64Bytes(h, offset);
        h := h.(extra := h.extra + block);
      }
      var fixed := EntryBytes(h, compressed, uncompressed, offset);
      bytes := fixed + h.name + h.extra + h.comment;
    }

    /** The fields of a directory entry up to its checksum. */
    method EntryStart(b: WriteBuf, h: FileHeader)
      requires b.Valid() && b.pos + 16 <= b.buf.Length
      modifies b, b.buf
      ensures b.Valid() && b.pos == old(b.pos) + 16
      ensures b.record == old(b.record).U32(DIRECTORY_HEADER_SIGNATURE).U16(h.creatorVersion).U16(h.readerVersion)
        .U16(h.flags).U16(h.compression).U16(h.modifiedTime).U16(h.modifiedDate)
    {
      hide LE, Record.Bytes, Record.Size, WriteBuf.Valid;
      b.Uint32(DIRECTORY_HEADER_SIGNATURE);
      b.Uint16(h.creatorVersion);
      b.Uint16(h.readerVersion);
      b.Uint16(h.flags);
      b.Uint16(h.compression);
      b.Uint16(h.modifiedTime);
      b.Uint16(h.modifiedDate);
    }

    method EntryBytes(h: FileHeader, compressed: u32, uncompressed: u32, offset: nat) returns (bytes: seq<byte>)
      ensures bytes ==
        Nil.U32(DIRECTORY_HEADER_SIGNATURE).U16(h.creatorVersion).U16(h.readerVersion)
          .U16(h.flags).U16(h.compression).U16(h.modifiedTime).U16(h.modifiedDate)
          .U32(h.crc32).U32(compressed).U32(uncompressed)
          .U16(ToUint16(|h.name|)).U16(ToUint16(|h.extra|)).U16(ToUint16(|h.comment|))
          .Zeros(4).U32(h.externalAttrs).U32(Offset32(offset)).Bytes()
    {
      hide LE, Record.Bytes, Record.Size, WriteBuf.Valid, ToUint16;
      var offset32: u32 := if offset > UINT32_MAX then UINT32_MAX else offset;
      var b := new WriteBuf(DIRECTORY_HEADER_LEN);
      EntryStart(b, h);
      b.Uint32(h.crc32);
      b.Uint32(compressed);
      b.Uint32(uncompressed);
      b.Uint16(ToUint16(|h.name|));
      b.Uint16(ToUint16(|h.extra|));
      b.Uint16(ToUint16(|h.comment|));
      b.Skip(4);
      b.Uint32(h.externalAttrs);
      b.Uint32(offset32);
      bytes := b.Done();
    }

    method Zip64Bytes(h: FileHeader, offset: nat) returns (bytes: seq<byte>)
      ensures bytes == Zip64Record(h, offset).Bytes()
    {
      var b := new WriteBuf(28);
      b.Uint16(ZIP64_EXTRA_ID);
      b.Uint16(24);
      b.Uint64(h.uncompressedSize64);
      b.Uint64(h.compressedSize64);
      b.Uint64(ToUint64(offset));
      bytes := b.Done();
    }

    method End64Bytes(records: nat, size: nat, offset: nat) returns (bytes: seq<byte>)
      ensures bytes == LocatorRecord(End64Record(records, size, offset), offset + size).Bytes()
    {
      var b := new WriteBuf(DIRECTORY64_END_LEN + DIRECTORY64_LOC_LEN);
      b.Uint32(DIRECTORY64_END_SIGNATURE);
      b.Uint64(DIRECTORY64_END_LEN - 12);
      b.Uint16(ZIP_VERSION_45);
      b.Uint16(ZIP_VERSION_45);
      b.Uint32(0);
      b.Uint32(0);
      b.Uint64(ToUint64(records));
      b.Uint64(ToUint64(records));
      b.Uint64(ToUint64(size));
      b.Uint64(ToUint64(offset));
      b.Uint32(DIRECTORY64_LOC_SIGNATURE);
      b.Uint32(0);
      b.Uint64(ToUint64(offset + size));
      b.Uint32(1);
      bytes := b.Done();
    }

    method EndBytes(records: u16, size: u32, offset: u32) returns (bytes: seq<byte>)
      ensures bytes == EndRecord(records, size, offset, comment).Bytes() + comment
    {
      var b := new WriteBuf(DIRECTORY_END_LEN);
      b.Uint32(DIRECTORY_END_SIGNATURE);
      b.Skip(4);
      b.Uint16(records);
      b.Uint16(records);
      b.Uint32(size);
      b.Uint32(offset);
      b.Uint16(ToUint16(|comment|));
      var fixed := b.Done();
      bytes := fixed + comment;
    }

    /** The central directory and the end records, as they follow at the current position. */
    method GetEnding() returns (bytes: seq<byte>)
      ensures bytes == Ending(dir, current, comment)
    {
      hide DirectoryHeader, EndRecords;
      bytes := [];
      for i := 0 to |dir|
        invariant bytes == Directory(dir[..i])
      {
        var entry := DirectoryEntry(dir[i]);
        assert dir[..i + 1] == dir[..i] + [dir[i]];
        DirectorySnoc(dir[..i], dir[i]);
        bytes := bytes + entry;
      }
      assert dir[..|dir|] == dir;
      var tail := EndRecordsBytes(|dir|, |bytes|, current);
      bytes := bytes + tail;
    }

    method EndRecordsBytes(records0: nat, size0: nat, offset0: nat) returns (bytes: seq<byte>)
      ensures bytes == EndRecords(records0, size0, offset0, comment)
    {
      bytes := [];
      var records, size, offset := records0, size0, offset0;
      if records >= UINT16_MAX || size >= UINT32_MAX || offset >= UINT32_MAX {
        bytes := End64Bytes(records, size, offset);
        records, size, offset := UINT16_MAX, UINT32_MAX, UINT32_MAX;
      }
      var end := EndBytes(records, size, offset);
      bytes := bytes + end;
    }

    /** Writes the directory, clipped; fails if the writer was closed before. */
    method Close() returns (ok: bool)
      requires ValidRange(begin, end)
      modifies this
      ensures ok <==> !old(closed)
      ensures closed
      ensures ok ==> sink == old(sink) + Clip(Ending(old(dir), old(current), comment), old(current), begin, end)
      ensures !ok ==> sink == old(sink)
    {
      if closed {
        return false;
      }
      closed := true;
      var bytes := GetEnding();
      var _, skip, lo, hi := GetRange(|bytes|);
      ClipBounds(bytes, current, begin, end);
      ok := true;
      if skip {
        return;
      }
      sink := sink + bytes[lo..hi];
    }
  }
}
