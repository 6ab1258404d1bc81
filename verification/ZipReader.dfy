/** Reading an archive back: the end records, the central directory, and the position of each
    entry's content. The functions say what every input is read as, malformed input included; the
    methods do the reading with cursors and loops. */
module ZipReader {
  import opened Bytes
  import opened Buffers
  import opened Numbers
  import opened Options
  import opened ZipFormat

  /** Panicked stands for the end of the whole program instead of an error. */
  datatype ReadError = ErrFormat | ErrEOF | ErrUnexpectedEOF | ErrNegativeOffset | ErrComment | Panicked

  datatype Result<+T> = Ok(value: T) | Err(error: ReadError)

  datatype DirectoryEnd = DirectoryEnd(records: u64, size: u64, offset: u64, comment: seq<byte>)

  /** A directory entry as read. */
  datatype File = File(
    name: seq<byte>, extra: seq<byte>, comment: seq<byte>,
    creatorVersion: u16, readerVersion: u16, flags: u16, compression: u16,
    modifiedTime: u16, modifiedDate: u16, crc32: u32,
    compressedSize: u32, uncompressedSize: u32, compressedSize64: u64, uncompressedSize64: u64,
    externalAttrs: u32, headerOffset: int)

  datatype Contents = Contents(files: seq<File>, comment: seq<byte>)

  /** int64(v) for an unsigned 64-bit v. */
  function ToInt64(v: u64): int {
    if v < INT64_BOUND then v else v - 0x1_0000_0000_0000_0000
  }

  /** io.ReaderAt: all `n` bytes at `off`, or an error. */
  function ReadAt(b: seq<byte>, off: int, n: nat): (r: Result<seq<byte>>)
    ensures r.Ok? ==> |r.value| == n
  {
    if off < 0 then Err(ErrNegativeOffset)
    else if off + n > |b| then Err(ErrEOF)
    else Ok(b[off..][..n])
  }

  /** io.ReadFull on a stream that stands at `pos`. */
  function ReadFull(b: seq<byte>, pos: nat, n: nat): (r: Result<seq<byte>>)
    ensures r.Ok? ==> pos + n <= |b| && r.value == b[pos..][..n]
  {
    if n == 0 && pos <= |b| then Ok(b[pos..][..0])
    else if pos + n <= |b| then Ok(b[pos..][..n])
    else if pos >= |b| then Err(ErrEOF)
    else Err(ErrUnexpectedEOF)
  }

  // ---------- the end of the directory ----------

  predicate EndAt(b: seq<byte>, i: nat)
    requires i + DIRECTORY_END_LEN <= |b|
  {
    && b[i] == 0x50 && b[i + 1] == 0x4b && b[i + 2] == 0x05 && b[i + 3] == 0x06
    && U16At(b, i + DIRECTORY_END_LEN - 2) + DIRECTORY_END_LEN + i <= |b|
  }

  /** The last position up to `i` where an end record can start; -1 if there is none. */
  function LastEnd(b: seq<byte>, i: int): (p: int)
    requires i + DIRECTORY_END_LEN <= |b|
    ensures -1 <= p
    ensures p >= 0 ==> p <= i && EndAt(b, p)
    decreases i + 1
  {
    if i < 0 then -1 else if EndAt(b, i) then i else LastEnd(b, i - 1)
  }

  method FindSignatureInBlock(b: seq<byte>) returns (p: int)
    ensures p == LastEnd(b, |b| - DIRECTORY_END_LEN)
    ensures p >= 0 ==> p + DIRECTORY_END_LEN <= |b| && EndAt(b, p)
    ensures forall j :: p < j <= |b| - DIRECTORY_END_LEN && j >= 0 ==> !EndAt(b, j)
  {
    var i := |b| - DIRECTORY_END_LEN;
    while i >= 0
      invariant -1 <= i <= |b| - DIRECTORY_END_LEN || i == |b| - DIRECTORY_END_LEN < 0
      invariant LastEnd(b, i) == LastEnd(b, |b| - DIRECTORY_END_LEN)
      invariant forall j :: i < j <= |b| - DIRECTORY_END_LEN && j >= 0 ==> !EndAt(b, j)
    {
      if b[i] == 0x50 && b[i + 1] == 0x4b && b[i + 2] == 0x05 && b[i + 3] == 0x06 {
        var low: int, high: int := b[i + DIRECTORY_END_LEN - 2], b[i + DIRECTORY_END_LEN - 1];
        var n := low + high * 0x100;
        LengthField(b, i + DIRECTORY_END_LEN - 2);
        if n + DIRECTORY_END_LEN + i <= |b| {
          return i;
        }
      }
      i := i - 1;
    }
    p := -1;
  }

  lemma LengthField(b: seq<byte>, i: nat)
    requires i + 2 <= |b|
    ensures U16At(b, i) == b[i] as int + b[i + 1] as int * 0x100
  {
    var s := b[i..][..2];
    assert s == [b[i], b[i + 1]];
    assert s[1..] == [b[i + 1]] && s[1..][1..] == [];
    calc {
      Value(s);
      s[0] as int + 256 * Value(s[1..]);
      b[i] as int + 256 * (b[i + 1] as int + 256 * Value([]));
      b[i] as int + b[i + 1] as int * 0x100;
    }
  }

  const SMALL_BLOCK := 1024
  const LARGE_BLOCK := 65 * 1024

  /** The end record's position if it is among the last `limit` bytes; otherwise -1. */
  function Probe(b: seq<byte>, limit: nat): (p: int)
    ensures p >= 0 ==> p + DIRECTORY_END_LEN <= |b|
  {
    var n := Min(limit, |b|);
    var p := LastEnd(b[|b| - n..], n - DIRECTORY_END_LEN);
    if p >= 0 then |b| - n + p else -1
  }

  /** The end record's position: looked for in the last 1k, then in the last 65k. */
  function EndOffset(b: seq<byte>): (r: Result<nat>)
    ensures r.Ok? ==> r.value + DIRECTORY_END_LEN <= |b|
  {
    if Probe(b, SMALL_BLOCK) >= 0 then Ok(Probe(b, SMALL_BLOCK))
    else if |b| > SMALL_BLOCK && Probe(b, LARGE_BLOCK) >= 0 then Ok(Probe(b, LARGE_BLOCK))
    else Err(ErrFormat)
  }

  /** Where the locator before the end record says the zip64 end record is, if it is one. */
  function Locator(b: seq<byte>, end: nat): Option<nat>
    requires end <= |b|
  {
    if end < DIRECTORY64_LOC_LEN then None
    else
      var loc := b[end - DIRECTORY64_LOC_LEN..][..DIRECTORY64_LOC_LEN];
      if U32At(loc, 0) != DIRECTORY64_LOC_SIGNATURE || U32At(loc, 4) != 0 || U32At(loc, 16) != 1
        || ToInt64(U64At(loc, 8)) < 0
      then None
      else Some(U64At(loc, 8))
  }

  function End64(b: seq<byte>, p: nat, d: DirectoryEnd): Result<DirectoryEnd> {
    match ReadAt(b, p, DIRECTORY64_END_LEN)
    case Err(e) => Err(e)
    case Ok(r) =>
      if U32At(r, 0) != DIRECTORY64_END_SIGNATURE then Err(ErrFormat)
      else Ok(d.(records := U64At(r, 32), size := U64At(r, 40), offset := U64At(r, 48)))
  }

  /** The end record itself. */
  function End32(r: seq<byte>): Result<DirectoryEnd>
    requires |r| >= DIRECTORY_END_LEN
  {
    var n := U16At(r, 20);
    if DIRECTORY_END_LEN + n > |r| then Err(ErrComment)
    else Ok(DirectoryEnd(U16At(r, 10), U32At(r, 12), U32At(r, 16), r[DIRECTORY_END_LEN..][..n]))
  }

  /** When the reader looks for zip64 records. The size is compared with 0xffff, where the writer
      stores 0xffffffff. */
  predicate SeeksEnd64(d: DirectoryEnd) {
    d.records == 0xffff || d.size == 0xffff || d.offset == 0xffff_ffff
  }

  function ReadEnd(b: seq<byte>): Result<DirectoryEnd> {
    match EndOffset(b)
    case Err(e) => Err(e)
    case Ok(end) =>
      match End32(b[end..])
      case Err(e) => Err(e)
      case Ok(d) =>
        var d64 :=
          if !SeeksEnd64(d) then Ok(d)
          else match Locator(b, end)
            case None => Ok(d)
            case Some(p) => End64(b, p, d);
        if d64.Ok? && (ToInt64(d64.value.offset) < 0 || d64.value.offset >= |b|) then Err(ErrFormat) else d64
  }

  method FindDirectory64End(b: seq<byte>, end: nat) returns (p: int)
    requires end <= |b|
    ensures match Locator(b, end) { case Some(q) => p == q case None => p < 0 }
  {
    var locOffset := end - DIRECTORY64_LOC_LEN;
    if locOffset < 0 {
      return -1;
    }
    var buf := new ReadBuf(b[locOffset..][..DIRECTORY64_LOC_LEN]);
    var sig := buf.Uint32();
    if sig != DIRECTORY64_LOC_SIGNATURE {
      return -1;
    }
    var disk := buf.Uint32();
    if disk != 0 {
      return -1;
    }
    var q := buf.Uint64();
    var disks := buf.Uint32();
    if disks != 1 {
      return -1;
    }
    p := ToInt64(q);
  }

  method ReadDirectory64End(b: seq<byte>, p: nat, d: DirectoryEnd) returns (r: Result<DirectoryEnd>)
    ensures r == End64(b, p, d)
  {
    var bytes := ReadAt(b, p, DIRECTORY64_END_LEN);
    if bytes.Err? {
      return Err(bytes.error);
    }
    var buf := new ReadBuf(bytes.value);
    var sig := buf.Uint32();
    if sig != DIRECTORY64_END_SIGNATURE {
      return Err(ErrFormat);
    }
    buf.Skip(12);
    var _ := buf.Uint32();
    var _ := buf.Uint32();
    var _ := buf.Uint64();
    var e := d;
    var v := buf.Uint64();
    e := e.(records := v);
    v := buf.Uint64();
    e := e.(size := v);
    v := buf.Uint64();
    e := e.(offset := v);
    r := Ok(e);
  }

  method ReadBlock(b: seq<byte>, limit: nat) returns (p: int)
    ensures p == Probe(b, limit)
  {
    var n := Min(limit, |b|);
    p := FindSignatureInBlock(b[|b| - n..]);
    if p >= 0 {
      p := |b| - n + p;
    }
  }

  /** Tries the small block, then the large one. */
  method FindEnd(b: seq<byte>) returns (r: Result<nat>)
    ensures r == EndOffset(b)
  {
    hide Probe, LastEnd;
    var i := 0;
    while i < 2
      invariant 0 <= i < 2 && (i == 1 ==> Probe(b, SMALL_BLOCK) < 0 && |b| > SMALL_BLOCK)
      decreases 2 - i
    {
      var limit := if i == 0 then SMALL_BLOCK else LARGE_BLOCK;
      var p := ReadBlock(b, limit);
      if p >= 0 {
        return Ok(p);
      }
      if i == 1 || limit >= |b| {
        return Err(ErrFormat);
      }
      i := i + 1;
    }
    assert false;
  }

  method ReadDirectoryEnd(b: seq<byte>) returns (r: Result<DirectoryEnd>)
    ensures r == ReadEnd(b)
  {
    var end := FindEnd(b);
    if end.Err? {
      return Err(end.error);
    }
    r := ReadEndAt(b, end.value);
  }

  method ReadEndAt(b: seq<byte>, end: nat) returns (r: Result<DirectoryEnd>)
    requires EndOffset(b) == Ok(end)
    ensures r == ReadEnd(b)
  {
    hide EndOffset, Locator, End64, U16At, U32At;
    var record := b[end..];
    var buf := new ReadBuf(record);
    buf.Skip(4);
    var _ := buf.Uint16();
    var _ := buf.Uint16();
    var _ := buf.Uint16();
    var records := buf.Uint16();
    var size := buf.Uint32();
    var offset := buf.Uint32();
    var n := buf.Uint16();
    if n > |buf.rest| {
      return Err(ErrComment);
    }
    var comment := buf.Sub(n);
    var d := DirectoryEnd(records, size, offset, comment);
    if d.records == 0xffff || d.size == 0xffff || d.offset == 0xffff_ffff {
      var p := FindDirectory64End(b, end);
      if p >= 0 {
        r := ReadDirectory64End(b, p, d);
        if r.Err? {
          return;
        }
        d := r.value;
      }
    }
    if ToInt64(d.offset) < 0 || ToInt64(d.offset) >= |b| {
      return Err(ErrFormat);
    }
    r := Ok(d);
  }

  // ---------- extra fields ----------

  /** The 64-bit values of an entry, and which of them its zip64 block still has to supply. */
  datatype Scan = Scan(needU: bool, needC: bool, needO: bool, usize: u64, csize: u64, offset: int)

  function TakeU(s: Scan, f: seq<byte>): Option<(Scan, seq<byte>)> {
    if !s.needU then Some((s, f))
    else if |f| < 8 then None
    else Some((s.(needU := false, usize := U64At(f, 0)), f[8..]))
  }

  function TakeC(s: Scan, f: seq<byte>): Option<(Scan, seq<byte>)> {
    if !s.needC then Some((s, f))
    else if |f| < 8 then None
    else Some((s.(needC := false, csize := U64At(f, 0)), f[8..]))
  }

  function TakeO(s: Scan, f: seq<byte>): Option<(Scan, seq<byte>)> {
    if !s.needO then Some((s, f))
    else if |f| < 8 then None
    else Some((s.(needO := false, offset := ToInt64(U64At(f, 0))), f[8..]))
  }

  /** Reads a zip64 block: uncompressed size, compressed size and offset, as far as needed. */
  function TakeZip64(s: Scan, f: seq<byte>): Option<Scan> {
    match TakeU(s, f)
    case None => None
    case Some((s1, f1)) =>
      match TakeC(s1, f1)
      case None => None
      case Some((s2, f2)) =>
        match TakeO(s2, f2)
        case None => None
        case Some((s3, _)) => Some(s3)
  }

  /** Reads the blocks of an extra field until one does not fit; only zip64 blocks matter here. */
  function ScanExtras(s: Scan, extra: seq<byte>): Option<Scan>
    decreases |extra|
  {
    if |extra| < 4 then Some(s)
    else
      var tag, size := U16At(extra, 0), U16At(extra, 2);
      if 4 + size > |extra| then Some(s)
      else
        var rest := extra[4 + size..];
        if tag == ZIP64_EXTRA_ID then
          match TakeZip64(s, extra[4..][..size])
          case None => None
          case Some(s') => ScanExtras(s', rest)
        else ScanExtras(s, rest)
  }

  method ReadZip64(s0: Scan, f: seq<byte>) returns (r: Option<Scan>)
    ensures r == TakeZip64(s0, f)
  {
    var s := s0;
    var buf := new ReadBuf(f);
    if s.needU {
      s := s.(needU := false);
      if |buf.rest| < 8 {
        return None;
      }
      var v := buf.Uint64();
      s := s.(usize := v);
      assert Some((s, buf.rest)) == TakeU(s0, f);
    }
    ghost var s1, f1 := s, buf.rest;
    if s.needC {
      s := s.(needC := false);
      if |buf.rest| < 8 {
        return None;
      }
      assert U64At(buf.data, buf.pos) == U64At(f1, 0);
      var v := buf.Uint64();
      s := s.(csize := v);
      assert Some((s, buf.rest)) == TakeC(s1, f1);
    }
    ghost var s2, f2 := s, buf.rest;
    if s.needO {
      s := s.(needO := false);
      if |buf.rest| < 8 {
        return None;
      }
      assert U64At(buf.data, buf.pos) == U64At(f2, 0);
      var v := buf.Uint64();
      s := s.(offset := ToInt64(v));
    }
    r := Some(s);
  }

  method ReadExtras(s0: Scan, extra0: seq<byte>) returns (r: Option<Scan>)
    ensures r == ScanExtras(s0, extra0)
  {
    hide TakeZip64;
    var s := s0;
    var extra := new ReadBuf(extra0);
    while |extra.rest| >= 4
      invariant extra.Valid() && extra.data == extra0 && fresh(extra)
      invariant ScanExtras(s, extra.rest) == ScanExtras(s0, extra0)
      decreases |extra.rest|
    {
      ghost var before := extra.rest;
      assert U16At(extra0, extra.pos) == U16At(before, 0);
      var tag := extra.Uint16();
      assert U16At(extra0, extra.pos) == U16At(before, 2);
      var size := extra.Uint16();
      if |extra.rest| < size {
        break;
      }
      var field := extra.Sub(size);
      assert field == before[4..][..size] && extra.rest == before[4 + size..];
      if tag == ZIP64_EXTRA_ID {
        var taken := ReadZip64(s, field);
        if taken.None? {
          return None;
        }
        s := taken.value;
      }
    }
    r := Some(s);
  }

  // ---------- directory entries ----------

  /** What reading at a position of the directory gives: an entry and the position after it, or
      the error that ends the directory. */
  datatype Outcome = Entry(file: File, next: nat) | Stop(error: ReadError)

  /** The fixed part of an entry: the file as far as it tells, and the lengths that follow. */
  function FixedPart(b: seq<byte>): File
    requires |b| >= DIRECTORY_HEADER_LEN
  {
    File([], [], [], U16At(b, 4), U16At(b, 6), U16At(b, 8), U16At(b, 10), U16At(b, 12), U16At(b, 14),
         U32At(b, 16), U32At(b, 20), U32At(b, 24), U32At(b, 20), U32At(b, 24), U32At(b, 38), U32At(b, 42))
  }

  /** Names, and 64-bit values from the extra field. */
  function WithTail(f: File, d: seq<byte>, n: nat, e: nat): Option<File>
    requires n + e <= |d|
  {
    var g := f.(name := d[..n], extra := d[n..n + e], comment := d[n + e..]);
    var s := Scan(f.uncompressedSize == UINT32_MAX, f.compressedSize == UINT32_MAX,
                  f.headerOffset == UINT32_MAX, f.uncompressedSize64, f.compressedSize64, f.headerOffset);
    match ScanExtras(s, g.extra)
    case None => None
    case Some(s') =>
      if s'.needC || s'.needO then None
      else Some(g.(uncompressedSize64 := s'.usize, compressedSize64 := s'.csize, headerOffset := s'.offset))
  }

  function EntryAt(b: seq<byte>, pos: nat): (r: Outcome)
    ensures r.Entry? ==> pos < r.next <= |b|
  {
    match ReadFull(b, pos, DIRECTORY_HEADER_LEN)
    case Err(e) => Stop(e)
    case Ok(fixed) =>
      if U32At(fixed, 0) != DIRECTORY_HEADER_SIGNATURE then Stop(ErrFormat)
      else
        var n, e, c := U16At(fixed, 28), U16At(fixed, 30), U16At(fixed, 32);
        match ReadFull(b, pos + DIRECTORY_HEADER_LEN, n + e + c)
        case Err(e) => Stop(e)
        case Ok(d) =>
          match WithTail(FixedPart(fixed), d, n, e)
          case None => Stop(ErrFormat)
          case Some(f) => Entry(f, pos + DIRECTORY_HEADER_LEN + n + e + c)
  }

  method ReadDirectoryHeader(b: seq<byte>, pos: nat) returns (r: Outcome)
    ensures r == EntryAt(b, pos)
  {
    hide WithTail;
    var bytes := ReadFull(b, pos, DIRECTORY_HEADER_LEN);
    if bytes.Err? {
      return Stop(bytes.error);
    }
    var sig, f, n, e, c := ReadFixedPart(bytes.value);
    if sig != DIRECTORY_HEADER_SIGNATURE {
      return Stop(ErrFormat);
    }
    var d := ReadFull(b, pos + DIRECTORY_HEADER_LEN, n + e + c);
    if d.Err? {
      return Stop(d.error);
    }
    var g := ReadTail(f, d.value, n, e);
    if g.None? {
      return Stop(ErrFormat);
    }
    r := Entry(g.value, pos + DIRECTORY_HEADER_LEN + n + e + c);
  }

  method ReadFixedPart(b: seq<byte>) returns (sig: u32, f: File, n: nat, e: nat, c: nat)
    requires |b| == DIRECTORY_HEADER_LEN
    ensures sig == U32At(b, 0) && f == FixedPart(b)
    ensures n == U16At(b, 28) && e == U16At(b, 30) && c == U16At(b, 32)
  {
    hide U16At, U32At, ReadBuf.Valid;
    var buf := new ReadBuf(b);
    var creator, reader, flags, compression, time, date;
    sig, creator, reader, flags, compression, time, date := ReadShorts(buf);
    var crc32, compressed, uncompressed;
    crc32, compressed, uncompressed, n, e, c := ReadLengths(buf);
    buf.Skip(4);
    var attrs := buf.Uint32();
    var offset := buf.Uint32();
    f := File([], [], [], creator, reader, flags, compression, time, date,
              crc32, compressed, uncompressed, compressed, uncompressed, attrs, offset);
  }

  method ReadShorts(buf: ReadBuf)
    returns (sig: u32, creator: u16, reader: u16, flags: u16, compression: u16, time: u16, date: u16)
    requires buf.Valid() && buf.pos == 0 && |buf.data| == DIRECTORY_HEADER_LEN
    modifies buf
    ensures buf.Valid() && buf.pos == 16
    ensures sig == U32At(buf.data, 0) && creator == U16At(buf.data, 4) && reader == U16At(buf.data, 6)
    ensures flags == U16At(buf.data, 8) && compression == U16At(buf.data, 10)
    ensures time == U16At(buf.data, 12) && date == U16At(buf.data, 14)
  {
    hide U16At, U32At, ReadBuf.Valid;
    sig := buf.Uint32();
    creator := buf.Uint16();
    reader := buf.Uint16();
    flags := buf.Uint16();
    compression := buf.Uint16();
    time := buf.Uint16();
    date := buf.Uint16();
  }

  method ReadLengths(buf: ReadBuf)
    returns (crc32: u32, compressed: u32, uncompressed: u32, n: nat, e: nat, c: nat)
    requires buf.Valid() && buf.pos == 16 && |buf.data| == DIRECTORY_HEADER_LEN
    modifies buf
    ensures buf.Valid() && buf.pos == 34
    ensures crc32 == U32At(buf.data, 16) && compressed == U32At(buf.data, 20) && uncompressed == U32At(buf.data, 24)
    ensures n == U16At(buf.data, 28) && e == U16At(buf.data, 30) && c == U16At(buf.data, 32)
  {
    hide U16At, U32At, ReadBuf.Valid;
    crc32 := buf.Uint32();
    compressed := buf.Uint32();
    uncompressed := buf.Uint32();
    n := buf.Uint16();
    e := buf.Uint16();
    c := buf.Uint16();
  }

  method ReadTail(f0: File, d: seq<byte>, n: nat, e: nat) returns (r: Option<File>)
    requires n + e <= |d|
    ensures r == WithTail(f0, d, n, e)
  {
    var f := f0.(name := d[..n], extra := d[n..n + e], comment := d[n + e..]);
    var s := Scan(f.uncompressedSize == UINT32_MAX, f.compressedSize == UINT32_MAX,
                  f.headerOffset == UINT32_MAX, f.uncompressedSize64, f.compressedSize64, f.headerOffset);
    var scanned := ReadExtras(s, f.extra);
    if scanned.None? || scanned.value.needC || scanned.value.needO {
      return None;
    }
    s := scanned.value;
    r := Some(f.(uncompressedSize64 := s.usize, compressedSize64 := s.csize, headerOffset := s.offset));
  }

  /** All entries from `pos` on, and the error that ended them. */
  function EntriesAt(b: seq<byte>, pos: nat): (seq<File>, ReadError)
    requires pos <= |b|
    decreases |b| - pos
  {
    match EntryAt(b, pos)
    case Stop(e) => ([], e)
    case Entry(f, next) =>
      var rest := EntriesAt(b, next);
      ([f] + rest.0, rest.1)
  }

  /** The archive as the reader sees it. The entries are read until something else follows, and
      only then is their number compared, modulo 65536. Before that, room is made for as many entries
      as the end record tells; more than `room` are a panic. */
  function Open(b: seq<byte>, room: nat): Result<Contents> {
    match ReadEnd(b)
    case Err(e) => Err(e)
    case Ok(d) =>
      if d.records > room then Err(Panicked)
      else if d.offset > |b| then Err(ErrFormat)
      else
        var (files, e) := EntriesAt(b, d.offset);
        if e != ErrFormat && e != ErrUnexpectedEOF then Err(e)
        else if ToUint16(|files|) != ToUint16(d.records) then Err(e)
        else Ok(Contents(files, d.comment))
  }

  lemma EndInside(b: seq<byte>)
    ensures ReadEnd(b).Ok? ==> ReadEnd(b).value.offset < |b|
  {
  }

  method Init(b: seq<byte>, room: nat) returns (r: Result<Contents>)
    ensures r == Open(b, room)
  {
    hide EntryAt, ReadEnd;
    var end := ReadDirectoryEnd(b);
    if end.Err? {
      return Err(end.error);
    }
    EndInside(b);
    if end.value.records > room {
      return Err(Panicked);
    }
    var files, pos := [], end.value.offset;
    var error;
    while true
      invariant pos <= |b|
      invariant files + EntriesAt(b, pos).0 == EntriesAt(b, end.value.offset).0
      invariant EntriesAt(b, pos).1 == EntriesAt(b, end.value.offset).1
      decreases |b| - pos
    {
      var o := ReadDirectoryHeader(b, pos);
      if o.Stop? {
        error := o.error;
        assert files + [] == files;
        break;
      }
      assert pos < o.next <= |b|;
      assert files + ([o.file] + EntriesAt(b, o.next).0) == files + [o.file] + EntriesAt(b, o.next).0;
      files := files + [o.file];
      pos := o.next;
    }
    if error != ErrFormat && error != ErrUnexpectedEOF {
      return Err(error);
    }
    if ToUint16(|files|) != ToUint16(end.value.records) {
      return Err(error);
    }
    r := Ok(Contents(files, end.value.comment));
  }

  // ---------- contents ----------

  /** The distance from an entry's local header to its content. */
  function BodyOffset(b: seq<byte>, f: File): Result<nat> {
    match ReadAt(b, f.headerOffset, FILE_HEADER_LEN)
    case Err(e) => Err(e)
    case Ok(h) =>
      if U32At(h, 0) != FILE_HEADER_SIGNATURE then Err(ErrFormat)
      else Ok(FILE_HEADER_LEN + U16At(h, 26) + U16At(h, 28))
  }

  method FindBodyOffset(b: seq<byte>, f: File) returns (r: Result<nat>)
    ensures r == BodyOffset(b, f)
  {
    var bytes := ReadAt(b, f.headerOffset, FILE_HEADER_LEN);
    if bytes.Err? {
      return Err(bytes.error);
    }
    var buf := new ReadBuf(bytes.value);
    var sig := buf.Uint32();
    if sig != FILE_HEADER_SIGNATURE {
      return Err(ErrFormat);
    }
    buf.Skip(22);
    var n := buf.Uint16();
    var e := buf.Uint16();
    r := Ok(FILE_HEADER_LEN + n + e);
  }

  /** Where the content of an entry starts, as far as the entry and the header it names tell. */
  function ContentStart(b: seq<byte>, f: File): Result<int> {
    match BodyOffset(b, f)
    case Ok(n) => Ok(f.headerOffset + n)
    case Err(e) => Err(e)
  }

  method DataOffset(b: seq<byte>, f: File) returns (r: Result<int>)
    ensures r == ContentStart(b, f)
  {
    var n := FindBodyOffset(b, f);
    r := match n case Ok(k) => Ok(f.headerOffset + k) case Err(e) => Err(e);
  }
}
