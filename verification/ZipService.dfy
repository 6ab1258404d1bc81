/** The archiver's service: it drives a Writer over the files of a torrent, once without contents
    to learn the archive's length and once per request to send a window of it. */
module ZipService {
  import opened Bytes
  import opened Collections
  import opened Options
  import opened ZipFormat
  import opened ZipWindow
  import opened ZipWriter
  import opened ZipPlan
  import opened ZipChecksums

  /** No CreateHeader call for these headers, made one after another, reports an error. */
  predicate Writable(fhs: seq<FileHeader>, begin: nat, end: int, up: Upstream, sum: Checksum)
    requires end >= -1
  {
    fhs == [] ||
    var front, last := fhs[..|fhs| - 1], fhs[|fhs| - 1];
    && Writable(front, begin, end, up, sum)
    && !Fails(Prepare(last), |Stream(ItemsOf(front, begin, end, up, sum))|, begin, end, up)
  }

  /** Everything before the first header that fails was sent. */
  ghost predicate SentUntilFailure(sink: seq<byte>, fhs: seq<FileHeader>, begin: nat, end: int, up: Upstream, sum: Checksum)
    requires end >= -1
  {
    exists j :: 0 <= j < |fhs|
      && Writable(fhs[..j], begin, end, up, sum) && !Writable(fhs[..j + 1], begin, end, up, sum)
      && Emit(ItemsOf(fhs[..j], begin, end, up, sum), begin, end) <= sink
  }

  lemma ItemsSnoc(fhs: seq<FileHeader>, fh: FileHeader, begin: nat, end: int, up: Upstream, sum: Checksum)
    requires end >= -1
    ensures var items := ItemsOf(fhs, begin, end, up, sum);
      && ItemsOf(fhs + [fh], begin, end, up, sum) == items + [ItemAt(Prepare(fh), |Stream(items)|, begin, end, up, sum)]
      && (Writable(fhs + [fh], begin, end, up, sum) <==>
          Writable(fhs, begin, end, up, sum) && !Fails(Prepare(fh), |Stream(items)|, begin, end, up))
  {
    assert (fhs + [fh])[..|fhs|] == fhs;
  }

  lemma {:induction false} WritablePrefix(fhs: seq<FileHeader>, n: nat, begin: nat, end: int, up: Upstream, sum: Checksum)
    requires end >= -1 && n <= |fhs| && Writable(fhs, begin, end, up, sum)
    ensures Writable(fhs[..n], begin, end, up, sum)
  {
    hide Fails, ItemsOf, Stream;
    if n < |fhs| {
      WritablePrefix(fhs[..|fhs| - 1], n, begin, end, up, sum);
      assert fhs[..|fhs| - 1][..n] == fhs[..n];
    } else {
      assert fhs[..n] == fhs;
    }
  }

  lemma FailureStays(sink: seq<byte>, more: seq<byte>, fhs: seq<FileHeader>, all: seq<FileHeader>,
                     begin: nat, end: int, up: Upstream, sum: Checksum)
    requires end >= -1 && fhs <= all && sink <= more
    requires SentUntilFailure(sink, fhs, begin, end, up, sum)
    ensures SentUntilFailure(more, all, begin, end, up, sum) && !Writable(all, begin, end, up, sum)
  {
    hide Writable, ItemsOf, Emit;
    var j :| 0 <= j < |fhs|
      && Writable(fhs[..j], begin, end, up, sum) && !Writable(fhs[..j + 1], begin, end, up, sum)
      && Emit(ItemsOf(fhs[..j], begin, end, up, sum), begin, end) <= sink;
    assert fhs[..j] == all[..j] && fhs[..j + 1] == all[..j + 1];
    if Writable(all, begin, end, up, sum) {
      WritablePrefix(all, j + 1, begin, end, up, sum);
    }
  }

  lemma FailureHere(sink: seq<byte>, fhs: seq<FileHeader>, fh: FileHeader, begin: nat, end: int, up: Upstream, sum: Checksum)
    requires end >= -1 && Writable(fhs, begin, end, up, sum)
    requires Fails(Prepare(fh), |Stream(ItemsOf(fhs, begin, end, up, sum))|, begin, end, up)
    requires Emit(ItemsOf(fhs, begin, end, up, sum), begin, end) <= sink
    ensures SentUntilFailure(sink, fhs + [fh], begin, end, up, sum)
  {
    hide Writable, ItemsOf, Emit, Fails, Prepare, Stream, ItemAt;
    ItemsSnoc(fhs, fh, begin, end, up, sum);
    var all := fhs + [fh];
    assert all[..|fhs|] == fhs && all[..|fhs| + 1] == all;
  }

  /** A writer that has been given exactly the headers `fhs`. */
  ghost predicate Holds(zw: Writer, fhs: seq<FileHeader>)
    reads zw
  {
    && zw.Valid()
    && zw.items == ItemsOf(fhs, zw.begin, zw.end, zw.upstream, zw.sum)
    && Writable(fhs, zw.begin, zw.end, zw.upstream, zw.sum)
  }

  method Create(zw: Writer, ghost fhs: seq<FileHeader>, fh: FileHeader) returns (ok: bool)
    requires Holds(zw, fhs) && Sized(fh, zw.upstream)
    modifies zw
    ensures zw.closed == old(zw.closed)
    ensures ok ==> Holds(zw, fhs + [fh])
    ensures !ok ==> SentUntilFailure(zw.sink, fhs + [fh], zw.begin, zw.end, zw.upstream, zw.sum)
  {
    hide Fails, Prepare, ItemAt, Sized, Emit, Writable, ItemsOf;
    ItemsSnoc(fhs, fh, zw.begin, zw.end, zw.upstream, zw.sum);
    ok := zw.CreateHeader(fh);
    if !ok {
      FailureHere(zw.sink, fhs, fh, zw.begin, zw.end, zw.upstream, zw.sum);
    }
  }

  lemma HeadersOfSnoc(es: seq<Entry>, e: Entry, root: Path, fetch: bool)
    ensures HeadersOf(es + [e], root, fetch) == HeadersOf(es, root, fetch) + [HeaderOf(e, root, fetch)]
  {
  }

  lemma HeadersOfPrefix(es: seq<Entry>, all: seq<Entry>, root: Path, fetch: bool)
    requires es <= all
    ensures HeadersOf(es, root, fetch) <= HeadersOf(all, root, fetch)
  {
  }

  lemma HeldRange(zw: Writer, fhs: seq<FileHeader>)
    requires Holds(zw, fhs)
    ensures zw.end >= -1
  {
  }

  lemma FolderHasNoPage(e: Entry, root: Path, fetch: bool, up: Upstream)
    requires e.FolderEntry?
    ensures Sized(HeaderOf(e, root, fetch), up)
  {
  }

  class FolderWriter {
    const root: Path
    var written: seq<Path>

    constructor (root: Path)
      ensures this.root == root && written == []
    {
      this.root, written := root, [];
    }

    /** Enters one folder unless it is written already. */
    method Enter(zw: Writer, path: Path, modified: Option<Stamp>, fetch: bool, ghost es: seq<Entry>)
      returns (ok: bool, ghost es': seq<Entry>)
      requires Holds(zw, HeadersOf(es, root, fetch)) && written == Folders(es)
      modifies this, zw
      ensures zw.closed == old(zw.closed)
      ensures es' == if path in Folders(es) then es else es + [FolderEntry(path, modified)]
      ensures ok ==> Holds(zw, HeadersOf(es', root, fetch)) && written == Folders(es')
      ensures !ok ==> SentUntilFailure(zw.sink, HeadersOf(es', root, fetch), zw.begin, zw.end, zw.upstream, zw.sum)
    {
      hide Holds, Prepare, SentUntilFailure;
      var found := false;
      for j := 0 to |written|
        invariant found <==> path in written[..j]
      {
        if written[j] == path {
          found := true;
        }
      }
      assert written[..|written|] == written;
      if found {
        return true, es;
      }
      var e := FolderEntry(path, modified);
      HeadersOfSnoc(es, e, root, fetch);
      FoldersSnoc(es, e);
      FolderHasNoPage(e, root, fetch, zw.upstream);
      es' := es + [e];
      ok := Create(zw, HeadersOf(es, root, fetch), HeaderOf(e, root, fetch));
      if ok {
        written := written + [path];
      }
    }

    /** Enters the folders on the way to a file that are not written yet; `es` are the entries
        made so far. */
    method Write(zw: Writer, f: File, fetch: bool, ghost es: seq<Entry>) returns (ok: bool, ghost es': seq<Entry>)
      requires Holds(zw, HeadersOf(es, root, fetch)) && written == Folders(es)
      modifies this, zw
      ensures zw.closed == old(zw.closed)
      ensures es <= es' <= WithFolders(es, Prefixes(NameOf(f, root)), f.modified)
      ensures ok ==> es' == WithFolders(es, Prefixes(NameOf(f, root)), f.modified)
      ensures ok ==> Holds(zw, HeadersOf(es', root, fetch)) && written == Folders(es')
      ensures !ok ==> SentUntilFailure(zw.sink, HeadersOf(es', root, fetch), zw.begin, zw.end, zw.upstream, zw.sum)
    {
      hide Holds, Prepare, SentUntilFailure, Split, Join, Prefixes, WithFolders, HeadersOf, Folders;
      var name := TrimPrefix(f.path, root + [SLASH]);
      var parts := Split(name);
      JoinedParts(name);
      ghost var ps := Prefixes(name);
      es', ok := es, true;
      WithFoldersStep(es, ps, 0, f.modified);
      if |parts| == 1 {
        assert ps[..0] == ps;
        return;
      }
      for i := 1 to |parts|
        invariant ok && zw.closed == old(zw.closed)
        invariant es' == WithFolders(es, ps[..i - 1], f.modified) && es <= es'
        invariant Holds(zw, HeadersOf(es', root, fetch)) && written == Folders(es')
      {
        var path := Join(parts[..i]);
        WithFoldersStep(es, ps, i, f.modified);
        ok, es' := Enter(zw, path, f.modified, fetch, es');
        if !ok {
          PrefixOfWithFolders(es, ps, i, f.modified);
          return;
        }
      }
      assert ps[..|ps|] == ps;
    }
  }

  lemma WithFoldersStep(es: seq<Entry>, ps: seq<Path>, n: nat, m: Option<Stamp>)
    requires n <= |ps|
    ensures n == 0 ==> WithFolders(es, ps[..n], m) == es
    ensures n > 0 ==> var front := WithFolders(es, ps[..n - 1], m);
      WithFolders(es, ps[..n], m) ==
        if ps[n - 1] in Folders(front) then front else front + [FolderEntry(ps[n - 1], m)]
  {
    if n > 0 {
      assert ps[..n][..n - 1] == ps[..n - 1];
    }
  }

  lemma {:induction false} PrefixOfWithFolders(es: seq<Entry>, ps: seq<Path>, n: nat, m: Option<Stamp>)
    requires n <= |ps|
    ensures WithFolders(es, ps[..n], m) <= WithFolders(es, ps, m)
  {
    if n < |ps| {
      assert ps[..|ps| - 1][..n] == ps[..n];
      PrefixOfWithFolders(es, ps[..|ps| - 1], n, m);
    } else {
      assert ps[..n] == ps;
    }
  }

  // ---------- the requests ----------

  /** The files under the requested path. */
  function Selected(files: seq<File>, root: Path): seq<File> {
    if files == [] then []
    else
      var f := files[|files| - 1];
      Selected(files[..|files| - 1], root) + if root <= f.path then [f] else []
  }

  ghost predicate Increasing(chosen: seq<nat>, n: nat) {
    (forall k :: 0 <= k < |chosen| ==> chosen[k] < n) && (forall k, l :: 0 <= k < l < |chosen| ==> chosen[k] < chosen[l])
  }

  ghost predicate Picks(files: seq<File>, chosen: seq<nat>, res: seq<File>) {
    |chosen| == |res| && forall k :: 0 <= k < |res| ==> chosen[k] < |files| && res[k] == files[chosen[k]]
  }

  lemma OneMoreChosen(front: seq<nat>, n: nat)
    requires Increasing(front, n)
    ensures Increasing(front, n + 1) && Increasing(front + [n], n + 1)
    ensures n !in front && n in front + [n] && forall i: nat :: i < n ==> (i in front + [n] <==> i in front)
  {
  }

  /** Whether a file is under the requested path. */
  predicate Under(files: seq<File>, root: Path, i: nat)
    requires i < |files|
  {
    |root| <= |files[i].path| && files[i].path[..|root|] == root
  }

  lemma {:induction false} SelectedAre(files: seq<File>, root: Path) returns (chosen: seq<nat>)
    ensures Picks(files, chosen, Selected(files, root)) && Increasing(chosen, |files|)
    ensures forall i: nat :: i < |files| ==> (i in chosen <==> Under(files, root, i))
  {
    hide Increasing, Under, Picks;
    if files == [] {
      chosen := [];
      assert Picks(files, [], []) by {
        PicksNone(files);
      }
      NoneIncreasing();
    } else {
      var n := |files| - 1;
      var front := SelectedAre(files[..n], root);
      OneMoreChosen(front, n);
      PicksMore(files, n, front, Selected(files[..n], root));
      chosen := if root <= files[n].path then front + [n] else front;
      assert Selected(files[..n], root) + [] == Selected(files[..n], root);
      forall i: nat | i < |files|
        ensures i in chosen <==> Under(files, root, i)
      {
        UnderFirst(files, root, n, i);
      }
    }
  }

  lemma PicksNone(files: seq<File>)
    ensures Picks(files, [], [])
  {
  }

  lemma PicksMore(files: seq<File>, n: nat, chosen: seq<nat>, res: seq<File>)
    requires n < |files| && Picks(files[..n], chosen, res)
    ensures Picks(files, chosen, res) && Picks(files, chosen + [n], res + [files[n]])
  {
  }

  lemma NoneIncreasing()
    ensures Increasing([], 0)
  {
  }

  lemma UnderFirst(files: seq<File>, root: Path, n: nat, i: nat)
    requires n <= |files| && i < |files|
    ensures i < n ==> Under(files[..n], root, i) == Under(files, root, i)
    ensures Under(files, root, i) == (root <= files[i].path)
  {
  }

  /** `chosen` says which files were taken: those whose path starts with the requested one, in order. */
  method GenerateFileList(files: seq<File>, root: Path) returns (res: seq<File>, ghost chosen: seq<nat>)
    ensures res == Selected(files, root)
    ensures |chosen| == |res|
    ensures forall k :: 0 <= k < |res| ==> chosen[k] < |files| && res[k] == files[chosen[k]]
    ensures forall k, l :: 0 <= k < l < |res| ==> chosen[k] < chosen[l]
    ensures forall i: nat :: i < |files| ==> (i in chosen <==> |root| <= |files[i].path| && files[i].path[..|root|] == root)
  {
    res := [];
    for i := 0 to |files|
      invariant res == Selected(files[..i], root)
    {
      assert files[..i + 1][..i] == files[..i];
      if root <= files[i].path {
        res := res + [files[i]];
      }
    }
    assert files[..|files|] == files;
    chosen := SelectedAre(files, root);
  }

  /** The headers of a whole archive, in order. */
  function HeaderList(files: seq<File>, root: Path, fetch: bool): seq<FileHeader> {
    HeadersOf(Plan(files, root), root, fetch)
  }

  lemma HeaderListSnoc(files: seq<File>, f: File, root: Path, fetch: bool)
    ensures var es := WithFolders(Plan(files, root), Prefixes(NameOf(f, root)), f.modified);
      && Plan(files + [f], root) == es + [FileEntry(f)]
      && HeaderList(files + [f], root, fetch) == HeadersOf(es, root, fetch) + [HeaderOf(FileEntry(f), root, fetch)]
  {
    var es := WithFolders(Plan(files, root), Prefixes(NameOf(f, root)), f.modified);
    assert (files + [f])[..|files|] == files;
    HeadersOfSnoc(es, FileEntry(f), root, fetch);
  }

  lemma {:induction false} HeaderListPrefix(files: seq<File>, n: nat, root: Path, fetch: bool)
    requires n <= |files|
    ensures HeaderList(files[..n], root, fetch) <= HeaderList(files, root, fetch)
  {
    if n == |files| {
      assert files[..n] == files;
    } else {
      var m := |files| - 1;
      HeaderListPrefix(files[..m], n, root, fetch);
      assert files[..m][..n] == files[..n] && files == files[..m] + [files[m]];
      HeaderListSnoc(files[..m], files[m], root, fetch);
      assert Plan(files[..m], root) <= Plan(files, root) by {
        FoldersAreThePrefixes(files[..m], root);
        WithFoldersAdds(Plan(files[..m], root), Prefixes(NameOf(files[m], root)), files[m].modified);
      }
    }
  }

  /** One file: the folders on its way, then the file itself. */
  method WriteFile(zw: Writer, f: File, fw: FolderWriter, fetch: bool, ghost done: seq<File>) returns (ok: bool)
    requires Holds(zw, HeaderList(done, fw.root, fetch)) && fw.written == Folders(Plan(done, fw.root))
    requires Sized(HeaderOf(FileEntry(f), fw.root, fetch), zw.upstream)
    modifies zw, fw
    ensures zw.closed == old(zw.closed)
    ensures ok ==> Holds(zw, HeaderList(done + [f], fw.root, fetch))
    ensures ok ==> fw.written == Folders(Plan(done + [f], fw.root))
    ensures !ok ==> SentUntilFailure(zw.sink, HeaderList(done + [f], fw.root, fetch), zw.begin, zw.end, zw.upstream, zw.sum)
    ensures !ok ==> !Writable(HeaderList(done + [f], fw.root, fetch), zw.begin, zw.end, zw.upstream, zw.sum)
  {
    hide Holds, Prepare, SentUntilFailure, Writable, Plan, WithFolders, Prefixes, Sized;
    ghost var es;
    var root := fw.root;
    HeaderListSnoc(done, f, root, fetch);
    HeldRange(zw, HeaderList(done, root, fetch));
    ghost var es0, all := Plan(done, root), HeaderList(done + [f], root, fetch);
    ok, es := fw.Write(zw, f, fetch, es0);
    if ok {
      FoldersSnoc(es, FileEntry(f));
      ok := Create(zw, HeadersOf(es, root, fetch), HeaderOf(FileEntry(f), root, fetch));
      if !ok {
        FailureStays(zw.sink, zw.sink, all, all, zw.begin, zw.end, zw.upstream, zw.sum);
      }
    } else {
      HeadersOfPrefix(es, WithFolders(es0, Prefixes(NameOf(f, root)), f.modified), root, fetch);
      FailureStays(zw.sink, zw.sink, HeadersOf(es, root, fetch), all, zw.begin, zw.end, zw.upstream, zw.sum);
    }
  }

  /** Sends a window of the archive. It succeeds exactly if no header fails, and then the bytes
      sent are the window of one fixed archive. On failure the directory that the deferred Close
      appends still follows, after the correct start. */
  method Write(files: seq<File>, root: Path, begin: nat, end: int, up: Upstream, sum: Checksum)
    returns (ok: bool, out: seq<byte>)
    requires ValidRange(begin, end)
    requires AllSized(Selected(files, root), root, up)
    ensures var fhs := HeaderList(Selected(files, root), root, true);
      && (ok <==> Writable(fhs, begin, end, up, sum))
      && (ok ==> out == Window(Archive(ItemsOf(fhs, begin, end, up, sum), []), begin, end))
      && (!ok ==> SentUntilFailure(out, fhs, begin, end, up, sum))
  {
    hide Holds, Prepare, SentUntilFailure, Writable, Plan, Sized, Window, Archive, Ending, Stream,
      HeaderList, ItemsOf, Folders, HeaderOf, Clip, Selected;
    var zw := new Writer(begin, end, [], up, sum);
    var list, _ := GenerateFileList(files, root);
    var fw := new FolderWriter(root);
    EmptyPlan(zw, root, true);
    ok := true;
    var i := 0;
    ghost var all := HeaderList(list, root, true);
    while ok && i < |list|
      invariant 0 <= i <= |list| && fresh(zw) && fresh(fw) && fw.root == root && !zw.closed
      invariant ok ==> Holds(zw, HeaderList(list[..i], root, true))
      invariant ok ==> fw.written == Folders(Plan(list[..i], root))
      invariant !ok ==> SentUntilFailure(zw.sink, all, begin, end, up, sum) && !Writable(all, begin, end, up, sum)
      decreases |list| - i, ok
    {
      assert list[..i + 1] == list[..i] + [list[i]];
      assert Sized(HeaderOf(FileEntry(list[i]), root, true), up);
      ok := WriteFile(zw, list[i], fw, true, list[..i]);
      if ok {
        i := i + 1;
      } else {
        HeaderListPrefix(list, i + 1, root, true);
        FailureStays(zw.sink, zw.sink, HeaderList(list[..i + 1], root, true), all, begin, end, up, sum);
      }
    }
    ghost var sink := zw.sink;
    assert list[..|list|] == list;
    if ok {
      HeldIsWindow(zw, list, root);
    }
    var _ := zw.Close();
    out := zw.sink;
    if !ok {
      FailureStays(sink, out, all, all, begin, end, up, sum);
    }
  }

  lemma EmptyPlan(zw: Writer, root: Path, fetch: bool)
    requires zw.Valid() && zw.items == []
    ensures Holds(zw, HeaderList([], root, fetch)) && Folders(Plan([], root)) == []
  {
  }

  lemma EntryFetched(e: Entry, root: Path, at: nat, begin: nat, end: int, up: Upstream, sum: Checksum)
    requires end >= -1
    ensures var it := ItemAt(Prepare(HeaderOf(e, root, true)), at, begin, end, up, sum);
      it.header.url.Some? || it.content == []
  {
    hide LocalHeader, Clip;
  }

  lemma {:induction false} AllFetchedInPlan(es: seq<Entry>, root: Path, begin: nat, end: int, up: Upstream, sum: Checksum)
    requires end >= -1
    ensures AllFetched(ItemsOf(HeadersOf(es, root, true), begin, end, up, sum))
  {
    if es != [] {
      var front, e := es[..|es| - 1], es[|es| - 1];
      assert es == front + [e];
      HeadersOfSnoc(front, e, root, true);
      EntryFetched(e, root, |Stream(ItemsOf(HeadersOf(front, root, true), begin, end, up, sum))|, begin, end, up, sum);
      hide Prepare, ItemAt, HeaderOf, Stream, HeadersOf, ItemsOf;
      AllFetchedInPlan(front, root, begin, end, up, sum);
      ItemsSnoc(HeadersOf(front, root, true), HeaderOf(e, root, true), begin, end, up, sum);
    }
  }

  lemma HeldIsWindow(zw: Writer, files: seq<File>, root: Path)
    requires Holds(zw, HeaderList(files, root, true))
    ensures Writable(HeaderList(files, root, true), zw.begin, zw.end, zw.upstream, zw.sum)
    ensures zw.sink + Clip(Ending(zw.dir, zw.current, []), zw.current, zw.begin, zw.end)
      == Window(Archive(ItemsOf(HeaderList(files, root, true), zw.begin, zw.end, zw.upstream, zw.sum), []), zw.begin, zw.end)
  {
    AllFetchedInPlan(Plan(files, root), root, zw.begin, zw.end, zw.upstream, zw.sum);
    EmittedIsWindow(zw.items, [], zw.begin, zw.end);
  }

  // ---------- the predicted length ----------

  /** The length the file list declares, and the part of it that becomes content: a name that
      ends in a slash makes a directory entry, which has none. */
  function Declared(files: seq<File>): nat {
    if files == [] then 0 else Declared(files[..|files| - 1]) + files[|files| - 1].size
  }

  function Payload(files: seq<File>, root: Path): nat {
    if files == [] then 0
    else
      Payload(files[..|files| - 1], root)
      + Prepare(HeaderOf(FileEntry(files[|files| - 1]), root, false)).uncompressedSize64
  }

  function ContentLength(items: seq<Item>): nat {
    if items == [] then 0
    else ContentLength(items[..|items| - 1]) + |items[|items| - 1].content|
  }

  lemma {:induction false} EmittedWithoutContents(items: seq<Item>)
    requires forall it <- items :: it.header.url.None?
    ensures |Emit(items, 0, -1)| + ContentLength(items) == |Stream(items)|
  {
    hide LocalHeader, Descriptor;
    if items != [] {
      EmittedWithoutContents(items[..|items| - 1]);
    }
  }

  lemma {:induction false} FoldersHaveNoContent(es: seq<Entry>, ps: seq<Path>, m: Option<Stamp>, root: Path,
      up: Upstream, sum: Checksum)
    ensures ContentLength(ItemsOf(HeadersOf(WithFolders(es, ps, m), root, false), 0, -1, up, sum))
         == ContentLength(ItemsOf(HeadersOf(es, root, false), 0, -1, up, sum))
  {
    hide LocalHeader, Clip, ItemsOf, HeadersOf, Prepare, HeaderOf, ContentLength, Folders;
    if ps != [] {
      var front, p := WithFolders(es, ps[..|ps| - 1], m), ps[|ps| - 1];
      FoldersHaveNoContent(es, ps[..|ps| - 1], m, root, up, sum);
      if p !in Folders(front) {
        ContentSnoc(front, FolderEntry(p, m), root, up, sum);
        FolderHasNoSize(p, m, root);
      }
    }
  }

  lemma FolderHasNoSize(p: Path, m: Option<Stamp>, root: Path)
    ensures Prepare(HeaderOf(FolderEntry(p, m), root, false)).uncompressedSize64 == 0
  {
  }

  lemma ContentSnoc(es: seq<Entry>, e: Entry, root: Path, up: Upstream, sum: Checksum)
    ensures ContentLength(ItemsOf(HeadersOf(es + [e], root, false), 0, -1, up, sum))
         == ContentLength(ItemsOf(HeadersOf(es, root, false), 0, -1, up, sum))
            + Prepare(HeaderOf(e, root, false)).uncompressedSize64
  {
    hide LocalHeader, Clip, Stream;
    HeadersOfSnoc(es, e, root, false);
    ItemsSnoc(HeadersOf(es, root, false), HeaderOf(e, root, false), 0, -1, up, sum);
    var items := ItemsOf(HeadersOf(es + [e], root, false), 0, -1, up, sum);
    assert items[..|es|] == ItemsOf(HeadersOf(es, root, false), 0, -1, up, sum);
  }

  lemma {:induction false} ContentIsPayload(files: seq<File>, root: Path, up: Upstream, sum: Checksum)
    ensures ContentLength(ItemsOf(HeaderList(files, root, false), 0, -1, up, sum)) == Payload(files, root)
  {
    hide Prepare, ItemsOf, HeadersOf, WithFolders, Prefixes, NameOf;
    if files == [] {
      assert ItemsOf([], 0, -1, up, sum) == [] by {
        NoItems(up, sum);
      }
      assert HeadersOf([], root, false) == [];
    } else {
      var front, f := files[..|files| - 1], files[|files| - 1];
      var es := WithFolders(Plan(front, root), Prefixes(NameOf(f, root)), f.modified);
      ContentIsPayload(front, root, up, sum);
      FoldersHaveNoContent(Plan(front, root), Prefixes(NameOf(f, root)), f.modified, root, up, sum);
      ContentSnoc(es, FileEntry(f), root, up, sum);
      assert files == front + [f];
      HeaderListSnoc(front, f, root, false);
    }
  }

  lemma NoItems(up: Upstream, sum: Checksum)
    ensures ItemsOf([], 0, -1, up, sum) == []
  {
  }

  lemma {:induction false} NoPages(es: seq<Entry>, root: Path, up: Upstream, sum: Checksum)
    ensures forall it <- ItemsOf(HeadersOf(es, root, false), 0, -1, up, sum) :: it.header.url.None?
  {
    hide LocalHeader, Clip, Stream;
    if es != [] {
      var front, e := es[..|es| - 1], es[|es| - 1];
      assert es == front + [e];
      HeadersOfSnoc(front, e, root, false);
      NoPages(front, root, up, sum);
      ItemsSnoc(HeadersOf(front, root, false), HeaderOf(e, root, false), 0, -1, up, sum);
    }
  }

  /** The length of the archive, found by writing everything but the contents. */
  method Size(files: seq<File>, root: Path, up: Upstream, sum: Checksum) returns (ok: bool, size: nat)
    ensures var list := Selected(files, root); var fhs := HeaderList(list, root, false);
      && (ok <==> Writable(fhs, 0, -1, up, sum))
      && (ok ==> size + Payload(list, root) == |Archive(ItemsOf(fhs, 0, -1, up, sum), [])| + Declared(list))
  {
    hide Holds, Prepare, Writable, Plan, Sized, Archive, Ending, Stream, SentUntilFailure,
      HeaderList, ItemsOf, Folders, HeaderOf, Clip, Selected, Payload;
    var zw := new Writer(0, -1, [], up, sum);
    var list, _ := GenerateFileList(files, root);
    var fw := new FolderWriter(root);
    EmptyPlan(zw, root, false);
    size := 0;
    ghost var all := HeaderList(list, root, false);
    for i := 0 to |list|
      invariant fresh(zw) && fresh(fw) && fw.root == root && !zw.closed
      invariant Holds(zw, HeaderList(list[..i], root, false))
      invariant fw.written == Folders(Plan(list[..i], root))
      invariant size == Declared(list[..i])
    {
      assert list[..i + 1] == list[..i] + [list[i]] && list[..i + 1][..i] == list[..i];
      NoPageNoSize(list[i], root, up);
      ok := WriteFile(zw, list[i], fw, false, list[..i]);
      if !ok {
        HeaderListPrefix(list, i + 1, root, false);
        FailureStays(zw.sink, zw.sink, HeaderList(list[..i + 1], root, false), all, 0, -1, up, sum);
        var _ := zw.Close();
        return;
      }
      size := size + list[i].size;
    }
    assert list[..|list|] == list;
    HeldLength(zw, list, root);
    var _ := zw.Close();
    size := size + |zw.sink|;
    ok := true;
  }

  lemma NoPageNoSize(f: File, root: Path, up: Upstream)
    ensures Sized(HeaderOf(FileEntry(f), root, false), up)
  {
  }

  lemma HeldLength(zw: Writer, list: seq<File>, root: Path)
    requires Holds(zw, HeaderList(list, root, false)) && zw.begin == 0 && zw.end == -1
    ensures var fhs := HeaderList(list, root, false);
      && Writable(fhs, 0, -1, zw.upstream, zw.sum)
      && |zw.sink + Clip(Ending(zw.dir, zw.current, []), zw.current, 0, -1)| + Payload(list, root)
         == |Archive(ItemsOf(fhs, 0, -1, zw.upstream, zw.sum), [])|
  {
    hide Payload, ItemsOf, Ending, Stream, Writable;
    ContentIsPayload(list, root, zw.upstream, zw.sum);
    NoPages(Plan(list, root), root, zw.upstream, zw.sum);
    EmittedWithoutContents(zw.items);
  }

  /** A file whose relative name ends in a slash: its header is one of a directory. */
  predicate NamedLikeDirectory(f: File, root: Path) {
    NameOf(f, root) != [] && NameOf(f, root)[|NameOf(f, root)| - 1] == SLASH
  }

  /** Size is exact if and only if no file whose name ends in a slash declares a length. */
  lemma {:induction false} SizeIsExact(files: seq<File>, root: Path)
    ensures Payload(files, root) <= Declared(files)
    ensures Payload(files, root) == Declared(files) <==>
      forall f <- files :: NamedLikeDirectory(f, root) ==> f.size == 0
  {
    hide Prepare, HeaderOf, NamedLikeDirectory;
    if files != [] {
      var front, f := files[..|files| - 1], files[|files| - 1];
      SizeIsExact(front, root);
      PayloadOf(f, root);
      assert files == front + [f];
    }
  }

  lemma PayloadOf(f: File, root: Path)
    ensures Prepare(HeaderOf(FileEntry(f), root, false)).uncompressedSize64
      == if NamedLikeDirectory(f, root) then 0 else f.size
  {
    PreparedSizes(HeaderOf(FileEntry(f), root, false));
  }

  /** Whether the upstream has a page of the right length for every file. */
  predicate AllSized(files: seq<File>, root: Path, up: Upstream) {
    forall f <- files :: Sized(HeaderOf(FileEntry(f), root, true), up)
  }

  lemma AlikeMembers(e: Entry, root: Path, at: nat, at': nat, begin: nat, end: int, up: Upstream, sum: Checksum)
    requires end >= -1 && Sized(HeaderOf(e, root, true), up)
    ensures var x := ItemAt(Prepare(HeaderOf(e, root, true)), at, begin, end, up, sum);
      var y := ItemAt(Prepare(HeaderOf(e, root, false)), at', 0, -1, up, sum);
      Alike(x.header, y.header) && |x.content| == |y.content|
  {
    hide LocalHeader, Clip, Prepare;
    PreparedFits(HeaderOf(e, root, true), up);
    PagesAreNotPrepared(HeaderOf(e, root, true));
    assert HeaderOf(e, root, false) == HeaderOf(e, root, true).(url := None);
  }

  /** Where a content comes from has no part in how its header is completed. */
  lemma PagesAreNotPrepared(h: FileHeader)
    ensures Prepare(h.(url := None)) == Prepare(h).(url := None)
  {
    hide WithFlags, WithStamp, WithSizes, WithKind;
    UrlKept(h);
    UrlKept(WithFlags(h));
    UrlKeptWithSizes(WithStamp(WithFlags(h)));
    UrlKeptWithSizes(WithSizes(WithStamp(WithFlags(h))));
  }

  lemma UrlKept(h: FileHeader)
    ensures WithFlags(h.(url := None)) == WithFlags(h).(url := None)
    ensures WithStamp(h.(url := None)) == WithStamp(h).(url := None)
  {
    hide SetFlag, ClearFlag, StampRecord;
  }

  lemma UrlKeptWithSizes(h: FileHeader)
    ensures WithSizes(h.(url := None)) == WithSizes(h).(url := None)
    ensures WithKind(h.(url := None)) == WithKind(h).(url := None)
  {
    hide SetFlag, ClearFlag;
  }

  lemma {:induction false} PlannedFiles(files: seq<File>, root: Path, i: nat)
    requires i < |Plan(files, root)| && Plan(files, root)[i].FileEntry?
    ensures Plan(files, root)[i].file in files
  {
    var n := |files| - 1;
    var before, f := Plan(files[..n], root), files[n];
    FoldersAreThePrefixes(files[..n], root);
    WithFoldersAdds(before, Prefixes(NameOf(f, root)), f.modified);
    if i < |before| {
      PlannedFiles(files[..n], root, i);
    }
  }

  /** The length found without contents is that of the archive every window is cut from. */
  lemma PredictedLength(files: seq<File>, root: Path, begin: nat, end: int, up: Upstream, sum: Checksum)
    requires ValidRange(begin, end) && AllSized(files, root, up)
    ensures |Archive(ItemsOf(HeaderList(files, root, true), begin, end, up, sum), [])|
         == |Archive(ItemsOf(HeaderList(files, root, false), 0, -1, up, sum), [])|
  {
    hide Prepare, ItemAt, Plan, Archive, Alike, Stream, OffsetOf;
    var es := Plan(files, root);
    var xs := ItemsOf(HeaderList(files, root, true), begin, end, up, sum);
    var ys := ItemsOf(HeaderList(files, root, false), 0, -1, up, sum);
    ItemsAre(HeaderList(files, root, true), begin, end, up, sum);
    ItemsAre(HeaderList(files, root, false), 0, -1, up, sum);
    forall i | 0 <= i < |es|
      ensures Alike(xs[i].header, ys[i].header) && |xs[i].content| == |ys[i].content|
    {
      if es[i].FileEntry? {
        PlannedFiles(files, root, i);
      } else {
        FolderHasNoPage(es[i], root, true, up);
      }
      AlikeMembers(es[i], root, OffsetOf(xs, i), OffsetOf(ys, i), begin, end, up, sum);
    }
    AlikeArchives(xs, ys, []);
  }

  /** With `size` as Size reports it, the Content-Length declared for a range is the number of bytes
      in it if and only if the range ends inside the archive, which is where `size` says unless files
      named like directories declare lengths; nothing cuts the range to it. */
  lemma DeclaredLength(files: seq<File>, root: Path, size: nat, begin: nat, end: nat, up: Upstream, sum: Checksum)
    requires AllSized(files, root, up) && begin <= end
    requires size + Payload(files, root) ==
      |Archive(ItemsOf(HeaderList(files, root, false), 0, -1, up, sum), [])| + Declared(files)
    ensures |Window(Archive(ItemsOf(HeaderList(files, root, true), begin, end, up, sum), []), begin, end)| == end - begin + 1
      <==> end + (Declared(files) - Payload(files, root)) < size
    ensures (forall f <- files :: NamedLikeDirectory(f, root) ==> f.size == 0) ==>
      Declared(files) - Payload(files, root) == 0
  {
    hide Archive, ItemsOf, Payload, Declared, HeaderList, Window;
    SizeIsExact(files, root);
    PredictedLength(files, root, begin, end, up, sum);
    WholeWindowIff(Archive(ItemsOf(HeaderList(files, root, true), begin, end, up, sum), []), begin, end);
  }

  lemma WholeWindowIff(s: seq<byte>, begin: nat, end: nat)
    requires begin <= end
    ensures |Window(s, begin, end)| == end - begin + 1 <==> end < |s|
  {
  }

  // ---------- names that end in a slash ----------

  /** A list of headers can be written if and only if none of them fails at its place. */
  lemma {:induction false} WritableIff(fhs: seq<FileHeader>, begin: nat, end: int, up: Upstream, sum: Checksum)
    requires end >= -1
    ensures Writable(fhs, begin, end, up, sum) <==>
      forall i :: 0 <= i < |fhs| ==>
        !Fails(Prepare(fhs[i]), OffsetOf(ItemsOf(fhs, begin, end, up, sum), i), begin, end, up)
  {
    hide Fails, Prepare, ItemAt, Stream;
    if fhs != [] {
      var n := |fhs| - 1;
      var front, items := ItemsOf(fhs[..n], begin, end, up, sum), ItemsOf(fhs, begin, end, up, sum);
      WritableIff(fhs[..n], begin, end, up, sum);
      assert items[..n] == front;
      forall i | 0 <= i <= n
        ensures OffsetOf(items, i) == |Stream(front[..i])|
      {
        assert items[..i] == front[..i];
      }
      assert front[..n] == front;
    }
  }

  /** Where the empty content of the i-th entry stands is asked for by the window. */
  predicate Reached(files: seq<File>, root: Path, i: nat, begin: nat, end: int, up: Upstream, sum: Checksum)
    requires end >= -1 && i < |Plan(files, root)|
  {
    var fhs := HeaderList(files, root, true);
    var at := OffsetOf(ItemsOf(fhs, begin, end, up, sum), i) + |LocalHeader(Prepare(fhs[i]))|;
    begin < at && (end == -1 || at <= end)
  }

  /** A file entry with a page but no writer to take it. */
  predicate LacksWriter(e: Entry, root: Path) {
    e.FileEntry? && NamedLikeDirectory(e.file, root) && e.file.size > 0
  }

  /** An upstream that delivers every page, in the declared length. */
  predicate Honest(files: seq<File>, root: Path, up: Upstream) {
    AllSized(files, root, up) && forall f <- files :: up(f.path).service == Whole
  }

  /** Whether the length of an entry's name fits 16 bits. */
  predicate NameFits(e: Entry, root: Path) {
    match e
    case FolderEntry(path, _) => |path| + 1 <= 0xffff
    case FileEntry(f) => |NameOf(f, root)| <= 0xffff
  }

  predicate NamesShort(files: seq<File>, root: Path) {
    forall e <- Plan(files, root) :: NameFits(e, root)
  }

  lemma LongNames(e: Entry, root: Path)
    ensures TooLong(Prepare(HeaderOf(e, root, true))) <==> !NameFits(e, root)
  {
    hide SetFlag, ClearFlag, NameOf;
    var fh := HeaderOf(e, root, true);
    PreparedSizes(fh);
    if fh.modified.Some? {
      assert StampRecord(fh.modified.value).Size() <= 16;
    }
  }

  lemma EntryFails(e: Entry, root: Path, at: nat, begin: nat, end: int, up: Upstream)
    requires end >= -1
    requires e.FileEntry? ==> up(e.file.path).service == Whole && |up(e.file.path).content| == e.file.size
    ensures var h := Prepare(HeaderOf(e, root, true));
      Fails(h, at, begin, end, up) <==>
        !NameFits(e, root) || (LacksWriter(e, root) && !Outside(0, at + |LocalHeader(h)|, begin, end))
  {
    hide LocalHeader, TooLong, NameFits;
    LongNames(e, root);
    PreparedSizes(HeaderOf(e, root, true));
  }

  /** With an honest upstream, a window can be sent if and only if all names fit 16 bits and it does not
      reach the place of a file that is named like a directory and declares a length. */
  lemma SentUnlessReached(files: seq<File>, root: Path, begin: nat, end: int, up: Upstream, sum: Checksum)
    requires ValidRange(begin, end) && Honest(files, root, up)
    ensures Writable(HeaderList(files, root, true), begin, end, up, sum) <==>
      && NamesShort(files, root)
      && forall i :: 0 <= i < |Plan(files, root)| && LacksWriter(Plan(files, root)[i], root) ==>
           !Reached(files, root, i, begin, end, up, sum)
  {
    hide Prepare, Plan, Fails, TooLong, LocalHeader, ItemsOf, OffsetOf, LacksWriter, HeaderOf, Writable, NameFits;
    var fhs, es := HeaderList(files, root, true), Plan(files, root);
    var items := ItemsOf(fhs, begin, end, up, sum);
    WritableIff(fhs, begin, end, up, sum);
    forall i | 0 <= i < |es|
      ensures Fails(Prepare(fhs[i]), OffsetOf(items, i), begin, end, up) <==>
        !NameFits(es[i], root) || (LacksWriter(es[i], root) && Reached(files, root, i, begin, end, up, sum))
    {
      if es[i].FileEntry? {
        PlannedFiles(files, root, i);
        PageOf(es[i].file, root, up);
      }
      EntryFails(es[i], root, OffsetOf(items, i), begin, end, up);
    }
  }

  lemma PageOf(f: File, root: Path, up: Upstream)
    requires Sized(HeaderOf(FileEntry(f), root, true), up)
    ensures |up(f.path).content| == f.size
  {
  }

  lemma PlanGrows(files: seq<File>, root: Path)
    requires files != []
    ensures Plan(files[..|files| - 1], root) < Plan(files, root)
  {
    var n := |files| - 1;
    FoldersAreThePrefixes(files[..n], root);
    WithFoldersAdds(Plan(files[..n], root), Prefixes(NameOf(files[n], root)), files[n].modified);
  }

  lemma {:induction false} PlannedAt(files: seq<File>, root: Path, f: File) returns (i: nat)
    requires f in files
    ensures i < |Plan(files, root)| && Plan(files, root)[i] == FileEntry(f)
  {
    hide WithFolders, Prefixes, NameOf, ListsFolders;
    var n := |files| - 1;
    var before := Plan(files[..n], root);
    PlanGrows(files, root);
    if f == files[n] {
      i := |Plan(files, root)| - 1;
    } else {
      i := PlannedAt(files[..n], root, f);
    }
  }

  lemma AlwaysReached(files: seq<File>, root: Path, i: nat, up: Upstream, sum: Checksum)
    requires i < |Plan(files, root)|
    ensures Reached(files, root, i, 0, -1, up, sum)
  {
    hide Prepare, ItemsOf, OffsetOf, Plan;
    var h := Prepare(HeaderList(files, root, true)[i]);
    assert LocalRecord(h).Size() == FILE_HEADER_LEN;
  }

  /** With an honest upstream, the whole archive can be sent if and only if all names fit 16 bits and
      its reported size is exact. */
  lemma SentWholeIffExact(files: seq<File>, root: Path, up: Upstream, sum: Checksum)
    requires Honest(files, root, up)
    ensures Writable(HeaderList(files, root, true), 0, -1, up, sum) <==>
      NamesShort(files, root) && Payload(files, root) == Declared(files)
  {
    hide Plan, NamesShort, Honest, Reached, Payload, Declared, Writable, HeaderList;
    SentUnlessReached(files, root, 0, -1, up, sum);
    SizeIsExact(files, root);
    var es := Plan(files, root);
    forall i | 0 <= i < |es| && LacksWriter(es[i], root)
      ensures Reached(files, root, i, 0, -1, up, sum) && es[i].file in files
    {
      AlwaysReached(files, root, i, up, sum);
      PlannedFiles(files, root, i);
    }
    forall f <- files | NamedLikeDirectory(f, root) && f.size > 0
      ensures exists i :: 0 <= i < |es| && LacksWriter(es[i], root)
    {
      var i := PlannedAt(files, root, f);
      assert LacksWriter(es[i], root);
    }
  }

  /** One file of five bytes, named `a/`. */
  function SlashFile(): File {
    File([0x61, SLASH], 5, None)
  }

  lemma SlashFileName()
    ensures NameOf(SlashFile(), []) == [0x61, SLASH]
  {
    assert !([] + [SLASH] <= SlashFile().path) by {
      assert ([] + [SLASH])[0] != SlashFile().path[0];
    }
  }

  lemma OneFolder(p: Path)
    ensures WithFolders([], [p], None) == [FolderEntry(p, None)]
  {
    assert [p][..0] == [];
    assert WithFolders([], [], None) == [];
  }

  lemma SlashFilePlan()
    ensures Plan([SlashFile()], []) == [FolderEntry([0x61], None), FileEntry(SlashFile())]
    ensures NameOf(SlashFile(), []) == [0x61, SLASH]
  {
    hide NameOf, Prefixes, WithFolders;
    var f := SlashFile();
    SlashFileName();
    PrefixesOfSlashName();
    OneFolder([0x61]);
    assert [f][..0] == [] && Plan([], []) == [];
  }

  lemma PrefixesOfSlashName()
    ensures Prefixes([0x61, SLASH]) == [[0x61]]
  {
    var name := [0x61, SLASH];
    assert name[..1] == [0x61] && name[..1][..0] == [];
    assert Prefixes([]) == [];
    assert Prefixes([0x61]) == [];
  }

  /** With a page of five bytes for it, the whole archive cannot be sent, though its first byte can. */
  lemma SlashFileExample(up: Upstream, sum: Checksum)
    requires |up([0x61, SLASH]).content| == 5 && up([0x61, SLASH]).service == Whole
    ensures var files := [SlashFile()];
      && AllSized(files, [], up)
      && !Writable(HeaderList(files, [], true), 0, -1, up, sum)
      && Writable(HeaderList(files, [], true), 0, 0, up, sum)
  {
    hide Plan, Prefixes, Prepare, Writable, ItemsOf, OffsetOf, HeaderList;
    var files := [SlashFile()];
    SlashFilePlan();
    SlashNamesShort();
    assert Honest(files, [], up);
    SentUnlessReached(files, [], 0, -1, up, sum);
    SentUnlessReached(files, [], 0, 0, up, sum);
    AlwaysReached(files, [], 1, up, sum);
    NotReachedAtFirst(files, [], 1, up, sum);
    assert LacksWriter(Plan(files, [])[1], []) && !LacksWriter(Plan(files, [])[0], []);
  }

  lemma NotReachedAtFirst(files: seq<File>, root: Path, i: nat, up: Upstream, sum: Checksum)
    requires i < |Plan(files, root)|
    ensures !Reached(files, root, i, 0, 0, up, sum)
  {
    hide Prepare, ItemsOf, OffsetOf, Plan;
    var h := Prepare(HeaderList(files, root, true)[i]);
    assert LocalRecord(h).Size() == FILE_HEADER_LEN;
  }

  lemma SlashNamesShort()
    ensures NamesShort([SlashFile()], [])
  {
    hide Plan, NameOf;
    SlashFilePlan();
  }
}
