/** Which entries an archive of a file list has, in which order: the file names relative to the
    requested path, and before each file the folders on its path not entered yet. */
module ZipPlan {
  import opened Bytes
  import opened Collections
  import opened Options
  import opened Utf8
  import opened ZipFormat

  type Path = seq<byte>

  /** A file of the torrent. */
  datatype File = File(path: Path, size: u64, modified: Option<Stamp>)

  datatype Entry = FolderEntry(path: Path, modified: Option<Stamp>) | FileEntry(file: File)

  // ---------- paths ----------

  /** The parts of a path between its slashes, empty ones included. */
  function Split(s: Path): (parts: seq<Path>)
    ensures |parts| >= 1
  {
    if s == [] then [[]] else Before(s[0], Split(s[1..]))
  }

  function Before(c: byte, parts: seq<Path>): (r: seq<Path>)
    requires |parts| >= 1
    ensures |r| >= 1
  {
    if c == SLASH then [[]] + parts else [[c] + parts[0]] + parts[1..]
  }

  function After(parts: seq<Path>, c: byte): (r: seq<Path>)
    requires |parts| >= 1
    ensures |r| >= 1
  {
    var n := |parts| - 1;
    if c == SLASH then parts + [[]] else parts[..n] + [parts[n] + [c]]
  }

  function Join(parts: seq<Path>): Path {
    if parts == [] then []
    else if |parts| == 1 then parts[0]
    else parts[0] + [SLASH] + Join(parts[1..])
  }

  predicate CutAt(s: Path, k: int) {
    0 <= k < |s| && s[k] == SLASH
  }

  /** `p` is a folder on the way to `s`: a proper prefix that ends before a slash. */
  ghost predicate OnTheWay(p: Path, s: Path) {
    exists k :: CutAt(s, k) && p == s[..k]
  }

  /** The proper prefixes of `s` that end before a slash, shortest first. */
  function Prefixes(s: Path): (ps: seq<Path>) {
    if s == [] then []
    else if s[|s| - 1] == SLASH then Prefixes(s[..|s| - 1]) + [s[..|s| - 1]]
    else Prefixes(s[..|s| - 1])
  }

  lemma {:induction false} PrefixesAre(s: Path, p: Path)
    ensures p in Prefixes(s) <==> OnTheWay(p, s)
  {
    if s != [] {
      var t := s[..|s| - 1];
      PrefixesAre(t, p);
      if p in Prefixes(t) {
        var k :| CutAt(t, k) && p == t[..k];
        assert CutAt(s, k) && p == s[..k];
      }
      if k :| CutAt(s, k) && p == s[..k] {
        if k < |t| {
          assert CutAt(t, k) && p == t[..k];
        }
      }
    }
  }

  lemma BeforeAfter(b: byte, parts: seq<Path>, c: byte)
    requires |parts| >= 1
    ensures Before(b, After(parts, c)) == After(Before(b, parts), c)
  {
    if b != SLASH && c != SLASH && |parts| == 1 {
      assert [b] + (parts[0] + [c]) == ([b] + parts[0]) + [c];
    }
  }

  /** Splitting off one character at the end. */
  lemma {:induction false} SplitSnoc(s: Path, c: byte)
    ensures Split(s + [c]) == After(Split(s), c)
  {
    if s == [] {
      assert (s + [c])[1..] == [];
      assert [c] + [] == [] + [c];
    } else {
      assert (s + [c])[1..] == s[1..] + [c];
      SplitSnoc(s[1..], c);
      BeforeAfter(s[0], Split(s[1..]), c);
    }
  }

  lemma {:induction false} JoinSnoc(parts: seq<Path>, p: Path)
    ensures Join(parts + [p]) == if parts == [] then p else Join(parts) + [SLASH] + p
  {
    if |parts| > 1 {
      assert (parts + [p])[1..] == parts[1..] + [p];
      JoinSnoc(parts[1..], p);
    } else if |parts| == 1 {
      assert (parts + [p])[1..] == [p];
    }
  }

  /** What JoinedParts promises of a path. */
  ghost predicate Joins(s: Path) {
    && |Split(s)| == |Prefixes(s)| + 1
    && (forall i :: 1 <= i < |Split(s)| ==> Join(Split(s)[..i]) == Prefixes(s)[i - 1])
    && Join(Split(s)) == s
  }

  lemma JoinsSlash(t: Path)
    requires Joins(t)
    ensures Joins(t + [SLASH])
  {
    hide Split, Join;
    var s, parts, n := t + [SLASH], Split(t), |Split(t)|;
    assert s[..|s| - 1] == t;
    SplitSnoc(t, SLASH);
    JoinSnoc(parts, []);
    forall i | 1 <= i < |Split(s)|
      ensures Join(Split(s)[..i]) == Prefixes(s)[i - 1]
    {
      assert Split(s)[..i] == parts[..i];
      if i == n {
        assert parts[..i] == parts;
      }
    }
  }

  lemma JoinsOther(t: Path, c: byte)
    requires Joins(t) && c != SLASH
    ensures Joins(t + [c])
  {
    hide Split, Join;
    var s, parts, n := t + [c], Split(t), |Split(t)|;
    assert s[..|s| - 1] == t;
    SplitSnoc(t, c);
    assert parts == parts[..n - 1] + [parts[n - 1]];
    JoinSnoc(parts[..n - 1], parts[n - 1]);
    JoinSnoc(parts[..n - 1], parts[n - 1] + [c]);
    forall i | 1 <= i < |Split(s)|
      ensures Split(s)[..i] == parts[..i]
    {
    }
  }

  /** Joining the first parts of a path, as the folder writer does, gives its prefixes that end
      before a slash; joining all of them gives the path back. */
  lemma {:induction false} JoinedParts(s: Path)
    ensures |Split(s)| == |Prefixes(s)| + 1
    ensures forall i :: 1 <= i < |Split(s)| ==> Join(Split(s)[..i]) == Prefixes(s)[i - 1]
    ensures Join(Split(s)) == s
  {
    if s != [] {
      var t, c := s[..|s| - 1], s[|s| - 1];
      assert s == t + [c];
      JoinedParts(t);
      if c == SLASH {
        JoinsSlash(t);
      } else {
        JoinsOther(t, c);
      }
    }
  }

  // ---------- the plan ----------

  /** The rest of a file's path after the root and a slash, or the whole path without that prefix. */
  function NameOf(f: File, root: Path): (name: Path)
    ensures if root + [0x2f] <= f.path then f.path == root + [0x2f] + name else name == f.path
  {
    TrimPrefix(f.path, root + [SLASH])
  }

  function Folders(es: seq<Entry>): seq<Path> {
    if es == [] then []
    else
      var last := es[|es| - 1];
      Folders(es[..|es| - 1]) + if last.FolderEntry? then [last.path] else []
  }

  /** The folders among `ps` that `es` does not have yet, entered one after another. */
  function WithFolders(es: seq<Entry>, ps: seq<Path>, modified: Option<Stamp>): seq<Entry> {
    if ps == [] then es
    else
      var front := WithFolders(es, ps[..|ps| - 1], modified);
      var p := ps[|ps| - 1];
      if p in Folders(front) then front else front + [FolderEntry(p, modified)]
  }

  function Plan(files: seq<File>, root: Path): seq<Entry> {
    if files == [] then []
    else
      var f := files[|files| - 1];
      WithFolders(Plan(files[..|files| - 1], root), Prefixes(NameOf(f, root)), f.modified) + [FileEntry(f)]
  }

  /** The header given to CreateHeader for an entry; with `fetch`, files name their page. */
  function HeaderOf(e: Entry, root: Path, fetch: bool): FileHeader {
    match e
    case FolderEntry(p, m) => Blank(p + [SLASH], None, m, 0)
    case FileEntry(f) => Blank(NameOf(f, root), if fetch then Some(f.path) else None, f.modified, f.size)
  }

  function Blank(name: Path, url: Option<Path>, modified: Option<Stamp>, size: u64): FileHeader {
    FileHeader(name, url, [], NeedsUtf8(name), false, 0, 0, 0, STORE, modified, 0, 0, 0, 0, 0, 0, size, [], 0)
  }

  function HeadersOf(es: seq<Entry>, root: Path, fetch: bool): (hs: seq<FileHeader>)
    ensures |hs| == |es|
    ensures forall i :: 0 <= i < |es| ==> hs[i] == HeaderOf(es[i], root, fetch)
  {
    seq(|es|, i requires 0 <= i < |es| => HeaderOf(es[i], root, fetch))
  }

  // ---------- what the plan promises ----------

  ghost predicate NoDuplicates(ps: seq<Path>) {
    forall i, j :: 0 <= i < j < |ps| ==> ps[i] != ps[j]
  }

  /** Every parent of a listed folder is listed before it. */
  ghost predicate ParentsFirst(ps: seq<Path>) {
    forall i, k :: 0 <= i < |ps| && CutAt(ps[i], k) ==> ps[i][..k] in ps[..i]
  }

  lemma FoldersSnoc(es: seq<Entry>, e: Entry)
    ensures Folders(es + [e]) == Folders(es) + if e.FolderEntry? then [e.path] else []
  {
    assert (es + [e])[..|es|] == es;
  }

  /** `all` are the entries `es` and the folders among `ps` they lack, each once. */
  ghost predicate Adds(es: seq<Entry>, ps: seq<Path>, all: seq<Entry>) {
    && Folders(es) <= Folders(all) && NoDuplicates(Folders(all))
    && (forall p :: p in Folders(all) <==> p in Folders(es) || p in ps)
    && es <= all
    && forall i :: |es| <= i < |all| ==> all[i].FolderEntry?
  }

  lemma AddsSame(es: seq<Entry>, ps: seq<Path>, all: seq<Entry>, p: Path)
    requires Adds(es, ps, all) && p in Folders(all)
    ensures Adds(es, ps + [p], all)
  {
    hide Folders, NoDuplicates;
  }

  lemma AddsNew(es: seq<Entry>, ps: seq<Path>, all: seq<Entry>, p: Path, m: Option<Stamp>)
    requires Adds(es, ps, all) && p !in Folders(all)
    ensures Adds(es, ps + [p], all + [FolderEntry(p, m)])
  {
    hide Folders;
    var next := all + [FolderEntry(p, m)];
    FoldersSnoc(all, FolderEntry(p, m));
    assert Folders(next) == Folders(all) + [p];
    forall q
      ensures q in Folders(next) <==> q in Folders(es) || q in ps + [p]
    {
      assert q in Folders(next) <==> q in Folders(all) || q == p;
    }
  }

  lemma {:induction false} AddsAll(es: seq<Entry>, ps: seq<Path>, m: Option<Stamp>)
    requires NoDuplicates(Folders(es))
    ensures Adds(es, ps, WithFolders(es, ps, m))
  {
    if ps != [] {
      hide Adds, Folders, NoDuplicates;
      var front, p := ps[..|ps| - 1], ps[|ps| - 1];
      var listed := WithFolders(es, front, m);
      AddsAll(es, front, m);
      assert ps == front + [p];
      if p in Folders(listed) {
        AddsSame(es, front, listed, p);
      } else {
        AddsNew(es, front, listed, p, m);
      }
    }
  }

  lemma WithFoldersAdds(es: seq<Entry>, ps: seq<Path>, m: Option<Stamp>)
    requires NoDuplicates(Folders(es))
    ensures var fs := Folders(WithFolders(es, ps, m));
      && Folders(es) <= fs && NoDuplicates(fs)
      && forall p :: p in fs <==> p in Folders(es) || p in ps
    ensures es <= WithFolders(es, ps, m)
    ensures forall i :: |es| <= i < |WithFolders(es, ps, m)| ==> WithFolders(es, ps, m)[i].FolderEntry?
  {
    hide Folders, NoDuplicates, WithFolders;
    AddsAll(es, ps, m);
  }

  /** The prefixes of a name, entered shortest first, keep parents before children. */
  lemma {:induction false} WithFoldersParentsFirst(es: seq<Entry>, s: Path, m: Option<Stamp>)
    requires NoDuplicates(Folders(es)) && ParentsFirst(Folders(es))
    ensures ParentsFirst(Folders(WithFolders(es, Prefixes(s), m)))
  {
    if s != [] {
      var t := s[..|s| - 1];
      WithFoldersParentsFirst(es, t, m);
      if s[|s| - 1] == SLASH {
        var front := WithFolders(es, Prefixes(t), m);
        WithFoldersAdds(es, Prefixes(t), m);
        FoldersSnoc(front, FolderEntry(t, m));
        assert Prefixes(s)[..|Prefixes(s)| - 1] == Prefixes(t);
        var fs := Folders(front);
        if t !in fs {
          forall k | CutAt(t, k)
            ensures t[..k] in fs
          {
            PrefixesAre(t, t[..k]);
          }
          ParentsFirstSnoc(fs, t);
        }
      }
    }
  }

  lemma ParentsFirstSnoc(fs: seq<Path>, p: Path)
    requires ParentsFirst(fs)
    requires forall k :: CutAt(p, k) ==> p[..k] in fs
    ensures ParentsFirst(fs + [p])
  {
    var all := fs + [p];
    forall i, k | 0 <= i < |all| && CutAt(all[i], k)
      ensures all[i][..k] in all[..i]
    {
      assert all[..i] == fs[..i];
      assert fs[..|fs|] == fs;
    }
  }

  /** `ps` lists exactly the folders on the way to the files, each once, parents first. */
  ghost predicate ListsFolders(ps: seq<Path>, files: seq<File>, root: Path) {
    && NoDuplicates(ps)
    && ParentsFirst(ps)
    && forall p :: p in ps <==> exists f :: f in files && OnTheWay(p, NameOf(f, root))
  }

  lemma NoFolders(root: Path)
    ensures ListsFolders(Folders(Plan([], root)), [], root)
  {
  }

  /** The folder entries are exactly the proper path prefixes of the relative file names, each
      once, every parent before its child. */
  lemma {:induction false} FoldersAreThePrefixes(files: seq<File>, root: Path)
    ensures ListsFolders(Folders(Plan(files, root)), files, root)
  {
    hide WithFolders, Prefixes, NameOf, ParentsFirst, NoDuplicates;
    if files == [] {
      NoFolders(root);
    } else {
      var front, f := files[..|files| - 1], files[|files| - 1];
      var before := Plan(front, root);
      var middle := WithFolders(before, Prefixes(NameOf(f, root)), f.modified);
      FoldersAreThePrefixes(front, root);
      OneMoreFile(before, front, f, root);
      assert files == front + [f];
      assert Folders(Plan(files, root)) == Folders(middle) by {
        FoldersSnoc(middle, FileEntry(f));
      }
    }
  }

  lemma OneMoreFile(before: seq<Entry>, files: seq<File>, f: File, root: Path)
    requires ListsFolders(Folders(before), files, root)
    ensures ListsFolders(Folders(WithFolders(before, Prefixes(NameOf(f, root)), f.modified)), files + [f], root)
  {
    hide NameOf, WithFolders, Folders, Prefixes;
    var name := NameOf(f, root);
    WithFoldersAdds(before, Prefixes(name), f.modified);
    WithFoldersParentsFirst(before, name, f.modified);
    forall p
      ensures p in Prefixes(name) <==> OnTheWay(p, name)
    {
      PrefixesAre(name, p);
    }
  }

  /** A folder entry carries the modification time of the next file entry, which lies in it; nothing but
      folders comes between. */
  ghost predicate Stamped(es: seq<Entry>, i: nat, root: Path)
    requires i < |es| && es[i].FolderEntry?
  {
    exists j :: i < j < |es| && es[j].FileEntry?
      && es[j].file.modified == es[i].modified && OnTheWay(es[i].path, NameOf(es[j].file, root))
      && forall k :: i < k < j ==> es[k].FolderEntry?
  }

  lemma {:induction false} AddedStamps(es: seq<Entry>, ps: seq<Path>, m: Option<Stamp>, i: nat)
    requires |es| <= i < |WithFolders(es, ps, m)|
    ensures WithFolders(es, ps, m)[i].FolderEntry? && WithFolders(es, ps, m)[i].modified == m
    ensures WithFolders(es, ps, m)[i].path in ps
    decreases |ps|
  {
    hide Folders;
    if ps != [] {
      var front := WithFolders(es, ps[..|ps| - 1], m);
      if i < |front| {
        AddedStamps(es, ps[..|ps| - 1], m, i);
      }
    }
  }

  lemma {:induction false} FolderStamps(files: seq<File>, root: Path, i: nat)
    requires i < |Plan(files, root)| && Plan(files, root)[i].FolderEntry?
    ensures Stamped(Plan(files, root), i, root)
  {
    hide NameOf, Prefixes, WithFolders, OnTheWay, ListsFolders;
    if files != [] {
      var front, f := files[..|files| - 1], files[|files| - 1];
      var before, ps, plan := Plan(front, root), Prefixes(NameOf(f, root)), Plan(files, root);
      FoldersAreThePrefixes(front, root);
      FoldersOnce(before, front, root);
      WithFoldersAdds(before, ps, f.modified);
      if i < |before| {
        FolderStamps(front, root, i);
        StampedStays(before, plan, i, root);
      } else {
        forall k | i <= k < |plan| - 1
          ensures plan[k].FolderEntry? && plan[k].modified == f.modified && plan[k].path in ps
        {
          AddedStamps(before, ps, f.modified, k);
        }
        PrefixesAre(NameOf(f, root), plan[i].path);
        assert plan[|plan| - 1] == FileEntry(f);
      }
    }
  }

  lemma FoldersOnce(es: seq<Entry>, files: seq<File>, root: Path)
    requires ListsFolders(Folders(es), files, root)
    ensures NoDuplicates(Folders(es))
  {
  }

  lemma StampedStays(es: seq<Entry>, all: seq<Entry>, i: nat, root: Path)
    requires es <= all && i < |es| && es[i].FolderEntry? && Stamped(es, i, root)
    ensures Stamped(all, i, root)
  {
    hide OnTheWay, NameOf;
    var j :| i < j < |es| && es[j].FileEntry?
      && es[j].file.modified == es[i].modified && OnTheWay(es[i].path, NameOf(es[j].file, root))
      && forall k :: i < k < j ==> es[k].FolderEntry?;
    assert all[i] == es[i] && all[j] == es[j];
    assert forall k :: i < k < j ==> all[k] == es[k];
  }

  /** Every folder on the path of a file entry is entered before it. */
  ghost predicate FoldersFirst(es: seq<Entry>, root: Path) {
    forall i, p :: 0 <= i < |es| && es[i].FileEntry? && OnTheWay(p, NameOf(es[i].file, root)) ==>
      p in Folders(es[..i])
  }

  /** Files keep their order, and every folder on a file's path is entered before the file. */
  lemma {:induction false} FoldersBeforeFiles(files: seq<File>, root: Path)
    ensures FilesIn(Plan(files, root)) == files && FoldersFirst(Plan(files, root), root)
  {
    hide FoldersFirst, WithFolders, Prefixes, NameOf;
    if files == [] {
      NothingPlanned(root);
    } else {
      var front, f := files[..|files| - 1], files[|files| - 1];
      FoldersBeforeFiles(front, root);
      FoldersAreThePrefixes(front, root);
      assert files == front + [f];
      OneMoreEntry(Plan(front, root), front, f, root);
    }
  }

  lemma NothingPlanned(root: Path)
    ensures FoldersFirst([], root)
  {
  }

  lemma OneMoreEntry(before: seq<Entry>, files: seq<File>, f: File, root: Path)
    requires FilesIn(before) == files && FoldersFirst(before, root) && NoDuplicates(Folders(before))
    ensures var plan := WithFolders(before, Prefixes(NameOf(f, root)), f.modified) + [FileEntry(f)];
      FilesIn(plan) == files + [f] && FoldersFirst(plan, root)
  {
    hide FoldersFirst, WithFolders, Prefixes, NameOf, NoDuplicates, Folders;
    var middle := WithFolders(before, Prefixes(NameOf(f, root)), f.modified);
    WithFoldersAdds(before, Prefixes(NameOf(f, root)), f.modified);
    FilesOfFolders(before, middle);
    assert (middle + [FileEntry(f)])[..|middle|] == middle;
    FoldersFirstSnoc(before, middle, f, root);
  }

  lemma FoldersFirstSnoc(before: seq<Entry>, middle: seq<Entry>, f: File, root: Path)
    requires before <= middle && FoldersFirst(before, root)
    requires forall i :: |before| <= i < |middle| ==> middle[i].FolderEntry?
    requires forall p <- Prefixes(NameOf(f, root)) :: p in Folders(middle)
    ensures FoldersFirst(middle + [FileEntry(f)], root)
  {
    var plan := middle + [FileEntry(f)];
    forall i, p | 0 <= i < |plan| && plan[i].FileEntry? && OnTheWay(p, NameOf(plan[i].file, root))
      ensures p in Folders(plan[..i])
    {
      if i == |middle| {
        PrefixesAre(NameOf(f, root), p);
        assert plan[..i] == middle;
      } else {
        assert plan[..i] == before[..i];
      }
    }
  }

  function FilesIn(es: seq<Entry>): seq<File> {
    if es == [] then []
    else
      var last := es[|es| - 1];
      FilesIn(es[..|es| - 1]) + if last.FileEntry? then [last.file] else []
  }

  lemma {:induction false} FilesOfFolders(es: seq<Entry>, more: seq<Entry>)
    requires es <= more
    requires forall i :: |es| <= i < |more| ==> more[i].FolderEntry?
    ensures FilesIn(more) == FilesIn(es)
  {
    if |more| > |es| {
      FilesOfFolders(es, more[..|more| - 1]);
    } else {
      assert more == es;
    }
  }
}
