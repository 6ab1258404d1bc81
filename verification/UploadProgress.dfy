/** Completions do not get stuck: as long as nothing fails, the flusher gets through the parts, whatever
    it is doing, and a waiting completion gets to its end. */
module UploadProgress {
  import opened Bytes
  import opened Collections
  import opened MultipartUpload

  /** While the file is open, every part that is not flushed has its staging file. */
  ghost predicate InvTemp(s: State) {
    s.open ==> forall p :: p in s.recorded && !IsFlushed(s, p) ==> p in s.temp
  }

  /** A completion waits only after it has given its list. */
  ghost predicate InvBegun(s: State) {
    forall c :: c in s.completers && s.completers[c] == Waiting ==> s.u.completed
  }

  lemma UploadKeepsTemp(s: State, x: UploadEvent, maxStaging: int)
    requires InvTemp(s) && InvStaging(s) && UploadEnabled(s, x, maxStaging)
    requires x.Recorded? ==> x.part in s.temp
    ensures InvTemp(UploadStep(s, x, maxStaging))
  {
  }

  lemma FlushKeepsTemp(s: State, x: FlushEvent)
    requires InvTemp(s) && InvParts(s) && Written(s) && FlushEnabled(s, x)
    ensures InvTemp(FlushStep(s, x))
  {
    hide Joined;
  }

  lemma CloseKeepsTemp(s: State, x: CloseEvent)
    requires InvTemp(s) && CloseEnabled(s, x)
    ensures InvTemp(CloseStep(s, x))
  {
  }

  /** An upload that was staged has its file. */
  ghost predicate InvStaged(s: State) {
    s.open ==> forall p :: p in s.uploads && s.uploads[p].Staged? ==> p in s.temp
  }

  lemma UploadKeepsStaged(s: State, x: UploadEvent, maxStaging: int)
    requires InvStaged(s) && UploadEnabled(s, x, maxStaging)
    ensures InvStaged(UploadStep(s, x, maxStaging))
  {
  }

  lemma FlushKeepsStaged(s: State, x: FlushEvent)
    requires InvStaged(s) && InvStaging(s) && Written(s) && FlushEnabled(s, x)
    ensures InvStaged(FlushStep(s, x))
  {
    hide Joined;
  }

  lemma CloseKeepsStaged(s: State, x: CloseEvent)
    requires InvStaged(s) && CloseEnabled(s, x)
    ensures InvStaged(CloseStep(s, x))
  {
  }

  lemma KeepsBegun(s: State, e: Event, maxStaging: int)
    requires InvBegun(s) && Enabled(s, e, maxStaging)
    ensures InvBegun(Apply(s, e, maxStaging))
  {
    hide UploadStep, FlushStep, CloseStep;
    match e
    case Upload(x) => UploadFrame(s, x, maxStaging);
    case Flushing(x) => FlushFrame(s, x);
    case Closing(x) => CloseKeepsBegun(s, x);
  }

  lemma CloseKeepsBegun(s: State, x: CloseEvent)
    requires InvBegun(s) && CloseEnabled(s, x)
    ensures InvBegun(CloseStep(s, x))
  {
  }

  ghost predicate InvFiles(s: State) {
    InvTemp(s) && InvStaged(s) && InvBegun(s)
  }

  lemma KeepsFiles(s: State, e: Event, maxStaging: int)
    requires Inv(s) && InvFiles(s) && Enabled(s, e, maxStaging)
    ensures InvFiles(Apply(s, e, maxStaging))
  {
    hide UploadStep, FlushStep, CloseStep, InvTemp, InvStaged, InvBegun, Written, InvStaging, InvParts, InvEnd, InvProgress;
    KeepsBegun(s, e, maxStaging);
    match e
    case Upload(x) =>
      UploadKeepsStaged(s, x, maxStaging);
      UploadsKeepTemp(s, x, maxStaging);
    case Flushing(x) =>
      FlushKeepsTemp(s, x);
      FlushKeepsStaged(s, x);
    case Closing(x) =>
      CloseKeepsTemp(s, x);
      CloseKeepsStaged(s, x);
  }

  lemma UploadsKeepTemp(s: State, x: UploadEvent, maxStaging: int)
    requires Inv(s) && InvFiles(s) && UploadEnabled(s, x, maxStaging)
    ensures InvTemp(UploadStep(s, x, maxStaging))
  {
    hide Written, InvStaging, InvParts, InvEnd, InvProgress;
    UploadFrame(s, x, maxStaging);
    if s.open {
      UploadKeepsTemp(s, x, maxStaging);
    }
  }

  lemma {:induction false} AlwaysFiles(es: seq<Event>, maxStaging: int)
    requires Run(es, maxStaging)
    ensures Inv(After(es, maxStaging)) && InvFiles(After(es, maxStaging))
  {
    hide Apply, Enabled, Inv, InvFiles;
    AlwaysInv(es, maxStaging);
    if es == [] {
      NothingStaged();
    } else {
      var before, e := es[..|es| - 1], es[|es| - 1];
      AlwaysFiles(before, maxStaging);
      KeepsFiles(After(before, maxStaging), e, maxStaging);
    }
  }

  lemma NothingStaged()
    ensures InvFiles(Init())
  {
  }

  // ---------- staging files ----------

  /** The staging file of a part goes when the part is flushed. */
  ghost predicate InvClean(s: State) {
    forall p :: p in s.temp ==> !IsFlushed(s, p)
  }

  lemma UploadKeepsClean(s: State, x: UploadEvent, maxStaging: int)
    requires InvClean(s) && InvParts(s) && InvStaging(s) && Written(s) && UploadEnabled(s, x, maxStaging)
    ensures InvClean(UploadStep(s, x, maxStaging))
  {
    hide Joined;
  }

  lemma FlushKeepsClean(s: State, x: FlushEvent)
    requires InvClean(s) && InvParts(s) && Written(s) && FlushEnabled(s, x)
    ensures InvClean(FlushStep(s, x))
  {
    hide Joined;
  }

  lemma CloseKeepsClean(s: State, x: CloseEvent)
    requires InvClean(s) && CloseEnabled(s, x)
    ensures InvClean(CloseStep(s, x))
  {
  }

  lemma {:induction false} AlwaysClean(es: seq<Event>, maxStaging: int)
    requires Run(es, maxStaging)
    ensures InvClean(After(es, maxStaging))
  {
    hide UploadStep, FlushStep, CloseStep, InvClean, Written, InvStaging, InvParts, InvEnd, InvProgress;
    if es == [] {
      NothingLeft();
    } else {
      var before, e := es[..|es| - 1], es[|es| - 1];
      AlwaysClean(before, maxStaging);
      AlwaysInv(before, maxStaging);
      match e
      case Upload(x) => UploadKeepsClean(After(before, maxStaging), x, maxStaging);
      case Flushing(x) => FlushKeepsClean(After(before, maxStaging), x);
      case Closing(x) => CloseKeepsClean(After(before, maxStaging), x);
    }
  }

  lemma NothingLeft()
    ensures InvClean(Init())
  {
  }

  /** While the file is open there is a staging file for exactly the parts that were received and are not flushed
      yet, and those staged by an upload in progress; it holds the content of its part. */
  lemma StagingFiles(es: seq<Event>, maxStaging: int)
    requires Run(es, maxStaging) && After(es, maxStaging).open
    ensures var s := After(es, maxStaging);
      && (forall p :: p in s.temp <==>
            || (p in s.recorded && !(1 <= p < s.u.nextPart) && !(s.flusher.Counted? && p == s.u.nextPart))
            || (p in s.uploads && s.uploads[p].Staged?))
      && (forall p :: p in s.temp && p in s.recorded ==> s.temp[p] == s.recorded[p])
      && (forall p :: p in s.temp && p in s.uploads ==> s.uploads[p] == Staged(s.temp[p]))
  {
    hide Run, After, Joined;
    AlwaysFiles(es, maxStaging);
    AlwaysClean(es, maxStaging);
  }

  lemma NoFileAgain(s: State, e: Event, p: int, maxStaging: int)
    requires InvStaging(s) && Enabled(s, e, maxStaging) && p in s.recorded && p !in s.temp
    ensures p in Apply(s, e, maxStaging).recorded && p !in Apply(s, e, maxStaging).temp
  {
    hide UploadStep, FlushStep, CloseStep, InvStaging;
    match e
    case Upload(x) => UploadAddsNoFile(s, x, p, maxStaging);
    case Flushing(x) => FlushAddsNoFile(s, x, p);
    case Closing(x) => CloseAddsNoFile(s, x, p);
  }

  lemma UploadAddsNoFile(s: State, x: UploadEvent, p: int, maxStaging: int)
    requires InvStaging(s) && UploadEnabled(s, x, maxStaging) && p in s.recorded && p !in s.temp
    ensures p in UploadStep(s, x, maxStaging).recorded && p !in UploadStep(s, x, maxStaging).temp
  {
  }

  lemma FlushAddsNoFile(s: State, x: FlushEvent, p: int)
    requires FlushEnabled(s, x) && p in s.recorded && p !in s.temp
    ensures p in FlushStep(s, x).recorded && p !in FlushStep(s, x).temp
  {
  }

  lemma CloseAddsNoFile(s: State, x: CloseEvent, p: int)
    requires CloseEnabled(s, x) && p in s.recorded && p !in s.temp
    ensures p in CloseStep(s, x).recorded && p !in CloseStep(s, x).temp
  {
  }

  /** An abort, and a completion that succeeds, delete the staging files of all parts received by then, and
      none of them comes back. */
  lemma {:induction false} EndCleansUp(es: seq<Event>, n: nat, p: int, maxStaging: int)
    requires Run(es, maxStaging) && n < |es| && Run(es[..n], maxStaging)
    requires es[n].Closing? && (es[n].cl.Abort? || es[n].cl.CloseFile?)
    requires p in After(es[..n], maxStaging).recorded
    ensures p in After(es, maxStaging).recorded && p !in After(es, maxStaging).temp
  {
    hide UploadStep, FlushStep;
    var before := es[..|es| - 1];
    if n == |es| - 1 {
      assert es[..n] == before;
    } else {
      assert es[..n] == before[..n];
      EndCleansUp(before, n, p, maxStaging);
      AlwaysInv(before, maxStaging);
      NoFileAgain(After(before, maxStaging), es[|es| - 1], p, maxStaging);
    }
  }

  // ---------- the flusher goes on ----------

  /** What the flusher's own steps leave alone, as long as it does not fail. */
  predicate Undisturbed(s: State, t: State) {
    && t.uploads == s.uploads && t.recorded == s.recorded && t.completers == s.completers
    && t.open == s.open && t.listed == s.listed
    && t.u == s.u.(nextPart := t.u.nextPart, totalFlushed := t.u.totalFlushed, metadata := t.u.metadata)
  }

  /** No part upload, no other completion, no abort, nothing that fails. */
  predicate GoesWell(e: Event) {
    match e
    case Upload(_) => false
    case Flushing(x) => !x.OpenFails? && !x.CopyFails? && !x.FlushFails?
    case Closing(x) => x.Wake? || x.Unlist? || x.Drain? || x.CloseFile?
  }

  lemma Continue(es: seq<Event>, e: Event, maxStaging: int) returns (more: seq<Event>)
    requires Run(es, maxStaging) && Enabled(After(es, maxStaging), e, maxStaging)
    ensures more == es + [e] && Run(more, maxStaging) && After(more, maxStaging) == Apply(After(es, maxStaging), e, maxStaging)
  {
    hide Apply, Enabled;
    Next(es, e, maxStaging);
    more := es + [e];
  }

  /** From here a run goes on without anything that fails. */
  ghost predicate GoesOn(es: seq<Event>, more: seq<Event>, maxStaging: int) {
    Run(more, maxStaging) && es <= more && forall i :: |es| <= i < |more| ==> GoesWell(more[i])
  }

  /** The flusher gets through the part it is at. */
  lemma FinishesPart(es: seq<Event>, maxStaging: int) returns (more: seq<Event>)
    requires Run(es, maxStaging) && After(es, maxStaging).open
    requires var f := After(es, maxStaging).flusher; f.Opening? || f.Copying? || f.Counted?
    ensures GoesOn(es, more, maxStaging)
    ensures var s, t := After(es, maxStaging), After(more, maxStaging);
      Undisturbed(s, t) && t.flusher == Idle && t.u.nextPart == s.u.nextPart + 1
  {
    hide Run, After, UploadStep, CloseStep;
    more := es;
    if After(more, maxStaging).flusher.Opening? {
      PartThere(es, maxStaging);
      more := Continue(more, Flushing(Open), maxStaging);
    }
    if After(more, maxStaging).flusher.Copying? {
      var f := After(more, maxStaging).flusher;
      CopyInside(more, maxStaging);
      more := Continue(more, Flushing(Copy(|f.content| - f.copied)), maxStaging);
      more := Continue(more, Flushing(CountPart), maxStaging);
    }
    more := Continue(more, Flushing(Advance), maxStaging);
  }

  /** A part to be opened has its staging file. */
  lemma PartThere(es: seq<Event>, maxStaging: int)
    requires Run(es, maxStaging) && After(es, maxStaging).flusher.Opening? && After(es, maxStaging).open
    ensures After(es, maxStaging).flusher.part in After(es, maxStaging).temp
  {
    hide Run, After, Joined;
    AlwaysFiles(es, maxStaging);
  }

  lemma CopyInside(more: seq<Event>, maxStaging: int)
    requires Run(more, maxStaging) && After(more, maxStaging).flusher.Copying?
    ensures After(more, maxStaging).flusher.copied <= |After(more, maxStaging).flusher.content|
  {
    hide Run, After, Joined;
    AlwaysInv(more, maxStaging);
  }

  /** Every part up to the last expected one was received. */
  ghost predicate AllThere(s: State, m: nat) {
    (forall q <- s.u.expected :: q <= m) && forall p :: 1 <= p <= m ==> p in s.recorded
  }

  /** Between two parts the flusher goes for the next one, unless all that is expected is out. */
  lemma PicksNext(s: State, m: nat)
    requires Inv(s) && s.flusher == Idle && s.u.completed && !s.u.aborted && !s.u.flushErr && AllThere(s, m)
    ensures PickNext(s.u) == if AllFlushed(s.u) then Leave else Flush(s.u.nextPart)
    ensures s.u.nextPart > m ==> AllFlushed(s.u)
  {
    hide Written, InvStaging, InvEnd, InvProgress;
    if !AllFlushed(s.u) {
      var q :| q in s.u.expected && q >= s.u.nextPart;
      assert s.u.nextPart in s.recorded;
    }
  }

  lemma PicksUp(es: seq<Event>, m: nat, maxStaging: int) returns (more: seq<Event>)
    requires Run(es, maxStaging)
    requires var s := After(es, maxStaging);
      s.u.completed && !s.u.aborted && !s.u.flushErr && s.flusher == Idle && AllThere(s, m)
    ensures GoesOn(es, more, maxStaging)
    ensures var s, t := After(es, maxStaging), After(more, maxStaging);
      && Undisturbed(s, t) && t.u.nextPart == s.u.nextPart
      && (t.flusher == Gone || t.flusher.Opening?) && (s.u.nextPart > m ==> t.flusher == Gone)
  {
    hide Run, After, UploadStep, CloseStep, Inv, PickNext, AllFlushed, AllThere;
    AlwaysInv(es, maxStaging);
    PicksNext(After(es, maxStaging), m);
    more := Continue(es, Flushing(PickUp), maxStaging);
  }

  /** The flusher gets through one more part, or leaves because all that is expected is out. */
  lemma OnePart(es: seq<Event>, m: nat, maxStaging: int) returns (more: seq<Event>)
    requires Run(es, maxStaging)
    requires var s := After(es, maxStaging);
      s.u.completed && !s.u.aborted && !s.u.flushErr && s.flusher != Broken && s.open && AllThere(s, m)
    ensures GoesOn(es, more, maxStaging)
    ensures var s, t := After(es, maxStaging), After(more, maxStaging);
      && Undisturbed(s, t) && AllThere(t, m)
      && (t.flusher == Gone || (t.u.nextPart == s.u.nextPart + 1 && t.flusher == Idle))
      && (s.flusher == Idle && s.u.nextPart > m ==> t.flusher == Gone)
  {
    hide Run, After, AllThere;
    var s := After(es, maxStaging);
    more := es;
    if s.flusher == Idle {
      more := PicksUp(es, m, maxStaging);
    }
    if After(more, maxStaging).flusher != Gone {
      var picked := more;
      more := FinishesPart(picked, maxStaging);
    }
    StillThere(s, After(more, maxStaging), m);
  }

  lemma StillThere(s: State, t: State, m: nat)
    requires AllThere(s, m) && t.u.expected == s.u.expected && t.recorded == s.recorded
    ensures AllThere(t, m)
  {
  }

  /** How many parts the flusher has before it at most. */
  function PartsLeft(s: State, m: nat): nat {
    if s.u.nextPart > m then if s.flusher == Idle then 0 else 1 else m + 2 - s.u.nextPart
  }

  /** Once the list of parts is there the flusher gets through them all. */
  lemma {:induction false} FlushesAll(es: seq<Event>, m: nat, maxStaging: int) returns (more: seq<Event>)
    requires Run(es, maxStaging)
    requires var s := After(es, maxStaging);
      s.u.completed && !s.u.aborted && !s.u.flushErr && s.flusher != Broken && s.open && AllThere(s, m)
    ensures GoesOn(es, more, maxStaging)
    ensures Undisturbed(After(es, maxStaging), After(more, maxStaging)) && After(more, maxStaging).flusher == Gone
    decreases PartsLeft(After(es, maxStaging), m)
  {
    hide Run, After, AllThere;
    more := OnePart(es, m, maxStaging);
    if After(more, maxStaging).flusher != Gone {
      var next := more;
      more := FlushesAll(next, m, maxStaging);
    }
  }

  /** With the flusher gone the completion goes through its last sections. */
  lemma GetsToTheEnd(es: seq<Event>, c: nat, maxStaging: int) returns (more: seq<Event>)
    requires Run(es, maxStaging) && InPhase(After(es, maxStaging), c, Waiting)
    requires var s := After(es, maxStaging); s.flusher == Gone && s.open && !s.u.flushErr
    ensures GoesOn(es, more, maxStaging)
    ensures InPhase(After(more, maxStaging), c, Succeeded) && After(more, maxStaging).recorded == After(es, maxStaging).recorded
  {
    hide Run, After, UploadStep, FlushStep;
    more := StopsWaiting(es, c, maxStaging);
    more := Continue(more, Closing(Drain(c)), maxStaging);
    more := Continue(more, Closing(CloseFile(c)), maxStaging);
  }

  lemma StopsWaiting(es: seq<Event>, c: nat, maxStaging: int) returns (more: seq<Event>)
    requires Run(es, maxStaging) && InPhase(After(es, maxStaging), c, Waiting)
    requires After(es, maxStaging).flusher == Gone && !After(es, maxStaging).u.flushErr
    ensures GoesOn(es, more, maxStaging)
    ensures var s, t := After(es, maxStaging), After(more, maxStaging);
      InPhase(t, c, Unlisted) && t.recorded == s.recorded && t.open == s.open
  {
    hide Run, After, UploadStep, FlushStep;
    more := Continue(es, Closing(Wake(c)), maxStaging);
    more := Continue(more, Closing(Unlist(c)), maxStaging);
  }

  lemma StillCompletes(es: seq<Event>, more: seq<Event>, n: nat, maxStaging: int)
    requires Completes(es, n) && GoesOn(es, more, maxStaging)
    ensures Completes(more, n)
  {
    hide ListsUpTo;
    forall e | e in more && e.Closing? && e.cl.Begin?
      ensures ListsUpTo(e.cl.parts, n)
    {
      var i :| 0 <= i < |more| && more[i] == e;
      assert i < |es| && es[i] == e;
    }
  }

  /** A completion that waits can succeed, whatever the flusher is doing and whoever else uploads, completes
      or waits, as long as all the parts it lists were received, nothing has failed, nobody aborted and
      nobody closed the file: no step of anyone but the flusher and itself is needed. The file then
      begins with the parts listed, in order. */
  lemma CompletionCanSucceed(es: seq<Event>, n: nat, c: nat, maxStaging: int) returns (more: seq<Event>)
    requires Run(es, maxStaging) && Completes(es, n) && InPhase(After(es, maxStaging), c, Waiting)
    requires var s := After(es, maxStaging);
      && !s.u.aborted && !s.u.flushErr && s.flusher != Broken && s.open
      && forall p :: 1 <= p <= n ==> p in s.recorded
    ensures Run(more, maxStaging) && es <= more && forall i :: |es| <= i < |more| ==> GoesWell(more[i])
    ensures var s, t := After(es, maxStaging), After(more, maxStaging);
      InPhase(t, c, Succeeded) && t.recorded == s.recorded && Joined(s.recorded, n) <= t.file
  {
    hide Run, After, Enabled, Apply, Inv, ListsUpTo, InvTemp, InvStaged, Completes, Joined;
    AlwaysFiles(es, maxStaging);
    AlwaysListed(es, n, maxStaging);
    ListedAreThere(After(es, maxStaging), n);
    var flushed := FlushesAll(es, n, maxStaging);
    more := GetsToTheEnd(flushed, c, maxStaging);
    StillCompletes(es, flushed, n, maxStaging);
    StillCompletes(flushed, more, n, maxStaging);
    ObjectOfCompletion(more, n, c, maxStaging);
  }

  lemma ListedAreThere(s: State, n: nat)
    requires s.u.completed && InvListed(s, n) && forall p :: 1 <= p <= n ==> p in s.recorded
    ensures AllThere(s, n)
  {
  }

  // ---------- what can go wrong ----------

  /** A flusher that failed refuses every completion that waits. */
  lemma FailureRefuses(es: seq<Event>, c: nat, maxStaging: int) returns (more: seq<Event>)
    requires Run(es, maxStaging) && InPhase(After(es, maxStaging), c, Waiting) && After(es, maxStaging).flusher == Broken
    ensures Run(more, maxStaging) && es <= more
    ensures var s, t := After(es, maxStaging), After(more, maxStaging);
      && InPhase(t, c, Refused) && t.u.flushErr && t.flusher == Gone
      && t.file == s.file && t.buffer == s.buffer && t.u.nextPart == s.u.nextPart && t.recorded == s.recorded
  {
    hide Run, After, UploadStep;
    more := Continue(es, Flushing(FlushFails), maxStaging);
    more := Continue(more, Closing(Wake(c)), maxStaging);
  }

  /** A copy can fail after any number of bytes. The completion is refused then, and file and write buffer
      hold the parts before this one and the bytes of it that were copied. */
  lemma CopyCanFail(es: seq<Event>, k: nat, c: nat, maxStaging: int) returns (more: seq<Event>)
    requires Run(es, maxStaging) && InPhase(After(es, maxStaging), c, Waiting)
    requires var f := After(es, maxStaging).flusher; f.Copying? && f.copied + k <= |f.content|
    ensures Run(more, maxStaging) && es <= more
    ensures var s, t := After(es, maxStaging), After(more, maxStaging);
      && InPhase(t, c, Refused) && t.u.flushErr && t.flusher == Gone
      && t.file + t.buffer == Joined(s.recorded, s.u.nextPart - 1) + s.flusher.content[..s.flusher.copied + k]
  {
    hide Run, After, UploadStep, CloseStep, Joined;
    AlwaysInv(es, maxStaging);
    var s := After(es, maxStaging);
    var f := s.flusher;
    more := Continue(es, Flushing(CopyFails(k)), maxStaging);
    CopyExtends(s, k);
    assert s.file + (s.buffer + f.content[f.copied..f.copied + k]) == s.file + After(more, maxStaging).buffer;
    more := FailureRefuses(more, c, maxStaging);
  }

  /** So can opening the staging file. */
  lemma OpenCanFail(es: seq<Event>, c: nat, maxStaging: int) returns (more: seq<Event>)
    requires Run(es, maxStaging) && InPhase(After(es, maxStaging), c, Waiting) && After(es, maxStaging).flusher.Opening?
    ensures Run(more, maxStaging) && es <= more
    ensures var s, t := After(es, maxStaging), After(more, maxStaging);
      && InPhase(t, c, Refused) && t.u.flushErr && t.flusher == Gone
      && t.file + t.buffer == Joined(s.recorded, s.u.nextPart - 1)
  {
    hide Run, After, UploadStep, CloseStep, Joined;
    AlwaysInv(es, maxStaging);
    more := Continue(es, Flushing(OpenFails), maxStaging);
    more := FailureRefuses(more, c, maxStaging);
  }

  /** And with all parts out a completion can be refused still: what is buffered may not get to the file, and
      the file may not close well, when it counts as closed all the same. */
  lemma EndCanFail(es: seq<Event>, c: nat, maxStaging: int) returns (more: seq<Event>)
    requires Run(es, maxStaging)
    requires InPhase(After(es, maxStaging), c, Unlisted) || InPhase(After(es, maxStaging), c, Drained)
    ensures Run(more, maxStaging) && es <= more
    ensures var s, t := After(es, maxStaging), After(more, maxStaging);
      t == s.(completers := s.completers[c := Refused], open := s.open && s.completers[c] == Unlisted)
  {
    hide Run, After, UploadStep, FlushStep;
    if After(es, maxStaging).completers[c] == Unlisted {
      more := Continue(es, Closing(DrainFails(c)), maxStaging);
    } else {
      more := Continue(es, Closing(CloseFails(c)), maxStaging);
    }
  }

  /** While the upload is listed another completion can always be asked for, beside those in progress, and
      its list takes the place of theirs; after a flush error it is refused and changes nothing. */
  lemma AnotherCompletion(es: seq<Event>, c: nat, parts: seq<int>, maxStaging: int) returns (more: seq<Event>)
    requires Run(es, maxStaging) && After(es, maxStaging).listed && c !in After(es, maxStaging).completers
    ensures Run(more, maxStaging) && es <= more
    ensures var s, t := After(es, maxStaging), After(more, maxStaging);
      if s.u.flushErr then t == s.(completers := s.completers[c := Refused])
      else t == s.(completers := s.completers[c := Waiting], u := s.u.(expected := parts, completed := true))
  {
    hide Run, After, UploadStep, FlushStep;
    var s := After(es, maxStaging);
    more := Continue(es, Closing(LookUp(c)), maxStaging);
    more := Continue(more, Closing(Begin(c, parts)), maxStaging);
    assert s.completers[c := Found][c := Waiting] == s.completers[c := Waiting];
    assert s.completers[c := Found][c := Refused] == s.completers[c := Refused];
  }
}
