/** The sequential multipart upload of the S3 gateway. Part uploaders, one background flusher,
    completions and an abort share an activeUpload. Every lock section, and every piece of work
    between two of them, is one step; a run is any interleaving of steps. */
module MultipartUpload {
  import opened Bytes
  import opened Collections

  // ---------- the shared object and its lock sections ----------

  /** The fields guarded by the upload's mutex. `received` are the keys of partsReceived: the path
      of a staged part is determined by its number. */
  datatype Shared = Shared(
    received: set<int>, expected: seq<int>, completed: bool, aborted: bool, flushErr: bool,
    nextPart: int, totalBytes: int, totalFlushed: int, metadata: seq<(int, int)>)

  /** What the flusher does next: leave, flush a part, or wait. */
  datatype Pick = Leave | Flush(part: int) | Wait

  /** The answer to a part upload that asks to be let in. */
  datatype Answer = Turned | HeldBack | LetIn

  predicate Refuses(u: Shared) {
    u.flushErr || u.aborted
  }

  /** The backpressure test: staged bytes above the limit keep new parts waiting. */
  predicate Full(u: Shared, maxStaging: int) {
    u.totalBytes - u.totalFlushed > maxStaging
  }

  function WithPart(u: Shared, part: int, size: nat): Shared {
    u.(received := u.received + {part}, totalBytes := u.totalBytes + size)
  }

  predicate AllFlushed(u: Shared) {
    forall p <- u.expected :: p < u.nextPart
  }

  function PickNext(u: Shared): Pick {
    if u.aborted || u.flushErr then Leave
    else if u.completed && AllFlushed(u) then Leave
    else if u.nextPart in u.received then Flush(u.nextPart)
    else Wait
  }

  function Account(u: Shared, part: int, size: nat): Shared {
    u.(totalFlushed := u.totalFlushed + size, metadata := u.metadata + [(part, size)])
  }

  /** After a part was written, or could not be. */
  function Finished(u: Shared, ok: bool): Shared {
    if ok then u.(nextPart := u.nextPart + 1) else u.(flushErr := true)
  }

  /** Completion asked for a list of parts. */
  function Completing(u: Shared, parts: seq<int>): Shared {
    if u.flushErr then u else u.(expected := parts, completed := true)
  }

  /** The upload's object. Each method is the lock section of one step of the protocol below: given a
      state of the protocol that the fields show, it takes them to what that step makes of it. */
  class ActiveUpload {
    var received: set<int>
    var expected: seq<int>
    var completed: bool
    var aborted: bool
    var flushErr: bool
    var nextPart: int
    var totalBytes: int
    var totalFlushed: int
    var metadata: seq<(int, int)>

    function View(): Shared
      reads this
    {
      Shared(received, expected, completed, aborted, flushErr, nextPart, totalBytes, totalFlushed, metadata)
    }

    constructor ()
      ensures View() == Shared({}, [], false, false, false, 1, 0, 0, [])
    {
      received, expected, completed, aborted, flushErr := {}, [], false, false, false;
      nextPart, totalBytes, totalFlushed, metadata := 1, 0, 0, [];
    }

    /** Whether a part upload may go ahead: exactly when the protocol admits it. Held back, it waits on
        the condition variable. */
    method TryAdmit(maxStaging: int, ghost part: int, ghost s: State) returns (r: Answer)
      requires View() == s.u && part !in s.uploads && part !in s.recorded
      ensures r == LetIn <==> Enabled(s, Upload(Admit(part)), maxStaging)
      ensures r == Turned <==> flushErr || aborted
      ensures r == HeldBack <==> !flushErr && !aborted && totalBytes - totalFlushed > maxStaging
    {
      if flushErr || aborted {
        return Turned;
      }
      if totalBytes - totalFlushed > maxStaging {
        return HeldBack;
      }
      r := LetIn;
    }

    /** A staged part is received; the invariant stays. */
    method RecordPart(part: int, written: nat, ghost s: State, ghost maxStaging: int)
      requires View() == s.u && Inv(s) && Enabled(s, Upload(Recorded(part)), maxStaging)
      requires written == |s.uploads[part].content|
      modifies this
      ensures View() == Apply(s, Upload(Recorded(part)), maxStaging).u && Inv(Apply(s, Upload(Recorded(part)), maxStaging))
      ensures received == old(received) + {part} && totalBytes == old(totalBytes) + written
      ensures View() == old(View()).(received := received, totalBytes := totalBytes)
    {
      hide Inv;
      KeepsInv(s, Upload(Recorded(part)), maxStaging);
      received := received + {part};
      totalBytes := totalBytes + written;
    }

    /** The locked part of the flush loop: it waits exactly when the protocol gives it nothing to do,
        and a part it goes for has been received. */
    method NextAction(ghost s: State, ghost maxStaging: int) returns (r: Pick)
      requires View() == s.u && Inv(s) && s.flusher == Idle
      ensures r == Leave <==> aborted || flushErr || (completed && forall p <- expected :: p < nextPart)
      ensures r == if r == Leave then Leave else if nextPart in received then Flush(nextPart) else Wait
      ensures r == Wait <==> !Enabled(s, Flushing(PickUp), maxStaging)
      ensures r != Wait ==> Apply(s, Flushing(PickUp), maxStaging).flusher == if r.Flush? then Opening(r.part) else Gone
      ensures r.Flush? ==> r.part == s.u.nextPart && r.part in s.recorded
    {
      hide Written, InvStaging, InvEnd, InvProgress, UploadStep, CloseStep;
      if aborted || flushErr {
        return Leave;
      }
      if completed {
        var allFlushed := AllOut();
        if allFlushed {
          return Leave;
        }
      }
      r := if nextPart in received then Flush(nextPart) else Wait;
    }

    method AllOut() returns (allFlushed: bool)
      ensures allFlushed <==> forall p <- expected :: p < nextPart
    {
      allFlushed := true;
      for i := 0 to |expected|
        invariant allFlushed <==> forall k :: 0 <= k < i ==> expected[k] < nextPart
      {
        if expected[i] >= nextPart {
          allFlushed := false;
        }
      }
      assert allFlushed ==> forall p <- expected :: p < nextPart;
      assert forall k :: 0 <= k < |expected| ==> expected[k] in expected;
    }

    /** A part that was copied counts as flushed; the invariant stays. */
    method AccountPart(part: int, written: nat, ghost s: State, ghost maxStaging: int)
      requires View() == s.u && Inv(s) && Enabled(s, Flushing(CountPart), maxStaging)
      requires part == s.flusher.part && written == |s.flusher.content|
      modifies this
      ensures View() == Apply(s, Flushing(CountPart), maxStaging).u && Inv(Apply(s, Flushing(CountPart), maxStaging))
      ensures totalFlushed == old(totalFlushed) + written && metadata == old(metadata) + [(part, written)]
      ensures View() == old(View()).(totalFlushed := totalFlushed, metadata := metadata)
    {
      hide Inv;
      KeepsInv(s, Flushing(CountPart), maxStaging);
      totalFlushed := totalFlushed + written;
      metadata := metadata + [(part, written)];
    }

    /** The end of one turn of the flush loop; the invariant stays. */
    method FinishFlush(ok: bool, ghost s: State, ghost maxStaging: int)
      requires View() == s.u && Inv(s) && Enabled(s, Flushing(if ok then Advance else FlushFails), maxStaging)
      modifies this
      ensures var e := Flushing(if ok then Advance else FlushFails);
        View() == Apply(s, e, maxStaging).u && Inv(Apply(s, e, maxStaging))
      ensures if ok then nextPart == old(nextPart) + 1 && flushErr == old(flushErr) else nextPart == old(nextPart) && flushErr
      ensures View() == old(View()).(nextPart := nextPart, flushErr := flushErr)
    {
      hide Inv;
      KeepsInv(s, Flushing(if ok then Advance else FlushFails), maxStaging);
      if !ok {
        flushErr := true;
        return;
      }
      nextPart := nextPart + 1;
    }

    /** The first lock section of a completion; refused after a flush error. */
    method BeginCompletion(parts: seq<int>, ghost c: nat, ghost s: State, ghost maxStaging: int) returns (ok: bool)
      requires View() == s.u && Inv(s) && Enabled(s, Closing(Begin(c, parts)), maxStaging)
      modifies this
      ensures var t := Apply(s, Closing(Begin(c, parts)), maxStaging);
        View() == t.u && Inv(t) && InPhase(t, c, if ok then Waiting else Refused)
      ensures ok <==> !old(flushErr)
      ensures View() == if ok then old(View()).(expected := parts, completed := true) else old(View())
    {
      hide Inv;
      KeepsInv(s, Closing(Begin(c, parts)), maxStaging);
      if flushErr {
        return false;
      }
      var list := [];
      for i := 0 to |parts|
        invariant list == parts[..i] && View() == old(View())
      {
        list := list + [parts[i]];
      }
      assert parts[..|parts|] == parts;
      expected := list;
      completed := true;
      ok := true;
    }
  }

  // ---------- the protocol ----------

  /** Where the flusher stands: between parts, copying a part of which `copied` bytes are out,
      done with the copy, done with its accounting, or gone. */
  datatype Flusher = Idle
    | Opening(part: int) | Copying(part: int, content: seq<byte>, copied: nat)
    | Counted(part: int, size: nat) | Broken | Gone

  /** A part upload: let in, or with its content in its staging file. */
  datatype Uploader = Admitted | Staged(content: seq<byte>)

  /** A completion: looked up; waiting for the flusher; past it; out of the table; with the write
      buffer flushed; answered with success or failure. */
  datatype Completer = Found | Waiting | Woken | Unlisted | Drained | Succeeded | Refused

  datatype State = State(
    u: Shared, listed: bool, temp: map<int, seq<byte>>, uploads: map<int, Uploader>,
    flusher: Flusher, completers: map<nat, Completer>,
    file: seq<byte>, buffer: seq<byte>, open: bool,
    // history: the content of every part that was ever received
    recorded: map<int, seq<byte>>)

  datatype UploadEvent = Admit(part: int) | Stage(part: int, content: seq<byte>) | GiveUp(part: int) | Recorded(part: int)

  datatype FlushEvent =
    | PickUp | Open | OpenFails | Copy(n: nat) | CopyFails(n: nat) | CountPart | Advance | FlushFails | Spill(n: nat)

  datatype CloseEvent =
    | LookUp(c: nat) | Begin(c: nat, parts: seq<int>) | Wake(c: nat) | Unlist(c: nat)
    | Drain(c: nat) | DrainFails(c: nat) | CloseFile(c: nat) | CloseFails(c: nat) | Abort

  datatype Event = Upload(up: UploadEvent) | Flushing(fl: FlushEvent) | Closing(cl: CloseEvent)

  function Init(): State {
    State(Shared({}, [], false, false, false, 1, 0, 0, []), true, map[], map[], Idle, map[], [], [], true, map[])
  }

  predicate InPhase(s: State, c: nat, p: Completer) {
    c in s.completers && s.completers[c] == p
  }

  /** Part uploads. Each part number is in progress at most once and is not uploaded again after it
      was recorded. */
  predicate UploadEnabled(s: State, e: UploadEvent, maxStaging: int) {
    match e
    case Admit(p) => !Refuses(s.u) && !Full(s.u, maxStaging) && p !in s.uploads && p !in s.recorded
    case Stage(p, _) => p in s.uploads && s.uploads[p] == Admitted
    case GiveUp(p) => p in s.uploads && s.uploads[p] == Admitted
    case Recorded(p) => p in s.uploads && s.uploads[p].Staged?
  }

  function UploadStep(s: State, e: UploadEvent, maxStaging: int): State
    requires UploadEnabled(s, e, maxStaging)
  {
    match e
    case Admit(p) => s.(uploads := s.uploads[p := Admitted])
    case Stage(p, b) => s.(uploads := s.uploads[p := Staged(b)], temp := s.temp[p := b])
    case GiveUp(p) => s.(uploads := s.uploads - {p}, temp := s.temp - {p})
    case Recorded(p) =>
      s.(u := WithPart(s.u, p, |s.uploads[p].content|), uploads := s.uploads - {p},
         recorded := s.recorded[p := s.uploads[p].content])
  }

  /** The flusher. Spill is the write buffer passing bytes on to the file. */
  predicate FlushEnabled(s: State, e: FlushEvent) {
    match e
    case PickUp => s.flusher == Idle && PickNext(s.u) != Wait
    case Open => s.flusher.Opening? && s.flusher.part in s.temp
    case OpenFails => s.flusher.Opening?
    case Copy(n) => s.flusher.Copying? && s.flusher.copied + n <= |s.flusher.content|
    case CopyFails(n) => s.flusher.Copying? && s.flusher.copied + n <= |s.flusher.content|
    case CountPart => s.flusher.Copying? && s.flusher.copied == |s.flusher.content|
    case Advance => s.flusher.Counted?
    case FlushFails => s.flusher == Broken
    case Spill(n) => s.open && n <= |s.buffer|
  }

  function FlushStep(s: State, e: FlushEvent): State
    requires FlushEnabled(s, e)
  {
    match e
    case PickUp => s.(flusher := match PickNext(s.u) case Flush(p) => Opening(p) case _ => Gone)
    case Open => s.(flusher := Copying(s.flusher.part, s.temp[s.flusher.part], 0))
    case OpenFails => s.(flusher := Broken)
    case Copy(n) =>
      var f := s.flusher;
      s.(buffer := s.buffer + f.content[f.copied..f.copied + n], flusher := f.(copied := f.copied + n))
    case CopyFails(n) =>
      var f := s.flusher;
      s.(buffer := s.buffer + f.content[f.copied..f.copied + n], flusher := Broken)
    case CountPart =>
      var f := s.flusher;
      s.(u := Account(s.u, f.part, |f.content|), temp := s.temp - {f.part}, flusher := Counted(f.part, |f.content|))
    case Advance => s.(u := Finished(s.u, true), flusher := Idle)
    case FlushFails => s.(u := Finished(s.u, false), flusher := Gone)
    case Spill(n) => s.(file := s.file + s.buffer[..n], buffer := s.buffer[n..])
  }

  /** Completions and the abort. */
  predicate CloseEnabled(s: State, e: CloseEvent) {
    match e
    case LookUp(c) => s.listed && c !in s.completers
    case Begin(c, _) => InPhase(s, c, Found)
    case Wake(c) => InPhase(s, c, Waiting) && s.flusher == Gone
    case Unlist(c) => InPhase(s, c, Woken)
    case Drain(c) => InPhase(s, c, Unlisted) && (s.open || s.buffer == [])
    case DrainFails(c) => InPhase(s, c, Unlisted)
    case CloseFile(c) => InPhase(s, c, Drained) && s.open
    case CloseFails(c) => InPhase(s, c, Drained)
    case Abort => s.listed
  }

  function Move(s: State, c: nat, p: Completer): State {
    s.(completers := s.completers[c := p])
  }

  function CloseStep(s: State, e: CloseEvent): State
    requires CloseEnabled(s, e)
  {
    match e
    case LookUp(c) => Move(s, c, Found)
    case Begin(c, parts) =>
      Move(s, c, if s.u.flushErr then Refused else Waiting).(u := Completing(s.u, parts))
    case Wake(c) => Move(s, c, if s.u.flushErr then Refused else Woken)
    case Unlist(c) => Move(s, c, Unlisted).(listed := false)
    case Drain(c) => Move(s, c, Drained).(file := s.file + s.buffer, buffer := [])
    case DrainFails(c) => Move(s, c, Refused)
    case CloseFile(c) => Move(s, c, Succeeded).(open := false, temp := map[])
    case CloseFails(c) => Move(s, c, Refused).(open := false)
    case Abort => s.(listed := false, u := s.u.(aborted := true), open := false, temp := map[])
  }

  /** Whether an event can happen. */
  predicate Enabled(s: State, e: Event, maxStaging: int) {
    match e
    case Upload(x) => UploadEnabled(s, x, maxStaging)
    case Flushing(x) => FlushEnabled(s, x)
    case Closing(x) => CloseEnabled(s, x)
  }

  function Apply(s: State, e: Event, maxStaging: int): State
    requires Enabled(s, e, maxStaging)
  {
    match e
    case Upload(x) => UploadStep(s, x, maxStaging)
    case Flushing(x) => FlushStep(s, x)
    case Closing(x) => CloseStep(s, x)
  }

  /** A run: every event is possible when it happens. */
  ghost predicate Run(es: seq<Event>, maxStaging: int)
    decreases |es|, 0
  {
    es == [] || (Run(es[..|es| - 1], maxStaging) && Enabled(After(es[..|es| - 1], maxStaging), es[|es| - 1], maxStaging))
  }

  ghost function After(es: seq<Event>, maxStaging: int): State
    requires Run(es, maxStaging)
    decreases |es|, 1
  {
    if es == [] then Init() else Apply(After(es[..|es| - 1], maxStaging), es[|es| - 1], maxStaging)
  }

  // ---------- the order of the bytes ----------

  /** Parts 1, ..., n joined. */
  function Joined(parts: map<int, seq<byte>>, n: int): seq<byte>
    decreases n
  {
    if n <= 0 then [] else Joined(parts, n - 1) + if n in parts then parts[n] else []
  }

  lemma {:induction false} JoinedExtends(parts: map<int, seq<byte>>, p: int, b: seq<byte>, n: int)
    requires p > n || p < 1
    ensures Joined(parts[p := b], n) == Joined(parts, n)
    decreases n
  {
    if n > 0 {
      JoinedExtends(parts, p, b, n - 1);
    }
  }

  /** What went to the file, through its buffer, as far as no write failed. */
  ghost predicate Written(s: State) {
    var n := s.u.nextPart;
    match s.flusher
    case Idle => s.file + s.buffer == Joined(s.recorded, n - 1)
    case Opening(p) => p == n && p in s.recorded && s.file + s.buffer == Joined(s.recorded, n - 1)
    case Copying(p, content, k) =>
      p == n && p in s.recorded && content == s.recorded[p] && k <= |content|
      && s.file + s.buffer == Joined(s.recorded, n - 1) + content[..k]
    case Counted(p, size) =>
      p == n && p in s.recorded && size == |s.recorded[p]| && s.file + s.buffer == Joined(s.recorded, n)
    case Broken => true
    case Gone => s.u.flushErr || s.file + s.buffer == Joined(s.recorded, n - 1)
  }

  ghost predicate InvParts(s: State) {
    && s.u.nextPart >= 1
    && s.u.received == s.recorded.Keys
    && forall p :: 1 <= p < s.u.nextPart ==> p in s.recorded
  }

  /** A staging file holds the content of its part, recorded or about to be. */
  ghost predicate InvStaging(s: State) {
    && (forall p :: p in s.uploads ==> p !in s.recorded)
    && (forall p :: p in s.temp ==>
          if p in s.recorded then s.temp[p] == s.recorded[p]
          else p in s.uploads && s.uploads[p] == Staged(s.temp[p]))
  }

  /** Only a flush error stops the flusher before everything expected is out, or an abort, after
      which the file is closed. */
  ghost predicate InvEnd(s: State) {
    && (s.u.aborted ==> !s.open && !s.listed)
    && (s.u.flushErr ==> s.flusher == Gone)
    && (s.flusher == Gone ==> s.u.aborted || s.u.flushErr || s.u.completed)
  }

  ghost predicate InvProgress(s: State) {
    forall c :: c in s.completers ==> Justified(s, Progress(s.completers[c]))
  }

  /** How far a completion got on its way to success. */
  function Progress(p: Completer): nat {
    match p
    case Woken => 1
    case Unlisted => 2
    case Drained => 3
    case Succeeded => 4
    case _ => 0
  }

  /** What must hold once a completion got that far. */
  predicate Justified(s: State, k: nat) {
    && (k >= 1 ==> s.flusher == Gone && !s.u.flushErr)
    && (k >= 2 ==> !s.listed)
    && (k >= 3 ==> s.buffer == [])
    && (k >= 4 ==> !s.open && !s.u.aborted)
  }

  ghost predicate Inv(s: State) {
    InvParts(s) && InvStaging(s) && Written(s) && InvEnd(s) && InvProgress(s)
  }

  // ---------- what every step keeps ----------

  lemma UploadFrame(s: State, x: UploadEvent, maxStaging: int)
    requires UploadEnabled(s, x, maxStaging)
    ensures var t := UploadStep(s, x, maxStaging);
      && t.flusher == s.flusher && t.completers == s.completers && t.file == s.file && t.buffer == s.buffer
      && t.open == s.open && t.listed == s.listed
      && t.u == s.u.(received := t.u.received, totalBytes := t.u.totalBytes)
  {
  }

  lemma FlushFrame(s: State, x: FlushEvent)
    requires FlushEnabled(s, x)
    ensures var t := FlushStep(s, x);
      && t.uploads == s.uploads && t.recorded == s.recorded && t.completers == s.completers
      && t.open == s.open && t.listed == s.listed
      && t.u == s.u.(nextPart := t.u.nextPart, flushErr := t.u.flushErr,
                     totalFlushed := t.u.totalFlushed, metadata := t.u.metadata)
      && t.u.totalFlushed >= s.u.totalFlushed
  {
  }

  lemma CloseFrame(s: State, x: CloseEvent)
    requires CloseEnabled(s, x)
    ensures var t := CloseStep(s, x);
      && t.uploads == s.uploads && t.recorded == s.recorded && t.flusher == s.flusher
      && t.file + t.buffer == s.file + s.buffer
      && t.u == s.u.(expected := t.u.expected, completed := t.u.completed, aborted := t.u.aborted)
  {
    assert s.file + s.buffer + [] == s.file + s.buffer;
  }

  lemma UploadKeepsParts(s: State, x: UploadEvent, maxStaging: int)
    requires InvParts(s) && UploadEnabled(s, x, maxStaging)
    ensures InvParts(UploadStep(s, x, maxStaging))
  {
  }

  lemma FlushKeepsParts(s: State, x: FlushEvent)
    requires InvParts(s) && Written(s) && FlushEnabled(s, x)
    ensures InvParts(FlushStep(s, x))
  {
    hide Joined;
    FlushFrame(s, x);
  }

  lemma KeepsParts(s: State, e: Event, maxStaging: int)
    requires InvParts(s) && Written(s) && Enabled(s, e, maxStaging)
    ensures InvParts(Apply(s, e, maxStaging))
  {
    hide UploadStep, FlushStep, CloseStep, Written;
    match e
    case Upload(x) => UploadKeepsParts(s, x, maxStaging);
    case Flushing(x) => FlushKeepsParts(s, x);
    case Closing(x) => CloseFrame(s, x);
  }

  lemma UploadKeepsStaging(s: State, x: UploadEvent, maxStaging: int)
    requires InvStaging(s) && UploadEnabled(s, x, maxStaging)
    ensures InvStaging(UploadStep(s, x, maxStaging))
  {
  }

  lemma FlushKeepsStaging(s: State, x: FlushEvent)
    requires InvStaging(s) && FlushEnabled(s, x)
    ensures InvStaging(FlushStep(s, x))
  {
    FlushFrame(s, x);
  }

  lemma CloseKeepsStaging(s: State, x: CloseEvent)
    requires InvStaging(s) && CloseEnabled(s, x)
    ensures InvStaging(CloseStep(s, x))
  {
    CloseFrame(s, x);
  }

  lemma KeepsStaging(s: State, e: Event, maxStaging: int)
    requires InvStaging(s) && Enabled(s, e, maxStaging)
    ensures InvStaging(Apply(s, e, maxStaging))
  {
    hide UploadStep, FlushStep, CloseStep, InvStaging;
    match e
    case Upload(x) => UploadKeepsStaging(s, x, maxStaging);
    case Flushing(x) => FlushKeepsStaging(s, x);
    case Closing(x) => CloseKeepsStaging(s, x);
  }

  lemma FlushKeepsEnd(s: State, x: FlushEvent)
    requires InvEnd(s) && FlushEnabled(s, x)
    ensures InvEnd(FlushStep(s, x))
  {
  }

  lemma CloseKeepsEnd(s: State, x: CloseEvent)
    requires InvEnd(s) && CloseEnabled(s, x)
    ensures InvEnd(CloseStep(s, x))
  {
  }

  lemma KeepsEnd(s: State, e: Event, maxStaging: int)
    requires InvEnd(s) && Enabled(s, e, maxStaging)
    ensures InvEnd(Apply(s, e, maxStaging))
  {
    hide UploadStep, FlushStep, CloseStep;
    match e
    case Upload(x) => UploadFrame(s, x, maxStaging);
    case Flushing(x) => FlushKeepsEnd(s, x);
    case Closing(x) => CloseKeepsEnd(s, x);
  }

  lemma FlushKeepsProgress(s: State, x: FlushEvent)
    requires InvEnd(s) && InvProgress(s) && FlushEnabled(s, x)
    ensures InvProgress(FlushStep(s, x))
  {
    FlushFrame(s, x);
  }

  lemma CloseKeepsProgress(s: State, x: CloseEvent)
    requires InvEnd(s) && InvProgress(s) && CloseEnabled(s, x)
    ensures InvProgress(CloseStep(s, x))
  {
  }

  lemma KeepsProgress(s: State, e: Event, maxStaging: int)
    requires InvEnd(s) && InvProgress(s) && Enabled(s, e, maxStaging)
    ensures InvProgress(Apply(s, e, maxStaging))
  {
    hide UploadStep, FlushStep, CloseStep;
    match e
    case Upload(x) => UploadFrame(s, x, maxStaging);
    case Flushing(x) => FlushKeepsProgress(s, x);
    case Closing(x) => CloseKeepsProgress(s, x);
  }

  lemma UploadKeepsWritten(s: State, x: UploadEvent, maxStaging: int)
    requires InvParts(s) && InvStaging(s) && Written(s) && UploadEnabled(s, x, maxStaging)
    ensures Written(UploadStep(s, x, maxStaging))
  {
    hide Joined;
    UploadFrame(s, x, maxStaging);
    if x.Recorded? {
      JoinedExtendsBy(s, x.part);
    }
  }

  lemma OpenKeepsWritten(s: State)
    requires InvParts(s) && InvStaging(s) && Written(s) && FlushEnabled(s, Open)
    ensures Written(FlushStep(s, Open))
  {
    hide Joined;
    assert s.temp[s.flusher.part][..0] == [];
    assert s.file + s.buffer + [] == s.file + s.buffer;
  }

  lemma SpillKeepsWritten(s: State, k: nat)
    requires Written(s) && FlushEnabled(s, Spill(k))
    ensures Written(FlushStep(s, Spill(k)))
  {
    hide Joined;
    assert s.file + s.buffer[..k] + s.buffer[k..] == s.file + s.buffer;
  }

  lemma FlushKeepsWritten(s: State, x: FlushEvent)
    requires InvParts(s) && InvStaging(s) && Written(s) && FlushEnabled(s, x)
    ensures Written(FlushStep(s, x))
  {
    hide Joined, InvStaging;
    match x
    case Open =>
      OpenKeepsWritten(s);
    case Copy(k) =>
      CopyExtends(s, k);
    case CountPart =>
      CopiedAll(s);
    case Spill(k) =>
      SpillKeepsWritten(s, k);
    case _ =>
  }

  lemma KeepsWritten(s: State, e: Event, maxStaging: int)
    requires InvParts(s) && InvStaging(s) && Written(s) && Enabled(s, e, maxStaging)
    ensures Written(Apply(s, e, maxStaging))
  {
    hide UploadStep, FlushStep, CloseStep, Joined;
    match e
    case Upload(x) => UploadKeepsWritten(s, x, maxStaging);
    case Flushing(x) => FlushKeepsWritten(s, x);
    case Closing(x) => CloseFrame(s, x);
  }

  lemma CopiedAll(s: State)
    requires InvParts(s) && Written(s) && s.flusher.Copying? && s.flusher.copied == |s.flusher.content|
    ensures s.file + s.buffer == Joined(s.recorded, s.u.nextPart)
  {
    assert s.flusher.content[..|s.flusher.content|] == s.flusher.content;
  }

  lemma JoinedExtendsBy(s: State, p: int)
    requires InvParts(s) && InvStaging(s) && p in s.uploads && s.uploads[p].Staged?
    ensures var more := s.recorded[p := s.uploads[p].content];
      && Joined(more, s.u.nextPart - 1) == Joined(s.recorded, s.u.nextPart - 1)
      && (s.u.nextPart in s.recorded ==> Joined(more, s.u.nextPart) == Joined(s.recorded, s.u.nextPart))
  {
    assert p !in s.recorded;
    JoinedExtends(s.recorded, p, s.uploads[p].content, s.u.nextPart - 1);
    if s.u.nextPart in s.recorded {
      JoinedExtends(s.recorded, p, s.uploads[p].content, s.u.nextPart);
    }
  }

  lemma CopyExtends(s: State, k: nat)
    requires Written(s) && s.flusher.Copying? && s.flusher.copied + k <= |s.flusher.content|
    ensures var f := s.flusher;
      s.file + (s.buffer + f.content[f.copied..f.copied + k])
        == Joined(s.recorded, s.u.nextPart - 1) + f.content[..f.copied + k]
  {
    var f := s.flusher;
    var x, front := f.content[f.copied..f.copied + k], Joined(s.recorded, s.u.nextPart - 1);
    assert f.content[..f.copied + k] == f.content[..f.copied] + x;
    assert s.file + (s.buffer + x) == (s.file + s.buffer) + x;
    assert front + (f.content[..f.copied] + x) == (front + f.content[..f.copied]) + x;
  }

  lemma KeepsInv(s: State, e: Event, maxStaging: int)
    requires Inv(s) && Enabled(s, e, maxStaging)
    ensures Inv(Apply(s, e, maxStaging))
  {
    hide Apply, Enabled, InvParts, InvStaging, Written, InvEnd, InvProgress;
    KeepsParts(s, e, maxStaging);
    KeepsStaging(s, e, maxStaging);
    KeepsEnd(s, e, maxStaging);
    KeepsProgress(s, e, maxStaging);
    KeepsWritten(s, e, maxStaging);
  }

  lemma {:induction false} AlwaysInv(es: seq<Event>, maxStaging: int)
    requires Run(es, maxStaging)
    ensures Inv(After(es, maxStaging))
  {
    hide Apply, Enabled;
    if es != [] {
      var before, e := es[..|es| - 1], es[|es| - 1];
      AlwaysInv(before, maxStaging);
      KeepsInv(After(before, maxStaging), e, maxStaging);
    }
  }

  // ---------- the object after completion ----------

  predicate ListsUpTo(parts: seq<int>, n: nat) {
    (forall p <- parts :: 1 <= p <= n) && (forall p :: 1 <= p <= n ==> p in parts)
  }

  /** Every completion of the run lists exactly the parts 1, ..., n. */
  ghost predicate Completes(es: seq<Event>, n: nat) {
    forall e <- es :: e.Closing? && e.cl.Begin? ==> ListsUpTo(e.cl.parts, n)
  }

  ghost predicate InvListed(s: State, n: nat) {
    && (s.u.completed ==> ListsUpTo(s.u.expected, n))
    && (s.flusher == Gone && !s.u.aborted && !s.u.flushErr ==> s.u.nextPart > n)
  }

  lemma FlushKeepsListed(s: State, x: FlushEvent, n: nat)
    requires s.u.nextPart >= 1 && InvEnd(s) && InvListed(s, n) && FlushEnabled(s, x)
    ensures InvListed(FlushStep(s, x), n)
  {
    if x.PickUp? && PickNext(s.u) == Leave && !s.u.aborted && !s.u.flushErr {
      assert AllFlushed(s.u);
      if n >= 1 {
        assert n in s.u.expected;
      }
    }
  }

  lemma CloseKeepsListed(s: State, x: CloseEvent, n: nat)
    requires InvListed(s, n) && CloseEnabled(s, x) && (x.Begin? ==> ListsUpTo(x.parts, n))
    ensures InvListed(CloseStep(s, x), n)
  {
    hide ListsUpTo;
  }

  lemma KeepsListed(s: State, e: Event, n: nat, maxStaging: int)
    requires InvParts(s) && InvEnd(s) && InvListed(s, n) && Enabled(s, e, maxStaging)
    requires e.Closing? && e.cl.Begin? ==> ListsUpTo(e.cl.parts, n)
    ensures InvListed(Apply(s, e, maxStaging), n)
  {
    hide UploadStep, FlushStep, CloseStep, InvListed;
    match e
    case Upload(x) => UploadKeepsListed(s, x, n, maxStaging);
    case Flushing(x) => FlushKeepsListed(s, x, n);
    case Closing(x) => CloseKeepsListed(s, x, n);
  }

  lemma UploadKeepsListed(s: State, x: UploadEvent, n: nat, maxStaging: int)
    requires InvListed(s, n) && UploadEnabled(s, x, maxStaging)
    ensures InvListed(UploadStep(s, x, maxStaging), n)
  {
    UploadFrame(s, x, maxStaging);
  }

  lemma {:induction false} AlwaysListed(es: seq<Event>, n: nat, maxStaging: int)
    requires Run(es, maxStaging) && Completes(es, n)
    ensures InvListed(After(es, maxStaging), n)
  {
    if es != [] {
      var before, e := es[..|es| - 1], es[|es| - 1];
      assert forall x <- before :: x in es;
      AlwaysListed(before, n, maxStaging);
      AlwaysInv(before, maxStaging);
      KeepsListed(After(before, maxStaging), e, n, maxStaging);
    }
  }

  lemma {:induction false} JoinedGrows(parts: map<int, seq<byte>>, n: int, m: int)
    requires 0 <= n <= m
    ensures Joined(parts, n) <= Joined(parts, m)
    ensures Joined(parts, n) == Joined(parts, m) <==> forall p :: n < p <= m && p in parts ==> parts[p] == []
    decreases m
  {
    if n < m {
      JoinedGrows(parts, n, m - 1);
    }
  }

  lemma ClosedState(s: State, n: nat, c: nat)
    requires Inv(s) && InvListed(s, n) && InPhase(s, c, Succeeded)
    ensures s.u.nextPart > n && s.buffer == [] && s.file == Joined(s.recorded, s.u.nextPart - 1)
  {
    hide Joined;
    assert Justified(s, 4);
    assert s.file + [] == s.file;
  }

  /** After a successful completion of parts 1, ..., n, in whatever order they arrived, the file is
      their concatenation followed by the parts above n that the flusher had taken before the list
      came. It is exactly the concatenation if and only if those are empty. */
  lemma ObjectOfCompletion(es: seq<Event>, n: nat, c: nat, maxStaging: int)
    requires Run(es, maxStaging) && Completes(es, n)
    requires InPhase(After(es, maxStaging), c, Succeeded)
    ensures var s := After(es, maxStaging);
      && s.u.nextPart > n && s.buffer == []
      && (forall p :: 1 <= p < s.u.nextPart ==> p in s.recorded)
      && s.file == Joined(s.recorded, s.u.nextPart - 1)
      && Joined(s.recorded, n) <= s.file
      && (s.file == Joined(s.recorded, n) <==>
          forall p :: n < p < s.u.nextPart && p in s.recorded ==> s.recorded[p] == [])
  {
    hide Apply, Enabled, Run, After;
    AlwaysInv(es, maxStaging);
    AlwaysListed(es, n, maxStaging);
    var s := After(es, maxStaging);
    ClosedState(s, n, c);
    JoinedGrows(s.recorded, n, s.u.nextPart - 1);
  }

  predicate FromContent(x: UploadEvent, n: nat, content: int -> seq<byte>) {
    (x.Admit? ==> x.part <= n) && (x.Stage? ==> x.content == content(x.part))
  }

  /** No part above n is uploaded, and what is staged for part p is content(p). */
  ghost predicate Uploads(es: seq<Event>, n: nat, content: int -> seq<byte>) {
    forall e <- es :: e.Upload? ==> FromContent(e.up, n, content)
  }

  ghost predicate InvUploads(s: State, n: nat, content: int -> seq<byte>) {
    && (forall p :: p in s.recorded || p in s.uploads ==> p <= n)
    && (forall p :: p in s.recorded ==> s.recorded[p] == content(p))
    && (forall p :: p in s.uploads && s.uploads[p].Staged? ==> s.uploads[p].content == content(p))
  }

  lemma UploadKeepsUploads(s: State, x: UploadEvent, n: nat, content: int -> seq<byte>, maxStaging: int)
    requires InvUploads(s, n, content) && UploadEnabled(s, x, maxStaging) && FromContent(x, n, content)
    ensures InvUploads(UploadStep(s, x, maxStaging), n, content)
  {
  }

  lemma KeepsUploads(s: State, e: Event, n: nat, content: int -> seq<byte>, maxStaging: int)
    requires InvUploads(s, n, content) && Enabled(s, e, maxStaging) && (e.Upload? ==> FromContent(e.up, n, content))
    ensures InvUploads(Apply(s, e, maxStaging), n, content)
  {
    hide UploadStep, FlushStep, CloseStep;
    match e
    case Upload(x) => UploadKeepsUploads(s, x, n, content, maxStaging);
    case Flushing(x) => FlushFrame(s, x);
    case Closing(x) => CloseFrame(s, x);
  }

  lemma {:induction false} AlwaysUploads(es: seq<Event>, n: nat, content: int -> seq<byte>, maxStaging: int)
    requires Run(es, maxStaging) && Uploads(es, n, content)
    ensures InvUploads(After(es, maxStaging), n, content)
  {
    if es != [] {
      var before, e := es[..|es| - 1], es[|es| - 1];
      assert forall x <- before :: x in es;
      AlwaysUploads(before, n, content, maxStaging);
      KeepsUploads(After(before, maxStaging), e, n, content, maxStaging);
    }
  }

  function JoinedContent(content: int -> seq<byte>, n: nat): seq<byte> {
    if n == 0 then [] else JoinedContent(content, n - 1) + content(n)
  }

  lemma {:induction false} JoinedIsContent(parts: map<int, seq<byte>>, content: int -> seq<byte>, n: nat)
    requires forall p :: 1 <= p <= n ==> p in parts && parts[p] == content(p)
    ensures Joined(parts, n) == JoinedContent(content, n)
  {
    if n > 0 {
      JoinedIsContent(parts, content, n - 1);
    }
  }

  /** The object stored by a successful completion is part 1 ++ ... ++ part n, whatever the order
      in which the parts arrived, were staged, or were flushed. */
  lemma CompletedObject(es: seq<Event>, n: nat, content: int -> seq<byte>, c: nat, maxStaging: int)
    requires Run(es, maxStaging) && Completes(es, n) && Uploads(es, n, content)
    requires InPhase(After(es, maxStaging), c, Succeeded)
    ensures After(es, maxStaging).file == JoinedContent(content, n)
  {
    ObjectOfCompletion(es, n, c, maxStaging);
    AlwaysUploads(es, n, content, maxStaging);
    var s := After(es, maxStaging);
    assert s.u.nextPart == 1 || s.u.nextPart - 1 in s.recorded;
    JoinedIsContent(s.recorded, content, n);
  }

  /** Whenever the flusher is between two parts, file and write buffer hold exactly the parts
      flushed so far, in order. */
  lemma FlushBoundary(es: seq<Event>, maxStaging: int)
    requires Run(es, maxStaging) && After(es, maxStaging).flusher == Idle
    ensures var s := After(es, maxStaging);
      s.file + s.buffer == Joined(s.recorded, s.u.nextPart - 1)
      && forall p :: 1 <= p < s.u.nextPart ==> p in s.recorded
  {
    hide Apply, Enabled, Run, After, Joined;
    AlwaysInv(es, maxStaging);
  }

  // ---------- a longer object ----------

  lemma Next(es: seq<Event>, e: Event, maxStaging: int)
    requires Run(es, maxStaging) && Enabled(After(es, maxStaging), e, maxStaging)
    ensures Run(es + [e], maxStaging) && After(es + [e], maxStaging) == Apply(After(es, maxStaging), e, maxStaging)
  {
    assert (es + [e])[..|es|] == es;
  }

  /** A part arrives: it is let in, staged and recorded. */
  lemma PartArrives(es: seq<Event>, p: int, b: seq<byte>, maxStaging: int) returns (more: seq<Event>)
    requires Run(es, maxStaging)
    requires var s := After(es, maxStaging);
      && p !in s.uploads && p !in s.recorded && !Refuses(s.u) && !Full(s.u, maxStaging)
    ensures Run(more, maxStaging) && forall n :: Completes(es, n) ==> Completes(more, n)
    ensures var s := After(es, maxStaging);
      After(more, maxStaging) == s.(u := WithPart(s.u, p, |b|), temp := s.temp[p := b], recorded := s.recorded[p := b])
  {
    hide Run, After, FlushStep, CloseStep;
    var s := After(es, maxStaging);
    Next(es, Upload(Admit(p)), maxStaging);
    var es1 := es + [Upload(Admit(p))];
    Next(es1, Upload(Stage(p, b)), maxStaging);
    var es2 := es1 + [Upload(Stage(p, b))];
    Next(es2, Upload(Recorded(p)), maxStaging);
    more := es2 + [Upload(Recorded(p))];
    assert s.uploads[p := Admitted][p := Staged(b)] - {p} == s.uploads;
  }

  /** The flusher puts the next part into the write buffer. */
  lemma PartIsFlushed(es: seq<Event>, b: seq<byte>, maxStaging: int) returns (more: seq<Event>)
    requires Run(es, maxStaging)
    requires var s := After(es, maxStaging);
      && s.flusher == Idle && PickNext(s.u) == Flush(s.u.nextPart)
      && s.u.nextPart in s.temp && s.temp[s.u.nextPart] == b
    ensures Run(more, maxStaging) && forall n :: Completes(es, n) ==> Completes(more, n)
    ensures var s := After(es, maxStaging);
      var p := s.u.nextPart;
      After(more, maxStaging)
        == s.(u := Finished(Account(s.u, p, |b|), true), temp := s.temp - {p}, buffer := s.buffer + b)
  {
    hide Run, After, UploadStep, CloseStep, PickNext;
    Next(es, Flushing(PickUp), maxStaging);
    var es1 := es + [Flushing(PickUp)];
    Next(es1, Flushing(Open), maxStaging);
    var es2 := es1 + [Flushing(Open)];
    Next(es2, Flushing(Copy(|b|)), maxStaging);
    assert b[0..0 + |b|] == b;
    var es3 := es2 + [Flushing(Copy(|b|))];
    Next(es3, Flushing(CountPart), maxStaging);
    var es4 := es3 + [Flushing(CountPart)];
    Next(es4, Flushing(Advance), maxStaging);
    more := es4 + [Flushing(Advance)];
  }

  /** A completion of parts that are all flushed lets the flusher go. */
  lemma FlusherLeaves(es: seq<Event>, parts: seq<int>, maxStaging: int) returns (more: seq<Event>)
    requires Run(es, maxStaging)
    requires var s := After(es, maxStaging);
      && s.flusher == Idle && s.completers == map[] && s.listed && !Refuses(s.u)
      && forall p <- parts :: p < s.u.nextPart
    ensures Run(more, maxStaging) && forall n :: Completes(es, n) && ListsUpTo(parts, n) ==> Completes(more, n)
    ensures var s := After(es, maxStaging);
      After(more, maxStaging) == s.(u := Completing(s.u, parts), completers := map[0 := Waiting], flusher := Gone)
  {
    hide Run, After, UploadStep, ListsUpTo;
    var s := After(es, maxStaging);
    Next(es, Closing(LookUp(0)), maxStaging);
    var es1 := es + [Closing(LookUp(0))];
    Next(es1, Closing(Begin(0, parts)), maxStaging);
    var es2 := es1 + [Closing(Begin(0, parts))];
    assert AllFlushed(After(es2, maxStaging).u);
    Next(es2, Flushing(PickUp), maxStaging);
    more := es2 + [Flushing(PickUp)];
    assert map[0 := Found][0 := Waiting] == map[0 := Waiting];
  }

  /** The completion drains the write buffer and closes the file. */
  lemma FileIsClosed(es: seq<Event>, maxStaging: int) returns (more: seq<Event>)
    requires Run(es, maxStaging)
    requires var s := After(es, maxStaging);
      s.flusher == Gone && s.completers == map[0 := Waiting] && s.open && !s.u.flushErr
    ensures Run(more, maxStaging) && forall n :: Completes(es, n) ==> Completes(more, n)
    ensures var s, t := After(es, maxStaging), After(more, maxStaging);
      InPhase(t, 0, Succeeded) && t.file == s.file + s.buffer && t.recorded == s.recorded
  {
    hide Run, After, UploadStep, FlushStep, ListsUpTo;
    more := LeavesWait(es, maxStaging);
    Next(more, Closing(Drain(0)), maxStaging);
    more := more + [Closing(Drain(0))];
    Next(more, Closing(CloseFile(0)), maxStaging);
    more := more + [Closing(CloseFile(0))];
  }

  /** The completion stops waiting for the flusher and takes the upload off the list. */
  lemma LeavesWait(es: seq<Event>, maxStaging: int) returns (more: seq<Event>)
    requires Run(es, maxStaging)
    requires var s := After(es, maxStaging); s.flusher == Gone && s.completers == map[0 := Waiting] && !s.u.flushErr
    ensures Run(more, maxStaging) && forall n :: Completes(es, n) ==> Completes(more, n)
    ensures After(more, maxStaging) == After(es, maxStaging).(listed := false, completers := map[0 := Unlisted])
  {
    hide Run, After, UploadStep, FlushStep, ListsUpTo;
    Next(es, Closing(Wake(0)), maxStaging);
    more := es + [Closing(Wake(0))];
    Next(more, Closing(Unlist(0)), maxStaging);
    more := more + [Closing(Unlist(0))];
    assert map[0 := Waiting][0 := Woken][0 := Unlisted] == map[0 := Unlisted];
  }

  /** Parts 1 and 2 are uploaded and flushed, and the completion lists part 1 alone: the object is
      still part 1 ++ part 2, whatever the parts are. */
  lemma UnlistedPartStays(b1: seq<byte>, b2: seq<byte>, maxStaging: nat) returns (es: seq<Event>)
    ensures Run(es, maxStaging) && Completes(es, 1)
    ensures var s := After(es, maxStaging);
      InPhase(s, 0, Succeeded) && s.recorded == map[1 := b1, 2 := b2] && s.file == b1 + b2
  {
    hide Run, After, Completes, ListsUpTo;
    NothingYet(maxStaging);
    es := PartArrives([], 1, b1, maxStaging);
    es := PartIsFlushed(es, b1, maxStaging);
    es := PartArrives(es, 2, b2, maxStaging);
    es := PartIsFlushed(es, b2, maxStaging);
    JustOne();
    es := FlusherLeaves(es, [1], maxStaging);
    es := FileIsClosed(es, maxStaging);
    assert [] + (([] + b1) + b2) == b1 + b2;
  }

  lemma JustOne()
    ensures ListsUpTo([1], 1) && Completes([], 1)
  {
  }

  lemma NothingYet(maxStaging: int)
    ensures Run([], maxStaging) && After([], maxStaging) == Init()
  {
  }

  // ---------- staged bytes ----------

  lemma Inhabited(ps: set<int>)
    requires ps != {}
    ensures exists p :: p in ps
  {
    assert (forall p :: p !in ps) ==> ps == {};
  }

  /** The sizes of the given parts added up. */
  ghost function Sizes(ps: set<int>, parts: map<int, seq<byte>>): nat
    requires ps <= parts.Keys
    decreases |ps|
  {
    if ps == {} then 0 else
    Inhabited(ps);
    var p :| p in ps;
    |parts[p]| + Sizes(ps - {p}, parts)
  }

  lemma {:induction false} SizesWithout(ps: set<int>, parts: map<int, seq<byte>>, p: int)
    requires ps <= parts.Keys && p in ps
    ensures Sizes(ps, parts) == |parts[p]| + Sizes(ps - {p}, parts)
    decreases |ps|
  {
    Inhabited(ps);
    var q :| q in ps && Sizes(ps, parts) == |parts[q]| + Sizes(ps - {q}, parts);
    if q != p {
      SizesWithout(ps - {q}, parts, p);
      assert ps - {q} - {p} == ps - {p} - {q};
      SizesWithout(ps - {p}, parts, q);
    }
  }

  lemma {:induction false} SizesAgree(ps: set<int>, parts: map<int, seq<byte>>, more: map<int, seq<byte>>)
    requires ps <= parts.Keys && ps <= more.Keys && forall p :: p in ps ==> parts[p] == more[p]
    ensures Sizes(ps, parts) == Sizes(ps, more)
    decreases |ps|
  {
    if ps != {} {
      Inhabited(ps);
      var p :| p in ps;
      SizesWithout(ps, parts, p);
      SizesWithout(ps, more, p);
      SizesAgree(ps - {p}, parts, more);
    }
  }

  /** Whether a recorded part's bytes have been counted as flushed. */
  predicate IsFlushed(s: State, p: int) {
    1 <= p < s.u.nextPart || (s.flusher.Counted? && p == s.u.nextPart)
  }

  /** The parts received and not yet flushed. */
  ghost function Pending(s: State): set<int> {
    set p | p in s.recorded && !IsFlushed(s, p)
  }

  ghost predicate InvBytes(s: State) {
    s.u.totalBytes - s.u.totalFlushed == Sizes(Pending(s), s.recorded)
  }

  lemma RecordedIsPending(s: State, p: int, maxStaging: int)
    requires InvParts(s) && InvStaging(s) && Written(s) && InvBytes(s) && UploadEnabled(s, Recorded(p), maxStaging)
    ensures InvBytes(UploadStep(s, Recorded(p), maxStaging))
  {
    hide Joined, Sizes;
    var t := UploadStep(s, Recorded(p), maxStaging);
    assert Pending(t) - {p} == Pending(s);
    SizesWithout(Pending(t), t.recorded, p);
    SizesAgree(Pending(s), s.recorded, t.recorded);
  }

  lemma FlushKeepsBytes(s: State, x: FlushEvent)
    requires InvParts(s) && Written(s) && InvBytes(s) && FlushEnabled(s, x)
    ensures InvBytes(FlushStep(s, x))
  {
    hide Joined, Sizes;
    var t := FlushStep(s, x);
    FlushFrame(s, x);
    if x.CountPart? {
      var p := s.flusher.part;
      assert Pending(t) == Pending(s) - {p};
      SizesWithout(Pending(s), s.recorded, p);
    } else {
      assert Pending(t) == Pending(s);
    }
  }

  lemma UploadKeepsBytes(s: State, x: UploadEvent, maxStaging: int)
    requires InvParts(s) && InvStaging(s) && Written(s) && InvBytes(s) && UploadEnabled(s, x, maxStaging)
    ensures InvBytes(UploadStep(s, x, maxStaging))
  {
    hide Joined, Sizes;
    if x.Recorded? {
      RecordedIsPending(s, x.part, maxStaging);
    } else {
      assert Pending(UploadStep(s, x, maxStaging)) == Pending(s);
    }
  }

  lemma CloseKeepsBytes(s: State, x: CloseEvent)
    requires InvBytes(s) && CloseEnabled(s, x)
    ensures InvBytes(CloseStep(s, x))
  {
    hide Sizes, CloseStep;
    CloseFrame(s, x);
    assert Pending(CloseStep(s, x)) == Pending(s);
  }

  lemma KeepsBytes(s: State, e: Event, maxStaging: int)
    requires Inv(s) && InvBytes(s) && Enabled(s, e, maxStaging)
    ensures InvBytes(Apply(s, e, maxStaging))
  {
    hide UploadStep, FlushStep, CloseStep, InvBytes;
    match e
    case Upload(x) => UploadKeepsBytes(s, x, maxStaging);
    case Flushing(x) => FlushKeepsBytes(s, x);
    case Closing(x) => CloseKeepsBytes(s, x);
  }

  /** totalBytes - totalFlushed is the size of the parts received and not yet flushed. */
  lemma {:induction false} StagedBytes(es: seq<Event>, maxStaging: int)
    requires Run(es, maxStaging)
    ensures InvBytes(After(es, maxStaging))
  {
    if es != [] {
      var before, e := es[..|es| - 1], es[|es| - 1];
      StagedBytes(before, maxStaging);
      AlwaysInv(before, maxStaging);
      KeepsBytes(After(before, maxStaging), e, maxStaging);
    } else {
      assert Pending(Init()) == {};
    }
  }

  /** At most `w` part uploads are in progress at a time, none of more than `size` bytes. */
  ghost predicate Bounded(es: seq<Event>, w: nat, size: nat, maxStaging: int)
    requires Run(es, maxStaging)
    decreases |es|
  {
    && |After(es, maxStaging).uploads| <= w
    && (es != [] ==>
          && (es[|es| - 1].Upload? && es[|es| - 1].up.Stage? ==> |es[|es| - 1].up.content| <= size)
          && Bounded(es[..|es| - 1], w, size, maxStaging))
  }

  function Reserved(k: nat, size: nat): nat {
    k * size
  }

  lemma ReservedGrows(k: nat, size: nat)
    ensures Reserved(k + 1, size) == Reserved(k, size) + size
  {
  }

  lemma ReservedOrder(k: nat, m: nat, size: nat)
    requires k <= m
    ensures Reserved(k, size) <= Reserved(m, size)
  {
  }

  ghost predicate SmallUploads(s: State, size: nat) {
    forall p :: p in s.uploads && s.uploads[p].Staged? ==> |s.uploads[p].content| <= size
  }

  /** Staged bytes, counting `size` for every upload still in progress. */
  function Load(s: State, size: nat): int {
    s.u.totalBytes - s.u.totalFlushed + Reserved(|s.uploads|, size)
  }

  lemma UploadKeepsSmall(s: State, x: UploadEvent, size: nat, maxStaging: nat)
    requires SmallUploads(s, size) && UploadEnabled(s, x, maxStaging) && (x.Stage? ==> |x.content| <= size)
    ensures SmallUploads(UploadStep(s, x, maxStaging), size)
  {
  }

  lemma KeepsSmall(s: State, e: Event, size: nat, maxStaging: nat)
    requires SmallUploads(s, size) && Enabled(s, e, maxStaging)
    requires e.Upload? && e.up.Stage? ==> |e.up.content| <= size
    ensures SmallUploads(Apply(s, e, maxStaging), size)
  {
    hide UploadStep, FlushStep, CloseStep;
    match e
    case Upload(x) => UploadKeepsSmall(s, x, size, maxStaging);
    case Flushing(x) => FlushFrame(s, x);
    case Closing(x) => CloseFrame(s, x);
  }

  lemma AdmitLoad(s: State, p: int, w: nat, size: nat, maxStaging: nat)
    requires UploadEnabled(s, Admit(p), maxStaging) && |UploadStep(s, Admit(p), maxStaging).uploads| <= w
    ensures Load(UploadStep(s, Admit(p), maxStaging), size) <= maxStaging + Reserved(w, size)
  {
    hide Reserved;
    ReservedOrder(|s.uploads[p := Admitted]|, w, size);
  }

  lemma StageLoad(s: State, p: int, b: seq<byte>, size: nat, maxStaging: nat)
    requires UploadEnabled(s, Stage(p, b), maxStaging)
    ensures Load(UploadStep(s, Stage(p, b), maxStaging), size) == Load(s, size)
  {
    hide Reserved;
    SameSize(s.uploads[p := Staged(b)], s.uploads);
  }

  lemma LeaveLoad(s: State, x: UploadEvent, size: nat, maxStaging: nat)
    requires SmallUploads(s, size) && UploadEnabled(s, x, maxStaging) && (x.GiveUp? || x.Recorded?)
    ensures Load(UploadStep(s, x, maxStaging), size) <= Load(s, size)
  {
    hide Reserved;
    FewerUploads(s, x.part);
    ReservedGrows(|s.uploads - {x.part}|, size);
  }

  lemma UploadLoad(s: State, x: UploadEvent, w: nat, size: nat, maxStaging: nat)
    requires SmallUploads(s, size) && Load(s, size) <= maxStaging + Reserved(w, size)
    requires UploadEnabled(s, x, maxStaging) && |UploadStep(s, x, maxStaging).uploads| <= w
    ensures Load(UploadStep(s, x, maxStaging), size) <= maxStaging + Reserved(w, size)
  {
    hide Reserved, Load, UploadStep, UploadEnabled, SmallUploads;
    match x
    case Admit(p) => AdmitLoad(s, p, w, size, maxStaging);
    case Stage(p, b) => StageLoad(s, p, b, size, maxStaging);
    case GiveUp(p) => LeaveLoad(s, x, size, maxStaging);
    case Recorded(p) => LeaveLoad(s, x, size, maxStaging);
  }

  lemma KeepsLoad(s: State, e: Event, w: nat, size: nat, maxStaging: nat)
    requires SmallUploads(s, size) && Load(s, size) <= maxStaging + Reserved(w, size)
    requires Enabled(s, e, maxStaging) && |Apply(s, e, maxStaging).uploads| <= w
    ensures Load(Apply(s, e, maxStaging), size) <= maxStaging + Reserved(w, size)
  {
    hide Reserved, SmallUploads, UploadStep, FlushStep, CloseStep;
    match e
    case Upload(x) => UploadLoad(s, x, w, size, maxStaging);
    case Flushing(x) => FlushFrame(s, x);
    case Closing(x) => CloseFrame(s, x);
  }

  /** The staged bytes exceed the limit by no more than the uploads in progress can bring. */
  lemma {:induction false} StagingBound(es: seq<Event>, w: nat, size: nat, maxStaging: nat)
    requires Run(es, maxStaging) && Bounded(es, w, size, maxStaging)
    ensures var s := After(es, maxStaging);
      && SmallUploads(s, size) && Load(s, size) <= maxStaging + w * size
      && s.u.totalBytes - s.u.totalFlushed <= maxStaging + w * size
  {
    hide Apply, Enabled;
    if es == [] {
      assert |Init().uploads| == 0;
      ReservedOrder(0, w, size);
    } else {
      var before, e := es[..|es| - 1], es[|es| - 1];
      StagingBound(before, w, size, maxStaging);
      KeepsSmall(After(before, maxStaging), e, size, maxStaging);
      KeepsLoad(After(before, maxStaging), e, w, size, maxStaging);
    }
  }

  lemma FewerUploads(s: State, p: int)
    requires p in s.uploads
    ensures |s.uploads - {p}| == |s.uploads| - 1
  {
    assert (s.uploads - {p}).Keys == s.uploads.Keys - {p};
    assert |s.uploads.Keys - {p}| == |s.uploads.Keys| - 1;
  }
}
