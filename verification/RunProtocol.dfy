/** The run manager under concurrency. Every lock section of Acquire, Release and the reaper is one
    step, in any interleaving; launching FFmpeg succeeds or fails between them. A client is one
    reference: a session that seeks is two clients while it holds one run and acquires another. */
module RunProtocol {
  import opened Options
  import opened RunKeys

  type Client = nat
  type RunId = nat

  /** Where a client stands: it added its reference to a mapped run; it mapped a new run and is
      launching it; it holds a run; it is about to give its reference back; it gave the last one
      back and has yet to mark the run idle. */
  datatype Phase = Joined(run: RunId) | Creating(run: RunId) | Holding(run: RunId) | Dropping(run: RunId) | Marking(run: RunId)

  /** `keys` and `refs` cover every run ever made; `reaped` those the reaper took, `cleaned` those
      it cleaned up since; `failed` those whose creator could not launch them. History: `dropped` has
      the time at which a run last lost its last reference. */
  datatype State = State(
    runs: map<string, Mapped<RunId>>, keys: map<RunId, string>, refs: map<RunId, int>,
    clients: map<Client, Phase>, reaped: set<RunId>, cleaned: set<RunId>, failed: set<RunId>,
    now: real, dropped: map<RunId, real>)

  datatype Event =
    | Join(c: Client, key: string) | JoinWorks(c: Client) | JoinFails(c: Client)
    | Create(c: Client, key: string, run: RunId) | CreateWorks(c: Client) | CreateFails(c: Client)
    | Drop(c: Client) | Mark(c: Client)
    | Reap(key: string) | Cleanup(run: RunId) | Pass(time: real)

  function Init(): State {
    State(map[], map[], map[], map[], {}, {}, {}, 0.0, map[])
  }

  predicate Idle(s: State, m: Mapped<RunId>) {
    m.run in s.refs && LongIdle(s.refs[m.run], m.idleSince, s.now)
  }

  predicate Enabled(s: State, e: Event) {
    match e
    case Join(c, key) => c !in s.clients && key in s.runs && s.runs[key].run in s.refs
    case JoinWorks(c) => c in s.clients && s.clients[c].Joined?
    case JoinFails(c) => c in s.clients && s.clients[c].Joined?
    case Create(c, key, r) => c !in s.clients && key !in s.runs && r !in s.keys
    case CreateWorks(c) => c in s.clients && s.clients[c].Creating?
    case CreateFails(c) => c in s.clients && s.clients[c].Creating? && s.clients[c].run in s.keys
    case Drop(c) => c in s.clients && (s.clients[c].Holding? || s.clients[c].Dropping?) && s.clients[c].run in s.refs
    case Mark(c) => c in s.clients && s.clients[c].Marking? && s.clients[c].run in s.keys
    case Reap(key) => key in s.runs && Idle(s, s.runs[key])
    case Cleanup(r) => r in s.reaped && r !in s.cleaned
    case Pass(time) => time >= 0.0
  }

  function Apply(s: State, e: Event): State
    requires Enabled(s, e)
  {
    match e
    case Join(c, key) =>
      var r := s.runs[key].run;
      s.(refs := s.refs[r := s.refs[r] + 1], runs := s.runs[key := Mapped(r, None)], clients := s.clients[c := Joined(r)])
    case JoinWorks(c) => s.(clients := s.clients[c := Holding(s.clients[c].run)])
    case JoinFails(c) => s.(clients := s.clients[c := Dropping(s.clients[c].run)])
    case Create(c, key, r) =>
      s.(keys := s.keys[r := key], refs := s.refs[r := 1],
         runs := s.runs[key := Mapped(r, None)], clients := s.clients[c := Creating(r)])
    case CreateWorks(c) => s.(clients := s.clients[c := Holding(s.clients[c].run)])
    case CreateFails(c) =>
      var r := s.clients[c].run;
      s.(runs := s.runs - {s.keys[r]}, clients := s.clients - {c}, failed := s.failed + {r})
    case Drop(c) =>
      var r := s.clients[c].run;
      s.(refs := s.refs[r := s.refs[r] - 1],
         clients := if s.refs[r] - 1 <= 0 then s.clients[c := Marking(r)] else s.clients - {c},
         dropped := if s.refs[r] - 1 <= 0 then s.dropped[r := s.now] else s.dropped)
    case Mark(c) =>
      var r := s.clients[c].run;
      var key := s.keys[r];
      s.(runs := if key in s.runs && s.runs[key].run == r then s.runs[key := Mapped(r, Some(s.now))] else s.runs,
         clients := s.clients - {c})
    case Reap(key) => s.(runs := s.runs - {key}, reaped := s.reaped + {s.runs[key].run})
    case Cleanup(r) => s.(cleaned := s.cleaned + {r})
    case Pass(time) => s.(now := s.now + time)
  }

  ghost predicate Run(s: State, es: seq<Event>)
    decreases |es|, 0
  {
    es == [] || (Run(s, es[..|es| - 1]) && Enabled(After(s, es[..|es| - 1]), es[|es| - 1]))
  }

  ghost function After(s: State, es: seq<Event>): State
    requires Run(s, es)
    decreases |es|, 1
  {
    if es == [] then s else Apply(After(s, es[..|es| - 1]), es[|es| - 1])
  }

  // ---------- what every step keeps ----------

  /** A client in one of these phases owns one reference to its run. */
  predicate Uses(p: Phase, r: RunId) {
    p.run == r && !p.Marking?
  }

  ghost function Users(s: State, r: RunId): set<Client> {
    set c | c in s.clients && Uses(s.clients[c], r)
  }

  predicate IsMapped(s: State, r: RunId) {
    r in s.keys && s.keys[r] in s.runs && s.runs[s.keys[r]].run == r
  }

  /** The map knows its runs by their keys. */
  ghost predicate InvKeys(s: State) {
    && s.refs.Keys == s.keys.Keys
    && forall k :: k in s.runs ==> s.runs[k].run in s.keys && s.keys[s.runs[k].run] == k
  }

  ghost predicate InvKnown(s: State) {
    && (forall c :: c in s.clients ==> s.clients[c].run in s.keys)
    && s.failed <= s.keys.Keys && s.reaped <= s.keys.Keys && s.cleaned <= s.reaped
  }

  ghost predicate InvTable(s: State) {
    InvKeys(s) && InvKnown(s)
  }

  /** A run counts its users, and one more for ever if its creator failed. */
  ghost predicate InvCounts(s: State) {
    forall r :: r in s.refs ==> s.refs[r] == |Users(s, r)| + Lost(s, r)
  }

  /** A reaped run has left the map and has no user, and its creator did not fail. */
  ghost predicate InvReaped(s: State) {
    forall r :: r in s.reaped ==> !IsMapped(s, r) && Users(s, r) == {} && r !in s.failed
  }

  /** A run in use has left the map exactly when its creator failed. */
  ghost predicate InvUsed(s: State) {
    && (forall r :: r in s.failed ==> !IsMapped(s, r))
    && (forall c :: c in s.clients && !s.clients[c].Marking? ==>
          (IsMapped(s, s.clients[c].run) <==> s.clients[c].run !in s.failed))
  }

  /** A run being launched for the first time has one creator, and has not failed yet. */
  ghost predicate InvCreating(s: State) {
    && (forall c :: c in s.clients && s.clients[c].Creating? ==> s.clients[c].run !in s.failed)
    && (forall c, d :: c in s.clients && d in s.clients && s.clients[c].Creating? && s.clients[c] == s.clients[d] ==> c == d)
  }

  ghost predicate Inv(s: State) {
    InvTable(s) && InvCounts(s) && InvReaped(s) && InvUsed(s) && InvCreating(s)
  }

  lemma KeepsKeys(s: State, e: Event)
    requires InvKeys(s) && InvKnown(s) && Enabled(s, e)
    ensures InvKeys(Apply(s, e))
  {
    hide Idle;
  }

  lemma KeepsKnown(s: State, e: Event)
    requires InvKeys(s) && InvKnown(s) && Enabled(s, e)
    ensures InvKnown(Apply(s, e))
  {
    hide Idle;
  }

  /** The client an event is about, if any. */
  function Actor(e: Event): Option<Client> {
    match e
    case Reap(_) => None
    case Cleanup(_) => None
    case Pass(_) => None
    case _ => Some(e.c)
  }

  lemma UsersMove(s: State, e: Event, r: RunId)
    requires InvTable(s) && Enabled(s, e)
    ensures var t := Apply(s, e);
      var c := Actor(e);
      if c == None then Users(t, r) == Users(s, r)
      else if c.value in t.clients && Uses(t.clients[c.value], r) then Users(t, r) == Users(s, r) + {c.value}
      else Users(t, r) == Users(s, r) - {c.value}
  {
    hide Enabled, Apply, InvTable;
    OthersStay(s, e);
  }

  /** A step moves no client but its own. */
  lemma OthersStay(s: State, e: Event)
    requires Enabled(s, e)
    ensures var t := Apply(s, e);
      forall c :: Some(c) != Actor(e) ==> (c in t.clients <==> c in s.clients) && (c in s.clients ==> t.clients[c] == s.clients[c])
  {
    hide Idle;
  }

  /** Whether a client has a reference to a run. */
  function Owns(s: State, c: Option<Client>, r: RunId): nat {
    if c.Some? && c.value in s.clients && Uses(s.clients[c.value], r) then 1 else 0
  }

  /** Besides the references of its users a run keeps the one of a failed creator. */
  function Lost(s: State, r: RunId): nat {
    if r in s.failed then 1 else 0
  }

  lemma RefsMove(s: State, e: Event, r: RunId)
    requires InvTable(s) && InvCreating(s) && Enabled(s, e) && r in Apply(s, e).refs
    ensures var t := Apply(s, e);
      t.refs[r] - Lost(t, r)
        == (if r in s.refs then s.refs[r] - Lost(s, r) else 0) + Owns(t, Actor(e), r) - Owns(s, Actor(e), r)
  {
    hide Idle;
    if e.CreateFails? || e.Drop? {
      RefsGo(s, e, r);
    }
  }

  lemma RefsGo(s: State, e: Event, r: RunId)
    requires InvTable(s) && InvCreating(s) && Enabled(s, e) && r in Apply(s, e).refs && (e.CreateFails? || e.Drop?)
    ensures r in s.refs
    ensures var t := Apply(s, e);
      t.refs[r] - Lost(t, r) == s.refs[r] - Lost(s, r) + Owns(t, Actor(e), r) - Owns(s, Actor(e), r)
  {
    hide Idle;
  }

  lemma CountMoves(s: State, e: Event, r: RunId)
    requires InvTable(s) && Enabled(s, e)
    ensures |Users(Apply(s, e), r)| == |Users(s, r)| + Owns(Apply(s, e), Actor(e), r) - Owns(s, Actor(e), r)
  {
    hide Apply, Enabled;
    UsersMove(s, e, r);
  }

  lemma KeepsCounts(s: State, e: Event)
    requires InvTable(s) && InvCounts(s) && InvCreating(s) && Enabled(s, e)
    ensures InvCounts(Apply(s, e))
  {
    var t := Apply(s, e);
    forall r | r in t.refs
      ensures t.refs[r] == |Users(t, r)| + Lost(t, r)
    {
      hide Apply, Enabled;
      RefsMove(s, e, r);
      CountMoves(s, e, r);
      if r !in s.refs {
        assert Users(s, r) == {};
      }
    }
  }

  /** What the reaper may take is not in use. */
  lemma IdleIsUnused(s: State, r: RunId)
    requires InvCounts(s) && r in s.refs && s.refs[r] <= 0
    ensures Users(s, r) == {} && r !in s.failed
  {
    assert |Users(s, r)| == 0;
  }

  lemma KeepsReaped(s: State, e: Event)
    requires InvTable(s) && InvCounts(s) && InvReaped(s) && Enabled(s, e)
    ensures InvReaped(Apply(s, e))
  {
    var t := Apply(s, e);
    forall r | r in t.reaped
      ensures !IsMapped(t, r) && Users(t, r) == {} && r !in t.failed
    {
      hide Apply, Enabled;
      if r !in s.reaped {
        NewlyReaped(s, e, r);
        IdleIsUnused(s, r);
      }
      NoUsers(s, r);
      ReapedStaysOut(s, e, r);
      UsersMove(s, e, r);
    }
  }

  lemma NoUsers(s: State, r: RunId)
    requires Users(s, r) == {}
    ensures forall c :: c in s.clients ==> !Uses(s.clients[c], r)
  {
    forall c | c in s.clients
      ensures !Uses(s.clients[c], r)
    {
      assert c !in Users(s, r);
    }
  }

  lemma NewlyReaped(s: State, e: Event, r: RunId)
    requires Enabled(s, e) && r in Apply(s, e).reaped && r !in s.reaped
    ensures e.Reap? && r in s.refs && s.refs[r] <= 0
  {
  }

  lemma ReapedStaysOut(s: State, e: Event, r: RunId)
    requires InvTable(s) && Enabled(s, e) && r in Apply(s, e).reaped
    requires r in s.reaped ==> !IsMapped(s, r) && forall c :: c in s.clients ==> !Uses(s.clients[c], r)
    requires r !in s.reaped ==> forall c :: c in s.clients ==> !Uses(s.clients[c], r)
    requires r !in s.failed
    ensures !IsMapped(Apply(s, e), r) && r !in Apply(s, e).failed
    ensures Actor(e).Some? && Actor(e).value in Apply(s, e).clients ==> !Uses(Apply(s, e).clients[Actor(e).value], r)
  {
  }

  lemma KeepsFailed(s: State, e: Event)
    requires InvTable(s) && InvUsed(s) && InvCreating(s) && Enabled(s, e)
    ensures forall r :: r in Apply(s, e).failed ==> !IsMapped(Apply(s, e), r)
  {
    hide Idle;
  }

  lemma KeepsUsed(s: State, e: Event)
    requires InvTable(s) && InvCounts(s) && InvUsed(s) && InvCreating(s) && Enabled(s, e)
    ensures InvUsed(Apply(s, e))
  {
    hide Inv, InvCounts, Users, Idle;
    if e.Reap? {
      ReapKeepsUsed(s, e.key);
    } else {
      KeepsFailed(s, e);
    }
  }

  lemma ReapKeepsUsed(s: State, key: string)
    requires InvTable(s) && InvCounts(s) && InvUsed(s) && Enabled(s, Reap(key))
    ensures InvUsed(Apply(s, Reap(key)))
  {
    hide Inv, InvCounts, Users;
    IdleIsUnused(s, s.runs[key].run);
    NoUsers(s, s.runs[key].run);
  }

  lemma KeepsLaunched(s: State, e: Event)
    requires InvTable(s) && InvCreating(s) && Enabled(s, e)
    ensures var t := Apply(s, e); forall c :: c in t.clients && t.clients[c].Creating? ==> t.clients[c].run !in t.failed
  {
    hide Idle;
  }

  lemma KeepsOneCreator(s: State, e: Event)
    requires InvTable(s) && InvCreating(s) && Enabled(s, e)
    ensures var t := Apply(s, e);
      forall c, d :: c in t.clients && d in t.clients && t.clients[c].Creating? && t.clients[c] == t.clients[d] ==> c == d
  {
    hide Idle;
  }

  lemma KeepsCreating(s: State, e: Event)
    requires InvTable(s) && InvCreating(s) && Enabled(s, e)
    ensures InvCreating(Apply(s, e))
  {
    hide Enabled, Apply;
    KeepsLaunched(s, e);
    KeepsOneCreator(s, e);
  }

  lemma {:induction false} AlwaysInv(s: State, es: seq<Event>)
    requires Inv(s) && Run(s, es)
    ensures Inv(After(s, es))
  {
    if es != [] {
      var before, e := es[..|es| - 1], es[|es| - 1];
      AlwaysInv(s, before);
      KeepsKeys(After(s, before), e);
      KeepsKnown(After(s, before), e);
      KeepsCounts(After(s, before), e);
      KeepsReaped(After(s, before), e);
      KeepsUsed(After(s, before), e);
      KeepsCreating(After(s, before), e);
    }
  }

  // ---------- whole runs ----------

  /** The reaper never takes a run that a client holds or is acquiring: whatever it took, and so
      whatever it cleans up, has no user then or later, and no reference. */
  lemma ReaperSparesUsedRuns(es: seq<Event>, r: RunId)
    requires Run(Init(), es) && r in After(Init(), es).reaped
    ensures var s := After(Init(), es);
      && r in s.refs && s.refs[r] == 0 && !IsMapped(s, r)
      && forall c :: c in s.clients && s.clients[c].run == r ==> s.clients[c].Marking?
  {
    hide Apply, Enabled, Run, After;
    AlwaysInv(Init(), es);
    NoUsers(After(Init(), es), r);
  }

  lemma ReapedKeepsCount(s: State, e: Event, r: RunId)
    requires Inv(s) && Enabled(s, e) && r in s.reaped
    ensures r in Apply(s, e).reaped && r in Apply(s, e).refs && r in s.refs && Apply(s, e).refs[r] == s.refs[r]
  {
    hide Enabled, Apply;
    ReapedStays(s, e, r);
    NoUsers(s, r);
    RefsMove(s, e, r);
    KeepsReaped(s, e);
    NoUsers(Apply(s, e), r);
  }

  lemma ReapedStays(s: State, e: Event, r: RunId)
    requires InvTable(s) && Enabled(s, e) && r in s.reaped
    ensures r in Apply(s, e).reaped && r in s.refs && r in Apply(s, e).refs
  {
    hide Idle;
  }

  /** A reaped run's reference count never rises again. */
  lemma {:induction false} ReapedNeverRises(s: State, es: seq<Event>, r: RunId)
    requires Inv(s) && Run(s, es) && r in s.reaped
    ensures r in s.refs && r in After(s, es).reaped && r in After(s, es).refs && After(s, es).refs[r] == s.refs[r]
  {
    hide Apply, Enabled;
    if es != [] {
      var before := es[..|es| - 1];
      ReapedNeverRises(s, before, r);
      AlwaysInv(s, before);
      ReapedKeepsCount(After(s, before), es[|es| - 1], r);
    }
  }

  /** A creator that fails takes its own run out of the map, never another one under that key. */
  lemma CreatorRemovesItsOwn(es: seq<Event>, c: Client)
    requires Run(Init(), es) && Enabled(After(Init(), es), CreateFails(c))
    ensures var s := After(Init(), es);
      && IsMapped(s, s.clients[c].run)
      && Apply(s, CreateFails(c)).runs == s.runs - {s.keys[s.clients[c].run]}
      && forall r :: IsMapped(s, r) && r != s.clients[c].run ==> IsMapped(Apply(s, CreateFails(c)), r)
  {
    hide Run, After, InvCounts, InvReaped;
    AlwaysInv(Init(), es);
  }

  /** A run in use is in the map, under its key, if and only if its creator has not failed. */
  lemma UsedRunIsMapped(es: seq<Event>, c: Client)
    requires Run(Init(), es) && c in After(Init(), es).clients && !After(Init(), es).clients[c].Marking?
    ensures var s := After(Init(), es);
      IsMapped(s, s.clients[c].run) <==> s.clients[c].run !in s.failed
  {
    hide Apply, Enabled, Run, After;
    AlwaysInv(Init(), es);
  }

  /** Clients of one key share one run, unless a creator failed under one of them. */
  lemma OneRunPerKey(es: seq<Event>, c: Client, d: Client)
    requires Run(Init(), es)
    requires var s := After(Init(), es);
      && c in s.clients && d in s.clients && !s.clients[c].Marking? && !s.clients[d].Marking?
      && s.clients[c].run !in s.failed && s.clients[d].run !in s.failed
    ensures var s := After(Init(), es);
      && s.clients[c].run in s.keys && s.clients[d].run in s.keys
      && (s.keys[s.clients[c].run] == s.keys[s.clients[d].run] <==> s.clients[c].run == s.clients[d].run)
  {
    hide Apply, Enabled, Run, After;
    AlwaysInv(Init(), es);
  }

  /** A run whose creator failed stays out of the map for ever and keeps a reference nobody gives
      back, so the reaper never cleans it up, even if a client launched it meanwhile. */
  lemma {:induction false} FailedIsNeverReaped(s: State, es: seq<Event>, r: RunId)
    requires Inv(s) && Run(s, es) && r in s.failed
    ensures var t := After(s, es);
      r in t.failed && r !in t.reaped && !IsMapped(t, r) && r in t.refs && t.refs[r] >= 1
  {
    hide Apply, Enabled;
    AlwaysInv(s, es);
    if es != [] {
      var before := es[..|es| - 1];
      FailedIsNeverReaped(s, before, r);
      FailedStays(After(s, before), es[|es| - 1], r);
    }
  }

  lemma FailedStays(s: State, e: Event, r: RunId)
    requires Enabled(s, e) && r in s.failed
    ensures r in Apply(s, e).failed
  {
  }

  lemma Step(es: seq<Event>, s: State, e: Event, t: State)
    requires Run(Init(), es) && After(Init(), es) == s && Enabled(s, e) && t == Apply(s, e)
    ensures Run(Init(), es + [e]) && After(Init(), es + [e]) == t
  {
    assert (es + [e])[..|es|] == es;
  }

  lemma NoStep()
    ensures Run(Init(), []) && After(Init(), []) == Init()
  {
  }

  /** A run being launched. */
  lemma FirstClient() returns (es: seq<Event>, s: State)
    ensures Run(Init(), es) && After(Init(), es) == s
    ensures s == State(map["k" := Mapped(0, None)], map[0 := "k"], map[0 := 1], map[0 := Creating(0)],
                     {}, {}, {}, 0.0, map[])
  {
    hide Run, After;
    NoStep();
    s := State(map["k" := Mapped(0, None)], map[0 := "k"], map[0 := 1], map[0 := Creating(0)],
                     {}, {}, {}, 0.0, map[]);
    Step([], Init(), Create(0, "k", 0), s);
    es := [] + [Create(0, "k", 0)];
  }

  lemma Rejoined() returns (es: seq<Event>, s: State)
    ensures Run(Init(), es) && After(Init(), es) == s
    ensures s == State(map["k" := Mapped(0, None)], map[0 := "k"], map[0 := 1],
                       map[0 := Marking(0), 1 := Joined(0)], {}, {}, {}, 0.0, map[0 := 0.0])
  {
    hide Run, After;
    var es1, s1 := FirstClient();
    var s2 := s1.(clients := map[0 := Holding(0)]);
    Step(es1, s1, CreateWorks(0), s2);
    var es2 := es1 + [CreateWorks(0)];
    var s3 := s2.(refs := map[0 := 0], clients := map[0 := Marking(0)], dropped := map[0 := 0.0]);
    Step(es2, s2, Drop(0), s3);
    var es3 := es2 + [Drop(0)];
    s := s3.(refs := map[0 := 1], clients := map[0 := Marking(0), 1 := Joined(0)]);
    Step(es3, s3, Join(1, "k"), s);
    es := es3 + [Join(1, "k")];
  }

  // ---------- the grace period ----------

  /** A release that marks its run idle although another client has taken it since. */
  predicate IsStale(s: State, e: Event) {
    && e.Mark? && e.c in s.clients && s.clients[e.c].run in s.refs
    && IsMapped(s, s.clients[e.c].run) && s.refs[s.clients[e.c].run] > 0
  }

  ghost predicate NoStaleMarks(s: State, es: seq<Event>)
    requires Run(s, es)
    decreases |es|
  {
    es == [] || (NoStaleMarks(s, es[..|es| - 1]) && !IsStale(After(s, es[..|es| - 1]), es[|es| - 1]))
  }

  /** A run with an idle time has been without references since then at the latest. */
  ghost predicate InvIdle(s: State) {
    && (forall r :: r in s.dropped ==> s.dropped[r] <= s.now)
    && (forall k :: k in s.runs && s.runs[k].idleSince.Some? ==>
          var r := s.runs[k].run;
          r in s.refs && s.refs[r] <= 0 && r in s.dropped && s.dropped[r] <= s.runs[k].idleSince.value)
  }

  /** A client that has yet to mark its run dropped it before. */
  ghost predicate InvMarking(s: State) {
    forall c :: c in s.clients && s.clients[c].Marking? ==> s.clients[c].run in s.dropped
  }

  lemma KeepsMarking(s: State, e: Event)
    requires InvMarking(s) && Enabled(s, e)
    ensures InvMarking(Apply(s, e))
  {
  }

  /** A client about to drop its reference has one. */
  lemma DropperCounts(s: State, c: Client)
    requires InvCounts(s) && c in s.clients && !s.clients[c].Marking? && s.clients[c].run in s.refs
    ensures s.refs[s.clients[c].run] >= 1
  {
    assert c in Users(s, s.clients[c].run);
  }

  lemma KeepsIdle(s: State, e: Event)
    requires InvTable(s) && InvCounts(s) && InvIdle(s) && InvMarking(s) && Enabled(s, e) && !IsStale(s, e)
    ensures InvIdle(Apply(s, e))
  {
    hide InvCounts, Idle, LongIdle;
    if e.Drop? {
      DropperCounts(s, e.c);
    }
  }

  lemma {:induction false} AlwaysIdle(es: seq<Event>)
    requires Run(Init(), es) && NoStaleMarks(Init(), es)
    ensures InvIdle(After(Init(), es)) && InvMarking(After(Init(), es))
  {
    hide Apply, Enabled, Inv, InvTable, InvCounts, InvIdle, InvMarking, IsStale;
    if es != [] {
      var before, e := es[..|es| - 1], es[|es| - 1];
      AlwaysIdle(before);
      AlwaysInv(Init(), before);
      Parts(After(Init(), before));
      KeepsMarking(After(Init(), before), e);
      KeepsIdle(After(Init(), before), e);
    } else {
      NothingIdle();
    }
  }

  lemma Parts(s: State)
    requires Inv(s)
    ensures InvTable(s) && InvCounts(s)
  {
  }

  lemma NothingIdle()
    ensures InvIdle(Init()) && InvMarking(Init()) && Inv(Init())
  {
  }

  /** If no release marks a run that is in use again, the reaper takes no run sooner than ten seconds
      after it lost its last reference. */
  lemma GraceKept(es: seq<Event>, key: string)
    requires Run(Init(), es) && NoStaleMarks(Init(), es) && Enabled(After(Init(), es), Reap(key))
    ensures var s := After(Init(), es);
      var r := s.runs[key].run;
      r in s.dropped && s.now - s.dropped[r] > 10.0
  {
    hide Run, After;
    AlwaysIdle(es);
  }

  lemma {:induction false} Continues(s: State, es: seq<Event>, more: seq<Event>)
    requires Run(s, es) && Run(After(s, es), more)
    ensures Run(s, es + more) && After(s, es + more) == After(After(s, es), more)
    decreases |more|
  {
    hide Apply, Enabled;
    if more == [] {
      assert es + more == es;
    } else {
      var front := more[..|more| - 1];
      Continues(s, es, front);
      assert (es + more)[..|es + more| - 1] == es + front;
    }
  }

  lemma OneStep(s: State, e: Event)
    requires Enabled(s, e)
    ensures Run(s, [e]) && After(s, [e]) == Apply(s, e)
  {
    assert [e][..0] == [];
  }

  lemma TwoSteps(s: State, e: Event, f: Event)
    requires Enabled(s, e) && Enabled(Apply(s, e), f)
    ensures Run(s, [e, f]) && After(s, [e, f]) == Apply(Apply(s, e), f)
  {
    hide Apply, Enabled;
    OneStep(s, e);
    OneStep(Apply(s, e), f);
    Continues(s, [e], [f]);
    assert [e] + [f] == [e, f];
  }

  /** The run stands in the map as one long idle. */
  predicate LooksIdle(s: State, r: RunId) {
    && IsMapped(s, r) && r in s.refs
    && s.runs[s.keys[r]].idleSince.Some? && s.now - s.runs[s.keys[r]].idleSince.value > GRACE
  }

  /** A client gives its reference up, whatever it was doing with it. */
  lemma LetGo(s: State, c: Client, r: RunId) returns (es: seq<Event>)
    requires Inv(s) && LooksIdle(s, r) && c in Users(s, r)
    ensures Run(s, es)
    ensures var t := After(s, es);
      && LooksIdle(t, r) && t.keys == s.keys && t.now == s.now
      && r in t.refs && t.refs[r] == s.refs[r] - 1 && (t.refs[r] <= 0 ==> r in t.dropped && t.dropped[r] == t.now)
      && Users(t, r) == Users(s, r) - {c}
  {
    hide Run, After, InvCounts, InvReaped, InvUsed, InvCreating;
    match s.clients[c]
    case Joined(_) =>
      TwoSteps(s, JoinFails(c), Drop(c));
      es := [JoinFails(c), Drop(c)];
    case Creating(_) =>
      TwoSteps(s, CreateWorks(c), Drop(c));
      es := [CreateWorks(c), Drop(c)];
    case _ =>
      OneStep(s, Drop(c));
      es := [Drop(c)];
  }

  /** All clients let go at one moment. */
  lemma {:induction false} AllLetGo(s: State, r: RunId) returns (es: seq<Event>)
    requires Inv(s) && LooksIdle(s, r) && s.refs[r] >= 1
    ensures Run(s, es)
    ensures var t := After(s, es);
      LooksIdle(t, r) && t.keys == s.keys && r in t.refs && t.refs[r] <= 0 && r in t.dropped && t.dropped[r] == t.now
    decreases |Users(s, r)|
  {
    hide Run, After, Apply, Enabled, LooksIdle, Users;
    var c := SomeUser(s, r);
    es := LetGo(s, c, r);
    var t := After(s, es);
    AlwaysInv(s, es);
    if t.refs[r] >= 1 {
      var more := AllLetGo(t, r);
      Continues(s, es, more);
      es := es + more;
    }
  }

  lemma SomeUser(s: State, r: RunId) returns (c: Client)
    requires Inv(s) && LooksIdle(s, r) && s.refs[r] >= 1
    ensures c in Users(s, r)
  {
    assert r !in s.failed;
    assert |Users(s, r)| >= 1;
    UserLeft(Users(s, r));
    c :| c in Users(s, r);
  }

  lemma UserLeft(cs: set<Client>)
    requires |cs| >= 1
    ensures exists c :: c in cs
  {
    assert (forall c :: c !in cs) ==> cs == {};
  }

  lemma MarkStale(s: State, c: Client)
    requires InvTable(s) && Enabled(s, Mark(c)) && IsStale(s, Mark(c))
    ensures var r, t := s.clients[c].run, Apply(s, Mark(c));
      && IsMapped(t, r) && t.keys == s.keys && t.refs == s.refs && t.now == s.now
      && t.runs[t.keys[r]].idleSince == Some(s.now)
  {
  }

  lemma MarkedThenWaits(s: State, c: Client)
    requires InvTable(s) && Enabled(s, Mark(c)) && IsStale(s, Mark(c))
    ensures Run(s, [Mark(c), Pass(GRACE + 1.0)])
    ensures var r, t := s.clients[c].run, After(s, [Mark(c), Pass(GRACE + 1.0)]);
      LooksIdle(t, r) && r in t.refs && t.refs[r] >= 1 && t.keys == s.keys
  {
    hide Run, After, InvTable;
    MarkStale(s, c);
    TwoSteps(s, Mark(c), Pass(GRACE + 1.0));
  }

  /** Wherever a release is about to mark a run in use, the grace period can still be skipped: the
      reaper may take that run at the very moment it loses its last reference. */
  lemma StaleMarkSkipsGrace(es: seq<Event>, c: Client) returns (more: seq<Event>)
    requires Run(Init(), es) && Enabled(After(Init(), es), Mark(c)) && IsStale(After(Init(), es), Mark(c))
    ensures Run(Init(), es + more)
    ensures var s, t := After(Init(), es), After(Init(), es + more);
      var r := s.clients[c].run;
      && IsMapped(t, r) && Enabled(t, Reap(t.keys[r])) && r in t.dropped && t.now - t.dropped[r] == 0.0
  {
    hide Run, After, Apply, IsStale, InvCounts, InvReaped, InvUsed, InvCreating;
    var s := After(Init(), es);
    AlwaysInv(Init(), es);
    var r := s.clients[c].run;
    Parts(s);
    MarkedThenWaits(s, c);
    var first := [Mark(c), Pass(GRACE + 1.0)];
    AlwaysInv(s, first);
    var rest := AllLetGo(After(s, first), r);
    Continues(s, first, rest);
    more := first + rest;
    Continues(Init(), es, more);
  }

  /** Such a release can happen. */
  lemma GraceSkipped()
    ensures exists es, key :: Run(Init(), es) && var s := After(Init(), es);
      && Enabled(s, Reap(key)) && s.runs[key].run in s.dropped && s.now - s.dropped[s.runs[key].run] == 0.0
  {
    hide Run, After;
    var es, s := Rejoined();
    var more := StaleMarkSkipsGrace(es, 0);
    var t := After(Init(), es + more);
    assert t.runs[t.keys[0]].run == 0;
  }

  // ---------- two runs under one key ----------

  /** Some number that is not taken. */
  lemma Unused(taken: set<nat>) returns (n: nat)
    ensures n !in taken
  {
    if taken == {} {
      n := 0;
    } else {
      n := Above(taken);
    }
  }

  lemma {:induction false} Above(taken: set<nat>) returns (n: nat)
    requires taken != {}
    ensures forall i <- taken :: i < n
    decreases |taken|
  {
    Inhabited(taken);
    var x :| x in taken;
    n := x + 1;
    assert taken == taken - {x} + {x};
    if taken - {x} != {} {
      var m := Above(taken - {x});
      n := if m < x + 1 then x + 1 else m;
    }
  }

  lemma Inhabited(taken: set<nat>)
    requires taken != {}
    ensures exists x :: x in taken
  {
  }

  /** Two clients hold different runs of one key. */
  predicate Split(s: State, c: Client, d: Client) {
    && c in s.clients && s.clients[c].Holding? && d in s.clients && s.clients[d].Holding?
    && s.clients[c].run in s.keys && s.clients[d].run in s.keys
    && s.clients[c].run != s.clients[d].run && s.keys[s.clients[c].run] == s.keys[s.clients[d].run]
  }

  /** A new client makes a run under a key that is not in the map. */
  lemma MakesRun(s: State, key: string) returns (es: seq<Event>, d: Client)
    requires key !in s.runs
    ensures Run(s, es) && d !in s.clients
    ensures var t := After(s, es);
      && d in t.clients && t.clients[d].Holding? && t.clients[d].run !in s.keys
      && t.keys == s.keys[t.clients[d].run := key] && t.clients == s.clients[d := t.clients[d]]
  {
    hide Run, After;
    d := Unused(s.clients.Keys);
    var r := Unused(s.keys.Keys);
    TwoSteps(s, Create(d, key, r), CreateWorks(d));
    es := [Create(d, key, r), CreateWorks(d)];
  }

  /** The creator of a run fails under a client that holds it, and the next client makes another. */
  lemma SplitsUnderHolder(s: State, c: Client, d: Client) returns (es: seq<Event>, f: Client)
    requires Inv(s) && Enabled(s, CreateFails(c)) && d in s.clients && s.clients[d] == Holding(s.clients[c].run)
    ensures Run(s, es) && Split(After(s, es), d, f) && After(s, es).clients[d] == s.clients[d]
  {
    hide Run, After, InvCounts, InvReaped, InvUsed, InvCreating;
    var key, t := s.keys[s.clients[c].run], Apply(s, CreateFails(c));
    OneStep(s, CreateFails(c));
    var more;
    more, f := MakesRun(t, key);
    Continues(s, [CreateFails(c)], more);
    es := [CreateFails(c)] + more;
  }

  /** Sharing fails wherever a creator can fail while another client waits for its run or holds it:
      that client goes on to hold it, and the next one makes a second run under the same key. */
  lemma TwoRunsUnderOneKey(es: seq<Event>, c: Client, d: Client) returns (more: seq<Event>, f: Client)
    requires Run(Init(), es) && Enabled(After(Init(), es), CreateFails(c))
    requires var s := After(Init(), es);
      d in s.clients && s.clients[d].run == s.clients[c].run && (s.clients[d].Joined? || s.clients[d].Holding?)
    ensures Run(Init(), es + more) && Split(After(Init(), es + more), d, f)
    ensures After(Init(), es + more).clients[d].run == After(Init(), es).clients[d].run
  {
    hide Run, After, InvTable, InvCounts, InvReaped, InvUsed, InvCreating, Split;
    var s := After(Init(), es);
    AlwaysInv(Init(), es);
    var first := if s.clients[d].Joined? then [JoinWorks(d)] else [];
    if s.clients[d].Joined? {
      OneStep(s, JoinWorks(d));
    } else {
      NoSteps(s);
    }
    AlwaysInv(s, first);
    var t := After(s, first);
    var rest;
    rest, f := SplitsUnderHolder(t, c, d);
    Continues(s, first, rest);
    more := first + rest;
    Continues(Init(), es, more);
  }

  lemma NoSteps(s: State)
    ensures Run(s, []) && After(s, []) == s
  {
  }

  /** No such client need be there yet: one can join wherever a run is being launched. */
  lemma EveryLaunchCanSplit(es: seq<Event>, c: Client) returns (more: seq<Event>, d: Client, f: Client)
    requires Run(Init(), es) && Enabled(After(Init(), es), CreateFails(c))
    ensures Run(Init(), es + more) && Split(After(Init(), es + more), d, f)
    ensures After(Init(), es + more).clients[d].run == After(Init(), es).clients[c].run
  {
    hide Run, After, InvCounts, InvReaped, InvCreating, Split;
    var s := After(Init(), es);
    AlwaysInv(Init(), es);
    CreatorRemovesItsOwn(es, c);
    d := Unused(s.clients.Keys);
    var e := Join(d, s.keys[s.clients[c].run]);
    OneStep(s, e);
    Continues(Init(), es, [e]);
    more, f := TwoRunsUnderOneKey(es + [e], c, d);
    assert es + [e] + more == es + ([e] + more);
    more := [e] + more;
  }
}
