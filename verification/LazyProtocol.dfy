/** The cache with any number of calls in progress. The lock sections of Get, Drop, Touch, cleaning
    and expiry are steps in any interleaving; functions take as long as they like between them. */
module LazyProtocol {
  import opened Collections
  import opened LazyCache
  import opened Options

  /** Items are numbered as they are made; a Get that makes an item is known by that number. */
  type Id = nat

  /** Who calls the Get of an item: the one that made it, or one that found it in the map. */
  datatype Caller = Creator(i: Id) | Finder(n: nat)

  /** A caller between the lock sections of an item's Get, inside its function unless the item was
      cancelled before. */
  datatype Visit = Visit(item: Id, calls: bool)

  /** A cleaning on its way: the Get it belongs to, the items it goes through, how many of them it is
      done with, how many of those it took, and what it read of the next one if it is about to take
      that. It holds the lock of the map. */
  datatype Cleaner = Cleaner(call: Id, order: seq<Id>, next: nat, gone: nat, picked: Option<Info>)

  /** `live` are the items in the map. `calls` are the creating Gets in progress, true from the
      moment the Get of their own item returned. */
  datatype State = State(
    live: set<Id>, keys: map<Id, string>, la: map<Id, real>, inited: set<Id>, running: set<Id>,
    cancelled: set<Id>, calls: map<Id, bool>, computing: map<Caller, Visit>, cleaner: Option<Cleaner>)

  datatype Event =
    | Make(i: Id, key: string, time: real)
    | Enter(c: Caller, i: Id, time: real) | Leave(c: Caller) | Pass(i: Id)
    | Touch(i: Id, time: real) | Remove(i: Id)
    | CleanStart(i: Id, order: seq<Id>) | CleanLook | CleanTake

  function Init(): State {
    State({}, map[], map[], {}, {}, {}, map[], map[], None)
  }

  function InfoOf(s: State, i: Id): Info {
    Info(if i in s.la then s.la[i] else 0.0, i in s.inited, i in s.running)
  }

  function Snapshot(s: State): map<Id, Info> {
    map i | i in s.live :: InfoOf(s, i)
  }

  /** Every item once, in some order: the sort reads times that may change under its hands. */
  ghost predicate Lists(order: seq<Id>, live: set<Id>) {
    && (forall i :: i in live <==> i in order)
    && (forall i, j :: 0 <= i < j < |order| ==> order[i] != order[j])
  }

  /** Make: a Get that finds no item under its key puts one there. Enter: a caller that holds an
      item not yet computed starts its function. Leave: that function returned. Pass: the Get of
      the creator's own item returned, whoever computed it. Remove: an item is dropped or expires.
      CleanStart: a creating Get comes to its last section. CleanLook: the cleaning reads the flags of
      one item. CleanTake: it cancels and deletes the item it found evictable. Meanwhile the map stays
      locked, but the items can change, between the last two as well. */
  ghost predicate Enabled(s: State, e: Event) {
    match e
    case Make(i, key, _) =>
      s.cleaner.None? && i !in s.keys && forall j :: j in s.live ==> j in s.keys && s.keys[j] != key
    case Enter(c, i, _) =>
      c !in s.computing && i in s.keys && i !in s.inited && (c.Creator? ==> c.i == i && i in s.calls && !s.calls[i])
    case Leave(c) => c in s.computing
    case Pass(i) => i in s.calls && i in s.inited && Creator(i) !in s.computing
    case Touch(i, _) => i in s.keys
    case Remove(i) => s.cleaner.None? && i in s.keys
    case CleanStart(i, order) => s.cleaner.None? && i in s.calls && s.calls[i] && Lists(order, s.live)
    case CleanLook => Cleaning(s) && s.cleaner.value.picked.None?
    case CleanTake => Cleaning(s) && s.cleaner.value.picked.Some?
  }

  predicate Cleaning(s: State) {
    s.cleaner.Some? && s.cleaner.value.next < |s.cleaner.value.order|
  }

  /** The item a cleaning is at. */
  function Current(s: State): Id
    requires Cleaning(s)
  {
    s.cleaner.value.order[s.cleaner.value.next]
  }

  /** The items themselves are the same in both states. */
  predicate SameItems(s: State, t: State) {
    t == s.(live := t.live, cancelled := t.cancelled, calls := t.calls, cleaner := t.cleaner)
  }

  /** A cleaning is done with an item; it ends when it has taken enough or seen all. */
  function GoOn(cfg: Config, s: State, c: Cleaner): (t: State)
    requires c.next < |c.order|
    ensures SameItems(s, t) && t.live == s.live && t.cancelled == s.cancelled
  {
    if c.gone >= Quota(cfg) || c.next + 1 == |c.order| then s.(calls := s.calls - {c.call}, cleaner := None)
    else s.(cleaner := Some(c.(next := c.next + 1, picked := None)))
  }

  function Look(cfg: Config, s: State): (t: State)
    requires Cleaning(s)
    ensures SameItems(s, t) && t.live == s.live && t.cancelled == s.cancelled
  {
    var c, info := s.cleaner.value, InfoOf(s, Current(s));
    if Evictable(cfg, info) then s.(cleaner := Some(c.(picked := Some(info)))) else GoOn(cfg, s, c)
  }

  function Take(cfg: Config, s: State): (t: State)
    requires Cleaning(s)
    ensures SameItems(s, t) && t.live == s.live - {Current(s)} && t.cancelled == s.cancelled + {Current(s)}
  {
    var c, v := s.cleaner.value, Current(s);
    GoOn(cfg, s.(live := s.live - {v}, cancelled := s.cancelled + {v}), c.(gone := c.gone + 1))
  }

  ghost function Apply(cfg: Config, s: State, e: Event): State
    requires Enabled(s, e)
  {
    match e
    case Make(i, key, time) =>
      s.(live := s.live + {i}, keys := s.keys[i := key], la := s.la[i := time], calls := s.calls[i := false])
    case Enter(c, i, time) =>
      s.(la := s.la[i := time], running := s.running + {i}, computing := s.computing[c := Visit(i, i !in s.cancelled)])
    case Leave(c) =>
      var i := s.computing[c].item;
      s.(inited := s.inited + {i}, running := s.running - {i}, computing := s.computing - {c})
    case Pass(i) => s.(calls := s.calls[i := true])
    case Touch(i, time) => s.(la := s.la[i := time])
    case Remove(i) =>
      s.(cancelled := s.cancelled + {i}, live := set j | j in s.live && !(j in s.keys && s.keys[j] == s.keys[i]))
    case CleanStart(i, order) =>
      if cfg.capacity == 0 || |s.live| <= Limit(cfg) || order == [] then s.(calls := s.calls - {i})
      else s.(cleaner := Some(Cleaner(i, order, 0, 0, None)))
    case CleanLook => Look(cfg, s)
    case CleanTake => Take(cfg, s)
  }

  ghost predicate Run(cfg: Config, es: seq<Event>)
    decreases |es|, 0
  {
    es == [] || (Run(cfg, es[..|es| - 1]) && Enabled(After(cfg, es[..|es| - 1]), es[|es| - 1]))
  }

  ghost function After(cfg: Config, es: seq<Event>): State
    requires Run(cfg, es)
    decreases |es|, 1
  {
    if es == [] then Init() else Apply(cfg, After(cfg, es[..|es| - 1]), es[|es| - 1])
  }

  // ---------- what every step keeps ----------

  /** The Gets whose own item has not returned to them. */
  ghost function Waiting(s: State): set<Id> {
    set i | i in s.calls && !s.calls[i]
  }

  ghost predicate InvItems(s: State) {
    && s.live <= s.keys.Keys && s.calls.Keys <= s.keys.Keys && s.inited <= s.keys.Keys && s.cancelled <= s.keys.Keys
    && (forall c :: c in s.computing ==> s.computing[c].item in s.keys)
  }

  /** The map has one item a key, and none that was cancelled. */
  ghost predicate InvLive(s: State) {
    && s.live !! s.cancelled
    && (forall i, j :: i in s.live && j in s.live && i in s.keys && j in s.keys && s.keys[i] == s.keys[j] ==> i == j)
  }

  /** Only an item that is not computed is running, namely while a function for it is; such an item
      has its creator waiting. */
  ghost predicate InvRunning(s: State) {
    && s.running !! s.inited
    && (forall i :: i in s.keys && i !in s.inited ==> i in s.calls && !s.calls[i])
    && (forall c :: c in s.computing && s.computing[c].item !in s.inited ==> s.computing[c].item in s.running)
  }

  /** A creator computes its own item, and only a cancelled item is visited without a call. */
  ghost predicate InvVisits(s: State) {
    forall c :: c in s.computing ==>
      && (c.Creator? ==> s.computing[c].item == c.i)
      && (!s.computing[c].calls ==> s.computing[c].item in s.cancelled)
  }

  /** What a cleaning has still to look at is in the map, and what it has seen and left there is
      the item of another Get in progress. */
  ghost predicate InvCleaner(s: State) {
    match s.cleaner
    case None => true
    case Some(c) =>
      && c.call in s.calls && s.calls[c.call] && c.next < |c.order|
      && (forall i, j :: 0 <= i < j < |c.order| ==> c.order[i] != c.order[j])
      && (forall i :: i in s.live ==> i in c.order)
      && (forall k :: c.next <= k < |c.order| ==> c.order[k] in s.live)
      && (forall k :: 0 <= k < c.next && c.order[k] in s.live ==> c.order[k] in s.calls && c.order[k] != c.call)
  }

  /** An item that the cleaning decided on was evictable, and what was computed then is so still. */
  ghost predicate InvPicked(cfg: Config, s: State) {
    Cleaning(s) && s.cleaner.value.picked.Some? ==>
      var info := s.cleaner.value.picked.value;
      Evictable(cfg, info) && (info.inited ==> Current(s) in s.inited)
  }

  predicate OfCleaning(e: Event) {
    e.CleanStart? || e.CleanLook? || e.CleanTake?
  }

  /** The Get that a cleaning belongs to has its item; the others wait on. */
  lemma CleaningKeepsWaiting(cfg: Config, s: State, e: Event)
    requires Enabled(s, e) && OfCleaning(e) && InvCleaner(s)
    ensures var t := Apply(cfg, s, e);
      t.calls.Keys <= s.calls.Keys && forall i :: i in s.calls && !s.calls[i] ==> i in t.calls && !t.calls[i]
  {
    hide Evictable, Limit, Lists, GoOn, InfoOf;
    if e.CleanLook? {
      GoOnKeepsWaiting(cfg, s, s.cleaner.value);
    } else if e.CleanTake? {
      var c, v := s.cleaner.value, Current(s);
      GoOnKeepsWaiting(cfg, s.(live := s.live - {v}, cancelled := s.cancelled + {v}), c.(gone := c.gone + 1));
    }
  }

  lemma GoOnKeepsWaiting(cfg: Config, s: State, c: Cleaner)
    requires c.next < |c.order| && c.call in s.calls && s.calls[c.call]
    ensures var t := GoOn(cfg, s, c);
      t.calls.Keys <= s.calls.Keys && forall i :: i in s.calls && !s.calls[i] ==> i in t.calls && !t.calls[i]
  {
    hide Quota;
  }

  lemma KeepsItems(cfg: Config, s: State, e: Event)
    requires InvItems(s) && InvCleaner(s) && Enabled(s, e)
    ensures InvItems(Apply(cfg, s, e))
  {
    hide Limit, Look, Take, Lists;
    if OfCleaning(e) {
      CleaningKeepsWaiting(cfg, s, e);
    }
  }

  lemma KeepsLive(cfg: Config, s: State, e: Event)
    requires InvItems(s) && InvLive(s) && Enabled(s, e)
    ensures InvLive(Apply(cfg, s, e))
  {
    hide Limit, Look, Take, Lists;
  }

  lemma KeepsRunning(cfg: Config, s: State, e: Event)
    requires InvItems(s) && InvRunning(s) && InvCleaner(s) && Enabled(s, e)
    ensures InvRunning(Apply(cfg, s, e))
  {
    hide Limit, Look, Take, InvCleaner, Lists;
    if OfCleaning(e) {
      CleaningKeepsWaiting(cfg, s, e);
    }
  }

  /** An item that cannot be taken has its creator waiting. */
  lemma KeptIsAwaited(cfg: Config, s: State, i: Id)
    requires InvItems(s) && InvRunning(s) && i in s.live && !Evictable(cfg, InfoOf(s, i))
    ensures i in s.calls && !s.calls[i]
  {
  }

  lemma KeepsVisits(cfg: Config, s: State, e: Event)
    requires InvVisits(s) && Enabled(s, e)
    ensures InvVisits(Apply(cfg, s, e))
  {
    hide Evictable, Limit, Quota;
  }

  lemma KeepsPicked(cfg: Config, s: State, e: Event)
    requires InvPicked(cfg, s) && Enabled(s, e)
    ensures InvPicked(cfg, Apply(cfg, s, e))
  {
    hide Evictable, Limit, Quota;
  }

  lemma LookKeepsCleaner(cfg: Config, s: State)
    requires InvItems(s) && InvRunning(s) && InvCleaner(s) && Cleaning(s)
    ensures InvCleaner(Look(cfg, s))
  {
    hide Evictable, Quota, InvRunning;
    if !Evictable(cfg, InfoOf(s, Current(s))) {
      KeptIsAwaited(cfg, s, Current(s));
    }
  }

  lemma TakeKeepsCleaner(cfg: Config, s: State)
    requires InvCleaner(s) && Cleaning(s)
    ensures InvCleaner(Take(cfg, s))
  {
    hide Quota;
  }

  lemma KeepsCleaner(cfg: Config, s: State, e: Event)
    requires InvItems(s) && InvRunning(s) && InvCleaner(s) && Enabled(s, e)
    ensures InvCleaner(Apply(cfg, s, e))
  {
    hide Limit, InvRunning, Look, Take;
    if e.CleanLook? {
      LookKeepsCleaner(cfg, s);
    } else if e.CleanTake? {
      TakeKeepsCleaner(cfg, s);
    }
  }

  ghost predicate Inv(cfg: Config, s: State) {
    InvItems(s) && InvLive(s) && InvRunning(s) && InvVisits(s) && InvCleaner(s) && InvPicked(cfg, s)
  }

  /** How many items the cleaning has taken so far. */
  function Gone(s: State): nat {
    if s.cleaner.Some? then s.cleaner.value.gone else 0
  }

  /** No more items than the limit and one for every creating Get in progress, and a cleaning has
      made room for as many more as it took. */
  ghost predicate InvSize(cfg: Config, s: State) {
    |s.live| + Gone(s) <= Limit(cfg) + |s.calls|
  }

  lemma FewerCalls(s: State, i: Id)
    requires i in s.calls
    ensures |s.calls - {i}| == |s.calls| - 1
  {
    assert (s.calls - {i}).Keys == s.calls.Keys - {i};
    assert |s.calls.Keys| == |s.calls|;
  }

  /** A cleaning that saw everything left only items of other Gets in progress. */
  lemma SeenAll(s: State, c: Cleaner, live: set<Id>)
    requires InvCleaner(s) && s.cleaner == Some(c) && c.next + 1 == |c.order|
    requires live <= s.live && (c.order[c.next] in live ==> c.order[c.next] in s.calls && c.order[c.next] != c.call)
    ensures |live| <= |s.calls| - 1
  {
    FewerCalls(s, c.call);
    assert live <= (s.calls - {c.call}).Keys;
    SubsetSize(live, (s.calls - {c.call}).Keys);
    assert |(s.calls - {c.call}).Keys| == |s.calls - {c.call}|;
  }

  /** Leaving an item behind that cannot be evicted. */
  lemma LookKeepsSize(cfg: Config, s: State)
    requires cfg.capacity > 0 && cfg.ratio > 0.0 && Limit(cfg) >= 0
    requires Inv(cfg, s) && InvSize(cfg, s) && Cleaning(s)
    ensures InvSize(cfg, Look(cfg, s))
  {
    hide Limit, Quota, Evictable, InvItems, InvRunning, InvVisits, InvPicked;
    var c := s.cleaner.value;
    QuotaPositive(cfg);
    FewerCalls(s, c.call);
    if !Evictable(cfg, InfoOf(s, Current(s))) {
      KeptIsAwaited(cfg, s, Current(s));
      if c.next + 1 == |c.order| {
        SeenAll(s, c, s.live);
      }
    }
  }

  lemma TakeKeepsSize(cfg: Config, s: State)
    requires cfg.capacity > 0 && cfg.ratio > 0.0 && Limit(cfg) >= 0
    requires Inv(cfg, s) && InvSize(cfg, s) && Cleaning(s)
    ensures InvSize(cfg, Take(cfg, s))
  {
    hide Limit, Quota, InvItems, InvRunning, InvVisits, InvPicked;
    var c := s.cleaner.value;
    QuotaPositive(cfg);
    FewerCalls(s, c.call);
    if c.next + 1 == |c.order| {
      SeenAll(s, c, s.live - {Current(s)});
    }
  }

  lemma RemoveShrinks(cfg: Config, s: State, i: Id)
    requires Enabled(s, Remove(i))
    ensures |Apply(cfg, s, Remove(i)).live| <= |s.live|
  {
    SubsetSize(Apply(cfg, s, Remove(i)).live, s.live);
  }

  lemma PassKeepsCalls(s: State, i: Id)
    requires i in s.calls
    ensures |s.calls[i := true]| == |s.calls|
  {
    assert s.calls[i := true].Keys == s.calls.Keys;
    SameSize(s.calls[i := true], s.calls);
  }

  /** A cleaning that does not start finds no more than the limit, or the map empty. */
  lemma StartKeepsSize(cfg: Config, s: State, i: Id, order: seq<Id>)
    requires cfg.capacity > 0 && Limit(cfg) >= 0 && InvSize(cfg, s) && Enabled(s, CleanStart(i, order))
    ensures InvSize(cfg, Apply(cfg, s, CleanStart(i, order)))
  {
    hide Limit;
    FewerCalls(s, i);
    if order == [] {
      assert s.live == {};
    }
  }

  lemma KeepsSize(cfg: Config, s: State, e: Event)
    requires cfg.capacity > 0 && cfg.ratio > 0.0 && Limit(cfg) >= 0
    requires Inv(cfg, s) && InvSize(cfg, s) && Enabled(s, e)
    ensures InvSize(cfg, Apply(cfg, s, e))
  {
    hide Limit, Look, Take, InvRunning, InvVisits, InvCleaner, InvPicked;
    match e
    case Make(i, key, _) =>
      assert i !in s.calls;
    case Pass(i) =>
      PassKeepsCalls(s, i);
    case Remove(i) =>
      RemoveShrinks(cfg, s, i);
    case CleanStart(i, order) =>
      StartKeepsSize(cfg, s, i, order);
    case CleanLook =>
      LookKeepsSize(cfg, s);
    case CleanTake =>
      TakeKeepsSize(cfg, s);
    case _ =>
  }

  lemma {:induction false} AlwaysInv(cfg: Config, es: seq<Event>)
    requires Run(cfg, es)
    ensures Inv(cfg, After(cfg, es))
  {
    hide Enabled, Apply, InvItems, InvLive, InvRunning, InvVisits, InvCleaner, InvPicked;
    if es == [] {
      InitInv(cfg);
    } else {
      var before, e := es[..|es| - 1], es[|es| - 1];
      AlwaysInv(cfg, before);
      KeepsItems(cfg, After(cfg, before), e);
      KeepsLive(cfg, After(cfg, before), e);
      KeepsRunning(cfg, After(cfg, before), e);
      KeepsVisits(cfg, After(cfg, before), e);
      KeepsCleaner(cfg, After(cfg, before), e);
      KeepsPicked(cfg, After(cfg, before), e);
    }
  }

  lemma InitInv(cfg: Config)
    ensures Inv(cfg, Init())
  {
  }

  lemma LimitNotNegative(cfg: Config)
    requires cfg.threshold > 0.0
    ensures Limit(cfg) >= 0
  {
    assert cfg.threshold * cfg.capacity as real >= 0.0;
  }

  lemma {:induction false} AlwaysSize(cfg: Config, es: seq<Event>)
    requires cfg.capacity > 0 && cfg.threshold > 0.0 && cfg.ratio > 0.0 && Run(cfg, es)
    ensures |After(cfg, es).live| + Gone(After(cfg, es)) <= Limit(cfg) + |After(cfg, es).calls|
  {
    hide Enabled, Apply, Limit, Inv;
    LimitNotNegative(cfg);
    if es != [] {
      var before, e := es[..|es| - 1], es[|es| - 1];
      AlwaysSize(cfg, before);
      AlwaysInv(cfg, before);
      KeepsSize(cfg, After(cfg, before), e);
    }
  }

  /** At every moment, in the middle of a cleaning too, the items are, but for one, fewer than the
      threshold of the capacity and one more for each creating Get in progress; a cleaning has then
      made room for as many as it took. */
  lemma SizeBound(cfg: Config, es: seq<Event>)
    requires cfg.capacity > 0 && cfg.threshold > 0.0 && cfg.ratio > 0.0 && Run(cfg, es)
    ensures var s := After(cfg, es);
      var gone := if s.cleaner.Some? then s.cleaner.value.gone else 0;
      (|s.live| + gone - |s.calls| - 1) as real < cfg.threshold * cfg.capacity as real
  {
    hide Limit, Run, After;
    AlwaysSize(cfg, es);
    var s := After(cfg, es);
    LimitIs(cfg, |s.live| + Gone(s) - |s.calls|);
  }

  /** Calls that do not overlap never leave more than the threshold. */
  lemma QuietBound(cfg: Config, es: seq<Event>)
    requires cfg.capacity > 0 && cfg.threshold > 0.0 && cfg.ratio > 0.0 && Run(cfg, es)
    requires After(cfg, es).calls == map[]
    ensures (|After(cfg, es).live| - 1) as real < cfg.threshold * cfg.capacity as real
  {
    hide Limit, Run, After;
    SizeBound(cfg, es);
  }

  /** A cleaning looked at an item of the map when no caller was computing it and it had been
      computed, unless the cleaning may take it anyway. */
  ghost predicate SeenIdle(cfg: Config, es: seq<Event>, n: nat, v: Id) {
    && n < |es| && es[n] == CleanLook && Run(cfg, es[..n])
    && var s := After(cfg, es[..n]);
    && v in s.live && v !in s.running && (v in s.inited || cfg.evictNotInited)
    && forall c :: c in s.computing && s.computing[c].item == v ==> v in s.inited
  }

  /** A caller is inside the function of an item that was never computed. */
  ghost predicate ComputedFirst(s: State, v: Id) {
    v !in s.inited && exists c :: c in s.computing && s.computing[c] == Visit(v, true)
  }

  /** A pick is made by looking, or was there before. */
  lemma PickedBy(cfg: Config, s: State, e: Event)
    requires Enabled(s, e) && InvCleaner(s)
    requires var t := Apply(cfg, s, e); Cleaning(t) && t.cleaner.value.picked.Some?
    ensures Cleaning(s) && Current(Apply(cfg, s, e)) == Current(s)
    ensures e == CleanLook || s.cleaner.value.picked.Some?
    ensures e == CleanLook ==> Evictable(cfg, InfoOf(s, Current(s)))
  {
    hide Evictable, Limit, Quota;
  }

  lemma LookSeesIdle(cfg: Config, es: seq<Event>, n: nat)
    requires n < |es| && es[n] == CleanLook && Run(cfg, es[..n])
    requires Inv(cfg, After(cfg, es[..n])) && Cleaning(After(cfg, es[..n]))
    requires Evictable(cfg, InfoOf(After(cfg, es[..n]), Current(After(cfg, es[..n]))))
    ensures SeenIdle(cfg, es, n, Current(After(cfg, es[..n])))
  {
    hide Run, After, InvItems, InvLive, InvVisits, InvPicked;
  }

  lemma SeenBefore(cfg: Config, before: seq<Event>, es: seq<Event>, v: Id)
    requires es != [] && before == es[..|es| - 1] && exists n: nat :: SeenIdle(cfg, before, n, v)
    ensures exists n: nat :: SeenIdle(cfg, es, n, v)
  {
    hide Run, After;
    var n: nat :| SeenIdle(cfg, before, n, v);
    assert es[..n] == before[..n];
    assert SeenIdle(cfg, es, n, v);
  }

  lemma {:induction false} PickedWasIdle(cfg: Config, es: seq<Event>)
    requires Run(cfg, es) && Cleaning(After(cfg, es)) && After(cfg, es).cleaner.value.picked.Some?
    ensures exists n: nat :: SeenIdle(cfg, es, n, Current(After(cfg, es)))
  {
    hide Enabled, Apply, SeenIdle, InvItems, InvLive, InvRunning, InvVisits, InvPicked, InvCleaner, Evictable;
    var before, e := es[..|es| - 1], es[|es| - 1];
    AlwaysInv(cfg, before);
    PickedBy(cfg, After(cfg, before), e);
    if e == CleanLook {
      LookSeesIdle(cfg, es, |es| - 1);
    } else {
      PickedWasIdle(cfg, before);
      SeenBefore(cfg, before, es, Current(After(cfg, es)));
    }
  }

  /** While a cleaning goes on nothing leaves the map but what it takes, and what it takes it had found
      idle. Nobody computes that for the first time if it was computed when the cleaning looked at it,
      as it always was unless cleaning may take other items too. */
  lemma SparesTheUnfinished(cfg: Config, es: seq<Event>, e: Event, v: Id)
    requires Run(cfg, es) && Enabled(After(cfg, es), e) && Cleaning(After(cfg, es))
    requires v in After(cfg, es).live && v !in Apply(cfg, After(cfg, es), e).live
    ensures e == CleanTake && v == Current(After(cfg, es))
    ensures exists n: nat :: SeenIdle(cfg, es, n, v)
    ensures !cfg.evictNotInited || After(cfg, es).cleaner.value.picked.value.inited ==> !ComputedFirst(After(cfg, es), v)
  {
    hide Run, After, Limit, Quota, InvItems, InvLive, InvRunning, InvVisits, InvCleaner, SeenIdle;
    AlwaysInv(cfg, es);
    PickedWasIdle(cfg, es);
  }

  lemma OneMore(cfg: Config, es: seq<Event>, e: Event)
    requires Run(cfg, es) && Enabled(After(cfg, es), e)
    ensures Run(cfg, es + [e]) && After(cfg, es + [e]) == Apply(cfg, After(cfg, es), e)
  {
    hide Enabled, Apply;
    assert (es + [e])[..|es|] == es;
  }

  /** From every reachable state in which the cleaning has decided on an item that was never computed,
      its creator can get inside the function before the cleaning takes it. */
  lemma TakenWhileComputed(cfg: Config, es: seq<Event>, now: real) returns (more: seq<Event>)
    requires Run(cfg, es) && Cleaning(After(cfg, es)) && After(cfg, es).cleaner.value.picked.Some?
    requires Current(After(cfg, es)) !in After(cfg, es).inited
    ensures Run(cfg, es + more) && Enabled(After(cfg, es + more), CleanTake)
    ensures var v, s := Current(After(cfg, es)), After(cfg, es + more);
      ComputedFirst(s, v) && v in s.live && v !in Apply(cfg, s, CleanTake).live
  {
    hide Run, After, Limit, Quota;
    var s, v := After(cfg, es), Current(After(cfg, es));
    AlwaysInv(cfg, es);
    if Creator(v) in s.computing {
      more := [];
      assert es + [] == es;
      assert s.computing[Creator(v)] == Visit(v, true);
    } else {
      var e := Enter(Creator(v), v, now);
      OneMore(cfg, es, e);
      more := [e];
      assert Apply(cfg, s, e).computing[Creator(v)] == Visit(v, true);
    }
  }

  lemma StaysCancelled(cfg: Config, s: State, e: Event)
    requires Enabled(s, e)
    ensures s.cancelled <= Apply(cfg, s, e).cancelled
    ensures forall i :: e == Remove(i) || (e == CleanTake && i == Current(s)) ==> i in Apply(cfg, s, e).cancelled
  {
    hide Evictable, Limit, Quota;
  }

  lemma CancelledIsGone(cfg: Config, s: State, c: Caller, i: Id, time: real)
    requires Inv(cfg, s) && i in s.cancelled
    ensures i !in s.live
    ensures Enabled(s, Enter(c, i, time)) ==> (
      c in Apply(cfg, s, Enter(c, i, time)).computing && Apply(cfg, s, Enter(c, i, time)).computing[c] == Visit(i, false))
  {
  }

  /** An item that was dropped, expired or taken by a cleaning never comes back into the map, and
      whoever starts to compute it from then on does not call its function. */
  lemma {:induction false} GoneForGood(cfg: Config, es: seq<Event>, n: nat, i: Id)
    requires Run(cfg, es) && n < |es| && Run(cfg, es[..n])
    requires var s := After(cfg, es[..n]); es[n] == Remove(i) || (es[n] == CleanTake && Cleaning(s) && i == Current(s))
    ensures i in After(cfg, es).cancelled && i !in After(cfg, es).live
    ensures forall c, time :: Enabled(After(cfg, es), Enter(c, i, time)) ==> (
      var t := Apply(cfg, After(cfg, es), Enter(c, i, time)); c in t.computing && t.computing[c] == Visit(i, false))
  {
    hide Enabled, Apply, Inv;
    var before := es[..|es| - 1];
    if n == |es| - 1 {
      assert es[..n] == before;
    } else {
      assert es[..n] == before[..n];
      GoneForGood(cfg, before, n, i);
    }
    StaysCancelled(cfg, After(cfg, before), es[|es| - 1]);
    AlwaysInv(cfg, es);
    CancelledIsGone(cfg, After(cfg, es), Creator(i), i, 0.0);
    forall c, time
      ensures Enabled(After(cfg, es), Enter(c, i, time)) ==> (
        var t := Apply(cfg, After(cfg, es), Enter(c, i, time)); c in t.computing && t.computing[c] == Visit(i, false))
    {
      CancelledIsGone(cfg, After(cfg, es), c, i, time);
    }
  }

  /** The map holds one item per key. */
  lemma OneItemPerKey(cfg: Config, es: seq<Event>, i: Id, j: Id)
    requires Run(cfg, es) && i in After(cfg, es).live && j in After(cfg, es).live
    requires var keys := After(cfg, es).keys; i in keys && j in keys && keys[i] == keys[j]
    ensures i == j
  {
    hide Apply, Enabled, Run, After;
    AlwaysInv(cfg, es);
  }

  // ---------- a cleaning that nobody disturbs ----------

  /** The next step of a cleaning. */
  function Step(cfg: Config, s: State): State
    requires Cleaning(s)
  {
    if s.cleaner.value.picked.None? then Look(cfg, s) else Take(cfg, s)
  }

  /** How many steps a cleaning has left at most. */
  function StepsLeft(s: State): nat {
    if !Cleaning(s) then 0
    else 2 * (|s.cleaner.value.order| - s.cleaner.value.next) - if s.cleaner.value.picked.Some? then 1 else 0
  }

  lemma StepsShrink(cfg: Config, s: State)
    requires Cleaning(s)
    ensures StepsLeft(Step(cfg, s)) < StepsLeft(s)
  {
  }

  /** The state when the cleaning is through, its steps one after the other. */
  ghost function Finished(cfg: Config, s: State): State
    decreases StepsLeft(s)
  {
    if !Cleaning(s) then s else
    StepsShrink(cfg, s);
    Finished(cfg, Step(cfg, s))
  }

  /** How far such a cleaning is: it took the evictable ones among the items it is done with, of those
      that were in the map when it began. */
  ghost predicate Midway(cfg: Config, before: State, s: State) {
    var m := Snapshot(before);
    && s.la == before.la && s.inited == before.inited && s.running == before.running
    && match s.cleaner
       case None => Evicts(cfg, m, before.live - s.live) && s.live <= before.live
       case Some(c) =>
         && ByAccess(m, c.order) && c.next < |c.order| && c.gone < Quota(cfg)
         && c.gone == |Chosen(cfg, m, c.order[..c.next])|
         && s.live == before.live - Chosen(cfg, m, c.order[..c.next])
         && (c.picked.Some? ==> Evictable(cfg, InfoOf(s, c.order[c.next])))
  }

  /** What a cleaning midway will have taken when it is done with one more item. */
  lemma ChosenNext(cfg: Config, before: State, s: State)
    requires Midway(cfg, before, s) && Cleaning(s)
    ensures var c, v := s.cleaner.value, Current(s);
      var chosen := Chosen(cfg, Snapshot(before), c.order[..c.next + 1]);
      && chosen <= before.live
      && |chosen| == c.gone + (if Evictable(cfg, InfoOf(s, v)) then 1 else 0)
      && before.live - chosen == if Evictable(cfg, InfoOf(s, v)) then s.live - {v} else s.live
  {
    hide Evictable, Evicts, Quota, Chosen, ByAccess;
    var m, order, n := Snapshot(before), s.cleaner.value.order, s.cleaner.value.next;
    ChosenGrows(cfg, m, order, n);
    ChosenInside(cfg, m, order, n + 1);
    Listed(m, order, n);
    assert m[order[n]] == InfoOf(s, order[n]);
  }

  /** A cleaning that is done with one more item is midway still, or it ended right. */
  lemma DoneGoesOn(cfg: Config, before: State, s: State, c: Cleaner)
    requires cfg.capacity != 0 && |before.live| > Limit(cfg)
    requires s.la == before.la && s.inited == before.inited && s.running == before.running
    requires ByAccess(Snapshot(before), c.order) && c.next < |c.order| && c.gone <= Quota(cfg)
    requires var chosen := Chosen(cfg, Snapshot(before), c.order[..c.next + 1]);
      chosen <= before.live && c.gone == |chosen| && s.live == before.live - chosen
    ensures Midway(cfg, before, GoOn(cfg, s, c))
  {
    hide Evictable, Evicts, Limit, Quota, Chosen, ByAccess, Snapshot, InfoOf;
    if c.gone >= Quota(cfg) || c.next + 1 == |c.order| {
      EndsRight(cfg, before, c.order, c.next + 1);
    }
  }

  lemma StepGoesOn(cfg: Config, before: State, s: State)
    requires cfg.capacity != 0 && |before.live| > Limit(cfg)
    requires Midway(cfg, before, s) && Cleaning(s)
    ensures Midway(cfg, before, Step(cfg, s))
  {
    hide Evictable, Evicts, Limit, Quota, Chosen, ByAccess, Snapshot, InfoOf, GoOn;
    ChosenNext(cfg, before, s);
    var c, v := s.cleaner.value, Current(s);
    if c.picked.Some? {
      DoneGoesOn(cfg, before, s.(live := s.live - {v}, cancelled := s.cancelled + {v}), c.(gone := c.gone + 1));
    } else if Evictable(cfg, InfoOf(s, v)) {
      SameInfo(s, Look(cfg, s), v);
    } else {
      DoneGoesOn(cfg, before, s, c);
    }
  }

  lemma SameInfo(s: State, t: State, i: Id)
    requires s.la == t.la && s.inited == t.inited && s.running == t.running
    ensures InfoOf(s, i) == InfoOf(t, i)
  {
  }

  lemma EndsRight(cfg: Config, before: State, order: seq<Id>, n: nat)
    requires cfg.capacity != 0 && |before.live| > Limit(cfg)
    requires ByAccess(Snapshot(before), order) && n <= |order|
    requires var k := |Chosen(cfg, Snapshot(before), order[..n])|; k <= Quota(cfg) && (n == |order| || k == Quota(cfg))
    requires Chosen(cfg, Snapshot(before), order[..n]) <= before.live
    ensures var after := before.live - Chosen(cfg, Snapshot(before), order[..n]);
      Evicts(cfg, Snapshot(before), before.live - after)
  {
    hide Evictable, Evicts, Limit, Quota, Chosen, ByAccess, InfoOf;
    var m := Snapshot(before);
    var chosen := Chosen(cfg, m, order[..n]);
    assert m.Keys == before.live && |m| == |m.Keys|;
    PrefixEvicts(cfg, m, order, n);
    assert before.live - (before.live - chosen) == chosen;
  }

  lemma Listed(m: map<Id, Info>, order: seq<Id>, n: nat)
    requires ByAccess(m, order) && n < |order|
    ensures order[n] in m
  {
  }

  lemma ChosenInside(cfg: Config, m: map<Id, Info>, order: seq<Id>, n: nat)
    requires ByAccess(m, order) && n <= |order|
    ensures Chosen(cfg, m, order[..n]) <= m.Keys
  {
    ChosenAre(cfg, m, order[..n]);
  }

  lemma {:induction false} GoesOn(cfg: Config, before: State, s: State)
    requires cfg.capacity != 0 && |before.live| > Limit(cfg) && Midway(cfg, before, s)
    ensures Midway(cfg, before, Finished(cfg, s)) && Finished(cfg, s).cleaner.None?
    decreases StepsLeft(s)
  {
    hide Limit, Step, Evicts, ByAccess, Chosen, StepsLeft;
    if Cleaning(s) {
      StepsShrink(cfg, s);
      StepGoesOn(cfg, before, s);
      GoesOn(cfg, before, Step(cfg, s));
    }
  }

  lemma NothingThere(cfg: Config, m: map<Id, Info>)
    requires m.Keys == {} && Quota(cfg) >= 0
    ensures Evicts(cfg, m, {})
  {
    assert Candidates(cfg, m) == {};
  }

  lemma NothingListed(order: seq<Id>, live: set<Id>)
    requires Lists(order, live) && order == []
    ensures live == {}
  {
  }

  /** Where a cleaning finds nothing to do. */
  lemma NothingToDo(cfg: Config, s: State, order: seq<Id>)
    requires (cfg.capacity > 0 ==> Quota(cfg) >= 0) && Lists(order, s.live)
    requires cfg.capacity == 0 || |s.live| <= Limit(cfg) || order == []
    ensures Evicts(cfg, Snapshot(s), s.live - s.live)
  {
    hide Evictable, Limit, Quota;
    var m := Snapshot(s);
    assert m.Keys == s.live && |m| == |m.Keys|;
    assert s.live - s.live == {};
    if cfg.capacity > 0 && order == [] {
      NothingListed(order, s.live);
      NothingThere(cfg, m);
    }
  }

  lemma BeginsMidway(cfg: Config, s: State, started: State, i: Id, order: seq<Id>)
    requires order != [] && Quota(cfg) >= 1 && ByAccess(Snapshot(s), order)
    requires started == s.(cleaner := Some(Cleaner(i, order, 0, 0, None)))
    ensures Midway(cfg, s, started)
  {
    hide Evictable, Quota, ByAccess;
    NoneChosen(cfg, Snapshot(s), order);
    assert s.live - {} == s.live;
  }

  /** A cleaning that goes by the order of access, with no step of another call between its own, is
      the exact eviction that whole calls do. */
  lemma UndisturbedCleaning(cfg: Config, s: State, i: Id, order: seq<Id>)
    requires cfg.ratio > 0.0 && Enabled(s, CleanStart(i, order)) && ByAccess(Snapshot(s), order)
    ensures var after := Finished(cfg, Apply(cfg, s, CleanStart(i, order)));
      after.cleaner.None? && after.live <= s.live && Evicts(cfg, Snapshot(s), s.live - after.live)
  {
    hide Limit, Quota, Look, Take, ByAccess, Lists, Evicts;
    if cfg.capacity == 0 {
      NothingToDo(cfg, s, order);
    } else {
      QuotaPositive(cfg);
      if |s.live| <= Limit(cfg) || order == [] {
        NothingToDo(cfg, s, order);
      } else {
        var started := Apply(cfg, s, CleanStart(i, order));
        BeginsMidway(cfg, s, started, i, order);
        GoesOn(cfg, s, started);
      }
    }
  }
}
