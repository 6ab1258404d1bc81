/** What callers of the cache do to each other: an item is computed by as many callers as come before the
    first result, and an item that expires late takes away a newer one of its key. */
module LazyRaces {
  import opened LazyCache
  import opened LazyProtocol
  import opened Options

  // ---------- last access ----------

  /** The event makes item i, looks at it or touches it, at that time. */
  predicate Accesses(e: Event, i: Id, time: real) {
    match e
    case Make(j, _, t) => j == i && t == time
    case Enter(_, j, t) => j == i && t == time
    case Touch(j, t) => j == i && t == time
    case _ => false
  }

  lemma AccessStays(cfg: Config, s: State, e: Event, i: Id)
    requires Enabled(s, e) && i in s.la
    ensures i in Apply(cfg, s, e).la
    ensures (forall time :: !Accesses(e, i, time)) ==> Apply(cfg, s, e).la[i] == s.la[i]
    ensures forall time :: Accesses(e, i, time) ==> Apply(cfg, s, e).la[i] == time
  {
    hide Evictable, Limit, Quota;
    if e.Make? {
      assert Accesses(e, e.i, e.time);
    } else if e.Enter? {
      assert Accesses(e, e.i, e.time);
    } else if e.Touch? {
      assert Accesses(e, e.i, e.time);
    }
  }

  lemma AccessTold(cfg: Config, s: State, e: Event, i: Id, time: real)
    requires Enabled(s, e) && Accesses(e, i, time)
    ensures i in Apply(cfg, s, e).la && Apply(cfg, s, e).la[i] == time
  {
    hide Evictable, Limit, Quota;
  }

  /** The time that a cleaning goes by is that of the last event that made, computed or touched the item. */
  lemma {:induction false} LastAccess(cfg: Config, es: seq<Event>, n: nat, i: Id, time: real)
    requires Run(cfg, es) && n < |es| && Accesses(es[n], i, time)
    requires forall k, t :: n < k < |es| ==> !Accesses(es[k], i, t)
    ensures i in After(cfg, es).la && After(cfg, es).la[i] == time
  {
    hide Enabled, Apply, Accesses;
    var before := es[..|es| - 1];
    if n == |es| - 1 {
      AccessTold(cfg, After(cfg, before), es[n], i, time);
    } else {
      LastAccess(cfg, before, n, i, time);
      AccessStays(cfg, After(cfg, before), es[|es| - 1], i);
    }
  }

  // ---------- one item, many computations ----------

  /** While the creator of an item is inside its function, every other caller that comes calls it too. */
  lemma ComputedByMany(cfg: Config, es: seq<Event>, i: Id, n: nat, time: real)
    requires Run(cfg, es)
    requires var s := After(cfg, es);
      && Creator(i) in s.computing && s.computing[Creator(i)] == Visit(i, true)
      && i !in s.inited && i !in s.cancelled && Finder(n) !in s.computing
    ensures Enabled(After(cfg, es), Enter(Finder(n), i, time))
    ensures var t := Apply(cfg, After(cfg, es), Enter(Finder(n), i, time));
      && Finder(n) in t.computing && t.computing[Finder(n)] == Visit(i, true)
      && Creator(i) in t.computing && t.computing[Creator(i)] == Visit(i, true)
  {
    hide Run, After, InvLive, InvRunning, InvCleaner, InvPicked;
    AlwaysInv(cfg, es);
  }

  /** The first of them to return settles the item: from then on nobody starts to compute it. */
  lemma {:induction false} SettledOnce(cfg: Config, es: seq<Event>, n: nat, i: Id)
    requires Run(cfg, es) && n < |es| && Run(cfg, es[..n]) && es[n].Leave?
    requires es[n].c in After(cfg, es[..n]).computing && After(cfg, es[..n]).computing[es[n].c].item == i
    ensures i in After(cfg, es).inited
    ensures forall c, time :: !Enabled(After(cfg, es), Enter(c, i, time))
  {
    hide Apply;
    var before := es[..|es| - 1];
    if n == |es| - 1 {
      assert es[..n] == before;
    } else {
      assert es[..n] == before[..n];
      SettledOnce(cfg, before, n, i);
    }
    InitedStays(cfg, After(cfg, before), es[|es| - 1]);
  }

  lemma InitedStays(cfg: Config, s: State, e: Event)
    requires Enabled(s, e)
    ensures s.inited <= Apply(cfg, s, e).inited
    ensures e.Leave? ==> s.computing[e.c].item in Apply(cfg, s, e).inited
  {
    hide Evictable, Limit, Quota;
  }

  // ---------- late expiry ----------

  /** What is dropped, or expires, takes with it whatever the map has under its key then. An item that goes
      for another one's sake is not cancelled. */
  lemma TakesTheKey(cfg: Config, es: seq<Event>, i: Id, j: Id)
    requires Run(cfg, es) && Enabled(After(cfg, es), Remove(i)) && j in After(cfg, es).live
    ensures var s, t := After(cfg, es), Apply(cfg, After(cfg, es), Remove(i));
      && i in s.keys && j in s.keys
      && (j in t.live <==> s.keys[j] != s.keys[i])
      && (j in t.cancelled <==> j == i)
  {
    hide Run, After, InvRunning, InvVisits, InvCleaner, InvPicked;
    AlwaysInv(cfg, es);
  }

  /** It happens: the timer of an item has run out when the item is dropped and its key is used again. */
  lemma LateExpiry(cfg: Config, key: string, t0: real, t1: real) returns (es: seq<Event>)
    ensures Run(cfg, es) && Enabled(After(cfg, es), Remove(0))
    ensures 1 in After(cfg, es).live
    ensures var t := Apply(cfg, After(cfg, es), Remove(0)); 1 !in t.live && 1 !in t.cancelled
  {
    hide Run, After;
    NothingYet(cfg);
    es := [];
    OneMore(cfg, es, Make(0, key, t0));
    es := es + [Make(0, key, t0)];
    OneMore(cfg, es, Remove(0));
    es := es + [Remove(0)];
    OneMore(cfg, es, Make(1, key, t1));
    es := es + [Make(1, key, t1)];
    TakesTheKey(cfg, es, 0, 1);
  }

  lemma NothingYet(cfg: Config)
    ensures Run(cfg, []) && After(cfg, []) == Init()
  {
  }
}
