/** A concurrent cache that computes its items on first use and evicts the least recently used
    ones. Evicts says what one cleaning may remove; the class does it, and the protocol uses it
    with any number of calls in progress. */
module LazyCache {
  import opened Collections
  import opened Numbers
  import opened Options

  /** The outcome of computing an item; Evicted stands for a cancelled one. The cache never looks
      into a value, so it is just a number here. */
  datatype Outcome = Value(value: int) | Failure | Evicted

  datatype Config = Config(capacity: nat, threshold: real, ratio: real, evictNotInited: bool)

  /** What cleaning looks at: last access, whether computed, whether being computed. */
  datatype Info = Info(la: real, inited: bool, running: bool)

  function Ceil(x: real): (n: int)
    ensures x <= n as real < x + 1.0
  {
    -(-x).Floor
  }

  function Limit(cfg: Config): int {
    Ceil(cfg.threshold * cfg.capacity as real)
  }

  function Quota(cfg: Config): int {
    Ceil(cfg.ratio * cfg.capacity as real)
  }

  lemma QuotaPositive(cfg: Config)
    requires cfg.ratio > 0.0 && cfg.capacity > 0
    ensures Quota(cfg) >= 1
  {
    assert cfg.ratio * cfg.capacity as real > 0.0;
  }

  predicate Evictable(cfg: Config, i: Info) {
    !i.running && (i.inited || cfg.evictNotInited)
  }

  ghost function Candidates<K>(cfg: Config, m: map<K, Info>): set<K> {
    set k | k in m && Evictable(cfg, m[k])
  }

  /** Above the limit, cleaning removes as many evictable items as the quota asks for, or all of
      them, and none that was used later than an evictable one it keeps. */
  ghost predicate Evicts<K>(cfg: Config, m: map<K, Info>, victims: set<K>) {
    if cfg.capacity == 0 || |m| <= Limit(cfg) then victims == {} else
    && victims <= Candidates(cfg, m)
    && |victims| == Min(Quota(cfg), |Candidates(cfg, m)|)
    && forall v <- victims, k <- Candidates(cfg, m) - victims :: m[v].la <= m[k].la
  }

  /** The limit and the quota are the least whole numbers that reach the threshold and the ratio of
      the capacity. */
  lemma LimitIs(cfg: Config, n: int)
    ensures n <= Limit(cfg) <==> (n - 1) as real < cfg.threshold * cfg.capacity as real
    ensures n <= Quota(cfg) <==> (n - 1) as real < cfg.ratio * cfg.capacity as real
  {
  }

  lemma CandidatesAre<K>(cfg: Config, m: map<K, Info>)
    ensures Candidates(cfg, m) <= m.Keys
    ensures forall k <- m :: k in Candidates(cfg, m) <==> !m[k].running && (m[k].inited || cfg.evictNotInited)
  {
  }

  /** Exactly what cleaning may remove: nothing without a capacity or while the items but one are fewer
      than the threshold; else items that nobody computes and that are computed, unless others may go
      too, fewer than the ratio of the capacity but for one, and, if another such item stays, at least
      that many and none used later. */
  lemma EvictsExactly<K>(cfg: Config, m: map<K, Info>, victims: set<K>)
    requires cfg.ratio > 0.0
    ensures Evicts(cfg, m, victims) <==>
      if cfg.capacity == 0 || (|m| - 1) as real < cfg.threshold * cfg.capacity as real then victims == {} else
      && victims <= m.Keys
      && (forall v <- victims :: !m[v].running && (m[v].inited || cfg.evictNotInited))
      && (|victims| - 1) as real < cfg.ratio * cfg.capacity as real
      && forall k <- m.Keys - victims | !m[k].running && (m[k].inited || cfg.evictNotInited) ::
           |victims| as real >= cfg.ratio * cfg.capacity as real && forall v <- victims :: m[v].la <= m[k].la
  {
    hide Limit, Quota, Candidates, Evictable;
    LimitIs(cfg, |m|);
    LimitIs(cfg, |victims|);
    LimitIs(cfg, |victims| + 1);
    CandidatesAre(cfg, m);
    if cfg.capacity > 0 {
      QuotaPositive(cfg);
    }
    var all := Candidates(cfg, m);
    if victims <= all {
      SubsetSize(victims, all);
      assert |all - victims| == |all| - |victims|;
      if k :| k in all - victims {
        assert |all - victims| > 0;
      }
    }
  }

  // ---------- the cache ----------

  class Item {
    const key: string
    var outcome: Option<Outcome>
    var la: real
    var inited: bool
    var running: bool
    var cancel: bool

    constructor (key: string, now: real)
      ensures this.key == key && View() == Info(now, false, false) && !cancel && outcome == None
    {
      this.key, outcome := key, None;
      la, inited, running, cancel := now, false, false, false;
    }

    function View(): Info
      reads this`la, this`inited, this`running
    {
      Info(la, inited, running)
    }

    predicate Settled()
      reads this
    {
      inited && !running && outcome.Some?
    }

    method Touch(now: real)
      modifies this`la
      ensures la == now
    {
      la := now;
    }

    method Cancel()
      modifies this`cancel
      ensures cancel
    {
      cancel := true;
    }

    /** The first lock section of Get; an item that has to be computed is running from now on. */
    method Begin(now: real) returns (known: bool)
      modifies this`la, this`running
      ensures la == now && known == inited && running == (old(running) || !inited)
    {
      la := now;
      if inited {
        return true;
      }
      running := true;
      known := false;
    }

    /** The second lock section of Get. */
    method Finish(o: Outcome)
      modifies this`outcome, this`inited, this`running
      ensures outcome == Some(o) && inited && !running
    {
      outcome, inited, running := Some(o), true, false;
    }

    /** A whole Get; `computed` is what the function would return. */
    method Get(computed: Outcome, now: real) returns (o: Outcome)
      requires inited ==> outcome.Some?
      modifies this`la, this`running, this`outcome, this`inited
      ensures outcome == Some(o) && inited && la == now
      ensures running == (old(running) && old(inited))
      ensures o == if old(inited) then old(outcome).value else if cancel then Evicted else computed
    {
      var known := Begin(now);
      if known {
        return outcome.value;
      }
      o := if cancel then Evicted else computed;
      Finish(o);
    }
  }

  /** Items in the order of their last access. */
  ghost predicate Sorted(t: seq<Item>)
    reads t
  {
    forall i, j :: 0 <= i < j < |t| ==> t[i].la <= t[j].la
  }

  method Insert(t: seq<Item>, x: Item) returns (r: seq<Item>)
    requires Sorted(t)
    ensures Sorted(r) && multiset(r) == multiset(t) + multiset{x}
  {
    var i := |t|;
    while i > 0 && x.la < t[i - 1].la
      invariant 0 <= i <= |t|
      invariant forall j :: i <= j < |t| ==> x.la <= t[j].la
    {
      i := i - 1;
    }
    r := t[..i] + [x] + t[i..];
    InsertedOnce(t, i, x);
    forall k | 0 <= k < |r|
      ensures r[k] == Shifted(t, i, x, k)
    {
      ShiftedAt(t, i, x, k);
    }
    InsertedAt(t, i, x, r);
  }

  /** What stands at position k after x was put in at position i. */
  function Shifted(t: seq<Item>, i: nat, x: Item, k: nat): Item
    requires i <= |t| && k <= |t|
  {
    if k < i then t[k] else if k == i then x else t[k - 1]
  }

  lemma ShiftedAt(t: seq<Item>, i: nat, x: Item, k: nat)
    requires i <= |t| && k <= |t|
    ensures (t[..i] + [x] + t[i..])[k] == Shifted(t, i, x, k)
  {
  }

  lemma InsertedOnce(t: seq<Item>, i: nat, x: Item)
    requires i <= |t|
    ensures multiset(t[..i] + [x] + t[i..]) == multiset(t) + multiset{x}
  {
    assert t == t[..i] + t[i..];
  }

  lemma InsertedAt(t: seq<Item>, i: nat, x: Item, r: seq<Item>)
    requires Sorted(t) && i <= |t| && (forall j :: i <= j < |t| ==> x.la <= t[j].la)
    requires i > 0 ==> t[i - 1].la <= x.la
    requires |r| == |t| + 1 && forall k :: 0 <= k < |r| ==> r[k] == Shifted(t, i, x, k)
    ensures Sorted(r)
  {
  }

  method SortByAccess(t: seq<Item>) returns (r: seq<Item>)
    ensures Sorted(r) && multiset(r) == multiset(t)
  {
    r := [];
    for n := 0 to |t|
      invariant Sorted(r) && multiset(r) == multiset(t[..n])
    {
      r := Insert(r, t[n]);
      assert t[..n + 1] == t[..n] + [t[n]];
    }
    assert t[..|t|] == t;
  }

  // ---------- cleaning ----------

  lemma PermutedMembers<X>(a: seq<X>, b: seq<X>)
    requires multiset(a) == multiset(b)
    requires forall i, j :: 0 <= i < j < |a| ==> a[i] != a[j]
    ensures forall x :: x in a <==> x in b
    ensures forall i, j :: 0 <= i < j < |b| ==> b[i] != b[j]
  {
    forall x
      ensures x in a <==> x in b
    {
      assert x in a <==> x in multiset(a);
      assert x in b <==> x in multiset(b);
    }
    forall i, j | 0 <= i < j < |b| && b[i] == b[j]
      ensures false
    {
      Twice(b, i, j);
      assert b[i] in a;
      AtMostOnce(a, b[i]);
    }
  }

  lemma Twice<X>(b: seq<X>, i: nat, j: nat)
    requires i < j < |b| && b[i] == b[j]
    ensures multiset(b)[b[i]] >= 2
  {
    assert b == b[..i] + [b[i]] + b[i + 1..j] + [b[j]] + b[j + 1..];
  }

  lemma {:induction false} AtMostOnce<X>(a: seq<X>, x: X)
    requires forall i, j :: 0 <= i < j < |a| ==> a[i] != a[j]
    ensures multiset(a)[x] <= 1
  {
    if a != [] {
      AtMostOnce(a[..|a| - 1], x);
      assert a == a[..|a| - 1] + [a[|a| - 1]];
    }
  }

  /** The evictable ones among the given keys. */
  function Chosen<K(==)>(cfg: Config, m: map<K, Info>, keys: seq<K>): set<K> {
    if keys == [] then {} else
    var k := keys[|keys| - 1];
    Chosen(cfg, m, keys[..|keys| - 1]) + if k in m && Evictable(cfg, m[k]) then {k} else {}
  }

  lemma {:induction false} ChosenAre<K>(cfg: Config, m: map<K, Info>, keys: seq<K>)
    requires forall k <- keys :: k in m
    ensures forall k :: k in Chosen(cfg, m, keys) <==> k in keys && Evictable(cfg, m[k])
  {
    if keys != [] {
      ChosenAre(cfg, m, keys[..|keys| - 1]);
      assert keys == keys[..|keys| - 1] + [keys[|keys| - 1]];
    }
  }

  /** The keys of a map, each once, by last access. */
  ghost predicate ByAccess<K>(m: map<K, Info>, keys: seq<K>) {
    && (forall k <- keys :: k in m) && (forall k :: k in m ==> k in keys)
    && (forall i, j :: 0 <= i < j < |keys| ==> keys[i] != keys[j])
    && (forall i, j :: 0 <= i < j < |keys| ==> m[keys[i]].la <= m[keys[j]].la)
  }

  lemma NoneChosen<K>(cfg: Config, m: map<K, Info>, keys: seq<K>)
    requires ByAccess(m, keys)
    ensures (forall k <- keys[..0] :: k in m) && Chosen(cfg, m, keys[..0]) == {}
  {
  }

  lemma ChosenGrows<K>(cfg: Config, m: map<K, Info>, keys: seq<K>, n: nat)
    requires ByAccess(m, keys) && n < |keys|
    ensures var now, next := Chosen(cfg, m, keys[..n]), Chosen(cfg, m, keys[..n + 1]);
      && keys[n] !in now
      && if Evictable(cfg, m[keys[n]]) then next == now + {keys[n]} && |next| == |now| + 1 else next == now
  {
    assert keys[..n + 1][..n] == keys[..n];
    ChosenAre(cfg, m, keys[..n]);
    assert keys[n] !in keys[..n];
  }

  lemma ChosenPart<K>(cfg: Config, m: map<K, Info>, keys: seq<K>, i: nat, l: nat)
    requires (forall k <- keys :: k in m) && i <= |keys| && l < |keys|
    ensures l < i && Evictable(cfg, m[keys[l]]) ==> keys[l] in Chosen(cfg, m, keys[..i])
  {
    ChosenAre(cfg, m, keys[..i]);
    if l < i {
      assert keys[l] == keys[..i][l];
    }
  }

  /** Part of a map. */
  ghost predicate Within(a: map<string, Item>, b: map<string, Item>) {
    forall k :: k in a ==> k in b && a[k] == b[k]
  }

  lemma Removed(m: map<string, Item>, victims: set<string>)
    requires victims <= m.Keys
    ensures Within(m - victims, m) && m.Keys - (m - victims).Keys == victims
  {
    assert (m - victims).Keys == m.Keys - victims;
  }

  /** Where the chosen ones stand, and that nothing else is chosen. */
  lemma ChosenAt<K>(cfg: Config, m: map<K, Info>, keys: seq<K>, i: nat, v: K)
    requires (forall k <- keys :: k in m) && i <= |keys| && v in Chosen(cfg, m, keys[..i])
    ensures v in m && Evictable(cfg, m[v]) && exists j :: 0 <= j < i && keys[j] == v
  {
    ChosenAre(cfg, m, keys[..i]);
    assert v in keys[..i];
    var j :| 0 <= j < |keys[..i]| && keys[..i][j] == v;
    assert keys[j] == v;
  }

  lemma ChosenFirst<K>(cfg: Config, m: map<K, Info>, keys: seq<K>, i: nat, v: K, k: K)
    requires ByAccess(m, keys) && i <= |keys|
    requires v in Chosen(cfg, m, keys[..i]) && k in Candidates(cfg, m) && k !in Chosen(cfg, m, keys[..i])
    ensures v in m && k in m && m[v].la <= m[k].la
  {
    hide Evictable, Chosen;
    ChosenAt(cfg, m, keys, i, v);
    var j :| 0 <= j < i && keys[j] == v;
    assert k in keys;
    var l :| 0 <= l < |keys| && keys[l] == k;
    ChosenPart(cfg, m, keys, i, l);
  }

  lemma ChosenAreCandidates<K>(cfg: Config, m: map<K, Info>, keys: seq<K>, i: nat)
    requires ByAccess(m, keys) && i <= |keys|
    ensures Chosen(cfg, m, keys[..i]) <= Candidates(cfg, m)
  {
    hide Evictable, Chosen;
    forall v | v in Chosen(cfg, m, keys[..i])
      ensures v in Candidates(cfg, m)
    {
      ChosenAt(cfg, m, keys, i, v);
    }
  }

  lemma AllChosen<K>(cfg: Config, m: map<K, Info>, keys: seq<K>)
    requires ByAccess(m, keys)
    ensures Chosen(cfg, m, keys[..|keys|]) == Candidates(cfg, m)
  {
    hide Evictable, Chosen;
    ChosenAreCandidates(cfg, m, keys, |keys|);
    forall k | k in Candidates(cfg, m)
      ensures k in Chosen(cfg, m, keys[..|keys|])
    {
      var l :| 0 <= l < |keys| && keys[l] == k;
      ChosenPart(cfg, m, keys, |keys|, l);
    }
  }

  /** Going through the items by last access and stopping at the quota is a right eviction. */
  lemma PrefixEvicts<K>(cfg: Config, m: map<K, Info>, keys: seq<K>, i: nat)
    requires cfg.capacity != 0 && |m| > Limit(cfg)
    requires ByAccess(m, keys) && i <= |keys|
    requires var n := |Chosen(cfg, m, keys[..i])|; n <= Quota(cfg) && (i == |keys| || n == Quota(cfg))
    ensures Evicts(cfg, m, Chosen(cfg, m, keys[..i]))
  {
    hide Quota, Limit, Evictable, Chosen;
    var victims := Chosen(cfg, m, keys[..i]);
    ChosenAreCandidates(cfg, m, keys, i);
    forall v, k | v in victims && k in Candidates(cfg, m) - victims
      ensures m[v].la <= m[k].la
    {
      ChosenFirst(cfg, m, keys, i, v, k);
    }
    if i == |keys| {
      AllChosen(cfg, m, keys);
    }
    SubsetSize(victims, Candidates(cfg, m));
  }

  lemma NothingToEvict(cfg: Config, m: map<string, Info>, keys: set<string>)
    requires cfg.capacity == 0 || |m| <= Limit(cfg)
    ensures Evicts(cfg, m, keys - keys)
  {
  }

  class LazyMap {
    const cfg: Config
    const storeErrors: bool
    var m: map<string, Item>
    var cleaning: bool
    // every item ever made
    ghost var items: set<Item>

    ghost predicate Keyed()
      reads this`m, this`items
    {
      forall k :: k in m ==> m[k].key == k && m[k] in items
    }

    ghost function Snapshot(): (r: map<string, Info>)
      requires Keyed()
      reads this`m, this`items, items
      ensures r.Keys == m.Keys
    {
      map k | k in m :: m[k].View()
    }

    constructor (cfg: Config, storeErrors: bool)
      ensures this.cfg == cfg && this.storeErrors == storeErrors && m == map[] && !cleaning
    {
      this.cfg, this.storeErrors := cfg, storeErrors;
      m, cleaning, items := map[], false, {};
    }

    method Items() returns (t: seq<Item>)
      requires Keyed()
      ensures Listed(t) && Covers(t)
    {
      t := [];
      var keys := m.Keys;
      while keys != {}
        invariant keys <= m.Keys
        invariant forall i :: 0 <= i < |t| ==> t[i].key in m && m[t[i].key] == t[i] && t[i].key !in keys
        invariant forall k :: k in m ==> k in keys || m[k] in t
        invariant forall i, j :: 0 <= i < j < |t| ==> t[i] != t[j]
        decreases |keys|
      {
        KeyLeft(keys);
        var k :| k in keys;
        keys := keys - {k};
        assert m[k] !in t;
        t := t + [m[k]];
      }
    }

    lemma KeyLeft(keys: set<string>)
      requires keys != {}
      ensures exists k :: k in keys
    {
      assert (forall k :: k !in keys) ==> keys == {};
    }

    /** The keys of the given items. */
    ghost predicate Names(keys: seq<string>, t: seq<Item>) {
      |keys| == |t| && forall i :: 0 <= i < |t| ==> keys[i] == t[i].key
    }

    ghost predicate Listed(t: seq<Item>)
      reads this`m, this`items
    {
      && (forall i :: 0 <= i < |t| ==> t[i].key in m && m[t[i].key] == t[i] && t[i] in items)
      && (forall i, j :: 0 <= i < j < |t| ==> t[i] != t[j])
    }

    ghost predicate Covers(t: seq<Item>)
      reads this`m
    {
      forall k :: k in m ==> m[k] in t
    }

    /** A snapshot shows the given items. */
    ghost predicate Shows(snap: map<string, Info>, keys: seq<string>, t: seq<Item>)
      reads t`la, t`inited, t`running
    {
      |keys| == |t| && forall i :: 0 <= i < |t| ==> keys[i] in snap && snap[keys[i]] == t[i].View()
    }

    lemma KeysByAccess(t: seq<Item>) returns (keys: seq<string>)
      requires Keyed() && Listed(t) && Covers(t) && Sorted(t)
      ensures |keys| == |t| && Names(keys, t) && ByAccess(Snapshot(), keys) && Shows(Snapshot(), keys, t)
    {
      keys := seq(|t|, i requires 0 <= i < |t| => t[i].key);
      forall k | k in m
        ensures k in keys
      {
        var i :| 0 <= i < |t| && t[i] == m[k];
        assert keys[i] == k;
      }
    }

    method ItemsByAccess(ghost snap: map<string, Info>) returns (t: seq<Item>, ghost keys: seq<string>)
      requires Keyed() && snap == Snapshot()
      ensures |keys| == |t| && Listed(t) && Names(keys, t) && ByAccess(snap, keys) && Shows(snap, keys, t)
    {
      hide Sorted, ByAccess, LazyMap.Keyed, LazyMap.Snapshot, LazyMap.Names, LazyMap.Shows, LazyMap.Listed, LazyMap.Covers;
      var list := Items();
      t := SortByAccess(list);
      ListedSorted(list, t);
      keys := KeysByAccess(t);
    }

    lemma ListedSorted(list: seq<Item>, t: seq<Item>)
      requires Listed(list) && Covers(list) && multiset(t) == multiset(list)
      ensures Listed(t) && Covers(t)
    {
      PermutedMembers(list, t);
      assert forall i :: 0 <= i < |t| ==> t[i] in list;
    }

    lemma ShownAt(snap: map<string, Info>, keys: seq<string>, t: seq<Item>, n: nat)
      requires Names(keys, t) && Shows(snap, keys, t) && n < |t|
      ensures n < |keys| && keys[n] == t[n].key && keys[n] in snap && snap[keys[n]] == t[n].View()
    {
    }

    /** Evicts from the front of the given items until the quota is met. */
    method EvictFrom(t: seq<Item>, cq: int, ghost snap: map<string, Info>, ghost keys: seq<string>)
      returns (ghost i: nat)
      requires cq > 0 && Listed(t) && Names(keys, t) && ByAccess(snap, keys)
      requires Shows(snap, keys, t)
      modifies this`m, items`cancel
      ensures i <= |t|
      ensures var n := |Chosen(cfg, snap, keys[..i])|; n <= cq && (i == |t| || n == cq)
      ensures m == old(m) - Chosen(cfg, snap, keys[..i])
      ensures forall k <- Chosen(cfg, snap, keys[..i]) :: k in old(m) && old(m)[k].cancel
    {
      hide Chosen, ByAccess, LazyMap.Shows;
      var dc, n := 0, 0;
      NoneChosen(cfg, snap, keys);
      while n < |t|
        invariant 0 <= n <= |t| && dc == |Chosen(cfg, snap, keys[..n])| < cq
        invariant m == old(m) - Chosen(cfg, snap, keys[..n])
        invariant forall k <- Chosen(cfg, snap, keys[..n]) :: k in old(m) && old(m)[k].cancel
        invariant Shows(snap, keys, t)
      {
        var running, inited := t[n].running, t[n].inited;
        ShownAt(snap, keys, t, n);
        ChosenGrows(cfg, snap, keys, n);
        if !running && (inited || cfg.evictNotInited) {
          t[n].Cancel();
          m := m - {t[n].key};
          dc := dc + 1;
        }
        n := n + 1;
        if dc >= cq {
          break;
        }
      }
      i := n;
    }

    lemma SnapshotSize()
      requires Keyed()
      ensures |Snapshot()| == |m|
    {
      SameSize(Snapshot(), m);
    }

    /** Called with the cache locked. */
    method Clean()
      requires Keyed() && cfg.ratio > 0.0 && !cleaning
      modifies this`m, this`cleaning, items`cancel
      ensures Keyed() && !cleaning
      ensures Evicts(cfg, old(Snapshot()), old(m).Keys - m.Keys)
      ensures Within(m, old(m))
      ensures forall k <- old(m).Keys - m.Keys :: old(m)[k].cancel
    {
      hide Quota, Limit, Evicts, LazyMap.Snapshot, LazyMap.Keyed;
      ghost var snap := Snapshot();
      SnapshotSize();
      if cfg.capacity == 0 {
        NothingToEvict(cfg, snap, m.Keys);
        return;
      }
      if |m| <= Limit(cfg) {
        NothingToEvict(cfg, snap, m.Keys);
        return;
      }
      if cleaning {
        return;
      }
      cleaning := true;
      EvictSome(snap);
      cleaning := false;
    }

    twostate lemma StillKeyed()
      requires old(Keyed()) && items == old(items) && Within(m, old(m))
      ensures Keyed()
    {
    }

    /** Cleaning above the limit. */
    method EvictSome(ghost snap: map<string, Info>)
      requires Keyed() && cfg.ratio > 0.0 && cfg.capacity > 0 && |m| > Limit(cfg) && snap == Snapshot()
      modifies this`m, items`cancel
      ensures Keyed()
      ensures Evicts(cfg, snap, old(m).Keys - m.Keys)
      ensures Within(m, old(m))
      ensures forall k <- old(m).Keys - m.Keys :: old(m)[k].cancel
    {
      hide Quota, Limit, Chosen, Evicts, ByAccess, Sorted, LazyMap.Snapshot, LazyMap.Listed, LazyMap.Covers,
        LazyMap.Names, LazyMap.Shows, LazyMap.Keyed, Within;
      SnapshotSize();
      var t, keys := ItemsByAccess(snap);
      var cq := Quota(cfg);
      QuotaPositive(cfg);
      ghost var i := EvictFrom(t, cq, snap, keys);
      PrefixEvicts(cfg, snap, keys, i);
      Removed(old(m), Chosen(cfg, snap, keys[..i]));
      StillKeyed();
    }

    /** No call is in progress. */
    ghost predicate Quiet()
      reads this`m, this`items, this`cleaning, items
    {
      Keyed() && !cleaning && forall k :: k in m ==> m[k].Settled()
    }

    method Drop(key: string)
      requires Keyed()
      modifies this`m, items`cancel
      ensures Keyed() && m == old(m) - {key}
      ensures key in old(m) ==> old(m)[key].cancel
    {
      if key in m {
        m[key].Cancel();
        m := m - {key};
      }
    }

    method Touch(key: string, now: real) returns (loaded: bool)
      requires Keyed()
      modifies items`la
      ensures loaded == (key in m) && (loaded ==> m[key].la == now)
      ensures forall k :: k in m && k != key ==> m[k].la == old(m[k].la)
    {
      if key in m {
        m[key].Touch(now);
        return true;
      }
      loaded := false;
    }

    /** When everything can be evicted, cleaning makes up for one item too many. */
    lemma LimitRestored(snap: map<string, Info>, victims: set<string>)
      requires cfg.ratio > 0.0 && cfg.capacity > 0 && |snap| <= Limit(cfg) + 1
      requires Limit(cfg) >= 0 && Evicts(cfg, snap, victims)
      requires forall k :: k in snap ==> Evictable(cfg, snap[k])
      ensures |snap.Keys - victims| <= Limit(cfg)
    {
      hide Limit, Quota;
      QuotaPositive(cfg);
      assert Candidates(cfg, snap) == snap.Keys;
      assert |snap.Keys| == |snap|;
      if |snap| > Limit(cfg) {
        assert victims <= snap.Keys;
      }
    }

    /** Cleaning at the end of a call that had no other call beside it. */
    method CleanQuiet()
      requires Quiet() && cfg.ratio > 0.0
      modifies this`m, this`cleaning, items`cancel
      ensures Quiet() && Within(m, old(m))
      ensures cfg.capacity == 0 || |old(m)| <= Limit(cfg) ==> m == old(m)
      ensures cfg.capacity > 0 && 0 <= Limit(cfg) && |old(m)| <= Limit(cfg) + 1 ==> |m| <= Limit(cfg)
    {
      hide Limit, Quota, Evicts, LazyMap.Snapshot;
      ghost var snap := Snapshot();
      SnapshotSize();
      AllEvictable();
      Clean();
      LimitHolds(snap, old(m), m);
    }

    lemma AllEvictable()
      requires Quiet()
      ensures Keyed() && forall k :: k in Snapshot() ==> Evictable(cfg, Snapshot()[k])
    {
    }

    lemma LimitHolds(snap: map<string, Info>, before: map<string, Item>, after: map<string, Item>)
      requires cfg.ratio > 0.0 && snap.Keys == before.Keys && Within(after, before)
      requires Evicts(cfg, snap, before.Keys - after.Keys)
      requires forall k :: k in snap ==> Evictable(cfg, snap[k])
      ensures cfg.capacity == 0 || |before| <= Limit(cfg) ==> after == before
      ensures cfg.capacity > 0 && 0 <= Limit(cfg) && |before| <= Limit(cfg) + 1 ==> |after| <= Limit(cfg)
    {
      hide Limit, Quota, Candidates, Evictable;
      SameSize(snap, before);
      if before.Keys - after.Keys == {} {
        assert after.Keys == before.Keys;
      }
      if cfg.capacity > 0 && 0 <= Limit(cfg) && |before| <= Limit(cfg) + 1 {
        LimitRestored(snap, before.Keys - after.Keys);
        assert after.Keys == snap.Keys - (before.Keys - after.Keys);
        assert |after| == |after.Keys|;
      }
    }

    /** An item that is there already. */
    method Reuse(key: string, computed: Outcome, now: real) returns (o: Outcome)
      requires Quiet() && key in m
      modifies m[key]
      ensures Quiet() && Some(o) == old(m[key].outcome) && m[key].outcome == Some(o) && m[key].la == now
    {
      o := m[key].Get(computed, now);
    }

    /** Makes an item and computes it. */
    method Create(key: string, computed: Outcome, now: real)
      requires Quiet() && key !in m
      modifies this`m, this`items
      ensures Quiet() && key in m && m == old(m)[key := m[key]] && fresh(m[key]) && items == old(items) + {m[key]}
      ensures m[key].outcome == Some(computed) && |m| == |old(m)| + 1
    {
      var v := new Item(key, now);
      items := items + {v};
      m := m[key := v];
      var o := v.Get(computed, now);
    }

    /** Makes and computes an item, and drops it again if it failed and failures are not kept. */
    method CreateAndKeep(key: string, computed: Outcome, now: real)
      requires Quiet() && key !in m
      modifies this`m, this`items, items`cancel
      ensures Quiet() && |m| <= |old(m)| + 1 && old(items) <= items && fresh(items - old(items))
      ensures m.Keys == old(m).Keys + if computed.Value? || storeErrors then {key} else {}
      ensures key in m ==> m[key].outcome == Some(computed)
    {
      hide LazyMap.Quiet, LazyMap.Keyed, Within;
      Create(key, computed, now);
      QuietKnows(key);
      if !computed.Value? && !storeErrors {
        DropQuiet(key);
      }
    }

    /** A Get that finds no item. */
    method Compute(key: string, computed: Outcome, now: real)
      requires Quiet() && cfg.ratio > 0.0 && key !in m
      modifies this`m, this`items, this`cleaning, items`cancel
      ensures Quiet()
      ensures m.Keys <= old(m).Keys + {key}
      ensures key in m ==> (computed.Value? || storeErrors) && m[key].outcome == Some(computed)
      ensures cfg.capacity > 0 && |old(m)| <= Limit(cfg) ==> |m| <= Limit(cfg)
      ensures cfg.capacity == 0 || |old(m)| < Limit(cfg) ==>
        m.Keys == old(m).Keys + if computed.Value? || storeErrors then {key} else {}
    {
      hide Limit, LazyMap.Quiet, LazyMap.Keyed;
      CreateAndKeep(key, computed, now);
      CleanQuiet();
    }

    /** A whole Get, no other call being in progress. */
    method Get(key: string, computed: Outcome, now: real) returns (o: Outcome)
      requires Quiet() && cfg.ratio > 0.0
      modifies this`m, this`items, this`cleaning, items
      ensures Quiet()
      ensures key in old(m) ==> m == old(m) && Some(o) == old(m[key].outcome) && m[key].la == now
      ensures key !in old(m) ==> o == computed && m.Keys <= old(m).Keys + {key}
      ensures key in m && key !in old(m) ==> (o.Value? || storeErrors) && m[key].outcome == Some(o)
      ensures cfg.capacity > 0 && (|old(m)| - 1) as real < cfg.threshold * cfg.capacity as real ==>
        (|m| - 1) as real < cfg.threshold * cfg.capacity as real
      ensures key !in old(m) && (cfg.capacity == 0 || |old(m)| as real < cfg.threshold * cfg.capacity as real) ==>
        m.Keys == old(m).Keys + if o.Value? || storeErrors then {key} else {}
    {
      hide Limit, LazyMap.Quiet, LazyMap.Keyed;
      LimitIs(cfg, |m|);
      LimitIs(cfg, |m| + 1);
      if key in m {
        QuietKnows(key);
        o := Reuse(key, computed, now);
      } else {
        Compute(key, computed, now);
        LimitIs(cfg, |m|);
        o := computed;
      }
    }

    lemma QuietKnows(key: string)
      requires Quiet() && key in m
      ensures m[key] in items && Keyed()
    {
    }

    method DropQuiet(key: string)
      requires Quiet() && key in m
      modifies this`m, items`cancel
      ensures Quiet() && Within(m, old(m)) && m.Keys == old(m).Keys - {key} && |m| == |old(m)| - 1
    {
      Drop(key);
      assert m.Keys == old(m).Keys - {key};
      assert |m| == |m.Keys| && |old(m)| == |old(m).Keys|;
    }
  }
}
