/** The local tier of the bandwidth limiter. A Wait takes local tokens, asks the global tier once
    for the rest, and sleeps for what is still missing. */
module HybridThrottle {
  import opened Numbers
  import opened TokenBucket

  /** The amount asked of the global tier: what is missing, or a second's worth, in whole bytes. */
  function Batch(need: real, rate: real): real {
    RealMax(need, rate).Floor as real
  }

  /** The local balance a call finds: while the global tier is away, time adds to it. */
  function LocalTokens(local: real, capacity: real, rate: real, lastRefill: int, now: int, canRedis: bool): real {
    if canRedis || now <= lastRefill then local else RealMin(local + Earned(rate, now - lastRefill), capacity)
  }

  // ---------- calls while the global tier is up ----------

  datatype Limits = Limits(rate: real, capacity: real)

  function Cap(lim: Limits): real {
    lim.capacity.Floor as real
  }

  function Rate(lim: Limits): real {
    lim.rate.Floor as real
  }

  datatype Bank = Bank(local: real, bucket: Bucket)

  /** A Wait for `count` bytes; its request to the script, if it makes one, carries the time `now`. */
  datatype Call = Call(now: int, count: int, expired: bool)

  predicate Asks(k: Bank, c: Call) {
    c.count > 0 && k.local < c.count as real
  }

  function Missing(k: Bank, c: Call): real {
    c.count as real - k.local
  }

  function RequestOf(lim: Limits, k: Bank, c: Call): Request {
    Request(c.now, Batch(Missing(k, c), lim.rate), c.expired)
  }

  function GrantOf(lim: Limits, k: Bank, c: Call): real {
    Grant(Cap(lim), Rate(lim), Before(k.bucket, RequestOf(lim, k, c)), c.now, RequestOf(lim, k, c).req)
  }

  /** The bank after a call. */
  function Served(lim: Limits, k: Bank, c: Call): Bank {
    if c.count <= 0 then k
    else if !Asks(k, c) then k.(local := k.local - c.count as real)
    else Bank(RealMax(GrantOf(lim, k, c) - Missing(k, c), 0.0),
              Next(Cap(lim), Rate(lim), Before(k.bucket, RequestOf(lim, k, c)), c.now, RequestOf(lim, k, c).req))
  }

  /** The seconds a call sleeps. */
  function Sleeps(lim: Limits, k: Bank, c: Call): real {
    if Asks(k, c) && lim.rate > 0.0 then RealMax(Missing(k, c) - GrantOf(lim, k, c), 0.0) / lim.rate else 0.0
  }

  /** What the rate brings in some seconds. */
  function Brought(rate: real, seconds: real): real {
    rate * seconds
  }

  /** What becomes of a call of the script: its answer arrives, or is lost on the way back, when the
      tokens are gone all the same, or the script is never reached. */
  datatype Answer = Arrives | Lost | Unreached

  class HybridBucket {
    const rate: real
    const capacity: real
    const hash: RedisHash?
    var local: real
    var lastRefill: int
    var redisOK: bool

    // The books: bytes asked for by all calls so far, what calls in progress still miss, tokens
    // from the global tier, tokens accrued without it, seconds slept, and what was let through
    // because nothing ever accrues at rate 0.
    ghost var begun: real
    ghost var owed: real
    ghost var granted: real
    ghost var accrued: real
    ghost var slept: real
    ghost var unpaid: real

    /** The books balance. */
    ghost predicate Balanced()
      reads this
    {
      begun - owed + local == granted + accrued + Brought(rate, slept) + unpaid
    }

    ghost predicate Valid()
      reads this, hash
    {
      && rate >= 0.0 && capacity >= 0.0 && local >= 0.0
      && (hash != null ==> hash.Valid())
      && Balanced()
      && (rate > 0.0 ==> unpaid == 0.0)
    }

    constructor (rate: real, capacity: real, hash: RedisHash?, now: int)
      requires rate >= 0.0 && capacity >= 0.0 && (hash != null ==> hash.Valid())
      ensures Valid() && local == 0.0 && redisOK == (hash != null) && begun == owed == slept == 0.0
      ensures this.rate == rate && this.capacity == capacity && this.hash == hash
    {
      this.rate, this.capacity, this.hash := rate, capacity, hash;
      local, lastRefill, redisOK := 0.0, now, hash != null;
      begun, owed, granted, accrued, slept, unpaid := 0.0, 0.0, 0.0, 0.0, 0.0, 0.0;
    }

    /** Accrues what the rate brought since the last time. */
    method Accrue(now: int)
      requires rate >= 0.0 && capacity >= 0.0 && local >= 0.0
      modifies this`local, this`lastRefill
      ensures local == LocalTokens(old(local), capacity, rate, old(lastRefill), now, false) >= 0.0
      ensures now <= old(lastRefill) ==> local == old(local) && lastRefill == old(lastRefill)
      ensures now > old(lastRefill) ==>
        var grown := old(local) + ((now - old(lastRefill)) as real / 1000.0) * rate;
        local == (if grown > capacity then capacity else grown) && lastRefill == now
    {
      hide Earned;
      var elapsed := (now - lastRefill) as real / 1000.0;
      EarnedIn(rate, now - lastRefill);
      if elapsed > 0.0 {
        local := local + elapsed * rate;
        if local > capacity {
          local := capacity;
        }
        lastRefill := now;
      }
    }

    /** The first lock section: accrues locally while the global tier is away, and takes what is
        there. The call goes on with what it still misses. */
    method TakeLocal(count: nat, now: int) returns (need: real, canRedis: bool)
      requires Valid()
      modifies this`local, this`lastRefill, this`begun, this`owed, this`accrued
      ensures Valid() && canRedis == (redisOK && hash != null)
      ensures begun == old(begun) + count as real && owed == old(owed) + need
      ensures var found := LocalTokens(old(local), capacity, rate, old(lastRefill), now, canRedis);
        && accrued == old(accrued) + found - old(local)
        && if found >= count as real then need == 0.0 && local == found - count as real
           else need == count as real - found && local == 0.0
      ensures lastRefill == if canRedis || now <= old(lastRefill) then old(lastRefill) else now
      ensures 0.0 <= need <= count as real && (need > 0.0 ==> local == 0.0)
      ensures canRedis ==> local + (count as real - need) == old(local)
    {
      hide Brought, Earned;
      need := count as real;
      canRedis := redisOK && hash != null;
      begun := begun + need;
      if !canRedis {
        Accrue(now);
      }
      accrued := accrued + local - old(local);
      if local >= need {
        local := local - need;
        need := 0.0;
        return;
      }
      need := need - local;
      local := 0.0;
      owed := owed + need;
    }

    /** The hash after a call of the script with the whole part of `requested`, if it ran. */
    ghost function HashAfter(bucket: Bucket, now: int, requested: real, answer: Answer): Bucket {
      if answer == Unreached then bucket
      else Next(capacity.Floor as real, rate.Floor as real, bucket, now, requested.Floor as real)
    }

    /** One call of the script. Without an answer nothing is granted and the global tier is taken out
        of use, though the hash may have paid. */
    method RefillFromRedis(requested: real, answer: Answer, now: int) returns (g: real)
      requires hash != null && hash.Valid() && rate >= 0.0 && capacity >= 0.0 && requested >= 0.0
      modifies this`redisOK, hash
      ensures hash.Valid() && g >= 0.0
      ensures redisOK == (old(redisOK) && answer == Arrives)
      ensures hash.View() == HashAfter(old(hash.View()), now, requested, answer)
      ensures g == if answer != Arrives then 0.0
        else Grant(capacity.Floor as real, rate.Floor as real, old(hash.View()), now, requested.Floor as real)
    {
      g := 0.0;
      if answer != Unreached {
        g := hash.Run(capacity.Floor as real, rate.Floor as real, requested.Floor as real, now);
      }
      if answer != Arrives {
        redisOK := false;
        g := 0.0;
      }
    }

    /** What a call does with its grant; a surplus is kept for later calls. */
    method Settle(need: real, g: real) returns (rest: real)
      requires Valid() && need >= 0.0 && g >= 0.0
      modifies this`local, this`owed, this`granted
      ensures Valid() && granted == old(granted) + g && owed == old(owed) - need + rest
      ensures if g >= need then rest == 0.0 && local == old(local) + g - need else rest == need - g && local == old(local)
    {
      granted := granted + g;
      if g >= need {
        local := local + (g - need);
        owed := owed - need;
        return 0.0;
      }
      rest := need;
      if g > 0.0 {
        rest := rest - g;
      }
      owed := owed - g;
    }

    /** Sleeps until the rate has brought the rest. */
    method Pause(rest: real) returns (seconds: real)
      requires Valid() && rest >= 0.0
      modifies this`owed, this`slept, this`unpaid
      ensures Valid() && owed == old(owed) - rest && slept == old(slept) + seconds && seconds >= 0.0
      ensures seconds == if rate > 0.0 then rest / rate else 0.0
      ensures rate == 0.0 ==> unpaid == old(unpaid) + rest
    {
      seconds := 0.0;
      owed := owed - rest;
      if rest > 0.0 && rate > 0.0 {
        seconds := rest / rate;
      }
      assert rate > 0.0 ==> seconds == rest / rate && rate * (slept + seconds) == rate * slept + rest;
      slept := slept + seconds;
      if rate == 0.0 {
        unpaid := unpaid + rest;
      }
    }

    /** A whole call, without another one beside it. It owes nothing when it returns. */
    method Wait(count: int, now: int, answer: Answer, tick: int) returns (seconds: real)
      requires Valid()
      modifies this`local, this`lastRefill, this`redisOK, hash
      modifies this`begun, this`owed, this`granted, this`accrued, this`slept, this`unpaid
      ensures Valid() && seconds >= 0.0
      ensures begun == old(begun) + if count > 0 then count as real else 0.0
      ensures owed == old(owed) && slept == old(slept) + seconds
      ensures hash != null && old(redisOK) && answer == Arrives ==>
        var lim, k, c := Limits(rate, capacity), Bank(old(local), old(hash.View())), Call(tick, count, false);
        Bank(local, hash.View()) == Served(lim, k, c) && seconds == Sleeps(lim, k, c) && redisOK
      ensures count > 0 && !(hash != null && old(redisOK) && answer == Arrives) ==>
        var up := hash != null && old(redisOK);
        var found, need := LocalTokens(old(local), capacity, rate, old(lastRefill), now, up), count as real;
        && local == RealMax(found - need, 0.0)
        && seconds == (if found < need && rate > 0.0 then (need - found) / rate else 0.0)
        && redisOK == (old(redisOK) && (hash == null || found >= need))
      ensures hash != null && old(redisOK) && count > 0 && old(local) < count as real ==>
        hash.View() == HashAfter(old(hash.View()), tick, RealMax(count as real - old(local), rate), answer)
      ensures hash != null && !(old(redisOK) && count > 0 && old(local) < count as real) ==>
        hash.View() == old(hash.View())
    {
      hide Brought, Earned, Grant, Next;
      if count <= 0 {
        return 0.0;
      }
      var need, canRedis := TakeLocal(count, now);
      if need == 0.0 {
        return 0.0;
      }
      if canRedis {
        var g := RefillFromRedis(RealMax(need, rate), answer, tick);
        need := Settle(need, g);
        if need == 0.0 {
          return 0.0;
        }
      }
      seconds := Pause(need);
    }
  }

  // ---------- one serial caller ----------

  function Seconds(ms: int): real {
    ms as real / 1000.0
  }

  /** One call after the other: none starts before the last one's sleep is over, and the script's
      requests are in order. `free` is when the caller is free to call. */
  ghost predicate Serial(lim: Limits, k: Bank, free: real, cs: seq<Call>)
    decreases |cs|
  {
    cs == [] ||
    (&& free <= Seconds(cs[0].now)
     && (Asks(k, cs[0]) ==> Follows(k.bucket, RequestOf(lim, k, cs[0])))
     && Serial(lim, Served(lim, k, cs[0]), Seconds(cs[0].now) + Sleeps(lim, k, cs[0]), cs[1..]))
  }

  /** When the caller has got all its bytes. */
  function Finish(lim: Limits, k: Bank, free: real, cs: seq<Call>): real
    decreases |cs|
  {
    if cs == [] then free else
    Finish(lim, Served(lim, k, cs[0]), Seconds(cs[0].now) + Sleeps(lim, k, cs[0]), cs[1..])
  }

  function Bytes(cs: seq<Call>): real {
    if cs == [] then 0.0 else (if cs[0].count > 0 then cs[0].count as real else 0.0) + Bytes(cs[1..])
  }

  function Slept(lim: Limits, k: Bank, cs: seq<Call>): real
    decreases |cs|
  {
    if cs == [] then 0.0 else Sleeps(lim, k, cs[0]) + Slept(lim, Served(lim, k, cs[0]), cs[1..])
  }

  /** The requests that reach the script. */
  function Requests(lim: Limits, k: Bank, cs: seq<Call>): seq<Request>
    decreases |cs|
  {
    if cs == [] then [] else
    (if Asks(k, cs[0]) then [RequestOf(lim, k, cs[0])] else []) + Requests(lim, Served(lim, k, cs[0]), cs[1..])
  }

  function Last(lim: Limits, k: Bank, cs: seq<Call>): Bank
    decreases |cs|
  {
    if cs == [] then k else Last(lim, Served(lim, k, cs[0]), cs[1..])
  }

  ghost predicate Sound(lim: Limits, k: Bank) {
    lim.rate > 0.0 && lim.capacity >= 0.0 && k.local >= 0.0 && TokenBucket.Valid(Cap(lim), k.bucket)
  }

  lemma ServedIsSound(lim: Limits, k: Bank, c: Call)
    requires Sound(lim, k) && (Asks(k, c) ==> Follows(k.bucket, RequestOf(lim, k, c)))
    ensures Sound(lim, Served(lim, k, c))
    ensures Asks(k, c) ==> GrantOf(lim, k, c) >= 0.0
  {
    hide Available, Grant, Next, Batch;
    if Asks(k, c) {
      StepKeepsBalance(Cap(lim), Rate(lim), k.bucket, RequestOf(lim, k, c));
    }
  }

  /** One call: its bytes come from the local balance, the grant and the sleep. */
  lemma CallPays(lim: Limits, k: Bank, c: Call)
    requires Sound(lim, k)
    ensures (if c.count > 0 then c.count as real else 0.0) + Served(lim, k, c).local
      == k.local + (if Asks(k, c) then GrantOf(lim, k, c) else 0.0) + Brought(lim.rate, Sleeps(lim, k, c))
    ensures Sleeps(lim, k, c) >= 0.0
  {
    hide GrantOf, RequestOf, Next, Before;
    if Asks(k, c) {
      var d := RealMax(Missing(k, c) - GrantOf(lim, k, c), 0.0);
      assert lim.rate * (d / lim.rate) == d;
      assert d / lim.rate >= 0.0;
    }
  }

  lemma BroughtAdds(rate: real, a: real, b: real)
    ensures Brought(rate, a + b) == Brought(rate, a) + Brought(rate, b)
  {
  }

  /** Bytes admitted + local balance = tokens granted + rate * time slept. */
  lemma {:induction false} Conserved(lim: Limits, k: Bank, free: real, cs: seq<Call>)
    requires Sound(lim, k) && Serial(lim, k, free, cs)
    ensures Bytes(cs) + Last(lim, k, cs).local
      == k.local + Total(Cap(lim), Rate(lim), k.bucket, Requests(lim, k, cs)) + Brought(lim.rate, Slept(lim, k, cs))
    ensures Sound(lim, Last(lim, k, cs))
    decreases |cs|
  {
    hide Served, Asks, Sleeps, GrantOf, Brought, Follows, Grant, RequestOf, Sound;
    if cs == [] {
      NothingBrought(lim.rate);
    } else {
      var c, rest := cs[0], cs[1..];
      CallPays(lim, k, c);
      ServedIsSound(lim, k, c);
      Conserved(lim, Served(lim, k, c), Seconds(c.now) + Sleeps(lim, k, c), rest);
      BroughtAdds(lim.rate, Sleeps(lim, k, c), Slept(lim, Served(lim, k, c), rest));
      RequestFirst(lim, k, c, Requests(lim, Served(lim, k, c), rest));
    }
  }

  lemma NothingBrought(rate: real)
    ensures Brought(rate, 0.0) == 0.0
  {
  }

  lemma RequestFirst(lim: Limits, k: Bank, c: Call, rs: seq<Request>)
    ensures Total(Cap(lim), Rate(lim), k.bucket, (if Asks(k, c) then [RequestOf(lim, k, c)] else []) + rs)
      == (if Asks(k, c) then GrantOf(lim, k, c) else 0.0) + Total(Cap(lim), Rate(lim), Served(lim, k, c).bucket, rs)
  {
    hide Grant, Available;
    if Asks(k, c) {
      assert ([RequestOf(lim, k, c)] + rs)[1..] == rs;
    } else {
      assert [] + rs == rs;
    }
  }

  /** A serial caller sleeps no longer than it takes. */
  lemma {:induction false} SleptInTime(lim: Limits, k: Bank, free: real, cs: seq<Call>)
    requires Sound(lim, k) && Serial(lim, k, free, cs)
    ensures 0.0 <= Slept(lim, k, cs) <= Finish(lim, k, free, cs) - free
    decreases |cs|
  {
    hide Served, Asks, Sleeps, Follows, RequestOf, Sound;
    if cs != [] {
      CallPays(lim, k, cs[0]);
      ServedIsSound(lim, k, cs[0]);
      SleptInTime(lim, Served(lim, k, cs[0]), Seconds(cs[0].now) + Sleeps(lim, k, cs[0]), cs[1..]);
    }
  }

  /** The script sees the requests in order, within the caller's time. */
  lemma {:induction false} RequestsInOrder(lim: Limits, k: Bank, free: real, cs: seq<Call>)
    requires Sound(lim, k) && Serial(lim, k, free, cs)
    ensures InOrder(Cap(lim), Rate(lim), k.bucket, Requests(lim, k, cs))
    ensures forall i :: 0 <= i < |Requests(lim, k, cs)| ==>
      free <= Seconds(Requests(lim, k, cs)[i].now) <= Finish(lim, k, free, cs)
    ensures free <= Finish(lim, k, free, cs)
    decreases |cs|
  {
    hide Sleeps, GrantOf, Follows, Grant, Sound, Batch;
    if cs != [] {
      var c, rest := cs[0], cs[1..];
      CallPays(lim, k, c);
      ServedIsSound(lim, k, c);
      var k', free' := Served(lim, k, c), Seconds(c.now) + Sleeps(lim, k, c);
      RequestsInOrder(lim, k', free', rest);
      var rs := Requests(lim, k', rest);
      if Asks(k, c) {
        assert Requests(lim, k, cs) == [RequestOf(lim, k, c)] + rs;
        assert ([RequestOf(lim, k, c)] + rs)[1..] == rs;
      } else {
        assert Requests(lim, k, cs) == rs;
      }
    }
  }

  /** One serial caller gets at most capacity + 2 * rate * T bytes in T seconds, while the global tier
      is up. */
  lemma SerialCallerBounded(lim: Limits, cs: seq<Call>, free: real)
    requires lim.rate > 0.0 && lim.capacity >= 0.0 && RefillsInTime(Cap(lim), Rate(lim))
    requires Serial(lim, Bank(0.0, Absent), free, cs)
    ensures Bytes(cs) <= lim.capacity + 2.0 * Brought(lim.rate, Finish(lim, Bank(0.0, Absent), free, cs) - free)
  {
    hide Serial, Finish, Bytes, Slept, Requests, Last, RefillsInTime, InOrder, Total, Brought, Earned;
    var k := Bank(0.0, Absent);
    var rs := Requests(lim, k, cs);
    var time := Finish(lim, k, free, cs) - free;
    Conserved(lim, k, free, cs);
    SleptInTime(lim, k, free, cs);
    RequestsInOrder(lim, k, free, cs);
    BroughtGrows(lim.rate, Slept(lim, k, cs), time);
    if rs == [] {
      NoTotal(Cap(lim), Rate(lim));
    } else {
      GrantsBounded(Cap(lim), Rate(lim), Absent, rs);
      SpanEarned(lim, rs[0].now, rs[|rs| - 1].now, time);
    }
    FloorBelow(lim.capacity);
  }

  lemma FloorBelow(x: real)
    ensures x.Floor as real <= x
  {
  }

  lemma NoTotal(cap: real, rate: real)
    ensures Total(cap, rate, Absent, []) == 0.0
  {
  }

  lemma BroughtGrows(rate: real, a: real, b: real)
    requires rate > 0.0 && 0.0 <= a <= b
    ensures 0.0 <= Brought(rate, a) <= Brought(rate, b)
  {
  }

  lemma SpanEarned(lim: Limits, first: int, last: int, time: real)
    requires lim.rate > 0.0 && time >= 0.0 && Seconds(last) - Seconds(first) <= time
    ensures Earned(Rate(lim), last - first) <= Brought(lim.rate, time)
  {
    var span := (last - first) as real / 1000.0;
    assert span == Seconds(last) - Seconds(first);
    if span >= 0.0 {
      assert Rate(lim) * span <= lim.rate * span <= lim.rate * time;
    } else {
      assert Rate(lim) * span <= 0.0;
    }
  }
}
