/** The global tier of the bandwidth limiter: the token bucket that a script keeps in a Redis hash.
    Times are milliseconds; amounts are reals. */
module TokenBucket {
  import opened Numbers
  import opened Options

  /** The hash expires this long after its last use. */
  const TTL_MS := 300000

  datatype Bucket = Absent | Kept(tokens: real, last: int)

  /** What the rate brings in a span of time. */
  function Earned(rate: real, ms: int): real {
    rate * (ms as real / 1000.0)
  }

  lemma EarnedIn(rate: real, ms: int)
    requires rate >= 0.0
    ensures Earned(rate, ms) == (ms as real / 1000.0) * rate
    ensures ms as real / 1000.0 > 0.0 <==> ms > 0
    ensures ms > 0 ==> Earned(rate, ms) >= 0.0
  {
  }

  /** The tokens to grant from. */
  function Available(cap: real, rate: real, b: Bucket, now: int): real {
    match b
    case Absent => cap
    case Kept(tokens, last) => if now > last then RealMin(tokens + Earned(rate, now - last), cap) else tokens
  }

  function Granted(tokens: real, req: real): real {
    if tokens >= req then req else if tokens > 0.0 then tokens else 0.0
  }

  function Grant(cap: real, rate: real, b: Bucket, now: int, req: real): real {
    Granted(Available(cap, rate, b, now), req)
  }

  function Next(cap: real, rate: real, b: Bucket, now: int, req: real): Bucket {
    Kept(Available(cap, rate, b, now) - Grant(cap, rate, b, now, req), now)
  }

  /** The hash under one key. */
  class RedisHash {
    var tokens: Option<real>
    var lastTick: Option<int>

    function View(): Bucket
      reads this
    {
      if tokens.Some? && lastTick.Some? then Kept(tokens.value, lastTick.value) else Absent
    }

    predicate Valid()
      reads this
    {
      tokens.Some? == lastTick.Some? && (tokens.Some? ==> tokens.value >= 0.0)
    }

    constructor ()
      ensures Valid() && View() == Absent
    {
      tokens, lastTick := None, None;
    }

    method Expire()
      modifies this
      ensures Valid() && View() == Absent
    {
      tokens, lastTick := None, None;
    }

    /** The tokens to grant from, with what the rate brought since the last time. */
    method Accrued(cap: real, rate: real, now: int) returns (t: real)
      requires Valid() && cap >= 0.0 && rate >= 0.0
      ensures t == Available(cap, rate, View(), now) >= 0.0
      ensures tokens == None ==> t == cap
      ensures tokens.Some? && now <= lastTick.value ==> t == tokens.value
      ensures tokens.Some? && now > lastTick.value ==>
        var grown := tokens.value + ((now - lastTick.value) as real / 1000.0) * rate;
        t == if grown > cap then cap else grown
    {
      hide Earned;
      t := if tokens.Some? then tokens.value else cap;
      var tick := if lastTick.Some? then lastTick.value else now;
      var elapsed := (now - tick) as real / 1000.0;
      EarnedIn(rate, now - tick);
      if elapsed > 0.0 {
        t := t + elapsed * rate;
        if t > cap {
          t := cap;
        }
      }
    }

    /** Grants up to what is there, and keeps the rest and the time. */
    method Pay(t0: real, req: real, now: int) returns (granted: real)
      requires t0 >= 0.0 && req >= 0.0
      modifies this
      ensures tokens == Some(t0 - granted) && lastTick == Some(now) && granted == Granted(t0, req)
      ensures 0.0 <= granted <= req && granted <= t0 && (granted < req ==> granted == t0)
    {
      var t := t0;
      granted := 0.0;
      if t >= req {
        granted := req;
        t := t - req;
      } else if t > 0.0 {
        granted := t;
        t := 0.0;
      }
      tokens, lastTick := Some(t), Some(now);
    }

    /** The script. What is granted and what is left add up to the capacity for an absent hash, and to
        the tokens there were and what the rate brought since, the capacity at most, for one that is
        kept; nothing is left when less is granted than asked. */
    method Run(cap: real, rate: real, req: real, now: int) returns (granted: real)
      requires Valid() && cap >= 0.0 && rate >= 0.0 && req >= 0.0
      modifies this
      ensures Valid() && 0.0 <= granted <= req && tokens.Some? && lastTick == Some(now)
      ensures old(tokens) == None ==> tokens.value + granted == cap
      ensures old(tokens).Some? && now <= old(lastTick).value ==> tokens.value + granted == old(tokens).value
      ensures old(tokens).Some? && now > old(lastTick).value ==>
        var grown := old(tokens).value + ((now - old(lastTick).value) as real / 1000.0) * rate;
        tokens.value + granted == if grown > cap then cap else grown
      ensures granted < req ==> tokens == Some(0.0)
      ensures granted == Grant(cap, rate, old(View()), now, req)
      ensures View() == Next(cap, rate, old(View()), now, req)
    {
      hide Available, Granted;
      var t := Accrued(cap, rate, now);
      granted := Pay(t, req, now);
    }
  }

  // ---------- runs ----------

  /** A request; `expired` when the hash had expired by then. */
  datatype Request = Request(now: int, req: real, expired: bool)

  function Before(b: Bucket, r: Request): Bucket {
    if r.expired then Absent else b
  }

  /** The hash expires no earlier than TTL_MS after its last use, and nobody asks for a negative
      amount. The callers' clocks may go back. */
  predicate CanFollow(b: Bucket, r: Request) {
    r.req >= 0.0 && (b.Kept? && r.expired ==> r.now - b.last >= TTL_MS)
  }

  predicate Possible(cap: real, rate: real, b: Bucket, rs: seq<Request>)
    decreases |rs|
  {
    rs == [] ||
    (CanFollow(b, rs[0]) && Possible(cap, rate, Next(cap, rate, Before(b, rs[0]), rs[0].now, rs[0].req), rs[1..]))
  }

  /** The same under a clock that does not go back. */
  predicate Follows(b: Bucket, r: Request) {
    CanFollow(b, r) && (b.Kept? ==> b.last <= r.now)
  }

  predicate InOrder(cap: real, rate: real, b: Bucket, rs: seq<Request>)
    decreases |rs|
  {
    rs == [] ||
    (Follows(b, rs[0]) && InOrder(cap, rate, Next(cap, rate, Before(b, rs[0]), rs[0].now, rs[0].req), rs[1..]))
  }

  function After(cap: real, rate: real, b: Bucket, rs: seq<Request>): Bucket
    decreases |rs|
  {
    if rs == [] then b else
    After(cap, rate, Next(cap, rate, Before(b, rs[0]), rs[0].now, rs[0].req), rs[1..])
  }

  function Total(cap: real, rate: real, b: Bucket, rs: seq<Request>): real
    decreases |rs|
  {
    if rs == [] then 0.0 else
    Grant(cap, rate, Before(b, rs[0]), rs[0].now, rs[0].req)
      + Total(cap, rate, Next(cap, rate, Before(b, rs[0]), rs[0].now, rs[0].req), rs[1..])
  }

  predicate Valid(cap: real, b: Bucket) {
    b.Kept? ==> 0.0 <= b.tokens <= cap
  }

  lemma EarnedAdds(rate: real, a: int, b: int)
    ensures Earned(rate, a + b) == Earned(rate, a) + Earned(rate, b)
  {
    assert (a + b) as real / 1000.0 == a as real / 1000.0 + b as real / 1000.0;
  }

  lemma EarnedGrows(rate: real, a: int, b: int)
    requires rate >= 0.0 && a <= b
    ensures Earned(rate, a) <= Earned(rate, b)
    ensures a == 0 ==> Earned(rate, a) == 0.0
  {
    assert a as real / 1000.0 <= b as real / 1000.0;
  }

  /** One request keeps the balance between nothing and the capacity. */
  lemma StepKeepsBalance(cap: real, rate: real, b: Bucket, r: Request)
    requires cap >= 0.0 && rate >= 0.0 && Valid(cap, b) && CanFollow(b, r)
    ensures 0.0 <= Available(cap, rate, Before(b, r), r.now) <= cap
    ensures 0.0 <= Grant(cap, rate, Before(b, r), r.now, r.req) <= r.req
    ensures Valid(cap, Next(cap, rate, Before(b, r), r.now, r.req))
  {
    hide Earned;
    if b.Kept? && r.now > b.last {
      EarnedGrows(rate, 0, r.now - b.last);
    }
  }

  /** 0 <= tokens <= cap throughout every run, whatever the clock does. */
  lemma {:induction false} BalanceStaysInRange(cap: real, rate: real, b: Bucket, rs: seq<Request>)
    requires cap >= 0.0 && rate >= 0.0 && Valid(cap, b) && Possible(cap, rate, b, rs)
    ensures Valid(cap, After(cap, rate, b, rs))
    decreases |rs|
  {
    if rs != [] {
      StepKeepsBalance(cap, rate, b, rs[0]);
      BalanceStaysInRange(cap, rate, Next(cap, rate, Before(b, rs[0]), rs[0].now, rs[0].req), rs[1..]);
    }
  }

  /** Whether the rate refills the whole capacity before the hash expires. */
  predicate RefillsInTime(cap: real, rate: real) {
    Earned(rate, TTL_MS) >= cap
  }

  /** If it does, an expiry can not be told from the hash still being there. */
  lemma ExpiryIsInvisible(cap: real, rate: real, b: Bucket, now: int)
    requires cap >= 0.0 && rate >= 0.0 && RefillsInTime(cap, rate) && Valid(cap, b)
    requires b.Kept? && now - b.last >= TTL_MS
    ensures Available(cap, rate, Absent, now) == Available(cap, rate, b, now)
  {
    hide Earned;
    EarnedGrows(rate, TTL_MS, now - b.last);
  }

  /** How far the clock moved forward over some requests, from time t on; its steps back do not count. */
  function Forward(t: int, rs: seq<Request>): int
    decreases |rs|
  {
    if rs == [] then 0
    else (if rs[0].now > t then rs[0].now - t else 0) + Forward(rs[0].now, rs[1..])
  }

  /** What there is to grant before any time has passed, and since when. */
  function Balance(cap: real, b: Bucket): real {
    if b.Kept? then b.tokens else cap
  }

  function Since(b: Bucket, now: int): int {
    if b.Kept? then b.last else now
  }

  /** Between two requests no more comes in than the rate brings while the clock moves forward. */
  lemma AvailableLater(cap: real, rate: real, b: Bucket, r: Request)
    requires cap >= 0.0 && rate >= 0.0 && Valid(cap, b) && CanFollow(b, r)
    requires RefillsInTime(cap, rate)
    ensures var step := r.now - Since(b, r.now);
      Available(cap, rate, Before(b, r), r.now) <= Balance(cap, b) + Earned(rate, if step > 0 then step else 0)
  {
    hide Earned;
    EarnedGrows(rate, 0, 0);
    if b.Kept? && r.expired {
      EarnedGrows(rate, TTL_MS, r.now - b.last);
    }
  }

  /** Whatever the clock does, total grants are at most what was there and what the rate brings while
      the clock moves forward, across any number of expiries. */
  lemma {:induction false} GrantsFollowClock(cap: real, rate: real, b: Bucket, rs: seq<Request>)
    requires cap >= 0.0 && rate >= 0.0 && RefillsInTime(cap, rate)
    requires Valid(cap, b) && Possible(cap, rate, b, rs) && rs != []
    ensures Total(cap, rate, b, rs) <= Balance(cap, b) + Earned(rate, Forward(Since(b, rs[0].now), rs))
    decreases |rs|
  {
    hide Earned, Available, RefillsInTime;
    var r := rs[0];
    StepKeepsBalance(cap, rate, b, r);
    AvailableLater(cap, rate, b, r);
    EarnedGrows(rate, 0, 0);
    var step := r.now - Since(b, r.now);
    EarnedAdds(rate, if step > 0 then step else 0, Forward(r.now, rs[1..]));
    if |rs| > 1 {
      GrantsFollowClock(cap, rate, Next(cap, rate, Before(b, r), r.now, r.req), rs[1..]);
    } else {
      assert rs[1..] == [];
    }
  }

  lemma {:induction false} ForwardInOrder(cap: real, rate: real, b: Bucket, rs: seq<Request>)
    requires InOrder(cap, rate, b, rs) && rs != []
    ensures Possible(cap, rate, b, rs)
    ensures Forward(Since(b, rs[0].now), rs) == rs[|rs| - 1].now - Since(b, rs[0].now)
    decreases |rs|
  {
    hide Grant, Available;
    if |rs| > 1 {
      var c := Next(cap, rate, Before(b, rs[0]), rs[0].now, rs[0].req);
      assert rs[1..][|rs| - 2] == rs[|rs| - 1];
      ForwardInOrder(cap, rate, c, rs[1..]);
    } else {
      assert rs[1..] == [];
    }
  }

  /** Over a run under a clock that does not go back, from any state of the hash, no more is granted
      than the capacity and what the rate brings between its first and last request. */
  lemma GrantsBounded(cap: real, rate: real, b: Bucket, rs: seq<Request>)
    requires cap >= 0.0 && rate >= 0.0 && RefillsInTime(cap, rate)
    requires Valid(cap, b) && InOrder(cap, rate, b, rs) && rs != []
    ensures Total(cap, rate, b, rs) <= cap + Earned(rate, rs[|rs| - 1].now - rs[0].now)
  {
    hide Earned, Available, RefillsInTime;
    var r := rs[0];
    StepKeepsBalance(cap, rate, b, r);
    EarnedGrows(rate, 0, 0);
    if |rs| > 1 {
      var c := Next(cap, rate, Before(b, r), r.now, r.req);
      assert rs[1..][|rs| - 2] == rs[|rs| - 1];
      ForwardInOrder(cap, rate, c, rs[1..]);
      GrantsFollowClock(cap, rate, c, rs[1..]);
    } else {
      assert rs[1..] == [];
    }
  }

  lemma {:induction false} InOrderSplits(cap: real, rate: real, b: Bucket, rs: seq<Request>, i: nat)
    requires InOrder(cap, rate, b, rs) && i <= |rs|
    ensures InOrder(cap, rate, b, rs[..i]) && InOrder(cap, rate, After(cap, rate, b, rs[..i]), rs[i..])
    ensures Total(cap, rate, b, rs) == Total(cap, rate, b, rs[..i]) + Total(cap, rate, After(cap, rate, b, rs[..i]), rs[i..])
    decreases |rs|
  {
    if i == 0 {
      assert rs[..0] == [] && rs[0..] == rs;
    } else {
      var c := Next(cap, rate, Before(b, rs[0]), rs[0].now, rs[0].req);
      InOrderSplits(cap, rate, c, rs[1..], i - 1);
      assert rs[..i][0] == rs[0] && rs[..i][1..] == rs[1..][..i - 1] && rs[1..][i - 1..] == rs[i..];
    }
  }

  /** The grants of requests i, ..., j - 1 of a run from an absent hash. */
  lemma IntervalBounded(cap: real, rate: real, rs: seq<Request>, i: nat, j: nat)
    requires cap >= 0.0 && rate >= 0.0 && RefillsInTime(cap, rate)
    requires InOrder(cap, rate, Absent, rs) && i < j <= |rs|
    ensures Total(cap, rate, Absent, rs[..j]) - Total(cap, rate, Absent, rs[..i]) <= cap + Earned(rate, rs[j - 1].now - rs[i].now)
  {
    hide Earned, RefillsInTime, Next, Follows;
    InOrderSplits(cap, rate, Absent, rs, j);
    InOrderSplits(cap, rate, Absent, rs[..j], i);
    assert rs[..j][..i] == rs[..i];
    var b, part := After(cap, rate, Absent, rs[..i]), rs[..j][i..];
    if i > 0 {
      ForwardInOrder(cap, rate, Absent, rs[..i]);
    }
    BalanceStaysInRange(cap, rate, Absent, rs[..i]);
    assert part[0] == rs[i] && part[|part| - 1] == rs[j - 1];
    GrantsBounded(cap, rate, b, part);
  }

  ghost predicate AlwaysBounded(cap: real, rate: real) {
    forall b: Bucket, rs: seq<Request> :: Valid(cap, b) && InOrder(cap, rate, b, rs) && rs != [] ==>
      Total(cap, rate, b, rs) <= cap + Earned(rate, rs[|rs| - 1].now - rs[0].now)
  }

  /** Emptying the bucket, and again once the hash has expired. */
  function Twice(cap: real): seq<Request> {
    [Request(0, cap, false), Request(TTL_MS, cap, true)]
  }

  lemma TwiceTheCapacity(cap: real, rate: real)
    requires cap >= 0.0
    ensures InOrder(cap, rate, Absent, Twice(cap)) && Total(cap, rate, Absent, Twice(cap)) == cap + cap
  {
    var rs := Twice(cap);
    var b := Next(cap, rate, Absent, 0, cap);
    assert b == Kept(0.0, 0);
    assert rs[1..] == [Request(TTL_MS, cap, true)];
    var c := Next(cap, rate, Absent, TTL_MS, cap);
    assert [Request(TTL_MS, cap, true)][1..] == [];
    assert InOrder(cap, rate, c, []);
    assert InOrder(cap, rate, b, rs[1..]);
    assert Total(cap, rate, b, rs[1..]) == cap + Total(cap, rate, c, []);
  }

  lemma FiveMinutes(rate: real)
    ensures Earned(rate, TTL_MS) == 300.0 * rate
  {
    assert TTL_MS as real / 1000.0 == 300.0;
  }

  /** The bound holds in every run if and only if the rate refills the capacity in the 300 seconds
      before an expiry. */
  lemma BoundedIffRefillsInTime(cap: real, rate: real)
    requires cap >= 0.0 && rate >= 0.0
    ensures AlwaysBounded(cap, rate) <==> 300.0 * rate >= cap
  {
    hide Earned, Total, InOrder;
    FiveMinutes(rate);
    if RefillsInTime(cap, rate) {
      forall b: Bucket, rs: seq<Request> | Valid(cap, b) && InOrder(cap, rate, b, rs) && rs != []
        ensures Total(cap, rate, b, rs) <= cap + Earned(rate, rs[|rs| - 1].now - rs[0].now)
      {
        GrantsBounded(cap, rate, b, rs);
      }
    } else {
      TwiceTheCapacity(cap, rate);
      var rs := Twice(cap);
      assert Valid(cap, Absent) && rs[|rs| - 1].now - rs[0].now == TTL_MS;
    }
  }

  /** The pool makes a bucket of r bytes refilled at r / 8 bytes a second, both cut to whole numbers
      for the script: all but the smallest refill in time. */
  lemma PoolRefillsInTime(r: nat)
    ensures RefillsInTime(r as real, ((r as real) / 8.0).Floor as real) <==> r == 0 || r >= 8
  {
    var n := ((r as real) / 8.0).Floor;
    assert n == r / 8;
    assert Earned(n as real, TTL_MS) == 300.0 * n as real;
  }

  /** Asking for 8 bytes, then, eight seconds earlier by its clock, for one, then for 8 again. */
  function ThereAndBack(): seq<Request> {
    [Request(10000, 8.0, false), Request(2000, 1.0, false), Request(10000, 8.0, false)]
  }

  lemma TotalOf(cap: real, rate: real, b: Bucket, r: Request, rest: seq<Request>)
    ensures Total(cap, rate, b, [r] + rest)
      == Grant(cap, rate, Before(b, r), r.now, r.req) + Total(cap, rate, Next(cap, rate, Before(b, r), r.now, r.req), rest)
    ensures Possible(cap, rate, b, [r] + rest)
      <==> CanFollow(b, r) && Possible(cap, rate, Next(cap, rate, Before(b, r), r.now, r.req), rest)
    ensures forall t :: Forward(t, [r] + rest) == (if r.now > t then r.now - t else 0) + Forward(r.now, rest)
  {
    assert ([r] + rest)[1..] == rest;
  }

  lemma EightSeconds()
    ensures Earned(1.0, 8000) == 8.0 && Earned(1.0, 0) == 0.0 && Earned(1.0, TTL_MS) == 300.0
  {
  }

  lemma FirstStep()
    ensures Grant(8.0, 1.0, Absent, 10000, 8.0) == 8.0 && Next(8.0, 1.0, Absent, 10000, 8.0) == Kept(0.0, 10000)
  {
    hide Earned;
  }

  lemma StepBack()
    ensures Grant(8.0, 1.0, Kept(0.0, 10000), 2000, 1.0) == 0.0
    ensures Next(8.0, 1.0, Kept(0.0, 10000), 2000, 1.0) == Kept(0.0, 2000)
  {
    hide Earned;
  }

  lemma StepAgain()
    ensures Grant(8.0, 1.0, Kept(0.0, 2000), 10000, 8.0) == 8.0
    ensures Next(8.0, 1.0, Kept(0.0, 2000), 10000, 8.0) == Kept(0.0, 10000)
  {
    hide Earned;
    EightSeconds();
  }

  /** With a clock that goes back, the time from first to last request is no bound, and the bound by
      its forward steps is met: at 8 bytes and one byte a second, 16 bytes are granted between two
      requests that carry the same time. */
  lemma ClockGoingBack()
    ensures var rs := ThereAndBack();
      && Possible(8.0, 1.0, Absent, rs) && RefillsInTime(8.0, 1.0)
      && Total(8.0, 1.0, Absent, rs) > 8.0 + Earned(1.0, rs[|rs| - 1].now - rs[0].now)
      && Total(8.0, 1.0, Absent, rs) == Balance(8.0, Absent) + Earned(1.0, Forward(rs[0].now, rs))
  {
    hide Total, Possible, Forward, Earned, Grant, Next;
    FirstStep();
    StepBack();
    StepAgain();
    var late, early := Request(10000, 8.0, false), Request(2000, 1.0, false);
    EightSeconds();
    assert [late] + [early, late] == ThereAndBack() && [early] + [late] == [early, late] && [late] + [] == [late];
    TotalOf(8.0, 1.0, Absent, late, [early, late]);
    TotalOf(8.0, 1.0, Kept(0.0, 10000), early, [late]);
    TotalOf(8.0, 1.0, Kept(0.0, 2000), late, []);
    NoRequests();
  }

  lemma NoRequests()
    ensures Total(8.0, 1.0, Kept(0.0, 10000), []) == 0.0
    ensures Possible(8.0, 1.0, Kept(0.0, 10000), []) && Forward(10000, []) == 0
  {
  }
}
