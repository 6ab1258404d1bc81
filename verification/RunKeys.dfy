/** Seek positions, the keys under which transcode runs are shared, and when a run is idle for too
    long. */
module RunKeys {
  import opened Decimals
  import opened Options

  const QUANTUM := 30.0

  /** How long a run without references is kept. */
  const GRACE := 10.0

  /** A run in the manager's map; idleSince is None while the run is in use. */
  datatype Mapped<R> = Mapped(run: R, idleSince: Option<real>)

  /** What the reaper takes: a run out of use for longer than the grace period. */
  predicate LongIdle(refCount: int, idleSince: Option<real>, now: real) {
    refCount <= 0 && idleSince.Some? && now - idleSince.value > GRACE
  }

  /** The n-th position of the grid. */
  function Position(n: nat): real {
    n as real * QUANTUM
  }

  ghost predicate OnGrid(q: real) {
    exists n: nat :: q == Position(n)
  }

  /** Seek positions are rounded down to the grid; nothing lies before the beginning. */
  function Quantize(t: real): (q: real)
    ensures OnGrid(q)
    ensures if t > 0.0 then q <= t < q + 30.0 else q == 0.0
  {
    if t <= 0.0 then
      assert Position(0) == 0.0;
      0.0
    else
      Position((t / QUANTUM).Floor)
  }

  /** Thousandths with three decimals. */
  function Thousandths(millis: nat): (s: string)
    ensures ':' !in s
  {
    var d := Decimal(millis / 1000);
    assert ':' !in d by {
      assert forall i :: 0 <= i < |d| ==> d[i] <= '9';
    }
    d + ['.', Digit(millis / 100 % 10), Digit(millis / 10 % 10), Digit(millis % 10)]
  }

  /** A non-negative number with three decimals, as in `%.3f`. */
  function Fixed3(x: real): string
    requires x >= 0.0
  {
    Thousandths((x * 1000.0 + 0.5).Floor)
  }

  function RunKey(hashDir: string, seek: real): string
    requires seek >= 0.0
  {
    (hashDir + ":seek") + ":" + Fixed3(seek)
  }

  lemma {:induction false} SuffixesAgree(a: string, b: string, x: string, y: string)
    requires a + ":" + x == b + ":" + y
    requires ':' !in x && ':' !in y
    ensures a == b && x == y
  {
    if x == [] || y == [] {
      assert (a + ":" + x)[|a + ":" + x| - 1] == (b + ":" + y)[|a + ":" + x| - 1];
      assert x == y;
      assert a == (a + ":" + x)[..|a|] && b == (b + ":" + y)[..|b|];
    } else {
      var x', y' := x[..|x| - 1], y[..|y| - 1];
      assert a + ":" + x == (a + ":" + x') + [x[|x| - 1]];
      assert b + ":" + y == (b + ":" + y') + [y[|y| - 1]];
      assert a + ":" + x' == (a + ":" + x)[..|a + ":" + x| - 1];
      assert b + ":" + y' == (b + ":" + y)[..|b + ":" + y| - 1];
      SuffixesAgree(a, b, x', y');
      assert x == x' + [x[|x| - 1]] && y == y' + [y[|y| - 1]];
    }
  }

  lemma MillisOnGrid(n: nat)
    ensures Position(n) >= 0.0 && (Position(n) * 1000.0 + 0.5).Floor == 30000 * n
  {
    assert Position(n) * 1000.0 + 0.5 == (30000 * n) as real + 0.5;
  }

  lemma WholeThousands(n: nat)
    ensures Thousandths(30000 * n) == Decimal(30 * n) + ['.', '0', '0', '0']
  {
    hide Decimal;
    assert 30000 * n / 1000 == 30 * n;
    assert 30000 * n / 100 == 10 * (30 * n);
    assert 30000 * n / 10 == 10 * (300 * n);
    assert 30000 * n == 10 * (3000 * n);
  }

  lemma FixedOnGrid(n: nat)
    ensures Position(n) >= 0.0
    ensures Fixed3(Position(n)) == Decimal(30 * n) + ['.', '0', '0', '0']
  {
    hide Decimal, Thousandths, Position;
    MillisOnGrid(n);
    WholeThousands(n);
  }

  /** The key of a directory and a position of the grid: the position is a multiple of 30 seconds. */
  lemma KeyOnGrid(hashDir: string, n: nat)
    ensures Position(n) == (30 * n) as real >= 0.0
    ensures RunKey(hashDir, Position(n)) == hashDir + ":seek:" + Decimal(30 * n) + ".000"
  {
    hide Decimal, Thousandths, Fixed3;
    FixedOnGrid(n);
    assert (hashDir + ":seek") + ":" == hashDir + ":seek:";
  }

  lemma FixedTellsApart(n: nat, m: nat)
    requires Position(n) >= 0.0 && Position(m) >= 0.0
    requires Fixed3(Position(n)) == Fixed3(Position(m))
    ensures n == m
  {
    hide Decimal, DecimalValue, Fixed3;
    FixedOnGrid(n);
    FixedOnGrid(m);
    var d, e := Decimal(30 * n), Decimal(30 * m);
    var f := d + ['.', '0', '0', '0'];
    assert f[..|f| - 4] == d;
    assert f == e + ['.', '0', '0', '0'];
    assert f[..|f| - 4] == e;
    DecimalReadsBack(30 * n);
    DecimalReadsBack(30 * m);
  }

  /** Positions of the grid share a key exactly when directory and position are the same. */
  lemma KeysTellApart(h1: string, q1: real, h2: string, q2: real)
    requires OnGrid(q1) && OnGrid(q2)
    ensures q1 >= 0.0 && q2 >= 0.0
    ensures RunKey(h1, q1) == RunKey(h2, q2) <==> h1 == h2 && q1 == q2
  {
    hide Thousandths;
    var n1: nat :| q1 == Position(n1);
    var n2: nat :| q2 == Position(n2);
    if RunKey(h1, q1) == RunKey(h2, q2) {
      SuffixesAgree(h1 + ":seek", h2 + ":seek", Fixed3(q1), Fixed3(q2));
      assert h1 == (h1 + ":seek")[..|h1 + ":seek"| - 5] && h2 == (h2 + ":seek")[..|h2 + ":seek"| - 5];
      FixedTellsApart(n1, n2);
    }
  }
}
