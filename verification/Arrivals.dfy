/** What a schedule means: the set of bus arrivals it announces, in the order
    (arrival time, client). A bus's global slot is its rank in that order. */
module Arrivals {
  import opened Schedule

  datatype Arrival = Arrival(at: int, client: u64)

  function Step(w: Window): nat {
    w.intervalMs * NS_PER_MS
  }

  /** A bus of `w` arrives at time t; a zero interval announces none. */
  predicate ArrivesAt(w: Window, t: int) {
    w.intervalMs > 0 && w.firstMsgNs <= t < w.endTime && (t - w.firstMsgNs) % Step(w) == 0
  }

  /** The buses of a window: the first at its start, then one every interval, in
      nanoseconds, before its end. */
  lemma ArrivalTimes(w: Window, t: int)
    requires w.intervalMs > 0
    ensures ArrivesAt(w, t) <==> t < w.endTime && exists k: nat :: t == w.firstMsgNs + IntervalTimes(w, k)
  {
    var step := w.intervalMs * 1_000_000;
    if ArrivesAt(w, t) {
      var k: nat := (t - w.firstMsgNs) / step;
      assert t == w.firstMsgNs + IntervalTimes(w, k);
    }
    if k: nat :| t == w.firstMsgNs + IntervalTimes(w, k) {
      MultipleOf(k, step);
    }
  }

  function IntervalTimes(w: Window, k: nat): int {
    k * (w.intervalMs * 1_000_000)
  }

  lemma MultipleOf(k: nat, m: nat)
    requires m > 0
    ensures k * m >= 0 && (k * m) % m == 0
  {
    var r := (k * m) % m;
    var d := (k * m) / m - k;
    assert d * m == -r;
    assert d >= 1 ==> d * m >= m;
    assert d <= -1 ==> d * m + m <= 0;
  }

  ghost function ArrivalsOf(s: seq<Window>): set<Arrival> {
    set i, t | 0 <= i < |s| && s[i].firstMsgNs <= t < s[i].endTime && ArrivesAt(s[i], t) :: Arrival(t, s[i].clientId)
  }

  predicate Before(a: Arrival, b: Arrival) {
    a.at < b.at || (a.at == b.at && a.client < b.client)
  }

  ghost function Below(all: set<Arrival>, a: Arrival): set<Arrival> {
    set b | b in all && Before(b, a)
  }

  ghost function Rank(s: seq<Window>, a: Arrival): nat {
    |Below(ArrivalsOf(s), a)|
  }

  lemma ArrivalAt(s: seq<Window>, i: int, t: int)
    requires 0 <= i < |s| && ArrivesAt(s[i], t)
    ensures Arrival(t, s[i].clientId) in ArrivalsOf(s)
  {
  }

  /** The window of an arrival. */
  lemma WindowOf(s: seq<Window>, a: Arrival) returns (i: nat)
    requires a in ArrivalsOf(s)
    ensures i < |s| && ArrivesAt(s[i], a.at) && s[i].clientId == a.client
  {
    i :| 0 <= i < |s| && ArrivesAt(s[i], a.at) && s[i].clientId == a.client;
  }

  lemma Ordered(a: Arrival, b: Arrival)
    ensures a == b || Before(a, b) || Before(b, a)
  {
  }

  lemma SubsetSize<T>(a: set<T>, b: set<T>)
    requires a <= b
    ensures |a| <= |b|
    ensures a != b ==> |a| < |b|
  {
    assert b == a + (b - a);
    assert |b| == |a| + |b - a|;
  }

  // ------------------------------------------------------------- the rank is a bijection

  lemma RankMonotone(all: set<Arrival>, a: Arrival, b: Arrival)
    requires a in all && Before(a, b)
    ensures |Below(all, a)| < |Below(all, b)|
  {
    assert a in Below(all, b) && a !in Below(all, a);
    SubsetSize(Below(all, a), Below(all, b));
  }

  /** Distinct arrivals have distinct ranks, all below the number of arrivals. */
  lemma RankInjective(s: seq<Window>, a: Arrival, b: Arrival)
    requires a in ArrivalsOf(s) && b in ArrivalsOf(s)
    ensures Rank(s, a) < |ArrivalsOf(s)|
    ensures Before(a, b) <==> Rank(s, a) < Rank(s, b)
    ensures Rank(s, a) < Rank(s, b) <==> a.at < b.at || (a.at == b.at && a.client < b.client)
    ensures a == b <==> Rank(s, a) == Rank(s, b)
  {
    var all := ArrivalsOf(s);
    assert a !in Below(all, a);
    SubsetSize(Below(all, a), all);
    if Before(a, b) {
      RankMonotone(all, a, b);
    } else if Before(b, a) {
      RankMonotone(all, b, a);
    }
  }

  lemma {:induction false} Least(all: set<Arrival>) returns (m: Arrival)
    requires all != {}
    ensures m in all && forall b :: b in all && b != m ==> Before(m, b)
  {
    var c :| c in all;
    m := c;
    var rest := all - {c};
    if rest != {} {
      var n := Least(rest);
      Ordered(n, c);
      m := if Before(n, c) then n else c;
    }
    assert forall b :: b in all ==> b == c || b in rest;
  }

  lemma {:induction false} NthArrival(all: set<Arrival>, n: nat) returns (a: Arrival)
    requires n < |all|
    ensures a in all && |Below(all, a)| == n
    decreases n
  {
    var m := Least(all);
    if n == 0 {
      a := m;
      assert Below(all, m) == {};
    } else {
      a := NthArrival(all - {m}, n - 1);
      assert Below(all, a) == Below(all - {m}, a) + {m};
    }
  }

  /** Every slot below the total belongs to exactly one arrival. */
  lemma RankSurjective(s: seq<Window>, n: nat)
    requires n < |ArrivalsOf(s)|
    ensures exists a :: a in ArrivalsOf(s) && Rank(s, a) == n
  {
    var a := NthArrival(ArrivalsOf(s), n);
    assert a in ArrivalsOf(s) && Rank(s, a) == n;
  }

  // ------------------------------------------------------------- growing schedules

  lemma ArrivalsPrefix(p: seq<Window>, s: seq<Window>)
    requires p <= s
    ensures ArrivalsOf(p) <= ArrivalsOf(s)
  {
    forall a | a in ArrivalsOf(p) ensures a in ArrivalsOf(s) {
      var i := WindowOf(p, a);
      ArrivalAt(s, i, a.at);
    }
  }

  lemma ArrivesBeforeEnd(p: seq<Window>, a: Arrival)
    requires ValidSchedule(p) && a in ArrivalsOf(p)
    ensures a.at < p[|p| - 1].endTime
  {
    var i := WindowOf(p, a);
    assert i == |p| - 1 || Precedes(p[i], p[|p| - 1]);
    assert ValidTiming(p[|p| - 1]);
  }

  lemma NewArrivesAfterEnd(p: seq<Window>, s: seq<Window>, b: Arrival)
    requires ValidSchedule(s) && CutOf(p, s) && |p| > 0
    requires b in ArrivalsOf(s) && b !in ArrivalsOf(p)
    ensures p[|p| - 1].endTime <= b.at
  {
    var j := WindowOf(s, b);
    if j < |p| {
      ArrivalAt(p, j, b.at);
    }
    assert j == |p| || Precedes(s[|p|], s[j]);
    assert ValidTiming(s[|p|]);
  }

  /** Where a window begins, everything an earlier cut announced has arrived. */
  lemma LaterArrivals(p: seq<Window>, s: seq<Window>, a: Arrival, b: Arrival)
    requires ValidSchedule(s) && CutOf(p, s)
    requires a in ArrivalsOf(p) && b in ArrivalsOf(s) && b !in ArrivalsOf(p)
    ensures a.at < b.at
  {
    ValidPrefix(p, s);
    ArrivesBeforeEnd(p, a);
    NewArrivesAfterEnd(p, s, b);
  }

  /** Appending later windows moves no slot: old arrivals keep their rank, new
      ones rank above all of them. */
  lemma RankStable(p: seq<Window>, s: seq<Window>, a: Arrival)
    requires ValidSchedule(s) && CutOf(p, s) && a in ArrivalsOf(s)
    ensures a in ArrivalsOf(p) ==> Rank(s, a) == Rank(p, a)
    ensures a !in ArrivalsOf(p) ==> Rank(s, a) >= |ArrivalsOf(p)|
  {
    ArrivalsPrefix(p, s);
    if a in ArrivalsOf(p) {
      forall b | b in Below(ArrivalsOf(s), a) ensures b in ArrivalsOf(p) {
        if b !in ArrivalsOf(p) {
          LaterArrivals(p, s, a, b);
        }
      }
      assert Below(ArrivalsOf(s), a) == Below(ArrivalsOf(p), a);
    } else {
      forall b | b in ArrivalsOf(p) ensures b in Below(ArrivalsOf(s), a) {
        LaterArrivals(p, s, b, a);
      }
      SubsetSize(ArrivalsOf(p), Below(ArrivalsOf(s), a));
    }
  }
}
