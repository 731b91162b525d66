/** When 64 bits are enough for the global slot: exactly when the schedule
    announces at most 2^64 arrivals. The order check alone does not ensure that;
    the limit on entries per window does. */
module SlotRange {
  import opened Schedule
  import opened Arrivals
  import opened SlotArithmetic
  import opened GlobalSlot
  import opened ReplicaSpec

  /** The slot computeGlobalSlot gives an arrival. */
  ghost function SlotOf(s: seq<Window>, a: Arrival): u64 {
    Wrap(Rank(s, a))
  }

  ghost predicate SlotsDistinct(s: seq<Window>) {
    forall a, b :: a in ArrivalsOf(s) && b in ArrivalsOf(s) && a != b ==> SlotOf(s, a) != SlotOf(s, b)
  }

  /** Slots identify arrivals exactly when there are no more of them than words. */
  lemma SlotsDistinctIff(s: seq<Window>)
    ensures SlotsDistinct(s) <==> |ArrivalsOf(s)| <= TWO_TO_THE_64
  {
    hide ArrivalsOf, Rank, Wrap;
    if |ArrivalsOf(s)| <= TWO_TO_THE_64 {
      forall a, b | a in ArrivalsOf(s) && b in ArrivalsOf(s) && a != b ensures SlotOf(s, a) != SlotOf(s, b) {
        RankInjective(s, a, b);
        RankInjective(s, b, a);
        WrapSmall(Rank(s, a));
        WrapSmall(Rank(s, b));
      }
    } else {
      RankSurjective(s, 0);
      RankSurjective(s, TWO_TO_THE_64);
      var a :| a in ArrivalsOf(s) && Rank(s, a) == 0;
      var b :| b in ArrivalsOf(s) && Rank(s, b) == TWO_TO_THE_64;
      WrapAround();
      assert SlotOf(s, a) == SlotOf(s, b);
    }
  }

  lemma WrapAround()
    ensures Wrap(TWO_TO_THE_64) == Wrap(0)
  {
  }

  // ------------------------------------------------------------- enough

  function Span(s: seq<Window>): int {
    if s == [] then 0
    else Span(s[..|s| - 1]) + (s[|s| - 1].endTime - s[|s| - 1].firstMsgNs)
  }

  lemma QuotientBound(n: nat, k: nat)
    requires k >= NS_PER_MS
    ensures (n / k) * NS_PER_MS <= n
  {
    var q := n / k;
    assert n == q * k + n % k;
    assert q * (k - NS_PER_MS) >= 0;
  }

  lemma FewInWindow(w: Window)
    requires ValidTiming(w)
    ensures |WindowTimes(w, w.endTime)| * NS_PER_MS <= w.endTime - w.firstMsgNs + NS_PER_MS
  {
    hide WindowTimes;
    WindowCounted(w, w.endTime);
    if w.intervalMs > 0 {
      QuotientBound(w.endTime - w.firstMsgNs - 1, Step(w));
    }
  }

  lemma ArrivalsAppend(s: seq<Window>)
    requires |s| > 0
    ensures var front, last := s[..|s| - 1], s[|s| - 1];
      && ArrivalsOf(s) == ArrivalsOf(front) + ArrivalsOf([last])
      && |ArrivalsOf([last])| == |WindowTimes(last, last.endTime)|
  {
    var front, last := s[..|s| - 1], s[|s| - 1];
    forall a | a in ArrivalsOf(s) ensures a in ArrivalsOf(front) + ArrivalsOf([last]) {
      var i := WindowOf(s, a);
      if i < |front| { ArrivalAt(front, i, a.at); } else { ArrivalAt([last], 0, a.at); }
    }
    ArrivalsPrefix(front, s);
    forall a | a in ArrivalsOf([last]) ensures a in ArrivalsOf(s) && a.client == last.clientId && a.at in WindowTimes(last, last.endTime) {
      var i := WindowOf([last], a);
      ArrivalAt(s, |s| - 1, a.at);
    }
    forall t: nat | t in WindowTimes(last, last.endTime) ensures Arrival(t, last.clientId) in ArrivalsOf([last]) {
      ArrivalAt([last], 0, t);
    }
    SizeOfImage(WindowTimes(last, last.endTime), last.clientId, ArrivalsOf([last]));
  }

  lemma {:induction false} FewPerSpan(s: seq<Window>)
    requires forall i :: 0 <= i < |s| ==> ValidTiming(s[i])
    ensures |ArrivalsOf(s)| * NS_PER_MS <= Span(s) + |s| * NS_PER_MS
  {
    if s == [] {
      assert ArrivalsOf(s) == {};
    } else {
      var front, last := s[..|s| - 1], s[|s| - 1];
      FewPerSpan(front);
      ArrivalsAppend(s);
      FewInWindow(last);
      assert |ArrivalsOf(s)| <= |ArrivalsOf(front)| + |ArrivalsOf([last])|;
    }
  }

  /** Windows of different starts do not overlap, so with at most `limit`
      entries each they span at most `limit` times the time line. */
  lemma {:induction false} SpanBounded(s: seq<Window>, limit: nat)
    requires ValidSchedule(s) && |s| > 0
    requires forall start :: |WindowAt(s, start)| <= limit
    ensures var last := s[|s| - 1];
      Span(s) <= limit * last.firstMsgNs + |WindowAt(s, last.firstMsgNs)| * (last.endTime - last.firstMsgNs)
  {
    var front, last := s[..|s| - 1], s[|s| - 1];
    var d := last.endTime - last.firstMsgNs;
    var m := |WindowAt(front, last.firstMsgNs)|;
    assert |WindowAt(s, last.firstMsgNs)| == m + 1;
    if front != [] {
      ValidPrefix(front, s);
      forall start ensures |WindowAt(front, start)| <= limit {
        assert |WindowAt(front, start)| <= |WindowAt(s, start)|;
      }
      SpanBounded(front, limit);
      var prev := front[|front| - 1];
      assert Precedes(s[|s| - 2], s[|s| - 1]);
      if prev.firstMsgNs == last.firstMsgNs && prev.endTime == last.endTime {
        assert (m + 1) * d == m * d + d;
      } else {
        var g := |WindowAt(front, prev.firstMsgNs)|;
        SpanStep(limit, g, prev.firstMsgNs, prev.endTime, last.firstMsgNs);
        Grow(m + 1, d);
      }
    } else {
      Grow(m + 1, d);
    }
  }

  lemma SpanStep(limit: nat, g: nat, first: nat, end: nat, next: nat)
    requires g <= limit && first <= end <= next
    ensures limit * first + g * (end - first) <= limit * next
  {
    assert (limit - g) * (end - first) >= 0;
    assert limit * (next - end) >= 0;
  }

  lemma Grow(g: nat, d: nat)
    requires g >= 1
    ensures d <= g * d
  {
  }

  /** With at most 2^16 entries per window, the limit a proposal is held to, no
      slot of any valid schedule wraps around. */
  lemma SlotsFit(s: seq<Window>)
    requires ValidSchedule(s)
    requires forall start :: |WindowAt(s, start)| <= MAX_SCHEDULE_LEN
    ensures |ArrivalsOf(s)| < TWO_TO_THE_64
    ensures forall a :: a in ArrivalsOf(s) ==> SlotOf(s, a) == Rank(s, a)
  {
    hide ArrivalsOf, Rank, WindowAt, Span;
    if s == [] {
      NoArrivals();
    } else {
      var last := s[|s| - 1];
      SpanBounded(s, MAX_SCHEDULE_LEN);
      var g := |WindowAt(s, last.firstMsgNs)|;
      SpanStep(MAX_SCHEDULE_LEN, g, last.firstMsgNs, last.endTime, MAX_INT64);
      assert ValidTiming(last);
      FewPerSpan(s);
    }
    forall a | a in ArrivalsOf(s) ensures SlotOf(s, a) == Rank(s, a) {
      RankInjective(s, a, a);
    }
  }

  // ------------------------------------------------------------- too many

  /** n clients that each announce a bus every millisecond for all time. */
  function Crowd(n: nat): seq<Window>
    requires n <= MAX_HISTORY
  {
    seq(n, i requires 0 <= i < n => Window(MAX_INT64, i, 1, 1))
  }

  const BUSES_PER_CROWD_CLIENT := 9_223_372_036_855

  lemma CrowdWindow(w: Window)
    requires w.endTime == MAX_INT64 && w.firstMsgNs == 1 && w.intervalMs == 1
    ensures WindowCount(w, w.endTime, false) == BUSES_PER_CROWD_CLIENT
  {
  }

  lemma {:induction false} CrowdCount(n: nat)
    requires n <= MAX_HISTORY
    ensures |ArrivalsOf(Crowd(n))| == n * BUSES_PER_CROWD_CLIENT
  {
    hide ArrivalsOf, WindowTimes, WindowCount;
    var s := Crowd(n);
    if n == 0 {
      NoArrivals();
    } else {
      assert s[..n - 1] == Crowd(n - 1);
      CrowdCount(n - 1);
      ArrivalsAppend(s);
      var last := s[n - 1];
      WindowCounted(last, last.endTime);
      CrowdWindow(last);
      forall a | a in ArrivalsOf(Crowd(n - 1)) ensures a !in ArrivalsOf([last]) {
        var i := WindowOf(Crowd(n - 1), a);
        if a in ArrivalsOf([last]) {
          var j := WindowOf([last], a);
        }
      }
    }
  }

  lemma NoArrivals()
    ensures ArrivalsOf([]) == {}
  {
  }

  /** A history that validateSchedule accepts can give two buses one slot. */
  lemma SlotsCollide()
    ensures var s := Crowd(0x20_0000);
      ValidSchedule(s) && !SlotsDistinct(s)
  {
    CrowdCount(0x20_0000);
    SlotsDistinctIff(Crowd(0x20_0000));
  }
}
