/** The rolling arrival schedule: windows, the order validateSchedule demands of
    them, and the prefix relations the protocol compares histories with. */
module Schedule {

  const TWO_TO_THE_64 := 0x1_0000_0000_0000_0000
  const MAX_INT64 := 0x7fff_ffff_ffff_ffff
  const NS_PER_MS := 1_000_000
  const MAX_HISTORY := 0x100_0000
  const MAX_SCHEDULE_LEN := 0x1_0000

  type u64 = x: int | 0 <= x < TWO_TO_THE_64

  /** One announcement: client `clientId` sends a bus at `firstMsgNs` and then
      every `intervalMs` until `endTime` (exclusive). */
  datatype Window = Window(endTime: u64, clientId: u64, firstMsgNs: u64, intervalMs: u64)

  predicate ValidTiming(w: Window) {
    w.firstMsgNs < w.endTime <= MAX_INT64 && w.intervalMs <= MAX_INT64 / NS_PER_MS
  }

  /** `a` may stand before `b`: in the same window by ascending client, or in
      disjoint windows in time order. */
  predicate Precedes(a: Window, b: Window) {
    || (a.firstMsgNs == b.firstMsgNs && a.endTime == b.endTime && a.clientId < b.clientId)
    || a.endTime <= b.firstMsgNs
  }

  ghost predicate ValidSchedule(s: seq<Window>) {
    && |s| <= MAX_HISTORY
    && (forall i :: 0 <= i < |s| ==> ValidTiming(s[i]))
    && (forall i, j :: 0 <= i < j < |s| ==> Precedes(s[i], s[j]))
  }

  method ValidateSchedule(s: seq<Window>) returns (ok: bool)
    ensures ok <==> ValidSchedule(s)
  {
    if |s| > MAX_HISTORY {
      return false;
    }
    for i := 0 to |s|
      invariant forall j :: 0 <= j < i ==> ValidTiming(s[j])
      invariant forall j, k :: 0 <= j < k < i ==> Precedes(s[j], s[k])
    {
      var m := s[i];
      if m.endTime > MAX_INT64 || m.firstMsgNs > MAX_INT64 || m.endTime <= m.firstMsgNs
         || m.intervalMs > MAX_INT64 / NS_PER_MS {
        return false;
      }
      if i > 0 {
        var p := s[i - 1];
        if m.firstMsgNs < p.firstMsgNs
           || (m.firstMsgNs == p.firstMsgNs && (m.endTime != p.endTime || m.clientId <= p.clientId))
           || (m.firstMsgNs > p.firstMsgNs && m.firstMsgNs < p.endTime) {
          assert !Precedes(p, m);
          return false;
        }
        forall j | 0 <= j < i ensures Precedes(s[j], s[i]) {
          assert j == i - 1 || Precedes(s[j], p);
        }
      }
    }
    return true;
  }

  method SchedulesEqual(a: seq<Window>, b: seq<Window>) returns (eq: bool)
    ensures eq <==> a == b
  {
    if |a| != |b| {
      return false;
    }
    for i := 0 to |a|
      invariant a[..i] == b[..i]
    {
      if a[i] != b[i] {
        return false;
      }
    }
    return true;
  }

  method SchedulePrefix(a: seq<Window>, b: seq<Window>) returns (prefix: bool)
    ensures prefix <==> a <= b
  {
    if |a| > |b| {
      return false;
    }
    prefix := SchedulesEqual(a, b[..|a|]);
  }

  /** `p` is a prefix of `s` that does not cut a window in two. */
  predicate CutOf(p: seq<Window>, s: seq<Window>) {
    && p <= s
    && (0 < |p| < |s| ==> p[|p| - 1].endTime <= s[|p|].firstMsgNs)
  }

  ghost predicate Comparable(a: seq<Window>, b: seq<Window>) {
    CutOf(a, b) || CutOf(b, a)
  }

  lemma CutOfTransitive(a: seq<Window>, b: seq<Window>, c: seq<Window>)
    requires CutOf(a, b) && CutOf(b, c)
    ensures CutOf(a, c)
  {
    if 0 < |a| < |b| {
      assert b[|a|] == c[|a|];
    }
  }

  lemma CutsComparable(a: seq<Window>, b: seq<Window>, c: seq<Window>)
    requires CutOf(a, c) && CutOf(b, c)
    ensures |a| <= |b| ==> CutOf(a, b)
    ensures Comparable(a, b)
  {
    if |a| <= |b| {
      assert a == c[..|a|] && b == c[..|b|];
      if 0 < |a| < |b| {
        assert b[|a|] == c[|a|];
      }
    } else {
      assert a == c[..|a|] && b == c[..|b|];
      if 0 < |b| {
        assert a[|b|] == c[|b|];
      }
    }
  }

  /** A prefix that is longer than a cut keeps the cut. */
  lemma CutOfExtend(a: seq<Window>, b: seq<Window>, c: seq<Window>)
    requires CutOf(a, b) && b <= c && |a| < |b|
    ensures CutOf(a, c)
  {
    if 0 < |a| {
      assert c[|a|] == b[|a|];
    }
  }

  lemma ValidPrefix(p: seq<Window>, s: seq<Window>)
    requires ValidSchedule(s) && p <= s
    ensures ValidSchedule(p)
  {
    forall i | 0 <= i < |p| ensures p[i] == s[i] {}
  }
}
