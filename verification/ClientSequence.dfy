/** A client line's arrival times as sequence numbers: which are valid, and which
    comes next. The sequence number 0 stands for "none". */
module ClientSequence {
  import opened Schedule
  import opened Arrivals
  import opened SlotArithmetic

  ghost predicate Announced(windows: seq<Window>, t: int) {
    exists i :: 0 <= i < |windows| && ArrivesAt(windows[i], t)
  }

  /** n is the first announced time that is not before `from`. */
  ghost predicate FirstFrom(windows: seq<Window>, from: int, n: int) {
    && from <= n && Announced(windows, n)
    && forall t :: from <= t < n ==> !Announced(windows, t)
  }

  ghost predicate NoneFrom(windows: seq<Window>, from: int) {
    forall t :: from <= t ==> !Announced(windows, t)
  }

  /** Only the window around t can announce it. */
  lemma AnnouncedAround(windows: seq<Window>, i: nat, t: int)
    requires DisjointWindows(windows) && i <= |windows|
    requires forall j :: 0 <= j < i ==> windows[j].endTime <= t
    requires i < |windows| ==> t < windows[i].endTime
    ensures Announced(windows, t) <==> i < |windows| && ArrivesAt(windows[i], t)
  {
  }

  /** validSequence: seq is an announced arrival of a window committed by `end`. */
  method ValidSequence(line: ClientLine, sequence: u64, end: u64) returns (ok: bool)
    requires |line.windows| > 0 ==> LineOk(line)
    ensures |line.windows| > 0 ==>
      (ok <==> exists i :: 0 <= i < |line.windows| && ArrivesAt(line.windows[i], sequence) && line.windows[i].endTime <= end)
    ensures |line.windows| == 0 ==> ok
  {
    if |line.windows| == 0 {
      return true;
    }
    var i := SearchEnd(line.windows, sequence);
    if i < |line.windows| {
      var w := line.windows[i];
      ok := w.intervalMs != 0 && sequence >= w.firstMsgNs && w.endTime <= end
            && (sequence - w.firstMsgNs) % Step(w) == 0;
      assert forall j :: 0 <= j < |line.windows| && ArrivesAt(line.windows[j], sequence) ==> j == i;
      assert ok ==> ArrivesAt(w, sequence);
      return;
    }
    return false;
  }

  predicate OnGrid(first: int, step: int, t: int)
    requires step > 0
  {
    (t - first) % step == 0
  }

  lemma OffGrid(first: int, step: int, q: int, t: int)
    requires step > 0 && 0 < t - (first + q * step) < step
    ensures !OnGrid(first, step, t)
  {
    QuotientIs(t - first, step, q, t - (first + q * step));
  }

  function NextOnGrid(first: int, step: int, from: int): int
    requires step > 0
  {
    first + ((from - first - 1) / step + 1) * step
  }

  /** The next point of the grid first, first + step, ... that is not before `from`. */
  lemma RoundUp(first: int, step: int, from: int)
    requires step > 0 && first < from
    ensures var n := NextOnGrid(first, step, from);
      && from <= n < from + step && OnGrid(first, step, n)
      && (forall t :: from <= t < n ==> !OnGrid(first, step, t))
  {
    var q, r := (from - first - 1) / step, (from - first - 1) % step;
    var n := NextOnGrid(first, step, from);
    assert from - first - 1 == q * step + r;
    assert (q + 1) * step == q * step + step;
    hide NextOnGrid, OnGrid;
    GridPoint(first, step, q + 1);
    forall t | from <= t < n ensures !OnGrid(first, step, t) {
      OffGrid(first, step, q, t);
    }
  }

  lemma GridPoint(first: int, step: int, q: int)
    requires step > 0
    ensures OnGrid(first, step, first + q * step)
  {
    QuotientIs(q * step, step, q, 0);
  }

  lemma NextInWindow(w: Window, from: int)
    requires w.intervalMs > 0 && w.firstMsgNs < from
    ensures var n := NextOnGrid(w.firstMsgNs, Step(w), from);
      && from <= n < from + Step(w)
      && (ArrivesAt(w, n) <==> n < w.endTime)
      && (forall t :: from <= t < n ==> !ArrivesAt(w, t))
  {
    hide NextOnGrid;
    RoundUp(w.firstMsgNs, Step(w), from);
    GridArrivals(w);
  }

  lemma GridArrivals(w: Window)
    requires w.intervalMs > 0
    ensures forall t :: ArrivesAt(w, t) <==> w.firstMsgNs <= t < w.endTime && OnGrid(w.firstMsgNs, Step(w), t)
  {
  }

  /** The windows before i announce nothing from `from` on. */
  ghost predicate Passed(windows: seq<Window>, i: nat, from: int)
    requires i <= |windows|
  {
    forall j, t :: 0 <= j < i && from <= t ==> !ArrivesAt(windows[j], t)
  }

  lemma FoundNext(windows: seq<Window>, i: nat, from: int, n: int)
    requires DisjointWindows(windows) && i < |windows| && Passed(windows, i, from)
    requires from <= n && ArrivesAt(windows[i], n) && forall t :: from <= t < n ==> !ArrivesAt(windows[i], t)
    ensures FirstFrom(windows, from, n)
  {
    forall t | from <= t < n ensures !Announced(windows, t) {
    }
  }

  /** nextSequence: the first announced arrival from `sequence` on. Its 0 for
      "none" is also what it says when that arrival is at time 0. */
  method NextSequence(line: ClientLine, sequence: u64) returns (n: u64)
    requires DisjointWindows(line.windows)
    ensures FirstFrom(line.windows, sequence, n) || (n == 0 && NoneFrom(line.windows, sequence))
  {
    var i := SearchEnd(line.windows, sequence);
    while i < |line.windows|
      invariant i <= |line.windows| && Passed(line.windows, i, sequence)
      invariant i < |line.windows| ==> sequence < line.windows[i].endTime
    {
      var w := line.windows[i];
      if w.intervalMs != 0 {
        if sequence <= w.firstMsgNs {
          FoundNext(line.windows, i, sequence, w.firstMsgNs);
          return w.firstMsgNs;
        }
        var step := Step(w);
        NextInWindow(w, sequence);
        var next := w.firstMsgNs + ((sequence - w.firstMsgNs - 1) / step + 1) * step;
        if next < w.endTime {
          FoundNext(line.windows, i, sequence, next);
          return next;
        }
      }
      i := i + 1;
      assert i < |line.windows| ==> w.endTime <= line.windows[i].firstMsgNs && ValidTiming(line.windows[i]);
    }
    return 0;
  }
}
