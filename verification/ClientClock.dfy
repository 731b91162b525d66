/** The client's bus clock: when its next bus is due, from the windows it was
    promised. It agrees with the sequence numbers the replicas expect. */
module ClientClock {
  import opened Schedule
  import opened Arrivals
  import opened SlotArithmetic
  import opened ClientSequence
  import opened ReplicaSpec

  datatype Promised = Promised(viewId: nat, window: Window)

  class BusClient {
    const config: Config
    var windows: map<u64, Promised>
    var paused: bool
    var activeView: nat
    var viewHint: nat
    var pauseView: nat

    /** What acceptHandshake lets in. */
    ghost predicate Valid()
      reads this`windows
    {
      config.Valid() && forall start :: start in windows ==> WindowOk(start, windows[start].window)
    }

    predicate WindowOk(start: u64, w: Window) {
      w.firstMsgNs == start && w.endTime == start + config.window && w.endTime <= MAX_INT64 && w.intervalMs <= MAX_INT64 / NS_PER_MS
    }

    predicate ViewAllowed(view: nat)
      reads this`paused, this`activeView, this`viewHint, this`pauseView
    {
      !paused && view >= activeView && view >= viewHint && view >= pauseView
    }

    /** Not promised by a view that is over. */
    ghost predicate InView(view: nat)
      reads this`activeView, this`viewHint, this`pauseView
    {
      activeView <= view && viewHint <= view && pauseView <= view
    }

    /** A window that no later view took back has a bus at t. */
    ghost predicate Promises(start: u64, t: int)
      reads this
    {
      start in windows && InView(windows[start].viewId) && ArrivesAt(windows[start].window, t)
    }

    /** A bus of window `start` is due at t, after `last`, and its window has begun. */
    ghost predicate Due(start: u64, now: int, last: int, t: int)
      reads this
    {
      && start in windows && start <= now && ViewAllowed(windows[start].viewId)
      && last < t && ArrivesAt(windows[start].window, t)
    }

    /** A window that has ended, with no bus left or its view not allowed. */
    ghost predicate Expired(start: u64, now: int, last: int)
      reads this
    {
      && start in windows && windows[start].window.endTime <= now
      && (ViewAllowed(windows[start].viewId) ==> forall t :: last < t ==> !ArrivesAt(windows[start].window, t))
    }

    /** acceptHandshake's change of the windows, once the reply was checked
        against the request. */
    method AcceptWindow(view: nat, w: Window) returns (ok: bool)
      requires Valid() && WindowOk(w.firstMsgNs, w)
      modifies this`windows, this`activeView, this`paused
      ensures Valid()
      ensures ok <==> (view >= pauseView && view >= viewHint && (w.firstMsgNs in old(windows) ==>
        var known := old(windows)[w.firstMsgNs].window; known.intervalMs == w.intervalMs && known.endTime == w.endTime))
      ensures forall start: u64, t :: start in old(windows) ==>
        (start in windows && (ArrivesAt(windows[start].window, t) <==> old(ArrivesAt(windows[start].window, t))))
      ensures windows == if ok then old(windows)[w.firstMsgNs := Promised(view, w)] else old(windows)
      ensures paused == (old(paused) && !ok) && activeView == if ok && old(paused) then view else old(activeView)
    {
      if w.firstMsgNs in windows {
        var known := windows[w.firstMsgNs].window;
        if known.intervalMs != w.intervalMs || known.endTime != w.endTime {
          return false;
        }
      }
      if view < pauseView || view < viewHint {
        return false;
      }
      windows := windows[w.firstMsgNs := Promised(view, w)];
      if paused {
        activeView := view;
        paused := false;
      }
      return true;
    }

    /** The first arrival of a window after `last`. */
    method ArrivalAfter(start: u64, w: Window, last: u64) returns (arrival: int)
      requires w.firstMsgNs == start && w.intervalMs > 0 && last <= MAX_INT64 && w.intervalMs <= MAX_INT64 / NS_PER_MS
      ensures last < arrival < TWO_TO_THE_64
      ensures ArrivesAt(w, arrival) <==> arrival < w.endTime
      ensures forall t :: last < t < arrival ==> !ArrivesAt(w, t)
    {
      arrival := start;
      if last >= start {
        var step := w.intervalMs * NS_PER_MS;
        NextInWindow(w, last + 1);
        assert NextOnGrid(start, step, last + 1) == start + ((last - start) / step + 1) * step;
        arrival := arrival + ((last - start) / step + 1) * step;
      } else {
        GridArrivals(w);
        GridPoint(start, Step(w), 0);
      }
    }

    /** nextBusArrival: the least due arrival of all windows, in any order. It
        drops exactly the windows that have expired. */
    method NextBusArrival(now: u64, last: u64) returns (next: u64, found: bool)
      requires Valid() && last <= MAX_INT64
      modifies this`windows
      ensures Valid()
      ensures found ==> !paused && last < next
      ensures found ==> exists start :: start in old(windows) && start <= now && old(Promises(start, next))
      ensures !found && !paused ==> forall start: u64, t :: start <= now && last < t ==> !old(Promises(start, t))
      ensures found ==> exists start :: old(Due(start, now, last, next))
      ensures found ==> forall start, t :: old(Due(start, now, last, t)) ==> next <= t
      ensures !found ==> forall start, t :: !old(Due(start, now, last, t))
      ensures forall start :: start in windows <==> start in old(windows) && !old(Expired(start, now, last))
      ensures forall start :: start in windows ==> windows[start] == old(windows)[start]
    {
      hide ArrivesAt;
      next, found := 0, false;
      var rest := windows.Keys;
      ghost var done: set<u64> := {};
      while rest != {}
        invariant done + rest == old(windows).Keys && done !! rest && rest <= windows.Keys
        invariant Valid()
        invariant found ==> exists start :: old(Due(start, now, last, next))
        invariant found ==> forall start, t :: start in done && old(Due(start, now, last, t)) ==> next <= t
        invariant !found ==> forall start, t :: start in done ==> !old(Due(start, now, last, t))
        invariant forall start :: start in done ==> (start in windows <==> !old(Expired(start, now, last)))
        invariant forall start :: start in windows ==> start in old(windows) && windows[start] == old(windows)[start]
      {
        var start: u64 :| start in rest;
        rest, done := rest - {start}, done + {start};
        if start > now {
          continue;
        }
        var m := windows[start];
        BusesWithin(m.window);
        if m.window.intervalMs == 0 || !ViewAllowed(m.viewId) {
          if m.window.endTime <= now {
            windows := windows - {start};
          }
          continue;
        }
        var arrival := ArrivalAfter(start, m.window, last);
        if arrival >= m.window.endTime {
          if m.window.endTime <= now {
            windows := windows - {start};
          }
          continue;
        }
        assert old(Due(start, now, last, arrival));
        if !found || arrival < next {
          next, found := arrival, true;
        }
      }
      forall start: u64, t | start <= now && last < t && !found && !paused ensures !old(Promises(start, t)) {
        assert !old(Due(start, now, last, t));
      }
    }

    static lemma BusesWithin(w: Window)
      ensures forall t :: ArrivesAt(w, t) ==> w.intervalMs > 0 && t < w.endTime
    {
    }

    /** The client's windows, all allowed, are what the replica's line holds. */
    ghost predicate SameWindows(line: seq<Window>)
      reads this
    {
      && (forall i :: 0 <= i < |line| ==> Holds(line[i]))
      && (forall start :: start in windows ==> windows[start].window in line)
    }

    ghost predicate Holds(w: Window)
      reads this
    {
      w.firstMsgNs in windows && windows[w.firstMsgNs].window == w && ViewAllowed(windows[w.firstMsgNs].viewId)
    }

    /** The least time at which a bus is due. */
    ghost predicate NextDue(now: int, last: int, next: int)
      reads this
    {
      (exists start :: Due(start, now, last, next)) && (forall start, t :: Due(start, now, last, t) ==> next <= t)
    }

    lemma DueOnLine(line: seq<Window>, start: u64, now: int, last: int, t: int) returns (i: nat)
      requires Valid() && SameWindows(line) && Due(start, now, last, t)
      ensures i < |line| && line[i].firstMsgNs == start && ArrivesAt(line[i], t)
    {
      i :| 0 <= i < |line| && line[i] == windows[start].window;
    }

    lemma OnLineDue(line: seq<Window>, i: nat, now: int, last: int, t: int)
      requires SameWindows(line) && i < |line| && ArrivesAt(line[i], t) && line[i].firstMsgNs <= now && last < t
      ensures Due(line[i].firstMsgNs, now, last, t)
    {
      assert Holds(line[i]);
    }

    lemma DueIsFirst(line: seq<Window>, now: int, last: int, next: int, t: int)
      requires Valid() && DisjointWindows(line) && SameWindows(line) && NextDue(now, last, next)
      ensures last < t < next ==> !Announced(line, t)
    {
      if last < t < next && Announced(line, t) {
        var j :| 0 <= j < |line| && ArrivesAt(line[j], t);
        var start :| Due(start, now, last, next);
        var i := DueOnLine(line, start, now, last, next);
        if line[j].firstMsgNs <= now {
          OnLineDue(line, j, now, last, t);
        }
      }
    }

    /** The clock refines the replica's sequence: the bus that is due after `last`
        is the next sequence number after `last`, if that one's window has begun;
        otherwise none is due. */
    lemma ClockIsSequence(line: seq<Window>, now: int, last: int, next: int)
      requires Valid() && DisjointWindows(line) && SameWindows(line)
      ensures NextDue(now, last, next) <==>
        FirstFrom(line, last + 1, next) && exists i :: 0 <= i < |line| && ArrivesAt(line[i], next) && line[i].firstMsgNs <= now
    {
      hide SameWindows, DisjointWindows, Due;
      if NextDue(now, last, next) {
        var start :| Due(start, now, last, next);
        var i := DueOnLine(line, start, now, last, next);
        DueFacts(start, now, last, next);
        forall t | last + 1 <= t < next ensures !Announced(line, t) {
          DueIsFirst(line, now, last, next, t);
        }
      }
      if FirstFrom(line, last + 1, next) && exists i :: 0 <= i < |line| && ArrivesAt(line[i], next) && line[i].firstMsgNs <= now {
        var i :| 0 <= i < |line| && ArrivesAt(line[i], next) && line[i].firstMsgNs <= now;
        OnLineDue(line, i, now, last, next);
        forall start, t | Due(start, now, last, t) ensures next <= t {
          var j := DueOnLine(line, start, now, last, t);
          DueFacts(start, now, last, t);
          assert Announced(line, t);
        }
      }
    }

    lemma DueFacts(start: u64, now: int, last: int, t: int)
      requires Due(start, now, last, t)
      ensures start <= now && last < t
    {
    }
  }
}
