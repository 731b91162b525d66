/** What one handler does to the committed end, stated on the entries it covers. */
module CommitMarks {
  import opened Schedule
  import opened ReplicaSpec
  import opened Agreement
  import opened AgreementSteps

  // ------------------------------------------------------------- the committed part

  lemma EndsAscend(s: seq<Window>, i: nat, j: nat)
    requires ValidSchedule(s) && i <= j < |s|
    ensures s[i].endTime <= s[j].endTime
  {
    assert ValidTiming(s[j]) && (i == j || Precedes(s[i], s[j]));
  }

  lemma {:induction false} EndedBy(s: seq<Window>, end: u64) returns (n: nat)
    requires ValidSchedule(s)
    ensures n <= |s| && (forall k :: 0 <= k < n ==> s[k].endTime <= end) && (forall k :: n <= k < |s| ==> s[k].endTime > end)
  {
    if s == [] || s[|s| - 1].endTime <= end {
      n := |s|;
      forall k | 0 <= k < n ensures s[k].endTime <= end {
        EndsAscend(s, k, |s| - 1);
      }
    } else {
      var front := s[..|s| - 1];
      ValidPrefix(front, s);
      n := EndedBy(front, end);
      assert forall k :: 0 <= k < |front| ==> s[k] == front[k];
    }
  }

  /** The committed part is what ends by the committed end, and nothing else; it
      is cut between windows. */
  lemma CommittedCut(s: seq<Window>, end: u64)
    requires ValidSchedule(s)
    ensures var c := CommittedOf(s, end);
      && CutOf(c, s)
      && (forall k :: 0 <= k < |c| ==> s[k].endTime <= end)
      && (forall k :: |c| <= k < |s| ==> s[k].endTime > end)
      && forall w :: w in c <==> w in s && w.endTime <= end
  {
    var n := EndedBy(s, end);
    CommittedOfSplit(s, end, n);
    assert 0 < n < |s| ==> Precedes(s[n - 1], s[n]);
    forall w | w in s && w.endTime <= end ensures w in s[..n] {
      var k :| 0 <= k < |s| && s[k] == w;
      assert s[..n][k] == w;
    }
  }

  lemma CommittedIs(s: seq<Window>, c: seq<Window>, end: u64)
    requires c <= s && (forall k :: 0 <= k < |c| ==> c[k].endTime <= end) && (forall k :: |c| <= k < |s| ==> s[k].endTime > end)
    ensures CommittedOf(s, end) == c
  {
    CommittedOfSplit(s, end, |c|);
  }

  /** A mark at the end of a cut commits exactly the cut. */
  lemma CommittedAtCut(s: seq<Window>, c: seq<Window>)
    requires ValidSchedule(s) && CutOf(c, s) && |c| > 0
    ensures CommittedOf(s, c[|c| - 1].endTime) == c
  {
    var end := c[|c| - 1].endTime;
    forall k | 0 <= k < |c| ensures c[k].endTime <= end {
      EndsAscend(s, k, |c| - 1);
    }
    forall k | |c| <= k < |s| ensures s[k].endTime > end {
      assert ValidTiming(s[|c|]);
      EndsAscend(s, |c|, k);
    }
    CommittedIs(s, c, end);
  }

  // ------------------------------------------------------------- one handler

  /** The mark is none, or within the history. */
  predicate MarkIn(schedule: seq<Window>, end: u64) {
    end == 0 || (|schedule| > 0 && end <= schedule[|schedule| - 1].endTime)
  }

  /** All of these entries are in the history and committed. */
  ghost predicate CoversAll(r: ReplicaState, entries: seq<Window>) {
    forall w :: w in entries ==> w in r.schedule && w.endTime <= r.committedEnd
  }

  /** An accepted snapshot is committed, entry for entry. */
  lemma SnapshotCommits(cfg: Config, s: ReplicaState, sender: nat, epoch: nat, schedule: seq<Window>)
    requires cfg.Valid() && ValidSchedule(s.schedule)
    ensures var (t, ok) := HandleScheduleInstall(cfg, s, sender, epoch, schedule);
      && (ok && schedule != [] ==> t.ready && CoversAll(t, schedule))
      && (ok && schedule != [] ==> s.schedule <= t.schedule && schedule <= t.schedule && (t.schedule == s.schedule || t.schedule == schedule))
      && (ok ==> t.committedEnd == s.committedEnd || (schedule != [] && t.committedEnd == schedule[|schedule| - 1].endTime))
      && (ok && t.schedule != s.schedule ==> t.committedEnd == schedule[|schedule| - 1].endTime && t.epoch == epoch)
      && t == s.(schedule := t.schedule, epoch := t.epoch, ready := t.ready, committedEnd := t.committedEnd)
      && (t.epoch == s.epoch || (ok && t.epoch == epoch == s.view))
      && (!ok || schedule == [] ==> t == s)
      && (MarkIn(s.schedule, s.committedEnd) ==> s.committedEnd <= t.committedEnd)
  {
    var (t, ok) := HandleScheduleInstall(cfg, s, sender, epoch, schedule);
    if ok && schedule != [] {
      var n := |schedule|;
      Covered(t, schedule);
      if s.schedule <= schedule && 0 < |s.schedule| {
        EndsAscend(schedule, |s.schedule| - 1, n - 1);
      }
    }
  }

  lemma Covered(t: ReplicaState, s: seq<Window>)
    requires ValidSchedule(s) && |s| > 0 && s <= t.schedule && s[|s| - 1].endTime <= t.committedEnd
    ensures CoversAll(t, s)
  {
    forall w | w in s ensures w in t.schedule && w.endTime <= t.committedEnd {
      var k :| 0 <= k < |s| && s[k] == w;
      EndsAscend(s, k, |s| - 1);
      assert t.schedule[k] == w;
    }
  }

  /** A commit for a window that is held commits that window. */
  lemma CommitCommits(cfg: Config, s: ReplicaState, replicaId: nat, view: nat, start: u64, end: u64)
    requires cfg.Valid()
    ensures var t := HandleCommit(cfg, s, replicaId, view, start, end);
      && t == s.(committedEnd := t.committedEnd, ready := t.ready)
      && s.committedEnd <= t.committedEnd && (t.committedEnd == s.committedEnd || t.committedEnd == end)
      && (view == s.view && s.status == Normal && replicaId == s.view % cfg.n ==>
            forall i :: 0 <= i < |s.schedule| && s.schedule[i].firstMsgNs == start && s.schedule[i].endTime == end ==>
              t.ready && s.schedule[i].endTime <= t.committedEnd)
  {
  }

  lemma AppendMarkIff(s: seq<Window>, e: seq<Window>, mark: u64, end: u64)
    requires ValidSchedule(s) && ValidSchedule(s + e) && |e| > 0 && forall k :: 0 <= k < |e| ==> e[k].endTime == end
    ensures CommittedOf(s + e, mark) == CommittedOf(s, mark) <==> mark < end
  {
    hide ValidSchedule, CommittedOf;
    var t, c := s + e, CommittedOf(s, mark);
    CommittedCut(s, mark);
    if mark < end {
      assert forall k :: |s| <= k < |t| ==> t[k] == e[k - |s|];
      CommittedIs(t, c, mark);
    } else {
      CommittedCut(t, mark);
      assert t[|s|] == e[0];
      NotTwice(t, |s|);
    }
  }

  lemma NotTwice(t: seq<Window>, n: nat)
    requires ValidSchedule(t) && n < |t|
    ensures t[n] !in t[..n]
  {
    forall k | 0 <= k < n ensures t[k] != t[n] {
      assert Precedes(t[k], t[n]) && ValidTiming(t[n]);
    }
  }

  /** A replica that appends a prepared window counts it as committed if and only
      if its mark is already past the window. */
  lemma AcceptedMarkIff(cfg: Config, s: ReplicaState, m: Prepare)
    requires cfg.Valid() && ValidSchedule(s.schedule) && MayPrepare(cfg, s, m) && MayAppend(s, m)
    ensures var t := AcceptPrepare(cfg, s, m);
      && t.schedule == s.schedule + Entries(m) && t.committedEnd == s.committedEnd && ValidSchedule(t.schedule)
      && (t.ready <==> t.committedEnd > 0) && t.epoch == m.view
      && (CommittedOf(t.schedule, t.committedEnd) == CommittedOf(s.schedule, s.committedEnd) <==> s.committedEnd < m.end)
      && (MarkIn(s.schedule, s.committedEnd) ==> s.committedEnd < m.end && MarkIn(t.schedule, t.committedEnd))
  {
    AppendValid(s.schedule, m);
    hide ValidSchedule, CommittedOf;
    AppendMarkIff(s.schedule, Entries(m), s.committedEnd, m.end);
  }

  /** A view that is published marks its whole history; an empty one leaves the
      mark as it was. */
  lemma PublishMarks(s: ReplicaState)
    requires ValidSchedule(s.schedule)
    ensures var t := PublishNormal(s);
      && t.status == Normal && t.lastNormalView == t.view == s.view && t.schedule == s.schedule
      && (s.schedule != [] ==> CoversAll(t, s.schedule) && MarkIn(t.schedule, t.committedEnd) && t.committedEnd > 0)
      && (s.schedule == [] ==> t.committedEnd == s.committedEnd && (MarkIn(t.schedule, t.committedEnd) <==> s.committedEnd == 0))
      && (t.ready <==> t.epoch == t.view && t.schedule != [])
  {
    forall w | w in s.schedule ensures w.endTime <= PublishNormal(s).committedEnd {
      var k :| 0 <= k < |s.schedule| && s.schedule[k] == w;
      EndsAscend(s.schedule, k, |s.schedule| - 1);
    }
    assert s.schedule != [] ==> ValidTiming(s.schedule[|s.schedule| - 1]);
  }

  // ------------------------------------------------------------- what is accepted

  lemma {:induction false} WindowRun(s: seq<Window>, start: u64) returns (i: nat, end: nat)
    requires ValidSchedule(s)
    ensures i <= end <= |s| && (forall k :: i <= k < end ==> s[k].firstMsgNs == start)
    ensures (forall k :: 0 <= k < i ==> s[k].firstMsgNs != start) && forall k :: end <= k < |s| ==> s[k].firstMsgNs != start
  {
    if s == [] {
      return 0, 0;
    }
    var n := |s| - 1;
    var front := s[..n];
    ValidPrefix(front, s);
    i, end := WindowRun(front, start);
    assert forall k :: 0 <= k < n ==> s[k] == front[k];
    if s[n].firstMsgNs == start {
      if i == end {
        i := n;
      } else if end < n {
        NotAgain(s, i, end, start);
      }
      end := n + 1;
    }
  }

  /** The entries e stand in the history at i, and nothing else has their start. */
  ghost predicate StandsAt(s: seq<Window>, e: seq<Window>, start: u64, i: nat) {
    && i <= |s| - |e| && s[i..i + |e|] == e
    && forall k :: 0 <= k < |s| ==> (s[k].firstMsgNs == start <==> i <= k < i + |e|)
  }

  lemma StandsIs(s: seq<Window>, e: seq<Window>, start: u64, i: nat)
    requires StandsAt(s, e, start, i) && |e| > 0
    ensures HasStart(s, start) && WindowAt(s, start) == e
  {
    hide WindowAt;
    WindowAtRun(s, i, i + |e|, start);
    assert s[i].firstMsgNs == start;
  }

  lemma StandsSomewhere(s: seq<Window>, start: u64) returns (i: nat)
    requires ValidSchedule(s)
    ensures StandsAt(s, WindowAt(s, start), start, i)
  {
    hide WindowAt, ValidSchedule;
    var end;
    i, end := WindowRun(s, start);
    WindowAtRun(s, i, end, start);
  }

  /** The history shows this window, all of it and nothing else at its start. */
  ghost predicate Shows(s: seq<Window>, m: Prepare) {
    exists i: nat :: StandsAt(s, Entries(m), m.start, i)
  }

  lemma ShowsIff(s: seq<Window>, m: Prepare)
    requires ValidSchedule(s) && |m.requests| > 0
    ensures Shows(s, m) <==> HasStart(s, m.start) && WindowAt(s, m.start) == Entries(m)
  {
    hide WindowAt, ValidSchedule, HasStart, StandsAt;
    if i: nat :| StandsAt(s, Entries(m), m.start, i) {
      StandsIs(s, Entries(m), m.start, i);
    } else if WindowAt(s, m.start) == Entries(m) {
      var i := StandsSomewhere(s, m.start);
    }
  }

  lemma AppendableIff(s: seq<Window>, m: Prepare)
    requires ValidSchedule(s) && |m.requests| > 0 && (forall q :: q in m.requests ==> q.startTime == m.start) && !HasStart(s, m.start)
    ensures ValidSchedule(s + Entries(m)) <==>
      ValidSchedule(Entries(m)) && (s == [] || s[|s| - 1].endTime <= m.start) && |s| + |m.requests| <= MAX_HISTORY
  {
    var e := Entries(m);
    var both := s + e;
    if ValidSchedule(both) {
      assert forall k :: 0 <= k < |e| ==> e[k] == both[|s| + k];
      assert s == [] || (both[|s| - 1] == s[|s| - 1] && Precedes(both[|s| - 1], both[|s|]));
      assert m.requests[0] in m.requests;
    } else if |both| <= MAX_HISTORY && ValidSchedule(e) && (s == [] || s[|s| - 1].endTime <= m.start) {
      AppendValid(s, m);
    }
  }

  /** A prepare is accepted exactly if it is the leader's for one whole window of
      this view and either makes a valid history when it is appended or stands in
      the history already. */
  lemma AcceptsIff(cfg: Config, s: ReplicaState, m: Prepare)
    requires cfg.Valid() && ValidSchedule(s.schedule)
    ensures Accepts(cfg, s, m) <==>
      && m.view == s.view && s.status == Normal && m.replicaId == s.view % cfg.n
      && m.start < m.end && m.end - m.start == cfg.window
      && 0 < |m.requests| <= cfg.expectedClients && (forall q :: q in m.requests ==> q.startTime == m.start)
      && ValidSchedule(Entries(m))
      && (Shows(s.schedule, m) || (!HasStart(s.schedule, m.start) && ValidSchedule(s.schedule + Entries(m))))
  {
    hide ValidSchedule, Shows;
    if 0 < |m.requests| && forall q :: q in m.requests ==> q.startTime == m.start {
      ShowsIff(s.schedule, m);
      if !HasStart(s.schedule, m.start) {
        AppendableIff(s.schedule, m);
      }
    }
  }
}
