/** What the cluster does when a message is handled, in every run: a snapshot or
    a prepare of the current view is never refused, and acknowledgements count. */
module AgreementProgress {
  import opened Schedule
  import opened ReplicaSpec
  import opened Agreement
  import opened AgreementInvariant
  import opened AgreementSteps
  import opened AgreementTheorems
  import opened CommitMarks
  import opened MarkRuns

  /** A replica that is normal in the message's view takes every snapshot with
      entries, and then treats all of them as committed. An empty one it takes
      just if it has no history, or nothing of it is marked. */
  lemma SnapshotTaken(cfg: Config, run: seq<World>, k: nat, i: nat, msg: Msg)
    requires cfg.Valid() && IsRun(cfg, run) && k < |run| && i < |run[k].replicas| && msg in run[k].msgs
    requires (msg.Batch? || msg.Snapshot?) && msg.sender != i
    requires run[k].replicas[i].status == Normal && run[k].replicas[i].view == msg.view
    ensures var r := run[k].replicas[i]; var s := Carried(msg); var (t, ok) := HandleScheduleInstall(cfg, r, msg.sender, msg.view, s);
      && (s != [] ==> ok && t.ready && CoversAll(t, s) && r.schedule <= t.schedule)
      && (s == [] ==> (ok <==> r.schedule == [] || r.committedEnd == 0))
  {
    hide Inv, ReplicaOk, CoversAll;
    RunInv(cfg, run, k);
    Sized(cfg, run[k]);
    MoverOk(cfg, run[k], i);
    ReceivedOk(cfg, run[k], msg);
    var r, s, h := run[k].replicas[i], Carried(msg), run[k].hist;
    NormalWithin(cfg, h, i, r);
    CarriedWithin(cfg, h, msg);
    ValidPrefix(s, h.latest[r.view]);
    CutsComparable(s, r.schedule, h.latest[r.view]);
    SnapshotCommits(cfg, r, msg.sender, msg.view, s);
  }

  lemma NormalWithin(cfg: Config, h: History, i: nat, r: ReplicaState)
    requires cfg.Valid() && i < |h.origin| && HistoryOk(cfg, h) && ReplicaOk(cfg, h, i, r) && r.status == Normal
    ensures r.view in h.latest && ValidSchedule(h.latest[r.view]) && ValidSchedule(r.schedule) && CutOf(r.schedule, h.latest[r.view])
    ensures IsLeader(cfg, r) ==> r.schedule == h.latest[r.view] && r.idx == i && ProposalOk(cfg, h, r)
  {
  }

  lemma CarriedWithin(cfg: Config, h: History, msg: Msg)
    requires cfg.Valid() && MsgOk(cfg, h, msg) && (msg.Batch? || msg.Snapshot?)
    ensures msg.sender == cfg.LeaderOf(msg.view) && msg.view in h.latest && CutOf(Carried(msg), h.latest[msg.view])
  {
  }

  // ------------------------------------------------------------- prepares

  /** The history has the prepared window as a whole window, behind `front`. */
  ghost predicate AnnouncedBehind(latest: seq<Window>, m: Prepare, front: seq<Window>) {
    CutOf(front + Entries(m), latest) && (|front| > 0 ==> front[|front| - 1].endTime <= m.start)
  }

  ghost predicate BatchAnnounced(cfg: Config, h: History, msg: Msg)
    requires cfg.Valid()
  {
    msg.Batch? ==>
      && WellFormedPrepare(cfg, msg.prepare) && msg.prepare.view == msg.view && msg.prepare.replicaId == cfg.LeaderOf(msg.view)
      && msg.view in h.latest && exists front :: AnnouncedBehind(h.latest[msg.view], msg.prepare, front)
  }

  ghost predicate AllAnnounced(cfg: Config, w: World)
    requires cfg.Valid()
  {
    forall m :: m in w.msgs ==> BatchAnnounced(cfg, w.hist, m)
  }

  lemma AnnouncedStays(cfg: Config, h: History, h': History, msg: Msg)
    requires cfg.Valid() && HistoriesGrow(h, h') && BatchAnnounced(cfg, h, msg)
    ensures BatchAnnounced(cfg, h', msg)
  {
    hide WellFormedPrepare;
    if msg.Batch? {
      var front :| AnnouncedBehind(h.latest[msg.view], msg.prepare, front);
      CutOfTransitive(front + Entries(msg.prepare), h.latest[msg.view], h'.latest[msg.view]);
      assert AnnouncedBehind(h'.latest[msg.view], msg.prepare, front);
    }
  }

  lemma SentAnnounced(cfg: Config, h: History, i: nat, r: ReplicaState, snapshot: seq<Window>, committed: bool)
    requires cfg.Valid() && i < |h.origin| && HistoryOk(cfg, h) && ReplicaOk(cfg, h, i, r) && IsLeader(cfg, r) && r.proposal.Some?
    ensures BatchAnnounced(cfg, h, Batch(r.view, i, snapshot, r.proposal.value, committed)) && r.proposal.value.view == r.view
  {
    NormalWithin(cfg, h, i, r);
    var p := r.proposal.value;
    hide ValidSchedule, ReplicaOk, HistoryOk, WellFormedPrepare;
    var n := |r.schedule| - |p.requests|;
    var front := r.schedule[..n];
    assert front + Entries(p) == r.schedule;
    assert AnnouncedBehind(h.latest[r.view], p, front);
  }

  lemma StepAnnounced(cfg: Config, w: World, w': World, step: Step)
    requires cfg.Valid() && Inv(cfg, w) && Inv(cfg, w') && AllAnnounced(cfg, w) && Takes(cfg, w, w', step) && HistoriesGrow(w.hist, w'.hist)
    ensures AllAnnounced(cfg, w')
  {
    hide Inv, BatchAnnounced, HistoriesGrow, MergedHistory, Collected, Accepts, AcceptPrepare, ReplicaOk, HistoryOk;
    MoverOk(cfg, w, step.i);
    forall m | m in w'.msgs ensures BatchAnnounced(cfg, w'.hist, m) {
      if m in w.msgs {
        AnnouncedStays(cfg, w.hist, w'.hist, m);
      } else if m.Batch? {
        NewBatch(cfg, w, w', step, m);
        SentAnnounced(cfg, w.hist, step.i, w.replicas[step.i], m.snapshot, m.committed);
        AnnouncedStays(cfg, w.hist, w'.hist, m);
      } else {
        OtherMessage(cfg, w'.hist, m);
      }
    }
  }

  lemma OtherMessage(cfg: Config, h: History, m: Msg)
    requires cfg.Valid() && !m.Batch?
    ensures BatchAnnounced(cfg, h, m)
  {
  }

  lemma NewBatch(cfg: Config, w: World, w': World, step: Step, m: Msg)
    requires cfg.Valid() && Inv(cfg, w) && Takes(cfg, w, w', step) && m in w'.msgs && m !in w.msgs && m.Batch?
    ensures var r := w.replicas[step.i];
      IsLeader(cfg, r) && r.proposal.Some? && m == Batch(r.view, step.i, m.snapshot, r.proposal.value, m.committed)
  {
    hide Inv, MergedHistory, Collected, Accepts, AcceptPrepare, HandleScheduleInstall, ProposalOk, From, Honours, CommittedOf;
    MoverOk(cfg, w, step.i);
    var r := w.replicas[step.i];
    if step.SendBatchStep? || step.CommitStep? {
      assert ProposalOk(cfg, w.hist, r);
      ProposalView(cfg, w.hist, r);
    }
  }

  lemma ProposalView(cfg: Config, h: History, r: ReplicaState)
    requires ProposalOk(cfg, h, r) && r.proposal.Some?
    ensures r.proposal.value.view == r.view
  {
  }

  lemma {:induction false} RunAnnounced(cfg: Config, run: seq<World>, k: nat)
    requires cfg.Valid() && IsRun(cfg, run) && k < |run|
    ensures AllAnnounced(cfg, run[k])
  {
    hide Takes, Inv, HistoriesGrow;
    if k > 0 {
      RunAnnounced(cfg, run, k - 1);
      RunInv(cfg, run, k - 1);
      RunInv(cfg, run, k);
      assert Next(cfg, run[k - 1], run[k - 1 + 1]);
      var step :| Takes(cfg, run[k - 1], run[k], step);
      StepGrows(cfg, run[k - 1], run[k], step);
      StepAnnounced(cfg, run[k - 1], run[k], step);
    }
  }

  /** Between the window's entries and all others of the history its start decides. */
  lemma WindowStands(latest: seq<Window>, m: Prepare, front: seq<Window>, k: nat)
    requires ValidSchedule(latest) && AnnouncedBehind(latest, m, front) && k < |latest|
    requires m.start < m.end && 0 < |m.requests| && forall i :: 0 <= i < |m.requests| ==> m.requests[i].startTime == m.start
    ensures latest[k].firstMsgNs == m.start <==> |front| <= k < |front| + |m.requests|
  {
    var n, e := |front|, Entries(m);
    var whole := front + e;
    if n <= k < n + |e| {
      assert latest[k] == whole[k] == e[k - n];
    } else if k < n {
      assert latest[k] == whole[k] == front[k] && latest[n - 1] == whole[n - 1] == front[n - 1] && ValidTiming(latest[k]);
      EndsAscend(latest, k, n - 1);
    } else {
      assert latest[n + |e| - 1] == whole[n + |e| - 1] == e[|e| - 1];
      assert k == n + |e| || Precedes(latest[n + |e|], latest[k]);
      assert ValidTiming(latest[n + |e|]);
    }
  }

  /** Where the window's entries are in the history. */
  lemma EntryAt(latest: seq<Window>, m: Prepare, front: seq<Window>, k: nat)
    requires AnnouncedBehind(latest, m, front) && |front| <= k < |front| + |m.requests|
    ensures k < |latest| && latest[k] == Entries(m)[k - |front|]
  {
    assert (front + Entries(m))[k] == Entries(m)[k - |front|];
  }

  /** A cut goes through no window. */
  lemma CutNotInside(latest: seq<Window>, m: Prepare, front: seq<Window>, s: seq<Window>)
    requires AnnouncedBehind(latest, m, front) && CutOf(s, latest)
    requires m.start < m.end && 0 < |m.requests| && forall i :: 0 <= i < |m.requests| ==> m.requests[i].startTime == m.start
    ensures |s| <= |front| || |front| + |m.requests| <= |s|
  {
    var n := |front|;
    forall k: nat | n <= k < n + |m.requests| ensures k < |latest| && latest[k].firstMsgNs == m.start && latest[k].endTime == m.end {
      EntryAt(latest, m, front, k);
    }
  }

  lemma HeldWhole(latest: seq<Window>, m: Prepare, front: seq<Window>, s: seq<Window>)
    requires ValidSchedule(latest) && AnnouncedBehind(latest, m, front) && CutOf(s, latest)
    requires m.start < m.end && 0 < |m.requests| && forall i :: 0 <= i < |m.requests| ==> m.requests[i].startTime == m.start
    ensures HasStart(s, m.start) ==> WindowAt(s, m.start) == Entries(m)
    ensures !HasStart(s, m.start) ==> |s| <= |front|
  {
    hide ValidSchedule, AnnouncedBehind, WindowAt, HasStart;
    var n, e := |front|, Entries(m);
    CutNotInside(latest, m, front, s);
    forall k: nat | k < |s| ensures s[k].firstMsgNs == m.start <==> n <= k < n + |e| {
      WindowStands(latest, m, front, k);
    }
    if n < |s| {
      WindowAtRun(s, n, n + |e|, m.start);
      forall k: nat | n <= k < n + |e| ensures s[k] == e[k - n] {
        EntryAt(latest, m, front, k);
      }
      assert s[n..n + |e|] == e;
    } else {
      NoneStarts(s, m.start);
    }
    StartAt(s, m.start, n);
  }

  lemma NoneStarts(s: seq<Window>, start: u64)
    requires forall k: nat :: k < |s| ==> s[k].firstMsgNs != start
    ensures !HasStart(s, start)
  {
  }

  lemma StartAt(s: seq<Window>, start: u64, n: nat)
    ensures n < |s| && s[n].firstMsgNs == start ==> HasStart(s, start)
  {
  }

  /** After the snapshot of its batch a prepare is never refused, as long as the
      view lasts: the window is appended, or it is there already. */
  lemma PrepareTaken(cfg: Config, run: seq<World>, k: nat, i: nat, msg: Msg)
    requires cfg.Valid() && IsRun(cfg, run) && k < |run| && i < |run[k].replicas| && (i, msg) in run[k].snapshots && msg in run[k].msgs
    requires msg.Batch? && run[k].replicas[i].status == Normal && run[k].replicas[i].view == msg.view
    ensures Accepts(cfg, run[k].replicas[i], msg.prepare)
  {
    hide Inv, ReplicaOk;
    RunInv(cfg, run, k);
    Sized(cfg, run[k]);
    MoverOk(cfg, run[k], i);
    RunAnnounced(cfg, run, k);
    SnapshotKept(cfg, run[k], i, msg);
    var r, h, p := run[k].replicas[i], run[k].hist, msg.prepare;
    NormalWithin(cfg, h, i, r);
    assert BatchAnnounced(cfg, h, msg);
    var front :| AnnouncedBehind(h.latest[msg.view], p, front);
    WindowFits(cfg, h.latest[msg.view], r, p, front, msg.snapshot);
  }

  lemma SnapshotKept(cfg: Config, w: World, i: nat, msg: Msg)
    requires cfg.Valid() && Inv(cfg, w) && i < |w.replicas| && (i, msg) in w.snapshots
    requires msg.Batch? && w.replicas[i].status == Normal && w.replicas[i].view == msg.view
    ensures CutOf(msg.snapshot, w.replicas[i].schedule) && msg.view in w.hist.latest
    ensures CutOf(msg.snapshot + Entries(msg.prepare), w.hist.latest[msg.view]) || HasStart(msg.snapshot, msg.prepare.start)
  {
    assert SnapshotOk(cfg, w.hist, w.replicas[i], msg);
  }

  lemma WindowFits(cfg: Config, latest: seq<Window>, r: ReplicaState, p: Prepare, front: seq<Window>, snapshot: seq<Window>)
    requires cfg.Valid() && WellFormedPrepare(cfg, p) && p.view == r.view && p.replicaId == cfg.LeaderOf(r.view) && r.status == Normal
    requires ValidSchedule(latest) && CutOf(r.schedule, latest) && AnnouncedBehind(latest, p, front) && CutOf(snapshot, r.schedule)
    requires CutOf(snapshot + Entries(p), latest) || HasStart(snapshot, p.start)
    ensures Accepts(cfg, r, p)
  {
    HeldWhole(latest, p, front, r.schedule);
    if !HasStart(r.schedule, p.start) {
      HasStartGrows(snapshot, r.schedule, p.start);
      var n := |snapshot|;
      assert latest[n] == (snapshot + Entries(p))[n] == Entries(p)[0];
      WindowStands(latest, p, front, n);
      assert r.schedule == latest[..|r.schedule|] && |r.schedule| == |front|;
      assert front == latest[..|front|] by {
        assert front == (front + Entries(p))[..|front|];
      }
    }
  }

  /** ... and the commit of that batch then commits it, entry for entry. */
  lemma BatchCommits(cfg: Config, r: ReplicaState, m: Prepare)
    requires cfg.Valid() && Accepts(cfg, r, m)
    ensures var t := AcceptPrepare(cfg, r, m); var u := HandleCommit(cfg, t, m.replicaId, m.view, m.start, m.end);
      u.ready && u.schedule == t.schedule && CoversAll(u, Entries(m))
  {
    var t, e := AcceptPrepare(cfg, r, m), Entries(m);
    if MayAppend(r, m) {
      assert t.schedule == r.schedule + e;
      assert t.schedule[|r.schedule|] == e[0];
      forall w | w in e ensures w in t.schedule {
      }
    } else {
      WindowAtIn(r.schedule, m.start);
    }
    assert e[0] in t.schedule;
    var k :| 0 <= k < |t.schedule| && t.schedule[k] == e[0];
    assert HoldsWindow(t.schedule, m.start, m.end);
  }

  lemma {:induction false} WindowAtIn(s: seq<Window>, start: u64)
    ensures forall w :: w in WindowAt(s, start) ==> w in s
  {
    if s != [] {
      WindowAtIn(s[..|s| - 1], start);
    }
  }

  // ------------------------------------------------------------- acknowledgements

  /** The leader after the acknowledgements of these replicas. */
  function AfterReplies(cfg: Config, s: ReplicaState, from: seq<nat>, m: Prepare): ReplicaState
    requires cfg.Valid()
  {
    if from == [] then s
    else HandlePrepareReply(cfg, AfterReplies(cfg, s, from[..|from| - 1], m), from[|from| - 1], m.view, m.start, m.end)
  }

  /** The replicas among them. */
  ghost function Senders(from: seq<nat>, n: nat): set<nat> {
    set q | q in from && q < n
  }

  lemma OneMore(from: seq<nat>, n: nat)
    requires from != []
    ensures var last := from[|from| - 1]; Senders(from, n) == Senders(from[..|from| - 1], n) + if last < n then {last} else {}
  {
    assert from == from[..|from| - 1] + [from[|from| - 1]];
  }

  lemma NextReply(cfg: Config, s: ReplicaState, from: seq<nat>)
    requires cfg.Valid() && from != [] && s.proposal.Some?
    ensures var m := s.proposal.value;
      AfterReplies(cfg, s, from, m) == HandlePrepareReply(cfg, AfterReplies(cfg, s, from[..|from| - 1], m), from[|from| - 1], m.view, m.start, m.end)
  {
  }

  /** Whatever the order, and however often: a proposal can be committed once
      F+1 different replicas have acknowledged it, the leader among them. */
  lemma {:induction false} RepliesCount(cfg: Config, s: ReplicaState, from: seq<nat>)
    requires cfg.Valid() && s.proposal.Some? && IsLeader(cfg, s)
    ensures var t := AfterReplies(cfg, s, from, s.proposal.value);
      && t == s.(prepared := s.prepared + Senders(from, cfg.n))
      && (MayCommit(cfg, t) <==> |t.prepared| >= cfg.f + 1)
  {
    if from != [] {
      var n := |from| - 1;
      RepliesCount(cfg, s, from[..n]);
      OneMore(from, cfg.n);
      hide AfterReplies, Senders;
      var t := AfterReplies(cfg, s, from[..n], s.proposal.value);
      NextReply(cfg, s, from);
      assert t.prepared == s.prepared + Senders(from[..n], cfg.n);
    }
  }
}
