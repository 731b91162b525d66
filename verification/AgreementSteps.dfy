/** Every step of the cluster keeps the invariant: one lemma per step. */
module AgreementSteps {
  import opened Schedule
  import opened ReplicaSpec
  import opened Agreement
  import opened AgreementInvariant

  // ------------------------------------------------------------- lists

  lemma {:induction false} CommittedOfSplit(schedule: seq<Window>, end: u64, n: nat)
    requires n <= |schedule|
    requires forall k :: 0 <= k < n ==> schedule[k].endTime <= end
    requires forall k :: n <= k < |schedule| ==> schedule[k].endTime > end
    ensures CommittedOf(schedule, end) == schedule[..n]
  {
    if |schedule| > 0 {
      var front := schedule[..|schedule| - 1];
      if n == |schedule| {
        CommittedOfSplit(front, end, n - 1);
        assert front[..n - 1] + [schedule[n - 1]] == schedule[..n];
      } else {
        CommittedOfSplit(front, end, n);
        assert front[..n] == schedule[..n];
      }
    }
  }

  lemma NoStartBelow(schedule: seq<Window>, start: u64, end: u64)
    requires ValidSchedule(schedule) && end <= start
    requires forall k :: 0 <= k < |schedule| ==> schedule[k].endTime <= end
    ensures !HasStart(schedule, start)
  {
    forall i | 0 <= i < |schedule| ensures schedule[i].firstMsgNs != start {
      assert ValidTiming(schedule[i]);
    }
  }

  /** A proper cut ends before the last window of the history it cuts. */
  lemma CutEndsEarlier(p: seq<Window>, s: seq<Window>)
    requires ValidSchedule(s) && CutOf(p, s) && 0 < |p|
    ensures |p| < |s| ==> p[|p| - 1].firstMsgNs < s[|s| - 1].firstMsgNs
  {
    if |p| < |s| {
      assert p[|p| - 1] == s[|p| - 1] && ValidTiming(s[|p| - 1]) && ValidTiming(s[|p|]);
      assert |p| == |s| - 1 || Precedes(s[|p|], s[|s| - 1]);
    }
  }

  lemma NoLaterStart(schedule: seq<Window>, start: u64)
    requires ValidSchedule(schedule) && HasStart(schedule, start)
    ensures schedule[|schedule| - 1].firstMsgNs >= start
    ensures schedule[|schedule| - 1].firstMsgNs > start ==>
      ValidSchedule(schedule[..|schedule| - 1]) && HasStart(schedule[..|schedule| - 1], start)
  {
    var last := schedule[|schedule| - 1];
    var front := schedule[..|schedule| - 1];
    var i :| 0 <= i < |schedule| && schedule[i].firstMsgNs == start;
    assert i < |front| ==> front[i] == schedule[i] && Precedes(schedule[i], last);
    assert ValidTiming(schedule[i]);
    ValidPrefix(front, schedule);
  }

  lemma FrontCut(p: seq<Window>, schedule: seq<Window>)
    requires ValidSchedule(schedule) && |schedule| > 0 && CutOf(p, schedule[..|schedule| - 1])
    requires 0 < |p| && p[|p| - 1].firstMsgNs < schedule[|schedule| - 1].firstMsgNs
    ensures CutOf(p, schedule)
  {
    if |p| < |schedule| - 1 {
      CutOfExtend(p, schedule[..|schedule| - 1], schedule);
    } else {
      assert Precedes(schedule[|p| - 1], schedule[|p|]);
    }
  }

  lemma {:induction false} ThroughCut(schedule: seq<Window>, start: u64)
    requires ValidSchedule(schedule) && HasStart(schedule, start)
    ensures var p := Through(schedule, start);
      CutOf(p, schedule) && |p| > 0 && p[|p| - 1].firstMsgNs == start && p[|p| - 1] in WindowAt(schedule, start)
  {
    NoLaterStart(schedule, start);
    if schedule[|schedule| - 1].firstMsgNs > start {
      hide ValidSchedule;
      var front := schedule[..|schedule| - 1];
      ThroughCut(front, start);
      FrontCut(Through(front, start), schedule);
    }
  }

  // ------------------------------------------------------------- frames

  ghost predicate Advances(r: ReplicaState, r': ReplicaState) {
    || r.view < r'.view
    || (r.view == r'.view && (r.status == Normal ==> r'.status == Normal && CutOf(r.schedule, r'.schedule)))
  }

  lemma SnapshotAdvances(cfg: Config, h: History, r: ReplicaState, r': ReplicaState, b: Msg)
    requires cfg.Valid() && SnapshotOk(cfg, h, r, b) && Advances(r, r')
    ensures SnapshotOk(cfg, h, r', b)
  {
    if r.view == r'.view == b.view {
      CutOfTransitive(b.snapshot, r.schedule, r'.schedule);
    }
  }

  /** One replica moves; the bookkeeping grows but opens no new view. */
  lemma LocalStep(cfg: Config, w: World, w': World, i: nat, r': ReplicaState, sent: set<Msg>)
    requires cfg.Valid() && Inv(cfg, w) && i < cfg.n
    requires Moves(w, w', i, r', sent) && Grows(cfg, w.hist, w'.hist, i, w.replicas[i].view)
    requires w'.hist.base == w.hist.base && HistoryOk(cfg, w'.hist)
    requires Advances(w.replicas[i], r') && ReplicaOk(cfg, w'.hist, i, r')
    requires forall m :: m in sent ==> MsgOk(cfg, w'.hist, m)
    requires forall rep :: Report(rep) in sent ==> rep.sender == i && rep.view == r'.view
    requires w.snapshots <= w'.snapshots
    requires forall s :: s in w'.snapshots && s !in w.snapshots ==> s.0 == i && SnapshotOk(cfg, w'.hist, r', s.1)
    requires forall c :: c in w'.commits && c !in w.commits ==> CommitOk(cfg, w'.hist, c)
    ensures Inv(cfg, w')
  {
    ReplicasKeep(cfg, w, w', i, r', sent);
    AllMsgsKeep(cfg, w, w', i, r', sent);
    forall b | (i, b) in w'.snapshots ensures SnapshotOk(cfg, w'.hist, r', b) {
      if (i, b) in w.snapshots {
        MsgsKeep(cfg, w.hist, w'.hist, i, w.replicas[i].view, b);
        assert SnapshotOk(cfg, w'.hist, w.replicas[i], b);
        SnapshotAdvances(cfg, w'.hist, w.replicas[i], r', b);
      }
    }
    SnapshotsKeep(cfg, w, w', i, r', sent);
    CommitsKeep(cfg, w, w', i, w.replicas[i].view);
    AllSafeKeeps(cfg, w, w', i, r', sent);
  }

  lemma PlainStep(cfg: Config, w: World, w': World, i: nat, r': ReplicaState, sent: set<Msg>)
    requires cfg.Valid() && Inv(cfg, w) && i < cfg.n
    requires Moves(w, w', i, r', sent) && KeepsHistory(w, w')
    requires Advances(w.replicas[i], r') && ReplicaOk(cfg, w.hist, i, r')
    requires forall m :: m in sent ==> MsgOk(cfg, w.hist, m)
    requires forall rep :: Report(rep) in sent ==> rep.sender == i && rep.view == r'.view
    ensures Inv(cfg, w')
  {
    LocalStep(cfg, w, w', i, r', sent);
  }

  // ------------------------------------------------------------- the leader's steps

  lemma MoverOk(cfg: Config, w: World, i: nat)
    requires cfg.Valid() && Inv(cfg, w) && i < cfg.n
    ensures |w.replicas| == |w.hist.origin| == cfg.n
    ensures HistoryOk(cfg, w.hist) && ReplicaOk(cfg, w.hist, i, w.replicas[i])
    ensures ValidSchedule([])
  {
  }

  /** A replica in normal status goes on with a longer history and records a
      promise for part of it. */
  lemma HonoursExtended(h: History, h': History, i: nat, r: ReplicaState, schedule: seq<Window>, p: seq<Window>)
    requires Honours(h, i, r.view + 1, r.view, r.view, r.schedule)
    requires h'.promises == h.promises + {Promise(i, r.view, p)}
    requires CutOf(r.schedule, schedule) && CutOf(p, schedule)
    ensures Honours(h', i, r.view + 1, r.view, r.view, schedule)
  {
    forall q | q in h'.promises && q.replica == i && q.view == r.view ensures CutOf(q.schedule, schedule) {
      if q in h.promises {
        CutOfTransitive(q.schedule, r.schedule, schedule);
      }
    }
  }

  lemma ProposeHistory(cfg: Config, h: History, h': History, i: nat, v: nat, schedule: seq<Window>)
    requires cfg.Valid() && HistoryOk(cfg, h) && i == cfg.LeaderOf(v) && v in h.latest
    requires ValidSchedule(schedule) && CutOf(h.latest[v], schedule)
    requires h' == h.(latest := h.latest[v := schedule], promises := h.promises + {Promise(i, v, schedule)})
    ensures HistoryOk(cfg, h') && Grows(cfg, h, h', i, v)
  {
    hide ValidSchedule;
    CutOfTransitive(h.base[v], h.latest[v], schedule);
    forall p | p in h.promises && p.view == v ensures CutOf(p.schedule, schedule) {
      CutOfTransitive(p.schedule, h.latest[v], schedule);
    }
  }

  lemma ProposedOk(cfg: Config, h: History, r: ReplicaState, m: Prepare, r': ReplicaState)
    requires cfg.Valid() && IsLeader(cfg, r) && Accepts(cfg, r, m) && MayAppend(r, m) && r.idx < cfg.n
    requires r' == Propose(cfg, r, m) && ProposalOk(cfg, h, r) && r.proposal.None? && r.committedEnd <= m.start
    requires Promise(r.idx, r.view, r'.schedule) in h.promises
    ensures ProposalOk(cfg, h, r') && r'.schedule == r.schedule + Entries(m)
  {
    assert r'.schedule[|r.schedule|..] == Entries(m);
  }

  lemma ProposedSchedule(cfg: Config, h: History, i: nat, r: ReplicaState, m: Prepare)
    requires cfg.Valid() && i < |h.origin| && ReplicaOk(cfg, h, i, r)
    requires IsLeader(cfg, r) && !r.installActive && r.committedEnd <= m.start && Accepts(cfg, r, m)
    ensures MayAppend(r, m)
    ensures var schedule := Propose(cfg, r, m).schedule; ValidSchedule(schedule) && CutOf(r.schedule, schedule)
  {
    NoStartBelow(r.schedule, m.start, r.committedEnd);
    AppendValid(r.schedule, m);
  }

  lemma ProposeReplica(cfg: Config, h: History, h': History, i: nat, r: ReplicaState, m: Prepare)
    requires cfg.Valid() && i < cfg.n && HistoryOk(cfg, h) && ReplicaOk(cfg, h, i, r)
    requires IsLeader(cfg, r) && !r.installActive && r.committedEnd <= m.start && Accepts(cfg, r, m)
    requires var schedule := Propose(cfg, r, m).schedule;
      h' == h.(latest := h.latest[r.view := schedule], promises := h.promises + {Promise(i, r.view, schedule)})
    ensures HistoryOk(cfg, h') && Grows(cfg, h, h', i, r.view)
    ensures ReplicaOk(cfg, h', i, Propose(cfg, r, m)) && CutOf(r.schedule, Propose(cfg, r, m).schedule)
  {
    hide ValidSchedule, WellFormedPrepare, MayPrepare, HasStart, Honours, WindowAt;
    ProposedSchedule(cfg, h, i, r, m);
    var r' := Propose(cfg, r, m);
    ProposeHistory(cfg, h, h', i, r.view, r'.schedule);
    ProposedOk(cfg, h', r, m, r');
    HonoursExtended(h, h', i, r, r'.schedule, r'.schedule);
  }

  lemma ProposeKeeps(cfg: Config, w: World, w': World, i: nat, m: Prepare)
    requires cfg.Valid() && Inv(cfg, w) && i < cfg.n && TakesPropose(cfg, w, w', i, m)
    ensures Inv(cfg, w')
  {
    hide ValidSchedule;
    assert ReplicaOk(cfg, w.hist, i, w.replicas[i]);
    ProposeReplica(cfg, w.hist, w'.hist, i, w.replicas[i], m);
    LocalStep(cfg, w, w', i, Propose(cfg, w.replicas[i], m), {});
  }

  /** The snapshot a leader sends is its history without the pending window. */
  lemma SettledSnapshot(cfg: Config, h: History, r: ReplicaState)
    requires ProposalOk(cfg, h, r) && r.proposal.None?
    ensures CommittedOf(r.schedule, r.committedEnd) == r.schedule
  {
    CommittedOfSplit(r.schedule, r.committedEnd, |r.schedule|);
  }

  lemma PendingSnapshot(cfg: Config, h: History, r: ReplicaState)
    requires ProposalOk(cfg, h, r) && r.proposal.Some?
    ensures CutOf(CommittedOf(r.schedule, r.committedEnd), r.schedule)
    ensures CommittedOf(r.schedule, r.committedEnd) + Entries(r.proposal.value) == r.schedule
  {
    hide ValidSchedule, CommittedOf;
    var p := r.proposal.value;
    var n := |r.schedule| - |p.requests|;
    assert forall k :: n <= k < |r.schedule| ==> r.schedule[k] == Entries(p)[k - n];
    CommittedOfSplit(r.schedule, r.committedEnd, n);
    assert r.schedule[..n] + r.schedule[n..] == r.schedule;
  }

  lemma CommittedSnapshot(cfg: Config, h: History, r: ReplicaState)
    requires ProposalOk(cfg, h, r) && r.proposal.Some?
    ensures CommittedOf(r.schedule, r.proposal.value.end) == r.schedule
    ensures HasStart(r.schedule, r.proposal.value.start)
  {
    var p := r.proposal.value;
    var n := |r.schedule| - |p.requests|;
    assert forall k :: n <= k < |r.schedule| ==> r.schedule[k] == Entries(p)[k - n];
    hide ValidSchedule;
    CommittedOfSplit(r.schedule, p.end, |r.schedule|);
    assert r.schedule[n].firstMsgNs == p.start;
  }

  lemma BatchMsg(cfg: Config, h: History, i: nat, r: ReplicaState)
    requires cfg.Valid() && i < |h.origin| && HistoryOk(cfg, h) && ReplicaOk(cfg, h, i, r)
    requires IsLeader(cfg, r) && r.proposal.Some?
    ensures MsgOk(cfg, h, Batch(r.proposal.value.view, i, CommittedOf(r.schedule, r.committedEnd), r.proposal.value, false))
  {
    PendingSnapshot(cfg, h, r);
  }

  lemma SendBatchKeeps(cfg: Config, w: World, w': World, i: nat)
    requires cfg.Valid() && Inv(cfg, w) && i < cfg.n && TakesPlain(cfg, w, w', SendBatchStep(i))
    ensures Inv(cfg, w')
  {
    hide ValidSchedule, MsgOk;
    var r := w.replicas[i];
    assert ReplicaOk(cfg, w.hist, i, r);
    BatchMsg(cfg, w.hist, i, r);
    PlainStep(cfg, w, w', i, r,
      {Batch(r.proposal.value.view, i, CommittedOf(r.schedule, r.committedEnd), r.proposal.value, false)});
  }

  lemma SnapshotMsg(cfg: Config, h: History, i: nat, r: ReplicaState)
    requires cfg.Valid() && i < |h.origin| && HistoryOk(cfg, h) && ReplicaOk(cfg, h, i, r)
    requires IsLeader(cfg, r) && r.proposal.None?
    ensures MsgOk(cfg, h, Snapshot(r.view, i, CommittedOf(r.schedule, r.committedEnd)))
  {
    hide ValidSchedule;
    SettledSnapshot(cfg, h, r);
  }

  lemma SendSnapshotKeeps(cfg: Config, w: World, w': World, i: nat)
    requires cfg.Valid() && Inv(cfg, w) && i < cfg.n && TakesPlain(cfg, w, w', SendSnapshotStep(i))
    ensures Inv(cfg, w')
  {
    hide ValidSchedule, Inv, MsgOk, HistoryOk, ReplicaOk;
    MoverOk(cfg, w, i);
    var r := w.replicas[i];
    SnapshotMsg(cfg, w.hist, i, r);
    PlainStep(cfg, w, w', i, r, {Snapshot(r.view, i, CommittedOf(r.schedule, r.committedEnd))});
  }

  lemma CommitReplica(cfg: Config, h: History, i: nat, r: ReplicaState)
    requires cfg.Valid() && i < |h.origin| && ReplicaOk(cfg, h, i, r) && MayCommit(cfg, r)
    ensures ReplicaOk(cfg, h, i, CommitProposal(r))
    ensures CommitOk(cfg, h, Commit(r.view, r.schedule))
  {
    var p := r.proposal.value;
    var n := |r.schedule| - |p.requests|;
    assert forall k :: n <= k < |r.schedule| ==> r.schedule[k] == Entries(p)[k - n];
    assert ProposalOk(cfg, h, CommitProposal(r));
    assert ChosenBy(cfg, h, r.view, r.schedule, r.prepared);
  }

  lemma CommitMsg(cfg: Config, h: History, i: nat, r: ReplicaState, msg: Msg)
    requires cfg.Valid() && i < |h.origin| && HistoryOk(cfg, h) && ReplicaOk(cfg, h, i, r) && MayCommit(cfg, r)
    requires msg == Batch(r.view, i, CommittedOf(r.schedule, r.proposal.value.end), r.proposal.value, true)
    ensures MsgOk(cfg, h, msg)
  {
    CommittedSnapshot(cfg, h, r);
  }

  lemma CommitKeeps(cfg: Config, w: World, w': World, i: nat)
    requires cfg.Valid() && Inv(cfg, w) && i < cfg.n && TakesCommit(cfg, w, w', i)
    ensures Inv(cfg, w')
  {
    hide ValidSchedule, Inv, MsgOk, HistoryOk, ReplicaOk, CommitOk;
    MoverOk(cfg, w, i);
    var r := w.replicas[i];
    CommitReplica(cfg, w.hist, i, r);
    var r' := CommitProposal(r);
    var msg := Batch(r.view, i, CommittedOf(r'.schedule, r'.committedEnd), r.proposal.value, true);
    CommitMsg(cfg, w.hist, i, r, msg);
    LocalStep(cfg, w, w', i, r', {msg});
  }

  /** A promise for a history that ends with the pending window is a promise
      for the leader's whole history. */
  lemma AckedIsPending(cfg: Config, h: History, r: ReplicaState, acked: seq<Window>)
    requires ProposalOk(cfg, h, r) && r.proposal.Some? && ValidSchedule(r.schedule) && CutOf(acked, r.schedule)
    requires |acked| > 0 && acked[|acked| - 1].firstMsgNs == r.proposal.value.start
    ensures acked == r.schedule
  {
    var p := r.proposal.value;
    assert r.schedule[|r.schedule| - 1] == Entries(p)[|p.requests| - 1];
    CutEndsEarlier(acked, r.schedule);
  }

  /** An acknowledgement that matches the pending proposal is for this history. */
  lemma AckReplica(cfg: Config, h: History, i: nat, r: ReplicaState, msg: Msg)
    requires cfg.Valid() && i < |h.origin| && HistoryOk(cfg, h) && ReplicaOk(cfg, h, i, r)
    requires msg.Ack? && MsgOk(cfg, h, msg)
    ensures ReplicaOk(cfg, h, i, HandlePrepareReply(cfg, r, msg.from, msg.view, msg.start, msg.end))
  {
    hide ValidSchedule;
    var r' := HandlePrepareReply(cfg, r, msg.from, msg.view, msg.start, msg.end);
    if r' != r {
      var acked :| AckedBy(h, msg.from, msg.view, msg.start, msg.end, acked);
      AckedIsPending(cfg, h, r, acked);
      assert ProposalOk(cfg, h, r');
    }
  }

  lemma HandleAckKeeps(cfg: Config, w: World, w': World, i: nat, msg: Msg)
    requires cfg.Valid() && Inv(cfg, w) && i < cfg.n && TakesPlain(cfg, w, w', HandleAckStep(i, msg))
    ensures Inv(cfg, w')
  {
    hide ValidSchedule;
    var r := w.replicas[i];
    assert ReplicaOk(cfg, w.hist, i, r);
    AckReplica(cfg, w.hist, i, r, msg);
    PlainStep(cfg, w, w', i, HandlePrepareReply(cfg, r, msg.from, msg.view, msg.start, msg.end), {});
  }

  // ------------------------------------------------------------- the followers' steps

  lemma HandleCommitKeeps(cfg: Config, w: World, w': World, i: nat, msg: Msg)
    requires cfg.Valid() && Inv(cfg, w) && i < cfg.n && TakesPlain(cfg, w, w', HandleCommitStep(i, msg))
    ensures Inv(cfg, w')
  {
    hide ValidSchedule;
    var r := w.replicas[i];
    assert ReplicaOk(cfg, w.hist, i, r) && MsgOk(cfg, w.hist, msg);
    var p := msg.prepare;
    PlainStep(cfg, w, w', i, HandleCommit(cfg, r, p.replicaId, p.view, p.start, p.end), {});
  }

  ghost function Carried(msg: Msg): seq<Window>
    requires msg.Batch? || msg.Snapshot?
  {
    if msg.Batch? then msg.snapshot else msg.schedule
  }

  lemma SnapshotReplica(cfg: Config, h: History, i: nat, r: ReplicaState, msg: Msg)
    requires cfg.Valid() && i < |h.origin| && HistoryOk(cfg, h) && ReplicaOk(cfg, h, i, r)
    requires (msg.Batch? || msg.Snapshot?) && msg.sender != i && MsgOk(cfg, h, msg)
    ensures var (r', ok) := HandleScheduleInstall(cfg, r, msg.sender, msg.view, Carried(msg));
      && ReplicaOk(cfg, h, i, r')
      && (r' != r ==> ok)
      && (ok ==> r.view == r'.view == msg.view && r.status == r'.status == Normal
                 && CutOf(r.schedule, r'.schedule) && CutOf(Carried(msg), r'.schedule))
  {
    hide ValidSchedule;
    var schedule := Carried(msg);
    var (r', ok) := HandleScheduleInstall(cfg, r, msg.sender, msg.view, schedule);
    if ok {
      CutsComparable(r.schedule, schedule, h.latest[r.view]);
      CutOfTransitive(h.base[r.view], r.schedule, r'.schedule);
      HonoursLonger(h, i, r, r'.schedule);
    }
  }

  lemma HonoursLonger(h: History, i: nat, r: ReplicaState, schedule: seq<Window>)
    requires Honours(h, i, r.view + 1, r.view, r.view, r.schedule) && CutOf(r.schedule, schedule)
    ensures Honours(h, i, r.view + 1, r.view, r.view, schedule)
  {
    forall q | q in h.promises && q.replica == i && q.view == r.view ensures CutOf(q.schedule, schedule) {
      CutOfTransitive(q.schedule, r.schedule, schedule);
    }
  }

  lemma HandleSnapshotKeeps(cfg: Config, w: World, w': World, i: nat, msg: Msg)
    requires cfg.Valid() && Inv(cfg, w) && i < cfg.n && TakesSnapshot(cfg, w, w', i, msg)
    ensures Inv(cfg, w')
  {
    hide ValidSchedule;
    var r := w.replicas[i];
    assert ReplicaOk(cfg, w.hist, i, r) && MsgOk(cfg, w.hist, msg);
    SnapshotReplica(cfg, w.hist, i, r, msg);
    var (r', ok) := HandleScheduleInstall(cfg, r, msg.sender, msg.view, Carried(msg));
    LocalStep(cfg, w, w', i, r', {});
  }

  /** After the batch's snapshot, a follower that lacks the batch's window holds
      exactly the snapshot, so appending the window gives a cut of the leader's history. */
  lemma AppendFollowsLeader(cfg: Config, h: History, i: nat, r: ReplicaState, msg: Msg)
    requires cfg.Valid() && i < |h.origin| && HistoryOk(cfg, h) && ReplicaOk(cfg, h, i, r)
    requires SnapshotOk(cfg, h, r, msg) && msg.view == r.view
    requires WellFormedPrepare(cfg, msg.prepare) && MayAppend(r, msg.prepare)
    ensures r.schedule == msg.snapshot && CutOf(r.schedule + Entries(msg.prepare), h.latest[r.view])
  {
    HasStartGrows(msg.snapshot, r.schedule, msg.prepare.start);
    NextWindow(msg.snapshot, r.schedule, h.latest[r.view], msg.prepare);
  }

  lemma HasStartGrows(p: seq<Window>, s: seq<Window>, start: u64)
    requires p <= s
    ensures HasStart(p, start) ==> HasStart(s, start)
  {
    if HasStart(p, start) {
      var k :| 0 <= k < |p| && p[k].firstMsgNs == start;
      assert s[k] == p[k];
    }
  }

  /** If the leader's history goes on from `snapshot` with m's window, so does
      every longer part of it. */
  lemma NextWindow(snapshot: seq<Window>, s: seq<Window>, latest: seq<Window>, m: Prepare)
    requires snapshot <= s <= latest && snapshot + Entries(m) <= latest
    requires 0 < |m.requests| && m.requests[0].startTime == m.start
    ensures |snapshot| < |s| ==> HasStart(s, m.start)
  {
    if |snapshot| < |s| {
      assert s[|snapshot|] == latest[|snapshot|] == (snapshot + Entries(m))[|snapshot|] == Entries(m)[0];
    }
  }

  /** Accepting a prepare keeps the follower within the leader's history. */
  lemma PrepareReplica(cfg: Config, h: History, i: nat, r: ReplicaState, msg: Msg)
    requires cfg.Valid() && i < |h.origin| && HistoryOk(cfg, h) && ReplicaOk(cfg, h, i, r)
    requires SnapshotOk(cfg, h, r, msg) && Accepts(cfg, r, msg.prepare) && msg.prepare.view == msg.view
    ensures var r' := AcceptPrepare(cfg, r, msg.prepare);
      && From(h, r'.schedule, r.view) && CutOf(r.schedule, r'.schedule)
      && HasStart(r'.schedule, msg.prepare.start)
  {
    var m := msg.prepare;
    var r' := AcceptPrepare(cfg, r, m);
    if MayAppend(r, m) {
      AppendFollowsLeader(cfg, h, i, r, msg);
      AppendValid(r.schedule, m);
      assert r'.schedule == r.schedule + Entries(m);
      assert r'.schedule[|r.schedule|] == Entries(m)[0];
    }
    CutOfTransitive(h.base[r.view], r.schedule, r'.schedule);
  }

  lemma AckNamesWindow(cfg: Config, r: ReplicaState, m: Prepare)
    requires cfg.Valid() && Accepts(cfg, r, m)
    requires var r' := AcceptPrepare(cfg, r, m); ValidSchedule(r'.schedule) && HasStart(r'.schedule, m.start)
    ensures var r' := AcceptPrepare(cfg, r, m); var p := Through(r'.schedule, m.start);
      CutOf(p, r'.schedule) && |p| > 0 && p[|p| - 1].firstMsgNs == m.start && p[|p| - 1].endTime == m.end
  {
    var r' := AcceptPrepare(cfg, r, m);
    ThroughCut(r'.schedule, m.start);
    AcceptedWindow(cfg, r, m);
    var p := Through(r'.schedule, m.start);
    assert p[|p| - 1] in Entries(m);
  }

  lemma PromiseHistory(cfg: Config, h: History, h': History, i: nat, v: nat, p: seq<Window>)
    requires cfg.Valid() && HistoryOk(cfg, h) && i < cfg.n && v in h.base && CutOf(p, h.latest[v])
    requires h' == h.(promises := h.promises + {Promise(i, v, p)})
    ensures HistoryOk(cfg, h') && Grows(cfg, h, h', i, v)
  {
  }

  lemma PrepareOutcome(cfg: Config, h: History, h': History, i: nat, r: ReplicaState, msg: Msg)
    requires cfg.Valid() && i < cfg.n && HistoryOk(cfg, h) && ReplicaOk(cfg, h, i, r)
    requires SnapshotOk(cfg, h, r, msg) && Accepts(cfg, r, msg.prepare) && msg.prepare.view == msg.view
    requires h' == h.(promises := h.promises +
      {Promise(i, r.view, Through(AcceptPrepare(cfg, r, msg.prepare).schedule, msg.prepare.start))})
    ensures HistoryOk(cfg, h') && Grows(cfg, h, h', i, r.view)
    ensures var r' := AcceptPrepare(cfg, r, msg.prepare);
      ReplicaOk(cfg, h', i, r') && Advances(r, r')
    ensures MsgOk(cfg, h', Ack(i, msg.view, msg.prepare.start, msg.prepare.end))
  {
    var m := msg.prepare;
    var r' := AcceptPrepare(cfg, r, m);
    PrepareReplica(cfg, h, i, r, msg);
    AckNamesWindow(cfg, r, m);
    var p := Through(r'.schedule, m.start);
    CutOfTransitive(p, r'.schedule, h.latest[r.view]);
    PromiseHistory(cfg, h, h', i, r.view, p);
    HonoursExtended(h, h', i, r, r'.schedule, p);
    FollowerOk(cfg, h, h', i, r, r');
    assert AckedBy(h', i, r.view, m.start, m.end, p);
  }

  lemma RefusedPrepare(cfg: Config, r: ReplicaState, m: Prepare)
    requires cfg.Valid() && !Accepts(cfg, r, m)
    ensures AcceptPrepare(cfg, r, m) == r
  {
  }

  lemma HandlePrepareKeeps(cfg: Config, w: World, w': World, i: nat, msg: Msg)
    requires cfg.Valid() && Inv(cfg, w) && i < cfg.n && TakesPrepare(cfg, w, w', i, msg)
    ensures Inv(cfg, w')
  {
    hide ValidSchedule, AcceptPrepare, Accepts;
    var r := w.replicas[i];
    assert ReplicaOk(cfg, w.hist, i, r) && SnapshotOk(cfg, w.hist, r, msg);
    var r' := AcceptPrepare(cfg, r, msg.prepare);
    if Accepts(cfg, r, msg.prepare) {
      PrepareOutcome(cfg, w.hist, w'.hist, i, r, msg);
      LocalStep(cfg, w, w', i, r', {Ack(i, msg.view, msg.prepare.start, msg.prepare.end)});
    } else {
      RefusedPrepare(cfg, r, msg.prepare);
      PlainStep(cfg, w, w', i, r', {});
    }
  }

  /** What the accepted prepare left in the history is the prepare's own window. */
  lemma AcceptedWindow(cfg: Config, r: ReplicaState, m: Prepare)
    requires cfg.Valid() && Accepts(cfg, r, m)
    ensures forall x :: x in WindowAt(AcceptPrepare(cfg, r, m).schedule, m.start) ==> x in Entries(m)
  {
    var r' := AcceptPrepare(cfg, r, m);
    if MayAppend(r, m) {
      WindowAtOnly(r.schedule, m.start);
      WindowAtAppend(r.schedule, Entries(m), m.start);
    }
  }

  lemma {:induction false} WindowAtAppend(schedule: seq<Window>, e: seq<Window>, start: u64)
    requires forall i :: 0 <= i < |e| ==> e[i].firstMsgNs == start
    ensures WindowAt(schedule + e, start) == WindowAt(schedule, start) + e
  {
    if e == [] {
      assert schedule + e == schedule;
    } else {
      var front := e[..|e| - 1];
      WindowAtAppend(schedule, front, start);
      assert (schedule + e)[..|schedule + e| - 1] == schedule + front;
      assert front + [e[|e| - 1]] == e;
    }
  }

  /** A follower whose history grew within the leader's keeps its invariant. */
  lemma FollowerOk(cfg: Config, h: History, h': History, i: nat, r: ReplicaState, r': ReplicaState)
    requires cfg.Valid() && |h.origin| == |h'.origin| && i < |h.origin| && ReplicaOk(cfg, h, i, r) && r.status == Normal
    requires h' == h.(promises := h'.promises)
    requires r' == r.(schedule := r'.schedule, epoch := r'.epoch, ready := r'.ready)
    requires From(h, r'.schedule, r.view) && CutOf(r.schedule, r'.schedule)
    requires Honours(h', i, r.view + 1, r.view, r.view, r'.schedule)
    requires h.promises <= h'.promises
    requires forall p :: p in h'.promises && p !in h.promises ==> p.view == r.view
    ensures ReplicaOk(cfg, h', i, r')
  {
    if IsLeader(cfg, r) {
      assert r'.schedule == r.schedule;
      assert ProposalOk(cfg, h', r');
    }
  }
}
