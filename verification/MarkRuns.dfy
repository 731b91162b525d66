/** What a replica treats as committed, over whole runs: in every run whose
    leaders repeat a start view only between proposals, and that publishes no
    empty history over an old mark, it is what the view began with or a history
    that a leader of the view committed. */
module MarkRuns {
  import opened Schedule
  import opened ReplicaSpec
  import opened Agreement
  import opened AgreementInvariant
  import opened AgreementSteps
  import opened AgreementTheorems
  import opened CommitMarks

  /** The two guards, each a test the code could make before it acts. */
  ghost predicate Careful(w: World, step: Step) {
    && (step.SendStartViewStep? && step.i < |w.replicas| ==> w.replicas[step.i].proposal.None?)
    && ((step.PublishStep? || step.FinishRecoveryStep?) && step.i < |w.replicas| ==>
          w.replicas[step.i].schedule != [] || w.replicas[step.i].committedEnd == 0)
  }

  ghost predicate CarefulNext(cfg: Config, w: World, w': World)
    requires cfg.Valid()
  {
    exists step :: Takes(cfg, w, w', step) && Careful(w, step)
  }

  ghost predicate IsCarefulRun(cfg: Config, run: seq<World>)
    requires cfg.Valid()
  {
    && |run| > 0 && run[0] == InitialWorld(cfg)
    && forall k :: 0 <= k < |run| - 1 ==> CarefulNext(cfg, run[k], run[k + 1])
  }

  lemma CarefulIsRun(cfg: Config, run: seq<World>)
    requires cfg.Valid() && IsCarefulRun(cfg, run)
    ensures IsRun(cfg, run)
  {
    hide Takes;
    forall k | 0 <= k < |run| - 1 ensures Next(cfg, run[k], run[k + 1]) {
      assert CarefulNext(cfg, run[k], run[k + 1]);
    }
  }

  /** Nothing, or part of what view v began with, or of what was committed in it. */
  ghost predicate Backed(w: World, v: nat, s: seq<Window>) {
    || s == []
    || (v in w.hist.base && CutOf(s, w.hist.base[v]))
    || exists c :: c in w.commits && c.view == v && CutOf(s, c.schedule)
  }

  ghost predicate CommitNamed(w: World, v: nat, start: u64, end: u64) {
    exists c :: c in w.commits && c.view == v && |c.schedule| > 0 && c.schedule[|c.schedule| - 1].endTime == end
  }

  ghost predicate MarkOk(w: World, r: ReplicaState) {
    match r.status
    case Normal =>
      && r.epoch == r.view && (r.ready <==> r.committedEnd > 0) && MarkIn(r.schedule, r.committedEnd)
      && Backed(w, r.view, CommittedOf(r.schedule, r.committedEnd))
    case ViewChange =>
      && !r.ready
      && (r.recovery.Some? ==> r.epoch == r.view && Backed(w, r.view, r.schedule))
      && (r.round.Some? && r.round.value.merged ==> r.epoch == r.view && Backed(w, r.view, r.schedule))
  }

  ghost predicate MsgMarkOk(cfg: Config, w: World, m: Msg)
    requires cfg.Valid()
  {
    match m
    case Batch(v, _, snapshot, p, committed) => Backed(w, v, snapshot) && (committed ==> CommitNamed(w, v, p.start, p.end))
    case Snapshot(v, _, schedule) => Backed(w, v, schedule)
    case StartView(v, s, schedule) => s == cfg.LeaderOf(v) ==> Backed(w, v, schedule)
    case _ => true
  }

  ghost predicate Marks(cfg: Config, w: World)
    requires cfg.Valid()
  {
    && (forall i :: 0 <= i < |w.replicas| ==> MarkOk(w, w.replicas[i]))
    && (forall m :: m in w.msgs ==> MsgMarkOk(cfg, w, m))
  }

  // ------------------------------------------------------------- what stays

  /** Bases of views stay, commits stay. */
  ghost predicate Keeps(w: World, w': World) {
    && (forall v :: v in w.hist.base ==> v in w'.hist.base && w'.hist.base[v] == w.hist.base[v])
    && w.commits <= w'.commits
  }

  lemma BackedStays(w: World, w': World, v: nat, s: seq<Window>)
    requires Keeps(w, w') && Backed(w, v, s)
    ensures Backed(w', v, s)
  {
    hide CutOf;
  }

  lemma MarkStays(w: World, w': World, r: ReplicaState)
    requires Keeps(w, w') && MarkOk(w, r)
    ensures MarkOk(w', r)
  {
    hide Backed, Keeps;
    if r.status.Normal? {
      BackedStays(w, w', r.view, CommittedOf(r.schedule, r.committedEnd));
    } else if r.recovery.Some? || (r.round.Some? && r.round.value.merged) {
      BackedStays(w, w', r.view, r.schedule);
    }
  }

  lemma MsgMarkStays(cfg: Config, w: World, w': World, m: Msg)
    requires cfg.Valid() && Keeps(w, w') && MsgMarkOk(cfg, w, m)
    ensures MsgMarkOk(cfg, w', m)
  {
    hide Backed;
    match m
    case Batch(v, _, snapshot, p, committed) => BackedStays(w, w', v, snapshot);
    case Snapshot(v, _, schedule) => BackedStays(w, w', v, schedule);
    case StartView(v, s, schedule) =>
      if s == cfg.LeaderOf(v) { BackedStays(w, w', v, schedule); }
    case _ =>
  }

  lemma MarksMove(cfg: Config, w: World, w': World, i: nat, r': ReplicaState, sent: set<Msg>)
    requires cfg.Valid() && Marks(cfg, w) && i < |w.replicas| && Moves(w, w', i, r', sent) && Keeps(w, w')
    requires MarkOk(w', r') && forall m :: m in sent ==> MsgMarkOk(cfg, w', m)
    ensures Marks(cfg, w')
  {
    hide MarkOk, MsgMarkOk, Keeps;
    forall j | 0 <= j < |w'.replicas| ensures MarkOk(w', w'.replicas[j]) {
      if j != i { MarkStays(w, w', w.replicas[j]); }
    }
    forall m | m in w'.msgs ensures MsgMarkOk(cfg, w', m) {
      if m in w.msgs { MsgMarkStays(cfg, w, w', m); }
    }
  }

  lemma MergeIsNew(cfg: Config, w: World, w': World, i: nat, reports: seq<ScheduleReport>)
    requires cfg.Valid() && Inv(cfg, w) && i < cfg.n && |w.replicas| == cfg.n && TakesMerge(cfg, w, w', i, reports)
    ensures Keeps(w, w')
  {
    hide ValidSchedule, Inv, MergedHistory, Collected;
    MoverOk(cfg, w, i);
  }

  lemma StepKeepsBases(cfg: Config, w: World, w': World, step: Step)
    requires cfg.Valid() && Inv(cfg, w) && Takes(cfg, w, w', step)
    ensures Keeps(w, w')
  {
    hide Inv;
    match step
    case MergeStep(i, reports) => MergeIsNew(cfg, w, w', i, reports);
    case _ =>
  }

  // ------------------------------------------------------------- the leader's steps

  lemma ProposeMarks(cfg: Config, w: World, w': World, i: nat, m: Prepare)
    requires cfg.Valid() && Inv(cfg, w) && Marks(cfg, w) && i < cfg.n && |w.replicas| == cfg.n && Keeps(w, w')
    requires TakesPropose(cfg, w, w', i, m)
    ensures Marks(cfg, w')
  {
    hide ValidSchedule, Inv, Backed, CommittedOf, MayPrepare, MayAppend, Keeps;
    MoverOk(cfg, w, i);
    var r := w.replicas[i];
    ProposedSchedule(cfg, w.hist, i, r, m);
    AcceptedMarkIff(cfg, r, m);
    BackedStays(w, w', r.view, CommittedOf(r.schedule, r.committedEnd));
    MarksMove(cfg, w, w', i, Propose(cfg, r, m), {});
  }

  lemma CommittedMark(cfg: Config, h: History, i: nat, r: ReplicaState)
    requires cfg.Valid() && i < |h.origin| && ReplicaOk(cfg, h, i, r) && MayCommit(cfg, r)
    ensures var p := r.proposal.value; r.view == p.view && |r.schedule| > 0 && r.schedule[|r.schedule| - 1].endTime == p.end > 0
    ensures CommittedOf(r.schedule, r.proposal.value.end) == r.schedule
  {
    var p := r.proposal.value;
    var n := |r.schedule| - |p.requests|;
    CommittedSnapshot(cfg, h, r);
    assert r.schedule[|r.schedule| - 1] == r.schedule[n..][|p.requests| - 1];
  }

  lemma CommitMarksKept(cfg: Config, w: World, w': World, i: nat)
    requires cfg.Valid() && Inv(cfg, w) && Marks(cfg, w) && i < cfg.n && |w.replicas| == cfg.n && Keeps(w, w')
    requires TakesCommit(cfg, w, w', i)
    ensures Marks(cfg, w')
  {
    hide ValidSchedule, Inv, CommittedOf, ReplicaOk, Keeps;
    MoverOk(cfg, w, i);
    var r := w.replicas[i];
    CommittedMark(cfg, w.hist, i, r);
    var c := Commit(r.view, r.schedule);
    assert c in w'.commits && CutOf(r.schedule, c.schedule);
    EpochOf(w, r);
    MarksMove(cfg, w, w', i, CommitProposal(r),
      {Batch(r.view, i, CommittedOf(r.schedule, r.proposal.value.end), r.proposal.value, true)});
  }

  lemma EpochOf(w: World, r: ReplicaState)
    requires MarkOk(w, r) && r.status == Normal
    ensures r.epoch == r.view && MarkIn(r.schedule, r.committedEnd) && (r.ready <==> r.committedEnd > 0)
    ensures Backed(w, r.view, CommittedOf(r.schedule, r.committedEnd))
  {
  }

  // ------------------------------------------------------------- the followers' steps

  lemma SnapshotMarks(cfg: Config, w: World, w': World, i: nat, msg: Msg)
    requires cfg.Valid() && Inv(cfg, w) && Marks(cfg, w) && i < cfg.n && |w.replicas| == cfg.n && Keeps(w, w')
    requires TakesSnapshot(cfg, w, w', i, msg)
    ensures Marks(cfg, w')
  {
    hide ValidSchedule, Inv, CommittedOf, Keeps, Backed, MsgOk, HandleScheduleInstall, ReplicaOk;
    var r, s := w.replicas[i], Carried(msg);
    MoverOk(cfg, w, i);
    assert MsgMarkOk(cfg, w, msg);
    ReceivedOk(cfg, w, msg);
    SnapshotReplica(cfg, w.hist, i, r, msg);
    var (r', ok) := HandleScheduleInstall(cfg, r, msg.sender, msg.view, s);
    SnapshotMark(cfg, w, i, r, msg);
    MarkStays(w, w', r');
    MarksMove(cfg, w, w', i, r', {});
  }

  lemma ReceivedOk(cfg: Config, w: World, msg: Msg)
    requires cfg.Valid() && Inv(cfg, w) && msg in w.msgs
    ensures MsgOk(cfg, w.hist, msg)
  {
  }

  lemma SnapshotMark(cfg: Config, w: World, i: nat, r: ReplicaState, msg: Msg)
    requires cfg.Valid() && i < |w.hist.origin| && HistoryOk(cfg, w.hist) && ReplicaOk(cfg, w.hist, i, r) && MarkOk(w, r)
    requires (msg.Batch? || msg.Snapshot?) && msg.sender != i && MsgOk(cfg, w.hist, msg) && MsgMarkOk(cfg, w, msg)
    ensures MarkOk(w, HandleScheduleInstall(cfg, r, msg.sender, msg.view, Carried(msg)).0)
  {
    hide Backed, CommittedOf, HistoryOk, ReplicaOk, MsgOk, HandleScheduleInstall, ValidSchedule, MarkOk;
    var s := Carried(msg);
    var (t, ok) := HandleScheduleInstall(cfg, r, msg.sender, msg.view, s);
    SnapshotReplica(cfg, w.hist, i, r, msg);
    NormalValid(cfg, w.hist, i, r);
    NormalValid(cfg, w.hist, i, t);
    SnapshotCommits(cfg, r, msg.sender, msg.view, s);
    if ok && s != [] {
      CarriedBacked(cfg, w, msg);
      EpochOf(w, r);
      SnapshotMarked(w, r, t, s);
    }
  }

  lemma CarriedBacked(cfg: Config, w: World, msg: Msg)
    requires cfg.Valid() && (msg.Batch? || msg.Snapshot?) && MsgMarkOk(cfg, w, msg)
    ensures Backed(w, msg.view, Carried(msg))
  {
  }

  lemma SnapshotMarked(w: World, r: ReplicaState, t: ReplicaState, s: seq<Window>)
    requires MarkOk(w, r) && r.status == Normal && ValidSchedule(t.schedule) && Backed(w, r.view, s)
    requires s != [] && CutOf(s, t.schedule) && t.ready && CoversAll(t, s) && t.epoch == t.view
    requires t == r.(schedule := t.schedule, epoch := t.epoch, ready := t.ready, committedEnd := t.committedEnd)
    requires t.committedEnd == s[|s| - 1].endTime || (t.committedEnd == r.committedEnd && t.schedule == r.schedule)
    ensures MarkOk(w, t)
  {
    hide Backed, CommittedOf;
    var n := |s|;
    assert s[n - 1] in s && s[n - 1] == t.schedule[n - 1] && ValidTiming(t.schedule[n - 1]);
    EndsAscend(t.schedule, n - 1, |t.schedule| - 1);
    CommittedAtCut(t.schedule, s);
  }

  lemma PrepareMarks(cfg: Config, w: World, w': World, i: nat, msg: Msg)
    requires cfg.Valid() && Inv(cfg, w) && Marks(cfg, w) && i < cfg.n && |w.replicas| == cfg.n && Keeps(w, w')
    requires TakesPrepare(cfg, w, w', i, msg)
    ensures Marks(cfg, w')
  {
    hide ValidSchedule, Inv, CommittedOf, Keeps, Backed, ReplicaOk, AcceptPrepare, MayAppend;
    MoverOk(cfg, w, i);
    var r := w.replicas[i];
    var m := msg.prepare;
    NormalValid(cfg, w.hist, i, r);
    if MayPrepare(cfg, r, m) && MayAppend(r, m) {
      AcceptedMarkIff(cfg, r, m);
      AppendedOnly(cfg, r, m);
    } else {
      RefusedOrHeld(cfg, r, m);
    }
    var r' := AcceptPrepare(cfg, r, m);
    MarkStays(w, w', r');
    MarksMove(cfg, w, w', i, r', if Accepts(cfg, r, m) then {Ack(i, msg.view, m.start, m.end)} else {});
  }

  lemma NormalValid(cfg: Config, h: History, i: nat, r: ReplicaState)
    requires cfg.Valid() && i < |h.origin| && ReplicaOk(cfg, h, i, r)
    ensures ValidSchedule(r.schedule)
  {
  }

  lemma AppendedOnly(cfg: Config, r: ReplicaState, m: Prepare)
    requires cfg.Valid() && MayPrepare(cfg, r, m) && MayAppend(r, m)
    ensures var t := AcceptPrepare(cfg, r, m);
      t == r.(schedule := t.schedule, epoch := t.epoch, ready := t.ready) && t.epoch == r.view && r.status == Normal
  {
  }

  lemma RefusedOrHeld(cfg: Config, r: ReplicaState, m: Prepare)
    requires cfg.Valid() && !(MayPrepare(cfg, r, m) && MayAppend(r, m))
    ensures AcceptPrepare(cfg, r, m) == r
  {
  }

  lemma CommitHandled(cfg: Config, w: World, w': World, i: nat, msg: Msg)
    requires cfg.Valid() && Inv(cfg, w) && Marks(cfg, w) && i < cfg.n && |w.replicas| == cfg.n && Keeps(w, w')
    requires TakesPlain(cfg, w, w', HandleCommitStep(i, msg))
    ensures Marks(cfg, w')
  {
    hide ValidSchedule, Inv, CommittedOf, Keeps, Backed, ReplicaOk, HandleCommit, MsgOk, CommitOk;
    MoverOk(cfg, w, i);
    var r, p := w.replicas[i], msg.prepare;
    assert MsgMarkOk(cfg, w, msg);
    ReceivedOk(cfg, w, msg);
    BatchNames(cfg, w.hist, msg);
    var c :| c in w.commits && c.view == msg.view && |c.schedule| > 0 && c.schedule[|c.schedule| - 1].endTime == p.end;
    CommitIsFrom(cfg, w, c);
    HandledMark(cfg, w, i, r, p, c);
    var r' := HandleCommit(cfg, r, p.replicaId, p.view, p.start, p.end);
    MarkStays(w, w', r');
    MarksMove(cfg, w, w', i, r', {});
  }

  lemma BatchNames(cfg: Config, h: History, msg: Msg)
    requires cfg.Valid() && MsgOk(cfg, h, msg) && msg.Batch?
    ensures msg.prepare.view == msg.view
  {
  }

  lemma CommitIsFrom(cfg: Config, w: World, c: Commit)
    requires cfg.Valid() && Inv(cfg, w) && c in w.commits
    ensures From(w.hist, c.schedule, c.view)
  {
    assert CommitOk(cfg, w.hist, c);
  }

  lemma HeldEnd(s: seq<Window>, start: u64, end: u64)
    requires ValidSchedule(s) && HoldsWindow(s, start, end)
    ensures |s| > 0 && 0 < end <= s[|s| - 1].endTime
  {
    var k :| 0 <= k < |s| && s[k].firstMsgNs == start && s[k].endTime == end;
    EndsAscend(s, k, |s| - 1);
    assert ValidTiming(s[k]);
  }

  lemma HandledMark(cfg: Config, w: World, i: nat, r: ReplicaState, p: Prepare, c: Commit)
    requires cfg.Valid() && i < |w.hist.origin| && HistoryOk(cfg, w.hist) && ReplicaOk(cfg, w.hist, i, r) && MarkOk(w, r)
    requires c in w.commits && c.view == p.view && From(w.hist, c.schedule, c.view)
    requires |c.schedule| > 0 && c.schedule[|c.schedule| - 1].endTime == p.end
    ensures MarkOk(w, HandleCommit(cfg, r, p.replicaId, p.view, p.start, p.end))
  {
    hide HistoryOk, CommittedOf, Backed, ValidSchedule, HoldsWindow;
    var r' := HandleCommit(cfg, r, p.replicaId, p.view, p.start, p.end);
    if p.view == r.view && r.status == Normal && p.replicaId == cfg.LeaderOf(r.view) && HoldsWindow(r.schedule, p.start, p.end) {
      HeldEnd(r.schedule, p.start, p.end);
      if r'.committedEnd == p.end {
        CutByCommit(r.schedule, c.schedule, w.hist.latest[r.view]);
        BackedByCommit(w, c, CommittedOf(r.schedule, p.end));
      }
    }
  }

  lemma BackedByCommit(w: World, c: Commit, s: seq<Window>)
    requires c in w.commits && CutOf(s, c.schedule)
    ensures Backed(w, c.view, s)
  {
  }

  /** What of a history ends by the end of a committed one is part of it. */
  lemma CutByCommit(s: seq<Window>, c: seq<Window>, latest: seq<Window>)
    requires ValidSchedule(s) && ValidSchedule(c) && CutOf(s, latest) && CutOf(c, latest) && |c| > 0
    ensures CutOf(CommittedOf(s, c[|c| - 1].endTime), c)
  {
    var end := c[|c| - 1].endTime;
    hide CommittedOf, ValidSchedule;
    CommittedCut(s, end);
    var d := CommittedOf(s, end);
    CutOfTransitive(d, s, latest);
    CutsComparable(d, c, latest);
    CutsComparable(c, s, latest);
    if |c| < |s| {
      EndsLater(s, |c|);
    }
  }

  lemma EndsLater(s: seq<Window>, n: nat)
    requires ValidSchedule(s) && n < |s|
    ensures s[n].endTime > s[n].firstMsgNs
  {
    assert ValidTiming(s[n]);
  }

  // ------------------------------------------------------------- view changes

  lemma FinishedMark(w: World, r: ReplicaState, t: ReplicaState)
    requires ValidSchedule(r.schedule) && r.epoch == r.view && Backed(w, r.view, r.schedule)
    requires r.schedule != [] || r.committedEnd == 0
    requires t == PublishNormal(r)
    ensures MarkOk(w, t)
  {
    hide Backed;
    PublishMarks(r);
    if r.schedule == [] {
      BackedNone(w, r.view);
    } else {
      CommittedAtCut(r.schedule, r.schedule);
    }
  }

  lemma BackedNone(w: World, v: nat)
    ensures Backed(w, v, [])
  {
  }

  lemma PublishMarked(cfg: Config, w: World, w': World, i: nat)
    requires cfg.Valid() && Inv(cfg, w) && Marks(cfg, w) && i < cfg.n && |w.replicas| == cfg.n && Keeps(w, w')
    requires TakesPlain(cfg, w, w', PublishStep(i)) && Careful(w, PublishStep(i))
    ensures Marks(cfg, w')
  {
    hide ValidSchedule, Inv, CommittedOf, Keeps, Backed, ReplicaOk, PublishNormal;
    MoverOk(cfg, w, i);
    var r := w.replicas[i];
    NormalValid(cfg, w.hist, i, r);
    var r' := PublishNormal(r.(round := None));
    FinishedMark(w, r.(round := None), r');
    MarkStays(w, w', r');
    MarksMove(cfg, w, w', i, r', {});
  }

  lemma FinishMarked(cfg: Config, w: World, w': World, i: nat)
    requires cfg.Valid() && Inv(cfg, w) && Marks(cfg, w) && i < cfg.n && |w.replicas| == cfg.n && Keeps(w, w')
    requires TakesPlain(cfg, w, w', FinishRecoveryStep(i)) && Careful(w, FinishRecoveryStep(i))
    ensures Marks(cfg, w')
  {
    hide ValidSchedule, Inv, CommittedOf, Keeps, Backed, ReplicaOk;
    MoverOk(cfg, w, i);
    var r := w.replicas[i];
    NormalValid(cfg, w.hist, i, r);
    var r' := FinishRecovery(r);
    FinishedMark(w, r, PublishNormal(r));
    WithoutRecovery(w, PublishNormal(r));
    MarkStays(w, w', r');
    MarksMove(cfg, w, w', i, r', {});
  }

  lemma WithoutRecovery(w: World, r: ReplicaState)
    requires MarkOk(w, r) && r.status == Normal
    ensures MarkOk(w, r.(recovery := None))
  {
    hide Backed, CommittedOf;
  }

  lemma InstallMarked(cfg: Config, w: World, w': World, i: nat, msg: Msg)
    requires cfg.Valid() && Inv(cfg, w) && Marks(cfg, w) && i < cfg.n && |w.replicas| == cfg.n == |w.hist.origin| && Keeps(w, w')
    requires TakesInstall(cfg, w, w', i, msg)
    ensures Marks(cfg, w')
  {
    hide ValidSchedule, Inv, CommittedOf, Keeps, Backed;
    var r := w.replicas[i];
    assert MsgMarkOk(cfg, w, msg);
    var r' := InstallStartView(r, msg.view, msg.schedule);
    MarkStays(w, w', r');
    MarksMove(cfg, w, w', i, r', {});
  }

  lemma MergeMarked(cfg: Config, w: World, w': World, i: nat, reports: seq<ScheduleReport>)
    requires cfg.Valid() && Inv(cfg, w) && Marks(cfg, w) && i < cfg.n && |w.replicas| == cfg.n == |w.hist.origin| && Keeps(w, w')
    requires TakesMerge(cfg, w, w', i, reports)
    ensures Marks(cfg, w')
  {
    hide ValidSchedule, Inv, CommittedOf, Keeps, MergedHistory, MsgOk;
    var r := w.replicas[i];
    var plan := MergedHistory(reports).0;
    assert w'.hist.base[r.view] == plan && CutOf(plan, plan);
    assert Backed(w', r.view, plan);
    NoRecovery(cfg, w, i);
    MarksMove(cfg, w, w', i, MergeInstall(r, plan), {StartView(r.view, i, plan)});
  }

  lemma NoRecovery(cfg: Config, w: World, i: nat)
    requires cfg.Valid() && Inv(cfg, w) && i < cfg.n && |w.replicas| == cfg.n && w.replicas[i].round.Some?
    ensures w.replicas[i].recovery.None?
  {
    MoverOk(cfg, w, i);
  }

  lemma OtherMarked(cfg: Config, w: World, w': World, step: Step)
    requires cfg.Valid() && Inv(cfg, w) && Marks(cfg, w) && step.i < cfg.n && |w.replicas| == cfg.n && Keeps(w, w')
    requires TakesPlain(cfg, w, w', step) && Careful(w, step)
    requires !step.HandleCommitStep? && !step.PublishStep? && !step.FinishRecoveryStep?
    ensures Marks(cfg, w')
  {
    hide ValidSchedule, Inv, Keeps, Backed, CommittedOf, ReplicaOk, IsLeader, MsgOk;
    var i := step.i;
    MoverOk(cfg, w, i);
    var r := w.replicas[i];
    MarkStays(w, w', r);
    match step
    case SendBatchStep(_) =>
      SentMark(cfg, w, w', i, r);
      MarksMove(cfg, w, w', i, r, {Batch(r.proposal.value.view, i, CommittedOf(r.schedule, r.committedEnd), r.proposal.value, false)});
    case SendSnapshotStep(_) =>
      SentMark(cfg, w, w', i, r);
      MarksMove(cfg, w, w', i, r, {Snapshot(r.view, i, CommittedOf(r.schedule, r.committedEnd))});
    case HandleAckStep(_, msg) =>
      MarksMove(cfg, w, w', i, HandlePrepareReply(cfg, r, msg.from, msg.view, msg.start, msg.end), {});
    case BeginViewChangeStep(_, view) =>
      MarksMove(cfg, w, w', i, BeginViewChange(r, view), {Request(i, view)});
    case HandleRequestStep(_, msg) =>
      MarksMove(cfg, w, w', i, HandleViewChangeRequest(cfg, r, msg.sender, msg.view),
        if ReportDue(cfg, r, msg.sender, msg.view) then {Report(BuildReport(r))} else {});
    case SendStartViewStep(_) =>
      StartViewMark(cfg, w, w', i, r);
      MarksMove(cfg, w, w', i, r, {StartView(r.view, i, r.schedule)});
    case SeeStartViewStep(_, msg) =>
      MarksMove(cfg, w, w', i, SeeStartView(r, msg.view), {});
    case _ =>
  }

  lemma SentMark(cfg: Config, w: World, w': World, i: nat, r: ReplicaState)
    requires cfg.Valid() && i < |w.hist.origin| && ReplicaOk(cfg, w.hist, i, r) && MarkOk(w', r) && IsLeader(cfg, r)
    ensures Backed(w', r.view, CommittedOf(r.schedule, r.committedEnd))
    ensures r.proposal.Some? ==> r.proposal.value.view == r.view
  {
    hide Backed;
  }

  lemma StartViewMark(cfg: Config, w: World, w': World, i: nat, r: ReplicaState)
    requires cfg.Valid() && i < |w.hist.origin| && ReplicaOk(cfg, w.hist, i, r) && MarkOk(w', r)
    requires r.status == Normal && r.proposal.None?
    ensures MsgMarkOk(cfg, w', StartView(r.view, i, r.schedule))
  {
    hide Backed;
    if i == cfg.LeaderOf(r.view) {
      SettledSnapshot(cfg, w.hist, r);
    }
  }

  lemma StepMarks(cfg: Config, w: World, w': World, step: Step)
    requires cfg.Valid() && Inv(cfg, w) && Marks(cfg, w) && Takes(cfg, w, w', step) && Careful(w, step)
    ensures Marks(cfg, w')
  {
    hide Inv, Marks, Careful, Keeps;
    StepKeepsBases(cfg, w, w', step);
    match step
    case ProposeStep(i, m) => ProposeMarks(cfg, w, w', i, m);
    case CommitStep(i) => CommitMarksKept(cfg, w, w', i);
    case HandleSnapshotStep(i, msg) => SnapshotMarks(cfg, w, w', i, msg);
    case HandlePrepareStep(i, msg) => PrepareMarks(cfg, w, w', i, msg);
    case HandleCommitStep(i, msg) => CommitHandled(cfg, w, w', i, msg);
    case MergeStep(i, reports) => MergeMarked(cfg, w, w', i, reports);
    case InstallStartViewStep(i, msg) => InstallMarked(cfg, w, w', i, msg);
    case PublishStep(i) => PublishMarked(cfg, w, w', i);
    case FinishRecoveryStep(i) => FinishMarked(cfg, w, w', i);
    case _ => OtherMarked(cfg, w, w', step);
  }

  lemma {:induction false} RunMarks(cfg: Config, run: seq<World>, k: nat)
    requires cfg.Valid() && IsCarefulRun(cfg, run) && k < |run|
    ensures Marks(cfg, run[k])
  {
    hide Takes, Careful, Inv;
    if k == 0 {
    } else {
      RunMarks(cfg, run, k - 1);
      CarefulIsRun(cfg, run);
      RunInv(cfg, run, k - 1);
      assert CarefulNext(cfg, run[k - 1], run[k - 1 + 1]);
      var step :| Takes(cfg, run[k - 1], run[k], step) && Careful(run[k - 1], step);
      StepMarks(cfg, run[k - 1], run[k], step);
    }
  }

  /** What a normal replica treats as committed is part of what its view began
      with, or of a history that was committed in its view on F+1
      acknowledgements; and it admits buses exactly if that is anything. */
  lemma CommittedIsBacked(cfg: Config, run: seq<World>, k: nat, i: nat)
    requires cfg.Valid() && IsCarefulRun(cfg, run) && k < |run| && i < |run[k].replicas| && run[k].replicas[i].status == Normal
    ensures var r := run[k].replicas[i];
      && Backed(run[k], r.view, CommittedOf(r.schedule, r.committedEnd))
      && MarkIn(r.schedule, r.committedEnd) && r.epoch == r.view && (r.ready <==> r.committedEnd > 0)
  {
    RunMarks(cfg, run, k);
    EpochOf(run[k], run[k].replicas[i]);
  }

  // ------------------------------------------------------------- within a view

  /** While a replica is normal in a view its history and its mark only grow. */
  ghost predicate GrowsIn(r: ReplicaState, t: ReplicaState) {
    && r.view <= t.view
    && (r.status == Normal && r.view == t.view ==>
          t.status == Normal && r.schedule <= t.schedule && r.committedEnd <= t.committedEnd)
  }

  lemma PlainGrows(cfg: Config, w: World, w': World, step: Step)
    requires cfg.Valid() && Marks(cfg, w) && |w.replicas| == cfg.n && step.i < cfg.n && TakesPlain(cfg, w, w', step)
    ensures |w'.replicas| == cfg.n && GrowsIn(w.replicas[step.i], w'.replicas[step.i])
  {
    hide CommittedOf, Backed, IsLeader, UsableStartView;
    assert MarkOk(w, w.replicas[step.i]);
  }

  lemma ReceiverGrows(cfg: Config, w: World, w': World, i: nat, msg: Msg)
    requires cfg.Valid() && Inv(cfg, w) && Marks(cfg, w) && i < cfg.n && |w.replicas| == cfg.n && TakesSnapshot(cfg, w, w', i, msg)
    ensures |w'.replicas| == cfg.n && GrowsIn(w.replicas[i], w'.replicas[i])
  {
    hide ValidSchedule, Inv, CommittedOf, Backed, HandleScheduleInstall, MsgOk, ReplicaOk;
    var r := w.replicas[i];
    MoverOk(cfg, w, i);
    NormalValid(cfg, w.hist, i, r);
    assert MarkOk(w, r);
    SnapshotCommits(cfg, r, msg.sender, msg.view, Carried(msg));
    KeptIfRefused(cfg, r, msg.sender, msg.view, Carried(msg));
  }

  lemma KeptIfRefused(cfg: Config, r: ReplicaState, sender: nat, epoch: nat, s: seq<Window>)
    requires cfg.Valid()
    ensures r.schedule <= HandleScheduleInstall(cfg, r, sender, epoch, s).0.schedule
  {
  }

  lemma ViewGrows(cfg: Config, w: World, w': World, step: Step)
    requires cfg.Valid() && Inv(cfg, w) && Takes(cfg, w, w', step) && (step.MergeStep? || step.InstallStartViewStep?)
    ensures |w'.replicas| == cfg.n && GrowsIn(w.replicas[step.i], w'.replicas[step.i])
  {
    hide Inv, Collected, MergedHistory, ReplicaOk, ValidSchedule;
    MoverOk(cfg, w, step.i);
  }

  lemma WindowGrows(cfg: Config, w: World, w': World, step: Step)
    requires cfg.Valid() && Takes(cfg, w, w', step) && (step.ProposeStep? || step.HandlePrepareStep?)
    ensures |w'.replicas| == cfg.n && GrowsIn(w.replicas[step.i], w'.replicas[step.i])
  {
    hide AcceptPrepare, Accepts;
    AppendGrows(cfg, w.replicas[step.i], if step.ProposeStep? then step.m else step.msg.prepare);
  }

  lemma CommitStepGrows(cfg: Config, w: World, w': World, i: nat)
    requires cfg.Valid() && Inv(cfg, w) && Marks(cfg, w) && |w.replicas| == |w.hist.origin| == cfg.n && i < cfg.n && TakesCommit(cfg, w, w', i)
    ensures |w'.replicas| == cfg.n && GrowsIn(w.replicas[i], w'.replicas[i])
  {
    hide Inv, Marks;
    MoverOk(cfg, w, i);
    CommittedMark(cfg, w.hist, i, w.replicas[i]);
    CommitGrows(cfg, w.hist, w.replicas[i]);
  }

  lemma MoverGrows(cfg: Config, w: World, w': World, step: Step)
    requires cfg.Valid() && Inv(cfg, w) && Marks(cfg, w) && Takes(cfg, w, w', step) && |w.replicas| == cfg.n
    ensures |w'.replicas| == cfg.n && GrowsIn(w.replicas[step.i], w'.replicas[step.i])
  {
    hide Inv, Marks, GrowsIn, TakesPropose, TakesCommit, TakesSnapshot, TakesPrepare, TakesMerge, TakesInstall, TakesPlain;
    match step
    case ProposeStep(_, _) => WindowGrows(cfg, w, w', step);
    case HandlePrepareStep(_, _) => WindowGrows(cfg, w, w', step);
    case HandleSnapshotStep(i, msg) => ReceiverGrows(cfg, w, w', i, msg);
    case CommitStep(i) => CommitStepGrows(cfg, w, w', i);
    case MergeStep(_, _) => ViewGrows(cfg, w, w', step);
    case InstallStartViewStep(_, _) => ViewGrows(cfg, w, w', step);
    case _ => PlainGrows(cfg, w, w', step);
  }

  lemma CommitGrows(cfg: Config, h: History, r: ReplicaState)
    requires cfg.Valid() && MayCommit(cfg, r) && ProposalOk(cfg, h, r)
    ensures r.committedEnd <= CommitProposal(r).committedEnd
  {
  }

  lemma AppendGrows(cfg: Config, r: ReplicaState, m: Prepare)
    requires cfg.Valid()
    ensures var t := AcceptPrepare(cfg, r, m);
      t == r.(schedule := t.schedule, epoch := t.epoch, ready := t.ready) && r.schedule <= t.schedule
  {
  }

  lemma {:induction false} RunMarkGrows(cfg: Config, run: seq<World>, j: nat, k: nat, i: nat)
    requires cfg.Valid() && IsCarefulRun(cfg, run) && j <= k < |run| && i < cfg.n
    ensures |run[j].replicas| == |run[k].replicas| == cfg.n && GrowsIn(run[j].replicas[i], run[k].replicas[i])
    decreases k
  {
    hide Takes, Careful, Inv, Marks;
    CarefulIsRun(cfg, run);
    RunInv(cfg, run, k);
    Sized(cfg, run[k]);
    if j < k {
      RunMarkGrows(cfg, run, j, k - 1, i);
      RunMarks(cfg, run, k - 1);
      RunInv(cfg, run, k - 1);
      assert CarefulNext(cfg, run[k - 1], run[k - 1 + 1]);
      var step :| Takes(cfg, run[k - 1], run[k], step) && Careful(run[k - 1], step);
      MoverGrows(cfg, run[k - 1], run[k], step);
      if i != step.i { OnlyMover(cfg, run[k - 1], run[k], step, i); }
    }
  }

  lemma Sized(cfg: Config, w: World)
    requires cfg.Valid() && Inv(cfg, w)
    ensures |w.replicas| == cfg.n
  {
  }

  lemma OnlyMover(cfg: Config, w: World, w': World, step: Step, i: nat)
    requires cfg.Valid() && Takes(cfg, w, w', step) && i < |w.replicas| && i != step.i
    ensures i < |w'.replicas| && w'.replicas[i] == w.replicas[i]
  {
  }

  // ------------------------------------------------------------- pending windows

  /** A pending window lies beyond all that its view began with or committed. */
  ghost predicate PendingBeyond(cfg: Config, w: World, r: ReplicaState)
    requires cfg.Valid()
  {
    IsLeader(cfg, r) && r.proposal.Some? ==>
      && r.view in w.hist.base && |w.hist.base[r.view]| < |r.schedule|
      && forall c :: c in w.commits && c.view == r.view ==> |c.schedule| < |r.schedule|
  }

  ghost predicate AllBeyond(cfg: Config, w: World)
    requires cfg.Valid()
  {
    forall i :: 0 <= i < |w.replicas| ==> PendingBeyond(cfg, w, w.replicas[i])
  }

  lemma ProposedBeyond(cfg: Config, w: World, w': World, i: nat, m: Prepare)
    requires cfg.Valid() && Inv(cfg, w) && i < cfg.n && |w.replicas| == cfg.n && TakesPropose(cfg, w, w', i, m)
    ensures PendingBeyond(cfg, w', w'.replicas[i])
  {
    hide ValidSchedule, Inv, ReplicaOk, HistoryOk, MayPrepare;
    MoverOk(cfg, w, i);
    var r := w.replicas[i];
    LeaderFacts(cfg, w.hist, i, r);
    ProposedSchedule(cfg, w.hist, i, r, m);
    forall c | c in w.commits && c.view == r.view ensures |c.schedule| <= |r.schedule| {
      CommitIsFrom(cfg, w, c);
    }
    ProposedLonger(cfg, r, m);
  }

  lemma LeaderFacts(cfg: Config, h: History, i: nat, r: ReplicaState)
    requires cfg.Valid() && i < |h.origin| && ReplicaOk(cfg, h, i, r) && IsLeader(cfg, r)
    ensures r.view in h.latest && r.schedule == h.latest[r.view] && r.view in h.base && CutOf(h.base[r.view], r.schedule)
    ensures r.idx == i && r.round.None? && r.recovery.None?
  {
  }

  lemma ProposedLonger(cfg: Config, r: ReplicaState, m: Prepare)
    requires cfg.Valid() && Accepts(cfg, r, m) && MayAppend(r, m)
    ensures var t := Propose(cfg, r, m); t.view == r.view && |r.schedule| < |t.schedule|
  {
  }

  /** The other steps leave a leader with a proposal its history, or its proposal
      is new to no one else. */
  lemma MoverBeyond(cfg: Config, w: World, w': World, step: Step)
    requires cfg.Valid() && Inv(cfg, w) && Inv(cfg, w') && AllBeyond(cfg, w) && Takes(cfg, w, w', step) && Keeps(w, w')
    requires |w.replicas| == |w'.replicas| == cfg.n
    ensures PendingBeyond(cfg, w', w'.replicas[step.i])
  {
    hide Inv, ReplicaOk, ValidSchedule, Propose, Accepts, MergedHistory, Collected;
    var i := step.i;
    MoverOk(cfg, w, i);
    MoverOk(cfg, w', i);
    var r, r' := w.replicas[i], w'.replicas[i];
    if IsLeader(cfg, r') && r'.proposal.Some? {
      LeaderFacts(cfg, w'.hist, i, r');
      if step.ProposeStep? {
        ProposedBeyond(cfg, w, w', i, step.m);
      } else {
        ProposalKept(cfg, w, w', step);
        LeaderFacts(cfg, w.hist, i, r);
        assert PendingBeyond(cfg, w, r);
        SameLatest(cfg, w, w', step);
      }
    }
  }

  lemma ProposalKept(cfg: Config, w: World, w': World, step: Step)
    requires cfg.Valid() && Inv(cfg, w) && Takes(cfg, w, w', step) && !step.ProposeStep? && |w.replicas| == |w'.replicas| == cfg.n
    requires IsLeader(cfg, w'.replicas[step.i]) && w'.replicas[step.i].proposal.Some?
    ensures IsLeader(cfg, w.replicas[step.i]) && w.replicas[step.i].proposal.Some? && w.replicas[step.i].view == w'.replicas[step.i].view
    ensures w'.commits == w.commits
  {
    hide Inv, ValidSchedule, MergedHistory, Collected, From, Honours, ProposalOk, WellFormedPrepare;
    MoverOk(cfg, w, step.i);
  }

  lemma SameLatest(cfg: Config, w: World, w': World, step: Step)
    requires cfg.Valid() && Takes(cfg, w, w', step) && !step.ProposeStep? && step.i < |w.replicas| && w.replicas[step.i].status == Normal
    ensures w'.hist.latest == w.hist.latest && w'.hist.base == w.hist.base
  {
    hide MergedHistory, Collected, ValidSchedule;
  }

  lemma {:induction false} RunBeyond(cfg: Config, run: seq<World>, k: nat)
    requires cfg.Valid() && IsRun(cfg, run) && k < |run|
    ensures AllBeyond(cfg, run[k])
  {
    hide Takes, Inv, PendingBeyond;
    RunInv(cfg, run, k);
    Sized(cfg, run[k]);
    if k == 0 {
      InitialBeyond(cfg);
    } else {
      RunBeyond(cfg, run, k - 1);
      RunInv(cfg, run, k - 1);
      Sized(cfg, run[k - 1]);
      assert Next(cfg, run[k - 1], run[k - 1 + 1]);
      var step :| Takes(cfg, run[k - 1], run[k], step);
      StepKeepsBases(cfg, run[k - 1], run[k], step);
      MoverBeyond(cfg, run[k - 1], run[k], step);
      forall j | 0 <= j < |run[k].replicas| ensures PendingBeyond(cfg, run[k], run[k].replicas[j]) {
        if j != step.i {
          OtherBeyond(cfg, run[k - 1], run[k], step, j);
        }
      }
    }
  }

  lemma InitialBeyond(cfg: Config)
    requires cfg.Valid()
    ensures AllBeyond(cfg, InitialWorld(cfg))
  {
  }

  lemma OtherBeyond(cfg: Config, w: World, w': World, step: Step, j: nat)
    requires cfg.Valid() && Inv(cfg, w) && AllBeyond(cfg, w) && Takes(cfg, w, w', step) && Keeps(w, w')
    requires |w.replicas| == cfg.n && j < cfg.n && j != step.i
    ensures j < |w'.replicas| && PendingBeyond(cfg, w', w'.replicas[j])
  {
    hide Inv, ValidSchedule, ReplicaOk;
    OnlyMover(cfg, w, w', step, j);
    MoverOk(cfg, w, j);
    MoverOk(cfg, w, step.i);
    var r := w.replicas[j];
    assert PendingBeyond(cfg, w, r);
    if IsLeader(cfg, r) && r.proposal.Some? {
      LeaderFacts(cfg, w.hist, j, r);
      forall c | c in w'.commits && c.view == r.view ensures c in w.commits {
        if c !in w.commits {
          NewCommit(cfg, w, w', step, c);
        }
      }
    }
  }

  lemma NewCommit(cfg: Config, w: World, w': World, step: Step, c: Commit)
    requires cfg.Valid() && Inv(cfg, w) && Takes(cfg, w, w', step) && c in w'.commits && c !in w.commits && |w.replicas| == cfg.n
    ensures cfg.LeaderOf(c.view) == step.i
  {
    hide Inv;
    MoverOk(cfg, w, step.i);
  }

  /** A leader's start view carries what it began with or has committed if and
      only if it is sent while no proposal is pending. */
  lemma StartViewIff(cfg: Config, run: seq<World>, k: nat, i: nat)
    requires cfg.Valid() && IsCarefulRun(cfg, run) && k < |run| && i < |run[k].replicas| && IsLeader(cfg, run[k].replicas[i])
    ensures var r := run[k].replicas[i]; Backed(run[k], r.view, r.schedule) <==> r.proposal.None?
  {
    hide Inv, ReplicaOk, ValidSchedule, IsCarefulRun;
    CarefulIsRun(cfg, run);
    RunInv(cfg, run, k);
    Sized(cfg, run[k]);
    MoverOk(cfg, run[k], i);
    var r := run[k].replicas[i];
    if r.proposal.None? {
      CommittedIsBacked(cfg, run, k, i);
      Settled(cfg, run[k].hist, i, r);
    } else {
      RunBeyond(cfg, run, k);
      assert PendingBeyond(cfg, run[k], r);
    }
  }

  lemma Settled(cfg: Config, h: History, i: nat, r: ReplicaState)
    requires cfg.Valid() && i < |h.origin| && ReplicaOk(cfg, h, i, r) && IsLeader(cfg, r) && r.proposal.None?
    ensures CommittedOf(r.schedule, r.committedEnd) == r.schedule
  {
    SettledSnapshot(cfg, h, r);
  }
}
