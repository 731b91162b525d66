/** Rolling schedule agreement: the whole cluster as a step relation, the
    invariants every step keeps, and the durability of acknowledged windows over
    every crash-stop run. A crashed replica is one that takes no further step; a
    lost message is one that is never handled; messages may be handled late, out
    of order and more than once. */
module Agreement {
  import opened Schedule
  import opened ReplicaSpec

  datatype Msg =
    | Batch(view: nat, sender: nat, snapshot: seq<Window>, prepare: Prepare, committed: bool)
    | Snapshot(view: nat, sender: nat, schedule: seq<Window>)
    | Ack(from: nat, view: nat, start: u64, end: u64)
    | Request(sender: nat, view: nat)
    | Report(report: ScheduleReport)
    | StartView(view: nat, sender: nat, schedule: seq<Window>)

  /** `replica` held `schedule` in view `view` when it acknowledged its last window. */
  datatype Promise = Promise(replica: nat, view: nat, schedule: seq<Window>)

  /** The leader of `view` counted a quorum of acknowledgements for `schedule`. */
  datatype Commit = Commit(view: nat, schedule: seq<Window>)

  /** Bookkeeping for the proof; no handler reads it. `base[v]` is the history
      the leader of v merged, `latest[v]` what that leader's history has grown to
      in v, and `origin[i]` the view replica i's history was taken from. */
  datatype History = History(
    base: map<nat, seq<Window>>,
    latest: map<nat, seq<Window>>,
    origin: seq<nat>,
    promises: set<Promise>)

  datatype World = World(
    replicas: seq<ReplicaState>,
    msgs: set<Msg>,
    snapshots: set<(nat, Msg)>,  // (i, b): the connection to i has accepted b's snapshot
    commits: set<Commit>,        // every commit a leader has counted so far
    hist: History)

  datatype Step =
    | ProposeStep(i: nat, m: Prepare)
    | SendBatchStep(i: nat)
    | SendSnapshotStep(i: nat)
    | CommitStep(i: nat)
    | HandleSnapshotStep(i: nat, msg: Msg)
    | HandlePrepareStep(i: nat, msg: Msg)
    | HandleAckStep(i: nat, msg: Msg)
    | HandleCommitStep(i: nat, msg: Msg)
    | BeginViewChangeStep(i: nat, view: nat)
    | HandleRequestStep(i: nat, msg: Msg)
    | MergeStep(i: nat, reports: seq<ScheduleReport>)
    | PublishStep(i: nat)
    | SendStartViewStep(i: nat)
    | SeeStartViewStep(i: nat, msg: Msg)
    | InstallStartViewStep(i: nat, msg: Msg)
    | FinishRecoveryStep(i: nat)

  function InitialWorld(cfg: Config): World
    requires cfg.Valid()
  {
    World(seq(cfg.n, i requires 0 <= i < cfg.n => InitialReplica(i)), {}, {}, {},
          History(map[0 := []], map[0 := []], seq(cfg.n, _ => 0), {}))
  }

  /** Replica i moves to `r` and sends `sent`; nothing else changes. */
  ghost predicate Moves(w: World, w': World, i: nat, r: ReplicaState, sent: set<Msg>)
    requires i < |w.replicas|
  {
    && w'.replicas == w.replicas[i := r]
    && w'.msgs == w.msgs + sent
  }

  ghost predicate KeepsHistory(w: World, w': World) {
    w'.hist == w.hist && w'.snapshots == w.snapshots && w'.commits == w.commits
  }

  ghost predicate IsLeader(cfg: Config, r: ReplicaState)
    requires cfg.Valid()
  {
    r.status == Normal && r.idx == cfg.LeaderOf(r.view)
  }

  /** The history up to and including the window that starts at `start`. */
  function Through(schedule: seq<Window>, start: u64): (p: seq<Window>)
    ensures p <= schedule
  {
    if schedule == [] || schedule[|schedule| - 1].firstMsgNs <= start then schedule
    else Through(schedule[..|schedule| - 1], start)
  }

  ghost predicate TakesPropose(cfg: Config, w: World, w': World, i: nat, m: Prepare)
    requires cfg.Valid() && i < |w.replicas| == |w.hist.origin|
  {
    var r := w.replicas[i];
    var r' := Propose(cfg, r, m);
    && IsLeader(cfg, r) && !r.installActive && m.replicaId == i && m.view == r.view
    && 0 < m.start && r.committedEnd <= m.start && Accepts(cfg, r, m)
    && Moves(w, w', i, r', {})
    && w'.snapshots == w.snapshots && w'.commits == w.commits
    && w'.hist == w.hist.(latest := w.hist.latest[r.view := r'.schedule],
                          promises := w.hist.promises + {Promise(i, r.view, r'.schedule)})
  }

  ghost predicate TakesCommit(cfg: Config, w: World, w': World, i: nat)
    requires cfg.Valid() && i < |w.replicas|
  {
    var r := w.replicas[i];
    && MayCommit(cfg, r)
    && var r' := CommitProposal(r);
    && Moves(w, w', i, r', {Batch(r.view, i, CommittedOf(r'.schedule, r'.committedEnd), r.proposal.value, true)})
    && w'.snapshots == w.snapshots && w'.hist == w.hist
    && w'.commits == w.commits + {Commit(r.view, r.schedule)}
  }

  ghost predicate TakesSnapshot(cfg: Config, w: World, w': World, i: nat, msg: Msg)
    requires cfg.Valid() && i < |w.replicas|
  {
    && msg in w.msgs && (msg.Batch? || msg.Snapshot?) && msg.sender != i
    && var (r', ok) := HandleScheduleInstall(cfg, w.replicas[i], msg.sender, msg.view,
                                             if msg.Batch? then msg.snapshot else msg.schedule);
    && Moves(w, w', i, r', {})
    && w'.snapshots == w.snapshots + (if ok && msg.Batch? then {(i, msg)} else {})
    && w'.hist == w.hist && w'.commits == w.commits
  }

  /** A prepare is looked at only after the snapshot of its own batch was accepted. */
  ghost predicate TakesPrepare(cfg: Config, w: World, w': World, i: nat, msg: Msg)
    requires cfg.Valid() && i < |w.replicas|
  {
    && msg.Batch? && (i, msg) in w.snapshots && msg.prepare.view == msg.view
    && var r := w.replicas[i];
    && var r' := AcceptPrepare(cfg, r, msg.prepare);
    && var ok := Accepts(cfg, r, msg.prepare);
    && Moves(w, w', i, r', if ok then {Ack(i, msg.view, msg.prepare.start, msg.prepare.end)} else {})
    && w'.snapshots == w.snapshots && w'.commits == w.commits
    && w'.hist == if ok
        then w.hist.(promises := w.hist.promises + {Promise(i, r.view, Through(r'.schedule, msg.prepare.start))})
        else w.hist
  }

  /** `reports` is what driveViewChange collected: one report per sender, a quorum of them. */
  ghost predicate Collected(cfg: Config, w: World, view: nat, reports: seq<ScheduleReport>) {
    && |reports| == cfg.QuorumSize()
    && (forall k :: 0 <= k < |reports| ==> Report(reports[k]) in w.msgs && reports[k].view == view)
    && (forall k, l :: 0 <= k < l < |reports| ==> reports[k].sender != reports[l].sender)
  }

  ghost predicate TakesMerge(cfg: Config, w: World, w': World, i: nat, reports: seq<ScheduleReport>)
    requires cfg.Valid() && i < |w.replicas| == |w.hist.origin|
  {
    var r := w.replicas[i];
    && MayMerge(r) && cfg.LeaderOf(r.view) == i
    && Collected(cfg, w, r.view, reports)
    && var (plan, conflict) := MergedHistory(reports);
    && !conflict && (|plan| > 0 ==> ValidSchedule(plan))
    && Moves(w, w', i, MergeInstall(r, plan), {StartView(r.view, i, plan)})
    && w'.snapshots == w.snapshots && w'.commits == w.commits
    && w'.hist == w.hist.(base := w.hist.base[r.view := plan],
                          latest := w.hist.latest[r.view := plan],
                          origin := w.hist.origin[i := r.view])
  }

  /** validStartView, with the sender check the receivers make. */
  ghost predicate UsableStartView(cfg: Config, w: World, i: nat, msg: Msg)
    requires cfg.Valid()
  {
    && msg in w.msgs && msg.StartView? && msg.sender != i
    && msg.sender == cfg.LeaderOf(msg.view)
    && (|msg.schedule| > 0 ==> ValidSchedule(msg.schedule))
  }

  ghost predicate TakesInstall(cfg: Config, w: World, w': World, i: nat, msg: Msg)
    requires cfg.Valid() && i < |w.replicas| == |w.hist.origin|
  {
    var r := w.replicas[i];
    && UsableStartView(cfg, w, i, msg) && MayInstallStartView(r, msg.view)
    && Moves(w, w', i, InstallStartView(r, msg.view, msg.schedule), {})
    && w'.snapshots == w.snapshots && w'.commits == w.commits
    && w'.hist == w.hist.(origin := w.hist.origin[i := msg.view])
  }

  /** The steps that only move one replica and send messages. */
  ghost predicate TakesPlain(cfg: Config, w: World, w': World, step: Step)
    requires cfg.Valid() && step.i < |w.replicas|
  {
    var i := step.i;
    var r := w.replicas[i];
    KeepsHistory(w, w') &&
    match step
    case SendBatchStep(_) =>
      && IsLeader(cfg, r) && r.proposal.Some?
      && Moves(w, w', i, r, {Batch(r.proposal.value.view, i, CommittedOf(r.schedule, r.committedEnd), r.proposal.value, false)})
    case SendSnapshotStep(_) =>
      && IsLeader(cfg, r) && r.proposal.None?
      && var history := CommittedOf(r.schedule, r.committedEnd);
      && |history| > 0 && Moves(w, w', i, r, {Snapshot(r.view, i, history)})
    case HandleAckStep(_, msg) =>
      && msg in w.msgs && msg.Ack?
      && Moves(w, w', i, HandlePrepareReply(cfg, r, msg.from, msg.view, msg.start, msg.end), {})
    case HandleCommitStep(_, msg) =>
      && msg in w.msgs && msg.Batch? && msg.committed && msg.sender != i
      && var p := msg.prepare;
      && Moves(w, w', i, HandleCommit(cfg, r, p.replicaId, p.view, p.start, p.end), {})
    case BeginViewChangeStep(_, view) =>
      && r.view < view && Moves(w, w', i, BeginViewChange(r, view), {Request(i, view)})
    case HandleRequestStep(_, msg) =>
      && msg in w.msgs && msg.Request?
      && Moves(w, w', i, HandleViewChangeRequest(cfg, r, msg.sender, msg.view),
               if ReportDue(cfg, r, msg.sender, msg.view) then {Report(BuildReport(r))} else {})
    case PublishStep(_) =>
      && r.status == ViewChange && r.round.Some? && r.round.value.view == r.view && r.round.value.merged
      && Moves(w, w', i, PublishNormal(r.(round := None)), {})
    case SendStartViewStep(_) =>
      && r.status == Normal && Moves(w, w', i, r, {StartView(r.view, i, r.schedule)})
    case SeeStartViewStep(_, msg) =>
      && UsableStartView(cfg, w, i, msg) && Moves(w, w', i, SeeStartView(r, msg.view), {})
    case FinishRecoveryStep(_) =>
      && MayFinish(r) && Moves(w, w', i, FinishRecovery(r), {})
    case _ => false
  }

  ghost predicate Takes(cfg: Config, w: World, w': World, step: Step)
    requires cfg.Valid()
  {
    && |w.replicas| == |w.hist.origin| == cfg.n && step.i < cfg.n
    && match step
       case ProposeStep(i, m) => TakesPropose(cfg, w, w', i, m)
       case CommitStep(i) => TakesCommit(cfg, w, w', i)
       case HandleSnapshotStep(i, msg) => TakesSnapshot(cfg, w, w', i, msg)
       case HandlePrepareStep(i, msg) => TakesPrepare(cfg, w, w', i, msg)
       case MergeStep(i, reports) => TakesMerge(cfg, w, w', i, reports)
       case InstallStartViewStep(i, msg) => TakesInstall(cfg, w, w', i, msg)
       case _ => TakesPlain(cfg, w, w', step)
  }

  ghost predicate Next(cfg: Config, w: World, w': World)
    requires cfg.Valid()
  {
    exists step :: Takes(cfg, w, w', step)
  }

  ghost predicate IsRun(cfg: Config, run: seq<World>)
    requires cfg.Valid()
  {
    && |run| > 0 && run[0] == InitialWorld(cfg)
    && forall k :: 0 <= k < |run| - 1 ==> Next(cfg, run[k], run[k + 1])
  }
}
