/** The results about every run of the cluster. */
module AgreementTheorems {
  import opened Schedule
  import opened ReplicaSpec
  import opened Agreement
  import opened AgreementInvariant
  import opened AgreementSteps
  import opened AgreementViewSteps

  lemma InitialInv(cfg: Config)
    requires cfg.Valid()
    ensures Inv(cfg, InitialWorld(cfg))
  {
    var w := InitialWorld(cfg);
    forall i | 0 <= i < cfg.n ensures ReplicaOk(cfg, w.hist, i, w.replicas[i]) {
      assert cfg.LeaderOf(0) == 0;
      assert ProposalOk(cfg, w.hist, w.replicas[i]);
    }
  }

  lemma StepKeeps(cfg: Config, w: World, w': World, step: Step)
    requires cfg.Valid() && Inv(cfg, w) && Takes(cfg, w, w', step)
    ensures Inv(cfg, w')
  {
    hide Inv;
    match step
    case ProposeStep(i, m) => ProposeKeeps(cfg, w, w', i, m);
    case SendBatchStep(i) => SendBatchKeeps(cfg, w, w', i);
    case SendSnapshotStep(i) => SendSnapshotKeeps(cfg, w, w', i);
    case CommitStep(i) => CommitKeeps(cfg, w, w', i);
    case HandleSnapshotStep(i, msg) => HandleSnapshotKeeps(cfg, w, w', i, msg);
    case HandlePrepareStep(i, msg) => HandlePrepareKeeps(cfg, w, w', i, msg);
    case HandleAckStep(i, msg) => HandleAckKeeps(cfg, w, w', i, msg);
    case HandleCommitStep(i, msg) => HandleCommitKeeps(cfg, w, w', i, msg);
    case BeginViewChangeStep(i, view) => BeginViewChangeKeeps(cfg, w, w', i, view);
    case HandleRequestStep(i, msg) => HandleRequestKeeps(cfg, w, w', i, msg);
    case MergeStep(i, reports) => MergeKeeps(cfg, w, w', i, reports);
    case PublishStep(i) => PublishKeeps(cfg, w, w', i);
    case SendStartViewStep(i) => SendStartViewKeeps(cfg, w, w', i);
    case SeeStartViewStep(i, msg) => SeeStartViewKeeps(cfg, w, w', i, msg);
    case InstallStartViewStep(i, msg) => InstallKeeps(cfg, w, w', i, msg);
    case FinishRecoveryStep(i) => FinishRecoveryKeeps(cfg, w, w', i);
  }

  /** Every world of every run satisfies the invariant. */
  lemma {:induction false} RunInv(cfg: Config, run: seq<World>, k: nat)
    requires cfg.Valid() && IsRun(cfg, run) && k < |run|
    ensures Inv(cfg, run[k])
  {
    if k == 0 {
      InitialInv(cfg);
    } else {
      RunInv(cfg, run, k - 1);
      assert Next(cfg, run[k - 1], run[k - 1 + 1]);
      var step :| Takes(cfg, run[k - 1], run[k], step);
      StepKeeps(cfg, run[k - 1], run[k], step);
    }
  }

  lemma {:induction false} CommitsLast(cfg: Config, run: seq<World>, j: nat, k: nat)
    requires cfg.Valid() && IsRun(cfg, run) && j <= k < |run|
    ensures run[j].commits <= run[k].commits
  {
    hide Takes;
    if j < k {
      CommitsLast(cfg, run, j, k - 1);
      assert Next(cfg, run[k - 1], run[k - 1 + 1]);
      var step :| Takes(cfg, run[k - 1], run[k], step);
      StepKeepsCommits(cfg, run[k - 1], run[k], step);
    }
  }

  lemma StepKeepsCommits(cfg: Config, w: World, w': World, step: Step)
    requires cfg.Valid() && Takes(cfg, w, w', step)
    ensures w.commits <= w'.commits
  {
  }

  // ------------------------------------------------------------- durability

  lemma {:induction false} BoundedSize(s: set<nat>, n: nat)
    requires forall x :: x in s ==> x < n
    ensures |s| <= n
  {
    if n == 0 {
      assert s == {};
    } else {
      BoundedSize(s - {n - 1}, n - 1);
    }
  }

  /** Two quorums of F+1 among 2F+1 replicas share one. */
  lemma QuorumsMeet(cfg: Config, a: set<nat>, b: set<nat>) returns (q: nat)
    requires cfg.Valid() && |a| >= cfg.QuorumSize() && |b| >= cfg.QuorumSize()
    requires forall x :: x in a + b ==> x < cfg.n
    ensures q in a && q in b
  {
    BoundedSize(a + b, cfg.n);
    assert |a + b| == |a| + |b| - |a * b|;
    q :| q in a * b;
  }

  /** A quorum of acknowledgements in v reaches every later view's base. */
  lemma ChosenReachesBase(cfg: Config, w: World, v: nat, schedule: seq<Window>, acked: set<nat>, u: nat)
    requires cfg.Valid() && Inv(cfg, w) && ChosenBy(cfg, w.hist, v, schedule, acked)
    requires u in w.hist.base && v < u
    ensures CutOf(schedule, w.hist.base[u])
  {
    hide ValidSchedule, HistoryOk, ReplicaOk, MsgsOk;
    assert Safe(cfg, w, u, v, schedule);
    if !CutOf(schedule, w.hist.base[u]) {
      var quorum :| BlockedBy(cfg, w, v, schedule, quorum);
      var q := QuorumsMeet(cfg, acked, quorum);
      assert false;
    }
  }

  lemma CommittedIn(cfg: Config, w: World, c: Commit, u: nat, schedule: seq<Window>)
    requires cfg.Valid() && Inv(cfg, w) && c in w.commits && c.view < u && From(w.hist, schedule, u)
    ensures CutOf(c.schedule, schedule)
  {
    hide ValidSchedule, HistoryOk, ReplicaOk, MsgsOk;
    assert CommitOk(cfg, w.hist, c);
    var acked :| ChosenBy(cfg, w.hist, c.view, c.schedule, acked);
    ChosenReachesBase(cfg, w, c.view, c.schedule, acked, u);
    CutOfTransitive(c.schedule, w.hist.base[u], schedule);
  }

  /** A history committed on F+1 acknowledgements in view v is contained, uncut,
      in every start view its leaders send for later views, in every run. */
  lemma CommittedInStartViews(cfg: Config, run: seq<World>, j: nat, k: nat, c: Commit, msg: Msg)
    requires cfg.Valid() && IsRun(cfg, run) && j <= k < |run| && c in run[j].commits
    requires msg in run[k].msgs && msg.StartView? && msg.sender == cfg.LeaderOf(msg.view) && c.view < msg.view
    ensures CutOf(c.schedule, msg.schedule)
  {
    RunInv(cfg, run, k);
    CommitsLast(cfg, run, j, k);
    assert MsgOk(cfg, run[k].hist, msg);
    CommittedIn(cfg, run[k], c, msg.view, msg.schedule);
  }

  /** ... and in the history of every replica that is normal in a later view. */
  lemma CommittedInReplicas(cfg: Config, run: seq<World>, j: nat, k: nat, c: Commit, i: nat)
    requires cfg.Valid() && IsRun(cfg, run) && j <= k < |run| && c in run[j].commits
    requires i < |run[k].replicas| && run[k].replicas[i].status == Normal && c.view < run[k].replicas[i].view
    ensures CutOf(c.schedule, run[k].replicas[i].schedule)
  {
    RunInv(cfg, run, k);
    CommitsLast(cfg, run, j, k);
    assert ReplicaOk(cfg, run[k].hist, i, run[k].replicas[i]);
    CommittedIn(cfg, run[k], c, run[k].replicas[i].view, run[k].replicas[i].schedule);
  }

  /** Committed histories of all views, leaders and times form one growing log. */
  lemma CommitsAgree(cfg: Config, run: seq<World>, j: nat, k: nat, c: Commit, d: Commit)
    requires cfg.Valid() && IsRun(cfg, run) && j < |run| && k < |run|
    requires c in run[j].commits && d in run[k].commits && c.view <= d.view
    ensures Comparable(c.schedule, d.schedule)
    ensures c.view < d.view ==> CutOf(c.schedule, d.schedule)
  {
    var m := if j <= k then k else j;
    RunInv(cfg, run, m);
    CommitsLast(cfg, run, j, m);
    CommitsLast(cfg, run, k, m);
    var w := run[m];
    assert CommitOk(cfg, w.hist, c) && CommitOk(cfg, w.hist, d);
    if c.view < d.view {
      CommittedIn(cfg, w, c, d.view, d.schedule);
    } else {
      CutsComparable(c.schedule, d.schedule, w.hist.latest[c.view]);
    }
  }

  // ------------------------------------------------------------- one view

  ghost predicate HistoriesGrow(h: History, h': History) {
    forall v :: v in h.latest ==> v in h'.latest && CutOf(h.latest[v], h'.latest[v])
  }

  lemma ProposeGrows(cfg: Config, w: World, w': World, i: nat, m: Prepare)
    requires cfg.Valid() && Inv(cfg, w) && i < cfg.n && |w.replicas| == cfg.n && TakesPropose(cfg, w, w', i, m)
    ensures HistoriesGrow(w.hist, w'.hist)
  {
    hide ValidSchedule, HistoryOk, Inv, Propose, Accepts, ProposalOk;
    MoverOk(cfg, w, i);
    ProposedSchedule(cfg, w.hist, i, w.replicas[i], m);
  }

  lemma MergeGrows(cfg: Config, w: World, w': World, i: nat, reports: seq<ScheduleReport>)
    requires cfg.Valid() && Inv(cfg, w) && i < cfg.n && |w.replicas| == cfg.n && TakesMerge(cfg, w, w', i, reports)
    ensures HistoriesGrow(w.hist, w'.hist)
  {
    hide ValidSchedule, Inv, MergedHistory, Collected;
    MoverOk(cfg, w, i);
  }

  lemma StepGrows(cfg: Config, w: World, w': World, step: Step)
    requires cfg.Valid() && Inv(cfg, w) && Takes(cfg, w, w', step)
    ensures HistoriesGrow(w.hist, w'.hist)
  {
    hide Inv;
    match step
    case ProposeStep(i, m) => ProposeGrows(cfg, w, w', i, m);
    case MergeStep(i, reports) => MergeGrows(cfg, w, w', i, reports);
    case _ =>
  }

  /** The history of a view only grows, by whole windows, for the rest of the run. */
  lemma {:induction false} RunGrows(cfg: Config, run: seq<World>, j: nat, k: nat)
    requires cfg.Valid() && IsRun(cfg, run) && j <= k < |run|
    ensures HistoriesGrow(run[j].hist, run[k].hist)
  {
    hide Takes, Inv;
    if j < k {
      RunGrows(cfg, run, j, k - 1);
      RunInv(cfg, run, k - 1);
      assert Next(cfg, run[k - 1], run[k - 1 + 1]);
      var step :| Takes(cfg, run[k - 1], run[k], step);
      StepGrows(cfg, run[k - 1], run[k], step);
      forall v | v in run[j].hist.latest ensures v in run[k].hist.latest && CutOf(run[j].hist.latest[v], run[k].hist.latest[v]) {
        CutOfTransitive(run[j].hist.latest[v], run[k - 1].hist.latest[v], run[k].hist.latest[v]);
      }
    }
  }

  lemma NormalHistory(cfg: Config, run: seq<World>, k: nat, i: nat)
    requires cfg.Valid() && IsRun(cfg, run) && k < |run| && i < |run[k].replicas|
    requires run[k].replicas[i].status == Normal
    ensures var r := run[k].replicas[i];
      r.view in run[k].hist.latest && ValidSchedule(r.schedule) && CutOf(r.schedule, run[k].hist.latest[r.view])
  {
    RunInv(cfg, run, k);
    assert ReplicaOk(cfg, run[k].hist, i, run[k].replicas[i]);
  }

  /** Two replicas that are normal in the same view, at any two times, hold
      histories one of which cuts the other between windows. */
  lemma SameViewComparable(cfg: Config, run: seq<World>, k: nat, i: nat, l: nat, j: nat)
    requires cfg.Valid() && IsRun(cfg, run) && k <= l < |run| && i < |run[k].replicas| && j < |run[l].replicas|
    requires run[k].replicas[i].status == run[l].replicas[j].status == Normal
    requires run[k].replicas[i].view == run[l].replicas[j].view
    ensures ValidSchedule(run[k].replicas[i].schedule) && ValidSchedule(run[l].replicas[j].schedule)
    ensures Comparable(run[k].replicas[i].schedule, run[l].replicas[j].schedule)
  {
    hide ValidSchedule, IsRun;
    NormalHistory(cfg, run, k, i);
    NormalHistory(cfg, run, l, j);
    RunGrows(cfg, run, k, l);
    var v := run[k].replicas[i].view;
    CutOfTransitive(run[k].replicas[i].schedule, run[k].hist.latest[v], run[l].hist.latest[v]);
    CutsComparable(run[k].replicas[i].schedule, run[l].replicas[j].schedule, run[l].hist.latest[v]);
  }
}
