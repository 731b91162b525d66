/** The view-change steps keep the invariant. The merge is where safety is
    decided: it opens a view, and whatever an earlier view may still commit must
    already be in what it merged. */
module AgreementViewSteps {
  import opened Schedule
  import opened ReplicaSpec
  import opened Agreement
  import opened AgreementInvariant
  import opened AgreementSteps

  lemma BeginViewChangeKeeps(cfg: Config, w: World, w': World, i: nat, view: nat)
    requires cfg.Valid() && Inv(cfg, w) && i < cfg.n && TakesPlain(cfg, w, w', BeginViewChangeStep(i, view))
    ensures Inv(cfg, w')
  {
    hide ValidSchedule;
    var r := w.replicas[i];
    assert ReplicaOk(cfg, w.hist, i, r);
    PlainStep(cfg, w, w', i, BeginViewChange(r, view), {Request(i, view)});
  }

  lemma HandleRequestKeeps(cfg: Config, w: World, w': World, i: nat, msg: Msg)
    requires cfg.Valid() && Inv(cfg, w) && i < cfg.n && TakesPlain(cfg, w, w', HandleRequestStep(i, msg))
    ensures Inv(cfg, w')
  {
    hide ValidSchedule;
    var r := w.replicas[i];
    assert ReplicaOk(cfg, w.hist, i, r);
    var r' := HandleViewChangeRequest(cfg, r, msg.sender, msg.view);
    if ReportDue(cfg, r, msg.sender, msg.view) {
      assert ReportedFrom(w.hist, BuildReport(r), w.hist.origin[i]);
      PlainStep(cfg, w, w', i, r', {Report(BuildReport(r))});
    } else {
      PlainStep(cfg, w, w', i, r', {});
    }
  }

  lemma EndsBelowLast(s: seq<Window>)
    requires ValidSchedule(s) && |s| > 0
    ensures forall k :: 0 <= k < |s| ==> s[k].endTime <= s[|s| - 1].endTime
  {
    forall k | 0 <= k < |s| - 1 ensures s[k].endTime <= s[|s| - 1].endTime {
      assert Precedes(s[k], s[|s| - 1]) && ValidTiming(s[|s| - 1]);
    }
  }

  /** Entering normal status in the view the history was taken from. */
  lemma PublishedOk(cfg: Config, h: History, i: nat, r: ReplicaState)
    requires cfg.Valid() && i < |h.origin| && ReplicaOk(cfg, h, i, r)
    requires r.status == ViewChange && h.origin[i] == r.view
    requires (r.round.Some? && r.round.value.merged) || r.recovery.Some?
    ensures var r' := PublishNormal(r.(round := None, recovery := None));
      ReplicaOk(cfg, h, i, r') && Advances(r, r')
  {
    var r' := PublishNormal(r.(round := None, recovery := None));
    if |r.schedule| > 0 {
      EndsBelowLast(r.schedule);
    }
    hide ValidSchedule;
    if IsLeader(cfg, r') {
      assert ProposalOk(cfg, h, r');
    }
  }

  lemma PublishKeeps(cfg: Config, w: World, w': World, i: nat)
    requires cfg.Valid() && Inv(cfg, w) && i < cfg.n && TakesPlain(cfg, w, w', PublishStep(i))
    ensures Inv(cfg, w')
  {
    hide ValidSchedule;
    var r := w.replicas[i];
    assert ReplicaOk(cfg, w.hist, i, r);
    PublishedOk(cfg, w.hist, i, r);
    assert r.(round := None, recovery := None) == r.(round := None);
    PlainStep(cfg, w, w', i, PublishNormal(r.(round := None)), {});
  }

  lemma FinishRecoveryKeeps(cfg: Config, w: World, w': World, i: nat)
    requires cfg.Valid() && Inv(cfg, w) && i < cfg.n && TakesPlain(cfg, w, w', FinishRecoveryStep(i))
    ensures Inv(cfg, w')
  {
    hide ValidSchedule;
    var r := w.replicas[i];
    assert ReplicaOk(cfg, w.hist, i, r);
    PublishedOk(cfg, w.hist, i, r);
    assert r.(round := None, recovery := None) == r.(recovery := None);
    PlainStep(cfg, w, w', i, FinishRecovery(r), {});
  }

  lemma SendStartViewKeeps(cfg: Config, w: World, w': World, i: nat)
    requires cfg.Valid() && Inv(cfg, w) && i < cfg.n && TakesPlain(cfg, w, w', SendStartViewStep(i))
    ensures Inv(cfg, w')
  {
    hide ValidSchedule;
    var r := w.replicas[i];
    assert ReplicaOk(cfg, w.hist, i, r);
    PlainStep(cfg, w, w', i, r, {StartView(r.view, i, r.schedule)});
  }

  lemma SeeStartViewKeeps(cfg: Config, w: World, w': World, i: nat, msg: Msg)
    requires cfg.Valid() && Inv(cfg, w) && i < cfg.n && TakesPlain(cfg, w, w', SeeStartViewStep(i, msg))
    ensures Inv(cfg, w')
  {
    hide ValidSchedule;
    var r := w.replicas[i];
    assert ReplicaOk(cfg, w.hist, i, r);
    var r' := SeeStartView(r, msg.view);
    assert ReplicaOk(cfg, w.hist, i, r');
    PlainStep(cfg, w, w', i, r', {});
  }

  lemma InstalledOk(cfg: Config, h: History, h': History, i: nat, r: ReplicaState, msg: Msg)
    requires cfg.Valid() && i < cfg.n && HistoryOk(cfg, h) && ReplicaOk(cfg, h, i, r) && MsgOk(cfg, h, msg)
    requires msg.StartView? && msg.sender == cfg.LeaderOf(msg.view) && msg.sender != i
    requires MayInstallStartView(r, msg.view)
    requires h' == h.(origin := h.origin[i := msg.view])
    ensures HistoryOk(cfg, h') && Grows(cfg, h, h', i, r.view)
    ensures var r' := InstallStartView(r, msg.view, msg.schedule);
      ReplicaOk(cfg, h', i, r') && Advances(r, r')
  {
    hide ValidSchedule;
    var r' := InstallStartView(r, msg.view, msg.schedule);
    assert From(h', r'.schedule, msg.view);
    assert Honours(h', i, r'.view + 1, r'.lastNormalView, msg.view, r'.schedule);
  }

  lemma InstallKeeps(cfg: Config, w: World, w': World, i: nat, msg: Msg)
    requires cfg.Valid() && Inv(cfg, w) && i < cfg.n && TakesInstall(cfg, w, w', i, msg)
    ensures Inv(cfg, w')
  {
    hide ValidSchedule;
    var r := w.replicas[i];
    assert ReplicaOk(cfg, w.hist, i, r) && MsgOk(cfg, w.hist, msg);
    InstalledOk(cfg, w.hist, w'.hist, i, r, msg);
    LocalStep(cfg, w, w', i, InstallStartView(r, msg.view, msg.schedule), {});
  }

  // ------------------------------------------------------------- the merge

  lemma {:induction false} SendersCounted(reports: seq<ScheduleReport>)
    requires forall k, l :: 0 <= k < l < |reports| ==> reports[k].sender != reports[l].sender
    ensures |set k | 0 <= k < |reports| :: reports[k].sender| == |reports|
  {
    var all := set k | 0 <= k < |reports| :: reports[k].sender;
    if |reports| > 0 {
      var front := reports[..|reports| - 1];
      var last := reports[|reports| - 1].sender;
      SendersCounted(front);
      var rest := set k | 0 <= k < |front| :: front[k].sender;
      assert all == rest + {last} by {
        forall q | q in all ensures q in rest + {last} {
          var k :| 0 <= k < |reports| && reports[k].sender == q;
          assert k < |front| ==> front[k].sender == q;
        }
        forall q | q in rest ensures q in all {
          var k :| 0 <= k < |front| && front[k].sender == q;
          assert reports[k].sender == q;
        }
      }
      assert last !in rest;
    } else {
      assert all == {};
    }
  }

  /** The merged history is the history of some report at the highest normal view. */
  lemma MergeSource(reports: seq<ScheduleReport>) returns (s: nat)
    requires |reports| > 0
    requires !MergedHistory(reports).1
    ensures var best := HighestNormalView(reports); var plan := MergedHistory(reports).0;
      && s < |reports| && reports[s].lastNormalView == best && reports[s].schedule == plan
      && forall k :: 0 <= k < |reports| && reports[k].lastNormalView == best ==> reports[k].schedule <= plan
  {
    var best := HighestNormalView(reports);
    var surviving := Surviving(reports, best);
    var plan := MergeSchedules(surviving).0;
    MergeSchedulesExact(surviving);
    var t :| 0 <= t < |reports| && reports[t].lastNormalView == best;
    assert reports[t].schedule in surviving;
    assert plan in surviving;
    s :| 0 <= s < |reports| && reports[s].lastNormalView == best && reports[s].schedule == plan;
  }

  /** A history taken from view src >= v carries what v promised, unless v can
      no longer commit it. */
  lemma CarriesLater(cfg: Config, w: World, rep: ScheduleReport, src: nat, v: nat, schedule: seq<Window>)
    requires cfg.Valid() && AllSafe(cfg, w) && From(w.hist, rep.schedule, src) && v < src
    ensures CutOf(schedule, rep.schedule) || exists quorum :: BlockedBy(cfg, w, v, schedule, quorum)
  {
    assert Safe(cfg, w, src, v, schedule);
    if CutOf(schedule, w.hist.base[src]) {
      CutOfTransitive(schedule, w.hist.base[src], rep.schedule);
    }
  }

  /** Every report whose sender promised `schedule` in v shows it, if v is that
      report's last normal view, unless v can no longer commit it. */
  lemma PromiserShows(cfg: Config, w: World, rep: ScheduleReport, v: nat, schedule: seq<Window>)
    requires cfg.Valid() && AllSafe(cfg, w) && MsgOk(cfg, w.hist, Report(rep))
    requires Promise(rep.sender, v, schedule) in w.hist.promises && v < rep.view
    ensures v <= rep.lastNormalView
    ensures rep.lastNormalView == v ==>
      CutOf(schedule, rep.schedule) || exists quorum :: BlockedBy(cfg, w, v, schedule, quorum)
  {
    var src: nat :| ReportedFrom(w.hist, rep, src);
    var p := Promise(rep.sender, v, schedule);
    assert p.view <= rep.lastNormalView;
    if src > v {
      CarriesLater(cfg, w, rep, src, v, schedule);
    }
  }

  /** One promise for `schedule` among the reports puts it into the merged
      history, unless v can no longer commit it. */
  lemma PromiseMerged(cfg: Config, w: World, view: nat, reports: seq<ScheduleReport>, v: nat, schedule: seq<Window>, k: nat)
    requires cfg.Valid() && AllSafe(cfg, w) && HistoryOk(cfg, w.hist) && v < view && k < |reports|
    requires forall j :: 0 <= j < |reports| ==> reports[j].view == view && MsgOk(cfg, w.hist, Report(reports[j]))
    requires Promise(reports[k].sender, v, schedule) in w.hist.promises
    requires !MergedHistory(reports).1
    ensures var plan := MergedHistory(reports).0;
      CutOf(schedule, plan) || exists quorum :: BlockedBy(cfg, w, v, schedule, quorum)
  {
    hide ValidSchedule, HistoryOk, AllSafe, BlockedBy, MergedHistory, HighestNormalView;
    var plan := MergedHistory(reports).0;
    PromiserShows(cfg, w, reports[k], v, schedule);
    var s := MergeSource(reports);
    assert MsgOk(cfg, w.hist, Report(reports[s]));
    var src: nat :| ReportedFrom(w.hist, reports[s], src);
    if src > v {
      CarriesLater(cfg, w, reports[s], src, v, schedule);
    } else if CutOf(schedule, reports[k].schedule) {
      PromisedCut(cfg, w.hist, Promise(reports[k].sender, v, schedule));
      CutsComparable(schedule, plan, w.hist.latest[v]);
    }
  }

  /** What an earlier view may still commit is in the merged history. */
  lemma MergeSafe(cfg: Config, w: World, view: nat, reports: seq<ScheduleReport>, v: nat, schedule: seq<Window>)
    requires cfg.Valid() && Inv(cfg, w) && Collected(cfg, w, view, reports) && v < view
    requires !MergedHistory(reports).1
    ensures var plan := MergedHistory(reports).0;
      CutOf(schedule, plan) || exists quorum :: BlockedBy(cfg, w, v, schedule, quorum)
  {
    hide ValidSchedule, HistoryOk, ReplicaOk, AllSafe, MergedHistory;
    forall k | 0 <= k < |reports|
      ensures MsgOk(cfg, w.hist, Report(reports[k])) && reports[k].sender < cfg.n
        && view <= w.replicas[reports[k].sender].view
    {
      assert Report(reports[k]) in w.msgs;
    }
    hide MsgOk;
    var senders := set k | 0 <= k < |reports| :: reports[k].sender;
    SendersCounted(reports);
    if forall q :: q in senders ==> Promise(q, v, schedule) !in w.hist.promises {
      assert BlockedBy(cfg, w, v, schedule, senders);
    } else {
      var k: nat :| k < |reports| && Promise(reports[k].sender, v, schedule) in w.hist.promises;
      PromiseMerged(cfg, w, view, reports, v, schedule, k);
    }
  }

  lemma PromisedCut(cfg: Config, h: History, p: Promise)
    requires cfg.Valid() && HistoryOk(cfg, h) && p in h.promises
    ensures p.view in h.latest && CutOf(p.schedule, h.latest[p.view])
  {
  }

  lemma MergeHistory(cfg: Config, h: History, h': History, i: nat, r: ReplicaState, plan: seq<Window>)
    requires cfg.Valid() && i < cfg.n && HistoryOk(cfg, h) && ReplicaOk(cfg, h, i, r)
    requires MayMerge(r) && cfg.LeaderOf(r.view) == i && ValidSchedule(plan)
    requires h' == h.(base := h.base[r.view := plan], latest := h.latest[r.view := plan], origin := h.origin[i := r.view])
    ensures r.view !in h.base && HistoryOk(cfg, h') && Grows(cfg, h, h', i, r.view)
    ensures ReplicaOk(cfg, h', i, MergeInstall(r, plan)) && Advances(r, MergeInstall(r, plan))
    ensures MsgOk(cfg, h', StartView(r.view, i, plan))
  {
    hide ValidSchedule, HistoryOk, Grows, Honours, ProposalOk;
    MergeOpensView(cfg, h, h', i, r, plan);
    MergeHonours(cfg, h, h', i, r, plan);
  }

  lemma MergeOpensView(cfg: Config, h: History, h': History, i: nat, r: ReplicaState, plan: seq<Window>)
    requires cfg.Valid() && i < cfg.n && HistoryOk(cfg, h) && ReplicaOk(cfg, h, i, r)
    requires MayMerge(r) && cfg.LeaderOf(r.view) == i && ValidSchedule(plan)
    requires h' == h.(base := h.base[r.view := plan], latest := h.latest[r.view := plan], origin := h.origin[i := r.view])
    ensures r.view !in h.base && HistoryOk(cfg, h') && Grows(cfg, h, h', i, r.view) && |h.origin| == cfg.n
    ensures forall v :: v in h'.base && cfg.LeaderOf(v) == i ==> v <= r.view
  {
    hide ValidSchedule, Honours, ProposalOk;
  }

  lemma MergeHonours(cfg: Config, h: History, h': History, i: nat, r: ReplicaState, plan: seq<Window>)
    requires cfg.Valid() && i < |h.origin| && ReplicaOk(cfg, h, i, r) && MayMerge(r)
    requires h'.promises == h.promises
    ensures Honours(h', i, r.view + 1, r.lastNormalView, r.view, plan)
    ensures forall p :: p in h'.promises && p.replica == i ==> p.view <= r.view
  {
    hide ValidSchedule, ProposalOk;
  }

  lemma MergeFrame(cfg: Config, w: World, w': World, i: nat, r': ReplicaState, sent: set<Msg>)
    requires cfg.Valid() && Inv(cfg, w) && i < cfg.n
    requires Moves(w, w', i, r', sent) && Grows(cfg, w.hist, w'.hist, i, w.replicas[i].view)
    requires HistoryOk(cfg, w'.hist) && ReplicaOk(cfg, w'.hist, i, r')
    requires forall m :: m in sent ==> MsgOk(cfg, w'.hist, m) && !m.Report?
    requires Advances(w.replicas[i], r') && w'.snapshots == w.snapshots && w'.commits == w.commits
    ensures ReplicasOk(cfg, w') && MsgsOk(cfg, w') && SnapshotsOk(cfg, w') && CommitsChosen(cfg, w')
  {
    hide ValidSchedule, HistoryOk, ReplicaOk, MsgOk, AllSafe;
    ReplicasKeep(cfg, w, w', i, r', sent);
    AllMsgsKeep(cfg, w, w', i, r', sent);
    MoverSnapshots(cfg, w, w', i, r', sent);
    CommitsKeep(cfg, w, w', i, w.replicas[i].view);
  }

  lemma NewViewSafe(cfg: Config, w: World, w': World, i: nat, r': ReplicaState, sent: set<Msg>, reports: seq<ScheduleReport>)
    requires cfg.Valid() && Inv(cfg, w) && i < cfg.n && Moves(w, w', i, r', sent)
    requires w.replicas[i].view == r'.view && w'.hist.promises == w.hist.promises
    requires Collected(cfg, w, r'.view, reports) && !MergedHistory(reports).1
    requires r'.view in w'.hist.base && w'.hist.base[r'.view] == MergedHistory(reports).0
    requires |w.replicas| == cfg.n
    ensures forall v: nat, schedule :: v < r'.view ==> Safe(cfg, w', r'.view, v, schedule)
  {
    hide MergedHistory, ReplicasOk, MsgsOk, SnapshotsOk, CommitsChosen, AllSafe, BlockedBy;
    forall v: nat, schedule | v < r'.view ensures Safe(cfg, w', r'.view, v, schedule) {
      MergeSafe(cfg, w, r'.view, reports, v, schedule);
      StillBlocked(cfg, w, w', i, r', sent, v, schedule);
    }
  }

  lemma MergeAllSafe(cfg: Config, w: World, w': World, i: nat, r': ReplicaState, sent: set<Msg>, reports: seq<ScheduleReport>)
    requires cfg.Valid() && Inv(cfg, w) && i < cfg.n && |w.replicas| == cfg.n && Moves(w, w', i, r', sent)
    requires Grows(cfg, w.hist, w'.hist, i, w.replicas[i].view)
    requires w.replicas[i].view == r'.view && w'.hist.promises == w.hist.promises
    requires Collected(cfg, w, r'.view, reports) && !MergedHistory(reports).1
    requires w'.hist.base == w.hist.base[r'.view := MergedHistory(reports).0]
    ensures AllSafe(cfg, w')
  {
    assert AllSafe(cfg, w);
    hide MergedHistory, ReplicasOk, MsgsOk, SnapshotsOk, CommitsChosen, AllSafe, BlockedBy, Safe, Collected;
    NewViewSafe(cfg, w, w', i, r', sent, reports);
    AllSafeKeeps(cfg, w, w', i, r', sent);
  }

  lemma MergeKeeps(cfg: Config, w: World, w': World, i: nat, reports: seq<ScheduleReport>)
    requires cfg.Valid() && Inv(cfg, w) && i < cfg.n && |w.replicas| == cfg.n && TakesMerge(cfg, w, w', i, reports)
    ensures Inv(cfg, w')
  {
    hide MsgOk, ValidSchedule, MergedHistory, ReplicasOk, ReplicaOk, HistoryOk, MsgsOk, SnapshotsOk, CommitsChosen,
      AllSafe, Grows, Advances;
    MoverOk(cfg, w, i);
    var r := w.replicas[i];
    var plan := MergedHistory(reports).0;
    var r' := MergeInstall(r, plan);
    var sent := {StartView(r.view, i, plan)};
    MergeHistory(cfg, w.hist, w'.hist, i, r, plan);
    MergeFrame(cfg, w, w', i, r', sent);
    MergeAllSafe(cfg, w, w', i, r', sent, reports);
  }

  lemma MoverSnapshots(cfg: Config, w: World, w': World, i: nat, r': ReplicaState, sent: set<Msg>)
    requires cfg.Valid() && |w.replicas| == cfg.n && SnapshotsOk(cfg, w) && i < cfg.n
    requires Moves(w, w', i, r', sent) && Grows(cfg, w.hist, w'.hist, i, w.replicas[i].view)
    requires w'.snapshots == w.snapshots && Advances(w.replicas[i], r')
    ensures SnapshotsOk(cfg, w')
  {
    hide ValidSchedule;
    forall b | (i, b) in w'.snapshots ensures SnapshotOk(cfg, w'.hist, r', b) {
      MsgsKeep(cfg, w.hist, w'.hist, i, w.replicas[i].view, b);
      SnapshotAdvances(cfg, w'.hist, w.replicas[i], r', b);
    }
    SnapshotsKeep(cfg, w, w', i, r', sent);
  }

  lemma StillBlocked(cfg: Config, w: World, w': World, i: nat, r': ReplicaState, sent: set<Msg>, v: nat, schedule: seq<Window>)
    requires i < |w.replicas| && Moves(w, w', i, r', sent) && w.replicas[i].view <= r'.view
    requires w'.hist.promises == w.hist.promises
    ensures (exists quorum :: BlockedBy(cfg, w, v, schedule, quorum)) ==> exists quorum :: BlockedBy(cfg, w', v, schedule, quorum)
  {
    if quorum :| BlockedBy(cfg, w, v, schedule, quorum) {
      assert BlockedBy(cfg, w', v, schedule, quorum);
    }
  }
}
