/** Two runs of three replicas in which a replica treats as committed what no
    leader has committed: each breaks one of the guards of careful runs. */
module MarkCases {
  import opened Schedule
  import opened ReplicaSpec
  import opened Agreement
  import opened CommitMarks
  import opened MarkRuns

  const THREE := Config(3, 1, 10, 1)

  lemma Extend(run: seq<World>, w: World, step: Step) returns (more: seq<World>)
    requires IsRun(THREE, run) && Takes(THREE, run[|run| - 1], w, step)
    ensures IsRun(THREE, more) && more == run + [w]
  {
    hide Takes;
    more := run + [w];
    forall k | 0 <= k < |more| - 1 ensures Next(THREE, more[k], more[k + 1]) {
      if k < |run| - 1 {
        assert Next(THREE, run[k], run[k + 1]);
      }
    }
  }

  /** Replica i moves and sends; the bookkeeping stays. */
  ghost function Move(w: World, i: nat, r: ReplicaState, sent: set<Msg>): World
    requires i < |w.replicas|
  {
    w.(replicas := w.replicas[i := r], msgs := w.msgs + sent)
  }

  ghost predicate Sized(w: World) {
    |w.replicas| == |w.hist.origin| == 3
  }

  // ------------------------------------------------------------- one change of view

  function Joined(r: ReplicaState, v: nat, other: nat): ReplicaState
    requires r.view < v
  {
    BeginViewChange(r, v).(round := Some(Round(v, {r.idx, other}, true, false)))
  }

  lemma Begins(run: seq<World>, w: World, i: nat, v: nat) returns (more: seq<World>)
    requires IsRun(THREE, run) && run[|run| - 1] == w && Sized(w) && i < 3 && w.replicas[i].view < v
    ensures IsRun(THREE, more) && more[|more| - 1] == Move(w, i, BeginViewChange(w.replicas[i], v), {Request(i, v)})
  {
    var w' := Move(w, i, BeginViewChange(w.replicas[i], v), {Request(i, v)});
    assert TakesPlain(THREE, w, w', BeginViewChangeStep(i, v));
    more := Extend(run, w', BeginViewChangeStep(i, v));
  }

  lemma Reports(run: seq<World>, w: World, i: nat, r: ReplicaState, other: nat, v: nat) returns (more: seq<World>)
    requires IsRun(THREE, run) && run[|run| - 1] == w && Sized(w) && i < 3 && r.idx == i && other < 3 && other != i && r.view < v
    requires w.replicas[i] == BeginViewChange(r, v) && Request(other, v) in w.msgs
    ensures IsRun(THREE, more) && more[|more| - 1] == Move(w, i, Joined(r, v, other), {Report(BuildReport(BeginViewChange(r, v)))})
  {
    var b := BeginViewChange(r, v);
    assert |{i, other}| == 2 && {i} + {other} == {i, other};
    assert ReportDue(THREE, b, other, v);
    assert HandleViewChangeRequest(THREE, b, other, v) == Joined(r, v, other);
    var w' := Move(w, i, Joined(r, v, other), {Report(BuildReport(b))});
    var step := HandleRequestStep(i, Request(other, v));
    assert TakesPlain(THREE, w, w', step);
    more := Extend(run, w', step);
  }

  /** What a leader makes of two reports: the history of the one that was normal
      later, or the longer one. */
  function PlanOf(p: ReplicaState, q: ReplicaState): seq<Window> {
    if p.lastNormalView > q.lastNormalView then p.schedule
    else if q.lastNormalView > p.lastNormalView then q.schedule
    else if |p.schedule| == 0 then q.schedule else p.schedule
  }

  lemma SurvivingTwo(p: ScheduleReport, q: ScheduleReport, best: nat)
    ensures Surviving([p, q], best) ==
      (if p.lastNormalView == best then [p.schedule] else []) + (if q.lastNormalView == best then [q.schedule] else [])
  {
    assert [p, q][..1] == [p] && [p][..0] == [];
    assert Surviving([p][..0], best) == [];
  }

  lemma MergedOne(s: seq<Window>)
    ensures MergeSchedules([s]) == (s, false)
  {
    assert [s][..0] == [] && MergeSchedules([]) == ([], false);
  }

  lemma MergedPair(s: seq<Window>, t: seq<Window>)
    requires |s| == 0 || |t| == 0
    ensures MergeSchedules([s, t]) == (if |s| == 0 then t else s, false)
  {
    MergedOne(s);
    assert [s, t][..1] == [s];
  }

  lemma MergedTwo(p: ScheduleReport, q: ScheduleReport, x: ReplicaState, y: ReplicaState)
    requires p.lastNormalView == x.lastNormalView && p.schedule == x.schedule && q.lastNormalView == y.lastNormalView && q.schedule == y.schedule
    requires |x.schedule| == 0 || |y.schedule| == 0 || x.lastNormalView != y.lastNormalView
    ensures MergedHistory([p, q]) == (PlanOf(x, y), false)
  {
    hide MergeSchedules, Surviving;
    assert [p, q][1..] == [q];
    SurvivingTwo(p, q, HighestNormalView([p, q]));
    MergedOne(p.schedule);
    MergedOne(q.schedule);
    assert [p.schedule] + [q.schedule] == [p.schedule, q.schedule];
    assert [p.schedule] + [] == [p.schedule] && [] + [q.schedule] == [q.schedule];
    if p.lastNormalView == q.lastNormalView {
      MergedPair(p.schedule, q.schedule);
    }
  }

  lemma Merges(run: seq<World>, w: World, v: nat, a: nat, b: nat, x: ReplicaState, y: ReplicaState) returns (more: seq<World>, w': World)
    requires IsRun(THREE, run) && run[|run| - 1] == w && Sized(w) && a < 3 && b < 3 && a != b && v % 3 == a
    requires x.view < v && y.view < v && x.idx == a && y.idx == b
    requires w.replicas[a] == Joined(x, v, b)
    requires Report(BuildReport(BeginViewChange(x, v))) in w.msgs && Report(BuildReport(BeginViewChange(y, v))) in w.msgs
    requires |x.schedule| == 0 || |y.schedule| == 0 || x.lastNormalView != y.lastNormalView
    requires |PlanOf(x, y)| > 0 ==> ValidSchedule(PlanOf(x, y))
    ensures IsRun(THREE, more) && more[|more| - 1] == w' && w' == Merged(w, v, a, MergeInstall(Joined(x, v, b), PlanOf(x, y)), PlanOf(x, y))
  {
    hide MergedHistory, ValidSchedule;
    var plan := PlanOf(x, y);
    var p, q := BuildReport(BeginViewChange(x, v)), BuildReport(BeginViewChange(y, v));
    MergedTwo(p, q, x, y);
    w' := Merged(w, v, a, MergeInstall(Joined(x, v, b), plan), plan);
    assert Collected(THREE, w, v, [p, q]);
    assert TakesMerge(THREE, w, w', a, [p, q]);
    more := Extend(run, w', MergeStep(a, [p, q]));
  }

  ghost function Merged(w: World, v: nat, a: nat, r: ReplicaState, plan: seq<Window>): World
    requires a < |w.replicas| && a < |w.hist.origin|
  {
    Move(w, a, r, {StartView(v, a, plan)}).(hist :=
      w.hist.(base := w.hist.base[v := plan], latest := w.hist.latest[v := plan], origin := w.hist.origin[a := v]))
  }

  /** The leader of v after the change. */
  function Led(x: ReplicaState, v: nat, b: nat, plan: seq<Window>): ReplicaState
    requires x.view < v
  {
    PublishNormal(MergeInstall(Joined(x, v, b), plan).(round := None))
  }

  /** Replicas a and b change to view v, which a leads; the third does not hear of it. */
  lemma ChangeView(run: seq<World>, w: World, v: nat, a: nat, b: nat, x: ReplicaState, y: ReplicaState) returns (more: seq<World>, w': World)
    requires IsRun(THREE, run) && run[|run| - 1] == w && Sized(w) && a < 3 && b < 3 && a != b && v % 3 == a
    requires w.replicas[a] == x && w.replicas[b] == y && x.idx == a && y.idx == b && x.view < v && y.view < v
    requires |x.schedule| == 0 || |y.schedule| == 0 || x.lastNormalView != y.lastNormalView
    requires |PlanOf(x, y)| > 0 ==> ValidSchedule(PlanOf(x, y))
    ensures IsRun(THREE, more) && more[|more| - 1] == w' && Sized(w')
    ensures w'.replicas == w.replicas[b := Joined(y, v, a)][a := Led(x, v, b, PlanOf(x, y))]
    ensures StartView(v, a, PlanOf(x, y)) in w'.msgs && w'.commits == w.commits && w'.snapshots == w.snapshots
    ensures v in w'.hist.base && w'.hist.base[v] == PlanOf(x, y) && v in w'.hist.latest
  {
    hide ValidSchedule, IsRun;
    var plan := PlanOf(x, y);
    var w1 := Move(w, a, BeginViewChange(x, v), {Request(a, v)});
    more := Begins(run, w, a, v);
    var w2 := Move(w1, b, BeginViewChange(y, v), {Request(b, v)});
    more := Begins(more, w1, b, v);
    var w3 := Move(w2, a, Joined(x, v, b), {Report(BuildReport(BeginViewChange(x, v)))});
    more := Reports(more, w2, a, x, b, v);
    var w4 := Move(w3, b, Joined(y, v, a), {Report(BuildReport(BeginViewChange(y, v)))});
    more := Reports(more, w3, b, y, a, v);
    var w5: World;
    more, w5 := Merges(more, w4, v, a, b, x, y);
    more, w' := Publishes(more, w5, v, a, MergeInstall(Joined(x, v, b), plan));
    assert w'.replicas == w.replicas[b := Joined(y, v, a)][a := Led(x, v, b, plan)];
  }

  lemma Publishes(run: seq<World>, w: World, v: nat, a: nat, r: ReplicaState) returns (more: seq<World>, w': World)
    requires IsRun(THREE, run) && run[|run| - 1] == w && Sized(w) && a < 3 && w.replicas[a] == r
    requires r.status == ViewChange && r.round.Some? && r.round.value.view == r.view && r.round.value.merged
    ensures IsRun(THREE, more) && more[|more| - 1] == w' && w' == Move(w, a, PublishNormal(r.(round := None)), {})
  {
    w' := Move(w, a, PublishNormal(r.(round := None)), {});
    assert TakesPlain(THREE, w, w', PublishStep(a));
    more := Extend(run, w', PublishStep(a));
  }

  // ------------------------------------------------------------- single steps

  const PREPARED := Window(20, 7, 10, 1)

  function PrepareIn(view: nat): Prepare {
    Prepare(view % 3, view, [HsRequest(7, 10, 1)], 10, 20)
  }

  lemma PrepareWellFormed(view: nat)
    ensures THREE.Valid() && WellFormedPrepare(THREE, PrepareIn(view)) && Entries(PrepareIn(view)) == [PREPARED] && ValidSchedule([PREPARED])
  {
  }

  /** A leader without history proposes the window from 10 to 20. */
  lemma Proposes(run: seq<World>, w: World, r: ReplicaState) returns (more: seq<World>, w': World)
    requires IsRun(THREE, run) && run[|run| - 1] == w && Sized(w)
    requires r.idx < 3 && w.replicas[r.idx] == r && r.status == Normal && r.view % 3 == r.idx && r.view in w.hist.latest
    requires !r.installActive && r.schedule == [] && r.committedEnd == 0
    ensures IsRun(THREE, more) && more[|more| - 1] == w' && Sized(w')
    ensures w'.replicas == w.replicas[r.idx := r.(schedule := [PREPARED], epoch := r.view, ready := false, installActive := true,
      proposal := Some(PrepareIn(r.view)), prepared := {r.idx})]
    ensures w'.msgs == w.msgs && w'.commits == w.commits && w'.snapshots == w.snapshots && w'.hist.base == w.hist.base
  {
    var m := PrepareIn(r.view);
    PrepareWellFormed(r.view);
    hide WellFormedPrepare, ValidSchedule;
    var r' := Propose(THREE, r, m);
    assert r.schedule + Entries(m) == [PREPARED];
    assert MayAppend(r, m) && Accepts(THREE, r, m);
    w' := Move(w, r.idx, r', {}).(hist := w.hist.(latest := w.hist.latest[r.view := r'.schedule],
      promises := w.hist.promises + {Promise(r.idx, r.view, r'.schedule)}));
    assert TakesPropose(THREE, w, w', r.idx, m);
    more := Extend(run, w', ProposeStep(r.idx, m));
  }

  /** Replica i installs the start view and finishes. */
  lemma Installs(run: seq<World>, w: World, i: nat, r: ReplicaState, v: nat, s: seq<Window>) returns (more: seq<World>, w': World)
    requires IsRun(THREE, run) && run[|run| - 1] == w && Sized(w) && i < 3 && w.replicas[i] == r && i != v % 3
    requires StartView(v, v % 3, s) in w.msgs && (|s| > 0 ==> ValidSchedule(s)) && MayInstallStartView(r, v)
    ensures IsRun(THREE, more) && more[|more| - 1] == w' && Sized(w')
    ensures w'.replicas == w.replicas[i := FinishRecovery(InstallStartView(r, v, s))]
    ensures w'.msgs == w.msgs && w'.commits == w.commits && w'.snapshots == w.snapshots && w'.hist.base == w.hist.base
    ensures w'.hist.latest == w.hist.latest
  {
    hide ValidSchedule;
    var msg := StartView(v, v % 3, s);
    var r1 := InstallStartView(r, v, s);
    var w1 := Move(w, i, r1, {}).(hist := w.hist.(origin := w.hist.origin[i := v]));
    assert TakesInstall(THREE, w, w1, i, msg);
    more := Extend(run, w1, InstallStartViewStep(i, msg));
    w' := Move(w1, i, FinishRecovery(r1), {});
    assert TakesPlain(THREE, w1, w', FinishRecoveryStep(i));
    more := Extend(more, w', FinishRecoveryStep(i));
  }

  lemma SendsStartView(run: seq<World>, w: World, i: nat, r: ReplicaState) returns (more: seq<World>, w': World)
    requires IsRun(THREE, run) && run[|run| - 1] == w && Sized(w) && i < 3 && w.replicas[i] == r && r.status == Normal
    ensures IsRun(THREE, more) && more[|more| - 1] == w' && w' == Move(w, i, r, {StartView(r.view, i, r.schedule)})
  {
    w' := Move(w, i, r, {StartView(r.view, i, r.schedule)});
    assert TakesPlain(THREE, w, w', SendStartViewStep(i));
    more := Extend(run, w', SendStartViewStep(i));
  }

  lemma Starts() returns (run: seq<World>, w: World)
    ensures IsRun(THREE, run) && run[|run| - 1] == w && w == InitialWorld(THREE) && Sized(w)
    ensures w.replicas == [InitialReplica(0), InitialReplica(1), InitialReplica(2)] && w.commits == {} && w.hist.latest == map[0 := []]
  {
    w := InitialWorld(THREE);
    run := [w];
  }

  lemma NothingBacked(w: World, v: nat)
    requires w.commits == {} && v in w.hist.base && w.hist.base[v] == []
    ensures !Backed(w, v, [PREPARED])
  {
  }

  lemma OneCommitted(end: u64)
    requires end >= 20
    ensures CommittedOf([PREPARED], end) == [PREPARED]
  {
    assert [PREPARED][..0] == [];
    assert CommittedOf([], end) == [];
  }

  // ------------------------------------------------------------- the runs

  /** A leader repeats its start view while a proposal is pending. The replica
      that installs it takes the proposed window for committed; nobody has
      acknowledged it but the leader. */
  lemma PendingInStartView() returns (run: seq<World>)
    ensures IsRun(THREE, run) && |run[|run| - 1].replicas| == 3
    ensures var w := run[|run| - 1]; var r := w.replicas[2];
      && w.commits == {} && r.status == Normal && r.view == 1 && r.ready
      && CommittedOf(r.schedule, r.committedEnd) == [PREPARED] && !Backed(w, 1, CommittedOf(r.schedule, r.committedEnd))
  {
    hide ValidSchedule, IsRun;
    var w: World;
    run, w := Starts();
    run, w := ChangeView(run, w, 1, 1, 2, InitialReplica(1), InitialReplica(2));
    var leader, other := w.replicas[1], w.replicas[2];
    run, w := Proposes(run, w, leader);
    PrepareWellFormed(1);
    run, w := SendsStartView(run, w, 1, w.replicas[1]);
    run, w := Installs(run, w, 2, other, 1, [PREPARED]);
    NothingBacked(w, 1);
    OneCommitted(20);
  }

  /** The leader's batch for the window it has proposed. */
  function BatchOf(view: nat): Msg {
    Batch(view, view % 3, [], PrepareIn(view), false)
  }

  lemma SendsBatch(run: seq<World>, w: World, r: ReplicaState) returns (more: seq<World>, w': World)
    requires IsRun(THREE, run) && run[|run| - 1] == w && Sized(w)
    requires r.idx < 3 && w.replicas[r.idx] == r && r.status == Normal && r.view % 3 == r.idx
    requires r.schedule == [PREPARED] && r.committedEnd == 0 && r.proposal == Some(PrepareIn(r.view))
    ensures IsRun(THREE, more) && more[|more| - 1] == w' && w' == Move(w, r.idx, r, {BatchOf(r.view)})
  {
    assert [PREPARED][..0] == [] && CommittedOf([], 0) == [];
    w' := Move(w, r.idx, r, {BatchOf(r.view)});
    assert TakesPlain(THREE, w, w', SendBatchStep(r.idx));
    more := Extend(run, w', SendBatchStep(r.idx));
  }

  /** A replica without history takes the batch's empty snapshot. */
  lemma TakesEmpty(run: seq<World>, w: World, i: nat, r: ReplicaState) returns (more: seq<World>, w': World)
    requires IsRun(THREE, run) && run[|run| - 1] == w && Sized(w) && i < 3 && w.replicas[i] == r && r.status == Normal && r.view % 3 != i
    requires BatchOf(r.view) in w.msgs && r.schedule == []
    ensures IsRun(THREE, more) && more[|more| - 1] == w' && w' == Move(w, i, r, {}).(snapshots := w.snapshots + {(i, BatchOf(r.view))})
  {
    assert ValidSchedule([]);
    var batch := BatchOf(r.view);
    assert HandleScheduleInstall(THREE, r, r.view % 3, r.view, []) == (r, true);
    w' := Move(w, i, r, {}).(snapshots := w.snapshots + {(i, batch)});
    hide ValidSchedule, HandleScheduleInstall;
    assert TakesSnapshot(THREE, w, w', i, batch);
    more := Extend(run, w', HandleSnapshotStep(i, batch));
  }

  /** ... and then its window. */
  lemma TakesWindow(run: seq<World>, w: World, i: nat, r: ReplicaState) returns (more: seq<World>, w': World)
    requires IsRun(THREE, run) && run[|run| - 1] == w && Sized(w) && i < 3 && w.replicas[i] == r && r.status == Normal
    requires (i, BatchOf(r.view)) in w.snapshots && r.schedule == []
    ensures IsRun(THREE, more) && more[|more| - 1] == w'
    ensures w'.replicas == w.replicas[i := r.(schedule := [PREPARED], epoch := r.view, ready := r.committedEnd > 0)]
    ensures w'.commits == w.commits && w'.hist.base == w.hist.base
  {
    var batch, p := BatchOf(r.view), PrepareIn(r.view);
    PrepareWellFormed(r.view);
    hide WellFormedPrepare, ValidSchedule;
    assert r.schedule + Entries(p) == [PREPARED];
    assert MayAppend(r, p) && Accepts(THREE, r, p);
    var r' := AcceptPrepare(THREE, r, p);
    w' := Move(w, i, r', {Ack(i, p.view, p.start, p.end)}).(hist := w.hist.(promises :=
      w.hist.promises + {Promise(i, r.view, Through(r'.schedule, p.start))}));
    assert TakesPrepare(THREE, w, w', i, batch);
    more := Extend(run, w', HandlePrepareStep(i, batch));
  }

  /** A proposed window is merged into view 2, where replica 2 marks it, and lost
      in view 3, which begins with an empty history: replica 2 installs that and
      keeps its mark. The next window proposed ends by the mark, so replica 2
      takes it for committed as soon as it accepts it. */
  lemma MarkLeftOver() returns (run: seq<World>)
    ensures IsRun(THREE, run) && |run[|run| - 1].replicas| == 3
    ensures var w := run[|run| - 1]; var r := w.replicas[2];
      && w.commits == {} && r.status == Normal && r.view == 3 && r.ready
      && CommittedOf(r.schedule, r.committedEnd) == [PREPARED] && !Backed(w, 3, CommittedOf(r.schedule, r.committedEnd))
  {
    hide ValidSchedule, IsRun;
    var w: World;
    PrepareWellFormed(0);
    run, w := Starts();
    run, w := Proposes(run, w, InitialReplica(0));
    run, w := ChangeView(run, w, 1, 1, 2, w.replicas[1], w.replicas[2]);
    run, w := ChangeView(run, w, 2, 2, 0, w.replicas[2], w.replicas[0]);
    assert w.replicas[2].status == Normal && w.replicas[2].committedEnd == 20 && w.replicas[2].view == 2;
    run, w := ChangeView(run, w, 3, 0, 1, w.replicas[0], w.replicas[1]);
    run, w := Installs(run, w, 2, w.replicas[2], 3, []);
    assert w.replicas[2].schedule == [] && w.replicas[2].committedEnd == 20;
    run, w := Proposes(run, w, w.replicas[0]);
    run, w := SendsBatch(run, w, w.replicas[0]);
    run, w := TakesEmpty(run, w, 2, w.replicas[2]);
    run, w := TakesWindow(run, w, 2, w.replicas[2]);
    NothingBacked(w, 3);
    OneCommitted(20);
  }
}
