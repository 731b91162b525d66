/** What each mutex section of the schedule and view-change handlers does to a
    replica, as a function of its old state. `ReplicaHandlers` proves the
    imperative handlers against these functions; `Agreement` composes them into
    runs of the whole cluster. */
module ReplicaSpec {
  import opened Schedule

  datatype Option<T> = None | Some(value: T)

  datatype Config = Config(n: nat, f: nat, window: u64, expectedClients: nat) {
    // what ReadConfig accepts; the window is in nanoseconds
    predicate Valid() {
      n == 2 * f + 1 && 0 < window <= MAX_INT64 / 4 && 0 < expectedClients <= MAX_SCHEDULE_LEN
    }

    function QuorumSize(): nat {
      f + 1
    }

    function LeaderOf(view: nat): nat
      requires Valid()
    {
      view % n
    }
  }

  datatype HsRequest = HsRequest(clientId: u64, startTime: u64, intervalMs: u64)

  datatype Prepare = Prepare(replicaId: nat, view: nat, requests: seq<HsRequest>, start: u64, end: u64)

  datatype Status = Normal | ViewChange

  /** One view-change attempt: who asked for it, whether the own report is out,
      and whether `driveViewChange` has installed the merged history. */
  datatype Round = Round(view: nat, requests: set<nat>, reportSent: bool, merged: bool)

  datatype ScheduleReport = ScheduleReport(sender: nat, view: nat, lastNormalView: nat, schedule: seq<Window>)

  datatype ReplicaState = ReplicaState(
    idx: nat,
    view: nat,
    status: Status,
    lastNormalView: nat,
    schedule: seq<Window>,
    epoch: nat,
    ready: bool,
    committedEnd: u64,
    installActive: bool,
    proposal: Option<Prepare>,
    prepared: set<nat>,
    round: Option<Round>,
    recovery: Option<nat>,
    startViewSeen: nat)

  function InitialReplica(idx: nat): ReplicaState {
    ReplicaState(idx, 0, Normal, 0, [], 0, false, 0, false, None, {}, None, None, 0)
  }

  // ---------------------------------------------------------------- schedule

  /** installScheduleLocked and commitScheduleHistoryLocked, as far as the
      history and its commit mark go. */
  function Install(s: ReplicaState, schedule: seq<Window>, epoch: nat, ready: bool): ReplicaState {
    var t := s.(schedule := schedule, epoch := epoch, ready := ready);
    if ready then CommitHistory(t) else t
  }

  function CommitHistory(s: ReplicaState): ReplicaState {
    if |s.schedule| > 0 then s.(committedEnd := s.schedule[|s.schedule| - 1].endTime) else s
  }

  /** committedScheduleLocked: the entries up to the commit mark. */
  function CommittedOf(schedule: seq<Window>, committedEnd: u64): seq<Window> {
    if schedule == [] then []
    else
      var last := schedule[|schedule| - 1];
      CommittedOf(schedule[..|schedule| - 1], committedEnd)
      + (if last.endTime <= committedEnd then [last] else [])
  }

  function Entries(m: Prepare): seq<Window> {
    seq(|m.requests|, i requires 0 <= i < |m.requests| =>
      Window(m.end, m.requests[i].clientId, m.requests[i].startTime, m.requests[i].intervalMs))
  }

  /** Appending a whole window after the last one keeps a schedule valid. */
  lemma AppendValid(schedule: seq<Window>, m: Prepare)
    requires ValidSchedule(schedule) && ValidSchedule(Entries(m)) && |schedule| + |m.requests| <= MAX_HISTORY
    requires |schedule| > 0 ==> schedule[|schedule| - 1].endTime <= m.start
    requires forall i :: 0 <= i < |m.requests| ==> m.requests[i].startTime == m.start
    ensures ValidSchedule(schedule + Entries(m)) && CutOf(schedule, schedule + Entries(m))
  {
    var e := Entries(m);
    var s := schedule + e;
    forall i, j | 0 <= i < j < |s| ensures Precedes(s[i], s[j]) {
      if i < |schedule| <= j {
        assert s[j] == e[j - |schedule|] && s[j].firstMsgNs == m.start;
        assert i == |schedule| - 1 || Precedes(schedule[i], schedule[|schedule| - 1]);
      } else if |schedule| <= i {
        assert s[i] == e[i - |schedule|] && s[j] == e[j - |schedule|];
      }
    }
  }

  predicate HasStart(schedule: seq<Window>, start: u64) {
    exists i :: 0 <= i < |schedule| && schedule[i].firstMsgNs == start
  }

  /** The entries of `schedule` that start at `start`. */
  function WindowAt(schedule: seq<Window>, start: u64): seq<Window> {
    if schedule == [] then []
    else
      var last := schedule[|schedule| - 1];
      WindowAt(schedule[..|schedule| - 1], start)
      + (if last.firstMsgNs == start then [last] else [])
  }

  lemma {:induction false} WindowAtOnly(schedule: seq<Window>, start: u64)
    requires !HasStart(schedule, start)
    ensures WindowAt(schedule, start) == []
  {
    if |schedule| > 0 {
      var front := schedule[..|schedule| - 1];
      assert forall i :: 0 <= i < |front| ==> front[i] == schedule[i];
      WindowAtOnly(front, start);
    }
  }

  /** In a valid schedule the entries of one window stand together. */
  lemma {:induction false} WindowAtRun(s: seq<Window>, i: nat, end: nat, start: u64)
    requires i <= end <= |s|
    requires forall k :: 0 <= k < i ==> s[k].firstMsgNs != start
    requires forall k :: i <= k < end ==> s[k].firstMsgNs == start
    requires forall k :: end <= k < |s| ==> s[k].firstMsgNs != start
    ensures WindowAt(s, start) == s[i..end]
    decreases |s|
  {
    if i == end {
      WindowAtOnly(s, start);
    } else {
      var n := |s| - 1;
      var front := s[..n];
      if end == |s| {
        WindowAtRun(front, i, n, start);
        assert front[i..n] + [s[n]] == s[i..end];
      } else {
        WindowAtRun(front, i, end, start);
        assert front[i..end] == s[i..end];
      }
    }
  }

  /** Past the end of a window's run its start does not come back. */
  lemma NotAgain(s: seq<Window>, i: nat, end: nat, start: u64)
    requires ValidSchedule(s) && i < end <= |s| && s[i].firstMsgNs == start
    requires end < |s| ==> s[end].firstMsgNs != start
    ensures forall k :: end <= k < |s| ==> s[k].firstMsgNs != start
  {
    forall k | end <= k < |s| ensures s[k].firstMsgNs != start {
      assert Precedes(s[i], s[end]) && (k == end || Precedes(s[end], s[k]));
      assert ValidTiming(s[i]) && ValidTiming(s[end]);
    }
  }

  ghost predicate WellFormedPrepare(cfg: Config, m: Prepare) {
    && (m.end - m.start) % TWO_TO_THE_64 == cfg.window
    && m.start < m.end
    && 0 < |m.requests| <= cfg.expectedClients
    && (forall i :: 0 <= i < |m.requests| ==> m.requests[i].startTime == m.start)
    && ValidSchedule(Entries(m))
  }

  ghost predicate MayPrepare(cfg: Config, s: ReplicaState, m: Prepare)
    requires cfg.Valid()
  {
    && m.view == s.view && s.status == Normal && m.replicaId == cfg.LeaderOf(s.view)
    && WellFormedPrepare(cfg, m)
  }

  ghost predicate MayAppend(s: ReplicaState, m: Prepare) {
    && !HasStart(s.schedule, m.start)
    && (|s.schedule| > 0 ==> s.schedule[|s.schedule| - 1].endTime <= m.start)
    && |s.schedule| + |m.requests| <= MAX_HISTORY
  }

  ghost predicate Accepts(cfg: Config, s: ReplicaState, m: Prepare)
    requires cfg.Valid()
  {
    && MayPrepare(cfg, s, m)
    && (MayAppend(s, m) || (HasStart(s.schedule, m.start) && WindowAt(s.schedule, m.start) == Entries(m)))
  }

  /** acceptSchedulePrepareLocked: append a new window, or confirm one already held. */
  ghost function AcceptPrepare(cfg: Config, s: ReplicaState, m: Prepare): ReplicaState
    requires cfg.Valid()
  {
    if MayPrepare(cfg, s, m) && MayAppend(s, m) then
      Install(s, s.schedule + Entries(m), m.view, false).(ready := s.committedEnd > 0)
    else s
  }

  /** The leader's proposal step of scheduleLoop, for a window it may open. */
  ghost function Propose(cfg: Config, s: ReplicaState, m: Prepare): ReplicaState
    requires cfg.Valid()
  {
    if Accepts(cfg, s, m) then
      AcceptPrepare(cfg, s, m).(installActive := true, proposal := Some(m), prepared := {s.idx})
    else s
  }

  function HandlePrepareReply(cfg: Config, s: ReplicaState, from: nat, view: nat, start: u64, end: u64): ReplicaState
    requires cfg.Valid()
  {
    if s.proposal.Some? && s.status == Normal && s.idx == cfg.LeaderOf(s.view)
       && view == s.proposal.value.view && start == s.proposal.value.start && end == s.proposal.value.end
       && from < cfg.n
    then s.(prepared := s.prepared + {from})
    else s
  }

  predicate MayCommit(cfg: Config, s: ReplicaState)
    requires cfg.Valid()
  {
    && s.status == Normal && s.idx == cfg.LeaderOf(s.view)
    && s.proposal.Some? && |s.prepared| >= cfg.QuorumSize()
  }

  function CommitProposal(s: ReplicaState): ReplicaState
    requires s.proposal.Some?
  {
    s.(committedEnd := s.proposal.value.end, ready := true, installActive := false, proposal := None)
  }

  predicate HoldsWindow(schedule: seq<Window>, start: u64, end: u64) {
    exists i :: 0 <= i < |schedule| && schedule[i].firstMsgNs == start && schedule[i].endTime == end
  }

  function HandleCommit(cfg: Config, s: ReplicaState, replicaId: nat, view: nat, start: u64, end: u64): ReplicaState
    requires cfg.Valid()
  {
    if view == s.view && s.status == Normal && replicaId == cfg.LeaderOf(s.view)
       && HoldsWindow(s.schedule, start, end)
    then s.(committedEnd := if end > s.committedEnd then end else s.committedEnd, ready := true)
    else s
  }

  /** handleScheduleInstall: the new state, and whether the snapshot is usable. */
  ghost function HandleScheduleInstall(cfg: Config, s: ReplicaState, sender: nat, epoch: nat, schedule: seq<Window>): (ReplicaState, bool)
    requires cfg.Valid()
  {
    if epoch != s.view || s.status != Normal || sender != cfg.LeaderOf(s.view) || !ValidSchedule(schedule) then
      (s, false)
    else if |schedule| == 0 then
      (s, |s.schedule| == 0 || s.committedEnd == 0)
    else if s.schedule <= schedule then
      (Install(s, schedule, epoch, true), true)
    else if schedule <= s.schedule then
      var end := schedule[|schedule| - 1].endTime;
      (s.(committedEnd := if end > s.committedEnd then end else s.committedEnd, ready := true), true)
    else
      (s, false)
  }

  // ------------------------------------------------------------- view change

  function BeginViewChange(s: ReplicaState, newView: nat): ReplicaState {
    if newView <= s.view then s
    else s.(
      view := newView,
      status := ViewChange,
      ready := false,
      installActive := false,
      proposal := None,
      recovery := None,
      round := Some(Round(newView, {s.idx}, false, false)))
  }

  predicate ReportDue(cfg: Config, s: ReplicaState, sender: nat, view: nat) {
    && s.view == view
    && s.round.Some? && s.round.value.view == view && !s.round.value.reportSent
    && |s.round.value.requests + {sender}| >= cfg.QuorumSize()
  }

  /** The counting half of handleViewChangeRequest, after the view was joined. */
  function HandleViewChangeRequest(cfg: Config, s: ReplicaState, sender: nat, view: nat): ReplicaState {
    if s.view == view && s.round.Some? && s.round.value.view == view && !s.round.value.reportSent then
      s.(round := Some(s.round.value.(
        requests := s.round.value.requests + {sender},
        reportSent := ReportDue(cfg, s, sender, view))))
    else s
  }

  function BuildReport(s: ReplicaState): ScheduleReport {
    ScheduleReport(s.idx, s.view, s.lastNormalView, s.schedule)
  }

  function HighestNormalView(reports: seq<ScheduleReport>): (best: nat)
    requires |reports| > 0
    ensures forall i :: 0 <= i < |reports| ==> reports[i].lastNormalView <= best
    ensures exists i :: 0 <= i < |reports| && reports[i].lastNormalView == best
  {
    if |reports| == 1 then reports[0].lastNormalView
    else
      var rest := HighestNormalView(reports[1..]);
      assert forall i :: 1 <= i < |reports| ==> reports[i] == reports[1..][i - 1];
      if reports[0].lastNormalView >= rest then reports[0].lastNormalView else rest
  }

  /** The schedules of the reports at the highest normal view, in report order. */
  function Surviving(reports: seq<ScheduleReport>, best: nat): (out: seq<seq<Window>>)
    ensures forall x :: x in out ==> exists i :: 0 <= i < |reports| && reports[i].lastNormalView == best && reports[i].schedule == x
    ensures forall i :: 0 <= i < |reports| && reports[i].lastNormalView == best ==> reports[i].schedule in out
  {
    if |reports| == 0 then []
    else
      var rest := Surviving(reports[..|reports| - 1], best);
      var last := reports[|reports| - 1];
      if last.lastNormalView == best then rest + [last.schedule] else rest
  }

  /** The schedule loop of mergeSuffix: the history so far and whether two
      histories were found that do not extend each other. */
  function MergeSchedules(schedules: seq<seq<Window>>): (seq<Window>, bool) {
    if |schedules| == 0 then ([], false)
    else
      var (plan, conflict) := MergeSchedules(schedules[..|schedules| - 1]);
      var m := schedules[|schedules| - 1];
      if conflict || |m| == 0 then (plan, conflict)
      else if |plan| == 0 || plan <= m then (m, false)
      else (plan, !(m <= plan))
  }

  predicate PrefixComparable(a: seq<Window>, b: seq<Window>) {
    a <= b || b <= a
  }

  /** The loop refuses exactly the histories that diverge, and otherwise ends
      with one of them that extends all the others. */
  lemma {:induction false} MergeSchedulesExact(schedules: seq<seq<Window>>)
    ensures var (plan, conflict) := MergeSchedules(schedules);
      && (conflict <==> exists i, j :: 0 <= i < |schedules| && 0 <= j < |schedules| && !PrefixComparable(schedules[i], schedules[j]))
      && (!conflict ==> forall x :: x in schedules ==> x <= plan)
      && (plan in schedules || (plan == [] && forall x :: x in schedules ==> x == []))
  {
    if |schedules| > 0 {
      var front := schedules[..|schedules| - 1];
      var m := schedules[|schedules| - 1];
      MergeSchedulesExact(front);
      assert schedules == front + [m];
      var (plan, conflict) := MergeSchedules(front);
      if conflict {
        var i, j :| 0 <= i < |front| && 0 <= j < |front| && !PrefixComparable(front[i], front[j]);
        assert !PrefixComparable(schedules[i], schedules[j]);
        assert front[i] in front && front[j] in front;
      } else if !PrefixComparable(plan, m) {
        assert plan in front;
        var i :| 0 <= i < |front| && front[i] == plan;
        assert !PrefixComparable(schedules[i], schedules[|schedules| - 1]);
      } else {
        assert forall x :: x in schedules ==> x in front || x == m;
        forall i, j | 0 <= i < |schedules| && 0 <= j < |schedules|
          ensures PrefixComparable(schedules[i], schedules[j])
        {
          assert schedules[i] in schedules && schedules[j] in schedules;
        }
      }
    }
  }

  /** The schedule half of mergeSuffix: the merged history, and whether the
      surviving histories conflict. */
  function MergedHistory(reports: seq<ScheduleReport>): (seq<Window>, bool)
    requires |reports| > 0
  {
    MergeSchedules(Surviving(reports, HighestNormalView(reports)))
  }

  ghost predicate MayMerge(s: ReplicaState) {
    s.status == ViewChange && s.round.Some? && s.round.value.view == s.view && !s.round.value.merged
  }

  /** driveViewChange up to the broadcast: the merged history is installed
      while the view-change fence is still up. */
  function MergeInstall(s: ReplicaState, schedule: seq<Window>): ReplicaState
    requires s.round.Some?
  {
    Install(s, schedule, s.view, false).(round := Some(s.round.value.(merged := true)))
  }

  function PublishNormal(s: ReplicaState): ReplicaState {
    CommitHistory(s.(
      lastNormalView := s.view,
      status := Normal,
      ready := s.epoch == s.view && |s.schedule| > 0))
  }

  /** handleStartView: note the newest start view and drop an older install. */
  function SeeStartView(s: ReplicaState, view: nat): ReplicaState {
    if view < s.view || (view == s.view && s.status == Normal && s.lastNormalView == s.view)
       || (s.recovery.Some? && view == s.recovery.value)
    then s
    else s.(
      startViewSeen := if view > s.startViewSeen then view else s.startViewSeen,
      recovery := if s.recovery.Some? && view > s.recovery.value then None else s.recovery)
  }

  predicate MayInstallStartView(s: ReplicaState, view: nat) {
    && s.view <= view && s.startViewSeen <= view
    && !(view == s.view && s.status == Normal && s.lastNormalView == s.view)
    && s.recovery.None?
  }

  /** installStartView. A pending proposal is not cleared here. */
  function InstallStartView(s: ReplicaState, view: nat, schedule: seq<Window>): ReplicaState {
    if MayInstallStartView(s, view) then
      Install(s.(view := view, status := ViewChange, recovery := Some(view), round := None), schedule, view, false)
    else s
  }

  predicate MayFinish(s: ReplicaState) {
    s.recovery.Some? && s.status == ViewChange && s.recovery.value == s.view
  }

  function FinishRecovery(s: ReplicaState): ReplicaState {
    if MayFinish(s) then PublishNormal(s).(recovery := None) else s
  }
}
