/** The inductive invariant of the cluster and its preservation, step by step. */
module AgreementInvariant {
  import opened Schedule
  import opened ReplicaSpec
  import opened Agreement

  // ------------------------------------------------------------- definitions

  ghost predicate HistoryOk(cfg: Config, h: History)
    requires cfg.Valid()
  {
    && 0 in h.base && h.base.Keys == h.latest.Keys && |h.origin| == cfg.n
    && (forall v :: v in h.base ==> CutOf(h.base[v], h.latest[v]) && ValidSchedule(h.latest[v]))
    && (forall p :: p in h.promises ==>
          p.replica < cfg.n && p.view in h.base && CutOf(p.schedule, h.latest[p.view]))
  }

  /** `schedule` was taken from view `src` and has only grown there. */
  ghost predicate From(h: History, schedule: seq<Window>, src: nat) {
    && src in h.base && src in h.latest && ValidSchedule(schedule)
    && CutOf(h.base[src], schedule) && CutOf(schedule, h.latest[src])
  }

  /** The promises of `replica` made before view `before` are held by a history
      last normal in `lastNormal` and taken from `src`. */
  ghost predicate Honours(h: History, replica: nat, before: nat, lastNormal: nat, src: nat, schedule: seq<Window>) {
    forall p :: p in h.promises && p.replica == replica && p.view < before ==>
      p.view <= lastNormal && (p.view == src ==> CutOf(p.schedule, schedule))
  }

  /** What the leader of a normal view knows about its own history: committed
      entries, then at most one proposed window, acknowledged by `prepared`. */
  ghost predicate ProposalOk(cfg: Config, h: History, r: ReplicaState) {
    match r.proposal
    case None =>
      forall k :: 0 <= k < |r.schedule| ==> r.schedule[k].endTime <= r.committedEnd
    case Some(p) =>
      var n := |r.schedule| - |p.requests|;
      && p.view == r.view && p.replicaId == r.idx && WellFormedPrepare(cfg, p)
      && 0 <= n && r.schedule[n..] == Entries(p)
      && (forall k :: 0 <= k < n ==> r.schedule[k].endTime <= r.committedEnd)
      && r.committedEnd <= p.start
      && (forall q :: q in r.prepared ==> q < cfg.n && Promise(q, r.view, r.schedule) in h.promises)
  }

  ghost predicate ReplicaOk(cfg: Config, h: History, i: nat, r: ReplicaState)
    requires cfg.Valid() && i < |h.origin|
  {
    var src := h.origin[i];
    && r.idx == i && r.lastNormalView <= src <= r.view && From(h, r.schedule, src)
    && (r.status == Normal ==> r.lastNormalView == r.view && r.round.None? && r.recovery.None?)
    && (r.status == ViewChange ==> r.lastNormalView < r.view)
    && (r.installActive <==> r.proposal.Some?)
    && (r.round.Some? ==> r.round.value.view == r.view && r.proposal.None?)
    && (r.round.Some? && r.round.value.merged ==>
          cfg.LeaderOf(r.view) == i && src == r.view && r.schedule == h.latest[src])
    && (cfg.LeaderOf(r.view) == i && r.view in h.base ==>
          r.status == Normal || (r.round.Some? && r.round.value.merged))
    && (IsLeader(cfg, r) ==> r.schedule == h.latest[src] && ProposalOk(cfg, h, r))
    && (r.recovery.Some? ==> r.recovery.value == r.view && src == r.view && cfg.LeaderOf(r.view) != i && r.round.None?)
    && (forall v :: v in h.base && cfg.LeaderOf(v) == i ==> v <= r.view)
    && (forall p :: p in h.promises && p.replica == i ==> p.view <= r.view)
    && Honours(h, i, r.view + 1, r.lastNormalView, src, r.schedule)
  }

  ghost predicate AckedBy(h: History, from: nat, view: nat, start: u64, end: u64, schedule: seq<Window>) {
    && Promise(from, view, schedule) in h.promises
    && |schedule| > 0
    && schedule[|schedule| - 1].firstMsgNs == start && schedule[|schedule| - 1].endTime == end
  }

  ghost predicate ReportedFrom(h: History, rep: ScheduleReport, src: nat) {
    && rep.lastNormalView <= src <= rep.view && From(h, rep.schedule, src)
    && Honours(h, rep.sender, rep.view, rep.lastNormalView, src, rep.schedule)
  }

  ghost predicate MsgOk(cfg: Config, h: History, m: Msg)
    requires cfg.Valid()
  {
    match m
    case Batch(v, s, snapshot, p, _) =>
      && s == cfg.LeaderOf(v) && p.view == v && p.replicaId == s
      && v in h.latest && CutOf(snapshot, h.latest[v])
      && (CutOf(snapshot + Entries(p), h.latest[v]) || HasStart(snapshot, p.start))
    case Snapshot(v, s, schedule) =>
      s == cfg.LeaderOf(v) && v in h.latest && CutOf(schedule, h.latest[v])
    case Ack(from, v, start, end) =>
      from < cfg.n && exists schedule :: AckedBy(h, from, v, start, end, schedule)
    case Request(_, _) => true
    case Report(rep) =>
      rep.sender < cfg.n && rep.lastNormalView < rep.view && exists src: nat :: ReportedFrom(h, rep, src)
    case StartView(v, s, schedule) =>
      s == cfg.LeaderOf(v) ==> From(h, schedule, v)
  }

  /** A connection that accepted a batch's snapshot keeps it while its view lasts. */
  ghost predicate SnapshotOk(cfg: Config, h: History, r: ReplicaState, b: Msg)
    requires cfg.Valid()
  {
    && b.Batch? && MsgOk(cfg, h, b) && b.view <= r.view
    && (b.view == r.view ==> r.status == Normal && CutOf(b.snapshot, r.schedule))
  }

  /** A quorum has left view v without acknowledging `schedule` there, so that
      no quorum of acknowledgements for it can ever form. */
  ghost predicate BlockedBy(cfg: Config, w: World, v: nat, schedule: seq<Window>, quorum: set<nat>) {
    && |quorum| >= cfg.QuorumSize()
    && forall q :: q in quorum ==>
        q < |w.replicas| && w.replicas[q].view > v && Promise(q, v, schedule) !in w.hist.promises
  }

  ghost predicate Safe(cfg: Config, w: World, u: nat, v: nat, schedule: seq<Window>)
    requires u in w.hist.base
  {
    CutOf(schedule, w.hist.base[u]) || exists quorum :: BlockedBy(cfg, w, v, schedule, quorum)
  }

  ghost predicate AllSafe(cfg: Config, w: World) {
    forall u: nat, v: nat, schedule :: u in w.hist.base && v < u ==> Safe(cfg, w, u, v, schedule)
  }

  ghost predicate ChosenBy(cfg: Config, h: History, v: nat, schedule: seq<Window>, quorum: set<nat>) {
    && |quorum| >= cfg.QuorumSize()
    && forall q :: q in quorum ==> q < cfg.n && Promise(q, v, schedule) in h.promises
  }

  ghost predicate ReplicasOk(cfg: Config, w: World)
    requires cfg.Valid()
  {
    && |w.replicas| == cfg.n && HistoryOk(cfg, w.hist)
    && forall i :: 0 <= i < cfg.n ==> ReplicaOk(cfg, w.hist, i, w.replicas[i])
  }

  ghost predicate MsgsOk(cfg: Config, w: World)
    requires cfg.Valid() && |w.replicas| == cfg.n
  {
    && (forall m :: m in w.msgs ==> MsgOk(cfg, w.hist, m))
    && (forall rep :: Report(rep) in w.msgs && rep.sender < cfg.n ==> rep.view <= w.replicas[rep.sender].view)
  }

  ghost predicate SnapshotsOk(cfg: Config, w: World)
    requires cfg.Valid() && |w.replicas| == cfg.n
  {
    forall i: nat, b :: (i, b) in w.snapshots ==> i < cfg.n && SnapshotOk(cfg, w.hist, w.replicas[i], b)
  }

  ghost predicate CommitOk(cfg: Config, h: History, c: Commit) {
    From(h, c.schedule, c.view) && exists quorum :: ChosenBy(cfg, h, c.view, c.schedule, quorum)
  }

  ghost predicate CommitsChosen(cfg: Config, w: World) {
    forall c :: c in w.commits ==> CommitOk(cfg, w.hist, c)
  }

  ghost predicate Inv(cfg: Config, w: World)
    requires cfg.Valid()
  {
    ReplicasOk(cfg, w) && MsgsOk(cfg, w) && SnapshotsOk(cfg, w) && CommitsChosen(cfg, w) && AllSafe(cfg, w)
  }

  // ------------------------------------------------------------- growth

  /** How a step of replica i may change the bookkeeping. */
  ghost predicate Grows(cfg: Config, h: History, h': History, i: nat, view: nat)
    requires cfg.Valid()
  {
    && |h.origin| == |h'.origin| == cfg.n
    && (forall j :: 0 <= j < cfg.n && j != i ==> h'.origin[j] == h.origin[j])
    && h.base.Keys <= h'.base.Keys && h.latest.Keys <= h'.latest.Keys
    && (forall v :: v in h.base ==> h'.base[v] == h.base[v])
    && (forall v :: v in h'.base && v !in h.base ==> cfg.LeaderOf(v) == i)
    && (forall v :: v in h.latest ==> CutOf(h.latest[v], h'.latest[v]))
    && (forall v :: v in h.latest && cfg.LeaderOf(v) != i ==> h'.latest[v] == h.latest[v])
    && h.promises <= h'.promises
    && (forall p :: p in h'.promises && p !in h.promises ==> p.replica == i && p.view == view)
  }

  lemma FromGrows(cfg: Config, h: History, h': History, i: nat, view: nat, schedule: seq<Window>, src: nat)
    requires cfg.Valid() && Grows(cfg, h, h', i, view) && From(h, schedule, src)
    ensures From(h', schedule, src)
  {
    CutOfTransitive(schedule, h.latest[src], h'.latest[src]);
  }

  lemma OthersKeep(cfg: Config, h: History, h': History, i: nat, view: nat, j: nat, r: ReplicaState)
    requires cfg.Valid() && i < cfg.n && j < cfg.n && i != j
    requires Grows(cfg, h, h', i, view) && ReplicaOk(cfg, h, j, r)
    ensures ReplicaOk(cfg, h', j, r)
  {
    FromGrows(cfg, h, h', i, view, r.schedule, h.origin[j]);
    assert Honours(h', j, r.view + 1, r.lastNormalView, h'.origin[j], r.schedule);
    if IsLeader(cfg, r) {
      assert ProposalOk(cfg, h', r);
    }
  }

  lemma MsgsKeep(cfg: Config, h: History, h': History, i: nat, view: nat, m: Msg)
    requires cfg.Valid() && Grows(cfg, h, h', i, view) && MsgOk(cfg, h, m)
    requires m.Report? && m.report.sender == i ==> m.report.view <= view
    ensures MsgOk(cfg, h', m)
  {
    match m
    case Batch(v, s, snapshot, p, _) =>
      CutOfTransitive(snapshot, h.latest[v], h'.latest[v]);
      if CutOf(snapshot + Entries(p), h.latest[v]) {
        CutOfTransitive(snapshot + Entries(p), h.latest[v], h'.latest[v]);
      }
    case Snapshot(v, s, schedule) =>
      CutOfTransitive(schedule, h.latest[v], h'.latest[v]);
    case Ack(from, v, start, end) =>
      var schedule :| AckedBy(h, from, v, start, end, schedule);
      assert AckedBy(h', from, v, start, end, schedule);
    case Request(_, _) =>
    case Report(rep) =>
      var src: nat :| ReportedFrom(h, rep, src);
      FromGrows(cfg, h, h', i, view, rep.schedule, src);
      assert ReportedFrom(h', rep, src);
    case StartView(v, s, schedule) =>
      if s == cfg.LeaderOf(v) {
        FromGrows(cfg, h, h', i, view, schedule, v);
      }
  }

  /** Blocked stays blocked: views only grow, and a promise is made for the
      view its replica is in. */
  lemma SafeKeeps(cfg: Config, w: World, w': World, i: nat, u: nat, v: nat, schedule: seq<Window>)
    requires cfg.Valid() && i < |w.replicas| == |w'.replicas| == cfg.n
    requires Grows(cfg, w.hist, w'.hist, i, w.replicas[i].view)
    requires forall j :: 0 <= j < cfg.n ==> w.replicas[j].view <= w'.replicas[j].view
    requires u in w.hist.base && Safe(cfg, w, u, v, schedule)
    ensures u in w'.hist.base && Safe(cfg, w', u, v, schedule)
  {
    if !CutOf(schedule, w.hist.base[u]) {
      var quorum :| BlockedBy(cfg, w, v, schedule, quorum);
      assert BlockedBy(cfg, w', v, schedule, quorum);
    }
  }

  // The frame of a step: everything but the moving replica, what it sent, and a new base.

  lemma ReplicasKeep(cfg: Config, w: World, w': World, i: nat, r': ReplicaState, sent: set<Msg>)
    requires cfg.Valid() && ReplicasOk(cfg, w) && i < cfg.n
    requires Moves(w, w', i, r', sent) && Grows(cfg, w.hist, w'.hist, i, w.replicas[i].view)
    requires HistoryOk(cfg, w'.hist) && ReplicaOk(cfg, w'.hist, i, r')
    ensures ReplicasOk(cfg, w')
  {
    forall j | 0 <= j < cfg.n ensures ReplicaOk(cfg, w'.hist, j, w'.replicas[j]) {
      if j != i { OthersKeep(cfg, w.hist, w'.hist, i, w.replicas[i].view, j, w.replicas[j]); }
    }
  }

  lemma AllMsgsKeep(cfg: Config, w: World, w': World, i: nat, r': ReplicaState, sent: set<Msg>)
    requires cfg.Valid() && |w.replicas| == cfg.n && MsgsOk(cfg, w) && i < cfg.n
    requires Moves(w, w', i, r', sent) && Grows(cfg, w.hist, w'.hist, i, w.replicas[i].view)
    requires w.replicas[i].view <= r'.view
    requires forall m :: m in sent ==> MsgOk(cfg, w'.hist, m)
    requires forall rep :: Report(rep) in sent ==> rep.sender == i && rep.view == r'.view
    ensures MsgsOk(cfg, w')
  {
    forall m | m in w'.msgs ensures MsgOk(cfg, w'.hist, m) {
      if m in w.msgs { MsgsKeep(cfg, w.hist, w'.hist, i, w.replicas[i].view, m); }
    }
  }

  lemma SnapshotsKeep(cfg: Config, w: World, w': World, i: nat, r': ReplicaState, sent: set<Msg>)
    requires cfg.Valid() && |w.replicas| == cfg.n && SnapshotsOk(cfg, w) && i < cfg.n
    requires Moves(w, w', i, r', sent) && Grows(cfg, w.hist, w'.hist, i, w.replicas[i].view)
    requires forall b :: (i, b) in w'.snapshots ==> SnapshotOk(cfg, w'.hist, r', b)
    requires forall j: nat, b :: (j, b) in w'.snapshots && j != i ==> (j, b) in w.snapshots
    ensures SnapshotsOk(cfg, w')
  {
    forall j: nat, b | (j, b) in w'.snapshots ensures j < cfg.n && SnapshotOk(cfg, w'.hist, w'.replicas[j], b) {
      if j != i {
        assert (j, b) in w.snapshots;
        MsgsKeep(cfg, w.hist, w'.hist, i, w.replicas[i].view, b);
      }
    }
  }

  lemma CommitsKeep(cfg: Config, w: World, w': World, i: nat, view: nat)
    requires cfg.Valid() && CommitsChosen(cfg, w) && Grows(cfg, w.hist, w'.hist, i, view)
    requires forall c :: c in w'.commits && c !in w.commits ==> CommitOk(cfg, w'.hist, c)
    ensures CommitsChosen(cfg, w')
  {
    forall c | c in w'.commits ensures CommitOk(cfg, w'.hist, c) {
      if c in w.commits {
        var quorum :| ChosenBy(cfg, w.hist, c.view, c.schedule, quorum);
        assert ChosenBy(cfg, w'.hist, c.view, c.schedule, quorum);
        FromGrows(cfg, w.hist, w'.hist, i, view, c.schedule, c.view);
      }
    }
  }

  lemma AllSafeKeeps(cfg: Config, w: World, w': World, i: nat, r': ReplicaState, sent: set<Msg>)
    requires cfg.Valid() && |w.replicas| == cfg.n && AllSafe(cfg, w) && i < cfg.n
    requires Moves(w, w', i, r', sent) && Grows(cfg, w.hist, w'.hist, i, w.replicas[i].view)
    requires w.replicas[i].view <= r'.view
    requires forall u: nat, v: nat, schedule :: u in w'.hist.base && u !in w.hist.base && v < u ==> Safe(cfg, w', u, v, schedule)
    ensures AllSafe(cfg, w')
  {
    forall u: nat, v: nat, schedule | u in w'.hist.base && v < u ensures Safe(cfg, w', u, v, schedule) {
      if u in w.hist.base {
        SafeKeeps(cfg, w, w', i, u, v, schedule);
      }
    }
  }
}
