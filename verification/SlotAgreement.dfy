/** What schedule agreement is for: in every run all replicas of a view give a
    bus the same slot, no two buses share one, and a committed bus keeps its
    slot in every later view. */
module SlotAgreement {
  import opened Schedule
  import opened Arrivals
  import opened ReplicaSpec
  import opened GlobalSlot
  import opened SlotRange
  import opened MergeCursor
  import opened Agreement
  import opened AgreementInvariant
  import opened AgreementSteps
  import opened AgreementViewSteps
  import opened AgreementTheorems

  // ------------------------------------------------------------- slots fit in a word

  /** What a leader's requests allow: no window at time 0, and in each no more
      entries than clients. */
  ghost predicate Small(cfg: Config, s: seq<Window>) {
    && (forall start :: |WindowAt(s, start)| <= cfg.expectedClients)
    && (forall i :: 0 <= i < |s| ==> 0 < s[i].firstMsgNs)
  }

  lemma {:induction false} WindowAtSplit(a: seq<Window>, b: seq<Window>, start: u64)
    ensures WindowAt(a + b, start) == WindowAt(a, start) + WindowAt(b, start)
  {
    if b == [] {
      assert a + b == a;
    } else {
      WindowAtSplit(a, b[..|b| - 1], start);
      assert (a + b)[..|a + b| - 1] == a + b[..|b| - 1];
    }
  }

  lemma {:induction false} WindowAtBound(s: seq<Window>, start: u64)
    ensures |WindowAt(s, start)| <= |s|
    ensures !HasStart(s, start) ==> WindowAt(s, start) == []
  {
    if s != [] {
      var front := s[..|s| - 1];
      WindowAtBound(front, start);
      assert HasStart(front, start) || s[|s| - 1].firstMsgNs == start ==> HasStart(s, start) by {
        if i :| 0 <= i < |front| && front[i].firstMsgNs == start { assert s[i].firstMsgNs == start; }
      }
    }
  }

  lemma PrefixSmall(cfg: Config, p: seq<Window>, s: seq<Window>)
    requires Small(cfg, s) && p <= s
    ensures Small(cfg, p)
  {
    forall start ensures |WindowAt(p, start)| <= cfg.expectedClients {
      WindowAtSplit(p, s[|p|..], start);
      assert s == p + s[|p|..];
    }
  }

  lemma AppendSmall(cfg: Config, s: seq<Window>, m: Prepare)
    requires Small(cfg, s) && WellFormedPrepare(cfg, m) && !HasStart(s, m.start) && 0 < m.start
    ensures Small(cfg, s + Entries(m))
  {
    hide ValidSchedule;
    forall start ensures |WindowAt(s + Entries(m), start)| <= cfg.expectedClients {
      WindowAtSplit(s, Entries(m), start);
      WindowAtBound(s, start);
      WindowAtBound(Entries(m), start);
      if start != m.start {
        assert !HasStart(Entries(m), start);
      }
    }
  }

  ghost predicate AllSmall(cfg: Config, h: History) {
    forall v :: v in h.latest ==> Small(cfg, h.latest[v])
  }

  lemma MergeKeepsSmall(cfg: Config, w: World, w': World, i: nat, reports: seq<ScheduleReport>)
    requires cfg.Valid() && Inv(cfg, w) && AllSmall(cfg, w.hist)
    requires i < |w.replicas| == |w.hist.origin| && TakesMerge(cfg, w, w', i, reports)
    ensures AllSmall(cfg, w'.hist)
  {
    hide Small, MergedHistory, ReplicasOk, SnapshotsOk, CommitsChosen, AllSafe;
    var s := MergeSource(reports);
    assert MsgOk(cfg, w.hist, Report(reports[s]));
    var src: nat :| ReportedFrom(w.hist, reports[s], src);
    PrefixSmall(cfg, reports[s].schedule, w.hist.latest[src]);
  }

  lemma ProposeKeepsSmall(cfg: Config, w: World, w': World, i: nat, m: Prepare)
    requires cfg.Valid() && Inv(cfg, w) && AllSmall(cfg, w.hist) && i < cfg.n
    requires i < |w.replicas| == |w.hist.origin| && TakesPropose(cfg, w, w', i, m)
    ensures AllSmall(cfg, w'.hist)
  {
    hide Small, ValidSchedule, HistoryOk, Inv, ProposalOk, WellFormedPrepare;
    MoverOk(cfg, w, i);
    var r := w.replicas[i];
    ProposedSchedule(cfg, w.hist, i, r, m);
    AppendSmall(cfg, r.schedule, m);
  }

  lemma StepKeepsSmall(cfg: Config, w: World, w': World, step: Step)
    requires cfg.Valid() && Inv(cfg, w) && Takes(cfg, w, w', step) && AllSmall(cfg, w.hist)
    ensures AllSmall(cfg, w'.hist)
  {
    hide Inv, Small;
    match step
    case ProposeStep(i, m) => ProposeKeepsSmall(cfg, w, w', i, m);
    case MergeStep(i, reports) => MergeKeepsSmall(cfg, w, w', i, reports);
    case _ =>
  }

  lemma {:induction false} RunSmall(cfg: Config, run: seq<World>, k: nat)
    requires cfg.Valid() && IsRun(cfg, run) && k < |run|
    ensures AllSmall(cfg, run[k].hist)
  {
    hide Inv, Takes;
    if k > 0 {
      RunSmall(cfg, run, k - 1);
      RunInv(cfg, run, k - 1);
      assert Next(cfg, run[k - 1], run[k - 1 + 1]);
      var step :| Takes(cfg, run[k - 1], run[k], step);
      StepKeepsSmall(cfg, run[k - 1], run[k], step);
    }
  }

  lemma HeldFrom(cfg: Config, w: World, i: nat)
    requires cfg.Valid() && Inv(cfg, w) && i < |w.replicas|
    ensures ValidSchedule(w.replicas[i].schedule)
    ensures exists v :: v in w.hist.latest && CutOf(w.replicas[i].schedule, w.hist.latest[v])
  {
    MoverOk(cfg, w, i);
  }

  /** No replica ever holds a history whose slots wrap around: in every run the
      64-bit slot of an arrival is its rank. */
  lemma RunSlotsFit(cfg: Config, run: seq<World>, k: nat, i: nat)
    requires cfg.Valid() && IsRun(cfg, run) && k < |run| && i < |run[k].replicas|
    ensures var s := run[k].replicas[i].schedule;
      |ArrivalsOf(s)| < TWO_TO_THE_64 && (forall a :: a in ArrivalsOf(s) ==> SlotOf(s, a) == Rank(s, a))
  {
    hide Inv, ArrivalsOf, Rank, SlotOf, ValidSchedule, IsRun;
    RunInv(cfg, run, k);
    RunSmall(cfg, run, k);
    HeldFrom(cfg, run[k], i);
    var s := run[k].replicas[i].schedule;
    var v :| v in run[k].hist.latest && CutOf(s, run[k].hist.latest[v]);
    PrefixSmall(cfg, s, run[k].hist.latest[v]);
    SlotsFit(s);
  }

  /** Nor is there ever a bus at time 0, which the cursor could not tell from none. */
  lemma RunNoBusAtZero(cfg: Config, run: seq<World>, k: nat, i: nat)
    requires cfg.Valid() && IsRun(cfg, run) && k < |run| && i < |run[k].replicas|
    ensures NoBusAtZero(run[k].replicas[i].schedule)
  {
    hide Inv, Rank, ValidSchedule, IsRun;
    RunInv(cfg, run, k);
    RunSmall(cfg, run, k);
    HeldFrom(cfg, run[k], i);
    var s := run[k].replicas[i].schedule;
    var v :| v in run[k].hist.latest && CutOf(s, run[k].hist.latest[v]);
    PrefixSmall(cfg, s, run[k].hist.latest[v]);
    forall a | a in ArrivalsOf(s) ensures 0 < a.at {
      var w := WindowOf(s, a);
    }
  }

  // ------------------------------------------------------------- slots are agreed

  lemma ComparableSlots(p: seq<Window>, s: seq<Window>, a: Arrival, b: Arrival)
    requires ValidSchedule(p) && ValidSchedule(s) && Comparable(p, s)
    requires a in ArrivalsOf(p) && b in ArrivalsOf(s)
    ensures a == b <==> Rank(p, a) == Rank(s, b)
  {
    hide ArrivalsOf, Rank, ValidSchedule;
    var long := if CutOf(p, s) then s else p;
    ArrivalsPrefix(p, long);
    ArrivalsPrefix(s, long);
    RankStable(p, long, a);
    RankStable(s, long, b);
    RankInjective(long, a, b);
  }

  /** Replicas that are normal in one view, at any two times, agree on the slot
      of every bus both admit, and never give one slot to two buses. */
  lemma SameViewSlots(cfg: Config, run: seq<World>, k: nat, i: nat, l: nat, j: nat, a: Arrival, b: Arrival)
    requires cfg.Valid() && IsRun(cfg, run) && k <= l < |run| && i < |run[k].replicas| && j < |run[l].replicas|
    requires run[k].replicas[i].status == run[l].replicas[j].status == Normal
    requires run[k].replicas[i].view == run[l].replicas[j].view
    requires a in ArrivalsOf(run[k].replicas[i].schedule) && b in ArrivalsOf(run[l].replicas[j].schedule)
    ensures a == b <==> SlotOf(run[k].replicas[i].schedule, a) == SlotOf(run[l].replicas[j].schedule, b)
  {
    hide ArrivalsOf, Rank, ValidSchedule, IsRun, Comparable, SlotOf;
    RunSlotsFit(cfg, run, k, i);
    RunSlotsFit(cfg, run, l, j);
    SameViewComparable(cfg, run, k, i, l, j);
    ComparableSlots(run[k].replicas[i].schedule, run[l].replicas[j].schedule, a, b);
  }

  /** A bus of a window that was committed on F+1 acknowledgements has the same
      slot at every replica that is normal in a later view, and every other bus
      ranks behind all the committed ones or is one of them. */
  lemma CommittedSlotsLast(cfg: Config, run: seq<World>, j: nat, k: nat, c: Commit, i: nat, a: Arrival)
    requires cfg.Valid() && IsRun(cfg, run) && j <= k < |run| && c in run[j].commits
    requires i < |run[k].replicas| && run[k].replicas[i].status == Normal && c.view < run[k].replicas[i].view
    requires a in ArrivalsOf(run[k].replicas[i].schedule)
    ensures ArrivalsOf(c.schedule) <= ArrivalsOf(run[k].replicas[i].schedule)
    ensures a in ArrivalsOf(c.schedule) ==> SlotOf(run[k].replicas[i].schedule, a) == SlotOf(c.schedule, a)
    ensures a !in ArrivalsOf(c.schedule) ==> SlotOf(run[k].replicas[i].schedule, a) >= |ArrivalsOf(c.schedule)|
  {
    hide ArrivalsOf, Rank, ValidSchedule, IsRun, Comparable;
    RunSlotsFit(cfg, run, k, i);
    CommittedInReplicas(cfg, run, j, k, c, i);
    NormalHistory(cfg, run, k, i);
    ArrivalsPrefix(c.schedule, run[k].replicas[i].schedule);
    RankStable(c.schedule, run[k].replicas[i].schedule, a);
  }

  /** The cursor inverts computeGlobalSlot: the owner it records for a slot is
      the one arrival the closed form sends there. */
  lemma CursorInvertsSlot(s: seq<Window>, meta: map<nat, SlotMeta>, from: nat, to: nat, k: nat, a: Arrival)
    requires MetaOk(s, meta, from, to) && from <= k < to && |ArrivalsOf(s)| <= TWO_TO_THE_64
    requires a in ArrivalsOf(s)
    ensures k in meta && (SlotOf(s, a) == k <==> a == Arrival(meta[k].reqId, meta[k].clientId))
  {
    hide ArrivalsOf, Rank, Wrap;
    assert Owns(s, meta[k], k);
    OwnerUnique(s, meta[k], k, a);
    RankInjective(s, a, a);
    WrapSmall(Rank(s, a));
  }
}
