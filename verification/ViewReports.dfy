/** View-change reports and their merge: the bitmap of filled slots a replica
    reports, and the plan of donors and no-ops the new leader makes of a quorum
    of reports, whatever order they arrived in. */
module ViewReports {
  import opened Schedule
  import opened ReplicaSpec
  import opened SortedIds
  import opened Replay
  import opened ExecutorSpec
  import opened Executor
  import opened FollowerInstall

  const MAX_BITMAP_BITS: nat := 0x80_0000

  datatype LogReport = LogReport(
    sender: u64, view: nat, lastNormalView: nat, nextExpected: nat, schedule: seq<Window>,
    stable: Option<nat>, prefixHash: u64, bitmapBase: nat, bitmap: seq<bv8>, max: Option<nat>, noOps: seq<nat>)

  // ------------------------------------------------------------- bitmaps

  function Mask(k: nat): bv8
    requires k < 8
  {
    1 << k
  }

  predicate BitAt(b: bv8, k: nat)
    requires k < 8
  {
    b & Mask(k) != 0
  }

  /** Bit k of a byte is worth 2^k. */
  lemma MaskValue(k: nat)
    requires k < 8
    ensures Mask(k) as int == [1, 2, 4, 8, 16, 32, 64, 128][k]
  {
    assert Mask(0) == 1 && Mask(1) == 2 && Mask(2) == 4 && Mask(3) == 8;
    assert Mask(4) == 16 && Mask(5) == 32 && Mask(6) == 64 && Mask(7) == 128;
  }

  lemma OneBit(b: bv8, k: nat, j: nat)
    requires k < 8 && j < 8
    ensures BitAt(b | Mask(k), j) <==> k == j || BitAt(b, j)
  {
  }

  predicate BitSet(bm: seq<bv8>, i: nat) {
    i / 8 < |bm| && BitAt(bm[i / 8], i % 8)
  }

  method SetBit(bm: array<bv8>, i: nat)
    modifies bm
    ensures forall j: nat :: BitSet(bm[..], j) <==> BitSet(old(bm[..]), j) || (j == i && i / 8 < bm.Length)
  {
    var idx := i / 8;
    if idx < bm.Length {
      bm[idx] := bm[idx] | Mask(i % 8);
    }
    forall j: nat ensures BitSet(bm[..], j) <==> BitSet(old(bm[..]), j) || (j == i && i / 8 < bm.Length) {
      if j / 8 == idx < bm.Length {
        OneBit(old(bm[..])[idx], i % 8, j % 8);
      }
    }
  }

  lemma NoBits(bm: seq<bv8>)
    requires forall i :: 0 <= i < |bm| ==> bm[i] == 0
    ensures forall j: nat :: !BitSet(bm, j)
  {
  }

  // ------------------------------------------------------------- building a report

  /** Slots below the frontier count as filled whatever the log still holds. */
  predicate FilledAt(log: map<nat, Entry>, next: nat, s: nat) {
    s < next || (s in log && !log[s].state.Empty?)
  }

  predicate Increasing(slots: seq<nat>) {
    forall i, j :: 0 <= i < j < |slots| ==> slots[i] < slots[j]
  }

  /** A report says of every slot from its base on whether it is filled, and
      lists exactly the no-ops among them. */
  ghost predicate Describes(base: nat, bitmap: seq<bv8>, max: Option<nat>, noOps: seq<nat>, log: map<nat, Entry>, next: nat, top: nat) {
    && (forall s: nat :: base <= s ==> (BitSet(bitmap, s - base) <==> s <= top && FilledAt(log, next, s)))
    && Increasing(noOps) && (forall s: nat :: s in noOps <==> base <= s <= top && IsNoOp(log, s))
    && (max.None? ==> forall s: nat :: base <= s <= top ==> !FilledAt(log, next, s))
    && (max.Some? ==> base <= max.value <= top && FilledAt(log, next, max.value))
    && (max.Some? ==> forall s: nat :: max.value < s <= top ==> !FilledAt(log, next, s))
  }

  function Highest(a: int, b: int): int {
    if a < b then b else a
  }

  /** What a report says of the log, slot by slot from its base on: it offers the
      received buses and what was executed, lists the no-ops, and says nothing of
      a slot that is empty. */
  ghost predicate Reports(m: LogReport, log: map<nat, Entry>, next: nat, top: nat) {
    forall s: nat :: m.bitmapBase <= s <= top ==> ReportsAt(m, log, next, s)
  }

  predicate ReportsAt(m: LogReport, log: map<nat, Entry>, next: nat, s: nat) {
    && (s in log && log[s].state.Received? ==> Offers(m, s) && m.max.Some? && s <= m.max.value)
    && (s in log && log[s].state.NoOp? ==> s in m.noOps && !Offers(m, s) && m.max.Some? && s <= m.max.value)
    && (s < next && !(s in log && log[s].state.NoOp?) ==> Offers(m, s) && m.max.Some? && s <= m.max.value)
    && (Offers(m, s) ==> (s in log && log[s].state.Received?) || (s < next && !(s in log && log[s].state.NoOp?)))
    && (s in m.noOps ==> s in log && log[s].state.NoOp?)
  }

  lemma ReportsLog(m: LogReport, log: map<nat, Entry>, next: nat, top: nat)
    requires Describes(m.bitmapBase, m.bitmap, m.max, m.noOps, log, next, top)
    ensures Reports(m, log, next, top)
  {
    hide Describes, Offers;
    forall s: nat | m.bitmapBase <= s <= top ensures ReportsAt(m, log, next, s) {
      ReportsSlot(m, log, next, top, s);
    }
  }

  lemma ReportsSlot(m: LogReport, log: map<nat, Entry>, next: nat, top: nat, s: nat)
    requires Describes(m.bitmapBase, m.bitmap, m.max, m.noOps, log, next, top) && m.bitmapBase <= s
    ensures Offers(m, s) <==> s <= top && FilledAt(log, next, s) && !IsNoOp(log, s)
    ensures s <= top ==> (s in m.noOps <==> IsNoOp(log, s))
    ensures s <= top && FilledAt(log, next, s) ==> m.max.Some? && s <= m.max.value
  {
    hide BitAt;
    var i := s - m.bitmapBase;
    assert BitSet(m.bitmap, i) <==> m.bitmapBase + i <= top && FilledAt(log, next, m.bitmapBase + i);
  }

  /** The hash after the slot is in the ring, or in an entry that was not pruned. */
  ghost predicate AtHand(e: Executor, slot: Option<nat>)
    reads e
  {
    slot.Some? && slot.value < e.nextExpected && (e.InRing(slot.value) || e.prunedBelow <= slot.value)
  }

  ghost function PrefixHashAt(e: Executor, slot: nat): u64
    requires e.Valid() && AtHand(e, Some(slot))
    reads e, e.hashRing
  {
    if e.InRing(slot) then e.hashRing[slot % e.hashRing.Length] else e.log[slot].prefixHash
  }

  /** The slot is executed, and its cell was not overwritten, or it was not pruned
      and is out of the ring's reach. */
  ghost predicate HashKnown(e: Executor, slot: Option<nat>)
    requires e.Valid()
    reads e, e.hashRing, e.logIdxRing
  {
    && slot.Some? && slot.value < e.nextExpected
    && (if e.nextExpected <= slot.value + e.retainSlots + 2 then e.CellTrue(slot.value + 1) else e.prunedBelow <= slot.value)
  }

  /** prefixHashAtLocked, at the stable slot. */
  method StableHash(e: Executor) returns (hash: u64)
    requires e.Valid()
    ensures hash == if AtHand(e, e.stable) then PrefixHashAt(e, e.stable.value) else 0
  {
    hash := 0;
    if e.stable.Some? && e.stable.value < e.nextExpected {
      var h, _, ok := e.PrefixStateAt(e.stable.value + 1);
      if ok {
        hash := h;
      }
    }
  }

  /** Then the hash at hand is the replay's. */
  lemma HashRight(e: Executor)
    requires e.Valid()
    ensures e.Exact() && e.stable.Some? && HashKnown(e, e.stable) ==>
      AtHand(e, e.stable) && PrefixHashAt(e, e.stable.value) == e.At(e.stable.value + 1).hash
  {
    hide LogShape, Bytes, Full, Forget;
    if e.Exact() && e.stable.Some? && HashKnown(e, e.stable) && !e.InRing(e.stable.value) {
      assert Recorded(e.fold, e.seed, e.executed, e.stable.value, e.log[e.stable.value]);
    }
  }

  /** buildViewChangeLocked; `maxSeen` is the highest slot ever observed. */
  method BuildViewChange(e: Executor, sender: u64, view: nat, lastNormalView: nat, schedule: seq<Window>, maxSeen: Option<nat>) returns (m: LogReport)
    requires e.Valid()
    ensures m.sender == sender && m.view == view && m.lastNormalView == lastNormalView && m.schedule == schedule
    ensures m.nextExpected == e.nextExpected && m.stable == e.stable
    ensures m.prefixHash == if AtHand(e, e.stable) then PrefixHashAt(e, e.stable.value) else 0
    ensures e.Exact() && e.stable.Some? && HashKnown(e, e.stable) ==> m.prefixHash == e.At(e.stable.value + 1).hash
    ensures var low := Highest(e.prunedBelow, if e.stable.Some? then e.stable.value + 1 else 0);
      var top := Highest(Highest(low, e.nextExpected - 1), if maxSeen.Some? then maxSeen.value else 0);
      && m.bitmapBase == Highest(low, top - (MAX_BITMAP_BITS - 1))
      && Describes(m.bitmapBase, m.bitmap, m.max, m.noOps, e.log, e.nextExpected, top)
      && Reports(m, e.log, e.nextExpected, top)
  {
    hide Describes, Reports, Executor.Structure, Executor.ExactFrom, PrefixHashAt, AtHand, HashKnown;
    var prefixHash := StableHash(e);
    HashRight(e);
    var base, top := ReportRange(e, maxSeen);
    var bitmap, max, noOps := ScanSlots(e, base, top);
    m := LogReport(sender, view, lastNormalView, e.nextExpected, schedule, e.stable, prefixHash, base, bitmap, max, noOps);
    ReportsLog(m, e.log, e.nextExpected, top);
  }

  /** The slots a report is about. */
  method ReportRange(e: Executor, maxSeen: Option<nat>) returns (base: nat, top: nat)
    requires e.Valid()
    ensures var low := Highest(e.prunedBelow, if e.stable.Some? then e.stable.value + 1 else 0);
      && top == Highest(Highest(low, e.nextExpected - 1), if maxSeen.Some? then maxSeen.value else 0)
      && base == Highest(low, top - (MAX_BITMAP_BITS - 1)) && e.prunedBelow <= base <= top
  {
    base := SuffixBase(e.stable);
    if base < e.prunedBelow {
      base := e.prunedBelow;
    }
    top := base;
    if e.nextExpected > base {
      top := e.nextExpected - 1;
    }
    if maxSeen.Some? && maxSeen.value > top {
      top := maxSeen.value;
    }
    var span := top - base + 1;
    if span > MAX_BITMAP_BITS {
      base := top - (MAX_BITMAP_BITS - 1);
    }
  }

  method ScanSlots(e: Executor, base: nat, top: nat) returns (bitmap: seq<bv8>, max: Option<nat>, noOps: seq<nat>)
    requires e.Valid() && base <= top && e.prunedBelow <= base
    ensures Describes(base, bitmap, max, noOps, e.log, e.nextExpected, top)
  {
    hide BitSet;
    var bm := new bv8[(top - base + 8) / 8](_ => 0);
    max, noOps := None, [];
    NoBits(bm[..]);
    for s := base to top + 1
      invariant forall j: nat :: BitSet(bm[..], j) <==> base + j < s && FilledAt(e.log, e.nextExpected, base + j)
      invariant Increasing(noOps) && forall t: nat :: t in noOps <==> base <= t < s && IsNoOp(e.log, t)
      invariant max.None? ==> forall t: nat :: base <= t < s ==> !FilledAt(e.log, e.nextExpected, t)
      invariant max.Some? ==> base <= max.value < s && FilledAt(e.log, e.nextExpected, max.value)
      invariant max.Some? ==> forall t: nat :: max.value < t < s ==> !FilledAt(e.log, e.nextExpected, t)
    {
      var st := Empty;
      if s < e.nextExpected {
        st := Received;
      }
      if s in e.log && !e.log[s].state.Empty? {
        st := e.log[s].state;
      }
      assert st.NoOp? <==> IsNoOp(e.log, s);
      assert !st.Empty? <==> FilledAt(e.log, e.nextExpected, s);
      if !st.Empty? {
        SetBit(bm, s - base);
        max := Some(s);
        if st.NoOp? {
          assert forall i :: 0 <= i < |noOps| ==> noOps[i] in noOps;
          noOps := noOps + [s];
        }
      }
    }
    bitmap := bm[..];
  }

  // ------------------------------------------------------------- the merge

  datatype MergePlan = MergePlan(
    sourceNormalView: nat, stable: Option<nat>, max: Option<nat>, noOps: seq<nat>, donors: map<nat, seq<u64>>,
    selected: seq<u64>, catchUp: Option<u64>, schedule: seq<Window>, conflict: bool)

  const EMPTY_PLAN := MergePlan(0, None, None, [], map[], [], None, [], false)

  function HalfOf(m: LogReport): ScheduleReport {
    ScheduleReport(0, m.view, m.lastNormalView, m.schedule)
  }

  function Halves(reports: seq<LogReport>): (out: seq<ScheduleReport>)
    ensures |out| == |reports| && forall i :: 0 <= i < |reports| ==> out[i] == HalfOf(reports[i])
  {
    if reports == [] then [] else Halves(reports[..|reports| - 1]) + [HalfOf(reports[|reports| - 1])]
  }

  /** driveViewChange collects one report per sender. */
  ghost predicate DistinctSenders(reports: seq<LogReport>) {
    forall i, j :: 0 <= i < j < |reports| ==> reports[i].sender != reports[j].sender
  }

  predicate Offers(m: LogReport, s: nat) {
    m.bitmapBase <= s && BitSet(m.bitmap, s - m.bitmapBase) && s !in m.noOps
  }

  predicate InMerge(plan: MergePlan, s: nat) {
    plan.max.Some? && SuffixBase(plan.stable) <= s <= plan.max.value
  }

  ghost predicate HasDonor(survivors: seq<LogReport>, s: nat) {
    exists m :: m in survivors && Offers(m, s)
  }

  ghost predicate IsDonor(survivors: seq<LogReport>, s: nat, x: u64) {
    exists m :: m in survivors && m.sender == x && Offers(m, s)
  }

  ghost predicate SurvivorsAre(reports: seq<LogReport>, best: nat, survivors: seq<LogReport>) {
    && (exists m :: m in reports && m.lastNormalView == best)
    && (forall m :: m in reports ==> m.lastNormalView <= best)
    && (forall m :: m in survivors <==> m in reports && m.lastNormalView == best)
  }

  ghost predicate Extremes(survivors: seq<LogReport>, plan: MergePlan) {
    && (plan.stable.None? ==> forall m :: m in survivors ==> m.stable.None?)
    && (plan.stable.Some? ==> (exists m :: m in survivors && m.stable == plan.stable))
    && (plan.stable.Some? ==> forall m :: m in survivors && m.stable.Some? ==> m.stable.value <= plan.stable.value)
    && (plan.max.None? ==> forall m :: m in survivors ==> m.max.None?)
    && (plan.max.Some? ==> (exists m :: m in survivors && m.max == plan.max))
    && (plan.max.Some? ==> forall m :: m in survivors && m.max.Some? ==> m.max.value <= plan.max.value)
  }

  ghost predicate CatchesUp(survivors: seq<LogReport>, peer: Option<u64>) {
    if survivors == [] then peer.None?
    else peer.Some? && exists m :: m in survivors && m.sender == peer.value && forall o :: o in survivors ==> o.nextExpected <= m.nextExpected
  }

  /** In the merged range a slot has donors, all of them, or is a no-op. */
  ghost predicate Partition(survivors: seq<LogReport>, plan: MergePlan) {
    && Increasing(plan.noOps) && (forall s: nat :: s in plan.noOps <==> InMerge(plan, s) && !HasDonor(survivors, s))
    && (forall s: nat :: s in plan.donors <==> InMerge(plan, s) && HasDonor(survivors, s))
    && (forall s: nat :: s in plan.donors ==> DonorsAre(survivors, s, plan.donors[s]))
  }

  ghost predicate DonorsAre(survivors: seq<LogReport>, s: nat, list: seq<u64>) {
    Ascending(list) && forall x :: x in list <==> IsDonor(survivors, s, x)
  }

  ghost predicate SelectedAre(survivors: seq<LogReport>, selected: seq<u64>) {
    Ascending(selected) && forall x :: x in selected <==> exists m :: m in survivors && m.sender == x
  }

  ghost predicate IsPlan(reports: seq<LogReport>, plan: MergePlan) {
    |reports| > 0 && exists survivors :: SurvivorsAre(reports, plan.sourceNormalView, survivors) && IsPlanFor(reports, survivors, plan)
  }

  ghost predicate IsPlanFor(reports: seq<LogReport>, survivors: seq<LogReport>, plan: MergePlan)
    requires |reports| > 0
  {
    && (plan.schedule, plan.conflict) == MergedHistory(Halves(reports))
    && SelectedAre(survivors, plan.selected)
    && Extremes(survivors, plan) && CatchesUp(survivors, plan.catchUp) && Partition(survivors, plan)
  }

  method BestView(reports: seq<LogReport>) returns (best: nat)
    requires |reports| > 0
    ensures exists m :: m in reports && m.lastNormalView == best
    ensures forall m :: m in reports ==> m.lastNormalView <= best
    ensures best == HighestNormalView(Halves(reports))
  {
    best := reports[0].lastNormalView;
    for i := 0 to |reports|
      invariant exists m :: m in reports && m.lastNormalView == best
      invariant forall j :: 0 <= j < i ==> reports[j].lastNormalView <= best
    {
      if reports[i].lastNormalView > best {
        assert reports[i] in reports;
        best := reports[i].lastNormalView;
      }
    }
    var halves := Halves(reports);
    var k :| 0 <= k < |halves| && halves[k].lastNormalView == HighestNormalView(halves);
    assert reports[k] in reports && halves[k] == HalfOf(reports[k]);
    var m :| m in reports && m.lastNormalView == best;
    var l :| 0 <= l < |reports| && reports[l] == m;
    assert halves[l] == HalfOf(reports[l]);
  }

  function SchedulesOf(survivors: seq<LogReport>): seq<seq<Window>> {
    if survivors == [] then [] else SchedulesOf(survivors[..|survivors| - 1]) + [survivors[|survivors| - 1].schedule]
  }

  /** The first loop over the reports: those of the highest normal view. */
  method Select(reports: seq<LogReport>, best: nat) returns (survivors: seq<LogReport>, selected: seq<u64>)
    requires DistinctSenders(reports)
    ensures forall m :: m in survivors <==> m in reports && m.lastNormalView == best
    ensures DistinctSenders(survivors) && |selected| == |survivors|
    ensures forall i :: 0 <= i < |survivors| ==> selected[i] == survivors[i].sender
    ensures SchedulesOf(survivors) == Surviving(Halves(reports), best)
  {
    hide Surviving, Halves, SchedulesOf;
    NoneSurvive(best);
    survivors, selected := [], [];
    assert reports[..0] == [];
    for i := 0 to |reports|
      invariant forall m :: m in survivors <==> m in reports[..i] && m.lastNormalView == best
      invariant DistinctSenders(survivors) && |selected| == |survivors|
      invariant forall j :: 0 <= j < |survivors| ==> selected[j] == survivors[j].sender
      invariant SchedulesOf(survivors) == Surviving(Halves(reports[..i]), best)
    {
      SurvivingStep(reports, i, best);
      if reports[i].lastNormalView == best {
        NewSender(reports, i, survivors);
        SchedulesStep(survivors, reports[i]);
        survivors := survivors + [reports[i]];
        selected := selected + [reports[i].sender];
      }
    }
    assert reports[..|reports|] == reports;
  }

  lemma NoneSurvive(best: nat)
    ensures SchedulesOf([]) == Surviving(Halves([]), best)
  {
  }

  lemma SchedulesStep(survivors: seq<LogReport>, m: LogReport)
    ensures SchedulesOf(survivors + [m]) == SchedulesOf(survivors) + [m.schedule]
  {
    assert (survivors + [m])[..|survivors|] == survivors;
  }

  lemma SurvivingStep(reports: seq<LogReport>, i: nat, best: nat)
    requires i < |reports|
    ensures Surviving(Halves(reports[..i + 1]), best)
      == Surviving(Halves(reports[..i]), best) + (if reports[i].lastNormalView == best then [reports[i].schedule] else [])
  {
    assert reports[..i + 1][..i] == reports[..i];
    var halves := Halves(reports[..i + 1]);
    assert halves[..i] == Halves(reports[..i]) && halves[i] == HalfOf(reports[i]);
  }

  lemma NewSender(reports: seq<LogReport>, i: nat, survivors: seq<LogReport>)
    requires DistinctSenders(reports) && i < |reports| && forall m :: m in survivors ==> m in reports[..i]
    ensures forall j :: 0 <= j < |survivors| ==> survivors[j].sender != reports[i].sender
  {
    forall j | 0 <= j < |survivors| ensures survivors[j].sender != reports[i].sender {
      assert survivors[j] in survivors;
      var k :| 0 <= k < i && reports[k] == survivors[j];
    }
  }

  /** The loop over the surviving schedules; it stops at a conflict. */
  method MergeHistories(survivors: seq<LogReport>) returns (schedule: seq<Window>, conflict: bool)
    ensures (schedule, conflict) == MergeSchedules(SchedulesOf(survivors))
  {
    schedule, conflict := [], false;
    for i := 0 to |survivors|
      invariant !conflict && (schedule, conflict) == MergeSchedules(SchedulesOf(survivors[..i]))
    {
      var m := survivors[i];
      assert survivors[..i + 1] == survivors[..i] + [m];
      SchedulesStep(survivors[..i], m);
      var all := SchedulesOf(survivors[..i + 1]);
      assert all[..|all| - 1] == SchedulesOf(survivors[..i]);
      if |m.schedule| == 0 {
        continue;
      }
      if |schedule| == 0 {
        schedule := m.schedule;
        continue;
      }
      var grows := SchedulePrefix(schedule, m.schedule);
      if grows {
        schedule := m.schedule;
        continue;
      }
      var covered := SchedulePrefix(m.schedule, schedule);
      if !covered {
        conflict := true;
        ConflictStays(survivors, i + 1);
        return;
      }
    }
    assert survivors[..|survivors|] == survivors;
  }

  lemma {:induction false} ConflictStays(survivors: seq<LogReport>, i: nat)
    requires i <= |survivors| && MergeSchedules(SchedulesOf(survivors[..i])).1
    ensures MergeSchedules(SchedulesOf(survivors)) == MergeSchedules(SchedulesOf(survivors[..i]))
    decreases |survivors| - i
  {
    if i == |survivors| {
      assert survivors[..i] == survivors;
    } else {
      assert survivors[..i + 1] == survivors[..i] + [survivors[i]];
      SchedulesStep(survivors[..i], survivors[i]);
      var all := SchedulesOf(survivors[..i + 1]);
      assert all[..|all| - 1] == SchedulesOf(survivors[..i]);
      ConflictStays(survivors, i + 1);
    }
  }

  /** The loop over the survivors for the extremes and the catch-up peer. */
  method FindExtremes(survivors: seq<LogReport>) returns (stable: Option<nat>, max: Option<nat>, catchUp: Option<u64>)
    ensures Extremes(survivors, EMPTY_PLAN.(stable := stable, max := max)) && CatchesUp(survivors, catchUp)
  {
    hide Extremes, Furthest, CatchesUp;
    stable, max, catchUp := None, None, None;
    var bestNext := 0;
    ExtremesNone();
    FurthestNone(bestNext);
    for i := 0 to |survivors|
      invariant Extremes(survivors[..i], EMPTY_PLAN.(stable := stable, max := max))
      invariant Furthest(survivors[..i], catchUp, bestNext)
    {
      var m := survivors[i];
      assert survivors[..i + 1] == survivors[..i] + [m];
      ExtremesStep(survivors[..i], m, stable, max);
      FurthestStep(survivors[..i], m, catchUp, bestNext);
      if m.stable.Some? && (stable.None? || m.stable.value > stable.value) {
        stable := m.stable;
      }
      if m.max.Some? && (max.None? || m.max.value > max.value) {
        max := m.max;
      }
      if catchUp.None? || m.nextExpected > bestNext {
        catchUp, bestNext := Some(m.sender), m.nextExpected;
      }
    }
    assert survivors[..|survivors|] == survivors;
    FurthestIs(survivors, catchUp, bestNext);
  }

  ghost predicate Furthest(survivors: seq<LogReport>, peer: Option<u64>, next: nat) {
    && (peer.None? <==> survivors == [])
    && (peer.Some? ==> exists m :: m in survivors && m.sender == peer.value && m.nextExpected == next)
    && (peer.Some? ==> forall o :: o in survivors ==> o.nextExpected <= next)
  }

  lemma FurthestNone(next: nat)
    ensures Furthest([], None, next)
  {
  }

  lemma FurthestIs(survivors: seq<LogReport>, peer: Option<u64>, next: nat)
    requires Furthest(survivors, peer, next)
    ensures CatchesUp(survivors, peer)
  {
  }

  lemma FurthestStep(survivors: seq<LogReport>, m: LogReport, peer: Option<u64>, next: nat)
    requires Furthest(survivors, peer, next)
    ensures var further := peer.None? || m.nextExpected > next;
      Furthest(survivors + [m], if further then Some(m.sender) else peer, if further then m.nextExpected else next)
  {
    assert m in survivors + [m];
  }

  function Higher(a: Option<nat>, b: Option<nat>): Option<nat> {
    if b.Some? && (a.None? || b.value > a.value) then b else a
  }

  lemma ExtremesNone()
    ensures Extremes([], EMPTY_PLAN)
  {
  }

  lemma ExtremesStep(survivors: seq<LogReport>, m: LogReport, stable: Option<nat>, max: Option<nat>)
    requires Extremes(survivors, EMPTY_PLAN.(stable := stable, max := max))
    ensures Extremes(survivors + [m], EMPTY_PLAN.(stable := Higher(stable, m.stable), max := Higher(max, m.max)))
  {
    assert m in survivors + [m];
  }

  /** The donors of one slot, sorted. */
  method DonorsOf(survivors: seq<LogReport>, s: nat) returns (list: seq<u64>)
    ensures DonorsAre(survivors, s, list)
  {
    var found: set<u64> := {};
    for i := 0 to |survivors|
      invariant forall x :: x in found <==> IsDonor(survivors[..i], s, x)
    {
      var m := survivors[i];
      var isNoOp := false;
      for k := 0 to |m.noOps|
        invariant isNoOp <==> s in m.noOps[..k]
      {
        assert m.noOps[..k + 1] == m.noOps[..k] + [m.noOps[k]];
        if m.noOps[k] == s {
          isNoOp := true;
        }
      }
      assert m.noOps[..|m.noOps|] == m.noOps;
      DonorStep(survivors, i, s);
      if m.bitmapBase <= s && BitSet(m.bitmap, s - m.bitmapBase) {
        if !isNoOp {
          found := found + {m.sender};
        }
      }
    }
    assert survivors[..|survivors|] == survivors;
    list := Sort(found);
  }

  lemma DonorStep(survivors: seq<LogReport>, i: nat, s: nat)
    requires i < |survivors|
    ensures forall x :: IsDonor(survivors[..i + 1], s, x) <==> IsDonor(survivors[..i], s, x) || (survivors[i].sender == x && Offers(survivors[i], s))
  {
    var p, q := survivors[..i], survivors[..i + 1];
    assert q == p + [survivors[i]];
    forall x ensures IsDonor(q, s, x) <==> IsDonor(p, s, x) || (survivors[i].sender == x && Offers(survivors[i], s)) {
      if IsDonor(p, s, x) {
        var m :| m in p && m.sender == x && Offers(m, s);
        assert m in q;
      }
      if survivors[i].sender == x && Offers(survivors[i], s) {
        assert survivors[i] in q;
      }
    }
  }

  lemma DonorExists(survivors: seq<LogReport>, s: nat, list: seq<u64>)
    requires DonorsAre(survivors, s, list)
    ensures |list| == 0 <==> !HasDonor(survivors, s)
  {
    if |list| > 0 {
      assert list[0] in list && IsDonor(survivors, s, list[0]);
    }
    if HasDonor(survivors, s) {
      var m :| m in survivors && Offers(m, s);
      assert IsDonor(survivors, s, m.sender);
    }
  }

  /** The loop over the slots. The source collects the no-ops in a map and sorts
      its keys; visiting the slots in ascending order lists them sorted. */
  method PlanSlots(survivors: seq<LogReport>, base: nat, max: nat) returns (noOps: seq<nat>, donors: map<nat, seq<u64>>)
    ensures Increasing(noOps) && (forall s: nat :: s in noOps <==> base <= s <= max && !HasDonor(survivors, s))
    ensures forall s: nat :: s in donors <==> base <= s <= max && HasDonor(survivors, s)
    ensures forall s: nat :: s in donors ==> DonorsAre(survivors, s, donors[s])
  {
    hide HasDonor, DonorsAre;
    noOps, donors := [], map[];
    var s := base;
    while s <= max
      invariant base <= s && (s <= max + 1 || s == base)
      invariant Increasing(noOps) && (forall t: nat :: t in noOps <==> base <= t < s && !HasDonor(survivors, t))
      invariant forall t: nat :: t in donors <==> base <= t < s && HasDonor(survivors, t)
      invariant forall t: nat :: t in donors ==> DonorsAre(survivors, t, donors[t])
    {
      var list := DonorsOf(survivors, s);
      DonorExists(survivors, s, list);
      if |list| == 0 {
        assert forall i :: 0 <= i < |noOps| ==> noOps[i] in noOps;
        noOps := noOps + [s];
      } else {
        donors := donors[s := list];
      }
      s := s + 1;
    }
  }

  /** mergeSuffix. */
  method MergeSuffix(reports: seq<LogReport>) returns (plan: MergePlan)
    requires DistinctSenders(reports)
    ensures reports == [] ==> plan == EMPTY_PLAN
    ensures reports != [] ==> IsPlan(reports, plan)
  {
    if |reports| == 0 {
      return EMPTY_PLAN;
    }
    hide IsPlanFor, IsPlan, Partition, Extremes, CatchesUp, SelectedAre, HighestNormalView, DistinctSenders, SurvivorsAre, MergeSchedules,
      SchedulesOf, Surviving, Halves;
    var best := BestView(reports);
    var survivors, selected := Select(reports, best);
    var schedule, conflict := MergeHistories(survivors);
    selected := SortSenders(survivors, selected);
    var stable, max, catchUp := FindExtremes(survivors);
    plan := MergePlan(best, stable, max, [], map[], selected, catchUp, schedule, conflict);
    plan := FillSlots(survivors, plan);
    ExtremesOnly(survivors, stable, max, plan);
    Survive(reports, best, survivors);
    MakesPlan(reports, survivors, plan);
  }

  lemma Survive(reports: seq<LogReport>, best: nat, survivors: seq<LogReport>)
    requires exists m :: m in reports && m.lastNormalView == best
    requires forall m :: m in reports ==> m.lastNormalView <= best
    requires forall m :: m in survivors <==> m in reports && m.lastNormalView == best
    ensures SurvivorsAre(reports, best, survivors)
  {
  }

  method FillSlots(survivors: seq<LogReport>, plan: MergePlan) returns (plan': MergePlan)
    requires plan.noOps == [] && plan.donors == map[]
    ensures plan' == plan.(noOps := plan'.noOps, donors := plan'.donors) && Partition(survivors, plan')
  {
    hide HasDonor, DonorsAre;
    plan' := plan;
    var base := SuffixBase(plan.stable);
    if plan.max.Some? && plan.max.value >= base {
      var noOps, donors := PlanSlots(survivors, base, plan.max.value);
      plan' := plan.(noOps := noOps, donors := donors);
    }
  }

  lemma MakesPlan(reports: seq<LogReport>, survivors: seq<LogReport>, plan: MergePlan)
    requires |reports| > 0 && plan.sourceNormalView == HighestNormalView(Halves(reports))
    requires SurvivorsAre(reports, plan.sourceNormalView, survivors)
    requires SchedulesOf(survivors) == Surviving(Halves(reports), plan.sourceNormalView)
    requires (plan.schedule, plan.conflict) == MergeSchedules(SchedulesOf(survivors))
    requires SelectedAre(survivors, plan.selected)
    requires Extremes(survivors, plan) && CatchesUp(survivors, plan.catchUp) && Partition(survivors, plan)
    ensures IsPlan(reports, plan)
  {
    hide Partition, Extremes, CatchesUp, SurvivorsAre, HighestNormalView;
    assert IsPlanFor(reports, survivors, plan);
  }

  lemma ExtremesOnly(survivors: seq<LogReport>, stable: Option<nat>, max: Option<nat>, plan: MergePlan)
    requires Extremes(survivors, EMPTY_PLAN.(stable := stable, max := max)) && plan.stable == stable && plan.max == max
    ensures Extremes(survivors, plan)
  {
  }

  method SortSenders(survivors: seq<LogReport>, senders: seq<u64>) returns (selected: seq<u64>)
    requires |senders| == |survivors| && forall i :: 0 <= i < |survivors| ==> senders[i] == survivors[i].sender
    ensures SelectedAre(survivors, selected)
  {
    selected := Sort(set i | 0 <= i < |senders| :: senders[i]);
    forall x ensures x in selected <==> exists m :: m in survivors && m.sender == x {
      if x in selected {
        var i :| 0 <= i < |senders| && senders[i] == x;
        assert survivors[i] in survivors;
      }
      if m :| m in survivors && m.sender == x {
        var i :| 0 <= i < |survivors| && survivors[i] == m;
        assert senders[i] == x;
      }
    }
  }

  // ------------------------------------------------------------- what the plan means

  lemma {:induction false} SameIncreasing(a: seq<nat>, b: seq<nat>)
    requires Increasing(a) && Increasing(b) && forall x :: x in a <==> x in b
    ensures a == b
  {
    assert |b| > 0 ==> b[0] in b;
    if a == [] {
    } else {
      assert a[|a| - 1] in b;
      var n, m := |a| - 1, |b| - 1;
      assert b[m] in b && b[m] in a;
      assert a[n] == b[m];
      forall x | x in a[..n] ensures x in b[..m] {
        assert x in b && x != b[m];
      }
      forall x | x in b[..m] ensures x in a[..n] {
        assert x in a && x != a[n];
      }
      SameIncreasing(a[..n], b[..m]);
    }
  }

  lemma SameAscending(a: seq<u64>, b: seq<u64>)
    requires Ascending(a) && Ascending(b) && forall x :: x in a <==> x in b
    ensures a == b
  {
    SameIncreasing(a, b);
  }

  /** The loop over the histories has the same outcome in any order. */
  lemma MergedUnique(s1: seq<seq<Window>>, s2: seq<seq<Window>>)
    requires forall x :: x in s1 <==> x in s2
    ensures MergeSchedules(s1).1 == MergeSchedules(s2).1
    ensures !MergeSchedules(s1).1 ==> MergeSchedules(s1).0 == MergeSchedules(s2).0
  {
    hide MergeSchedules;
    MergeSchedulesExact(s1);
    MergeSchedulesExact(s2);
    ConflictTransfers(s1, s2);
    ConflictTransfers(s2, s1);
    var p1, p2 := MergeSchedules(s1).0, MergeSchedules(s2).0;
    if !MergeSchedules(s1).1 && !MergeSchedules(s2).1 {
      LongestUnique(s1, s2, p1, p2);
    }
  }

  lemma LongestUnique(s1: seq<seq<Window>>, s2: seq<seq<Window>>, p1: seq<Window>, p2: seq<Window>)
    requires forall x :: x in s1 <==> x in s2
    requires (forall x :: x in s1 ==> x <= p1) && (p1 in s1 || (p1 == [] && forall x :: x in s1 ==> x == []))
    requires (forall x :: x in s2 ==> x <= p2) && (p2 in s2 || (p2 == [] && forall x :: x in s2 ==> x == []))
    ensures p1 == p2
  {
    assert p1 in s1 ==> p1 in s2;
    assert p2 in s2 ==> p2 in s1;
  }

  lemma SameHistories(r1: seq<LogReport>, r2: seq<LogReport>)
    requires |r1| > 0 && |r2| > 0 && SameReports(r1, r2)
    requires HighestNormalView(Halves(r1)) == HighestNormalView(Halves(r2))
    ensures MergedHistory(Halves(r1)).1 == MergedHistory(Halves(r2)).1
    ensures !MergedHistory(Halves(r1)).1 ==> MergedHistory(Halves(r1)).0 == MergedHistory(Halves(r2)).0
  {
    hide MergeSchedules, Surviving, Halves, HighestNormalView;
    var best := HighestNormalView(Halves(r1));
    SameSchedules(r1, r2, best);
    SameSchedules(r2, r1, best);
    MergedUnique(Surviving(Halves(r1), best), Surviving(Halves(r2), best));
  }

  lemma SameSchedules(r1: seq<LogReport>, r2: seq<LogReport>, best: nat)
    requires forall m :: m in r1 <==> m in r2
    ensures forall x :: x in Surviving(Halves(r1), best) ==> x in Surviving(Halves(r2), best)
  {
    forall x | x in Surviving(Halves(r1), best) ensures x in Surviving(Halves(r2), best) {
      var i :| 0 <= i < |r1| && Halves(r1)[i].lastNormalView == best && Halves(r1)[i].schedule == x;
      assert r1[i] in r2;
      var j :| 0 <= j < |r2| && r2[j] == r1[i];
      assert Halves(r2)[j].schedule == x;
    }
  }

  ghost predicate Diverge(schedules: seq<seq<Window>>) {
    exists i, j :: 0 <= i < |schedules| && 0 <= j < |schedules| && !PrefixComparable(schedules[i], schedules[j])
  }

  lemma ConflictTransfers(s1: seq<seq<Window>>, s2: seq<seq<Window>>)
    requires forall x :: x in s1 ==> x in s2
    ensures Diverge(s1) ==> Diverge(s2)
  {
    if Diverge(s1) {
      var i, j :| 0 <= i < |s1| && 0 <= j < |s1| && !PrefixComparable(s1[i], s1[j]);
      assert s1[i] in s2 && s1[j] in s2;
      var k, l :| 0 <= k < |s2| && 0 <= l < |s2| && s2[k] == s1[i] && s2[l] == s1[j];
    }
  }

  /** Two lists of the same survivors. */
  ghost predicate SameReports(s1: seq<LogReport>, s2: seq<LogReport>) {
    forall m :: m in s1 <==> m in s2
  }

  lemma SameBest(r1: seq<LogReport>, r2: seq<LogReport>, b1: nat, b2: nat, s1: seq<LogReport>, s2: seq<LogReport>)
    requires SurvivorsAre(r1, b1, s1) && SurvivorsAre(r2, b2, s2) && SameReports(r1, r2)
    ensures b1 == b2 && SameReports(s1, s2)
  {
  }

  lemma SameExtremes(s1: seq<LogReport>, s2: seq<LogReport>, p1: MergePlan, p2: MergePlan)
    requires Extremes(s1, p1) && Extremes(s2, p2) && SameReports(s1, s2)
    ensures p1.stable == p2.stable && p1.max == p2.max
  {
  }

  lemma SameDonors(s1: seq<LogReport>, s2: seq<LogReport>, s: nat)
    requires SameReports(s1, s2)
    ensures HasDonor(s1, s) == HasDonor(s2, s)
    ensures forall x :: IsDonor(s1, s, x) == IsDonor(s2, s, x)
  {
  }

  lemma SamePartition(s1: seq<LogReport>, s2: seq<LogReport>, p1: MergePlan, p2: MergePlan)
    requires Partition(s1, p1) && Partition(s2, p2) && SameReports(s1, s2) && p1.stable == p2.stable && p1.max == p2.max
    ensures p1.noOps == p2.noOps && p1.donors == p2.donors
  {
    hide HasDonor, IsDonor, SameReports;
    forall s: nat ensures HasDonor(s1, s) == HasDonor(s2, s) {
      SameDonors(s1, s2, s);
    }
    SameIncreasing(p1.noOps, p2.noOps);
    forall s: nat | s in p1.donors ensures p1.donors[s] == p2.donors[s] {
      SameDonors(s1, s2, s);
      SameAscending(p1.donors[s], p2.donors[s]);
    }
  }

  lemma SameSelected(s1: seq<LogReport>, s2: seq<LogReport>, l1: seq<u64>, l2: seq<u64>)
    requires SelectedAre(s1, l1) && SelectedAre(s2, l2) && SameReports(s1, s2)
    ensures l1 == l2
  {
    SameAscending(l1, l2);
  }

  /** Whatever order the reports came in, the plan is the same but for the peer
      to catch up from, and for the history when the histories conflict. */
  lemma OrderIndependent(r1: seq<LogReport>, r2: seq<LogReport>, p1: MergePlan, p2: MergePlan)
    requires IsPlan(r1, p1) && IsPlan(r2, p2) && SameReports(r1, r2)
    ensures p1 == p2.(catchUp := p1.catchUp, schedule := p1.schedule)
    ensures !p1.conflict ==> p1.schedule == p2.schedule
  {
    hide SurvivorsAre, Extremes, CatchesUp, Partition, SelectedAre, MergedHistory, Halves, SameReports;
    var s1 :| SurvivorsAre(r1, p1.sourceNormalView, s1) && IsPlanFor(r1, s1, p1);
    var s2 :| SurvivorsAre(r2, p2.sourceNormalView, s2) && IsPlanFor(r2, s2, p2);
    SameBest(r1, r2, p1.sourceNormalView, p2.sourceNormalView, s1, s2);
    SameExtremes(s1, s2, p1, p2);
    SamePartition(s1, s2, p1, p2);
    SameSelected(s1, s2, p1.selected, p2.selected);
    SameHighest(r1, r2);
    SameHistories(r1, r2);
  }

  lemma SameHighest(r1: seq<LogReport>, r2: seq<LogReport>)
    requires |r1| > 0 && |r2| > 0 && SameReports(r1, r2)
    ensures HighestNormalView(Halves(r1)) == HighestNormalView(Halves(r2))
  {
    HighestIsMax(r1, r2);
    HighestIsMax(r2, r1);
  }

  lemma HighestIsMax(r1: seq<LogReport>, r2: seq<LogReport>)
    requires |r1| > 0 && |r2| > 0 && SameReports(r1, r2)
    ensures HighestNormalView(Halves(r1)) <= HighestNormalView(Halves(r2))
  {
    hide HighestNormalView;
    var h1, h2 := Halves(r1), Halves(r2);
    var i :| 0 <= i < |h1| && h1[i].lastNormalView == HighestNormalView(h1);
    assert r1[i] in r2;
    var j :| 0 <= j < |r2| && r2[j] == r1[i];
    assert h2[j].lastNormalView <= HighestNormalView(h2);
  }

  /** No log slot is above the top of the report. */
  ghost predicate ReachesAll(log: map<nat, Entry>, next: nat, top: nat) {
    next <= top + 1 && forall s :: s in log ==> s <= top
  }

  /** A report goes up to the highest slot observed, hence over the whole log. */
  lemma ReportReachesAll(log: map<nat, Entry>, base: nat, next: nat, maxSeen: Option<nat>)
    requires forall s :: s in log ==> maxSeen.Some? && s <= maxSeen.value
    ensures ReachesAll(log, next, Highest(Highest(base, next - 1), if maxSeen.Some? then maxSeen.value else 0))
  {
  }

  /** Reports followed by the merge are exact: from the highest survivor's bitmap
      base to the merged maximum, a slot is a no-op of the plan exactly if no
      survivor's log holds a bus there, and its donors are exactly the survivors
      that do. */
  lemma MergeMatchesLogs(survivors: seq<LogReport>, plan: MergePlan, logs: seq<map<nat, Entry>>, tops: seq<nat>, s: nat, x: u64)
    requires Partition(survivors, plan) && InMerge(plan, s) && |logs| == |tops| == |survivors|
    requires forall i :: 0 <= i < |survivors| ==>
      survivors[i].bitmapBase <= s && ReachesAll(logs[i], survivors[i].nextExpected, tops[i])
    requires forall i :: 0 <= i < |survivors| ==> var m := survivors[i];
      Describes(m.bitmapBase, m.bitmap, m.max, m.noOps, logs[i], m.nextExpected, tops[i])
    ensures s in plan.noOps <==> s !in plan.donors
    ensures s in plan.noOps ==> forall i :: 0 <= i < |survivors| ==> !(s in logs[i] && logs[i][s].state.Received?)
    ensures s in plan.noOps ==> forall i :: 0 <= i < |survivors| && s < survivors[i].nextExpected ==> s in logs[i] && logs[i][s].state.NoOp?
    ensures s in plan.donors ==> exists i :: 0 <= i < |survivors| && BusAt(logs[i], survivors[i].nextExpected, s)
    ensures s in plan.donors ==> (x in plan.donors[s] <==>
      exists i :: 0 <= i < |survivors| && survivors[i].sender == x && BusAt(logs[i], survivors[i].nextExpected, s))
  {
    hide Offers, Describes, ReachesAll;
    forall i | 0 <= i < |survivors| ensures Offers(survivors[i], s) == BusAt(logs[i], survivors[i].nextExpected, s) {
      OffersBus(survivors[i], logs[i], tops[i], s);
    }
    assert HasDonor(survivors, s) <==> exists i :: 0 <= i < |survivors| && BusAt(logs[i], survivors[i].nextExpected, s) by {
      if i :| 0 <= i < |survivors| && BusAt(logs[i], survivors[i].nextExpected, s) {
        assert survivors[i] in survivors && Offers(survivors[i], s);
      }
    }
  }

  lemma OffersBus(m: LogReport, log: map<nat, Entry>, top: nat, s: nat)
    requires Describes(m.bitmapBase, m.bitmap, m.max, m.noOps, log, m.nextExpected, top) && m.bitmapBase <= s
    requires ReachesAll(log, m.nextExpected, top)
    ensures Offers(m, s) == BusAt(log, m.nextExpected, s)
  {
    hide Describes, Offers;
    ReportsSlot(m, log, m.nextExpected, top, s);
  }

  /** The log holds a bus there, or did when the slot executed. */
  predicate BusAt(log: map<nat, Entry>, next: nat, s: nat) {
    (s in log && log[s].state.Received?) || (s < next && !(s in log && log[s].state.NoOp?))
  }
}
