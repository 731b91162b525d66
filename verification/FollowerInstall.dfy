/** A follower installs the history a start view announces: it keeps its own
    committed prefix, refuses what contradicts it, rewinds to the first slot that
    differs, and ends with exactly the announced no-ops. */
module FollowerInstall {
  import opened Schedule
  import opened ReplicaSpec
  import opened Replay
  import opened ExecutorSpec
  import opened LogIndexes
  import opened Executor

  datatype StartView = StartView(stable: Option<nat>, max: Option<nat>, prefixHash: u64, noOps: seq<nat>)

  datatype Recovery = Recovery(stable: Option<nat>, max: Option<nat>, verifyPrefix: bool, prefixHash: u64, repairFrom: nat, replayTo: nat)

  function SuffixBase(stable: Option<nat>): nat {
    if stable.None? then 0 else stable.value + 1
  }

  /** What validStartView checks of the log part. */
  ghost predicate ValidStartView(msg: StartView) {
    && (msg.stable.Some? ==> msg.max.Some? && msg.stable.value <= msg.max.value)
    && (forall s :: s in msg.noOps ==> msg.max.Some? && SuffixBase(msg.stable) <= s <= msg.max.value)
  }

  predicate IsNoOp(log: map<nat, Entry>, s: nat) {
    s in log && log[s].state.NoOp?
  }

  predicate IsReceived(log: map<nat, Entry>, s: nat) {
    s in log && log[s].state.Received?
  }

  /** From slot `from` on, the log's no-ops are exactly the announced ones. */
  ghost predicate NoOpsAre(log: map<nat, Entry>, noOps: seq<nat>, from: nat) {
    forall s: nat :: from <= s ==> (IsNoOp(log, s) <==> s in noOps)
  }

  /** The merge contradicts what this replica holds as committed. */
  predicate Conflicts(log: map<nat, Entry>, stable: Option<nat>, msg: StartView) {
    stable.Some? && (msg.max.None? || msg.max.value < stable.value
                     || exists i :: 0 <= i < |msg.noOps| && msg.noOps[i] <= stable.value && !IsNoOp(log, msg.noOps[i]))
  }

  /** The scan for a committed slot that was merged as a no-op. */
  method FindConflict(log: map<nat, Entry>, stable: Option<nat>, msg: StartView) returns (conflict: bool)
    ensures conflict == Conflicts(log, stable, msg)
  {
    var localStableEnd := SuffixBase(stable);
    var canonicalEnd := if msg.max.Some? then msg.max.value + 1 else 0;
    if stable.Some? && (msg.max.None? || canonicalEnd < localStableEnd) {
      return true;
    }
    for i := 0 to |msg.noOps|
      invariant stable.Some? ==> forall j :: 0 <= j < i ==> !(msg.noOps[j] <= stable.value && !IsNoOp(log, msg.noOps[j]))
    {
      var slot := msg.noOps[i];
      if stable.Some? && slot < localStableEnd && !IsNoOp(log, slot) {
        return true;
      }
    }
    return false;
  }

  /** A slot at which a replica that keeps its log must stop: one side has a bus
      there and the other a no-op. */
  predicate Disagrees(log: map<nat, Entry>, noOps: seq<nat>, from: nat, s: nat) {
    (s in noOps && IsReceived(log, s)) || (from <= s && IsNoOp(log, s) && s !in noOps)
  }

  /** The first such slot, or where the log or the announced history ends. */
  ghost predicate KeepsUpTo(log: map<nat, Entry>, stable: Option<nat>, nextExpected: nat, msg: StartView, t: nat)
    requires msg.max.Some?
  {
    && t <= nextExpected && t <= msg.max.value + 1
    && (forall s :: 0 <= s < t ==> !Disagrees(log, msg.noOps, SuffixBase(stable), s))
    && (t == nextExpected || t == msg.max.value + 1 || Disagrees(log, msg.noOps, SuffixBase(stable), t))
  }

  /** The slot the log is taken back to. */
  ghost predicate IsTarget(log: map<nat, Entry>, stable: Option<nat>, nextExpected: nat, msg: StartView, retain: bool, t: nat) {
    if msg.max.None? then t == 0
    else if !retain then t == SuffixBase(stable)
    else KeepsUpTo(log, stable, nextExpected, msg, t)
  }

  lemma TargetUnique(log: map<nat, Entry>, stable: Option<nat>, nextExpected: nat, msg: StartView, retain: bool, t: nat)
    requires IsTarget(log, stable, nextExpected, msg, retain, t)
    ensures forall u :: IsTarget(log, stable, nextExpected, msg, retain, u) ==> u == t
  {
  }

  ghost predicate TargetOf(e: Executor, msg: StartView, retain: bool, t: nat)
    reads e
  {
    IsTarget(e.log, e.stable, e.nextExpected, msg, retain, t)
  }

  function Back(executed: seq<Slot>, t: nat): seq<Slot> {
    if t < |executed| then executed[..t] else executed
  }

  /** When `RewindTo` succeeds. */
  ghost predicate CanRewind(e: Executor, t: nat)
    reads e
  {
    e.nextExpected <= t || t == 0 || e.InRing(t - 1) || e.prunedBelow < t
  }

  /** A rewind to t reads no cell that a later slot has overwritten. */
  ghost predicate ReadsTrue(e: Executor, t: nat)
    requires e.Valid()
    reads e, e.hashRing, e.logIdxRing
  {
    e.nextExpected <= t || t == 0 || !e.InRing(t - 1) || e.CellTrue(t)
  }

  /** ... or at least no wrong log index. */
  ghost predicate IndexTrue(e: Executor, t: nat)
    requires e.Valid()
    reads e, e.logIdxRing
  {
    e.nextExpected <= t || t == 0 || !e.InRing(t - 1) || e.CellCounts(t)
  }

  method RetainTarget(e: Executor, msg: StartView) returns (target: nat)
    requires e.Valid() && msg.max.Some? && !Conflicts(e.log, e.stable, msg)
    ensures KeepsUpTo(e.log, e.stable, e.nextExpected, msg, target)
    ensures target < e.nextExpected ==> SuffixBase(e.stable) <= target
  {
    hide LogShape, Holds, Bytes;
    ghost var from := SuffixBase(e.stable);
    target := e.nextExpected;
    if target > msg.max.value + 1 {
      target := msg.max.value + 1;
    }
    for i := 0 to |msg.noOps|
      invariant target <= e.nextExpected && target <= msg.max.value + 1
      invariant target < e.nextExpected ==> SuffixBase(e.stable) <= target
      invariant target == e.nextExpected || target == msg.max.value + 1 || Disagrees(e.log, msg.noOps, from, target)
      invariant forall j :: 0 <= j < i && msg.noOps[j] < target ==> !IsReceived(e.log, msg.noOps[j])
    {
      var slot := msg.noOps[i];
      if slot < target && IsReceived(e.log, slot) {
        target := slot;
      }
    }
    var rest := e.log.Keys;
    while rest != {}
      invariant rest <= e.log.Keys
      invariant target <= e.nextExpected && target <= msg.max.value + 1
      invariant target < e.nextExpected ==> SuffixBase(e.stable) <= target
      invariant target == e.nextExpected || target == msg.max.value + 1 || Disagrees(e.log, msg.noOps, from, target)
      invariant forall s :: s in msg.noOps && s < target ==> !IsReceived(e.log, s)
      invariant forall s :: s in e.log && s !in rest && SuffixBase(e.stable) <= s < target && IsNoOp(e.log, s) ==> s in msg.noOps
    {
      var slot: nat :| slot in rest;
      rest := rest - {slot};
      if slot >= SuffixBase(e.stable) && e.log[slot].state.NoOp? {
        if slot !in msg.noOps && slot < target {
          target := slot;
        }
      }
    }
  }

  method SetNoOps(e: Executor, noOps: seq<nat>, owner: nat -> (u64, u64))
    requires e.Valid()
    modifies e`log, e`residentBytes, e`top
    ensures e.Valid() && (old(e.Exact()) ==> e.Exact()) && (old(e.Counts()) ==> e.Counts())
    ensures forall s: nat :: IsNoOp(e.log, s) <==> IsNoOp(old(e.log), s) || (s in noOps && e.nextExpected <= s)
  {
    hide LogShape, Holds, Bytes, Executor.ExactFrom, Executor.CountsFrom;
    for i := 0 to |noOps|
      invariant e.Valid() && (old(e.Exact()) ==> e.Exact()) && (old(e.Counts()) ==> e.Counts())
      invariant forall s: nat :: IsNoOp(e.log, s) <==> IsNoOp(old(e.log), s) || (s in noOps[..i] && e.nextExpected <= s)
    {
      assert noOps[..i + 1] == noOps[..i] + [noOps[i]];
      var added := e.SetNoOp(noOps[i], owner(noOps[i]));
    }
    assert noOps[..|noOps|] == noOps;
  }

  /** Where the log stands before the no-ops are adopted: up to the frontier the
      two histories agree on what is a no-op. */
  ghost predicate AgreesBelow(log: map<nat, Entry>, noOps: seq<nat>, from: nat, frontier: nat) {
    forall s: nat :: from <= s < frontier ==> (IsNoOp(log, s) <==> s in noOps)
  }

  lemma KeptAgrees(log: map<nat, Entry>, executed: seq<Slot>, from: nat, stable: Option<nat>, msg: StartView, t: nat)
    requires msg.max.Some? && KeepsUpTo(log, stable, |executed|, msg, t)
    requires Holds(log, executed, from) && from <= SuffixBase(stable)
    ensures AgreesBelow(log, msg.noOps, SuffixBase(stable), t)
  {
    forall s: nat | SuffixBase(stable) <= s < t ensures IsNoOp(log, s) <==> s in msg.noOps {
      assert !Disagrees(log, msg.noOps, SuffixBase(stable), s);
    }
  }

  method ChooseTarget(e: Executor, msg: StartView, retain: bool) returns (target: nat)
    requires e.Valid() && ValidStartView(msg) && !Conflicts(e.log, e.stable, msg) && e.prunedBelow <= SuffixBase(e.stable)
    ensures IsTarget(e.log, e.stable, e.nextExpected, msg, retain, target)
    ensures target < e.nextExpected ==> SuffixBase(e.stable) <= target
    ensures !retain ==> target == SuffixBase(e.stable)
    ensures retain ==> target <= e.nextExpected && (msg.max.Some? ==> target <= msg.max.value + 1)
    ensures retain ==> AgreesBelow(e.log, msg.noOps, SuffixBase(e.stable), target)
  {
    hide LogShape, Bytes;
    if msg.max.None? {
      target := 0;
    } else if !retain {
      target := SuffixBase(e.stable);
    } else {
      target := RetainTarget(e, msg);
      KeptAgrees(e.log, e.executed, e.prunedBelow, e.stable, msg, target);
    }
  }

  method AdoptNoOps(e: Executor, msg: StartView, retain: bool, target: nat, owner: nat -> (u64, u64))
    requires e.Valid() && target >= e.nextExpected
    requires !retain ==> target == SuffixBase(e.stable)
    requires retain ==> target == e.nextExpected
    requires retain ==> AgreesBelow(e.log, msg.noOps, SuffixBase(e.stable), target)
    modifies e`log, e`residentBytes, e`top
    ensures e.Valid() && (old(e.Exact()) ==> e.Exact()) && (old(e.Counts()) ==> e.Counts())
    ensures NoOpsAre(e.log, msg.noOps, SuffixBase(e.stable))
  {
    hide Executor.Structure, Executor.ExactFrom, Executor.CountsFrom;
    var localStableEnd := SuffixBase(e.stable);
    if !retain {
      e.ClearSlotRange(target, 0, false);
    } else {
      StraysAbove(e.log, msg.noOps, localStableEnd, target);
      e.ClearStrayNoOps(localStableEnd, set s | s in msg.noOps);
    }
    SetNoOps(e, msg.noOps, owner);
  }

  lemma StraysAbove(log: map<nat, Entry>, noOps: seq<nat>, from: nat, frontier: nat)
    requires AgreesBelow(log, noOps, from, frontier)
    ensures forall s :: s in log && from <= s && log[s].state.NoOp? && s !in noOps ==> frontier <= s
  {
    forall s | s in log && from <= s && log[s].state.NoOp? && s !in noOps ensures frontier <= s {
      assert IsNoOp(log, s);
    }
  }

  lemma AgreementLasts(log: map<nat, Entry>, log': map<nat, Entry>, noOps: seq<nat>, from: nat, frontier: nat)
    requires AgreesBelow(log, noOps, from, frontier) && SlotsOf(log) == SlotsOf(log')
    ensures AgreesBelow(log', noOps, from, frontier)
  {
    forall s: nat ensures IsNoOp(log, s) == IsNoOp(log', s) {
      assert s in log <==> s in SlotsOf(log);
      assert s in log' <==> s in SlotsOf(log');
      if s in log {
        assert SlotsOf(log)[s] == SlotsOf(log')[s];
      }
    }
  }

  /** The announcement takes back what is committed up to slot c. */
  ghost predicate Contradicts(log: map<nat, Entry>, msg: StartView, c: nat) {
    || msg.max.None? || msg.max.value < c
    || (c in msg.noOps && !(c in log && log[c].state.NoOp?))
  }

  lemma ContradictedConflicts(log: map<nat, Entry>, stable: Option<nat>, msg: StartView)
    ensures Conflicts(log, stable, msg) <==> stable.Some? && exists c: nat :: c <= stable.value && Contradicts(log, msg, c)
  {
    if Conflicts(log, stable, msg) {
      if msg.max.Some? && stable.value <= msg.max.value {
        var i :| 0 <= i < |msg.noOps| && msg.noOps[i] <= stable.value && !IsNoOp(log, msg.noOps[i]);
        assert Contradicts(log, msg, msg.noOps[i]);
      } else {
        assert Contradicts(log, msg, stable.value);
      }
    }
    if stable.Some? {
      if c: nat :| c <= stable.value && Contradicts(log, msg, c) {
        if msg.max.Some? && c <= msg.max.value {
          var i :| 0 <= i < |msg.noOps| && msg.noOps[i] == c;
          assert !IsNoOp(log, msg.noOps[i]);
        }
      }
    }
  }

  /** With the log retained: what is kept agrees with the announcement on which
      slots above the stable one are no-ops, and it is the longest such part. */
  ghost predicate KeptLongest(was: seq<Slot>, kept: seq<Slot>, stable: Option<nat>, msg: StartView)
    requires msg.max.Some?
  {
    && kept <= was && |kept| <= msg.max.value + 1
    && (forall s: nat :: s < |kept| && (stable.Some? ==> stable.value < s) ==> (kept[s].state.NoOp? <==> s in msg.noOps))
    && (|kept| < |was| ==> |kept| == msg.max.value + 1 || (was[|kept|].state.NoOp? <==> |kept| !in msg.noOps))
  }

  lemma TargetKeeps(log: map<nat, Entry>, executed: seq<Slot>, from: nat, stable: Option<nat>, msg: StartView, t: nat)
    requires msg.max.Some? && KeepsUpTo(log, stable, |executed|, msg, t) && Holds(log, executed, from) && from <= SuffixBase(stable)
    requires t < |executed| ==> SuffixBase(stable) <= t
    ensures KeptLongest(executed, executed[..t], stable, msg)
  {
    KeptAgrees(log, executed, from, stable, msg, t);
    forall s: nat | from <= s < |executed| ensures IsNoOp(log, s) <==> executed[s].state.NoOp? {
      assert Content(log[s]) == executed[s];
    }
  }

  lemma TargetMeans(log: map<nat, Entry>, executed: seq<Slot>, from: nat, stable: Option<nat>, msg: StartView, retain: bool, t: nat)
    requires IsTarget(log, stable, |executed|, msg, retain, t) && Holds(log, executed, from) && from <= SuffixBase(stable)
    requires t < |executed| ==> SuffixBase(stable) <= t
    ensures retain && msg.max.Some? ==> KeptLongest(executed, Back(executed, t), stable, msg)
    ensures msg.max.None? ==> t == 0
    ensures !retain && msg.max.Some? ==> t == SuffixBase(stable)
  {
    hide KeptLongest;
    if retain && msg.max.Some? {
      TargetKeeps(log, executed, from, stable, msg, t);
      assert t == |executed| ==> executed[..t] == executed;
    }
  }

  /** prepareRecoveryLocked: refuses, or leaves a log whose no-ops above the
      committed prefix are the announced ones. The committed prefix stays. */
  method PrepareRecovery(e: Executor, msg: StartView, retain: bool, owner: nat -> (u64, u64)) returns (rec: Recovery, ok: bool)
    requires e.Valid() && ValidStartView(msg) && e.prunedBelow <= SuffixBase(e.stable)
    modifies e
    ensures e.Valid() && e.stable == old(e.stable) && e.prunedBelow == old(e.prunedBelow)
    ensures ok <==> !old(Conflicts(e.log, e.stable, msg)) && exists t: nat :: old(TargetOf(e, msg, retain, t) && CanRewind(e, t))
    ensures ok ==> forall t: nat :: old(TargetOf(e, msg, retain, t)) ==> e.executed == Back(old(e.executed), t)
    ensures ok && old(e.Exact()) && (forall t: nat :: old(TargetOf(e, msg, retain, t)) ==> old(ReadsTrue(e, t))) ==> e.Exact()
    ensures !ok ==> e.log == old(e.log) && e.Contents() == old(e.Contents()) && e.executed == old(e.executed)
    ensures ok && old(e.Counts()) && (forall t: nat :: old(TargetOf(e, msg, retain, t)) ==> old(IndexTrue(e, t))) ==> e.Counts()
    ensures !ok ==> (old(e.Exact()) ==> e.Exact()) && (old(e.Counts()) ==> e.Counts())
    ensures e.executed <= old(e.executed)
    ensures e.nextExpected == old(e.nextExpected) || SuffixBase(e.stable) <= e.nextExpected < old(e.nextExpected)
    ensures ok ==> NoOpsAre(e.log, msg.noOps, SuffixBase(e.stable))
    ensures ok && retain && msg.max.Some? ==> e.nextExpected <= msg.max.value + 1
    ensures ok && !retain ==> e.nextExpected <= SuffixBase(e.stable)
    ensures ok ==> rec.stable == msg.stable && rec.max == msg.max && rec.prefixHash == msg.prefixHash
    ensures ok ==> rec.repairFrom == SuffixBase(e.stable) && rec.replayTo == e.nextExpected
    ensures ok ==> rec.verifyPrefix == (retain && msg.stable.Some? && old(e.nextExpected) <= msg.stable.value)
    ensures forall c: nat :: old(e.stable).Some? && c <= old(e.stable).value && old(Contradicts(e.log, msg, c)) ==> !ok
    ensures old(e.nextExpected) <= (if old(e.stable).Some? then old(e.stable).value + 1 else 0) ==> e.executed == old(e.executed)
    ensures forall s: nat :: s < |old(e.executed)| && old(e.stable).Some? && s <= old(e.stable).value ==>
      s < |e.executed| && e.executed[s] == old(e.executed)[s]
    ensures ok && retain && msg.max.Some? ==> KeptLongest(old(e.executed), e.executed, e.stable, msg)
    ensures ok && !retain && old(e.stable).Some? ==> |e.executed| <= old(e.stable).value + 1
    ensures ok && (msg.max.None? || (!retain && old(e.stable).None?)) ==> e.executed == []
  {
    hide Executor.Structure, Executor.ExactFrom, Executor.CountsFrom, KeptLongest, IsTarget, NoOpsAre, ValidStartView, Conflicts, Contradicts, Holds;
    ghost var log, executed, low := e.log, e.executed, e.prunedBelow;
    ContradictedConflicts(e.log, e.stable, msg);
    Retained(e);
    rec, ok := PrepareLog(e, msg, retain, owner);
    e.Frontier();
    if ok {
      ghost var t: nat :| old(TargetOf(e, msg, retain, t));
      TargetMeans(log, executed, low, e.stable, msg, retain, t);
    }
  }

  lemma Retained(e: Executor)
    requires e.Valid()
    ensures Holds(e.log, e.executed, e.prunedBelow) && e.prunedBelow <= e.nextExpected == |e.executed|
  {
  }

  method PrepareLog(e: Executor, msg: StartView, retain: bool, owner: nat -> (u64, u64)) returns (rec: Recovery, ok: bool)
    requires e.Valid() && ValidStartView(msg) && e.prunedBelow <= SuffixBase(e.stable)
    modifies e
    ensures e.Valid() && e.stable == old(e.stable) && e.prunedBelow == old(e.prunedBelow)
    ensures ok <==> !old(Conflicts(e.log, e.stable, msg)) && exists t: nat :: old(TargetOf(e, msg, retain, t) && CanRewind(e, t))
    ensures ok ==> forall t: nat :: old(TargetOf(e, msg, retain, t)) ==> e.executed == Back(old(e.executed), t)
    ensures ok && old(e.Exact()) && (forall t: nat :: old(TargetOf(e, msg, retain, t)) ==> old(ReadsTrue(e, t))) ==> e.Exact()
    ensures !ok ==> e.log == old(e.log) && e.Contents() == old(e.Contents()) && e.executed == old(e.executed)
    ensures ok && old(e.Counts()) && (forall t: nat :: old(TargetOf(e, msg, retain, t)) ==> old(IndexTrue(e, t))) ==> e.Counts()
    ensures !ok ==> (old(e.Exact()) ==> e.Exact()) && (old(e.Counts()) ==> e.Counts())
    ensures e.executed <= old(e.executed)
    ensures e.nextExpected == old(e.nextExpected) || SuffixBase(e.stable) <= e.nextExpected < old(e.nextExpected)
    ensures ok ==> NoOpsAre(e.log, msg.noOps, SuffixBase(e.stable))
    ensures ok && retain && msg.max.Some? ==> e.nextExpected <= msg.max.value + 1
    ensures ok && !retain ==> e.nextExpected <= SuffixBase(e.stable)
    ensures ok ==> rec.stable == msg.stable && rec.max == msg.max && rec.prefixHash == msg.prefixHash
    ensures ok ==> rec.repairFrom == SuffixBase(e.stable) && rec.replayTo == e.nextExpected
    ensures ok ==> rec.verifyPrefix == (retain && msg.stable.Some? && old(e.nextExpected) <= msg.stable.value)
  {
    hide Executor.Structure, Executor.ExactFrom, Executor.CountsFrom, AgreesBelow, NoOpsAre, ValidStartView, Conflicts, IsTarget;
    var localStableEnd := SuffixBase(e.stable);
    var verify := retain && msg.stable.Some? && e.nextExpected <= msg.stable.value;
    rec := Recovery(msg.stable, msg.max, verify, msg.prefixHash, localStableEnd, e.nextExpected);
    var conflict := FindConflict(e.log, e.stable, msg);
    if conflict {
      return rec, false;
    }
    e.Frontier();
    var target := ChooseTarget(e, msg, retain);
    TargetUnique(e.log, e.stable, e.nextExpected, msg, retain, target);
    assert old(TargetOf(e, msg, retain, target));
    if target < e.nextExpected {
      ok := e.RewindTo(target);
      e.Frontier();
      assert ok == old(CanRewind(e, target));
      if !ok {
        return rec, false;
      }
      if retain {
        AgreementLasts(old(e.log), e.log, msg.noOps, localStableEnd, target);
      }
    }
    assert old(CanRewind(e, target));
    AdoptNoOps(e, msg, retain, target, owner);
    rec := rec.(replayTo := e.nextExpected);
    ok := true;
  }

  // ------------------------------------------------------------- finishing

  /** The prefix hash that executing the slots from `from` up to `end` would reach. */
  function HashTo(fold: Fold, h: u64, log: map<nat, Entry>, from: nat, end: nat): u64
    decreases end
  {
    if end <= from then h
    else
      var e := if end - 1 in log then log[end - 1] else EMPTY_ENTRY;
      fold(HashTo(fold, h, log, from, end - 1), end - 1, e.state, e.clientId, e.reqId)
  }

  lemma {:induction false} HashToIsRun(fold: Fold, seed: u64, executed: seq<Slot>, log: map<nat, Entry>, from: nat, end: nat)
    requires from <= end <= |executed|
    requires forall s: nat :: from <= s < end ==> s in log && Content(log[s]) == executed[s]
    ensures HashTo(fold, Full(fold, seed, executed, from).hash, log, from, end) == Full(fold, seed, executed, end).hash
    decreases end
  {
    hide Full, ApplyAll, RequestsOf;
    if end > from {
      HashToIsRun(fold, seed, executed, log, from, end - 1);
      FullStep(fold, seed, executed, end - 1);
    }
  }

  ghost predicate Filled(log: map<nat, Entry>, from: nat, to: nat) {
    forall s: nat :: from <= s < to ==> s in log && !log[s].state.Empty?
  }

  method AllFilled(e: Executor, max: Option<nat>) returns (filled: bool)
    ensures filled == (max.Some? ==> Filled(e.log, e.nextExpected, max.value + 1))
  {
    if max.Some? && e.nextExpected <= max.value {
      for slot := e.nextExpected to max.value + 1
        invariant Filled(e.log, e.nextExpected, slot)
      {
        if slot !in e.log || e.log[slot].state.Empty? {
          return false;
        }
      }
    }
    return true;
  }

  method PrefixMatches(e: Executor, rec: Recovery) returns (agrees: bool)
    requires rec.stable.Some? && Filled(e.log, e.nextExpected, rec.stable.value + 1)
    ensures agrees == (HashTo(e.fold, e.prefixHash, e.log, e.nextExpected, rec.stable.value + 1) == rec.prefixHash)
  {
    var hash := e.prefixHash;
    var slot := e.nextExpected;
    while slot <= rec.stable.value
      invariant e.nextExpected <= slot && (slot <= rec.stable.value + 1 || slot == e.nextExpected)
      invariant hash == HashTo(e.fold, e.prefixHash, e.log, e.nextExpected, slot)
    {
      var entry := e.log[slot];
      hash := e.fold(hash, slot, entry.state, entry.clientId, entry.reqId);
      slot := slot + 1;
    }
    return hash == rec.prefixHash;
  }

  /** The executed history has exactly the announced no-ops from `from` to `to`. */
  ghost predicate ExecutedNoOps(executed: seq<Slot>, noOps: seq<nat>, from: nat, to: nat) {
    to < |executed| && forall s: nat :: from <= s <= to ==> (executed[s].state.NoOp? <==> s in noOps)
  }

  /** No slot of the announced history is missing. */
  ghost predicate Announced(e: Executor, rec: Recovery)
    reads e
  {
    rec.max.Some? ==> Filled(e.log, e.nextExpected, rec.max.value + 1)
  }

  /** The hash that execution will reach at the announced stable slot. */
  ghost function Foreseen(e: Executor, rec: Recovery): u64
    requires rec.stable.Some?
    reads e
  {
    HashTo(e.fold, e.prefixHash, e.log, e.nextExpected, rec.stable.value + 1)
  }

  /** The log was taken back to the repair point, to be fetched again from there
      to the stable slot; or nothing happened, where that is not possible. */
  twostate predicate TakenBack(e: Executor, rec: Recovery)
    requires rec.stable.Some?
    reads e
  {
    if old(CanRewind(e, rec.repairFrom)) then
      && e.executed == Back(old(e.executed), rec.repairFrom)
      && forall s :: s in e.log <==> s in old(e.log) && !(rec.repairFrom <= s <= rec.stable.value)
    else
      e.executed == old(e.executed) && e.log == old(e.log)
  }

  /** finishRecoveryIfComplete: nothing happens while a slot is missing; a
      retained prefix with the wrong hash is taken back; otherwise the whole
      announced range executes, with the announced no-ops and no others. */
  method FinishRecovery(e: Executor, rec: Recovery, ghost noOps: seq<nat>) returns (done: bool, rec': Recovery)
    requires e.Valid() && e.prunedBelow <= rec.repairFrom
    requires rec.stable.Some? ==> rec.max.Some? && rec.stable.value <= rec.max.value
    requires rec.verifyPrefix ==> rec.stable.Some?
    modifies e, e.hashRing, e.logIdxRing
    ensures e.Valid()
    ensures done <==> old(Announced(e, rec)) && (rec.verifyPrefix ==> old(Foreseen(e, rec)) == rec.prefixHash)
    ensures !old(Announced(e, rec)) ==> rec' == rec && e.log == old(e.log) && e.executed == old(e.executed)
    ensures old(Announced(e, rec)) && !done ==> rec' == rec.(replayTo := rec'.replayTo) && TakenBack(e, rec)
    ensures done ==> rec' == rec.(verifyPrefix := false)
    ensures done ==> old(e.executed) <= e.executed && (rec.max.Some? ==> rec.max.value < e.nextExpected)
    ensures done && rec.max.Some? && old(NoOpsAre(e.log, noOps, rec.repairFrom)) ==> ExecutedNoOps(e.executed, noOps, rec.repairFrom, rec.max.value)
    ensures done && rec.verifyPrefix && old(e.Exact()) && old(e.nextExpected) <= rec.stable.value ==>
      e.At(rec.stable.value + 1).hash == rec.prefixHash
    ensures !done ==> e.stable == old(e.stable)
    ensures done && rec.stable.Some? ==> e.stable.Some? && rec.stable.value <= e.stable.value
    ensures e.stable == old(e.stable) || e.stable == rec.stable
    ensures old(e.stable).Some? ==> e.stable.Some? && old(e.stable).value <= e.stable.value
    ensures old(e.stable).Some? && old(e.prunedBelow) <= old(e.stable).value + 1 ==> e.prunedBelow <= e.stable.value + 1
    ensures !rec.verifyPrefix ==> (done <==>
      forall s: nat :: rec.max.Some? && old(e.nextExpected) <= s <= rec.max.value ==> s in old(e.log) && !old(e.log)[s].state.Empty?)
    ensures e.prunedBelow <= |e.executed|
    ensures done && old(e.Exact()) && CarriesNew(e.fold, e.seed, e.executed, e.prunedBelow, old(e.nextExpected)) ==> e.Exact()
    ensures !done && old(e.Exact()) && (old(Announced(e, rec)) ==> old(ReadsTrue(e, rec.repairFrom))) ==> e.Exact()
    ensures old(e.Counts()) && (!done && old(Announced(e, rec)) ==> old(IndexTrue(e, rec.repairFrom))) ==> e.Counts()
    ensures done ==> !(e.nextExpected in e.log && !e.log[e.nextExpected].state.Empty?)
  {
    hide Executor.ExactFrom, Executor.CountsFrom, LogShape, Bytes;
    rec' := rec;
    done := AllFilled(e, rec.max);
    if !done {
      return;
    }
    if rec.verifyPrefix {
      var agrees := PrefixMatches(e, rec);
      if !agrees {
        rec' := TakeBack(e, rec);
        return false, rec';
      }
      rec' := rec'.(verifyPrefix := false);
    }
    ExecuteAnnounced(e, rec, noOps);
  }

  method TakeBack(e: Executor, rec: Recovery) returns (rec': Recovery)
    requires e.Valid() && e.prunedBelow <= rec.repairFrom && rec.stable.Some?
    modifies e
    ensures e.Valid() && e.stable == old(e.stable) && e.prunedBelow == old(e.prunedBelow) && TakenBack(e, rec)
    ensures old(e.Exact()) && old(ReadsTrue(e, rec.repairFrom)) ==> e.Exact()
    ensures old(e.Counts()) && old(IndexTrue(e, rec.repairFrom)) ==> e.Counts()
    ensures rec' == rec.(replayTo := if old(CanRewind(e, rec.repairFrom)) then e.nextExpected else rec.replayTo)
  {
    hide Executor.Structure, Executor.ExactFrom, Executor.CountsFrom;
    rec' := rec;
    e.Frontier();
    var rewound := e.RewindTo(rec.repairFrom);
    e.Frontier();
    if !rewound {
      return;
    }
    e.ClearSlotRange(rec.repairFrom, rec.stable.value, true);
    rec' := rec'.(replayTo := e.nextExpected);
  }

  method ExecuteAnnounced(e: Executor, rec: Recovery, ghost noOps: seq<nat>)
    requires e.Valid() && e.prunedBelow <= rec.repairFrom
    requires rec.max.Some? ==> Filled(e.log, e.nextExpected, rec.max.value + 1)
    requires rec.stable.Some? ==> rec.max.Some? && rec.stable.value <= rec.max.value
    modifies e, e.hashRing, e.logIdxRing
    ensures e.Valid() && old(e.executed) <= e.executed && (rec.max.Some? ==> rec.max.value < e.nextExpected)
    ensures rec.max.Some? && old(NoOpsAre(e.log, noOps, rec.repairFrom)) ==> ExecutedNoOps(e.executed, noOps, rec.repairFrom, rec.max.value)
    ensures rec.stable.Some? && old(e.Exact()) && old(e.nextExpected) <= rec.stable.value ==>
      e.At(rec.stable.value + 1).hash == HashTo(e.fold, old(e.prefixHash), old(e.log), old(e.nextExpected), rec.stable.value + 1)
    ensures rec.stable.Some? ==> e.stable.Some? && rec.stable.value <= e.stable.value
    ensures e.stable == old(e.stable) || e.stable == rec.stable
    ensures old(e.stable).Some? ==> e.stable.Some? && old(e.stable).value <= e.stable.value
    ensures old(e.stable).Some? && old(e.prunedBelow) <= old(e.stable).value + 1 ==> e.prunedBelow <= e.stable.value + 1
    ensures old(e.nextExpected) <= e.nextExpected
    ensures e.prunedBelow <= |e.executed|
    ensures old(e.Exact()) && CarriesNew(e.fold, e.seed, e.executed, e.prunedBelow, old(e.nextExpected)) ==> e.Exact()
    ensures old(e.Counts()) ==> e.Counts()
    ensures !(e.nextExpected in e.log && !e.log[e.nextExpected].state.Empty?)
  {
    hide Executor.Structure, Executor.ExactFrom, Executor.CountsFrom, Full, HashTo, NoOpsAre, ExecutedNoOps, CarriesNew, RunFrom, AnswersFor, SlotsOf;
    e.Frontier();
    if rec.max.Some? {
      AdvanceAnnounced(e, rec.max.value, rec, noOps);
      e.PruneCommitted();
    }
    if rec.stable.Some? {
      e.SetStable(rec.stable.value);
    }
    ghost var executed, low, next := e.executed, e.prunedBelow, e.nextExpected;
    e.Frontier();
    e.AdvanceThrough(None);
    ghost var all := e.executed;
    e.PruneCommitted();
    e.Frontier();
    CarriesNewPart(e.fold, e.seed, all, e.prunedBelow, old(e.nextExpected), all, low, next);
    CarriesNewPart(e.fold, e.seed, all, e.prunedBelow, old(e.nextExpected), executed, old(e.prunedBelow), old(e.nextExpected));
    if rec.max.Some? && old(NoOpsAre(e.log, noOps, rec.repairFrom)) {
      NoOpsLast(executed, e.executed, noOps, rec.repairFrom, rec.max.value);
    }
    if rec.stable.Some? {
      FullPrefix(e.fold, e.seed, executed, e.executed, rec.stable.value + 1);
    }
  }

  lemma NoOpsLast(executed: seq<Slot>, longer: seq<Slot>, noOps: seq<nat>, from: nat, to: nat)
    requires ExecutedNoOps(executed, noOps, from, to) && executed <= longer
    ensures ExecutedNoOps(longer, noOps, from, to)
  {
  }

  /** What the log held before is what was executed. */
  lemma ExecutedAsHeld(log: map<nat, Entry>, log': map<nat, Entry>, executed: seq<Slot>, from: nat)
    requires Holds(log', executed, from) && SlotsOf(log') == SlotsOf(log)
    ensures forall s: nat :: from <= s < |executed| ==> s in log && Content(log[s]) == executed[s]
  {
    forall s: nat | from <= s < |executed| ensures s in log && Content(log[s]) == executed[s] {
      assert s in SlotsOf(log') && SlotsOf(log')[s] == executed[s];
    }
  }

  lemma HeldNoOps(log: map<nat, Entry>, executed: seq<Slot>, noOps: seq<nat>, from: nat, to: nat)
    requires to < |executed| && forall s: nat :: from <= s < |executed| ==> s in log && Content(log[s]) == executed[s]
    ensures NoOpsAre(log, noOps, from) ==> ExecutedNoOps(executed, noOps, from, to)
  {
  }

  lemma SameFilled(log: map<nat, Entry>, log': map<nat, Entry>, s: nat)
    requires SlotsOf(log) == SlotsOf(log')
    ensures (s in log && !log[s].state.Empty?) <==> (s in log' && !log'[s].state.Empty?)
  {
    assert s in log <==> s in SlotsOf(log);
    assert s in log' <==> s in SlotsOf(log');
    if s in log {
      assert SlotsOf(log)[s] == SlotsOf(log')[s];
    }
  }

  method AdvanceAnnounced(e: Executor, max: nat, rec: Recovery, ghost noOps: seq<nat>)
    requires e.Valid() && e.prunedBelow <= rec.repairFrom
    requires Filled(e.log, e.nextExpected, max + 1)
    modifies e, e.hashRing, e.logIdxRing
    ensures e.Valid() && e.prunedBelow == old(e.prunedBelow) && e.stable == old(e.stable)
    ensures old(e.executed) <= e.executed && max < |e.executed|
    ensures old(e.Exact()) && CarriesNew(e.fold, e.seed, e.executed, e.prunedBelow, old(e.nextExpected)) ==> e.Exact()
    ensures old(e.Counts()) ==> e.Counts()
    ensures old(NoOpsAre(e.log, noOps, rec.repairFrom)) ==> ExecutedNoOps(e.executed, noOps, rec.repairFrom, max)
    ensures rec.stable.Some? && old(e.Exact()) && old(e.nextExpected) <= rec.stable.value <= max ==>
      e.At(rec.stable.value + 1).hash == HashTo(e.fold, old(e.prefixHash), old(e.log), old(e.nextExpected), rec.stable.value + 1)
  {
    hide LogShape, Bytes, Full, HashTo, NoOpsAre, ExecutedNoOps, LogRecords, RingRecords, SlotsOf, Content, CarriesNew, RunFrom, AnswersFor;
    e.AdvanceThrough(Some(max));
    SameFilled(old(e.log), e.log, e.nextExpected);
    ExecutedAsHeld(old(e.log), e.log, e.executed, e.prunedBelow);
    HeldNoOps(old(e.log), e.executed, noOps, rec.repairFrom, max);
    if rec.stable.Some? && old(e.Exact()) && old(e.nextExpected) <= rec.stable.value <= max {
      FullPrefix(e.fold, e.seed, old(e.executed), e.executed, old(e.nextExpected));
      HashToIsRun(e.fold, e.seed, e.executed, old(e.log), old(e.nextExpected), rec.stable.value + 1);
    }
  }

  /** What a finished install has made stable no later announcement can take back. */
  method InstallAgain(e: Executor, rec: Recovery, ghost noOps: seq<nat>, msg: StartView, retain: bool, owner: nat -> (u64, u64), ghost c: nat)
    returns (done: bool, ok: bool)
    requires e.Valid() && e.prunedBelow <= rec.repairFrom && ValidStartView(msg)
    requires rec.stable.Some? && rec.max.Some? && rec.stable.value <= rec.max.value
    requires e.stable.Some? && e.prunedBelow <= e.stable.value + 1
    modifies e, e.hashRing, e.logIdxRing
    ensures done && c <= rec.stable.value && (msg.max.None? || msg.max.value < c) ==> !ok
    ensures done && rec.repairFrom <= c <= rec.stable.value && old(NoOpsAre(e.log, noOps, rec.repairFrom)) && c in msg.noOps && c !in noOps ==> !ok
    ensures !ok && done ==> rec.stable.value < e.nextExpected
  {
    hide Executor.Structure, Executor.ExactFrom, Executor.CountsFrom, NoOpsAre, ExecutedNoOps, KeptLongest, ValidStartView;
    var rec';
    done, rec' := FinishRecovery(e, rec, noOps);
    ok := false;
    if done {
      if rec.repairFrom <= c <= rec.stable.value && c !in noOps && old(NoOpsAre(e.log, noOps, rec.repairFrom)) {
        NotClosed(e, noOps, rec.repairFrom, rec.max.value, c);
      }
      var next;
      next, ok := PrepareRecovery(e, msg, retain, owner);
    }
  }

  /** A slot that executed with a bus is no no-op of the log, retained or not. */
  lemma NotClosed(e: Executor, noOps: seq<nat>, from: nat, to: nat, c: nat)
    requires e.Valid() && ExecutedNoOps(e.executed, noOps, from, to) && from <= c <= to && c !in noOps
    ensures !(c in e.log && e.log[c].state.NoOp?)
  {
    hide Bytes, EntryOk;
    if e.prunedBelow <= c {
      assert Content(e.log[c]) == e.executed[c];
    }
  }
}
