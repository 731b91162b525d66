/** Two rewinds in a row: the second can read a ring cell that a later slot has
    overwritten, and a third can then hand out an index for the second time. The
    replica prunes after every advance, and has a stable slot. */
module StaleCells {
  import opened Schedule
  import opened ReplicaSpec
  import opened Replay
  import opened ExecutorSpec
  import opened LogIndexes
  import opened Executor

  /** Slot 0 was closed as a no-op and is stable; each slot behind it held a bus
      with one request; nothing was pruned. */
  ghost predicate OneEach(e: Executor, n: nat)
    reads e, e.hashRing, e.logIdxRing
  {
    && e.Valid() && e.Exact() && e.retainSlots == 1 && e.nextExpected == e.peak == n && e.prunedBelow == 0
    && e.stable == Some(0) && OnePerSlot(e.executed, n) && forall t :: t in e.log ==> t < n
  }

  ghost predicate OnePerSlot(executed: seq<Slot>, n: nat) {
    && |executed| == n > 0 && RequestsOf(executed[0]) == []
    && forall s: u64 :: 0 < s < n ==> RequestsOf(executed[s]) == [Request(1, s, [])]
  }

  lemma {:induction false} StreamOf(slots: seq<Slot>)
    requires OnePerSlot(slots, |slots|) && |slots| < TWO_TO_THE_64
    ensures |Stream(slots)| == |slots| - 1 && forall i: u64 :: i < |slots| - 1 ==> Stream(slots)[i] == Request(1, i + 1, [])
  {
    var n := |slots| - 1;
    if n > 0 {
      StreamOf(slots[..n]);
    } else {
      assert Stream(slots[..n]) == [];
    }
  }

  /** The request of slot 2 has log index 1; the request 77 of client 9 is new. */
  predicate SecondHasOne(dedup: map<Key, nat>) {
    Key(1, 2) in dedup && dedup[Key(1, 2)] == 1 && Key(9, 77) !in dedup
  }

  lemma OwnIndexes(fold: Fold, seed: u64, slots: seq<Slot>)
    requires OnePerSlot(slots, 5)
    ensures Full(fold, seed, slots, 5).nextIndex == 4 && Full(fold, seed, slots, 3).nextIndex == 2 && Full(fold, seed, slots, 2).nextIndex == 1
    ensures SecondHasOne(Full(fold, seed, slots, 5).dedup)
  {
    hide Full, Stream, SecondHasOne;
    forall n: nat | 2 <= n <= 5 ensures Full(fold, seed, slots, n).nextIndex == n - 1 {
      StreamOf(slots[..n]);
      FullIndex(fold, seed, slots, n);
    }
    OwnDedup(fold, seed, slots);
  }

  lemma OwnDedup(fold: Fold, seed: u64, slots: seq<Slot>)
    requires OnePerSlot(slots, 5)
    ensures SecondHasOne(Full(fold, seed, slots, 5).dedup)
  {
    hide ApplyAll, Stream, First, Run;
    StreamOf(slots);
    assert slots[..5] == slots;
    RunIsStream(fold, seed, slots);
    StreamMeaning(seed, Stream(slots));
    FirstFour(Stream(slots));
  }

  lemma FirstFour(stream: seq<Request>)
    requires |stream| == 4 && forall i: u64 :: i < 4 ==> stream[i] == Request(1, i + 1, [])
    ensures KeyOf(stream[0]) == Key(1, 1) && KeyOf(stream[1]) == Key(1, 2)
    ensures forall i: nat :: i < 4 ==> KeyOf(stream[i]).clientId == 1
  {
    var zero: u64, one: u64 := 0, 1;
    assert stream[zero] == Request(1, zero + 1, []) && stream[one] == Request(1, one + 1, []);
    forall i: nat | i < 4 ensures KeyOf(stream[i]).clientId == 1 {
      var j: u64 := i;
      assert stream[j] == Request(1, j + 1, []);
    }
  }

  lemma {:induction false} NoBytes(log: map<nat, Entry>, n: nat)
    requires forall s :: s in log ==> log[s].sizeBytes == 0
    ensures Bytes(log, n) == 0
  {
    if n > 0 {
      NoBytes(log, n - 1);
    }
  }

  lemma NothingForgotten(x: Exec, qs: seq<Request>, from: nat)
    ensures from == 0 ==> NoneForgotten(x, from, qs)
  {
  }

  /** The loop of advanceNextExpectedLocked, when only the next slot is filled. */
  method AdvanceLoop(e: Executor)
    requires e.Valid() && e.Exact() && e.prunedBelow == 0 && e.nextExpected == e.peak
    requires e.nextExpected in e.log && !e.log[e.nextExpected].state.Empty? && forall t :: t in e.log ==> t <= e.nextExpected
    modifies e, e.hashRing, e.logIdxRing
    ensures e.Valid() && e.Exact() && e.prunedBelow == 0 && e.stable == old(e.stable)
    ensures e.nextExpected == e.peak == old(e.nextExpected) + 1 && e.log.Keys == old(e.log).Keys
    ensures e.executed == old(e.executed) + [Content(old(e.log)[old(e.nextExpected)])]
    ensures SlotsOf(e.log) == old(SlotsOf(e.log))
  {
    hide Executor.Structure, Executor.ExactFrom, Executor.CountsFrom, ApplySlot, ApplyAll, SlotsOf, Content, Answers, RequestsOf;
    e.Frontier();
    NothingForgotten(e.At(e.nextExpected), RequestsOf(Content(e.log[e.nextExpected])), e.At(0).nextIndex);
    var advanced := e.AdvanceOne();
    e.Frontier();
    var more := e.AdvanceOne();
    e.Frontier();
  }

  /** Slot 0 is closed, executes, and becomes stable. */
  method CloseFirst(fold: Fold, retainBytes: nat) returns (e: Executor)
    ensures OneEach(e, 1) && fresh(e) && fresh(e.hashRing) && fresh(e.logIdxRing)
  {
    hide Executor.Structure, Executor.ExactFrom, Executor.CountsFrom, SlotsOf, OnePerSlot;
    e := FirstNoOp(fold, retainBytes);
    ghost var was := e.log;
    AdvanceLoop(e);
    e.Frontier();
    SameState(was, e.log, 0);
    NoOpFirst(e.executed);
    PruneNothing(e);
    e.SetStable(0);
    e.Frontier();
  }

  method FirstNoOp(fold: Fold, retainBytes: nat) returns (e: Executor)
    ensures e.Valid() && e.Exact() && fresh(e) && fresh(e.hashRing) && fresh(e.logIdxRing)
    ensures e.retainSlots == 1 && e.nextExpected == e.peak == e.prunedBelow == 0 && e.executed == [] && e.stable == None
    ensures e.log.Keys == {0} && e.log[0].state.NoOp?
  {
    hide Executor.Structure, Executor.ExactFrom, Executor.CountsFrom;
    e := new Executor(fold, 0, 1, retainBytes);
    e.Frontier();
    var closed := e.SetNoOp(0, (0, 0));
    assert e.log.Keys == {0};
  }

  lemma NoOpFirst(executed: seq<Slot>)
    requires |executed| == 1 && executed[0].state.NoOp?
    ensures OnePerSlot(executed, 1)
  {
  }

  lemma OneMoreSlot(executed: seq<Slot>, n: u64, c: Slot)
    requires OnePerSlot(executed, n) && RequestsOf(c) == [Request(1, n, [])]
    ensures OnePerSlot(executed + [c], n + 1)
  {
  }

  /** With one slot retained and no bytes held, there is nothing to prune. */
  method PruneNothing(e: Executor)
    requires e.Valid() && e.Exact() && e.prunedBelow == 0 && e.nextExpected == e.retainSlots
    requires forall s :: s in e.log ==> e.log[s].state.NoOp?
    modifies e`log, e`dedup, e`residentBytes, e`prunedBelow
    ensures e.Valid() && e.Exact() && e.prunedBelow == 0 && e.log == old(e.log)
  {
    hide Executor.Structure, Executor.ExactFrom, Executor.CountsFrom;
    NothingHeld(e);
    e.PruneCommitted();
    NothingHeld(e);
    assert e.log.Keys == old(e.log).Keys;
  }

  lemma SameState(log: map<nat, Entry>, log': map<nat, Entry>, s: nat)
    requires SlotsOf(log) == SlotsOf(log') && s in log
    ensures s in log' && log'[s].state == log[s].state
  {
    assert s in SlotsOf(log) && SlotsOf(log)[s] == Content(log[s]);
    assert s in SlotsOf(log') && SlotsOf(log')[s] == Content(log'[s]);
  }

  lemma NothingHeld(e: Executor)
    requires e.Valid() && forall s :: s in e.log ==> e.log[s].state.NoOp?
    ensures e.residentBytes == 0 && forall s :: s in e.log ==> e.log[s].sizeBytes == 0
  {
    forall s | s in e.log ensures e.log[s].sizeBytes == 0 {
      assert EntryOk(e.log[s]);
    }
    NoBytes(e.log, e.top);
  }

  /** A bus arrives for the next slot and executes; nothing can be pruned, since
      slot 0 is the stable one. */
  method OneMoreBus(e: Executor, n: u64)
    requires OneEach(e, n)
    modifies e, e.hashRing, e.logIdxRing
    ensures OneEach(e, n + 1)
  {
    hide Executor.Structure, Executor.ExactFrom, Executor.CountsFrom, SlotsOf, OnePerSlot;
    e.Frontier();
    var stored := e.RecordBusReceived(n, 1, n, [Request(1, n, [])]);
    OneMoreSlot(e.executed, n, Content(e.log[n]));
    AdvanceLoop(e);
    e.PruneCommitted();
    e.Frontier();
  }

  /** After both rewinds: the log index is 4 where slot 2 began with 1, and the
      entry of slot 1 tells so. */
  ghost predicate Astray(e: Executor)
    reads e
  {
    && e.Valid() && e.nextExpected == 2 && e.nextLogIndex == 4 && e.At(2).nextIndex == 1
    && e.prunedBelow == 0 && e.stable == Some(0) && e.retainSlots == 1 && SecondHasOne(e.dedup)
    && (forall t :: t in e.log ==> t < 5) && 1 in e.log && e.log[1].logIndexAfter == 1
  }

  /** Slot 0 and four buses execute over a ring of three cells, which by then
      hold slots 2, 3 and 4. A rewind to 3 is exact. The next one, to 2, takes
      the cell of slot 4 for that of slot 1: the log index, and with it every
      later one, is wrong. */
  method StaleRing(fold: Fold, retainBytes: nat) returns (e: Executor)
    ensures Astray(e) && !e.Exact() && !e.Counts() && fresh(e) && fresh(e.hashRing) && fresh(e.logIdxRing)
  {
    hide OneEach;
    e := CloseFirst(fold, retainBytes);
    OneMoreBus(e, 1);
    OneMoreBus(e, 2);
    OneMoreBus(e, 3);
    OneMoreBus(e, 4);
    RewindTwice(e);
  }

  lemma SlotOneRecorded(e: Executor)
    requires OneEach(e, 5)
    ensures 1 in e.log && e.log[1].logIndexAfter == 1 && SecondHasOne(e.dedup)
  {
    hide Bytes, LogShape, Full, SecondHasOne;
    OwnIndexes(e.fold, e.seed, e.executed);
    e.Frontier();
    assert Recorded(e.fold, e.seed, e.executed, 1, e.log[1]);
    assert e.dedup == e.At(5).dedup;
  }

  lemma StaysGiven(dedup: map<Key, nat>, dedup': map<Key, nat>, slots: map<nat, Slot>, t: nat, n: nat, index: nat)
    requires SecondHasOne(dedup) && Undone(dedup, dedup', slots, t, n, index)
    requires index > 1 || !CarriedIn(slots, t, n, Key(1, 2))
    ensures SecondHasOne(dedup')
  {
  }

  method RewindTwice(e: Executor)
    requires OneEach(e, 5)
    modifies e
    ensures Astray(e) && !e.Exact() && !e.Counts()
  {
    hide LogShape, Holds, Bytes, Forget, LogRecords, RingRecords, Full, Executor.ExactFrom, Undone, SecondHasOne, CarriedIn, Indexed, LogCounts, RingCounts;
    ghost var slots, d := e.executed, e.dedup;
    OwnIndexes(e.fold, e.seed, slots);
    SlotOneRecorded(e);
    e.NewestCell();
    e.CellTrueIff(3);
    var first := e.RewindTo(3);
    StaysGiven(d, e.dedup, SlotsOf(e.log), 3, 5, e.nextLogIndex);
    d := e.dedup;
    FullPrefix(e.fold, e.seed, e.executed, slots, 2);
    var second := e.RewindTo(2);
    StaysGiven(d, e.dedup, SlotsOf(e.log), 2, 3, e.nextLogIndex);
    FullPrefix(e.fold, e.seed, e.executed, slots, 2);
    if e.Counts() {
      FullIndex(e.fold, e.seed, e.executed, 2);
      AtEnd(e.executed, e.Contents());
      assert false;
    }
  }

  // ------------------------------------------------------------- what comes of it

  lemma {:induction false} NothingCarried(slots: seq<Slot>)
    requires forall s :: 0 <= s < |slots| ==> slots[s].state.NoOp?
    ensures Stream(slots) == []
  {
    if slots != [] {
      NothingCarried(slots[..|slots| - 1]);
    }
  }

  /** Where the log has only no-ops, execution changes the hash alone. */
  lemma NoOpsRun(fold: Fold, x: Exec, from: nat, slots: seq<Slot>)
    requires forall s :: 0 <= s < |slots| ==> slots[s].state.NoOp?
    ensures RunFrom(fold, x, from, slots).dedup == x.dedup && RunFrom(fold, x, from, slots).nextIndex == x.nextIndex
  {
    NothingCarried(slots);
    RunFromIsStream(fold, x, from, slots);
  }

  /** The slots from 2 on are closed as no-ops and execute, past the ring's reach
      of slot 1. */
  ghost predicate ClosedUp(e: Executor)
    reads e
  {
    && e.Valid() && 5 <= e.nextExpected && e.prunedBelow == 0 && e.retainSlots == 1 && SecondHasOne(e.dedup)
    && (forall s :: s in e.log && 2 <= s ==> e.log[s].state.NoOp?) && 1 in e.log && e.log[1].logIndexAfter == 1
  }

  method CloseThree(e: Executor)
    requires Astray(e)
    modifies e`log, e`residentBytes, e`top
    ensures e.Valid() && (forall s :: s in e.log <==> s in old(e.log) || s in {2, 3, 4}) && 1 in e.log && e.log[1] == old(e.log)[1]
    ensures forall s :: s in e.log && 2 <= s ==> e.log[s].state.NoOp?
  {
    hide Executor.Structure, Executor.ExactFrom, Executor.CountsFrom;
    var c := e.SetNoOp(2, (0, 0));
    c := e.SetNoOp(3, (0, 0));
    c := e.SetNoOp(4, (0, 0));
  }

  method CloseUp(e: Executor)
    requires Astray(e)
    modifies e, e.hashRing, e.logIdxRing
    ensures ClosedUp(e)
  {
    hide Executor.Structure, SecondHasOne, Executor.ExactFrom, Executor.CountsFrom, RunFrom, AnswersFor, SlotsOf, CarriesNew;
    CloseThree(e);
    ExecuteNoOps(e);
    ghost var log := e.log;
    e.PruneCommitted();
    assert e.log == log;
  }

  method ExecuteNoOps(e: Executor)
    requires e.Valid() && e.nextExpected == 2 && e.prunedBelow == 0
    requires 1 in e.log && {2, 3, 4} <= e.log.Keys && forall s :: s in e.log && 2 <= s ==> e.log[s].state.NoOp?
    modifies e, e.hashRing, e.logIdxRing
    ensures e.Valid() && 5 <= e.nextExpected && e.prunedBelow == 0 && e.stable == old(e.stable) && e.dedup == old(e.dedup)
    ensures 1 in e.log && e.log[1] == old(e.log)[1] && forall s :: s in e.log && 2 <= s ==> e.log[s].state.NoOp?
  {
    hide Executor.Structure, Executor.ExactFrom, Executor.CountsFrom, RunFrom, AnswersFor, SlotsOf, CarriesNew;
    ghost var log, x := e.log, e.Contents();
    e.Frontier();
    e.AdvanceThrough(None);
    e.Frontier();
    NoOpsStay(log, e.log, 2);
    ExecutedNoOp(e, 2);
    NoOpsRun(e.fold, x, 2, e.executed[2..]);
  }

  lemma ExecutedNoOp(e: Executor, n: nat)
    requires e.Valid() && e.prunedBelow <= n <= e.nextExpected && forall s :: s in e.log && n <= s ==> e.log[s].state.NoOp?
    ensures forall s: nat :: n <= s < |e.executed| ==> e.executed[s].state.NoOp?
  {
    hide LogShape, Bytes;
  }

  lemma NoOpsStay(log: map<nat, Entry>, log': map<nat, Entry>, n: nat)
    requires SlotsOf(log) == SlotsOf(log') && forall s :: s in log && n <= s ==> log[s].state.NoOp?
    ensures forall s :: s in log' && n <= s ==> log'[s].state.NoOp?
    ensures forall s :: s in log <==> s in log'
  {
    forall s | s in log' ensures s in log && log'[s].state == log[s].state {
      SameState(log', log, s);
    }
    forall s | s in log ensures s in log' {
      SameState(log, log', s);
    }
  }

  lemma NoneCarried(log: map<nat, Entry>, t: nat, n: nat, k: Key)
    requires forall s :: s in log && t <= s ==> log[s].state.NoOp?
    ensures !CarriedIn(SlotsOf(log), t, n, k)
  {
  }

  /** Back to slot 2 once more, this time by the entry of slot 1: its index is the
      right one, and the request that is in no slot any longer keeps it too. */
  method RewindAgain(e: Executor)
    requires ClosedUp(e)
    modifies e
    ensures e.Valid() && e.nextExpected == 2 && e.nextLogIndex == 1 && SecondHasOne(e.dedup) && !Sane(e.Contents())
  {
    hide LogShape, Holds, Bytes, Undone, SecondHasOne, SlotsOf, CarriedIn, Executor.ExactFrom, Executor.CountsFrom;
    ghost var d, n := e.dedup, e.nextExpected;
    var back := e.RewindTo(2);
    SlotsNoOp(old(e.log), e.log, 2);
    NoneCarried(e.log, 2, n, Key(1, 2));
    StaysGiven(d, e.dedup, SlotsOf(e.log), 2, n, e.nextLogIndex);
    NotSane(e.Contents());
  }

  lemma SlotsNoOp(log: map<nat, Entry>, log': map<nat, Entry>, n: nat)
    requires SlotsOf(log) == SlotsOf(log') && forall s :: s in log && n <= s ==> log[s].state.NoOp?
    ensures forall s :: s in log' && n <= s ==> log'[s].state.NoOp?
  {
    NoOpsStay(log, log', n);
  }

  lemma NotSane(x: Exec)
    requires SecondHasOne(x.dedup) && x.nextIndex == 1
    ensures !Sane(x)
  {
  }

  const TWO_REQUESTS := [Request(9, 77, []), Request(1, 2, [])]

  lemma BothGetOne(x: Exec, view: nat)
    requires SecondHasOne(x.dedup) && x.nextIndex == 1
    ensures Answers(TWO_REQUESTS, 2, ApplyAll(x, TWO_REQUESTS).dedup, view) == [Reply(9, 77, 2, 1, view), Reply(1, 2, 2, 1, view)]
  {
    var qs := TWO_REQUESTS;
    assert qs[..1] == [qs[0]] && qs[..1][..0] == [];
    assert ApplyAll(x, qs[..1]) == ApplyRequest(x, qs[0]);
    assert ApplyAll(x, qs) == ApplyRequest(ApplyRequest(x, qs[0]), qs[1]);
    var d := ApplyAll(x, qs).dedup;
    assert Answers(qs[..1], 2, d, view) == [Reply(9, 77, 2, 1, view)];
  }

  /** A bus then carries that request next to a new one: both are told index 1,
      by one replica in one view. */
  method ToldTwice(fold: Fold, retainBytes: nat) returns (e: Executor)
    ensures e.Valid() && |e.pendingReplies| >= 2
    ensures e.pendingReplies[|e.pendingReplies| - 2..] == [Reply(9, 77, 2, 1, e.view), Reply(1, 2, 2, 1, e.view)]
  {
    hide Executor.Structure, SecondHasOne, Astray, ClosedUp, Sane;
    e := StaleRing(fold, retainBytes);
    CloseUp(e);
    RewindAgain(e);
    OneBusMore(e);
  }

  method OneBusMore(e: Executor)
    requires e.Valid() && e.nextExpected == 2 && e.nextLogIndex == 1 && SecondHasOne(e.dedup)
    modifies e, e.hashRing, e.logIdxRing
    ensures e.Valid() && e.view == old(e.view)
    ensures e.pendingReplies == old(e.pendingReplies) + [Reply(9, 77, 2, 1, e.view), Reply(1, 2, 2, 1, e.view)]
  {
    hide Executor.Structure, Executor.ExactFrom, Executor.CountsFrom;
    e.ClearSlotRange(2, 0, false);
    var stored := e.RecordBusReceived(2, 9, 9, TWO_REQUESTS);
    AnswerBoth(e);
  }

  method AnswerBoth(e: Executor)
    requires e.Valid() && e.nextExpected == 2 && e.nextLogIndex == 1 && SecondHasOne(e.dedup)
    requires 2 in e.log && e.log[2].state.Received? && e.log[2].requests == TWO_REQUESTS
    modifies e, e.hashRing, e.logIdxRing
    ensures e.Valid() && e.view == old(e.view)
    ensures e.pendingReplies == old(e.pendingReplies) + [Reply(9, 77, 2, 1, e.view), Reply(1, 2, 2, 1, e.view)]
  {
    hide Executor.Structure, Executor.ExactFrom, Executor.CountsFrom, ApplyAll, Answers, SecondHasOne, SlotsOf, NoneForgotten;
    ghost var x := e.Contents();
    BothGetOne(x, e.view);
    Applied(e.fold, x, 2, Content(e.log[2]));
    var advanced := e.AdvanceOne();
  }

  lemma Applied(fold: Fold, x: Exec, s: nat, c: Slot)
    ensures ApplySlot(fold, x, s, c).dedup == ApplyAll(x, RequestsOf(c)).dedup
  {
  }
}
