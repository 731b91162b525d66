/** Three short runs of a replica in which a promise fails: each meets the
    condition of the general theorem it belongs to. */
module ShortCases {
  import opened Schedule
  import opened ReplicaSpec
  import opened Replay
  import opened ExecutorSpec
  import opened LogIndexes
  import opened Executor

  function BusOf(q: Request): Slot {
    Slot(Received, q.clientId, 1, [q])
  }

  /** What executing one request does. */
  ghost predicate Gives(x: Exec, y: Exec, q: Request) {
    && y.nextIndex == x.nextIndex + 1
    && y.dedup == (if KeyOf(q) in x.dedup then x.dedup else x.dedup[KeyOf(q) := x.nextIndex])
    && y.store == (if KeyOf(q) in x.dedup then x.store else x.store[q.clientId := q.op])
  }

  lemma OneRequest(fold: Fold, x: Exec, slot: nat, q: Request)
    ensures Gives(x, ApplySlot(fold, x, slot, BusOf(q)), q)
  {
    assert [q][..0] == [];
    assert ApplyAll(x, []) == x;
  }

  lemma OneAnswer(q: Request, slot: nat, dedup: map<Key, nat>, view: nat)
    ensures KeyOf(q) in dedup ==>
      Answers([q], slot, dedup, view) == [Reply(q.clientId, q.requestId, slot, dedup[KeyOf(q)], view)]
  {
    assert [q][..0] == [];
    assert Answers([], slot, dedup, view) == [];
  }

  /** The next slot gets a bus with one request, which executes. */
  method OneBus(e: Executor, q: Request)
    requires e.Valid() && e.nextExpected !in e.log
    modifies e, e.hashRing, e.logIdxRing
    ensures e.Valid() && e.nextExpected == old(e.nextExpected) + 1 && e.executed == old(e.executed) + [BusOf(q)]
    ensures Gives(old(e.Contents()), e.Contents(), q)
    ensures e.prunedBelow == old(e.prunedBelow) && e.stable == old(e.stable) && e.view == old(e.view)
    ensures e.log.Keys == old(e.log).Keys + {old(e.nextExpected)}
    ensures KeyOf(q) in e.dedup
    ensures e.pendingReplies == old(e.pendingReplies) + [Reply(q.clientId, q.requestId, old(e.nextExpected), e.dedup[KeyOf(q)], e.view)]
    ensures old(e.Counts()) ==> e.Counts()
    ensures old(e.Exact()) ==> (e.Exact() <==>
      NoneForgotten(old(e.At(e.nextExpected)), old(e.At(e.prunedBelow)).nextIndex, [q]))
  {
    hide Executor.Structure, Executor.ExactFrom, Executor.CountsFrom, ApplySlot, NoneForgotten, SlotsOf, Answers;
    e.Frontier();
    var slot := e.nextExpected;
    var stored := e.RecordBusReceived(slot, q.clientId, 1, [q]);
    OneRequest(e.fold, e.Contents(), slot, q);
    var advanced := e.AdvanceOne();
    e.Frontier();
    OneAnswer(q, slot, e.dedup, e.view);
    assert q in [q];
  }

  /** The next slot is closed and executes. */
  method OneNoOp(e: Executor)
    requires e.Valid()
    modifies e, e.hashRing, e.logIdxRing
    ensures e.Valid() && e.nextExpected == old(e.nextExpected) + 1 && e.prunedBelow == old(e.prunedBelow)
    ensures e.dedup == old(e.dedup) && e.nextLogIndex == old(e.nextLogIndex) && e.view == old(e.view) && e.pendingReplies == old(e.pendingReplies)
    ensures e.log.Keys == old(e.log).Keys + {old(e.nextExpected)}
    ensures old(e.Exact()) ==> e.Exact()
  {
    hide Executor.Structure, Executor.ExactFrom, Executor.CountsFrom, SlotsOf;
    e.Frontier();
    var slot := e.nextExpected;
    var closed := e.SetNoOp(slot, (0, 0));
    var advanced := e.AdvanceOne();
    e.Frontier();
  }

  const FIRST := Request(1, 1, [])
  const SECOND := Request(1, 2, [])
  const OTHER := Request(2, 1, [])

  lemma Fresh(e: Executor)
    requires e.Valid() && e.Exact() && e.executed == [] && e.prunedBelow == 0
    ensures e.Contents() == Init(e.seed)
  {
    hide LogShape, Holds, Bytes, LogRecords, RingRecords;
  }

  /** With nothing pruned, nothing can have been forgotten. */
  lemma NothingPruned(e: Executor)
    requires e.Valid() && e.prunedBelow == 0
    ensures forall qs :: NoneForgotten(e.At(e.nextExpected), e.At(e.prunedBelow).nextIndex, qs)
  {
    hide LogShape, Holds, Bytes;
  }

  /** Two buses execute over a log of one retained slot: slot 0 is pruned, since
      nothing is stable. */
  ghost predicate FirstPruned(e: Executor)
    reads e, e.hashRing, e.logIdxRing
  {
    && e.Valid() && e.Exact() && e.nextExpected == 2 && e.prunedBelow == 1 && e.executed == [BusOf(FIRST), BusOf(SECOND)]
    && e.log.Keys == {1} && e.nextLogIndex == 2 && e.pendingReplies == [Reply(1, 1, 0, 0, e.view), Reply(1, 2, 1, 1, e.view)]
  }

  method FirstBus(fold: Fold) returns (e: Executor)
    ensures e.Valid() && e.Exact() && fresh(e) && fresh(e.hashRing) && fresh(e.logIdxRing)
    ensures e.nextExpected == 1 && e.prunedBelow == 0 && e.stable == None && e.retainSlots == 1 && e.retainBytes == 0
    ensures e.executed == [BusOf(FIRST)] && e.log.Keys == {0} && e.nextLogIndex == 1 && e.dedup == map[Key(1, 1) := 0]
    ensures e.pendingReplies == [Reply(1, 1, 0, 0, e.view)]
  {
    hide Executor.Structure, Executor.ExactFrom, Executor.CountsFrom, NoneForgotten, Full;
    e := new Executor(fold, 0, 1, 0);
    e.Frontier();
    Fresh(e);
    NothingPruned(e);
    OneBus(e, FIRST);
  }

  method TwoBuses(fold: Fold) returns (e: Executor)
    ensures e.Valid() && e.Exact() && fresh(e) && fresh(e.hashRing) && fresh(e.logIdxRing)
    ensures e.nextExpected == 2 && e.prunedBelow == 0 && e.stable == None && e.retainSlots == 1 && e.retainBytes == 0
    ensures e.executed == [BusOf(FIRST), BusOf(SECOND)] && e.log.Keys == {0, 1} && e.nextLogIndex == 2
    ensures e.pendingReplies == [Reply(1, 1, 0, 0, e.view), Reply(1, 2, 1, 1, e.view)]
  {
    hide Executor.Structure, Executor.ExactFrom, Executor.CountsFrom, NoneForgotten, Full;
    e := FirstBus(fold);
    e.PruneCommitted();
    assert e.log.Keys == {0};
    NothingPruned(e);
    OneBus(e, SECOND);
  }

  method PruneFirst(fold: Fold) returns (e: Executor)
    ensures FirstPruned(e) && fresh(e) && fresh(e.hashRing) && fresh(e.logIdxRing)
  {
    hide Executor.Structure, Executor.ExactFrom, Executor.CountsFrom;
    e := TwoBuses(fold);
    e.PruneCommitted();
    assert e.log.Keys == {1};
  }

  /** What the two slots come to. */
  lemma Replayed(fold: Fold, seed: u64)
    ensures var slots := [BusOf(FIRST), BusOf(SECOND)];
      && Full(fold, seed, slots, 1).store == map[1 := []] && Full(fold, seed, slots, 1).nextIndex == 1
      && Full(fold, seed, slots, 2).dedup == map[Key(1, 1) := 0, Key(1, 2) := 1]
  {
    var slots := [BusOf(FIRST), BusOf(SECOND)];
    assert slots[..1][..0] == [] && slots[..1] == [BusOf(FIRST)] && slots[..2] == slots;
    OneRequest(fold, Init(seed), 0, FIRST);
    OneRequest(fold, Run(fold, seed, slots[..1]), 1, SECOND);
    assert Run(fold, seed, slots[..1]) == ApplySlot(fold, Init(seed), 0, BusOf(FIRST));
  }

  lemma FirstForgotten(e: Executor)
    requires FirstPruned(e)
    ensures KeyOf(FIRST) !in e.dedup && !NoneForgotten(e.At(2), e.At(1).nextIndex, [FIRST]) && e.At(1).store == map[1 := []]
  {
    hide LogShape, Holds, Bytes, LogRecords, RingRecords, Full;
    Replayed(e.fold, e.seed);
    assert [FIRST][0] == FIRST;
  }

  lemma NothingPlaced(x: Exec)
    requires Indexed(x, [])
    ensures x.dedup == map[] && x.nextIndex == 0
  {
  }

  /** A rewind to 0 past the pruned slot succeeds, and leaves its write behind. */
  method WriteLeftOver(fold: Fold) returns (e: Executor)
    ensures e.nextExpected == 0 && e.nextLogIndex == 0 && e.dedup == map[] && e.store == map[1 := []] && e.At(0).store == map[]
  {
    hide Executor.Structure, Executor.ExactFrom, Executor.CountsFrom, Indexed, Forget, Undone;
    e := PruneFirst(fold);
    FirstForgotten(e);
    e.ExactCounts();
    var ok := e.RewindTo(0);
    NothingPlaced(e.Contents());
  }

  /** The pruned request comes again: it executes again, with a new index, and the
      state is no longer the replay; the indexes still are positions. */
  method CarriedAgain(fold: Fold) returns (e: Executor)
    ensures e.Valid() && !e.Exact() && e.Counts()
    ensures e.pendingReplies == [Reply(1, 1, 0, 0, e.view), Reply(1, 2, 1, 1, e.view), Reply(1, 1, 2, 2, e.view)]
  {
    hide Executor.Structure, Executor.ExactFrom, Executor.CountsFrom, NoneForgotten, Full;
    e := PruneFirst(fold);
    FirstForgotten(e);
    e.ExactCounts();
    OneBus(e, FIRST);
  }

  method OneTakenBack(fold: Fold) returns (e: Executor)
    ensures e.Valid() && e.Exact() && fresh(e) && fresh(e.hashRing) && fresh(e.logIdxRing)
    ensures e.nextExpected == 0 && e.prunedBelow == 0 && e.log.Keys == {0} && e.dedup == map[] && e.nextLogIndex == 0
    ensures e.pendingReplies == [Reply(1, 1, 0, 0, e.view)]
  {
    hide Executor.Structure, Executor.ExactFrom, Executor.CountsFrom, NoneForgotten, Full, Forget, Undone;
    e := FirstBus(fold);
    var back := e.RewindTo(0);
    Fresh(e);
  }

  /** Everything is exact throughout. But the view has answered a slot that it
      then takes back and closes, and the index is given again in the view. */
  method AnsweredTwice(fold: Fold) returns (e: Executor)
    ensures e.Valid() && e.Exact()
    ensures e.pendingReplies == [Reply(1, 1, 0, 0, e.view), Reply(2, 1, 1, 0, e.view)]
  {
    hide Executor.Structure, Executor.ExactFrom, Executor.CountsFrom, NoneForgotten, Full;
    e := OneTakenBack(fold);
    OneNoOp(e);
    NothingPruned(e);
    OneBus(e, OTHER);
  }
}
