/** pruneCommittedLocked as a whole: the log and the record of slot owners are
    pruned together, at one boundary. */
module Pruning {
  import opened Executor
  import opened ReplicaIndex
  import opened Arrivals
  import opened MergeCursor

  /** One replica's log and index, pruned up to the same slot. */
  ghost predicate Together(e: Executor, index: ScheduleIndex)
    reads e, index
  {
    e.Valid() && index.Indexed() && index.CursorOk() && index.prunedBelow == e.prunedBelow
  }

  method PruneCommitted(e: Executor, index: ScheduleIndex)
    requires Together(e, index)
    modifies e`log, e`dedup, e`residentBytes, e`prunedBelow, index`slotMeta, index`prunedBelow
    ensures Together(e, index) && (old(e.Exact()) ==> e.Exact()) && (old(e.Counts()) ==> e.Counts())
    ensures old(e.prunedBelow) <= e.prunedBelow <= e.nextExpected
    ensures forall s :: s in index.slotMeta <==> s in old(index.slotMeta) && !(old(e.prunedBelow) <= s < e.prunedBelow)
    ensures forall s :: s in e.log <==> s in old(e.log) && !(old(e.prunedBelow) <= s < e.prunedBelow)
  {
    hide Executor.Structure, Executor.ExactFrom, Executor.CountsFrom;
    hide ScheduleIndex.Indexed, ScheduleIndex.CursorOk;
    e.PruneCommitted();
    e.Frontier();
    index.PruneMeta(e.prunedBelow);
  }

  /** So the owner of a slot that the log retains can still be told. */
  method OwnerOfRetained(e: Executor, index: ScheduleIndex, slot: nat) returns (known: bool, meta: SlotMeta)
    requires Together(e, index) && e.prunedBelow <= slot
    modifies index`cursorNextN, index`cursorSlot, index`slotMeta
    ensures Together(e, index)
    ensures known <==> slot < |ArrivalsOf(index.schedule)|
    ensures known ==> Owns(index.schedule, meta, slot)
  {
    hide Executor.Structure, ScheduleIndex.Indexed, ScheduleIndex.CursorOk;
    known, meta := index.SlotOwner(slot);
  }
}
