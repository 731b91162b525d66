/** The sections of a replica that touch its log, on the executor itself: each is
    one act of a view, or one change between views, so that what the replica has
    done so far is always a life in which every index was given once. */
module ReplicaSections {
  import opened Schedule
  import opened ReplicaSpec
  import opened Replay
  import opened ExecutorSpec
  import opened LogIndexes
  import opened Executor
  import opened LeaderView
  import opened ReplicaLife

  /** An executor and what it has shown so far. The methods are the sections of
      the replica that touch its log. */
  class ReplicaLog {
    const e: Executor
    var mark: nat         // replies queued before the view began
    ghost var life: seq<Leader>

    /** What the executor shows; `closed` is what was closed since the view was installed. */
    ghost function Shown(closed: set<nat>): Leader
      reads this`mark, e
      requires mark <= |e.pendingReplies|
    {
      Leader(e.view, SlotsOf(e.log), e.executed, e.Contents(), Elements(e.pendingReplies[mark..]), closed)
    }

    ghost function Last(): Leader
      reads this`life
      requires |life| > 0
    {
      life[|life| - 1]
    }

    ghost predicate Follows()
      reads this, e
    {
      && |life| > 0 && IsRightLife(e.fold, life) && InPlace(life[0]) && mark <= |e.pendingReplies|
      && Last() == Shown(Last().closed)
    }

    ghost predicate Valid()
      reads this, e, e.hashRing, e.logIdxRing
    {
      e.Valid() && e.Counts() && Follows()
    }

    /** A replica may begin with any executor whose indexes are right, such as a
        new one, or one that holds the replay. */
    constructor (e: Executor)
      requires e.Valid() && e.Counts()
      ensures Valid() && this.e == e && mark == |e.pendingReplies| && life == [Shown({})]
    {
      this.e := e;
      mark := |e.pendingReplies|;
      new;
      assert e.pendingReplies[mark..] == [] && Elements([]) == {};
      life := [Shown({})];
    }

    /** Whatever was done, no two replies of a view gave one index to different
        requests, and each gave the request's position in what was executed. */
    lemma OneRequestPerIndex(j: nat, k: nat, r: Reply, o: Reply)
      requires Valid() && j < |life| && k < |life| && life[j].view == life[k].view
      requires r in life[j].sent && o in life[k].sent && r.logIndex == o.logIndex
      ensures KeyOfReply(r) == KeyOfReply(o)
      ensures Placed(life[j].executed, KeyOfReply(r), r.logIndex)
    {
      hide IsLife, IsRightLife, Unique, Placed;
      RightIsSafe(e.fold, life);
      PlacedUnique(life[0]);
      LifeOneRequest(e.fold, life, j, k, r, o);
      LifeInPlace(e.fold, life, j);
    }

    static lemma LifeGrows(fold: Fold, life: seq<Leader>, l: Leader)
      requires IsRightLife(fold, life) && GoesRight(fold, life[|life| - 1], l)
      ensures IsRightLife(fold, life + [l])
    {
      hide GoesRight;
      var more := life + [l];
      forall i | 0 <= i < |more| - 1 ensures GoesRight(fold, more[i], more[i + 1]) {
        if i < |life| - 1 {
          assert GoesRight(fold, life[i], life[i + 1]);
        }
      }
    }

    /** The view has gone on by one act. */
    ghost predicate Moved(was: seq<Leader>, act: Act)
      reads this`life, e
    {
      && |was| > 0 && |life| == |was| + 1 && life[..|was|] == was
      && Takes(e.fold, was[|was| - 1], life[|was|], act)
    }

    /** The replica has changed otherwise. */
    ghost predicate Changed(was: seq<Leader>, c: Change)
      reads this`life
    {
      && |was| > 0 && |life| == |was| + 1 && life[..|was|] == was
      && Changes(was[|was| - 1], life[|was|], c)
    }

    /** The executor has moved: the life records where to. */
    ghost method Note(act: Act, closed: set<nat>)
      requires |life| > 0 && IsRightLife(e.fold, life) && InPlace(life[0]) && mark <= |e.pendingReplies|
      requires Takes(e.fold, Last(), Shown(closed), act)
      modifies this`life
      ensures Follows() && life == old(life) + [Shown(closed)] && Moved(old(life), act)
    {
      hide IsRightLife, InPlace, Takes;
      assert Steps(e.fold, Last(), Shown(closed));
      LifeGrows(e.fold, life, Shown(closed));
      life := life + [Shown(closed)];
    }

    static lemma ChangeGoes(fold: Fold, l: Leader, l': Leader, c: Change)
      requires Changes(l, l', c) && (c.Rewind? ==> Safe(l, l'.x.nextIndex, c.target) && ReadsRight(l, l', c.target))
      ensures GoesRight(fold, l, l')
    {
    }

    ghost method NoteChange(c: Change)
      requires |life| > 0 && IsRightLife(e.fold, life) && InPlace(life[0]) && mark <= |e.pendingReplies|
      requires Changes(Last(), Shown({}), c)
      requires c.Rewind? ==> Safe(Last(), e.nextLogIndex, c.target) && e.nextLogIndex == IndexAt(Last().executed, c.target)
      modifies this`life
      ensures Follows() && life == old(life) + [Shown({})] && Changed(old(life), c)
    {
      hide IsRightLife, InPlace, Changes, Safe, IndexAt;
      ChangeGoes(e.fold, Last(), Shown({}), c);
      LifeGrows(e.fold, life, Shown({}));
      life := life + [Shown({})];
    }

    /** A new view begins: nothing was answered in it. */
    method EnterView(view: nat)
      requires Valid() && e.view < view
      modifies this`mark, this`life, e`view
      ensures Valid() && (old(e.Exact()) ==> e.Exact()) && e.view == view && Changed(old(life), Enter(view)) && Last().sent == {}
    {
      hide Executor.Structure, Executor.ExactFrom, Executor.CountsFrom, IsRightLife, InPlace;
      e.view := view;
      mark := |e.pendingReplies|;
      assert e.pendingReplies[mark..] == [] && Elements([]) == {};
      NoteChange(Enter(view));
    }

    /** What a view has answered so far allows a rewind that reads this index. */
    ghost predicate NoneAnswered(index: nat)
      reads this`mark, e`pendingReplies
    {
      forall i :: mark <= i < |e.pendingReplies| ==> e.pendingReplies[i].logIndex < index
    }

    /** A rewind that reads the right index, past nothing the view has answered,
        is a change of such a life. */
    method Rewind(target: nat) returns (ok: bool)
      requires Valid() && e.prunedBelow <= target
      modifies this`life, e`log, e`store, e`residentBytes, e`dedup, e`nextExpected, e`prefixHash, e`nextLogIndex, e`executed
      ensures e.Valid() && (ok <==> old(e.nextExpected) <= target || target == 0 || old(e.InRing(target - 1)) || e.prunedBelow < target)
      ensures !ok || old(e.nextExpected) <= target ==> Valid() && life == old(life)
      ensures ok && target < old(e.nextExpected) ==> e.executed == old(e.executed)[..target]
      ensures ok && target < old(e.nextExpected) ==> (e.Counts() <==> target == 0 || !old(e.InRing(target - 1)) || old(e.CellCounts(target)))
      ensures ok && target < old(e.nextExpected) && e.Counts() && NoneAnswered(e.nextLogIndex) ==> Valid() && Changed(old(life), Change.Rewind(target))
    {
      hide Executor.Structure, Executor.ExactFrom, Executor.CountsFrom, IsRightLife, InPlace, Undone, SlotsOf, Retains, Indexed;
      ghost var l, low := Last(), IndexAt(e.executed, e.prunedBelow);
      Begins();
      if target >= e.nextExpected {
        return true;
      }
      ok := e.RewindTo(target);
      if ok && e.Counts() && NoneAnswered(e.nextLogIndex) {
        Reads(l.executed, target);
        RightIsCovered(l, e.prunedBelow, target);
        assert Rewinds(l, Shown({}), target);
        NoteChange(Change.Rewind(target));
      }
    }

    lemma Begins()
      requires Valid()
      ensures InPlace(Last()) && NonePruned(e.dedup, IndexAt(e.executed, e.prunedBelow)) && Retains(SlotsOf(e.log), e.executed, e.prunedBelow)
      ensures e.prunedBelow <= e.nextExpected == |e.executed|
    {
      hide InPlace, IsRightLife, LogShape, Bytes, Placed;
      LifeInPlace(e.fold, life, |life| - 1);
    }

    lemma Reads(was: seq<Slot>, target: nat)
      requires e.Counts() && target <= |was| && e.executed == was[..target]
      ensures e.nextLogIndex == IndexAt(was, target)
    {
    }

    /** Slots that have not executed are dropped, to be fetched again. */
    method DropFrom(from: nat, end: nat, bounded: bool)
      requires Valid() && e.nextExpected <= from
      modifies this`life, e`log, e`residentBytes
      ensures Valid() && (old(e.Exact()) ==> e.Exact()) && Changed(old(life), Drop)
      ensures forall s :: s in e.log <==> s in old(e.log) && (s < from || (bounded && s > end))
    {
      hide Executor.Structure, Executor.ExactFrom, Executor.CountsFrom, IsRightLife, InPlace;
      e.Frontier();
      e.ClearSlotRange(from, end, bounded);
      NoteChange(Drop);
    }

    method ReceiveBus(slot: nat, clientId: u64, busSeq: u64, reqs: seq<Request>) returns (stored: bool)
      requires Valid()
      modifies this`life, e`log, e`residentBytes, e`top
      ensures Valid() && (old(e.Exact()) ==> e.Exact())
      ensures stored <==> !old(Occupied(SlotsOf(e.log), slot))
      ensures Moved(old(life), if stored then Receive(slot, Slot(Received, clientId, busSeq, reqs)) else Wait)
    {
      hide Executor.Structure, Executor.ExactFrom, Executor.CountsFrom, IsRightLife, InPlace;
      ghost var was := SlotsOf(e.log);
      stored := e.RecordBusReceived(slot, clientId, busSeq, reqs);
      ghost var c := Slot(Received, clientId, busSeq, reqs);
      if stored {
        assert SlotsOf(e.log) == was[slot := c];
      }
      Note(if stored then Receive(slot, c) else Wait, Last().closed);
    }

    method ReceiveRequest(slot: nat, clientId: u64, reqId: u64, op: Value) returns (stored: bool)
      requires Valid()
      modifies this`life, e`log, e`residentBytes, e`top
      ensures Valid() && (old(e.Exact()) ==> e.Exact())
      ensures stored <==> !old(Occupied(SlotsOf(e.log), slot))
      ensures Moved(old(life), if stored then Receive(slot, Slot(Received, clientId, reqId, [])) else Wait)
    {
      hide Executor.Structure, Executor.ExactFrom, Executor.CountsFrom, IsRightLife, InPlace;
      ghost var was := SlotsOf(e.log);
      stored := e.RecordReceived(slot, clientId, reqId, op);
      ghost var c := Slot(Received, clientId, reqId, []);
      if stored {
        assert SlotsOf(e.log) == was[slot := c];
      }
      Note(if stored then Receive(slot, c) else Wait, Last().closed);
    }

    /** The end of leaderResolve: nobody has the bus, so its slot is closed. */
    method CloseSlot(slot: nat, owner: (u64, u64)) returns (changed: bool)
      requires Valid()
      modifies this`life, e`log, e`residentBytes, e`top
      ensures Valid() && (old(e.Exact()) ==> e.Exact())
      ensures changed <==> e.nextExpected <= slot && !(slot in old(e.log) && old(e.log)[slot].state.NoOp?)
      ensures Moved(old(life), if changed then Close(slot) else Wait)
    {
      hide Executor.Structure, Executor.ExactFrom, Executor.CountsFrom, IsRightLife, InPlace;
      e.Frontier();
      ghost var was := SlotsOf(e.log);
      changed := e.SetNoOp(slot, owner);
      if changed {
        assert SlotsOf(e.log) == was[slot := Content(e.log[slot])];
      }
      Note(if changed then Close(slot) else Wait, Last().closed + if changed then {slot} else {});
    }

    /** advanceNextExpectedLocked, or advanceNextExpectedThroughLocked with a limit. */
    method Advance(maxSlot: Option<nat>)
      requires Valid()
      modifies this`life, e, e.hashRing, e.logIdxRing
      ensures Valid() && old(e.executed) <= e.executed && |life| == |old(life)| + 2 && old(life) <= life
      ensures (maxSlot.Some? && maxSlot.value < e.nextExpected) || e.nextExpected !in e.log || e.log[e.nextExpected].state.Empty?
      ensures old(e.nextExpected) <= |e.executed| &&
        e.pendingReplies == old(e.pendingReplies) + AnswersFor(e.executed[old(e.nextExpected)..], old(e.nextExpected), life[|old(life)|].x.dedup, e.view)
    {
      hide Executor.Structure, Follows;
      ExecuteFilled(maxSlot);
      PruneOld();
    }

    method ExecuteFilled(maxSlot: Option<nat>)
      requires Valid()
      modifies this`life, e, e.hashRing, e.logIdxRing
      ensures Valid() && old(e.executed) <= e.executed && old(e.nextExpected) <= |e.executed|
      ensures (maxSlot.Some? && maxSlot.value < e.nextExpected) || e.nextExpected !in e.log || e.log[e.nextExpected].state.Empty?
      ensures Moved(old(life), Execute(e.executed[old(e.nextExpected)..])) && life[|old(life)|].x == e.Contents()
      ensures e.pendingReplies == old(e.pendingReplies) + AnswersFor(e.executed[old(e.nextExpected)..], old(e.nextExpected), e.dedup, e.view)
    {
      hide Executor.Structure, Executor.ExactFrom, Executor.CountsFrom, IsRightLife, InPlace, RunFrom, AnswersFor, Elements, Ready;
      e.Frontier();
      ghost var l, n, queued := Last(), e.nextExpected, e.pendingReplies;
      e.AdvanceThrough(maxSlot);
      e.Frontier();
      ghost var slots := e.executed[n..];
      ghost var answers := AnswersFor(slots, n, e.dedup, e.view);
      ExecutedFromLog(slots, n, l.log);
      assert e.pendingReplies[mark..] == queued[mark..] + answers;
      ElementsAppend(queued[mark..], answers);
      assert e.executed == l.executed + slots;
      assert Takes(e.fold, l, Shown(l.closed), Execute(slots));
      Note(Execute(slots), l.closed);
    }

    method PruneOld()
      requires Valid()
      modifies this`life, e`log, e`dedup, e`residentBytes, e`prunedBelow
      ensures Valid() && (old(e.Exact()) ==> e.Exact()) && Moved(old(life), Prune)
      ensures forall s :: e.nextExpected <= s ==> (s in e.log <==> s in old(e.log)) && (s in e.log ==> e.log[s] == old(e.log)[s])
    {
      hide Executor.Structure, Executor.ExactFrom, Executor.CountsFrom, IsRightLife, InPlace;
      ghost var entries, low := e.log, e.prunedBelow;
      e.Frontier();
      e.PruneCommitted();
      FewerSlots(entries, e.log, low, e.prunedBelow);
      Note(Prune, Last().closed);
    }

    static lemma ElementsAppend(a: seq<Reply>, b: seq<Reply>)
      ensures Elements(a + b) == Elements(a) + Elements(b)
    {
    }

    /** What was executed is what the log holds. */
    lemma ExecutedFromLog(slots: seq<Slot>, n: nat, log: map<nat, Slot>)
      requires e.Valid() && n <= |e.executed| && slots == e.executed[n..] && log == SlotsOf(e.log) && e.prunedBelow <= n
      ensures Ready(log, n, slots)
    {
      forall s: nat | n <= s < n + |slots| ensures Occupied(log, s) && log[s] == slots[s - n] {
        assert s in e.log && Content(e.log[s]) == e.executed[s] && slots[s - n] == e.executed[s];
      }
    }

    static lemma FewerSlots(before: map<nat, Entry>, after: map<nat, Entry>, from: nat, end: nat)
      requires forall s :: s in after <==> s in before && !(from <= s < end)
      requires forall s :: s in after ==> after[s] == before[s]
      ensures forall s :: s in SlotsOf(after) ==> s in SlotsOf(before) && SlotsOf(after)[s] == SlotsOf(before)[s]
      ensures forall s :: s in SlotsOf(before) && s !in SlotsOf(after) ==> from <= s < end
    {
    }

    method SetStable(slot: nat)
      requires Valid()
      modifies this`life, e`stable
      ensures Valid() && (old(e.Exact()) ==> e.Exact()) && Moved(old(life), Wait)
    {
      hide Executor.Structure, Executor.ExactFrom, Executor.CountsFrom, IsRightLife, InPlace;
      e.SetStable(slot);
      Note(Wait, Last().closed);
    }

    method ReplayReplies(from: nat, end: nat)
      requires Valid()
      modifies this`life, e`pendingReplies
      ensures Valid() && (old(e.Exact()) ==> e.Exact()) && Moved(old(life), Resend(from, end))
    {
      hide Executor.Structure, Executor.ExactFrom, Executor.CountsFrom, IsRightLife, InPlace, Replayed;
      ghost var queued := e.pendingReplies;
      e.ReplayReplies(from, end);
      assert e.pendingReplies[mark..] == queued[mark..] + Replayed(SlotsOf(e.log), from, end, e.dedup, e.view);
      Note(Resend(from, end), Last().closed);
    }
  }
}
