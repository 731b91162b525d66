/** Execution, undo, rewind and pruning of the slot log, in place, and their
    agreement with the replay of the executed slots. */
module Executor {
  import opened Schedule
  import opened ReplicaSpec
  import opened Replay
  import opened ExecutorSpec
  import opened LogIndexes

  /** Entries are well formed, only executed ones carry undo lists, and below the
      pruned boundary there is only what arrived again. */
  ghost predicate LogShape(log: map<nat, Entry>, from: nat, n: nat, top: nat) {
    forall s :: s in log ==> s < top && EntryOk(log[s]) && (from <= s < n || log[s].undo == []) && (s < from ==> log[s].state.Received?)
  }

  /** The retained slots hold what was executed in them. */
  ghost predicate Holds(log: map<nat, Entry>, executed: seq<Slot>, from: nat) {
    forall s: nat :: from <= s < |executed| ==> s in log && !log[s].state.Empty? && Content(log[s]) == executed[s]
  }

  /** No slot from `lo` on carries a request that was pruned with the slots below `from`. */
  ghost predicate CarriesNew(fold: Fold, seed: u64, executed: seq<Slot>, from: nat, lo: nat)
    requires from <= |executed|
  {
    forall s: nat :: lo <= s < |executed| ==>
      NoneForgotten(Full(fold, seed, executed, s), Full(fold, seed, executed, from).nextIndex, RequestsOf(executed[s]))
  }

  lemma CarriedBefore(fold: Fold, seed: u64, executed: seq<Slot>, longer: seq<Slot>, from: nat, lo: nat)
    requires from <= |executed| && lo <= |executed| && executed <= longer && |longer| <= |executed| + 1
    ensures CarriesNew(fold, seed, longer, from, lo) ==> CarriesNew(fold, seed, executed, from, lo)
    ensures CarriesNew(fold, seed, longer, from, lo) && |longer| > |executed| ==>
      NoneForgotten(Full(fold, seed, executed, |executed|), Full(fold, seed, executed, from).nextIndex, RequestsOf(longer[|executed|]))
  {
    hide NoneForgotten, Full;
    FullPrefix(fold, seed, executed, longer, from);
    FullPrefix(fold, seed, executed, longer, |executed|);
    forall s: nat | lo <= s < |executed| ensures longer[s] == executed[s] && Full(fold, seed, longer, s) == Full(fold, seed, executed, s) {
      FullPrefix(fold, seed, executed, longer, s);
    }
  }

  /** With less pruned, fewer slots and a later start there is less to go wrong. */
  lemma CarriesNewPart(fold: Fold, seed: u64, longer: seq<Slot>, from: nat, lo: nat, executed: seq<Slot>, less: nat, lo': nat)
    requires executed <= longer && less <= from <= |longer| && less <= |executed| && lo <= lo'
    ensures CarriesNew(fold, seed, longer, from, lo) ==> CarriesNew(fold, seed, executed, less, lo')
  {
    hide Full;
    FullPrefix(fold, seed, executed, longer, less);
    FullLater(fold, seed, longer, less, from);
    forall s: nat | s < |executed| ensures longer[s] == executed[s] && Full(fold, seed, longer, s) == Full(fold, seed, executed, s) {
      FullPrefix(fold, seed, executed, longer, s);
    }
  }

  class Executor {
    const fold: Fold
    const seed: u64
    const retainSlots: nat
    const retainBytes: nat
    const hashRing: array<u64>
    const logIdxRing: array<nat>
    var log: map<nat, Entry>
    var nextExpected: nat
    var prunedBelow: nat
    var stable: Option<nat>
    var dedup: map<Key, nat>
    var store: map<u64, Value>
    var nextLogIndex: nat
    var prefixHash: u64
    var residentBytes: nat
    var view: nat
    var pendingReplies: seq<Reply>
    ghost var executed: seq<Slot>  // what slots 0..nextExpected held when they executed
    ghost var peak: nat            // the highest frontier ever executed
    ghost var top: nat             // above every slot in the log

    ghost predicate Structure(from: nat)
      reads this`log, this`nextExpected, this`residentBytes, this`executed, this`peak, this`top
    {
      && hashRing.Length == logIdxRing.Length == retainSlots + 2
      && from <= nextExpected == |executed| <= peak
      && LogShape(log, from, nextExpected, top) && Holds(log, executed, from)
      && residentBytes == Bytes(log, top)
    }

    ghost predicate Valid()
      reads this
    {
      Structure(prunedBelow)
    }

    ghost function Contents(): Exec
      reads this`store, this`dedup, this`nextLogIndex, this`prefixHash
    {
      Exec(store, dedup, nextLogIndex, prefixHash)
    }

    /** The state after slot t - 1, by replay. */
    ghost function At(t: nat): Exec
      reads this`executed
    {
      Full(fold, seed, executed, t)
    }

    /** The state is the replay of everything executed, with the dedup entries of
        the slots below `from` released, and the records for a rewind are right. */
    ghost predicate ExactFrom(from: nat)
      reads this`store, this`dedup, this`nextLogIndex, this`prefixHash, this`log, this`executed, this`peak, hashRing, logIdxRing
    {
      && Contents() == Forget(At(|executed|), At(from).nextIndex)
      && LogRecords(fold, seed, executed, log, from)
      && RingRecords(fold, seed, executed, hashRing[..], logIdxRing[..], peak)
    }

    ghost predicate Exact()
      reads this, hashRing, logIdxRing
    {
      ExactFrom(prunedBelow)
    }

    /** The log indexes alone are right, those in the records for a rewind too.
        A pruned request that is carried again does no harm to this. */
    ghost predicate CountsFrom(from: nat)
      reads this`store, this`dedup, this`nextLogIndex, this`prefixHash, this`log, this`executed, this`peak, logIdxRing
    {
      && Indexed(Contents(), executed) && NonePruned(dedup, IndexAt(executed, from))
      && LogCounts(executed, log, from) && RingCounts(executed, logIdxRing[..], peak)
    }

    ghost predicate Counts()
      reads this, logIdxRing
    {
      CountsFrom(prunedBelow)
    }

    lemma ExactCounts()
      requires Valid() && Exact()
      ensures Counts()
    {
      hide LogShape, Holds, Bytes;
      LogIndexes.ExactCounts(fold, seed, executed, log, prunedBelow, Contents(), hashRing[..], logIdxRing[..], peak);
    }

    constructor (fold: Fold, seed: u64, retainSlots: nat, retainBytes: nat)
      ensures Valid() && Exact() && Counts() && fresh(hashRing) && fresh(logIdxRing)
      ensures log == map[] && nextExpected == prunedBelow == peak == 0 && executed == [] && residentBytes == 0 && pendingReplies == [] && stable == None
      ensures this.fold == fold && this.seed == seed && this.retainSlots == retainSlots && this.retainBytes == retainBytes
    {
      this.fold, this.seed, this.retainSlots, this.retainBytes := fold, seed, retainSlots, retainBytes;
      hashRing, logIdxRing := new u64[retainSlots + 2](_ => 0), new nat[retainSlots + 2](_ => 0);
      log, nextExpected, prunedBelow, stable := map[], 0, 0, None;
      dedup, store, nextLogIndex, prefixHash := map[], map[], 0, seed;
      residentBytes, view, pendingReplies := 0, 0, [];
      executed, peak, top := [], 0, 0;
    }

    // ----------------------------------------------------------- recording

    /** The size of one entry changes: so does the sum. */
    static lemma EntryBytes(log: map<nat, Entry>, s: nat, e: Entry, top: nat, top': nat)
      requires (forall t :: t in log ==> t < top) && top <= top' && s < top'
      ensures Bytes(log[s := e], top') == Bytes(log, top) + e.sizeBytes - SizeAt(log, s)
      ensures SizeAt(log, s) <= Bytes(log, top)
    {
      BytesBeyond(log, top, top');
      BytesChange(log, log[s := e], s, top');
      if s in log {
        BytesAtLeast(log, s, top);
      }
    }

    static lemma DroppedBytes(log: map<nat, Entry>, s: nat, top: nat)
      requires s in log && s < top
      ensures Bytes(log - {s}, top) == Bytes(log, top) - log[s].sizeBytes
      ensures log[s].sizeBytes <= Bytes(log, top)
    {
      BytesChange(log, log - {s}, s, top);
      BytesAtLeast(log, s, top);
    }

    /** claimSlotLocked and the assignment of its callers: an empty slot is
        filled, a filled one is left alone. */
    method Record(slot: nat, e: Entry) returns (stored: bool)
      requires Valid() && e.state.Received? && EntryOk(e) && e.undo == []
      modifies this`log, this`residentBytes, this`top
      ensures Valid() && (old(Exact()) ==> Exact()) && (old(Counts()) ==> Counts())
      ensures stored <==> !(slot in old(log) && !old(log)[slot].state.Empty?)
      ensures log == (if stored then old(log)[slot := e] else old(log))
      ensures residentBytes == old(residentBytes) + if stored then e.sizeBytes else 0
    {
      hide Bytes, Full, LogRecords, RingRecords, Forget, LogShape, Holds, EntryOk, Indexed, LogCounts, RingCounts;
      if slot in log && !log[slot].state.Empty? {
        return false;
      }
      ghost var top' := if slot < top then top else slot + 1;
      NotExecuted(log, executed, prunedBelow, slot);
      EntrySet(log, executed, prunedBelow, top, slot, e, top');
      EntryBytes(log, slot, e, top, top');
      SizeOfEmpty(log, slot);
      SetFrame(fold, seed, executed, log, prunedBelow, slot, e);
      log := log[slot := e];
      residentBytes := residentBytes + e.sizeBytes;
      top := top';
      return true;
    }

    /** An entry that has not executed is replaced: the executed ones stay. */
    static lemma EntrySet(log: map<nat, Entry>, executed: seq<Slot>, from: nat, top: nat, s: nat, e: Entry, top': nat)
      requires LogShape(log, from, |executed|, top) && Holds(log, executed, from) && !(from <= s < |executed|)
      requires EntryOk(e) && e.undo == [] && (s < from ==> e.state.Received?) && top <= top' && s < top'
      ensures LogShape(log[s := e], from, |executed|, top') && Holds(log[s := e], executed, from)
      ensures (forall t :: t in log ==> t < top) && (s in log ==> EntryOk(log[s]))
    {
    }

    static lemma SetFrame(fold: Fold, seed: u64, executed: seq<Slot>, log: map<nat, Entry>, from: nat, s: nat, e: Entry)
      requires !(from <= s < |executed|)
      ensures LogRecords(fold, seed, executed, log, from) ==> LogRecords(fold, seed, executed, log[s := e], from)
      ensures LogCounts(executed, log, from) ==> LogCounts(executed, log[s := e], from)
    {
    }

    static lemma DropFrame(fold: Fold, seed: u64, executed: seq<Slot>, log: map<nat, Entry>, log': map<nat, Entry>, from: nat)
      requires forall s :: s in log' ==> s in log && log'[s] == log[s]
      ensures LogRecords(fold, seed, executed, log, from) ==> LogRecords(fold, seed, executed, log', from)
      ensures LogCounts(executed, log, from) ==> LogCounts(executed, log', from)
    {
    }

    static lemma NotExecuted(log: map<nat, Entry>, executed: seq<Slot>, from: nat, s: nat)
      requires Holds(log, executed, from)
      ensures !(s in log && !log[s].state.Empty?) ==> !(from <= s < |executed|)
    {
    }

    static lemma SizeOfEmpty(log: map<nat, Entry>, s: nat)
      requires s in log ==> EntryOk(log[s]) && log[s].state.Empty?
      ensures SizeAt(log, s) == 0
    {
    }

    method ReleaseBytes(size: nat)
      modifies this`residentBytes
      ensures residentBytes == if size > old(residentBytes) then 0 else old(residentBytes) - size
    {
      if size > residentBytes {
        residentBytes := 0;
      } else {
        residentBytes := residentBytes - size;
      }
    }

    method RecordBusReceived(slot: nat, clientId: u64, busSeq: u64, reqs: seq<Request>) returns (stored: bool)
      requires Valid()
      modifies this`log, this`residentBytes, this`top
      ensures Valid() && (old(Exact()) ==> Exact()) && (old(Counts()) ==> Counts())
      ensures stored <==> !(slot in old(log) && !old(log)[slot].state.Empty?)
      ensures stored ==> slot in log && Content(log[slot]) == Slot(Received, clientId, busSeq, reqs)
      ensures residentBytes == old(residentBytes) + if stored then BusBytes(reqs) else 0
      ensures log.Keys == old(log).Keys + (if stored then {slot} else {})
      ensures forall s :: s in old(log) && !(stored && s == slot) ==> log[s] == old(log)[s]
    {
      var sz := BusSize(reqs);
      var e := Entry(clientId, busSeq, Received, [], reqs, true, true, 0, 0, 0, 0, [], sz);
      stored := Record(slot, e);
    }

    static method BusSize(reqs: seq<Request>) returns (n: nat)
      ensures n == BusBytes(reqs)
    {
      n := |reqs| * REQUEST_OVERHEAD;
      for i := 0 to |reqs|
        invariant n == BusBytes(reqs[..i]) + (|reqs| - i) * REQUEST_OVERHEAD
      {
        assert reqs[..i + 1][..i] == reqs[..i];
        n := n + |reqs[i].op|;
      }
      assert reqs[..|reqs|] == reqs;
    }

    method RecordReceived(slot: nat, clientId: u64, reqId: u64, op: Value) returns (stored: bool)
      requires Valid()
      modifies this`log, this`residentBytes, this`top
      ensures Valid() && (old(Exact()) ==> Exact()) && (old(Counts()) ==> Counts())
      ensures stored <==> !(slot in old(log) && !old(log)[slot].state.Empty?)
      ensures stored ==> slot in log && Content(log[slot]) == Slot(Received, clientId, reqId, []) && log[slot].op == op
      ensures residentBytes == old(residentBytes) + if stored then |op| + 48 else 0
      ensures log.Keys == old(log).Keys + (if stored then {slot} else {})
      ensures forall s :: s in old(log) && !(stored && s == slot) ==> log[s] == old(log)[s]
    {
      var e := Entry(clientId, reqId, Received, op, [], false, true, 0, 0, 0, 0, [], |op| + REQUEST_OVERHEAD);
      stored := Record(slot, e);
    }

    /** setNoOpLocked: an agreed no-op may replace a bus, but not once it executed.
        `owner` is the slot's owner according to the schedule. */
    method SetNoOp(slot: nat, owner: (u64, u64)) returns (changed: bool)
      requires Valid()
      modifies this`log, this`residentBytes, this`top
      ensures Valid() && (old(Exact()) ==> Exact()) && (old(Counts()) ==> Counts())
      ensures changed <==> nextExpected <= slot && !(slot in old(log) && old(log)[slot].state.NoOp?)
      ensures changed ==> slot in log && log[slot].state.NoOp? && log == old(log)[slot := log[slot]]
      ensures changed ==> log[slot].ownerSet && log[slot].requests == [] && log[slot].sizeBytes == 0
      ensures changed ==> var o := if slot in old(log) && old(log)[slot].ownerSet then (old(log)[slot].clientId, old(log)[slot].reqId) else owner;
        log[slot].clientId == o.0 && log[slot].reqId == o.1
      ensures !changed ==> log == old(log)
    {
      hide Bytes, Full, LogRecords, RingRecords, Forget, EntryOk, LogShape, Holds, Indexed, LogCounts, RingCounts;
      if slot < nextExpected {
        return false;
      }
      var e := if slot in log then log[slot] else EMPTY_ENTRY;
      if slot in log { EntryAt(log, prunedBelow, nextExpected, top, slot); }
      if e.state.NoOp? {
        return false;
      }
      if !e.ownerSet {
        e := e.(clientId := owner.0, reqId := owner.1, ownerSet := true);
      }
      ghost var top' := if slot < top then top else slot + 1;
      e := e.(state := NoOp, op := [], requests := [], isBus := false);
      var size := e.sizeBytes;
      e := e.(sizeBytes := 0);
      NoOpOk(e);
      EntrySet(log, executed, prunedBelow, top, slot, e, top');
      EntryBytes(log, slot, e, top, top');
      SetFrame(fold, seed, executed, log, prunedBelow, slot, e);
      ReleaseBytes(size);
      log := log[slot := e];
      top := top';
      return true;
    }

    static lemma NoOpOk(e: Entry)
      requires e.state.NoOp? && e.ownerSet && e.requests == [] && e.undo == [] && !e.isBus && e.sizeBytes == 0
      ensures EntryOk(e)
    {
    }

    /** clearSlotRangeLocked, above everything executed. */
    method ClearSlotRange(from: nat, to: nat, bounded: bool)
      requires Valid() && nextExpected <= from
      modifies this`log, this`residentBytes
      ensures Valid() && (old(Exact()) ==> Exact()) && (old(Counts()) ==> Counts())
      ensures forall s :: s in log <==> s in old(log) && (s < from || (bounded && s > to))
      ensures forall s :: s in log ==> log[s] == old(log)[s]
    {
      hide Bytes, Full, LogRecords, RingRecords, Forget, EntryOk, Indexed, LogCounts, RingCounts;
      var rest := log.Keys;
      while rest != {}
        invariant rest <= log.Keys && log.Keys <= old(log).Keys
        invariant LogShape(log, prunedBelow, nextExpected, top) && residentBytes == Bytes(log, top)
        invariant forall s :: s in log ==> log[s] == old(log)[s]
        invariant forall s :: s in old(log) && (s < from || (bounded && s > to)) ==> s in log
        invariant forall s :: s in log && s !in rest ==> s < from || (bounded && s > to)
      {
        var slot: nat :| slot in rest;
        rest := rest - {slot};
        if !(slot < from || (bounded && slot > to)) {
          DroppedBytes(log, slot, top);
          ReleaseBytes(log[slot].sizeBytes);
          log := log - {slot};
        }
      }
      DropFrame(fold, seed, executed, old(log), log, prunedBelow);
    }

    /** Drops the no-ops from `from` on that are not in `keep`; none has executed. */
    method ClearStrayNoOps(from: nat, keep: set<nat>)
      requires Valid()
      requires forall s :: s in log && from <= s && log[s].state.NoOp? && s !in keep ==> nextExpected <= s
      modifies this`log, this`residentBytes
      ensures Valid() && (old(Exact()) ==> Exact()) && (old(Counts()) ==> Counts())
      ensures forall s :: s in log <==> s in old(log) && !(from <= s && old(log)[s].state.NoOp? && s !in keep)
      ensures forall s :: s in log ==> log[s] == old(log)[s]
    {
      hide Bytes, Full, LogRecords, RingRecords, Forget, EntryOk, Indexed, LogCounts, RingCounts;
      var rest := log.Keys;
      while rest != {}
        invariant rest <= log.Keys && log.Keys <= old(log).Keys
        invariant LogShape(log, prunedBelow, nextExpected, top) && residentBytes == Bytes(log, top)
        invariant forall s :: s in log ==> log[s] == old(log)[s]
        invariant forall s :: s in old(log) && !(from <= s && old(log)[s].state.NoOp? && s !in keep) ==> s in log
        invariant forall s :: s in log && s !in rest ==> !(from <= s && log[s].state.NoOp? && s !in keep)
      {
        var slot: nat :| slot in rest;
        rest := rest - {slot};
        if !(slot < from || !log[slot].state.NoOp?) {
          if slot !in keep {
            DroppedBytes(log, slot, top);
            ReleaseBytes(log[slot].sizeBytes);
            log := log - {slot};
          }
        }
      }
      DropFrame(fold, seed, executed, old(log), log, prunedBelow);
    }

    /** setStableLocked. */
    method SetStable(slot: nat)
      requires Valid()
      modifies this`stable
      ensures Valid() && (old(Exact()) ==> Exact()) && (old(Counts()) ==> Counts())
      ensures stable == if 0 < nextExpected && (old(stable).None? || (if slot < nextExpected then slot else nextExpected - 1) > old(stable).value)
        then Some(if slot < nextExpected then slot else nextExpected - 1) else old(stable)
    {
      hide Structure, ExactFrom, CountsFrom;
      if nextExpected == 0 {
        return;
      }
      var s := slot;
      var top := nextExpected - 1;
      if s > top {
        s := top;
      }
      if stable.None? || s > stable.value {
        stable := Some(s);
      }
    }

    // ----------------------------------------------------------- executing

    method RememberWrite(e: Entry, key: u64) returns (e': Entry)
      requires EntryOk(e) && e.state.Received?
      modifies this`residentBytes
      ensures e'.undo == if HasKey(e.undo, key) then e.undo
        else e.undo + [WriteUndo(key, if key in store then store[key] else [], key in store)]
      ensures e' == e.(undo := e'.undo, sizeBytes := e'.sizeBytes) && EntryOk(e')
      ensures e'.sizeBytes - e.sizeBytes == residentBytes - old(residentBytes)
    {
      hide BusBytes;
      e' := e;
      for i := 0 to |e.undo|
        invariant forall j :: 0 <= j < i ==> e.undo[j].key != key
      {
        if e.undo[i].key == key {
          return;
        }
      }
      var present := key in store;
      var u := WriteUndo(key, if present then store[key] else [], present);
      var size := UNDO_OVERHEAD + |u.value|;
      assert (e.undo + [u])[..|e.undo|] == e.undo;
      e' := e.(undo := e.undo + [u], sizeBytes := e.sizeBytes + size);
      residentBytes := residentBytes + size;
    }

    /** One turn of appendBusToLogListLocked's loop. */
    method AppendRequest(slot: nat, e: Entry, q: Request, ghost before: map<u64, Value>) returns (e': Entry)
      requires EntryOk(e) && e.state.Received? && UndoOk(e.undo, before, store)
      modifies this`residentBytes, this`nextLogIndex, this`dedup, this`store, this`pendingReplies
      ensures Contents() == ApplyRequest(old(Contents()), q)
      ensures e' == e.(undo := e'.undo, sizeBytes := e'.sizeBytes) && EntryOk(e') && UndoOk(e'.undo, before, store)
      ensures e'.sizeBytes - e.sizeBytes == residentBytes - old(residentBytes)
      ensures KeyOf(q) in dedup
      ensures pendingReplies == old(pendingReplies) + [Reply(q.clientId, q.requestId, slot, dedup[KeyOf(q)], view)]
    {
      hide UndoOk, HasKey, PayloadBytes, UndoBytes;
      e' := e;
      var key := KeyOf(q);
      var li := nextLogIndex;
      nextLogIndex := nextLogIndex + 1;
      var execIdx := if key in dedup then dedup[key] else li;
      if key !in dedup {
        dedup := dedup[key := li];
        e' := RememberWrite(e', q.clientId);
        UndoExtends(e.undo, before, store, q.clientId, q.op, e'.undo);
        store := store[q.clientId := q.op];
      }
      pendingReplies := pendingReplies + [Reply(q.clientId, q.requestId, slot, execIdx, view)];
    }

    /** Every request is answered with the index of its first occurrence. */
    ghost predicate Answered(qs: seq<Request>, slot: nat, earlier: seq<Reply>)
      reads this`dedup, this`pendingReplies, this`view
    {
      pendingReplies == earlier + Answers(qs, slot, dedup, view) && forall q :: q in qs ==> KeyOf(q) in dedup
    }

    static lemma KeysStay(x: Exec, q: Request)
      ensures forall k :: k in x.dedup ==> k in ApplyRequest(x, q).dedup && ApplyRequest(x, q).dedup[k] == x.dedup[k]
    {
    }

    method AppendRequests(slot: nat, entry: Entry, qs: seq<Request>) returns (e: Entry)
      requires EntryOk(entry) && entry.state.Received? && entry.undo == []
      modifies this`residentBytes, this`nextLogIndex, this`dedup, this`store, this`pendingReplies
      ensures Contents() == ApplyAll(old(Contents()), qs)
      ensures e == entry.(undo := e.undo, sizeBytes := e.sizeBytes) && EntryOk(e) && UndoOk(e.undo, old(store), store)
      ensures residentBytes - old(residentBytes) == e.sizeBytes - entry.sizeBytes
      ensures Answered(qs, slot, old(pendingReplies))
    {
      e := entry;
      UndoNothing(store);
      hide ApplyRequest, UndoOk, EntryOk;
      for i := 0 to |qs|
        invariant Contents() == ApplyAll(old(Contents()), qs[..i])
        invariant e == entry.(undo := e.undo, sizeBytes := e.sizeBytes) && EntryOk(e) && UndoOk(e.undo, old(store), store)
        invariant residentBytes - old(residentBytes) == e.sizeBytes - entry.sizeBytes
        invariant Answered(qs[..i], slot, old(pendingReplies))
      {
        assert qs[..i + 1][..i] == qs[..i];
        KeysStay(Contents(), qs[i]);
        AnswersStay(qs[..i], slot, dedup, ApplyRequest(Contents(), qs[i]).dedup, view);
        e := AppendRequest(slot, e, qs[i], old(store));
      }
      assert qs[..|qs|] == qs;
    }

    /** appendBusToLogListLocked. */
    method AppendBus(slot: nat)
      requires slot in log && EntryOk(log[slot]) && !log[slot].state.Empty? && log[slot].undo == []
      modifies this`log, this`residentBytes, this`nextLogIndex, this`dedup, this`store, this`pendingReplies
      ensures Contents() == ApplyAll(old(Contents()), RequestsOf(Content(old(log)[slot])))
      ensures slot in log && log == old(log)[slot := log[slot]]
      ensures EntryOk(log[slot]) && Content(log[slot]) == Content(old(log)[slot]) && UndoOk(log[slot].undo, old(store), store)
      ensures log[slot].state.Received? ==> log[slot].logIdxLo == old(nextLogIndex) && log[slot].logIdxHi == nextLogIndex
      ensures residentBytes - old(residentBytes) == log[slot].sizeBytes - old(log)[slot].sizeBytes
      ensures Answered(RequestsOf(Content(old(log)[slot])), slot, old(pendingReplies))
    {
      hide ApplyRequest, UndoOk, BusBytes, UndoBytes, HasKey;
      var e := log[slot];
      if e.state.NoOp? {
        NoWrites(store);
        return;
      }
      e := e.(logIdxLo := nextLogIndex);
      e := AppendRequests(slot, e, e.requests);
      e := e.(logIdxHi := nextLogIndex);
      log := log[slot := e];
    }

    static lemma NoWrites(store: map<u64, Value>)
      ensures UndoOk([], store, store)
    {
    }

    /** foldExecutedLocked, for an entry that has its owner; all do by then. */
    method FoldExecuted(slot: nat)
      requires slot in log && hashRing.Length == logIdxRing.Length > 0
      modifies this`prefixHash, this`log, hashRing, logIdxRing
      ensures var e := old(log)[slot]; prefixHash == fold(old(prefixHash), slot, e.state, e.clientId, e.reqId)
      ensures log == old(log)[slot := old(log)[slot].(prefixHash := prefixHash, logIndexAfter := nextLogIndex)]
      ensures hashRing[..] == old(hashRing[..])[slot % hashRing.Length := prefixHash]
      ensures logIdxRing[..] == old(logIdxRing[..])[slot % hashRing.Length := nextLogIndex]
    {
      var e := log[slot];
      prefixHash := fold(prefixHash, slot, e.state, e.clientId, e.reqId);
      log := log[slot := e.(prefixHash := prefixHash, logIndexAfter := nextLogIndex)];
      var i := slot % hashRing.Length;
      hashRing[i] := prefixHash;
      logIdxRing[i] := nextLogIndex;
    }

    static lemma EntryAt(log: map<nat, Entry>, from: nat, n: nat, top: nat, s: nat)
      requires LogShape(log, from, n, top) && s in log
      ensures EntryOk(log[s]) && s < top && (!(from <= s < n) ==> log[s].undo == [])
    {
    }

    static lemma RecordedOk(e: Entry, h: u64, i: nat)
      requires EntryOk(e)
      ensures EntryOk(e.(prefixHash := h, logIndexAfter := i))
    {
    }

    static lemma ShapeAdvances(log: map<nat, Entry>, executed: seq<Slot>, from: nat, top: nat, e: Entry, c: Slot)
      requires var n := |executed|; from <= n && LogShape(log, from, n, top) && Holds(log, executed, from) && n in log
      requires EntryOk(e) && Content(e) == c && !c.state.Empty?
      ensures var log' := log[|executed| := e];
        && LogShape(log', from, |executed| + 1, top) && Holds(log', executed + [c], from)
        && Bytes(log', top) == Bytes(log, top) + e.sizeBytes - log[|executed|].sizeBytes
    {
      hide EntryOk, Bytes;
      EntryBytes(log, |executed|, e, top, top);
    }

    static lemma ExactAdvances(fold: Fold, seed: u64, executed: seq<Slot>, log: map<nat, Entry>, from: nat, x: Exec,
        hashes: seq<u64>, indexes: seq<nat>, peak: nat, c: Slot, e: Entry, x': Exec, peak': nat)
      requires from <= |executed| && x == Forget(Full(fold, seed, executed, |executed|), Full(fold, seed, executed, from).nextIndex)
      requires LogRecords(fold, seed, executed, log, from) && RingRecords(fold, seed, executed, hashes, indexes, peak)
      requires x' == ApplySlot(fold, x, |executed|, c) && Content(e) == c
      requires e.prefixHash == x'.hash && e.logIndexAfter == x'.nextIndex && UndoOk(e.undo, x.store, x'.store)
      requires e.state.Received? ==> e.logIdxLo == x.nextIndex && e.logIdxHi == x'.nextIndex
      requires peak' == if |executed| < peak then peak else |executed| + 1
      ensures var longer, n := executed + [c], |executed|; var b := Full(fold, seed, longer, from).nextIndex;
        && b == Full(fold, seed, executed, from).nextIndex
        && (x' == Forget(Full(fold, seed, longer, n + 1), b) <==> NoneForgotten(Full(fold, seed, executed, n), b, RequestsOf(c)))
        && (x' == Forget(Full(fold, seed, longer, n + 1), b) ==>
              && LogRecords(fold, seed, longer, log[n := e], from)
              && RingRecords(fold, seed, longer, hashes[n % |hashes| := x'.hash], indexes[n % |hashes| := x'.nextIndex], peak'))
    {
      hide Full, ApplyAll, NoneForgotten, LogRecords, RingRecords, UndoOk;
      var longer, n := executed + [c], |executed|;
      FullPrefix(fold, seed, executed, longer, from);
      FullPrefix(fold, seed, executed, longer, n);
      FullStep(fold, seed, longer, n);
      FullLater(fold, seed, executed, from, n);
      var y := Full(fold, seed, executed, n);
      var b := Full(fold, seed, executed, from).nextIndex;
      ForgetCommutesIff(y, b, RequestsOf(c));
      HashIrrelevant(x, x.hash, RequestsOf(c));
      HashIrrelevant(y, y.hash, RequestsOf(c));
      if x' == Forget(Full(fold, seed, longer, n + 1), b) {
        LogAdvances(fold, seed, executed, log, from, e, c);
        RingAdvances(fold, seed, executed, hashes, indexes, peak, c, Full(fold, seed, longer, n + 1), peak');
      }
    }

    method ExecuteEntry(slot: nat)
      requires slot in log && EntryOk(log[slot]) && !log[slot].state.Empty? && log[slot].undo == []
      requires hashRing.Length == logIdxRing.Length > 0
      modifies this`log, this`nextExpected, this`residentBytes, this`nextLogIndex, this`dedup, this`store, this`prefixHash, this`pendingReplies,
        hashRing, logIdxRing
      ensures nextExpected == old(nextExpected) + 1
      ensures Contents() == ApplySlot(fold, old(Contents()), slot, Content(old(log)[slot]))
      ensures slot in log && log == old(log)[slot := log[slot]] && Content(log[slot]) == Content(old(log)[slot]) && EntryOk(log[slot])
      ensures log[slot].prefixHash == prefixHash && log[slot].logIndexAfter == nextLogIndex
      ensures log[slot].state.Received? ==> log[slot].logIdxLo == old(nextLogIndex) && log[slot].logIdxHi == nextLogIndex
      ensures UndoOk(log[slot].undo, old(store), store)
      ensures residentBytes - old(residentBytes) == log[slot].sizeBytes - old(log)[slot].sizeBytes
      ensures hashRing[..] == old(hashRing[..])[slot % hashRing.Length := prefixHash]
      ensures logIdxRing[..] == old(logIdxRing[..])[slot % hashRing.Length := nextLogIndex]
      ensures Answered(RequestsOf(Content(old(log)[slot])), slot, old(pendingReplies))
    {
      hide EntryOk, ApplyAll, UndoOk, Answered;
      AppendBus(slot);
      RecordedOk(log[slot], fold(prefixHash, slot, log[slot].state, log[slot].clientId, log[slot].reqId), nextLogIndex);
      nextExpected := nextExpected + 1;
      FoldExecuted(slot);
      assert log == old(log)[slot := log[slot]];
    }

    method ExecuteSlot(slot: nat)
      requires Valid() && slot == nextExpected && slot in log && !log[slot].state.Empty?
      modifies this, hashRing, logIdxRing
      ensures Valid() && prunedBelow == old(prunedBelow) && stable == old(stable) && view == old(view) && top == old(top)
      ensures executed == old(executed) + [Content(old(log)[slot])] && peak == if slot < old(peak) then old(peak) else slot + 1
      ensures Contents() == ApplySlot(fold, old(Contents()), slot, Content(old(log)[slot]))
      ensures slot in log && log == old(log)[slot := log[slot]] && Content(log[slot]) == Content(old(log)[slot])
      ensures log[slot].prefixHash == prefixHash && log[slot].logIndexAfter == nextLogIndex
      ensures log[slot].state.Received? ==> log[slot].logIdxLo == old(nextLogIndex) && log[slot].logIdxHi == nextLogIndex
      ensures UndoOk(log[slot].undo, old(store), store)
      ensures hashRing[..] == old(hashRing[..])[slot % hashRing.Length := prefixHash]
      ensures logIdxRing[..] == old(logIdxRing[..])[slot % hashRing.Length := nextLogIndex]
      ensures Answered(RequestsOf(Content(old(log)[slot])), slot, old(pendingReplies))
    {
      hide LogShape, Holds, Bytes, EntryOk, ApplySlot, UndoOk, Answered, RequestsOf;
      ghost var c := Content(log[slot]);
      EntryAt(log, prunedBelow, nextExpected, top, slot);
      ExecuteEntry(slot);
      ShapeAdvances(old(log), executed, prunedBelow, top, log[slot], c);
      executed := executed + [c];
      peak := if slot < peak then peak else slot + 1;
    }

    /** advanceNextExpectedOneLocked: the next slot executes if it is filled.
        The state stays the replay exactly if no request of a pruned slot is
        carried again. */
    method AdvanceOne() returns (advanced: bool)
      requires Valid()
      modifies this, hashRing, logIdxRing
      ensures Valid() && prunedBelow == old(prunedBelow) && stable == old(stable) && view == old(view) && top == old(top)
      ensures advanced <==> old(nextExpected in log && !log[nextExpected].state.Empty?)
      ensures SlotsOf(log) == old(SlotsOf(log)) && log.Keys == old(log).Keys && (advanced ==> nextExpected <= top)
      ensures advanced ==> peak == if old(nextExpected) < old(peak) then old(peak) else nextExpected
      ensures !advanced ==> executed == old(executed) && log == old(log) && Contents() == old(Contents()) && (old(Exact()) ==> Exact())
      ensures advanced ==> executed == old(executed) + [Content(old(log)[old(nextExpected)])]
      ensures advanced ==> Contents() == ApplySlot(fold, old(Contents()), old(nextExpected), Content(old(log)[old(nextExpected)]))
      ensures advanced && old(Exact()) ==> (Exact() <==>
        NoneForgotten(old(At(nextExpected)), old(At(prunedBelow)).nextIndex, RequestsOf(Content(old(log)[old(nextExpected)]))))
      ensures old(Counts()) ==> Counts()
      ensures forall s :: s in log && s < old(nextExpected) ==> s in old(log) && log[s] == old(log)[s]
      ensures advanced ==> Answered(RequestsOf(Content(old(log)[old(nextExpected)])), old(nextExpected), old(pendingReplies))
      ensures !advanced ==> pendingReplies == old(pendingReplies) && peak == old(peak)
    {
      hide LogShape, Holds, Bytes, EntryOk, Full, Forget, LogRecords, RingRecords, ApplySlot, NoneForgotten, UndoOk;
      hide Indexed, NonePruned, LogCounts, RingCounts;
      var slot := nextExpected;
      if slot !in log || log[slot].state.Empty? {
        return false;
      }
      EntryAt(log, prunedBelow, nextExpected, top, slot);
      ExecuteSlot(slot);
      if old(Exact()) {
        ExactAdvances(fold, seed, old(executed), old(log), prunedBelow, old(Contents()), old(hashRing[..]), old(logIdxRing[..]), old(peak),
                      Content(old(log)[slot]), log[slot], Contents(), peak);
      }
      if old(Counts()) {
        CountsAdvance(fold, old(executed), old(log), prunedBelow, old(Contents()), old(logIdxRing[..]), old(peak),
                      Content(old(log)[slot]), log[slot], Contents(), peak);
      }
      return true;
    }

    /** The advance loops, without the pruning that follows: everything that is
        filled executes, up to `maxSlot` when a view is being installed. */
    method AdvanceThrough(maxSlot: Option<nat>)
      requires Valid()
      modifies this, hashRing, logIdxRing
      ensures Valid() && prunedBelow == old(prunedBelow) && stable == old(stable) && view == old(view)
      ensures old(executed) <= executed && SlotsOf(log) == old(SlotsOf(log))
      ensures (maxSlot.Some? && maxSlot.value < nextExpected) || nextExpected !in log || log[nextExpected].state.Empty?
      ensures maxSlot.Some? ==> nextExpected == old(nextExpected) || nextExpected <= maxSlot.value + 1
      ensures peak == if nextExpected < old(peak) then old(peak) else nextExpected
      ensures old(Exact()) && CarriesNew(fold, seed, executed, prunedBelow, old(nextExpected)) ==> Exact()
      ensures old(Counts()) ==> Counts()
      ensures forall s :: s in log && s < old(nextExpected) ==> s in old(log) && log[s] == old(log)[s]
      ensures old(nextExpected) <= |executed| && Contents() == RunFrom(fold, old(Contents()), old(nextExpected), executed[old(nextExpected)..])
      ensures pendingReplies == old(pendingReplies) + AnswersFor(executed[old(nextExpected)..], old(nextExpected), dedup, view)
    {
      hide CarriesNew, LogRecords, RingRecords, Full, Forget, Bytes, ApplySlot, NoneForgotten, LogShape, Holds, SlotsOf, ExactFrom, AnswersFor,
        RunFrom, CountsFrom;
      Frontier();
      NoneYet(old(Contents()), old(nextExpected));
      var advanced := true;
      ghost var bound := if nextExpected < top then top else nextExpected;
      while advanced && (maxSlot.None? || nextExpected <= maxSlot.value)
        invariant Valid() && prunedBelow == old(prunedBelow) && stable == old(stable) && view == old(view) && top == old(top)
        invariant old(executed) <= executed && SlotsOf(log) == old(SlotsOf(log)) && nextExpected <= bound
        invariant !advanced ==> nextExpected !in log || log[nextExpected].state.Empty?
        invariant maxSlot.Some? ==> nextExpected == old(nextExpected) || nextExpected <= maxSlot.value + 1
        invariant peak == if nextExpected < old(peak) then old(peak) else nextExpected
        invariant old(Exact()) && CarriesNew(fold, seed, executed, prunedBelow, old(nextExpected)) ==> Exact()
        invariant (old(Counts()) ==> Counts()) && old(nextExpected) <= nextExpected
        invariant forall s :: s in log && s < old(nextExpected) ==> s in old(log) && log[s] == old(log)[s]
        invariant ExecutedSince(old(Contents()), old(nextExpected), old(pendingReplies))
        decreases bound - nextExpected, advanced
      {
        ghost var before, was, queued := executed, Contents(), pendingReplies;
        Frontier();
        advanced := AdvanceOne();
        Frontier();
        CarriedBefore(fold, seed, before, executed, prunedBelow, old(nextExpected));
        if advanced {
          OneMoreExecuted(old(Contents()), old(nextExpected), old(pendingReplies), before, was, queued);
        }
      }
    }

    /** From slot `from` on, state and replies are those of the executed slots. */
    ghost predicate ExecutedSince(x: Exec, from: nat, earlier: seq<Reply>)
      reads this
    {
      && from <= |executed| && Contents() == RunFrom(fold, x, from, executed[from..])
      && pendingReplies == earlier + AnswersFor(executed[from..], from, dedup, view)
    }

    lemma NoneYet(x: Exec, from: nat)
      requires from == |executed| && x == Contents()
      ensures ExecutedSince(x, from, pendingReplies)
    {
    }

    lemma OneMoreExecuted(x: Exec, from: nat, earlier: seq<Reply>, before: seq<Slot>, was: Exec, queued: seq<Reply>)
      requires from <= |before| && |executed| == |before| + 1 && executed[..|before|] == before
      requires was == RunFrom(fold, x, from, before[from..]) && queued == earlier + AnswersFor(before[from..], from, was.dedup, view)
      requires Contents() == ApplySlot(fold, was, |before|, executed[|before|])
      requires Answered(RequestsOf(executed[|before|]), |before|, queued)
      ensures ExecutedSince(x, from, earlier)
    {
      hide RunFrom, AnswersFor, Answers, ApplyAll, RequestsOf, Stream;
      var slots, c := before[from..], executed[|before|];
      assert executed[from..] == slots + [c];
      ApplyAllLater(was, RequestsOf(c));
      KeysOfRun(fold, x, from, slots);
      AnswersForStay(slots, from, was.dedup, dedup, view);
      AppendRun(fold, x, from, slots, c, dedup, view);
    }

    static lemma AppendRun(fold: Fold, x: Exec, from: nat, slots: seq<Slot>, c: Slot, dedup: map<Key, nat>, view: nat)
      ensures RunFrom(fold, x, from, slots + [c]) == ApplySlot(fold, RunFrom(fold, x, from, slots), from + |slots|, c)
      ensures AnswersFor(slots + [c], from, dedup, view) ==
        AnswersFor(slots, from, dedup, view) + Answers(RequestsOf(c), from + |slots|, dedup, view)
    {
      assert (slots + [c])[..|slots|] == slots;
    }

    static lemma KeysOfRun(fold: Fold, x: Exec, from: nat, slots: seq<Slot>)
      ensures forall q :: q in Stream(slots) ==> KeyOf(q) in RunFrom(fold, x, from, slots).dedup
    {
      RunFromIsStream(fold, x, from, slots);
      ApplyAllLater(x, Stream(slots));
    }

    /** replayRepliesLocked: the executed slots of a range are answered again. */
    method ReplayReplies(from: nat, end: nat)
      modifies this`pendingReplies
      ensures pendingReplies == old(pendingReplies) + Replayed(SlotsOf(log), from, end, dedup, view)
    {
      hide Answers;
      if from >= end {
        return;
      }
      for s := from to end
        invariant pendingReplies == old(pendingReplies) + Replayed(SlotsOf(log), from, s, dedup, view)
      {
        NextReplayed(log, from, s, dedup, view);
        if s in log && log[s].state.Received? {
          AnswerAgain(s, log[s].requests);
        }
      }
    }

    static lemma NextReplayed(log: map<nat, Entry>, from: nat, s: nat, dedup: map<Key, nat>, view: nat)
      requires from <= s
      ensures Replayed(SlotsOf(log), from, s + 1, dedup, view) == Replayed(SlotsOf(log), from, s, dedup, view)
        + if s in log && log[s].state.Received? then Answers(log[s].requests, s, dedup, view) else []
    {
      assert s in SlotsOf(log) <==> s in log;
    }

    method AnswerAgain(s: nat, qs: seq<Request>)
      modifies this`pendingReplies
      ensures pendingReplies == old(pendingReplies) + Answers(qs, s, dedup, view)
    {
      for i := 0 to |qs|
        invariant pendingReplies == old(pendingReplies) + Answers(qs[..i], s, dedup, view)
      {
        assert qs[..i + 1][..i] == qs[..i];
        var key := KeyOf(qs[i]);
        if key in dedup {
          pendingReplies := pendingReplies + [Reply(qs[i].clientId, qs[i].requestId, s, dedup[key], view)];
        }
      }
      assert qs[..|qs|] == qs;
    }

    // ----------------------------------------------------------- rewinding

    predicate InRing(slot: nat)
      reads this`nextExpected
    {
      slot < nextExpected && slot + hashRing.Length >= nextExpected
    }

    /** prefixHashAtLocked and logIndexAfterLocked: the ring if the slot is within
        its reach of the frontier, the retained entry otherwise. */
    method PrefixStateAt(target: nat) returns (hash: u64, logIdx: nat, ok: bool)
      requires Valid() && target <= nextExpected
      ensures ok <==> target == 0 || InRing(target - 1) || prunedBelow < target
      ensures ok <==> target == 0 || nextExpected <= target + retainSlots + 1 || prunedBelow < target
      ensures 0 < target && nextExpected <= target + retainSlots + 1 ==> logIdx == logIdxRing[(target - 1) % (retainSlots + 2)]
      ensures target == 0 ==> hash == seed && logIdx == 0
      ensures target > 0 && InRing(target - 1) ==>
        hash == hashRing[(target - 1) % hashRing.Length] && logIdx == logIdxRing[(target - 1) % logIdxRing.Length]
      ensures target > 0 && !InRing(target - 1) && ok ==>
        target - 1 in log && hash == log[target - 1].prefixHash && logIdx == log[target - 1].logIndexAfter
    {
      if target == 0 {
        return seed, 0, true;
      }
      var slot := target - 1;
      if InRing(slot) {
        return hashRing[slot % hashRing.Length], logIdxRing[slot % logIdxRing.Length], true;
      }
      if slot >= prunedBelow && slot in log {
        return log[slot].prefixHash, log[slot].logIndexAfter, true;
      }
      return 0, 0, false;
    }

    /** ... and how what it reads relates to the replay. */
    method ReadPrefix(target: nat) returns (hash: u64, logIdx: nat, ok: bool)
      requires Valid() && target < nextExpected
      ensures ok <==> target == 0 || InRing(target - 1) || prunedBelow < target
      ensures target > 0 && InRing(target - 1) ==>
        hash == hashRing[(target - 1) % hashRing.Length] && logIdx == logIdxRing[(target - 1) % logIdxRing.Length]
      ensures ok && target > 0 && !InRing(target - 1) ==> target - 1 in log && logIdx == log[target - 1].logIndexAfter
      ensures ok && Exact() ==>
        (hash == At(target).hash && logIdx == At(target).nextIndex <==> target == 0 || !InRing(target - 1) || CellTrue(target))
      ensures ok && Counts() ==> (logIdx == IndexAt(executed, target) <==> target == 0 || !InRing(target - 1) || CellCounts(target))
    {
      hash, logIdx, ok := PrefixStateAt(target);
      if ok && Exact() {
        ReadState(target, hash, logIdx);
      }
      if ok && Counts() {
        ReadIndex(target, logIdx);
      }
    }

    /** undoWritesLocked. */
    method UndoWrites(e: Entry, ghost before: map<u64, Value>) returns (e': Entry)
      requires EntryOk(e) && e.sizeBytes <= residentBytes
      modifies this`store, this`residentBytes
      ensures e' == e.(undo := [], sizeBytes := e'.sizeBytes) && EntryOk(e')
      ensures old(residentBytes) - residentBytes == e.sizeBytes - e'.sizeBytes
      ensures UndoOk(e.undo, before, old(store)) ==> store == before
    {
      hide UndoOk, Restored, BusBytes, HasKey;
      e' := e;
      NothingRestored(before, store);
      for i := 0 to |e.undo|
        invariant e' == e.(sizeBytes := e'.sizeBytes) && e'.sizeBytes == e.sizeBytes - UndoBytes(e.undo[..i])
        invariant old(residentBytes) - residentBytes == e.sizeBytes - e'.sizeBytes
        invariant UndoOk(e.undo, before, old(store)) ==>
          Restored(e.undo[..i], before, old(store), store)
      {
        var u := e.undo[i];
        UndoBytesSplit(e.undo, i);
        ghost var was := store;
        if u.present {
          store := store[u.key := u.value];
        } else {
          store := store - {u.key};
        }
        UndoneOne(e.undo, i, before, old(store), was, store);
        var size := UNDO_OVERHEAD + |u.value|;
        e' := e'.(sizeBytes := e'.sizeBytes - size);
        residentBytes := residentBytes - size;
      }
      assert e.undo[..|e.undo|] == e.undo;
      AllUndone(e.undo, before, old(store), store);
      e' := e'.(undo := []);
    }

    /** The keys of `done` are back at `before`, the others still at `after`. */
    static ghost predicate Restored(done: seq<WriteUndo>, before: map<u64, Value>, after: map<u64, Value>, now: map<u64, Value>) {
      forall c :: RestoredAt(done, before, after, now, c)
    }

    static predicate RestoredAt(done: seq<WriteUndo>, before: map<u64, Value>, after: map<u64, Value>, now: map<u64, Value>, c: u64) {
      SameAt(if HasKey(done, c) then before else after, now, c)
    }

    static lemma NothingRestored(before: map<u64, Value>, after: map<u64, Value>)
      ensures Restored([], before, after, after)
    {
    }

    static lemma UndoneOne(undo: seq<WriteUndo>, i: nat, before: map<u64, Value>, after: map<u64, Value>, was: map<u64, Value>, now: map<u64, Value>)
      requires i < |undo| && now == if undo[i].present then was[undo[i].key := undo[i].value] else was - {undo[i].key}
      ensures UndoOk(undo, before, after) && Restored(undo[..i], before, after, was) ==> Restored(undo[..i + 1], before, after, now)
    {
      var p, q := undo[..i], undo[..i + 1];
      if UndoOk(undo, before, after) && Restored(p, before, after, was) {
        forall c ensures RestoredAt(q, before, after, now, c) {
          HasKeyStep(undo, i, c);
          assert Remembers(undo[i], before);
          assert RestoredAt(p, before, after, was, c);
        }
      }
    }

    static lemma HasKeyStep(undo: seq<WriteUndo>, i: nat, c: u64)
      requires i < |undo|
      ensures HasKey(undo[..i + 1], c) <==> HasKey(undo[..i], c) || undo[i].key == c
    {
      var p := undo[..i + 1];
      if HasKey(undo[..i], c) {
        var j :| 0 <= j < i && undo[..i][j].key == c;
        assert p[j].key == c;
      }
      if undo[i].key == c {
        assert p[i].key == c;
      }
    }

    static lemma AllUndone(undo: seq<WriteUndo>, before: map<u64, Value>, after: map<u64, Value>, now: map<u64, Value>)
      ensures UndoOk(undo, before, after) && Restored(undo, before, after, now) ==> now == before
    {
      if UndoOk(undo, before, after) && Restored(undo, before, after, now) {
        forall c ensures SameAt(before, now, c) {
          assert RestoredAt(undo, before, after, now, c);
        }
        assert forall c :: c in before ==> SameAt(before, now, c);
        assert forall c :: c in now ==> SameAt(before, now, c);
      }
    }

    static lemma {:induction false} UndoBytesSplit(undo: seq<WriteUndo>, i: nat)
      requires i < |undo|
      ensures UndoBytes(undo[..i + 1]) == UndoBytes(undo[..i]) + UNDO_OVERHEAD + |undo[i].value|
      ensures UndoBytes(undo[..i + 1]) <= UndoBytes(undo)
      decreases |undo| - i
    {
      assert undo[..i + 1][..i] == undo[..i];
      if i + 1 < |undo| {
        UndoBytesSplit(undo, i + 1);
      } else {
        assert undo[..i + 1] == undo;
      }
    }

    /** One turn of rewindToLocked's loop: the slot's writes and the indexes it
        gave out are taken back. */
    method UndoSlot(s: nat, logIdx: nat, ghost before: map<u64, Value>)
      requires s in log && EntryOk(log[s]) && log[s].sizeBytes <= residentBytes
      modifies this`log, this`store, this`residentBytes, this`dedup
      ensures s in log && log == old(log)[s := log[s]] && Content(log[s]) == Content(old(log)[s])
      ensures EntryOk(log[s]) && log[s].undo == []
      ensures old(residentBytes) - residentBytes == old(log)[s].sizeBytes - log[s].sizeBytes
      ensures UndoOk(old(log)[s].undo, before, old(store)) ==> store == before
      ensures Released(old(dedup), dedup, RequestsOf(Content(old(log)[s])), logIdx, None)
    {
      hide UndoOk, UndoBytes, BusBytes, Released;
      var e := log[s];
      var undone := UndoWrites(e, before);
      log := log[s := undone];
      ReleaseIndexes(e.requests, logIdx, None);
    }

    /** The dedup entries of `qs` with an index in [lo, hi) are dropped. */
    method ReleaseIndexes(qs: seq<Request>, lo: nat, hi: Option<nat>)
      modifies this`dedup
      ensures Released(old(dedup), dedup, qs, lo, hi)
    {
      hide Carries;
      NoneReleased(dedup, lo, hi);
      for i := 0 to |qs|
        invariant Released(old(dedup), dedup, qs[..i], lo, hi)
      {
        CarriesStep(qs, i);
        var key := KeyOf(qs[i]);
        if key in dedup && InRange(dedup[key], lo, hi) {
          dedup := dedup - {key};
        }
      }
      assert qs[..|qs|] == qs;
    }

    static lemma NoneReleased(dedup: map<Key, nat>, lo: nat, hi: Option<nat>)
      ensures Released(dedup, dedup, [], lo, hi)
    {
    }

    static lemma CarriesStep(qs: seq<Request>, i: nat)
      requires i < |qs|
      ensures forall k :: Carries(qs[..i + 1], k) <==> Carries(qs[..i], k) || KeyOf(qs[i]) == k
    {
      forall k ensures Carries(qs[..i + 1], k) <==> Carries(qs[..i], k) || KeyOf(qs[i]) == k {
        if Carries(qs[..i], k) {
          var j :| 0 <= j < i && KeyOf(qs[..i][j]) == k;
          assert KeyOf(qs[..i + 1][j]) == k;
        }
        if KeyOf(qs[i]) == k {
          assert KeyOf(qs[..i + 1][i]) == k;
        }
      }
    }

    /** The undo loop of rewindToLocked, at slot s. */
    method UndoTop(s: nat, logIdx: nat, ghost records: bool, ghost dedup0: map<Key, nat>)
      requires prunedBelow <= s < |executed| && s in log
      requires LogShape(log, prunedBelow, s + 1, top) && Holds(log, executed, prunedBelow) && residentBytes == Bytes(log, top)
      requires Undone(dedup0, dedup, SlotsOf(log), s + 1, |executed|, logIdx)
      requires records ==> store == At(s + 1).store && Recorded(fold, seed, executed, s, log[s])
      modifies this`log, this`store, this`residentBytes, this`dedup
      ensures LogShape(log, prunedBelow, s, top) && Holds(log, executed, prunedBelow) && residentBytes == Bytes(log, top)
      ensures s in log && log == old(log)[s := log[s]] && Content(log[s]) == Content(old(log)[s])
      ensures SlotsOf(log) == old(SlotsOf(log)) && Undone(dedup0, dedup, SlotsOf(log), s, |executed|, logIdx)
      ensures records ==> store == At(s).store
    {
      hide Full, UndoOk, Bytes, EntryOk, CarriedIn, Carries, RequestsOf, Undone, Released;
      ghost var log1, dedup1 := log, dedup;
      EntryAt(log, prunedBelow, s + 1, top, s);
      EntryBytes(log, s, log[s], top, top);
      UndoSlot(s, logIdx, At(s).store);
      EntryBytes(log1, s, log[s], top, top);
      assert SlotsOf(log) == SlotsOf(log1);
      UndoneOneMore(dedup0, dedup1, dedup, SlotsOf(log), s, |executed|, logIdx);
    }

    /** The undo loop of rewindToLocked. */
    method UndoDownTo(target: nat, logIdx: nat)
      requires Valid() && prunedBelow <= target <= nextExpected
      modifies this`log, this`store, this`residentBytes, this`dedup
      ensures LogShape(log, prunedBelow, target, top) && Holds(log, executed, prunedBelow) && residentBytes == Bytes(log, top)
      ensures log.Keys == old(log).Keys && SlotsOf(log) == old(SlotsOf(log))
      ensures forall t :: t in log && t < target ==> log[t] == old(log)[t]
      ensures Undone(old(dedup), dedup, SlotsOf(log), target, |executed|, logIdx)
      ensures old(Exact()) ==> store == At(target).store
    {
      hide Full, Bytes, EntryOk, RingRecords, CarriedIn, Undone, Recorded, LogShape, SlotsOf;
      var s := nextExpected;
      NothingUndone(dedup, SlotsOf(log), |executed|, logIdx);
      while s > target
        invariant target <= s <= nextExpected
        invariant LogShape(log, prunedBelow, s, top) && Holds(log, executed, prunedBelow) && residentBytes == Bytes(log, top)
        invariant log.Keys == old(log).Keys && SlotsOf(log) == old(SlotsOf(log))
        invariant forall t :: t in log && t < s ==> log[t] == old(log)[t]
        invariant Undone(old(dedup), dedup, SlotsOf(log), s, |executed|, logIdx)
        invariant old(Exact()) ==> store == At(s).store
      {
        s := s - 1;
        if s in log {
          UndoTop(s, logIdx, old(Exact()), old(dedup));
        }
      }
    }

    static lemma NothingUndone(dedup: map<Key, nat>, slots: map<nat, Slot>, n: nat, logIdx: nat)
      ensures Undone(dedup, dedup, slots, n, n, logIdx)
    {
    }

    /** The ring cell that a rewind to `target` would read is the right one. */
    ghost predicate CellTrue(target: nat)
      requires 0 < target && 0 < hashRing.Length == logIdxRing.Length
      reads this`executed, hashRing, logIdxRing
    {
      CellIs(hashRing[..], logIdxRing[..], target - 1, At(target))
    }

    /** The log index in that cell is. */
    ghost predicate CellCounts(target: nat)
      requires 0 < target && 0 < logIdxRing.Length
      reads this`executed, logIdxRing
    {
      logIdxRing[(target - 1) % logIdxRing.Length] == IndexAt(executed, target)
    }

    /** The undo loop of rewindToLocked below the pruned boundary. All it can
        meet there is what arrived again after its slot was pruned. */
    method UndoStored(target: nat, logIdx: nat, ghost dedup0: map<Key, nat>, ghost n: nat)
      requires target < prunedBelow <= n && LogShape(log, prunedBelow, prunedBelow, top) && residentBytes == Bytes(log, top)
      requires Undone(dedup0, dedup, SlotsOf(log), prunedBelow, n, logIdx)
      modifies this`log, this`store, this`residentBytes, this`dedup
      ensures LogShape(log, prunedBelow, prunedBelow, top) && residentBytes == Bytes(log, top) && store == old(store)
      ensures log.Keys == old(log).Keys && SlotsOf(log) == old(SlotsOf(log))
      ensures forall t :: t in log && t < target ==> log[t] == old(log)[t]
      ensures Undone(dedup0, dedup, SlotsOf(log), target, n, logIdx)
    {
      hide Bytes, EntryOk, Undone, Released, SlotsOf;
      var s := prunedBelow;
      while s > target
        invariant target <= s <= prunedBelow
        invariant LogShape(log, prunedBelow, prunedBelow, top) && residentBytes == Bytes(log, top) && store == old(store)
        invariant log.Keys == old(log).Keys && SlotsOf(log) == old(SlotsOf(log))
        invariant forall t :: t in log && t < target ==> log[t] == old(log)[t]
        invariant Undone(dedup0, dedup, SlotsOf(log), s, n, logIdx)
      {
        s := s - 1;
        ghost var dedup1 := dedup;
        if s in log {
          UndoOne(s, logIdx);
        }
        SlotHeld(log, s);
        UndoneOneMore(dedup0, dedup1, dedup, SlotsOf(log), s, n, logIdx);
      }
    }

    static lemma SlotHeld(log: map<nat, Entry>, s: nat)
      ensures s in SlotsOf(log) <==> s in log
      ensures s in log ==> SlotsOf(log)[s] == Content(log[s])
    {
    }

    /** An entry that has not executed has no writes to take back. */
    method UndoOne(s: nat, logIdx: nat)
      requires s in log && s < prunedBelow && LogShape(log, prunedBelow, prunedBelow, top) && residentBytes == Bytes(log, top)
      modifies this`log, this`store, this`residentBytes, this`dedup
      ensures LogShape(log, prunedBelow, prunedBelow, top) && residentBytes == Bytes(log, top) && store == old(store)
      ensures s in log && log == old(log)[s := log[s]] && SlotsOf(log) == old(SlotsOf(log))
      ensures Released(old(dedup), dedup, RequestsOf(Content(log[s])), logIdx, None)
    {
      hide Bytes, EntryOk, UndoOk, Released;
      ghost var log1 := log;
      EntryAt(log, prunedBelow, prunedBelow, top, s);
      EntryBytes(log, s, log[s], top, top);
      UndoNothing(store);
      UndoSlot(s, logIdx, store);
      EntryBytes(log1, s, log[s], top, top);
    }

    /** The whole undo loop of rewindToLocked. */
    method UndoBackTo(target: nat, logIdx: nat)
      requires Valid() && target < nextExpected
      modifies this`log, this`store, this`residentBytes, this`dedup
      ensures prunedBelow <= target ==> LogShape(log, prunedBelow, target, top) && Holds(log, executed[..target], prunedBelow)
      ensures log.Keys == old(log).Keys && SlotsOf(log) == old(SlotsOf(log)) && residentBytes == Bytes(log, top)
      ensures forall t :: t in log && t < target ==> t in old(log) && log[t] == old(log)[t]
      ensures Undone(old(dedup), dedup, SlotsOf(log), target, nextExpected, logIdx)
      ensures Retains(SlotsOf(log), executed, prunedBelow)
      ensures old(Exact()) ==> store == At(if target < prunedBelow then prunedBelow else target).store
    {
      hide LogShape, Holds, Bytes, Full, Forget, LogRecords, RingRecords, SlotsOf, Undone;
      Held(log, executed, prunedBelow);
      UndoDownTo(if target < prunedBelow then prunedBelow else target, logIdx);
      if target < prunedBelow {
        UndoStored(target, logIdx, old(dedup), nextExpected);
      } else {
        ShapeShrinks(log, executed, prunedBelow, target);
      }
    }

    /** The undoing half of rewindToLocked, with the state read for the target. */
    method TakeBackTo(target: nat, hash: u64, logIdx: nat)
      requires Valid() && target < nextExpected
      modifies this`log, this`store, this`residentBytes, this`dedup, this`nextExpected, this`prefixHash, this`nextLogIndex, this`executed
      ensures prunedBelow <= target ==> Valid()
      ensures log.Keys == old(log).Keys && SlotsOf(log) == old(SlotsOf(log)) && residentBytes == Bytes(log, top)
      ensures nextExpected == target && executed == old(executed)[..target] && prefixHash == hash && nextLogIndex == logIdx
      ensures forall t :: t in log && t < target ==> t in old(log) && log[t] == old(log)[t]
      ensures Undone(old(dedup), dedup, SlotsOf(log), target, old(nextExpected), logIdx)
      ensures prunedBelow <= target && old(Exact()) ==> store == At(target).store
      ensures prunedBelow <= target && old(Exact()) ==>
        (Exact() <==> hash == old(At(target)).hash && logIdx == old(At(target)).nextIndex)
      ensures target < prunedBelow && old(Exact()) ==> store == old(At(prunedBelow)).store
      ensures target < prunedBelow && old(Exact()) ==>
        (Contents() == Forget(old(At(target)), old(At(prunedBelow)).nextIndex) <==>
          hash == old(At(target)).hash && logIdx == old(At(target)).nextIndex && old(At(prunedBelow)).store == old(At(target)).store)
      ensures old(Counts()) ==> (Indexed(Contents(), executed) <==> logIdx == IndexAt(old(executed), target))
      ensures prunedBelow <= target && old(Counts()) ==> (Counts() <==> logIdx == IndexAt(old(executed), target))
    {
      hide LogShape, Holds, Bytes, Full, Forget, LogRecords, RingRecords, SlotsOf, Undone, Indexed, LogCounts, RingCounts, NonePruned, IndexAt;
      UndoBackTo(target, logIdx);
      nextExpected := target;
      prefixHash := hash;
      nextLogIndex := logIdx;
      executed := executed[..target];
      if old(Exact()) {
        if target < prunedBelow {
          LeftOver(fold, seed, old(executed), prunedBelow, target, old(dedup), dedup, SlotsOf(log), old(At(prunedBelow)).store, Contents());
        } else {
          ExactRewinds(fold, seed, old(executed), old(log), log, prunedBelow, target, hashRing[..], logIdxRing[..], peak,
                       old(dedup), dedup, Contents());
        }
      }
      if old(Counts()) {
        IndexedRewindsIff(old(executed), prunedBelow, target, SlotsOf(log), old(Contents()), Contents());
        CountsRewind(old(executed), old(log), log, prunedBelow, target, logIdxRing[..], peak);
        if prunedBelow <= target { IndexPrefix(executed, old(executed), prunedBelow); }
      }
    }

    static lemma Held(log: map<nat, Entry>, executed: seq<Slot>, from: nat)
      requires Holds(log, executed, from)
      ensures Retains(SlotsOf(log), executed, from)
    {
    }

    /** rewindToLocked. The store always comes back right, down to the pruned
        boundary. The rest does exactly if the slot is out of the ring's reach, so
        that its entry is read, or the ring cell still belongs to it. Below the
        boundary the writes of pruned slots are left over. */
    method RewindTo(target: nat) returns (ok: bool)
      requires Valid()
      modifies this`log, this`store, this`residentBytes, this`dedup, this`nextExpected, this`prefixHash, this`nextLogIndex, this`executed
      ensures !ok || prunedBelow <= target || old(nextExpected) <= target ==> Valid()
      ensures log.Keys == old(log).Keys && SlotsOf(log) == old(SlotsOf(log)) && residentBytes == Bytes(log, top)
      ensures ok <==> old(nextExpected) <= target || target == 0 || old(InRing(target - 1)) || prunedBelow < target
      ensures !ok || old(nextExpected) <= target ==> Contents() == old(Contents()) && log == old(log) && executed == old(executed)
      ensures !ok || old(nextExpected) <= target ==> (old(Exact()) ==> Exact())
      ensures ok && target < old(nextExpected) ==> nextExpected == target && executed == old(executed)[..target]
      ensures ok && 0 < target < old(nextExpected) && old(InRing(target - 1)) ==>
        prefixHash == hashRing[(target - 1) % hashRing.Length] && nextLogIndex == logIdxRing[(target - 1) % logIdxRing.Length]
      ensures ok && prunedBelow <= target < old(nextExpected) && old(Exact()) ==> store == At(target).store
      ensures ok && prunedBelow <= target < old(nextExpected) && old(Exact()) ==>
        (Exact() <==> target == 0 || !old(InRing(target - 1)) || old(CellTrue(target)))
      ensures ok && target < old(nextExpected) && target < prunedBelow && old(Exact()) ==> store == old(At(prunedBelow)).store
      ensures ok && target < old(nextExpected) && target < prunedBelow && old(Exact()) ==>
        (Contents() == Forget(old(At(target)), old(At(prunedBelow)).nextIndex) <==>
          (target == 0 || old(CellTrue(target))) && old(At(prunedBelow)).store == old(At(target)).store)
      ensures ok && target < old(nextExpected) ==> Undone(old(dedup), dedup, SlotsOf(log), target, old(nextExpected), nextLogIndex)
      ensures forall t :: t in log && t < target ==> t in old(log) && log[t] == old(log)[t]
      ensures ok && 0 < target < old(nextExpected) && !old(InRing(target - 1)) ==> target - 1 in log && nextLogIndex == log[target - 1].logIndexAfter
      ensures ok && target < old(nextExpected) && old(Counts()) ==>
        (Indexed(Contents(), executed) <==> target == 0 || !old(InRing(target - 1)) || old(CellCounts(target)))
      ensures !ok || old(nextExpected) <= target ==> (old(Counts()) ==> Counts())
      ensures ok && prunedBelow <= target < old(nextExpected) && old(Counts()) ==>
        (Counts() <==> target == 0 || !old(InRing(target - 1)) || old(CellCounts(target)))
    {
      hide Structure, ExactFrom, Bytes, Full, Forget, SlotsOf, CellIs, CountsFrom, Undone, IndexAt, Indexed;
      Accounted();
      if target >= nextExpected {
        return true;
      }
      var hash, logIdx;
      hash, logIdx, ok := ReadPrefix(target);
      if !ok {
        return false;
      }
      TakeBackTo(target, hash, logIdx);
    }

    /** What a rewind below the pruned boundary leaves over: the pruned writes. */
    static lemma LeftOver(fold: Fold, seed: u64, executed: seq<Slot>, from: nat, t: nat,
        dedup: map<Key, nat>, dedup': map<Key, nat>, slots: map<nat, Slot>, store: map<u64, Value>, x: Exec)
      requires t < from <= |executed| && dedup == Forget(Full(fold, seed, executed, |executed|), Full(fold, seed, executed, from).nextIndex).dedup
      requires Retains(slots, executed, from) && Undone(dedup, dedup', slots, t, |executed|, x.nextIndex)
      requires x.dedup == dedup' && x.store == store
      ensures var past, b := Full(fold, seed, executed, t), Full(fold, seed, executed, from).nextIndex;
        x == Forget(past, b) <==> x.hash == past.hash && x.nextIndex == past.nextIndex && store == past.store
    {
      hide Full, Carries;
      var past, b := Full(fold, seed, executed, t), Full(fold, seed, executed, from).nextIndex;
      FullLater(fold, seed, executed, t, from);
      FullBelow(fold, seed, executed, t);
      assert Forget(past, b).dedup == map[];
      if x.nextIndex == past.nextIndex {
        forall k | k in dedup ensures CarriedIn(slots, t, |executed|, k) {
          UndoneKeys(fold, seed, executed, from, k, slots);
        }
        assert dedup' == map[];
      }
    }

    /** So a rewind to 0 past pruned slots is right if and only if these carried
        no request, which their log index tells. */
    lemma ZeroIff()
      requires Valid()
      ensures At(prunedBelow).store == At(0).store <==> At(prunedBelow).nextIndex == 0
    {
      hide LogShape, Holds, Bytes;
      EmptyStoreIff(fold, seed, executed[..prunedBelow]);
      assert executed[..0] == [];
    }

    static lemma ShapeShrinks(log: map<nat, Entry>, executed: seq<Slot>, from: nat, t: nat)
      requires Holds(log, executed, from) && t <= |executed|
      ensures Holds(log, executed[..t], from)
    {
    }

    /** What PrefixStateAt read is the replay's state, unless a stale cell was read. */
    lemma ReadState(target: nat, hash: u64, logIdx: nat)
      requires Valid() && Exact() && target < nextExpected
      requires target == 0 ==> hash == seed && logIdx == 0
      requires target > 0 && InRing(target - 1) ==>
        hash == hashRing[(target - 1) % hashRing.Length] && logIdx == logIdxRing[(target - 1) % logIdxRing.Length]
      requires target > 0 && !InRing(target - 1) ==>
        prunedBelow < target && target - 1 in log && hash == log[target - 1].prefixHash && logIdx == log[target - 1].logIndexAfter
      ensures hash == At(target).hash && logIdx == At(target).nextIndex <==> target == 0 || !InRing(target - 1) || CellTrue(target)
    {
      hide LogShape, Holds, Bytes, Forget, RingRecords;
      if target > 0 && !InRing(target - 1) {
        assert Recorded(fold, seed, executed, target - 1, log[target - 1]);
      }
    }

    static lemma ExactRewinds(fold: Fold, seed: u64, executed: seq<Slot>, log: map<nat, Entry>, log': map<nat, Entry>, from: nat, t: nat,
        hashes: seq<u64>, indexes: seq<nat>, peak: nat, dedup: map<Key, nat>, dedup': map<Key, nat>, x: Exec)
      requires from <= t <= |executed| && Retains(SlotsOf(log'), executed, t) && dedup == Forget(Full(fold, seed, executed, |executed|), Full(fold, seed, executed, from).nextIndex).dedup
      requires LogRecords(fold, seed, executed, log, from) && RingRecords(fold, seed, executed, hashes, indexes, peak)
      requires forall s :: s in log' && s < t ==> s in log && log'[s] == log[s]
      requires x.store == Full(fold, seed, executed, t).store && x.dedup == dedup'
      requires Undone(dedup, dedup', SlotsOf(log'), t, |executed|, x.nextIndex)
      ensures var past := executed[..t];
        && LogRecords(fold, seed, past, log', from) && RingRecords(fold, seed, past, hashes, indexes, peak)
        && Full(fold, seed, past, t) == Full(fold, seed, executed, t)
        && (x == Forget(Full(fold, seed, past, t), Full(fold, seed, past, from).nextIndex) <==>
              x.hash == Full(fold, seed, executed, t).hash && x.nextIndex == Full(fold, seed, executed, t).nextIndex)
    {
      hide Full, LogRecords, RingRecords, Undone, SlotsOf;
      LogShrinks(fold, seed, executed, log, log', from, t);
      RingShrinks(fold, seed, executed, hashes, indexes, peak, t);
      FullPrefix(fold, seed, executed[..t], executed, t);
      FullPrefix(fold, seed, executed[..t], executed, from);
      if x.nextIndex == Full(fold, seed, executed, t).nextIndex {
        DedupRewound(fold, seed, executed, from, t, dedup, dedup', SlotsOf(log'));
      }
    }

    lemma ReadIndex(target: nat, logIdx: nat)
      requires Valid() && Counts() && target < nextExpected
      requires target == 0 ==> logIdx == 0
      requires target > 0 && InRing(target - 1) ==> logIdx == logIdxRing[(target - 1) % logIdxRing.Length]
      requires target > 0 && !InRing(target - 1) ==> prunedBelow < target && target - 1 in log && logIdx == log[target - 1].logIndexAfter
      ensures logIdx == IndexAt(executed, target) <==> target == 0 || !InRing(target - 1) || CellCounts(target)
    {
      hide LogShape, Holds, Bytes, Indexed, RingCounts;
      if target > 0 && !InRing(target - 1) {
        assert EntryCounts(executed, target - 1, log[target - 1]);
      }
    }

    /** Again a caller can tell, without anything but the indexes being right. */
    lemma CellCountsIff(target: nat)
      requires Valid() && Counts() && 0 < target < nextExpected
      ensures prunedBelow < target ==> target - 1 in log
      ensures prunedBelow < target ==> (CellCounts(target) <==> logIdxRing[(target - 1) % logIdxRing.Length] == log[target - 1].logIndexAfter)
      ensures InReach(target - 1, hashRing.Length, peak) ==> CellCounts(target)
    {
      hide LogShape, Bytes, IndexAt, Indexed;
      if prunedBelow < target {
        assert EntryCounts(executed, target - 1, log[target - 1]);
      }
    }

    /** A caller can tell: the cell is right exactly if it agrees with what the
        retained entry recorded, and it surely is within a ring's length of the
        highest frontier ever executed. */
    lemma CellTrueIff(target: nat)
      requires Valid() && Exact() && 0 < target < nextExpected
      ensures prunedBelow < target ==> target - 1 in log && (CellTrue(target) <==>
        hashRing[(target - 1) % hashRing.Length] == log[target - 1].prefixHash
        && logIdxRing[(target - 1) % logIdxRing.Length] == log[target - 1].logIndexAfter)
      ensures InReach(target - 1, hashRing.Length, peak) ==> CellTrue(target)
    {
      hide LogShape, Bytes, Forget, Full;
      if prunedBelow < target {
        assert Recorded(fold, seed, executed, target - 1, log[target - 1]);
      }
    }

    lemma Accounted()
      requires Valid()
      ensures residentBytes == Bytes(log, top)
    {
    }

    lemma Frontier()
      requires Valid()
      ensures prunedBelow <= nextExpected == |executed| && hashRing.Length == logIdxRing.Length == retainSlots + 2
      ensures At(0).nextIndex == 0
    {
    }

    lemma NewestCell()
      requires Valid() && Exact() && 0 < nextExpected == peak
      ensures CellTrue(nextExpected)
    {
      hide LogShape, Holds, Bytes, Forget, LogRecords, Full;
      assert InReach(nextExpected - 1, hashRing.Length, peak);
    }

    // ----------------------------------------------------------- pruning

    /** pruneSlotLocked, at the lower end of what is retained. */
    method PruneSlot(slot: nat)
      requires Structure(slot) && slot < nextExpected
      modifies this`log, this`dedup, this`residentBytes
      ensures Structure(slot + 1) && log == old(log) - {slot} && residentBytes == old(residentBytes) - old(log)[slot].sizeBytes
      ensures forall k :: k in dedup ==> k in old(dedup) && dedup[k] == old(dedup)[k]
      ensures old(ExactFrom(slot)) ==> ExactFrom(slot + 1)
      ensures old(CountsFrom(slot)) ==> CountsFrom(slot + 1)
    {
      hide Bytes, Full, LogRecords, RingRecords, EntryOk, Carries, Indexed, NonePruned, LogCounts, RingCounts, IndexAt, LogShape, Holds;
      SlotDropped(log, executed, slot, top);
      if slot in log {
        PruneDedup(slot);
        ReleaseBytes(log[slot].sizeBytes);
        DroppedBytes(log, slot, top);
      }
      log := log - {slot};
      if old(ExactFrom(slot)) {
        ExactPrunes(fold, seed, executed, old(log), slot, old(dedup), dedup);
      }
      if old(CountsFrom(slot)) {
        CountsPrune(executed, old(log), slot, old(Contents()), dedup);
      }
    }

    /** pruneDedupForSlotLocked: what the slot's requests were first given. */
    method PruneDedup(slot: nat)
      requires slot in log
      modifies this`dedup
      ensures var e := log[slot];
        if e.requests == [] then dedup == old(dedup) else Released(old(dedup), dedup, e.requests, e.logIdxLo, Some(e.logIdxHi))
    {
      var e := log[slot];
      if |e.requests| > 0 {
        ReleaseIndexes(e.requests, e.logIdxLo, Some(e.logIdxHi));
      }
    }

    static lemma SlotDropped(log: map<nat, Entry>, executed: seq<Slot>, s: nat, top: nat)
      requires LogShape(log, s, |executed|, top) && Holds(log, executed, s) && s < |executed|
      ensures LogShape(log - {s}, s + 1, |executed|, top) && Holds(log - {s}, executed, s + 1)
      ensures s in log && s < top && EntryOk(log[s]) && Content(log[s]) == executed[s] && (log[s].requests != [] ==> log[s].state.Received?)
    {
      hide UndoBytes, BusBytes;
    }

    static lemma ExactPrunes(fold: Fold, seed: u64, executed: seq<Slot>, log: map<nat, Entry>, s: nat, dedup: map<Key, nat>, dedup': map<Key, nat>)
      requires s < |executed| && s in log && EntryOk(log[s]) && Content(log[s]) == executed[s]
      requires LogRecords(fold, seed, executed, log, s)
      requires dedup == Forget(Full(fold, seed, executed, |executed|), Full(fold, seed, executed, s).nextIndex).dedup
      requires if log[s].requests == [] then dedup' == dedup
        else Released(dedup, dedup', log[s].requests, log[s].logIdxLo, Some(log[s].logIdxHi))
      ensures LogRecords(fold, seed, executed, log - {s}, s + 1)
      ensures dedup' == Forget(Full(fold, seed, executed, |executed|), Full(fold, seed, executed, s + 1).nextIndex).dedup
    {
      hide Full, Forget, UndoOk;
      assert Recorded(fold, seed, executed, s, log[s]);
      assert log[s].requests == RequestsOf(executed[s]);
      DedupPruned(fold, seed, executed, s, dedup, dedup');
    }

    method PruneUpTo(target: nat)
      requires Valid() && target <= nextExpected
      modifies this`log, this`dedup, this`residentBytes, this`prunedBelow
      ensures Valid() && (old(Exact()) ==> Exact()) && (old(Counts()) ==> Counts())
      ensures prunedBelow == if target < old(prunedBelow) then old(prunedBelow) else target
      ensures forall k :: k in dedup ==> k in old(dedup) && dedup[k] == old(dedup)[k]
      ensures prunedBelow == old(prunedBelow) ==> dedup == old(dedup)
      ensures forall s :: s in log <==> s in old(log) && !(old(prunedBelow) <= s < target)
      ensures forall s :: s in log ==> log[s] == old(log)[s]
    {
      hide LogShape, Holds, Bytes, ExactFrom, CountsFrom;
      var n := if target < prunedBelow then prunedBelow else target;
      for s := prunedBelow to n
        invariant Structure(s) && (old(Exact()) ==> ExactFrom(s)) && (old(Counts()) ==> CountsFrom(s))
        invariant prunedBelow == old(prunedBelow) && (s == prunedBelow ==> dedup == old(dedup))
        invariant forall k :: k in dedup ==> k in old(dedup) && dedup[k] == old(dedup)[k]
        invariant forall t :: t in log <==> t in old(log) && !(old(prunedBelow) <= t < s)
        invariant forall t :: t in log ==> log[t] == old(log)[t]
      {
        PruneSlot(s);
      }
      if target > prunedBelow {
        prunedBelow := target;
      }
    }

    lemma LowestHeld()
      requires Valid() && prunedBelow < nextExpected
      ensures prunedBelow in log
    {
      hide Bytes, ExactFrom;
    }

    /** The second loop of pruneCommittedLocked: the byte budget. */
    method PruneBytes(limit: nat)
      requires Valid() && limit <= nextExpected
      modifies this`log, this`dedup, this`residentBytes, this`prunedBelow
      ensures Valid() && (old(Exact()) ==> Exact()) && (old(Counts()) ==> Counts())
      ensures old(prunedBelow) <= prunedBelow && (prunedBelow == old(prunedBelow) || prunedBelow <= limit)
      ensures retainBytes > 0 ==> residentBytes <= retainBytes || limit <= prunedBelow
      ensures retainBytes == 0 ==> prunedBelow == old(prunedBelow)
      ensures prunedBelow > old(prunedBelow) ==>
        prunedBelow - 1 in old(log) && residentBytes + old(log)[prunedBelow - 1].sizeBytes > retainBytes > 0
      ensures forall k :: k in dedup ==> k in old(dedup) && dedup[k] == old(dedup)[k]
      ensures prunedBelow == old(prunedBelow) ==> dedup == old(dedup)
      ensures forall s :: s in log <==> s in old(log) && !(old(prunedBelow) <= s < prunedBelow)
      ensures forall s :: s in log ==> log[s] == old(log)[s]
    {
      hide Structure, ExactFrom, CountsFrom;
      while retainBytes > 0 && residentBytes > retainBytes && prunedBelow < limit
        invariant Valid() && (old(Exact()) ==> Exact()) && (old(Counts()) ==> Counts())
        invariant old(prunedBelow) <= prunedBelow && (prunedBelow == old(prunedBelow) || prunedBelow <= limit)
        invariant retainBytes == 0 ==> prunedBelow == old(prunedBelow)
        invariant prunedBelow == old(prunedBelow) ==> dedup == old(dedup)
        invariant prunedBelow > old(prunedBelow) ==>
          prunedBelow - 1 in old(log) && residentBytes + old(log)[prunedBelow - 1].sizeBytes > retainBytes > 0
        invariant forall k :: k in dedup ==> k in old(dedup) && dedup[k] == old(dedup)[k]
        invariant forall s :: s in log <==> s in old(log) && !(old(prunedBelow) <= s < prunedBelow)
        invariant forall s :: s in log ==> log[s] == old(log)[s]
        decreases limit - prunedBelow
      {
        LowestHeld();
        PruneSlot(prunedBelow);
        prunedBelow := prunedBelow + 1;
      }
    }

    /** pruneCommittedLocked: drops what is older than the retained slots, then
        more while the byte budget demands it, and nothing at or above the stable
        slot or the frontier. */
    method PruneCommitted()
      requires Valid()
      modifies this`log, this`dedup, this`residentBytes, this`prunedBelow
      ensures Valid() && (old(Exact()) ==> Exact()) && (old(Counts()) ==> Counts())
      ensures var limit := if stable.Some? && stable.value < nextExpected then stable.value else nextExpected;
        && old(prunedBelow) <= prunedBelow && (prunedBelow == old(prunedBelow) || prunedBelow <= limit)
        && (nextExpected - retainSlots <= prunedBelow || limit <= prunedBelow)
        && (retainBytes > 0 ==> residentBytes <= retainBytes || limit <= prunedBelow)
        && (retainBytes == 0 ==> prunedBelow == old(prunedBelow) || prunedBelow <= nextExpected - retainSlots)
      ensures prunedBelow > old(prunedBelow) && prunedBelow > nextExpected - retainSlots ==>
        prunedBelow - 1 in old(log) && residentBytes + old(log)[prunedBelow - 1].sizeBytes > retainBytes > 0
      ensures forall k :: k in dedup ==> k in old(dedup) && dedup[k] == old(dedup)[k]
      ensures prunedBelow == old(prunedBelow) ==> dedup == old(dedup)
      ensures forall s :: s in log <==> s in old(log) && !(old(prunedBelow) <= s < prunedBelow)
      ensures forall s :: s in log ==> log[s] == old(log)[s]
    {
      hide Structure, ExactFrom, CountsFrom;
      var limit := nextExpected;
      if stable.Some? && stable.value < limit {
        limit := stable.value;
      }
      var target := 0;
      if nextExpected > retainSlots {
        target := nextExpected - retainSlots;
      }
      if target > limit {
        target := limit;
      }
      PruneUpTo(target);
      PruneBytes(limit);
    }
  }
}
