/** Log indexes on their own: which positions the dedup map gives, and what the
    records for a rewind say of them, whether or not the state is the replay. */
module LogIndexes {
  import opened Schedule
  import opened ReplicaSpec
  import opened Replay
  import opened ExecutorSpec

  /** Every index was given to one request, and is below the next. */
  ghost predicate Sane(x: Exec) {
    && (forall k :: k in x.dedup ==> x.dedup[k] < x.nextIndex)
    && (forall k, l :: k in x.dedup && l in x.dedup && x.dedup[k] == x.dedup[l] ==> k == l)
  }

  /** The n-th request that the slots carry is k. */
  ghost predicate Placed(executed: seq<Slot>, k: Key, n: nat) {
    n < |Stream(executed)| && KeyOf(Stream(executed)[n]) == k
  }

  /** Indexes are positions in what was executed. */
  ghost predicate Indexed(x: Exec, executed: seq<Slot>) {
    x.nextIndex == |Stream(executed)| && forall k :: k in x.dedup ==> Placed(executed, k, x.dedup[k])
  }

  /** The log index that slot t begins with. */
  function IndexAt(executed: seq<Slot>, t: nat): nat {
    if t <= |executed| then |Stream(executed[..t])| else 0
  }

  lemma IndexedSane(x: Exec, executed: seq<Slot>)
    requires Indexed(x, executed)
    ensures Sane(x)
  {
  }

  // ------------------------------------------------------------- positions

  lemma IndexStep(executed: seq<Slot>, s: nat)
    requires s < |executed|
    ensures IndexAt(executed, s + 1) == IndexAt(executed, s) + |RequestsOf(executed[s])|
  {
    assert executed[..s + 1][..s] == executed[..s];
  }

  lemma IndexPrefix(executed: seq<Slot>, longer: seq<Slot>, t: nat)
    requires executed <= longer && t <= |executed|
    ensures IndexAt(longer, t) == IndexAt(executed, t)
  {
    assert longer[..t] == executed[..t];
  }

  lemma StreamPrefix(executed: seq<Slot>, t: nat)
    requires t <= |executed|
    ensures Stream(executed[..t]) <= Stream(executed)
  {
    assert executed == executed[..t] + executed[t..];
    StreamAppend(executed[..t], executed[t..]);
  }

  lemma IndexGrows(executed: seq<Slot>, s: nat, t: nat)
    requires s <= t <= |executed|
    ensures IndexAt(executed, s) <= IndexAt(executed, t) <= |Stream(executed)|
  {
    StreamPrefix(executed, t);
    StreamPrefix(executed[..t], s);
    assert executed[..t][..s] == executed[..s];
  }

  /** The n-th request of the stream is carried by the slot whose requests the
      stream has reached by then; a no-op slot carries none. */
  lemma {:induction false} StreamSlot(slots: seq<Slot>, n: nat) returns (j: nat, i: nat)
    requires n < |Stream(slots)|
    ensures j < |slots| && slots[j].state.Received? && i < |slots[j].requests|
    ensures |Stream(slots[..j])| + i == n && slots[j].requests[i] == Stream(slots)[n]
  {
    var front := slots[..|slots| - 1];
    if n < |Stream(front)| {
      j, i := StreamSlot(front, n);
      assert front[..j] == slots[..j];
    } else {
      j, i := |front|, n - |Stream(front)|;
    }
  }

  /** A position at or past the index of slot t is in a slot from t on. */
  lemma PlacedIn(executed: seq<Slot>, k: Key, n: nat, t: nat, slots: map<nat, Slot>)
    requires Placed(executed, k, n) && t <= |executed| && IndexAt(executed, t) <= n && Retains(slots, executed, t)
    ensures CarriedIn(slots, t, |executed|, k)
  {
    var j, i := StreamSlot(executed, n);
    if j < t {
      IndexStep(executed, j);
      IndexGrows(executed, j + 1, t);
      assert false;
    }
    assert KeyOf(RequestsOf(executed[j])[i]) == k && Carries(RequestsOf(slots[j]), k);
  }

  /** One between the indexes of a slot and the next is in that slot. */
  lemma PlacedAt(executed: seq<Slot>, k: Key, n: nat, s: nat)
    requires Placed(executed, k, n) && s < |executed| && IndexAt(executed, s) <= n < IndexAt(executed, s + 1)
    ensures Carries(RequestsOf(executed[s]), k)
  {
    StreamPrefix(executed, s + 1);
    assert executed[..s + 1][..s] == executed[..s];
    var i := n - IndexAt(executed, s);
    assert RequestsOf(executed[s])[i] == Stream(executed)[n];
  }

  lemma PlacedStays(executed: seq<Slot>, more: seq<Slot>, k: Key, n: nat)
    requires Placed(executed, k, n)
    ensures Placed(executed + more, k, n)
  {
    StreamAppend(executed, more);
  }

  lemma ExecutedIndexed(fold: Fold, x: Exec, executed: seq<Slot>, slots: seq<Slot>)
    requires Indexed(x, executed)
    ensures Indexed(RunFrom(fold, x, |executed|, slots), executed + slots)
    ensures forall k :: k in RunFrom(fold, x, |executed|, slots).dedup && k !in x.dedup ==>
      x.nextIndex <= RunFrom(fold, x, |executed|, slots).dedup[k]
  {
    hide RunFrom, ApplyAll, Stream, KeyOf;
    var y := RunFrom(fold, x, |executed|, slots);
    RunFromAdds(fold, x, |executed|, slots);
    StreamAppend(executed, slots);
    forall k | k in y.dedup ensures Placed(executed + slots, k, y.dedup[k]) {
      if k in x.dedup {
        PlacedStays(executed, slots, k, x.dedup[k]);
      }
    }
  }

  // ------------------------------------------------------------- the records

  /** No request of a pruned slot is left in the dedup map. */
  ghost predicate NonePruned(dedup: map<Key, nat>, low: nat) {
    forall k :: k in dedup ==> low <= dedup[k]
  }

  /** The entry of executed slot s records the indexes around it. */
  ghost predicate EntryCounts(executed: seq<Slot>, s: nat, e: Entry) {
    && e.logIndexAfter == IndexAt(executed, s + 1)
    && (e.state.Received? ==> e.logIdxLo == IndexAt(executed, s) && e.logIdxHi == IndexAt(executed, s + 1))
  }

  ghost predicate LogCounts(executed: seq<Slot>, log: map<nat, Entry>, from: nat) {
    forall s: nat :: from <= s < |executed| && s in log ==> EntryCounts(executed, s, log[s])
  }

  ghost predicate RingCounts(executed: seq<Slot>, indexes: seq<nat>, peak: nat) {
    && 0 < |indexes| && |executed| <= peak
    && forall s: nat :: s < |executed| && InReach(s, |indexes|, peak) ==> indexes[s % |indexes|] == IndexAt(executed, s + 1)
  }

  lemma CountsAdvance(fold: Fold, executed: seq<Slot>, log: map<nat, Entry>, from: nat, x: Exec, indexes: seq<nat>, peak: nat,
      c: Slot, e: Entry, x': Exec, peak': nat)
    requires from <= |executed| && Indexed(x, executed) && NonePruned(x.dedup, IndexAt(executed, from))
    requires LogCounts(executed, log, from) && RingCounts(executed, indexes, peak)
    requires x' == ApplySlot(fold, x, |executed|, c) && e.state == c.state && e.logIndexAfter == x'.nextIndex
    requires e.state.Received? ==> e.logIdxLo == x.nextIndex && e.logIdxHi == x'.nextIndex
    requires peak' == if |executed| < peak then peak else |executed| + 1
    ensures var longer, n := executed + [c], |executed|;
      && Indexed(x', longer) && NonePruned(x'.dedup, IndexAt(longer, from))
      && LogCounts(longer, log[n := e], from) && RingCounts(longer, indexes[n % |indexes| := x'.nextIndex], peak')
  {
    hide Indexed, NonePruned, Stream, ApplySlot, LogCounts, RingCounts, IndexAt, RunFrom;
    DedupAdvances(fold, executed, x, c, x', from);
    AtEnd(executed, x);
    AtEnd(executed + [c], x');
    IndexPrefix(executed, executed + [c], |executed|);
    LogCountsAdvance(executed, log, from, c, e);
    RingCountsAdvance(executed, indexes, peak, c, x'.nextIndex, peak');
  }

  lemma AtEnd(executed: seq<Slot>, x: Exec)
    requires Indexed(x, executed)
    ensures x.nextIndex == IndexAt(executed, |executed|)
  {
    assert executed[..|executed|] == executed;
  }

  lemma DedupAdvances(fold: Fold, executed: seq<Slot>, x: Exec, c: Slot, x': Exec, from: nat)
    requires from <= |executed| && Indexed(x, executed) && NonePruned(x.dedup, IndexAt(executed, from))
    requires x' == ApplySlot(fold, x, |executed|, c)
    ensures Indexed(x', executed + [c]) && NonePruned(x'.dedup, IndexAt(executed + [c], from))
  {
    hide ApplySlot, Placed;
    OneSlot(fold, x, |executed|, c);
    ExecutedIndexed(fold, x, executed, [c]);
    RunFromAdds(fold, x, |executed|, [c]);
    IndexPrefix(executed, executed + [c], from);
    IndexGrows(executed, from, |executed|);
  }

  lemma OneSlot(fold: Fold, x: Exec, slot: nat, c: Slot)
    ensures RunFrom(fold, x, slot, [c]) == ApplySlot(fold, x, slot, c)
  {
    assert [c][..0] == [];
    assert RunFrom(fold, x, slot, []) == x;
  }

  lemma LogCountsAdvance(executed: seq<Slot>, log: map<nat, Entry>, from: nat, c: Slot, e: Entry)
    requires LogCounts(executed, log, from) && EntryCounts(executed + [c], |executed|, e)
    ensures LogCounts(executed + [c], log[|executed| := e], from)
  {
    hide IndexAt;
    forall s: nat | from <= s < |executed| && s in log ensures EntryCounts(executed + [c], s, log[s]) {
      IndexPrefix(executed, executed + [c], s);
      IndexPrefix(executed, executed + [c], s + 1);
    }
  }

  lemma RingCountsAdvance(executed: seq<Slot>, indexes: seq<nat>, peak: nat, c: Slot, index: nat, peak': nat)
    requires RingCounts(executed, indexes, peak) && index == IndexAt(executed + [c], |executed| + 1)
    requires peak' == if |executed| < peak then peak else |executed| + 1
    ensures RingCounts(executed + [c], indexes[|executed| % |indexes| := index], peak')
  {
    hide IndexAt;
    var n, size, longer := |executed|, |indexes|, executed + [c];
    var indexes' := indexes[n % size := index];
    forall s: nat | s <= n && InReach(s, size, peak') ensures indexes'[s % size] == IndexAt(longer, s + 1) {
      if s < n {
        IndexPrefix(executed, longer, s + 1);
        Residues(s, n, size);
      }
    }
  }

  /** Pruning slot s takes out exactly its requests. */
  lemma CountsPrune(executed: seq<Slot>, log: map<nat, Entry>, s: nat, x: Exec, dedup': map<Key, nat>)
    requires s < |executed| && s in log && Content(log[s]) == executed[s] && (log[s].requests != [] ==> log[s].state.Received?)
    requires Indexed(x, executed) && NonePruned(x.dedup, IndexAt(executed, s)) && LogCounts(executed, log, s)
    requires if log[s].requests == [] then dedup' == x.dedup
      else Released(x.dedup, dedup', log[s].requests, log[s].logIdxLo, Some(log[s].logIdxHi))
    ensures Indexed(x.(dedup := dedup'), executed) && NonePruned(dedup', IndexAt(executed, s + 1)) && LogCounts(executed, log - {s}, s + 1)
  {
    hide IndexAt, Carries, Placed, Stream;
    IndexStep(executed, s);
    assert EntryCounts(executed, s, log[s]);
    forall k | k in dedup' ensures IndexAt(executed, s + 1) <= dedup'[k] {
      if x.dedup[k] < IndexAt(executed, s + 1) {
        PlacedAt(executed, k, x.dedup[k], s);
      }
    }
  }

  /** After a rewind to slot t the indexes are positions again if and only if the
      index that was read is the one slot t began with. */
  lemma IndexedRewindsIff(executed: seq<Slot>, from: nat, t: nat, slots: map<nat, Slot>, x: Exec, x': Exec)
    requires from <= |executed| && t <= |executed| && Indexed(x, executed) && NonePruned(x.dedup, IndexAt(executed, from))
    requires Retains(slots, executed, from) && Undone(x.dedup, x'.dedup, slots, t, |executed|, x'.nextIndex)
    ensures Indexed(x', executed[..t]) <==> x'.nextIndex == IndexAt(executed, t)
    ensures NonePruned(x'.dedup, IndexAt(executed, from))
  {
    hide CarriedIn, Placed;
    if x'.nextIndex == IndexAt(executed, t) {
      var low := if t < from then from else t;
      forall k | k in x.dedup && x.dedup[k] >= IndexAt(executed, t) ensures CarriedIn(slots, t, |executed|, k) {
        PlacedIn(executed, k, x.dedup[k], low, slots);
        CarriedEarlier(slots, t, low, |executed|, k);
      }
      forall k | k in x'.dedup ensures Placed(executed[..t], k, x'.dedup[k]) {
        PlacedBelow(executed, t, k, x.dedup[k]);
      }
    }
  }

  lemma PlacedBelow(executed: seq<Slot>, t: nat, k: Key, n: nat)
    requires t <= |executed| && Placed(executed, k, n) && n < IndexAt(executed, t)
    ensures Placed(executed[..t], k, n)
  {
    StreamPrefix(executed, t);
  }

  lemma CarriedEarlier(slots: map<nat, Slot>, lo: nat, from: nat, hi: nat, k: Key)
    requires lo <= from && CarriedIn(slots, from, hi, k)
    ensures CarriedIn(slots, lo, hi, k)
  {
  }

  lemma CountsRewind(executed: seq<Slot>, log: map<nat, Entry>, log': map<nat, Entry>, from: nat, t: nat, indexes: seq<nat>, peak: nat)
    requires t <= |executed| && LogCounts(executed, log, from) && RingCounts(executed, indexes, peak)
    requires forall s :: s in log' && s < t ==> s in log && log'[s] == log[s]
    ensures LogCounts(executed[..t], log', from) && RingCounts(executed[..t], indexes, peak)
  {
    hide IndexAt;
    forall s: nat | s <= t ensures IndexAt(executed[..t], s) == IndexAt(executed, s) {
      IndexPrefix(executed[..t], executed, s);
    }
  }

  /** Whatever index was read: afterwards no index was given twice or is still to
      come if and only if every entry at or past it belongs to a slot that was
      undone. */
  lemma SaneRewindsIff(x: Exec, x': Exec, slots: map<nat, Slot>, t: nat, n: nat)
    requires Sane(x) && Undone(x.dedup, x'.dedup, slots, t, n, x'.nextIndex)
    ensures Sane(x') <==> forall k :: k in x.dedup && x'.nextIndex <= x.dedup[k] ==> CarriedIn(slots, t, n, k)
  {
    hide CarriedIn;
  }

  // ------------------------------------------------------------- and the replay

  lemma ReplayIndexed(fold: Fold, seed: u64, executed: seq<Slot>)
    ensures Indexed(Run(fold, seed, executed), executed)
  {
    RunIsStream(fold, seed, executed);
    StreamMeaning(seed, Stream(executed));
  }

  lemma FullIndex(fold: Fold, seed: u64, executed: seq<Slot>, t: nat)
    requires t <= |executed|
    ensures Full(fold, seed, executed, t).nextIndex == IndexAt(executed, t)
  {
    ReplayIndexed(fold, seed, executed[..t]);
  }

  /** Where the state is the replay, but for pruned entries, so are the indexes. */
  lemma ExactCounts(fold: Fold, seed: u64, executed: seq<Slot>, log: map<nat, Entry>, from: nat, x: Exec, hashes: seq<u64>, indexes: seq<nat>, peak: nat)
    requires from <= |executed| && x == Forget(Full(fold, seed, executed, |executed|), Full(fold, seed, executed, from).nextIndex)
    requires LogRecords(fold, seed, executed, log, from) && RingRecords(fold, seed, executed, hashes, indexes, peak)
    ensures Indexed(x, executed) && NonePruned(x.dedup, IndexAt(executed, from))
    ensures LogCounts(executed, log, from) && RingCounts(executed, indexes, peak)
  {
    hide IndexAt, Full, UndoOk, Placed, Stream;
    forall t: nat | t <= |executed| ensures Full(fold, seed, executed, t).nextIndex == IndexAt(executed, t) {
      FullIndex(fold, seed, executed, t);
    }
    FullEnd(fold, seed, executed);
    ReplayIndexed(fold, seed, executed);
    assert forall s: nat :: from <= s < |executed| && s in log ==> Recorded(fold, seed, executed, s, log[s]);
  }

  lemma FullEnd(fold: Fold, seed: u64, executed: seq<Slot>)
    ensures Full(fold, seed, executed, |executed|) == Run(fold, seed, executed)
  {
    assert executed[..|executed|] == executed;
  }
}
