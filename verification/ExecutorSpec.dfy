/** The executor's records as values: log entries with their undo lists and byte
    counts, the ring of prefix states, and when they agree with the replay. */
module ExecutorSpec {
  import opened Schedule
  import opened ReplicaSpec
  import opened Replay
  import opened SlotArithmetic

  datatype WriteUndo = WriteUndo(key: u64, value: Value, present: bool)

  datatype Entry = Entry(
    clientId: u64, reqId: u64, state: SlotState, op: Value, requests: seq<Request>, isBus: bool, ownerSet: bool,
    logIdxLo: nat, logIdxHi: nat, prefixHash: u64, logIndexAfter: nat, undo: seq<WriteUndo>, sizeBytes: nat)

  const EMPTY_ENTRY := Entry(0, 0, Empty, [], [], false, false, 0, 0, 0, 0, [], 0)
  const REQUEST_OVERHEAD := 48
  const UNDO_OVERHEAD := 40

  datatype Reply = Reply(clientId: u64, requestId: u64, busSlot: nat, logIndex: nat, viewId: nat)

  function Content(e: Entry): Slot {
    Slot(e.state, e.clientId, e.reqId, e.requests)
  }

  /** What the slots of the log hold, without the bookkeeping. */
  function SlotsOf(log: map<nat, Entry>): map<nat, Slot> {
    map s | s in log :: Content(log[s])
  }

  // ------------------------------------------------------------- replies

  /** The replies for a slot's requests: the indexes the dedup map has for them. */
  function Answers(qs: seq<Request>, slot: nat, dedup: map<Key, nat>, view: nat): seq<Reply> {
    if qs == [] then []
    else
      var q := qs[|qs| - 1];
      Answers(qs[..|qs| - 1], slot, dedup, view)
      + if KeyOf(q) in dedup then [Reply(q.clientId, q.requestId, slot, dedup[KeyOf(q)], view)] else []
  }

  /** The replies for executed slots, numbered from `from` on. */
  function AnswersFor(slots: seq<Slot>, from: nat, dedup: map<Key, nat>, view: nat): seq<Reply> {
    if slots == [] then []
    else
      var n := |slots| - 1;
      AnswersFor(slots[..n], from, dedup, view) + Answers(RequestsOf(slots[n]), from + n, dedup, view)
  }

  /** The replies that replayRepliesLocked queues again for the slots of a range. */
  function Replayed(log: map<nat, Slot>, from: nat, end: nat, dedup: map<Key, nat>, view: nat): seq<Reply>
    decreases end
  {
    if end <= from then []
    else
      Replayed(log, from, end - 1, dedup, view)
      + if end - 1 in log then Answers(RequestsOf(log[end - 1]), end - 1, dedup, view) else []
  }

  /** A reply is for a request that has an index, and gives it. */
  ghost predicate Truthful(r: Reply, dedup: map<Key, nat>, view: nat) {
    r.viewId == view && Key(r.clientId, r.requestId) in dedup && dedup[Key(r.clientId, r.requestId)] == r.logIndex
  }

  lemma {:induction false} AnswersTruthful(qs: seq<Request>, slot: nat, dedup: map<Key, nat>, view: nat)
    ensures forall r :: r in Answers(qs, slot, dedup, view) ==> Truthful(r, dedup, view)
  {
    if qs != [] {
      AnswersTruthful(qs[..|qs| - 1], slot, dedup, view);
    }
  }

  lemma {:induction false} AnswersForTruthful(slots: seq<Slot>, from: nat, dedup: map<Key, nat>, view: nat)
    ensures forall r :: r in AnswersFor(slots, from, dedup, view) ==> Truthful(r, dedup, view)
  {
    if slots != [] {
      AnswersForTruthful(slots[..|slots| - 1], from, dedup, view);
      AnswersTruthful(RequestsOf(slots[|slots| - 1]), from + |slots| - 1, dedup, view);
    }
  }

  lemma {:induction false} ReplayedTruthful(log: map<nat, Slot>, from: nat, end: nat, dedup: map<Key, nat>, view: nat)
    ensures forall r :: r in Replayed(log, from, end, dedup, view) ==> Truthful(r, dedup, view)
    decreases end
  {
    if end > from {
      ReplayedTruthful(log, from, end - 1, dedup, view);
      if end - 1 in log {
        AnswersTruthful(RequestsOf(log[end - 1]), end - 1, dedup, view);
      }
    }
  }

  lemma {:induction false} AnswersComplete(qs: seq<Request>, slot: nat, dedup: map<Key, nat>, view: nat, q: Request)
    requires q in qs && KeyOf(q) in dedup
    ensures Reply(q.clientId, q.requestId, slot, dedup[KeyOf(q)], view) in Answers(qs, slot, dedup, view)
  {
    if q != qs[|qs| - 1] {
      AnswersComplete(qs[..|qs| - 1], slot, dedup, view, q);
    }
  }

  /** Every request of an executed bus is answered that has an index ... */
  lemma {:induction false} AnswersForComplete(slots: seq<Slot>, from: nat, dedup: map<Key, nat>, view: nat, j: nat, q: Request)
    requires j < |slots| && slots[j].state.Received? && q in slots[j].requests && KeyOf(q) in dedup
    ensures Reply(q.clientId, q.requestId, from + j, dedup[KeyOf(q)], view) in AnswersFor(slots, from, dedup, view)
  {
    hide Answers;
    var n := |slots| - 1;
    if j < n {
      assert slots[..n][j] == slots[j];
      AnswersForComplete(slots[..n], from, dedup, view, j, q);
    } else {
      AnswersComplete(slots[n].requests, from + n, dedup, view, q);
    }
  }

  /** ... and so is every one of the range that is answered again. */
  lemma {:induction false} ReplayedComplete(log: map<nat, Slot>, from: nat, end: nat, dedup: map<Key, nat>, view: nat, s: nat, q: Request)
    requires from <= s < end && s in log && log[s].state.Received? && q in log[s].requests && KeyOf(q) in dedup
    ensures Reply(q.clientId, q.requestId, s, dedup[KeyOf(q)], view) in Replayed(log, from, end, dedup, view)
    decreases end
  {
    hide Answers;
    if s < end - 1 {
      ReplayedComplete(log, from, end - 1, dedup, view, s, q);
    } else {
      AnswersComplete(log[s].requests, s, dedup, view, q);
    }
  }

  /** Indexes that were given do not change, so neither do the replies. */
  lemma {:induction false} AnswersStay(qs: seq<Request>, slot: nat, dedup: map<Key, nat>, dedup': map<Key, nat>, view: nat)
    requires forall i :: 0 <= i < |qs| ==> KeyOf(qs[i]) in dedup
    requires forall k :: k in dedup ==> k in dedup' && dedup'[k] == dedup[k]
    ensures Answers(qs, slot, dedup', view) == Answers(qs, slot, dedup, view)
  {
    if qs != [] {
      AnswersStay(qs[..|qs| - 1], slot, dedup, dedup', view);
    }
  }

  lemma {:induction false} AnswersForStay(slots: seq<Slot>, from: nat, dedup: map<Key, nat>, dedup': map<Key, nat>, view: nat)
    requires forall q :: q in Stream(slots) ==> KeyOf(q) in dedup
    requires forall k :: k in dedup ==> k in dedup' && dedup'[k] == dedup[k]
    ensures AnswersFor(slots, from, dedup', view) == AnswersFor(slots, from, dedup, view)
  {
    if slots != [] {
      var last := RequestsOf(slots[|slots| - 1]);
      assert forall i :: 0 <= i < |last| ==> last[i] in Stream(slots);
      AnswersForStay(slots[..|slots| - 1], from, dedup, dedup', view);
      AnswersStay(last, from + |slots| - 1, dedup, dedup', view);
    }
  }

  // ------------------------------------------------------------- bytes

  function BusBytes(qs: seq<Request>): nat {
    if qs == [] then 0 else BusBytes(qs[..|qs| - 1]) + REQUEST_OVERHEAD + |qs[|qs| - 1].op|
  }

  /** A bus is charged for each request: its payload and 48 bytes. */
  lemma {:induction false} BusBytesSum(qs: seq<Request>, more: seq<Request>)
    ensures BusBytes([]) == 0
    ensures forall q :: BusBytes([q]) == |q.op| + 48
    ensures BusBytes(qs + more) == BusBytes(qs) + BusBytes(more)
  {
    forall q ensures BusBytes([q]) == |q.op| + 48 {
      assert [q][..0] == [];
    }
    if more == [] {
      assert qs + more == qs;
    } else {
      BusBytesSum(qs, more[..|more| - 1]);
      assert (qs + more)[..|qs + more| - 1] == qs + more[..|more| - 1];
    }
  }

  function UndoBytes(undo: seq<WriteUndo>): nat {
    if undo == [] then 0 else UndoBytes(undo[..|undo| - 1]) + UNDO_OVERHEAD + |undo[|undo| - 1].value|
  }

  function PayloadBytes(e: Entry): nat {
    if !e.state.Received? then 0 else if e.isBus then BusBytes(e.requests) else |e.op| + REQUEST_OVERHEAD
  }

  predicate EntryOk(e: Entry) {
    && e.sizeBytes == PayloadBytes(e) + UndoBytes(e.undo)
    && (!e.state.Empty? ==> e.ownerSet)
    && (!e.state.Received? ==> e.requests == [] && e.undo == [])
    && (!e.isBus ==> e.requests == [])
  }

  /** The sum of the entries' sizes, over the slots below n. */
  function Bytes(log: map<nat, Entry>, n: nat): nat {
    if n == 0 then 0 else Bytes(log, n - 1) + (if n - 1 in log then log[n - 1].sizeBytes else 0)
  }

  function SizeAt(log: map<nat, Entry>, s: nat): nat {
    if s in log then log[s].sizeBytes else 0
  }

  lemma {:induction false} BytesChange(log: map<nat, Entry>, log': map<nat, Entry>, s: nat, n: nat)
    requires forall t: nat :: t != s ==> SizeAt(log, t) == SizeAt(log', t)
    ensures Bytes(log', n) == Bytes(log, n) + if s < n then SizeAt(log', s) - SizeAt(log, s) else 0
  {
    if n > 0 {
      BytesChange(log, log', s, n - 1);
      assert SizeAt(log, n - 1) == SizeAt(log', n - 1) || s == n - 1;
    }
  }

  lemma {:induction false} BytesBeyond(log: map<nat, Entry>, n: nat, m: nat)
    requires n <= m && forall s :: s in log ==> s < n
    ensures Bytes(log, m) == Bytes(log, n)
  {
    if n < m {
      BytesBeyond(log, n, m - 1);
    }
  }

  lemma {:induction false} BytesAtLeast(log: map<nat, Entry>, s: nat, n: nat)
    requires s in log && s < n
    ensures log[s].sizeBytes <= Bytes(log, n)
  {
    if s < n - 1 {
      BytesAtLeast(log, s, n - 1);
    }
  }

  // ------------------------------------------------------------- undo

  predicate HasKey(undo: seq<WriteUndo>, c: u64) {
    exists i :: 0 <= i < |undo| && undo[i].key == c
  }

  predicate SameAt(a: map<u64, Value>, b: map<u64, Value>, c: u64) {
    (c in a <==> c in b) && (c in a ==> a[c] == b[c])
  }

  predicate Remembers(u: WriteUndo, before: map<u64, Value>) {
    if u.key in before then u.present && u.value == before[u.key] else !u.present && u.value == []
  }

  /** `undo` takes the store `after` back to `before`. */
  ghost predicate UndoOk(undo: seq<WriteUndo>, before: map<u64, Value>, after: map<u64, Value>) {
    && (forall i, j :: 0 <= i < j < |undo| ==> undo[i].key != undo[j].key)
    && (forall i :: 0 <= i < |undo| ==> Remembers(undo[i], before))
    && (forall c :: !HasKey(undo, c) ==> SameAt(before, after, c))
  }

  lemma UndoNothing(store: map<u64, Value>)
    ensures UndoOk([], store, store)
  {
  }

  /** A write to a key that is remembered, or remembered now, stays undoable. */
  lemma UndoExtends(undo: seq<WriteUndo>, before: map<u64, Value>, store: map<u64, Value>, c: u64, v: Value, undo': seq<WriteUndo>)
    requires UndoOk(undo, before, store)
    requires undo' == if HasKey(undo, c) then undo
      else undo + [WriteUndo(c, if c in store then store[c] else [], c in store)]
    ensures UndoOk(undo', before, store[c := v])
  {
    if !HasKey(undo, c) {
      assert SameAt(before, store, c);
      assert HasKey(undo', c) by { assert undo'[|undo|].key == c; }
      forall d | HasKey(undo, d) ensures HasKey(undo', d) {
        var i :| 0 <= i < |undo| && undo[i].key == d;
        assert undo'[i].key == d;
      }
    }
  }

  // ------------------------------------------------------------- agreement with the replay

  ghost function Full(fold: Fold, seed: u64, executed: seq<Slot>, t: nat): Exec {
    if t <= |executed| then Run(fold, seed, executed[..t]) else Init(seed)
  }

  /** The entry of executed slot s records the replay's state around it. */
  ghost predicate Recorded(fold: Fold, seed: u64, executed: seq<Slot>, s: nat, e: Entry) {
    var before, after := Full(fold, seed, executed, s), Full(fold, seed, executed, s + 1);
    && e.prefixHash == after.hash && e.logIndexAfter == after.nextIndex
    && (e.state.Received? ==> e.logIdxLo == before.nextIndex && e.logIdxHi == after.nextIndex)
    && UndoOk(e.undo, before.store, after.store)
  }

  ghost predicate LogRecords(fold: Fold, seed: u64, executed: seq<Slot>, log: map<nat, Entry>, from: nat) {
    forall s: nat :: from <= s < |executed| && s in log ==> Recorded(fold, seed, executed, s, log[s])
  }

  /** The ring holds the prefix states of the slots within reach of the highest
      frontier that was ever executed. */
  ghost predicate RingRecords(fold: Fold, seed: u64, executed: seq<Slot>, hashes: seq<u64>, indexes: seq<nat>, peak: nat) {
    && 0 < |hashes| == |indexes| && |executed| <= peak
    && forall s: nat :: s < |executed| && InReach(s, |hashes|, peak) ==> CellIs(hashes, indexes, s, Full(fold, seed, executed, s + 1))
  }

  predicate InReach(s: nat, size: nat, frontier: nat) {
    s + size >= frontier
  }

  ghost predicate CellIs(hashes: seq<u64>, indexes: seq<nat>, s: nat, x: Exec)
    requires 0 < |hashes| == |indexes|
  {
    hashes[s % |hashes|] == x.hash && indexes[s % |hashes|] == x.nextIndex
  }

  lemma FullPrefix(fold: Fold, seed: u64, executed: seq<Slot>, longer: seq<Slot>, t: nat)
    requires executed <= longer && t <= |executed|
    ensures Full(fold, seed, longer, t) == Full(fold, seed, executed, t)
  {
    assert longer[..t] == executed[..t];
  }

  lemma FullStep(fold: Fold, seed: u64, executed: seq<Slot>, s: nat)
    requires s < |executed|
    ensures Full(fold, seed, executed, s + 1) == ApplySlot(fold, Full(fold, seed, executed, s), s, executed[s])
  {
    assert executed[..s + 1][..s] == executed[..s];
  }

  lemma FullLater(fold: Fold, seed: u64, executed: seq<Slot>, s: nat, t: nat)
    requires s <= t <= |executed|
    ensures Later(Full(fold, seed, executed, s), Full(fold, seed, executed, t))
  {
    assert executed[..t][..s] == executed[..s];
    RunLater(fold, seed, executed[..t], s);
  }

  lemma Residues(s: nat, t: nat, size: nat)
    requires s < t < s + size
    ensures s % size != t % size
  {
    var m := t / size - s / size;
    assert t - s == m * size + (t % size - s % size);
    Multiple(m, size);
  }

  lemma RingAdvances(fold: Fold, seed: u64, executed: seq<Slot>, hashes: seq<u64>, indexes: seq<nat>, peak: nat, c: Slot, x: Exec, peak': nat)
    requires RingRecords(fold, seed, executed, hashes, indexes, peak)
    requires x == Full(fold, seed, executed + [c], |executed| + 1)
    requires peak' == if |executed| < peak then peak else |executed| + 1
    ensures var i := |executed| % |hashes|;
      RingRecords(fold, seed, executed + [c], hashes[i := x.hash], indexes[i := x.nextIndex], peak')
  {
    hide Full;
    var n, size, longer := |executed|, |hashes|, executed + [c];
    var hashes', indexes' := hashes[n % size := x.hash], indexes[n % size := x.nextIndex];
    forall s: nat | s <= n && InReach(s, size, peak') ensures CellIs(hashes', indexes', s, Full(fold, seed, longer, s + 1)) {
      if s < n {
        FullPrefix(fold, seed, executed, longer, s + 1);
        assert InReach(s, size, peak);
        CellKept(hashes, indexes, s, n, Full(fold, seed, executed, s + 1), x);
      }
    }
  }

  lemma CellKept(hashes: seq<u64>, indexes: seq<nat>, s: nat, n: nat, y: Exec, x: Exec)
    requires 0 < |hashes| == |indexes| && s < n && s + |hashes| > n && CellIs(hashes, indexes, s, y)
    ensures CellIs(hashes[n % |hashes| := x.hash], indexes[n % |hashes| := x.nextIndex], s, y)
  {
    Residues(s, n, |hashes|);
  }

  lemma RingShrinks(fold: Fold, seed: u64, executed: seq<Slot>, hashes: seq<u64>, indexes: seq<nat>, peak: nat, t: nat)
    requires RingRecords(fold, seed, executed, hashes, indexes, peak) && t <= |executed|
    ensures RingRecords(fold, seed, executed[..t], hashes, indexes, peak)
  {
    hide Full;
    forall s: nat | s < t && InReach(s, |hashes|, peak) ensures CellIs(hashes, indexes, s, Full(fold, seed, executed[..t], s + 1)) {
      FullPrefix(fold, seed, executed[..t], executed, s + 1);
    }
  }

  lemma LogAdvances(fold: Fold, seed: u64, executed: seq<Slot>, log: map<nat, Entry>, from: nat, e: Entry, c: Slot)
    requires LogRecords(fold, seed, executed, log, from)
    requires Recorded(fold, seed, executed + [c], |executed|, e)
    ensures LogRecords(fold, seed, executed + [c], log[|executed| := e], from)
  {
    var longer := executed + [c];
    forall s: nat | from <= s < |executed| && s in log ensures Recorded(fold, seed, longer, s, log[s]) {
      FullPrefix(fold, seed, executed, longer, s);
      FullPrefix(fold, seed, executed, longer, s + 1);
    }
  }

  lemma LogShrinks(fold: Fold, seed: u64, executed: seq<Slot>, log: map<nat, Entry>, log': map<nat, Entry>, from: nat, t: nat)
    requires LogRecords(fold, seed, executed, log, from) && t <= |executed|
    requires forall s :: s in log' && s < t ==> s in log && log'[s] == log[s]
    ensures LogRecords(fold, seed, executed[..t], log', from)
  {
    forall s: nat | from <= s < t && s in log' ensures Recorded(fold, seed, executed[..t], s, log'[s]) {
      FullPrefix(fold, seed, executed[..t], executed, s);
      FullPrefix(fold, seed, executed[..t], executed, s + 1);
    }
  }

  // ------------------------------------------------------------- what is taken out of the dedup map

  predicate Carries(qs: seq<Request>, k: Key) {
    exists i :: 0 <= i < |qs| && KeyOf(qs[i]) == k
  }

  predicate InRange(li: nat, lo: nat, hi: Option<nat>) {
    li >= lo && (hi.Some? ==> li < hi.value)
  }

  /** Exactly the entries of these requests with an index in [lo, hi) go. */
  ghost predicate Released(dedup: map<Key, nat>, dedup': map<Key, nat>, qs: seq<Request>, lo: nat, hi: Option<nat>) {
    && (forall k :: k in dedup' <==> k in dedup && !(Carries(qs, k) && InRange(dedup[k], lo, hi)))
    && (forall k :: k in dedup' ==> dedup'[k] == dedup[k])
  }

  /** The dedup entries first assigned in slot s are those of its requests with
      an index in the slot's range. */
  lemma PrunedKeys(fold: Fold, seed: u64, executed: seq<Slot>, s: nat, k: Key)
    requires s < |executed|
    requires k in Full(fold, seed, executed, |executed|).dedup
    requires Full(fold, seed, executed, s).nextIndex <= Full(fold, seed, executed, |executed|).dedup[k]
    requires Full(fold, seed, executed, |executed|).dedup[k] < Full(fold, seed, executed, s + 1).nextIndex
    ensures Carries(RequestsOf(executed[s]), k)
  {
    FullLater(fold, seed, executed, s, |executed|);
    FullLater(fold, seed, executed, s + 1, |executed|);
    FullStep(fold, seed, executed, s);
    var before, after := Full(fold, seed, executed, s), Full(fold, seed, executed, s + 1);
    FullBelow(fold, seed, executed, s);
    ApplyAllLater(before, RequestsOf(executed[s]));
    assert k in after.dedup && k !in before.dedup;
  }

  lemma FullBelow(fold: Fold, seed: u64, executed: seq<Slot>, t: nat)
    requires t <= |executed|
    ensures forall k :: k in Full(fold, seed, executed, t).dedup ==> Full(fold, seed, executed, t).dedup[k] < Full(fold, seed, executed, t).nextIndex
  {
    IndexBelow(fold, seed, executed[..t]);
  }

  /** One of the slots from lo up to hi holds the request. */
  ghost predicate CarriedIn(slots: map<nat, Slot>, lo: nat, hi: nat, k: Key) {
    exists s: nat :: lo <= s < hi && s in slots && Carries(RequestsOf(slots[s]), k)
  }

  /** From slot t on, the log still holds what was executed. */
  ghost predicate Retains(slots: map<nat, Slot>, executed: seq<Slot>, t: nat) {
    forall s: nat :: t <= s < |executed| ==> s in slots && slots[s] == executed[s]
  }

  /** The keys that an undo of the slots from t on must take out of the map. */
  lemma UndoneKeys(fold: Fold, seed: u64, executed: seq<Slot>, t: nat, k: Key, slots: map<nat, Slot>)
    requires t <= |executed| && k in Full(fold, seed, executed, |executed|).dedup && Retains(slots, executed, t)
    ensures var full, past := Full(fold, seed, executed, |executed|), Full(fold, seed, executed, t);
      if full.dedup[k] < past.nextIndex then k in past.dedup && past.dedup[k] == full.dedup[k]
      else k !in past.dedup && CarriedIn(slots, t, |executed|, k)
  {
    FullLater(fold, seed, executed, t, |executed|);
    FullBelow(fold, seed, executed, t);
    assert executed[..|executed|] == executed;
    Carrier(fold, seed, executed, t, k);
    if k !in Full(fold, seed, executed, t).dedup {
      var j, i :| t <= j < |executed| && 0 <= i < |RequestsOf(executed[j])| && KeyOf(RequestsOf(executed[j])[i]) == k;
      assert Carries(RequestsOf(slots[j]), k);
    }
  }

  /** An undo of the slots from s up to n takes out exactly the requests they
      hold, where the index is at or past `logIdx`. */
  ghost predicate Undone(dedup: map<Key, nat>, dedup': map<Key, nat>, slots: map<nat, Slot>, s: nat, n: nat, logIdx: nat) {
    && (forall k :: k in dedup' <==> k in dedup && (dedup[k] < logIdx || !CarriedIn(slots, s, n, k)))
    && (forall k :: k in dedup' ==> dedup'[k] == dedup[k])
  }

  lemma UndoneOneMore(dedup: map<Key, nat>, d1: map<Key, nat>, d2: map<Key, nat>, slots: map<nat, Slot>, s: nat, n: nat, logIdx: nat)
    requires s < n && Undone(dedup, d1, slots, s + 1, n, logIdx)
    requires s !in slots ==> d2 == d1
    requires s in slots ==> Released(d1, d2, RequestsOf(slots[s]), logIdx, None)
    ensures Undone(dedup, d2, slots, s, n, logIdx)
  {
    forall k ensures CarriedIn(slots, s, n, k) <==> CarriedIn(slots, s + 1, n, k) || (s in slots && Carries(RequestsOf(slots[s]), k)) {
      if CarriedIn(slots, s + 1, n, k) {
        var j: nat :| s + 1 <= j < n && j in slots && Carries(RequestsOf(slots[j]), k);
      }
    }
    hide CarriedIn, Carries;
  }

  /** With the right log index, the undone map is the one that slot t started from. */
  lemma DedupRewound(fold: Fold, seed: u64, executed: seq<Slot>, from: nat, t: nat, dedup: map<Key, nat>, dedup': map<Key, nat>, slots: map<nat, Slot>)
    requires from <= t <= |executed| && Retains(slots, executed, t)
    requires var b := Full(fold, seed, executed, from).nextIndex; dedup == Forget(Full(fold, seed, executed, |executed|), b).dedup
    requires Undone(dedup, dedup', slots, t, |executed|, Full(fold, seed, executed, t).nextIndex)
    ensures dedup' == Forget(Full(fold, seed, executed, t), Full(fold, seed, executed, from).nextIndex).dedup
  {
    hide Full, CarriedIn;
    var full, past := Full(fold, seed, executed, |executed|), Full(fold, seed, executed, t);
    var want := Forget(past, Full(fold, seed, executed, from).nextIndex).dedup;
    forall k | k in dedup' ensures k in want && want[k] == dedup'[k] {
      UndoneKeys(fold, seed, executed, t, k, slots);
    }
    FullLater(fold, seed, executed, t, |executed|);
    FullBelow(fold, seed, executed, t);
  }

  /** Dropping the entries of slot s moves the pruned boundary past it. */
  lemma DedupPruned(fold: Fold, seed: u64, executed: seq<Slot>, s: nat, dedup: map<Key, nat>, dedup': map<Key, nat>)
    requires s < |executed|
    requires dedup == Forget(Full(fold, seed, executed, |executed|), Full(fold, seed, executed, s).nextIndex).dedup
    requires Released(dedup, dedup', RequestsOf(executed[s]), Full(fold, seed, executed, s).nextIndex, Some(Full(fold, seed, executed, s + 1).nextIndex))
    ensures dedup' == Forget(Full(fold, seed, executed, |executed|), Full(fold, seed, executed, s + 1).nextIndex).dedup
  {
    hide Full;
    var hi := Full(fold, seed, executed, s + 1).nextIndex;
    FullLater(fold, seed, executed, s, s + 1);
    forall k | k in dedup' ensures dedup'[k] >= hi {
      if dedup'[k] < hi {
        PrunedKeys(fold, seed, executed, s, k);
      }
    }
  }
}
