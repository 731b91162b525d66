/** What executing the log means: a pure replay of the executed slots, with the
    first occurrence of a request deciding its log index and its write. */
module Replay {
  import opened Schedule

  type Value = seq<bv8>

  datatype Request = Request(clientId: u64, requestId: u64, op: Value)

  datatype Key = Key(clientId: u64, requestId: u64)

  datatype SlotState = Empty | Received | NoOp

  /** What a slot contributes when it executes. */
  datatype Slot = Slot(state: SlotState, clientId: u64, reqId: u64, requests: seq<Request>)

  /** foldSlot: the running prefix hash, left uninterpreted. */
  type Fold = (u64, nat, SlotState, u64, u64) -> u64

  datatype Exec = Exec(store: map<u64, Value>, dedup: map<Key, nat>, nextIndex: nat, hash: u64)

  function KeyOf(q: Request): Key {
    Key(q.clientId, q.requestId)
  }

  function ApplyRequest(x: Exec, q: Request): Exec {
    if KeyOf(q) in x.dedup then x.(nextIndex := x.nextIndex + 1)
    else x.(nextIndex := x.nextIndex + 1, dedup := x.dedup[KeyOf(q) := x.nextIndex], store := x.store[q.clientId := q.op])
  }

  function ApplyAll(x: Exec, qs: seq<Request>): Exec {
    if qs == [] then x else ApplyRequest(ApplyAll(x, qs[..|qs| - 1]), qs[|qs| - 1])
  }

  function RequestsOf(c: Slot): seq<Request> {
    if c.state.Received? then c.requests else []
  }

  function ApplySlot(fold: Fold, x: Exec, slot: nat, c: Slot): Exec {
    ApplyAll(x, RequestsOf(c)).(hash := fold(x.hash, slot, c.state, c.clientId, c.reqId))
  }

  function Init(seed: u64): Exec {
    Exec(map[], map[], 0, seed)
  }

  function Run(fold: Fold, seed: u64, slots: seq<Slot>): Exec {
    if slots == [] then Init(seed)
    else ApplySlot(fold, Run(fold, seed, slots[..|slots| - 1]), |slots| - 1, slots[|slots| - 1])
  }

  /** Executing further slots, numbered from `slot` on, in any state. */
  function RunFrom(fold: Fold, x: Exec, slot: nat, slots: seq<Slot>): Exec {
    if slots == [] then x
    else ApplySlot(fold, RunFrom(fold, x, slot, slots[..|slots| - 1]), slot + |slots| - 1, slots[|slots| - 1])
  }

  // ------------------------------------------------------------- an independent reading

  /** All requests carried by the executed slots, in log order. */
  function Stream(slots: seq<Slot>): seq<Request> {
    if slots == [] then [] else Stream(slots[..|slots| - 1]) + RequestsOf(slots[|slots| - 1])
  }

  ghost predicate First(stream: seq<Request>, i: nat)
    requires i < |stream|
  {
    forall j :: 0 <= j < i ==> KeyOf(stream[j]) != KeyOf(stream[i])
  }

  ghost predicate LastFirst(stream: seq<Request>, c: u64, i: nat)
    requires i < |stream|
  {
    && stream[i].clientId == c && First(stream, i)
    && forall j :: i < j < |stream| && stream[j].clientId == c ==> !First(stream, j)
  }

  lemma {:induction false} ApplyAllSplit(x: Exec, a: seq<Request>, b: seq<Request>)
    ensures ApplyAll(x, a + b) == ApplyAll(ApplyAll(x, a), b)
  {
    if b == [] {
      assert a + b == a;
    } else {
      ApplyAllSplit(x, a, b[..|b| - 1]);
      assert (a + b)[..|a + b| - 1] == a + b[..|b| - 1];
    }
  }

  lemma {:induction false} HashIrrelevant(x: Exec, h: u64, qs: seq<Request>)
    ensures ApplyAll(x.(hash := h), qs) == ApplyAll(x, qs).(hash := h)
  {
    if qs != [] {
      HashIrrelevant(x, h, qs[..|qs| - 1]);
    }
  }

  lemma {:induction false} RunIsStream(fold: Fold, seed: u64, slots: seq<Slot>)
    ensures Run(fold, seed, slots) == ApplyAll(Init(seed), Stream(slots)).(hash := Run(fold, seed, slots).hash)
  {
    if slots != [] {
      var front, last := slots[..|slots| - 1], slots[|slots| - 1];
      RunIsStream(fold, seed, front);
      HashIrrelevant(ApplyAll(Init(seed), Stream(front)), Run(fold, seed, front).hash, RequestsOf(last));
      ApplyAllSplit(Init(seed), Stream(front), RequestsOf(last));
    }
  }

  lemma FirstOfFront(stream: seq<Request>, n: nat)
    requires n <= |stream|
    ensures forall i :: 0 <= i < n ==> (First(stream[..n], i) <==> First(stream, i))
  {
    var front := stream[..n];
    forall i | 0 <= i < n ensures First(front, i) <==> First(stream, i) {
      assert forall j :: 0 <= j < n ==> front[j] == stream[j];
    }
  }

  lemma {:induction false} StreamMeaning(seed: u64, stream: seq<Request>)
    ensures var x := ApplyAll(Init(seed), stream);
      && x.nextIndex == |stream|
      && (forall i :: 0 <= i < |stream| ==> KeyOf(stream[i]) in x.dedup && x.dedup[KeyOf(stream[i])] <= i)
      && (forall k :: k in x.dedup ==> x.dedup[k] < |stream| && KeyOf(stream[x.dedup[k]]) == k && First(stream, x.dedup[k]))
  {
    if stream != [] {
      var n := |stream| - 1;
      var front := stream[..n];
      StreamMeaning(seed, front);
      var x := ApplyAll(Init(seed), front);
      FirstOfFront(stream, n);
      if KeyOf(stream[n]) !in x.dedup {
        forall j | 0 <= j < n ensures KeyOf(stream[j]) != KeyOf(stream[n]) {
          assert KeyOf(front[j]) in x.dedup;
        }
        assert First(stream, n);
      }
      hide First, KeyOf;
      assert ApplyAll(Init(seed), stream) == ApplyRequest(x, stream[n]);
      forall k | k in x.dedup ensures First(stream, x.dedup[k]) {
        assert First(front, x.dedup[k]);
      }
    }
  }

  lemma NewIsFirst(seed: u64, stream: seq<Request>)
    requires |stream| > 0
    ensures var n := |stream| - 1;
      First(stream, n) <==> KeyOf(stream[n]) !in ApplyAll(Init(seed), stream[..n]).dedup
  {
    var n := |stream| - 1;
    var front := stream[..n];
    StreamMeaning(seed, front);
    var x := ApplyAll(Init(seed), front);
    if KeyOf(stream[n]) in x.dedup {
      assert KeyOf(stream[x.dedup[KeyOf(stream[n])]]) == KeyOf(stream[n]);
    } else {
      forall j | 0 <= j < n ensures KeyOf(stream[j]) != KeyOf(stream[n]) {
        assert KeyOf(front[j]) in x.dedup;
      }
    }
  }

  /** Appending a request that is not a new write of c keeps c's last write. */
  lemma LastFirstOfFront(stream: seq<Request>, c: u64, i: nat)
    requires i < |stream| - 1
    requires var n := |stream| - 1; !(First(stream, n) && stream[n].clientId == c)
    ensures LastFirst(stream[..|stream| - 1], c, i) <==> LastFirst(stream, c, i)
  {
    var n := |stream| - 1;
    var front := stream[..n];
    FirstOfFront(stream, n);
    if LastFirst(stream, c, i) {
      forall j | i < j < n && front[j].clientId == c ensures !First(front, j) {
        assert stream[j] == front[j] && !First(stream, j);
      }
    }
    if LastFirst(front, c, i) {
      forall j | i < j < |stream| && stream[j].clientId == c ensures !First(stream, j) {
        if j < n { assert !First(front, j); }
      }
    }
  }

  lemma {:induction false} StoreMeaning(seed: u64, stream: seq<Request>, c: u64)
    ensures var x := ApplyAll(Init(seed), stream);
      && (c in x.store ==> exists i :: 0 <= i < |stream| && LastFirst(stream, c, i))
      && (forall i :: 0 <= i < |stream| && LastFirst(stream, c, i) ==> c in x.store && x.store[c] == stream[i].op)
  {
    if stream != [] {
      var n := |stream| - 1;
      var front := stream[..n];
      StoreMeaning(seed, front, c);
      var x := ApplyAll(Init(seed), front);
      FirstOfFront(stream, n);
      NewIsFirst(seed, stream);
      if First(stream, n) && stream[n].clientId == c {
        assert LastFirst(stream, c, n);
      } else {
        hide First, ApplyAll;
        forall i | 0 <= i < n ensures LastFirst(front, c, i) <==> LastFirst(stream, c, i) {
          LastFirstOfFront(stream, c, i);
        }
        if c in x.store {
          var i :| 0 <= i < |front| && LastFirst(front, c, i);
          assert LastFirst(stream, c, i);
        }
      }
    }
  }

  /** The replayed state, read off the stream: log indexes are positions, a
      request's index is its first position, and a client's value is that of its
      last request that was first of its kind. */
  lemma ReplayMeaning(fold: Fold, seed: u64, slots: seq<Slot>, k: Key, c: u64)
    ensures var x := Run(fold, seed, slots); var stream := Stream(slots);
      && x.nextIndex == |stream|
      && (k in x.dedup <==> exists i :: 0 <= i < |stream| && KeyOf(stream[i]) == k)
      && (forall i :: 0 <= i < |stream| && KeyOf(stream[i]) == k ==> (x.dedup[k] == i <==> First(stream, i)))
      && (c in x.store <==> exists i :: 0 <= i < |stream| && LastFirst(stream, c, i))
      && (forall i :: 0 <= i < |stream| && LastFirst(stream, c, i) ==> c in x.store && x.store[c] == stream[i].op)
  {
    RunIsStream(fold, seed, slots);
    StreamMeaning(seed, Stream(slots));
    StoreMeaning(seed, Stream(slots), c);
  }

  /** The store is empty just when nothing was carried: no write is ever removed. */
  lemma {:induction false} EmptyStoreIff(fold: Fold, seed: u64, slots: seq<Slot>)
    ensures var x := Run(fold, seed, slots); x.store == map[] <==> x.nextIndex == 0
  {
    RunIsStream(fold, seed, slots);
    StreamMeaning(seed, Stream(slots));
    KeepsKeys(Init(seed), Stream(slots));
  }

  lemma {:induction false} KeepsKeys(x: Exec, qs: seq<Request>)
    requires x.store.Keys == {} ==> x.dedup == map[]
    ensures ApplyAll(x, qs).store.Keys == {} <==> x.store.Keys == {} && qs == []
  {
    if qs != [] {
      KeepsKeys(x, qs[..|qs| - 1]);
      assert qs[|qs| - 1].clientId in ApplyAll(x, qs).store.Keys || ApplyAll(x, qs[..|qs| - 1]).store.Keys != {};
    }
  }

  /** Two different requests never have the same log index. */
  lemma IndexInjective(fold: Fold, seed: u64, slots: seq<Slot>, k: Key, l: Key)
    requires var x := Run(fold, seed, slots); k in x.dedup && l in x.dedup && x.dedup[k] == x.dedup[l]
    ensures k == l
  {
    RunIsStream(fold, seed, slots);
    StreamMeaning(seed, Stream(slots));
  }

  // ------------------------------------------------------------- prefixes

  /** Executing more slots keeps every index already given and hands out later ones. */
  ghost predicate Later(x: Exec, y: Exec) {
    && x.nextIndex <= y.nextIndex
    && (forall k :: k in x.dedup ==> k in y.dedup && y.dedup[k] == x.dedup[k])
    && (forall k :: k in y.dedup && k !in x.dedup ==> x.nextIndex <= y.dedup[k] < y.nextIndex)
  }

  lemma {:induction false} ApplyAllLater(x: Exec, qs: seq<Request>)
    ensures Later(x, ApplyAll(x, qs))
    ensures forall k :: k in ApplyAll(x, qs).dedup ==> k in x.dedup || exists i :: 0 <= i < |qs| && KeyOf(qs[i]) == k
    ensures forall i :: 0 <= i < |qs| ==> KeyOf(qs[i]) in ApplyAll(x, qs).dedup
  {
    if qs != [] {
      ApplyAllLater(x, qs[..|qs| - 1]);
    }
  }

  lemma {:induction false} RunLater(fold: Fold, seed: u64, slots: seq<Slot>, t: nat)
    requires t <= |slots|
    ensures Later(Run(fold, seed, slots[..t]), Run(fold, seed, slots))
  {
    if t == |slots| {
      assert slots[..t] == slots;
    } else {
      var front := slots[..|slots| - 1];
      RunLater(fold, seed, front, t);
      assert front[..t] == slots[..t];
      ApplyAllLater(Run(fold, seed, front), RequestsOf(slots[|slots| - 1]));
    }
  }

  /** What further requests add: the positions behind the index so far. */
  ghost predicate Adds(x: Exec, y: Exec, qs: seq<Request>) {
    && Later(x, y) && y.nextIndex == x.nextIndex + |qs|
    && (forall k :: k in y.dedup && k !in x.dedup ==>
          x.nextIndex <= y.dedup[k] < y.nextIndex && KeyOf(qs[y.dedup[k] - x.nextIndex]) == k)
  }

  lemma {:induction false} ApplyAllAdds(x: Exec, qs: seq<Request>)
    ensures Adds(x, ApplyAll(x, qs), qs)
  {
    if qs != [] {
      ApplyAllAdds(x, qs[..|qs| - 1]);
    }
  }

  lemma {:induction false} RunFromIsStream(fold: Fold, x: Exec, slot: nat, slots: seq<Slot>)
    ensures RunFrom(fold, x, slot, slots) == ApplyAll(x, Stream(slots)).(hash := RunFrom(fold, x, slot, slots).hash)
  {
    if slots != [] {
      var front, last := slots[..|slots| - 1], slots[|slots| - 1];
      RunFromIsStream(fold, x, slot, front);
      HashIrrelevant(ApplyAll(x, Stream(front)), RunFrom(fold, x, slot, front).hash, RequestsOf(last));
      ApplyAllSplit(x, Stream(front), RequestsOf(last));
    }
  }

  lemma RunFromAdds(fold: Fold, x: Exec, slot: nat, slots: seq<Slot>)
    ensures Adds(x, RunFrom(fold, x, slot, slots), Stream(slots))
  {
    hide Adds, RunFrom, Stream, ApplyAll;
    RunFromIsStream(fold, x, slot, slots);
    ApplyAllAdds(x, Stream(slots));
    AddsHash(x, ApplyAll(x, Stream(slots)), Stream(slots), RunFrom(fold, x, slot, slots).hash);
  }

  lemma AddsHash(x: Exec, y: Exec, qs: seq<Request>, h: u64)
    requires Adds(x, y, qs)
    ensures Adds(x, y.(hash := h), qs)
  {
  }

  lemma {:induction false} StreamAppend(a: seq<Slot>, b: seq<Slot>)
    ensures Stream(a + b) == Stream(a) + Stream(b)
  {
    if b == [] {
      assert a + b == a;
    } else {
      StreamAppend(a, b[..|b| - 1]);
      assert (a + b)[..|a + b| - 1] == a + b[..|b| - 1];
    }
  }

  /** The stream leaves out no request of a bus, and has nothing of a no-op: the
      i-th request of slot j stands behind all those of the slots before. */
  lemma {:induction false} StreamCarries(slots: seq<Slot>, j: nat)
    requires j < |slots|
    ensures slots[j].state.Received? ==> |Stream(slots[..j + 1])| == |Stream(slots[..j])| + |slots[j].requests|
    ensures !slots[j].state.Received? ==> Stream(slots[..j + 1]) == Stream(slots[..j])
    ensures Stream(slots[..j + 1]) <= Stream(slots)
    ensures slots[j].state.Received? ==> forall i :: 0 <= i < |slots[j].requests| ==> Stream(slots)[|Stream(slots[..j])| + i] == slots[j].requests[i]
  {
    assert slots[..j + 1][..j] == slots[..j];
    assert slots == slots[..j + 1] + slots[j + 1..];
    StreamAppend(slots[..j + 1], slots[j + 1..]);
    if slots[j].state.Received? {
      var n := |Stream(slots[..j])|;
      forall i | 0 <= i < |slots[j].requests| ensures Stream(slots)[n + i] == slots[j].requests[i] {
        assert Stream(slots)[n + i] == Stream(slots[..j + 1])[n + i];
      }
    }
  }

  lemma {:induction false} IndexBelow(fold: Fold, seed: u64, slots: seq<Slot>)
    ensures forall k :: k in Run(fold, seed, slots).dedup ==> Run(fold, seed, slots).dedup[k] < Run(fold, seed, slots).nextIndex
  {
    RunLater(fold, seed, slots, 0);
    assert slots[..0] == [];
  }

  /** A request with an index was carried by a slot of the prefix or a later one. */
  lemma {:induction false} Carrier(fold: Fold, seed: u64, slots: seq<Slot>, t: nat, k: Key)
    requires t <= |slots| && k in Run(fold, seed, slots).dedup
    ensures k in Run(fold, seed, slots[..t]).dedup
      || exists j, i :: t <= j < |slots| && 0 <= i < |RequestsOf(slots[j])| && KeyOf(RequestsOf(slots[j])[i]) == k
  {
    if t == |slots| {
      assert slots[..t] == slots;
    } else {
      var front := slots[..|slots| - 1];
      assert front[..t] == slots[..t];
      ApplyAllLater(Run(fold, seed, front), RequestsOf(slots[|slots| - 1]));
      if k in Run(fold, seed, front).dedup {
        Carrier(fold, seed, front, t, k);
        if j, i :| t <= j < |front| && 0 <= i < |RequestsOf(front[j])| && KeyOf(RequestsOf(front[j])[i]) == k {
          assert slots[j] == front[j];
        }
      }
    }
  }

  // ------------------------------------------------------------- pruning

  /** A state whose dedup entries below log index `from` have been released. */
  function Forget(x: Exec, from: nat): Exec {
    x.(dedup := map k | k in x.dedup && x.dedup[k] >= from :: x.dedup[k])
  }

  /** None of the requests was first carried by a pruned slot. */
  ghost predicate NoneForgotten(x: Exec, from: nat, qs: seq<Request>) {
    forall i :: 0 <= i < |qs| && KeyOf(qs[i]) in x.dedup ==> x.dedup[KeyOf(qs[i])] >= from
  }

  lemma {:induction false} ForgetCommutes(x: Exec, from: nat, qs: seq<Request>)
    requires from <= x.nextIndex && NoneForgotten(x, from, qs)
    ensures ApplyAll(Forget(x, from), qs) == Forget(ApplyAll(x, qs), from)
  {
    if qs != [] {
      var front, q := qs[..|qs| - 1], qs[|qs| - 1];
      ForgetCommutes(x, from, front);
      ApplyAllLater(x, front);
      var y := ApplyAll(x, front);
      ForgetOne(y, from, q);
    }
  }

  lemma ForgetOne(x: Exec, from: nat, q: Request)
    requires from <= x.nextIndex && (KeyOf(q) in x.dedup ==> x.dedup[KeyOf(q)] >= from)
    ensures ApplyRequest(Forget(x, from), q) == Forget(ApplyRequest(x, q), from)
  {
    assert KeyOf(q) in x.dedup <==> KeyOf(q) in Forget(x, from).dedup;
  }

  /** A request carried again after its first slot was pruned is given a new
      index, so pruning is invisible exactly while that does not happen. */
  lemma ForgetCommutesIff(x: Exec, from: nat, qs: seq<Request>)
    requires from <= x.nextIndex
    ensures ApplyAll(Forget(x, from), qs) == Forget(ApplyAll(x, qs), from) <==> NoneForgotten(x, from, qs)
  {
    if NoneForgotten(x, from, qs) {
      ForgetCommutes(x, from, qs);
    } else {
      var i :| 0 <= i < |qs| && KeyOf(qs[i]) in x.dedup && x.dedup[KeyOf(qs[i])] < from;
      ApplyAllLater(Forget(x, from), qs);
      ApplyAllLater(x, qs);
      assert KeyOf(qs[i]) in ApplyAll(Forget(x, from), qs).dedup;
      assert KeyOf(qs[i]) !in Forget(ApplyAll(x, qs), from).dedup;
    }
  }

  lemma ForgetMore(x: Exec, from: nat, more: nat)
    requires from <= more
    ensures Forget(Forget(x, from), more) == Forget(x, more)
  {
  }
}
