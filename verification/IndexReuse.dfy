/** The condition under which one log index answers one request is not only
    enough: where it fails, a bus that arrives next makes the leader give two
    requests one index. */
module IndexReuse {
  import opened Schedule
  import opened ReplicaSpec
  import opened Replay
  import opened ExecutorSpec
  import opened LogIndexes
  import opened Executor
  import opened LeaderView
  import opened ReplicaLife

  function RequestFor(k: Key): Request {
    Request(k.clientId, k.requestId, [])
  }

  /** The same request over and over: it uses up an index each time. */
  function Repeated(k: Key, n: nat): seq<Request> {
    seq(n, _ => RequestFor(k))
  }

  function NextBus(qs: seq<Request>): Slot {
    Slot(Received, 0, 0, qs)
  }

  /** What the bus in the next slot makes of the state. */
  function AfterBus(fold: Fold, l: Leader, qs: seq<Request>): Exec {
    RunFrom(fold, l.x, |l.executed|, [NextBus(qs)])
  }

  lemma AfterBusIs(fold: Fold, l: Leader, qs: seq<Request>)
    ensures AfterBus(fold, l, qs).dedup == ApplyAll(l.x, qs).dedup
  {
    OneSlot(fold, l.x, |l.executed|, NextBus(qs));
  }

  lemma {:induction false} AnswersAll(qs: seq<Request>, slot: nat, dedup: map<Key, nat>, view: nat)
    requires forall i :: 0 <= i < |qs| ==> KeyOf(qs[i]) in dedup
    ensures forall i :: 0 <= i < |qs| ==>
      Reply(qs[i].clientId, qs[i].requestId, slot, dedup[KeyOf(qs[i])], view) in Answers(qs, slot, dedup, view)
  {
    if qs != [] {
      var n := |qs| - 1;
      AnswersAll(qs[..n], slot, dedup, view);
      forall i | 0 <= i < |qs|
        ensures Reply(qs[i].clientId, qs[i].requestId, slot, dedup[KeyOf(qs[i])], view) in Answers(qs, slot, dedup, view)
      {
        if i < n { assert qs[..n][i] == qs[i]; }
      }
    }
  }

  function Answer(fold: Fold, l: Leader, qs: seq<Request>, k: Key): Reply
    requires k in AfterBus(fold, l, qs).dedup
  {
    Reply(k.clientId, k.requestId, |l.executed|, AfterBus(fold, l, qs).dedup[k], l.view)
  }

  /** A bus arrives in the next slot, executes, and each of its requests is answered. */
  lemma BusExecutes(fold: Fold, l: Leader, qs: seq<Request>) returns (run: seq<Leader>)
    requires !Occupied(l.log, |l.executed|)
    ensures IsLeaderRun(fold, run) && run[0] == l && |run| == 3 && l.sent <= run[2].sent
    ensures forall i :: 0 <= i < |qs| ==>
      KeyOf(qs[i]) in AfterBus(fold, l, qs).dedup && Answer(fold, l, qs, KeyOf(qs[i])) in run[2].sent
  {
    hide RunFrom, ApplyAll, Answers;
    var n, bus := |l.executed|, NextBus(qs);
    var held := l.(log := l.log[n := bus]);
    var y := AfterBus(fold, l, qs);
    var queued := AnswersFor([bus], n, y.dedup, l.view);
    var done := held.(executed := l.executed + [bus], x := y, sent := l.sent + Elements(queued));
    assert Takes(fold, l, held, Receive(n, bus));
    assert Takes(fold, held, done, Execute([bus]));
    run := [l, held, done];
    AfterBusIs(fold, l, qs);
    ApplyAllLater(l.x, qs);
    AnswersAll(qs, n, y.dedup, l.view);
    assert [bus][..0] == [] && AnswersFor([], n, y.dedup, l.view) == [];
    assert queued == Answers(qs, n, y.dedup, l.view);
  }

  lemma {:induction false} RepeatedUses(x: Exec, k: Key, n: nat)
    ensures ApplyAll(x, Repeated(k, n)).nextIndex == x.nextIndex + n
    ensures forall h :: h != k && h !in x.dedup ==> h !in ApplyAll(x, Repeated(k, n)).dedup
  {
    if n > 0 {
      RepeatedUses(x, k, n - 1);
      assert Repeated(k, n)[..n - 1] == Repeated(k, n - 1);
    }
  }

  /** An index still to come can be given to any request that has none. */
  lemma IndexReached(fold: Fold, l: Leader, k: Key, d: nat, h: Key) returns (qs: seq<Request>)
    requires l.x.nextIndex <= d && h != k && h !in l.x.dedup
    ensures |qs| >= 2 && KeyOf(qs[|qs| - 2]) == h && KeyOf(qs[|qs| - 1]) == k
    ensures var y := AfterBus(fold, l, qs).dedup; h in y && y[h] == d && (k in l.x.dedup ==> k in y && y[k] == l.x.dedup[k])
  {
    var fill := Repeated(k, d - l.x.nextIndex);
    qs := fill + [RequestFor(h), RequestFor(k)];
    RepeatedUses(l.x, k, d - l.x.nextIndex);
    var y := ApplyAll(l.x, fill);
    ApplyAllLater(l.x, fill);
    AfterBusIs(fold, l, qs);
    assert qs[..|qs| - 1][..|fill|] == fill && qs[..|qs| - 1][|fill|] == RequestFor(h);
    assert ApplyAll(l.x, qs[..|qs| - 1]) == ApplyRequest(y, RequestFor(h));
  }

  /** One step from a state in which an index is owed twice, it is told twice. */
  lemma ReusedIndex(fold: Fold, l: Leader, f: Key, g: Key) returns (run: seq<Leader>)
    requires !Occupied(l.log, |l.executed|) && !Unique(l)
    requires f != g && f !in l.x.dedup && g !in l.x.dedup
    ensures IsLeaderRun(fold, run) && run[0] == l && !AtMostOnce(run[|run| - 1].sent)
  {
    hide IsLeaderRun, RunFrom, AfterBus;
    var qs: seq<Request>;
    if k :| k in l.x.dedup && l.x.dedup[k] >= l.x.nextIndex {
      qs := IndexReached(fold, l, k, l.x.dedup[k], f);
      run := BusExecutes(fold, l, qs);
      Twice(run[2].sent, Answer(fold, l, qs, f), Answer(fold, l, qs, k));
    } else if k, m :| k in l.x.dedup && m in l.x.dedup && l.x.dedup[k] == l.x.dedup[m] && k != m {
      qs := [RequestFor(k), RequestFor(m)];
      run := BusExecutes(fold, l, qs);
      Keeps(fold, l, qs);
      assert KeyOf(qs[0]) == k && KeyOf(qs[1]) == m;
      Twice(run[2].sent, Answer(fold, l, qs, k), Answer(fold, l, qs, m));
    } else if r :| r in l.sent && r.logIndex >= l.x.nextIndex {
      var h := if KeyOfReply(r) == f then g else f;
      qs := IndexReached(fold, l, KeyOfReply(r), r.logIndex, h);
      run := BusExecutes(fold, l, qs);
      Twice(run[2].sent, Answer(fold, l, qs, h), r);
    } else if r, k :| r in l.sent && k in l.x.dedup && l.x.dedup[k] == r.logIndex && k != KeyOfReply(r) {
      qs := [RequestFor(k)];
      run := BusExecutes(fold, l, qs);
      Keeps(fold, l, qs);
      assert KeyOf(qs[0]) == k;
      Twice(run[2].sent, Answer(fold, l, qs, k), r);
    } else {
      run := [l];
      StandsStill(fold, l);
    }
  }

  lemma StandsStill(fold: Fold, l: Leader)
    ensures IsLeaderRun(fold, [l])
  {
  }

  lemma Keeps(fold: Fold, l: Leader, qs: seq<Request>)
    ensures var y := AfterBus(fold, l, qs).dedup; forall k :: k in l.x.dedup ==> k in y && y[k] == l.x.dedup[k]
  {
    AfterBusIs(fold, l, qs);
    ApplyAllLater(l.x, qs);
  }

  lemma Twice(sent: set<Reply>, r: Reply, o: Reply)
    requires r in sent && o in sent && r.logIndex == o.logIndex && KeyOfReply(r) != KeyOfReply(o)
    ensures !AtMostOnce(sent)
  {
  }

  /** The exact condition. While the next slot is empty and two requests have no
      index yet, no run from here ever tells one index to two requests if and
      only if no index was or can be given twice. */
  lemma OneRequestIff(fold: Fold, l: Leader, f: Key, g: Key)
    requires !Occupied(l.log, |l.executed|)
    requires f != g && f !in l.x.dedup && g !in l.x.dedup
    ensures Unique(l) <==> forall run: seq<Leader> :: IsLeaderRun(fold, run) && run[0] == l ==> AtMostOnce(run[|run| - 1].sent)
  {
    if Unique(l) {
      forall run: seq<Leader> | IsLeaderRun(fold, run) && run[0] == l ensures AtMostOnce(run[|run| - 1].sent) {
        RunUnique(fold, run, |run| - 1);
      }
    } else {
      var run := ReusedIndex(fold, l, f, g);
    }
  }

  /** So a rewind must be safe: once the slot it went back to is empty, whatever
      else the log holds, an index can be told twice unless it was. */
  lemma RewindReuseIff(fold: Fold, l: Leader, l': Leader, t: nat, log: map<nat, Slot>, f: Key, g: Key)
    requires Unique(l) && Rewinds(l, l', t) && !Occupied(log, t)
    requires f != g && f !in l'.x.dedup && g !in l'.x.dedup
    ensures Safe(l, l'.x.nextIndex, t) <==>
      forall run: seq<Leader> :: IsLeaderRun(fold, run) && run[0] == l'.(log := log) ==> AtMostOnce(run[|run| - 1].sent)
  {
    hide Safe, Sane, SentOk, IsLeaderRun, Undone;
    RewindUniqueIff(l, l', t);
    OneRequestIff(fold, l'.(log := log), f, g);
  }
}
