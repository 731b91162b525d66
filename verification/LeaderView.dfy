/** A leader's time in one view: buses arrive, slots are closed, what is filled
    executes and is answered, old slots are pruned, replies are repeated; in any
    order and as often as it likes, and nothing is rewound. Whatever the order,
    what was executed and closed stays, and one log index answers one request,
    provided that no index is owed twice when it begins. */
module LeaderView {
  import opened Schedule
  import opened ReplicaSpec
  import opened Replay
  import opened ExecutorSpec
  import opened LogIndexes
  import opened Executor

  /** What a replica's log and its replies show. `sent` are the replies queued in
      the view, `closed` the slots that became no-ops since it was installed. */
  datatype Leader = Leader(view: nat, log: map<nat, Slot>, executed: seq<Slot>, x: Exec, sent: set<Reply>, closed: set<nat>)

  datatype Act =
    | Receive(slot: nat, held: Slot)
    | Close(slot: nat)
    | Execute(slots: seq<Slot>)
    | Prune
    | Resend(from: nat, end: nat)
    | Wait

  predicate Occupied(log: map<nat, Slot>, s: nat) {
    s in log && !log[s].state.Empty?
  }

  function Elements(replies: seq<Reply>): set<Reply> {
    set r | r in replies
  }

  /** The log holds these slots from n on. */
  ghost predicate Ready(log: map<nat, Slot>, n: nat, slots: seq<Slot>) {
    forall s: nat :: n <= s < n + |slots| ==> Occupied(log, s) && log[s] == slots[s - n]
  }

  ghost predicate Takes(fold: Fold, l: Leader, l': Leader, act: Act) {
    match act
    case Receive(s, c) =>
      c.state.Received? && !Occupied(l.log, s) && l' == l.(log := l.log[s := c])
    case Close(s) =>
      && |l.executed| <= s && s in l'.log && l'.log[s].state.NoOp?
      && l' == l.(log := l.log[s := l'.log[s]], closed := l.closed + {s})
    case Execute(slots) =>
      var n := |l.executed|;
      var x := RunFrom(fold, l.x, n, slots);
      && Ready(l.log, n, slots)
      && l' == l.(executed := l.executed + slots, x := x, sent := l.sent + Elements(AnswersFor(slots, n, x.dedup, l.view)))
    case Prune =>
      && (forall s :: s in l'.log ==> s in l.log && l'.log[s] == l.log[s])
      && (forall s :: s in l.log && s !in l'.log ==> s < |l.executed|)
      && (forall k :: k in l'.x.dedup ==> k in l.x.dedup && l'.x.dedup[k] == l.x.dedup[k])
      && l' == l.(log := l'.log, x := l.x.(dedup := l'.x.dedup))
    case Resend(from, end) =>
      l' == l.(sent := l.sent + Elements(Replayed(l.log, from, end, l.x.dedup, l.view)))
    case Wait => l' == l
  }

  ghost predicate Steps(fold: Fold, l: Leader, l': Leader) {
    exists act :: Takes(fold, l, l', act)
  }

  ghost predicate IsLeaderRun(fold: Fold, run: seq<Leader>) {
    |run| > 0 && forall i :: 0 <= i < |run| - 1 ==> Steps(fold, run[i], run[i + 1])
  }

  function KeyOfReply(r: Reply): Key {
    Key(r.clientId, r.requestId)
  }

  // ------------------------------------------------------------- one index, one request

  /** No reply of the view gave an index that another request has or was told. */
  ghost predicate SentOk(x: Exec, sent: set<Reply>) {
    && (forall r :: r in sent ==> r.logIndex < x.nextIndex)
    && AtMostOnce(sent)
    && (forall r, k :: r in sent && k in x.dedup && x.dedup[k] == r.logIndex ==> k == KeyOfReply(r))
  }

  /** No index was or can be given to two requests of the view. */
  ghost predicate Unique(l: Leader) {
    Sane(l.x) && SentOk(l.x, l.sent)
  }

  /** No two replies give one index to different requests. */
  ghost predicate AtMostOnce(sent: set<Reply>) {
    forall r, o :: r in sent && o in sent && r.logIndex == o.logIndex ==> KeyOfReply(r) == KeyOfReply(o)
  }

  lemma TruthfulSent(x: Exec, sent: set<Reply>, more: set<Reply>, view: nat)
    requires Sane(x) && SentOk(x, sent) && forall r :: r in more ==> Truthful(r, x.dedup, view)
    ensures SentOk(x, sent + more)
  {
  }

  lemma ExecutedSane(fold: Fold, x: Exec, slot: nat, slots: seq<Slot>, sent: set<Reply>)
    requires Sane(x) && SentOk(x, sent)
    ensures Sane(RunFrom(fold, x, slot, slots)) && SentOk(RunFrom(fold, x, slot, slots), sent)
  {
    hide RunFrom, Stream, KeyOf;
    RunFromAdds(fold, x, slot, slots);
  }

  lemma StepUnique(fold: Fold, l: Leader, l': Leader, act: Act)
    requires Unique(l) && Takes(fold, l, l', act)
    ensures Unique(l')
  {
    match act
    case Receive(_, _) =>
    case Close(_) =>
    case Execute(slots) =>
      var n := |l.executed|;
      ExecutedSane(fold, l.x, n, slots, l.sent);
      AnswersForTruthful(slots, n, l'.x.dedup, l.view);
      TruthfulSent(l'.x, l.sent, Elements(AnswersFor(slots, n, l'.x.dedup, l.view)), l.view);
    case Prune =>
    case Resend(from, end) =>
      ReplayedTruthful(l.log, from, end, l.x.dedup, l.view);
      TruthfulSent(l.x, l.sent, Elements(Replayed(l.log, from, end, l.x.dedup, l.view)), l.view);
    case Wait =>
  }

  lemma {:induction false} RunUnique(fold: Fold, run: seq<Leader>, k: nat)
    requires IsLeaderRun(fold, run) && k < |run| && Unique(run[0])
    ensures Unique(run[k])
  {
    if k > 0 {
      RunUnique(fold, run, k - 1);
      assert Steps(fold, run[k - 1], run[k - 1 + 1]);
      var act :| Takes(fold, run[k - 1], run[k], act);
      StepUnique(fold, run[k - 1], run[k], act);
    }
  }

  // ------------------------------------------------------------- what stays

  ghost predicate ClosedOk(l: Leader) {
    forall s :: s in l.closed ==>
      if s < |l.executed| then l.executed[s].state.NoOp? else s in l.log && l.log[s].state.NoOp?
  }

  /** Later in the view: longer, and nothing taken back. */
  ghost predicate Extends(l: Leader, l': Leader) {
    l'.view == l.view && l.executed <= l'.executed && l.sent <= l'.sent && l.closed <= l'.closed
  }

  lemma StepExtends(fold: Fold, l: Leader, l': Leader, act: Act)
    requires Takes(fold, l, l', act)
    ensures (ClosedOk(l) ==> ClosedOk(l')) && Extends(l, l')
  {
    if act.Execute? && ClosedOk(l) {
      forall s | s in l'.closed && |l.executed| <= s < |l'.executed| ensures l'.executed[s].state.NoOp? {
        assert l'.executed[s] == act.slots[s - |l.executed|] == l.log[s];
      }
    }
  }

  lemma {:induction false} RunExtends(fold: Fold, run: seq<Leader>, j: nat, k: nat)
    requires IsLeaderRun(fold, run) && j <= k < |run|
    ensures (ClosedOk(run[0]) ==> ClosedOk(run[k])) && Extends(run[j], run[k])
    decreases k
  {
    if k > 0 {
      RunExtends(fold, run, if j < k then j else k - 1, k - 1);
      assert Steps(fold, run[k - 1], run[k - 1 + 1]);
      var act :| Takes(fold, run[k - 1], run[k], act);
      StepExtends(fold, run[k - 1], run[k], act);
    }
  }

  /** A slot that was closed in the view executes as a no-op, if it executes. */
  lemma ClosedStays(fold: Fold, run: seq<Leader>, j: nat, k: nat, s: nat)
    requires IsLeaderRun(fold, run) && j <= k < |run| && s in run[j].closed && ClosedOk(run[0])
    ensures s < |run[k].executed| ==> run[k].executed[s].state.NoOp?
    ensures s >= |run[k].executed| ==> s in run[k].log && run[k].log[s].state.NoOp?
  {
    RunExtends(fold, run, j, k);
  }

  /** An executed slot holds what it held when it executed. */
  lemma ExecutedStays(fold: Fold, run: seq<Leader>, j: nat, k: nat, s: nat)
    requires IsLeaderRun(fold, run) && j <= k < |run| && s < |run[j].executed|
    ensures s < |run[k].executed| && run[k].executed[s] == run[j].executed[s]
  {
    RunExtends(fold, run, j, k);
  }

  /** Two replies of one view with the same log index are for the same request,
      whenever in the view they were sent. */
  lemma OneRequestPerIndex(fold: Fold, run: seq<Leader>, j: nat, k: nat, r: Reply, o: Reply)
    requires IsLeaderRun(fold, run) && j < |run| && k < |run| && r in run[j].sent && o in run[k].sent
    requires r.logIndex == o.logIndex && Unique(run[0])
    ensures KeyOfReply(r) == KeyOfReply(o)
  {
    var last := if j < k then k else j;
    RunExtends(fold, run, j, last);
    RunExtends(fold, run, k, last);
    RunUnique(fold, run, last);
  }

  // ------------------------------------------------------------- where a request is

  ghost predicate SentPlaced(executed: seq<Slot>, sent: set<Reply>) {
    forall r :: r in sent ==> Placed(executed, KeyOfReply(r), r.logIndex)
  }

  lemma TruthfulPlaced(x: Exec, executed: seq<Slot>, sent: set<Reply>, more: set<Reply>, view: nat)
    requires Indexed(x, executed) && SentPlaced(executed, sent) && forall r :: r in more ==> Truthful(r, x.dedup, view)
    ensures SentPlaced(executed, sent + more)
  {
    hide Stream;
  }

  lemma StepPlaced(fold: Fold, l: Leader, l': Leader, act: Act)
    requires Indexed(l.x, l.executed) && SentPlaced(l.executed, l.sent) && Takes(fold, l, l', act)
    ensures Indexed(l'.x, l'.executed) && SentPlaced(l'.executed, l'.sent)
  {
    hide RunFrom, AnswersFor, Replayed, Stream, KeyOf, Truthful;
    match act
    case Receive(_, _) =>
    case Close(_) =>
    case Execute(slots) =>
      var n := |l.executed|;
      ExecutedIndexed(fold, l.x, l.executed, slots);
      forall r | r in l.sent ensures Placed(l'.executed, KeyOfReply(r), r.logIndex) {
        PlacedStays(l.executed, slots, KeyOfReply(r), r.logIndex);
      }
      AnswersForTruthful(slots, n, l'.x.dedup, l.view);
      TruthfulPlaced(l'.x, l'.executed, l.sent, Elements(AnswersFor(slots, n, l'.x.dedup, l.view)), l.view);
    case Prune =>
    case Resend(from, end) =>
      ReplayedTruthful(l.log, from, end, l.x.dedup, l.view);
      TruthfulPlaced(l.x, l.executed, l.sent, Elements(Replayed(l.log, from, end, l.x.dedup, l.view)), l.view);
    case Wait =>
  }

  lemma {:induction false} RunPlaced(fold: Fold, run: seq<Leader>, k: nat)
    requires IsLeaderRun(fold, run) && k < |run| && Indexed(run[0].x, run[0].executed) && SentPlaced(run[0].executed, run[0].sent)
    ensures Indexed(run[k].x, run[k].executed) && SentPlaced(run[k].executed, run[k].sent)
  {
    hide Indexed, Takes, SentPlaced;
    if k > 0 {
      RunPlaced(fold, run, k - 1);
      assert Steps(fold, run[k - 1], run[k - 1 + 1]);
      var act :| Takes(fold, run[k - 1], run[k], act);
      StepPlaced(fold, run[k - 1], run[k], act);
    }
  }

  /** Positions are not given twice. */
  lemma PlacedUnique(l: Leader)
    requires Indexed(l.x, l.executed) && SentPlaced(l.executed, l.sent)
    ensures Unique(l)
  {
    IndexedSane(l.x, l.executed);
    assert forall r :: r in l.sent ==> Placed(l.executed, KeyOfReply(r), r.logIndex);
    assert forall k :: k in l.x.dedup ==> Placed(l.executed, k, l.x.dedup[k]);
  }
}
