/** A replica over many views: what a leader does, and between that new views,
    rewinds and slots dropped to be fetched again. */
module ReplicaLife {
  import opened Schedule
  import opened ReplicaSpec
  import opened Replay
  import opened ExecutorSpec
  import opened LogIndexes
  import opened Executor
  import opened LeaderView

  datatype Change =
    | Rewind(target: nat)
    | Enter(view: nat)
    | Drop

  /** A rewind, whatever log index it reads. */
  ghost predicate Rewinds(l: Leader, l': Leader, t: nat) {
    && t < |l.executed| && Undone(l.x.dedup, l'.x.dedup, l.log, t, |l.executed|, l'.x.nextIndex)
    && l' == l.(executed := l.executed[..t], x := l'.x, closed := {})
  }

  ghost predicate Changes(l: Leader, l': Leader, c: Change) {
    match c
    case Rewind(t) => Rewinds(l, l', t)
    case Enter(v) => l.view < v && l' == l.(view := v, sent := {}, closed := {})
    case Drop =>
      && (forall s :: s in l'.log ==> s in l.log && l'.log[s] == l.log[s])
      && (forall s :: s in l.log && s !in l'.log ==> |l.executed| <= s)
      && l' == l.(log := l'.log, closed := {})
  }

  /** A rewind that makes no index be given twice: every entry at or past the
      index it reads belongs to a slot it undoes, and nothing at or past that
      index was answered in the view. */
  ghost predicate Safe(l: Leader, index: nat, t: nat) {
    && (forall k :: k in l.x.dedup && index <= l.x.dedup[k] ==> CarriedIn(l.log, t, |l.executed|, k))
    && (forall r :: r in l.sent ==> r.logIndex < index)
  }

  /** That is the exact condition, for any rewind. */
  lemma RewindUniqueIff(l: Leader, l': Leader, t: nat)
    requires Unique(l) && Rewinds(l, l', t)
    ensures Unique(l') <==> Safe(l, l'.x.nextIndex, t)
  {
    hide CarriedIn;
    SaneRewindsIff(l.x, l'.x, l.log, t, |l.executed|);
  }

  /** The index that is read is the one the slot began with. */
  ghost predicate ReadsRight(l: Leader, l': Leader, t: nat) {
    l'.x.nextIndex == IndexAt(l.executed, t)
  }

  ghost predicate Goes(fold: Fold, l: Leader, l': Leader) {
    Steps(fold, l, l') || exists c :: Changes(l, l', c) && (c.Rewind? ==> Safe(l, l'.x.nextIndex, c.target))
  }

  /** Any number of acts and changes, every rewind safe. */
  ghost predicate IsLife(fold: Fold, life: seq<Leader>) {
    |life| > 0 && forall i :: 0 <= i < |life| - 1 ==> Goes(fold, life[i], life[i + 1])
  }

  lemma {:induction false} LifeUnique(fold: Fold, life: seq<Leader>, k: nat)
    requires IsLife(fold, life) && k < |life| && Unique(life[0])
    ensures Unique(life[k])
  {
    hide Unique, Takes, Changes, Safe;
    if k > 0 {
      LifeUnique(fold, life, k - 1);
      var l, l' := life[k - 1], life[k];
      assert Goes(fold, life[k - 1], life[k - 1 + 1]);
      if Steps(fold, l, l') {
        var act :| Takes(fold, l, l', act);
        StepUnique(fold, l, l', act);
      } else {
        var c :| Changes(l, l', c) && (c.Rewind? ==> Safe(l, l'.x.nextIndex, c.target));
        ChangeUnique(l, l', c);
      }
    }
  }

  lemma ChangeUnique(l: Leader, l': Leader, c: Change)
    requires Unique(l) && Changes(l, l', c) && (c.Rewind? ==> Safe(l, l'.x.nextIndex, c.target))
    ensures Unique(l')
  {
    hide Safe, Undone, CarriedIn;
    if c.Rewind? {
      RewindUniqueIff(l, l', c.target);
    }
  }

  lemma GoesOn(fold: Fold, l: Leader, l': Leader)
    requires Goes(fold, l, l')
    ensures l.view <= l'.view && (l.view == l'.view ==> l.sent <= l'.sent)
  {
    hide Safe, Undone, CarriedIn;
    if Steps(fold, l, l') {
      var act :| Takes(fold, l, l', act);
    }
  }

  /** Views only grow, and no reply is taken back. */
  lemma {:induction false} SentStays(fold: Fold, life: seq<Leader>, j: nat, k: nat)
    requires IsLife(fold, life) && j <= k < |life|
    ensures life[j].view <= life[k].view && (life[j].view == life[k].view ==> life[j].sent <= life[k].sent)
    decreases k
  {
    hide Goes;
    if j < k {
      SentStays(fold, life, j, k - 1);
      assert Goes(fold, life[k - 1], life[k - 1 + 1]);
      GoesOn(fold, life[k - 1], life[k]);
    }
  }

  /** Over the whole life of a replica: replies of one view with the same log
      index are for the same request. */
  lemma LifeOneRequest(fold: Fold, life: seq<Leader>, j: nat, k: nat, r: Reply, o: Reply)
    requires IsLife(fold, life) && Unique(life[0]) && j < |life| && k < |life| && life[j].view == life[k].view
    requires r in life[j].sent && o in life[k].sent && r.logIndex == o.logIndex
    ensures KeyOfReply(r) == KeyOfReply(o)
  {
    hide IsLife, Sane;
    var m := if j < k then k else j;
    SentStays(fold, life, j, m);
    SentStays(fold, life, k, m);
    LifeUnique(fold, life, m);
  }

  // ------------------------------------------------------------- right indexes

  /** Besides, every rewind reads the index that the slot began with. */
  ghost predicate GoesRight(fold: Fold, l: Leader, l': Leader) {
    Steps(fold, l, l') || exists c :: Changes(l, l', c) && (c.Rewind? ==> Safe(l, l'.x.nextIndex, c.target) && ReadsRight(l, l', c.target))
  }

  ghost predicate IsRightLife(fold: Fold, life: seq<Leader>) {
    |life| > 0 && forall i :: 0 <= i < |life| - 1 ==> GoesRight(fold, life[i], life[i + 1])
  }

  ghost predicate InPlace(l: Leader) {
    Indexed(l.x, l.executed) && SentPlaced(l.executed, l.sent)
  }

  lemma RightIsSafe(fold: Fold, life: seq<Leader>)
    requires IsRightLife(fold, life)
    ensures IsLife(fold, life)
  {
    hide Changes, Safe, Steps;
    forall i | 0 <= i < |life| - 1 ensures Goes(fold, life[i], life[i + 1]) {
      assert GoesRight(fold, life[i], life[i + 1]);
    }
  }

  /** A safe rewind keeps every index a position if and only if it reads the
      index that the slot began with. */
  lemma RewindInPlaceIff(l: Leader, l': Leader, t: nat)
    requires InPlace(l) && Rewinds(l, l', t) && Safe(l, l'.x.nextIndex, t)
    ensures InPlace(l') <==> ReadsRight(l, l', t)
  {
    hide CarriedIn, Placed;
    if ReadsRight(l, l', t) {
      forall k | k in l'.x.dedup ensures Placed(l'.executed, k, l'.x.dedup[k]) {
        PlacedBelow(l.executed, t, k, l.x.dedup[k]);
      }
      forall r | r in l'.sent ensures Placed(l'.executed, KeyOfReply(r), r.logIndex) {
        PlacedBelow(l.executed, t, KeyOfReply(r), r.logIndex);
      }
    }
  }

  lemma ChangeInPlace(l: Leader, l': Leader, c: Change)
    requires InPlace(l) && Changes(l, l', c)
    requires c.Rewind? ==> Safe(l, l'.x.nextIndex, c.target) && ReadsRight(l, l', c.target)
    ensures InPlace(l')
  {
    hide Safe, Undone, CarriedIn, Placed;
    if c.Rewind? {
      RewindInPlaceIff(l, l', c.target);
    }
  }

  lemma {:induction false} LifeInPlace(fold: Fold, life: seq<Leader>, k: nat)
    requires IsRightLife(fold, life) && k < |life| && InPlace(life[0])
    ensures InPlace(life[k])
  {
    hide Indexed, SentPlaced, Takes, Changes, Safe, ReadsRight;
    if k > 0 {
      LifeInPlace(fold, life, k - 1);
      var l, l' := life[k - 1], life[k];
      assert GoesRight(fold, life[k - 1], life[k - 1 + 1]);
      if Steps(fold, l, l') {
        var act :| Takes(fold, l, l', act);
        StepPlaced(fold, l, l', act);
      } else {
        var c :| Changes(l, l', c) && (c.Rewind? ==> Safe(l, l'.x.nextIndex, c.target) && ReadsRight(l, l', c.target));
        ChangeInPlace(l, l', c);
      }
    }
  }

  /** In such a life a rewind has only to read the right index to be safe, but
      for what was answered in the view. */
  lemma RightIsCovered(l: Leader, low: nat, t: nat)
    requires InPlace(l) && low <= |l.executed| && t <= |l.executed|
    requires NonePruned(l.x.dedup, IndexAt(l.executed, low)) && Retains(l.log, l.executed, low)
    ensures forall k :: k in l.x.dedup && IndexAt(l.executed, t) <= l.x.dedup[k] ==> CarriedIn(l.log, t, |l.executed|, k)
  {
    hide CarriedIn, Placed;
    var from := if t < low then low else t;
    forall k | k in l.x.dedup && IndexAt(l.executed, t) <= l.x.dedup[k] ensures CarriedIn(l.log, t, |l.executed|, k) {
      PlacedIn(l.executed, k, l.x.dedup[k], from, l.log);
      CarriedEarlier(l.log, t, from, |l.executed|, k);
    }
  }
}
