/** Rebuilding the cursor at a slot that has been pruned away: a binary search
    for the time around that slot, then the clients tied at that time in
    ascending order. */
module CursorReset {
  import opened Schedule
  import opened Arrivals
  import opened SlotArithmetic
  import opened GlobalSlot
  import opened ClientSequence
  import opened MergeCursor
  import opened SortedIds

  /** The arrivals strictly before time y. */
  ghost function BeforeTime(s: seq<Window>, y: int): set<Arrival> {
    Below(ArrivalsOf(s), Arrival(y, 0))
  }

  lemma BeforeTimeIs(s: seq<Window>, y: int)
    ensures BeforeTime(s, y) == set a | a in ArrivalsOf(s) && a.at < y
  {
  }

  /** One client's part of the sum that resetCursorLocked forms at a time. */
  lemma ClientBeforeTime(s: seq<Window>, c: u64, y: int, tiePrecedes: bool)
    ensures |ClientBelow(s, c, Arrival(if tiePrecedes then y + 1 else y, 0))| == |TimesBefore(WindowsOf(s, c), y, tiePrecedes)|
  {
    ClientCounted(s, c, Arrival(if tiePrecedes then y + 1 else y, 0));
    assert TimesBefore(WindowsOf(s, c), y, true) == TimesBefore(WindowsOf(s, c), y + 1, false);
  }

  lemma PartOfTotal(s: seq<Window>, done: set<u64>, a: Arrival)
    ensures |SummedBelow(s, done, a)| <= |ArrivalsOf(s)|
  {
    SubsetSize(SummedBelow(s, done, a), ArrivalsOf(s));
  }

  /** The sum over all clients, in any order, of the arrivals before y, as a word. */
  method CountAll(lines: map<u64, ClientLine>, ghost s: seq<Window>, y: u64, tiePrecedes: bool) returns (count: u64)
    requires ValidSchedule(s) && Indexes(lines, s) && y <= MAX_INT64
    ensures count == Wrap(|BeforeTime(s, if tiePrecedes then y + 1 else y)|)
    ensures |ArrivalsOf(s)| < TWO_TO_THE_64 ==> count == |BeforeTime(s, if tiePrecedes then y + 1 else y)|
  {
    hide ValidSchedule, LineOk, Below, ArrivalsOf, SummedBelow, ClientBelow, TimesBefore, ClientsOf, WindowsOf, Wrap;
    ghost var a := Arrival(if tiePrecedes then y + 1 else y, 0);
    count := 0;
    var rest := lines.Keys;
    NoneSummed(s, a);
    WrapSmall(0);
    assert lines.Keys - rest == {};
    while rest != {}
      invariant rest <= lines.Keys
      invariant count == Wrap(|SummedBelow(s, lines.Keys - rest, a)|)
    {
      var cid :| cid in rest;
      var before := CountBefore(lines[cid], y, tiePrecedes);
      ClientBeforeTime(s, cid, y, tiePrecedes);
      SumOneMore(s, lines.Keys - rest, cid, a);
      assert lines.Keys - (rest - {cid}) == lines.Keys - rest + {cid};
      WrapAdd(|SummedBelow(s, lines.Keys - rest, a)|, before);
      count := Wrap(count + before);
      rest := rest - {cid};
    }
    assert lines.Keys - rest == lines.Keys;
    SumAll(s, a);
    PartOfTotal(s, lines.Keys, a);
    if |ArrivalsOf(s)| < TWO_TO_THE_64 {
      WrapSmall(|SummedBelow(s, lines.Keys, a)|);
    }
  }

  lemma NoneSummed(s: seq<Window>, a: Arrival)
    ensures SummedBelow(s, {}, a) == {}
  {
  }

  // ------------------------------------------------------------- the time around a slot

  /** No bus at time 0, and no more arrivals than words: what runs guarantee. */
  ghost predicate Plain(s: seq<Window>) {
    NoBusAtZero(s) && |ArrivalsOf(s)| < TWO_TO_THE_64
  }

  /** `low` is the time of the arrival at slot `slot`, or the end of all time. */
  ghost predicate TimeOfSlot(s: seq<Window>, slot: nat, low: int) {
    && |BeforeTime(s, low)| <= slot
    && (|BeforeTime(s, low + 1)| > slot || BeforeTime(s, low) == ArrivalsOf(s))
  }

  /** The arrivals behind the cursor once the clients in `done` have been asked. */
  ghost function PassedAt(s: seq<Window>, low: int, done: set<u64>): set<Arrival> {
    set a | a in ArrivalsOf(s) && (a.at < low || (a.at == low && a.client in done))
  }

  lemma PassedNone(s: seq<Window>, low: int)
    ensures PassedAt(s, low, {}) == BeforeTime(s, low)
  {
  }

  lemma PassedOneMore(s: seq<Window>, low: int, done: set<u64>, c: u64)
    requires c !in done
    ensures Arrival(low, c) in ArrivalsOf(s) ==> |PassedAt(s, low, done + {c})| == |PassedAt(s, low, done)| + 1
    ensures Arrival(low, c) !in ArrivalsOf(s) ==> PassedAt(s, low, done + {c}) == PassedAt(s, low, done)
  {
    if Arrival(low, c) in ArrivalsOf(s) {
      assert PassedAt(s, low, done + {c}) == PassedAt(s, low, done) + {Arrival(low, c)};
    }
  }

  /** With the lower ids done, the tied arrival of c ranks right behind them. */
  lemma PassedIsRank(s: seq<Window>, low: int, done: set<u64>, c: u64)
    requires forall x :: x in ClientsOf(s) && x < c ==> x in done
    requires forall x :: x in done ==> x < c
    ensures |PassedAt(s, low, done)| == Rank(s, Arrival(low, c))
  {
    forall a | a in ArrivalsOf(s) ensures a.client in ClientsOf(s) {
      var i := WindowOf(s, a);
    }
    assert PassedAt(s, low, done) == Below(ArrivalsOf(s), Arrival(low, c));
  }

  /** An arrival before the time is behind the slot, one after it is not. */
  lemma RankAroundTime(s: seq<Window>, slot: nat, low: int, a: Arrival)
    requires TimeOfSlot(s, slot, low) && a in ArrivalsOf(s)
    ensures a.at < low ==> Rank(s, a) < slot
    ensures a.at > low ==> Rank(s, a) >= slot
  {
    if a.at < low {
      RankMonotone(ArrivalsOf(s), a, Arrival(low, 0));
    } else if a.at > low {
      assert a !in BeforeTime(s, low);
      SubsetSize(BeforeTime(s, low + 1), Below(ArrivalsOf(s), a));
    }
  }

  /** What the loop over the ids has settled: the clients asked so far stand
      where a cursor at `slot` stands. */
  ghost predicate Settled(s: seq<Window>, next: map<u64, u64>, slot: nat) {
    forall a :: a in ArrivalsOf(s) && a.client in next ==> (Rank(s, a) < slot <==> a.at < next[a.client])
  }

  /** ... and `before` counts what is behind it, up to the slot. */
  ghost predicate Counted(s: seq<Window>, next: map<u64, u64>, slot: nat, low: int, before: nat) {
    var behind := |PassedAt(s, low, next.Keys)|;
    before == if behind < slot then behind else slot
  }

  lemma NoneSettled(s: seq<Window>, slot: nat, low: int)
    requires TimeOfSlot(s, slot, low)
    ensures Settled(s, map[], slot) && Counted(s, map[], slot, low, |BeforeTime(s, low)|)
  {
    PassedNone(s, low);
    var none: map<u64, u64> := map[];
    assert none.Keys == {};
  }

  lemma SettlesOne(s: seq<Window>, next: map<u64, u64>, slot: nat, low: u64, c: u64, before: nat, n: u64)
    requires TimeOfSlot(s, slot, low) && Settled(s, next, slot) && Counted(s, next, slot, low, before) && c !in next
    requires forall x :: x in ClientsOf(s) && x < c ==> x in next
    requires forall x :: x in next ==> x < c
    requires n == if Arrival(low, c) in ArrivalsOf(s) && before < slot then low + 1 else low
    ensures Settled(s, next[c := n], slot)
    ensures Counted(s, next[c := n], slot, low, if n == low then before else before + 1)
  {
    PassedIsRank(s, low, next.Keys, c);
    PassedOneMore(s, low, next.Keys, c);
    assert next[c := n].Keys == next.Keys + {c};
    forall a | a in ArrivalsOf(s) && a.client == c ensures Rank(s, a) < slot <==> a.at < n {
      RankAroundTime(s, slot, low, a);
    }
  }

  lemma LowerIdsDone(s: seq<Window>, ids: seq<u64>, i: nat)
    requires Ascending(ids) && i < |ids| && forall x :: x in ids <==> x in ClientsOf(s)
    ensures forall x :: x in ClientsOf(s) && x < ids[i] ==> x in ids[..i]
    ensures forall x :: x in ids[..i] ==> x < ids[i]
    ensures forall x :: x in ids[..i + 1] <==> x in ids[..i] || x == ids[i]
  {
  }

  lemma NothingBeforeStart(s: seq<Window>)
    requires NoBusAtZero(s)
    ensures BeforeTime(s, 0) == {} && BeforeTime(s, 1) == {}
  {
  }

  lemma AllBeforeEnd(s: seq<Window>, end: int)
    requires forall i :: 0 <= i < |s| ==> s[i].endTime <= end
    ensures BeforeTime(s, end) == ArrivalsOf(s)
  {
    forall a | a in ArrivalsOf(s) ensures a.at < end {
      var i := WindowOf(s, a);
    }
  }

  /** All clients settled: the cursor stands at the slot, if the schedule reaches it. */
  lemma SettledCursor(s: seq<Window>, next: map<u64, u64>, slot: nat)
    requires Settled(s, next, slot) && next.Keys == ClientsOf(s) && forall c :: c in next ==> next[c] > 0
    ensures CursorAt(s, next, slot) <==> slot <= |ArrivalsOf(s)|
  {
    forall a | a in ArrivalsOf(s) ensures Rank(s, a) < slot <==> a.at < NextN(next, a.client) {
      var i := WindowOf(s, a);
    }
  }
}
