/** What the incremental k-way merge over the clients' arrival lines keeps: the
    cursor assigns slot k to the arrival of rank k, so it inverts computeGlobalSlot. */
module MergeCursor {
  import opened Schedule
  import opened Arrivals
  import opened SlotArithmetic
  import opened GlobalSlot
  import opened ClientSequence

  datatype SlotMeta = SlotMeta(clientId: u64, reqId: u64, expectedNs: int)

  // ------------------------------------------------------------- what a cursor means

  /** The first sequence number of client c that has no slot yet. */
  function NextN(next: map<u64, u64>, c: u64): u64 {
    if c in next && next[c] != 0 then next[c] else 1
  }

  /** The cursor stands at `slot`: exactly the arrivals of lower rank are behind it. */
  ghost predicate CursorAt(s: seq<Window>, next: map<u64, u64>, slot: nat) {
    && slot <= |ArrivalsOf(s)|
    && forall a :: a in ArrivalsOf(s) ==> (Rank(s, a) < slot <==> a.at < NextN(next, a.client))
  }

  ghost predicate Owns(s: seq<Window>, m: SlotMeta, slot: nat) {
    var a := Arrival(m.reqId, m.clientId);
    a in ArrivalsOf(s) && Rank(s, a) == slot && m.expectedNs == m.reqId
  }

  /** Every slot the cursor has passed since `from` has its owner on record. */
  ghost predicate MetaOk(s: seq<Window>, meta: map<nat, SlotMeta>, from: nat, to: nat) {
    && (forall k :: k in meta ==> k < to && Owns(s, meta[k], k))
    && (forall k: nat :: from <= k < to ==> k in meta)
  }

  /** A slot has one owner, so the record says which arrival it is. */
  lemma OwnerUnique(s: seq<Window>, m: SlotMeta, slot: nat, a: Arrival)
    requires Owns(s, m, slot) && a in ArrivalsOf(s)
    ensures Rank(s, a) == slot <==> a == Arrival(m.reqId, m.clientId)
  {
    RankInjective(s, a, Arrival(m.reqId, m.clientId));
  }

  lemma ClientAnnounced(s: seq<Window>, c: u64, t: int)
    ensures Announced(WindowsOf(s, c), t) <==> Arrival(t, c) in ArrivalsOf(s)
  {
    WindowsOfIn(s, c);
    var ws := WindowsOf(s, c);
    if Announced(ws, t) {
      var i :| 0 <= i < |ws| && ArrivesAt(ws[i], t);
      assert ws[i] in s;
      var j :| 0 <= j < |s| && s[j] == ws[i];
      ArrivalAt(s, j, t);
    }
    if Arrival(t, c) in ArrivalsOf(s) {
      var j := WindowOf(s, Arrival(t, c));
      assert s[j] in ws;
      var i :| 0 <= i < |ws| && ws[i] == s[j];
      assert ArrivesAt(ws[i], t);
    }
  }

  ghost predicate Pending(s: seq<Window>, next: map<u64, u64>, a: Arrival) {
    a in ArrivalsOf(s) && NextN(next, a.client) <= a.at
  }

  /** The least pending arrival has the rank the cursor stands at. */
  lemma LeastPendingRank(s: seq<Window>, next: map<u64, u64>, slot: nat, best: Arrival)
    requires CursorAt(s, next, slot) && Pending(s, next, best)
    requires forall a :: Pending(s, next, a) ==> a == best || Before(best, a)
    ensures Rank(s, best) == slot
  {
    RankInjective(s, best, best);
    assert slot <= Rank(s, best) < |ArrivalsOf(s)|;
    RankSurjective(s, slot);
    var a :| a in ArrivalsOf(s) && Rank(s, a) == slot;
    assert Pending(s, next, a);
    RankInjective(s, best, a);
  }

  lemma CursorAdvances(s: seq<Window>, next: map<u64, u64>, slot: nat, best: Arrival, n: u64)
    requires CursorAt(s, next, slot) && Pending(s, next, best) && n == best.at + 1
    requires forall a :: Pending(s, next, a) ==> a == best || Before(best, a)
    ensures CursorAt(s, next[best.client := n], slot + 1)
    ensures Owns(s, SlotMeta(best.client, best.at, best.at), slot)
  {
    LeastPendingRank(s, next, slot, best);
    var next' := next[best.client := n];
    forall a | a in ArrivalsOf(s) ensures Rank(s, a) < slot + 1 <==> a.at < NextN(next', a.client) {
      RankInjective(s, a, best);
      if a.client == best.client && a.at <= best.at && !Pending(s, next, a) {
        assert Rank(s, a) < slot;
      }
    }
    RankInjective(s, best, best);
  }

  lemma NothingPending(s: seq<Window>, next: map<u64, u64>, slot: nat)
    requires CursorAt(s, next, slot) && forall a :: !Pending(s, next, a)
    ensures slot == |ArrivalsOf(s)|
  {
    if slot < |ArrivalsOf(s)| {
      RankSurjective(s, slot);
      var a :| a in ArrivalsOf(s) && Rank(s, a) == slot;
      assert Pending(s, next, a);
    }
  }

  lemma CursorBelowTotal(s: seq<Window>, next: map<u64, u64>, slot: nat, best: Arrival)
    requires CursorAt(s, next, slot) && Pending(s, next, best)
    ensures slot < |ArrivalsOf(s)|
  {
    RankInjective(s, best, best);
  }

  /** The cursor has handed out nothing past the end of the history. */
  ghost predicate WithinHistory(s: seq<Window>, next: map<u64, u64>) {
    forall c :: c in next ==> |s| > 0 && next[c] <= s[|s| - 1].endTime
  }

  lemma RecordExtends(s: seq<Window>, next: map<u64, u64>, meta: map<nat, SlotMeta>, from: nat, to: nat, m: SlotMeta)
    requires ValidSchedule(s) && WithinHistory(s, next) && MetaOk(s, meta, from, to) && Owns(s, m, to) && m.reqId < MAX_INT64
    ensures MetaOk(s, meta[to := m], from, to + 1) && to !in meta
    ensures WithinHistory(s, next[m.clientId := m.reqId + 1])
  {
    hide ArrivalsOf, Rank;
    ArrivesBeforeEnd(s, Arrival(m.reqId, m.clientId));
    var i := WindowOf(s, Arrival(m.reqId, m.clientId));
  }

  /** Time 0 announces no bus; the clients' sequence number 0 means "none". */
  ghost predicate NoBusAtZero(s: seq<Window>) {
    forall a :: a in ArrivalsOf(s) ==> 0 < a.at
  }

  /** A cursor on a history stays right when whole windows are appended. */
  lemma CursorGrows(p: seq<Window>, s: seq<Window>, next: map<u64, u64>, slot: nat)
    requires ValidSchedule(s) && CutOf(p, s) && CursorAt(p, next, slot) && WithinHistory(p, next)
    requires NoBusAtZero(s)
    ensures CursorAt(s, next, slot) && WithinHistory(s, next)
  {
    ArrivalsPrefix(p, s);
    SubsetSize(ArrivalsOf(p), ArrivalsOf(s));
    forall a | a in ArrivalsOf(s) ensures Rank(s, a) < slot <==> a.at < NextN(next, a.client) {
      RankStable(p, s, a);
      if a !in ArrivalsOf(p) && a.client in next {
        NewArrivesAfterEnd(p, s, a);
      }
    }
    if 0 < |p| < |s| {
      assert s[|p| - 1] == p[|p| - 1];
      assert Precedes(s[|p| - 1], s[|s| - 1]) && ValidTiming(s[|s| - 1]);
    }
  }

  /** ... and so does its record of owners. */
  lemma RecordGrows(p: seq<Window>, s: seq<Window>, meta: map<nat, SlotMeta>, from: nat, to: nat)
    requires ValidSchedule(s) && CutOf(p, s) && MetaOk(p, meta, from, to)
    ensures MetaOk(s, meta, from, to)
  {
    hide Rank, ArrivalsOf;
    ArrivalsPrefix(p, s);
    forall k | k in meta ensures Owns(s, meta[k], k) {
      assert Owns(p, meta[k], k);
      RankStable(p, s, Arrival(meta[k].reqId, meta[k].clientId));
    }
  }

  /** Every arrival that an extension adds lies ahead of the cursor. */
  ghost predicate NewAhead(p: seq<Window>, s: seq<Window>, next: map<u64, u64>, slot: nat) {
    forall b :: b in ArrivalsOf(s) && b !in ArrivalsOf(p) ==> slot <= Rank(s, b) && NextN(next, b.client) <= b.at
  }

  /** If the added arrivals rank at the slot or above, no arrival behind the slot moves. */
  lemma RanksBelowKept(p: seq<Window>, s: seq<Window>, slot: nat, a: Arrival)
    requires ArrivalsOf(p) <= ArrivalsOf(s) && a in ArrivalsOf(p)
    requires forall b :: b in ArrivalsOf(s) && b !in ArrivalsOf(p) ==> slot <= Rank(s, b)
    ensures Rank(s, a) < slot <==> Rank(p, a) < slot
    ensures Rank(p, a) < slot ==> Rank(s, a) == Rank(p, a)
  {
    var all, former := ArrivalsOf(s), ArrivalsOf(p);
    var added := set b | b in Below(all, a) && b !in former;
    if |added| == 0 {
      assert added == {};
      assert Below(all, a) <= Below(former, a) by {
        forall b | b in Below(all, a) ensures b in Below(former, a) {
          assert b in former || b in added;
        }
      }
      assert Below(all, a) == Below(former, a);
    } else {
      var m := Least(added);
      forall b | b in Below(all, m) ensures b in Below(former, a) {
        assert b in added || b in former;
      }
      SubsetSize(Below(all, m), Below(former, a));
      SubsetSize(Below(former, a), Below(all, a));
    }
  }

  lemma RecordKept(p: seq<Window>, s: seq<Window>, next: map<u64, u64>, meta: map<nat, SlotMeta>, from: nat, slot: nat)
    requires p <= s && NewAhead(p, s, next, slot) && MetaOk(p, meta, from, slot)
    ensures MetaOk(s, meta, from, slot)
  {
    hide ArrivalsOf, Rank;
    ArrivalsPrefix(p, s);
    forall k | k in meta ensures Owns(s, meta[k], k) {
      assert Owns(p, meta[k], k);
      RanksBelowKept(p, s, slot, Arrival(meta[k].reqId, meta[k].clientId));
    }
  }

  /** The source keeps a cursor whenever the new history has the old one as a
      prefix. That is right exactly if everything added lies ahead of it; whole
      windows always do, the other half of a window need not. */
  lemma CursorKeptIff(p: seq<Window>, s: seq<Window>, next: map<u64, u64>, slot: nat)
    requires p <= s && CursorAt(p, next, slot)
    ensures CursorAt(s, next, slot) <==> NewAhead(p, s, next, slot)
  {
    hide ArrivalsOf, Rank;
    ArrivalsPrefix(p, s);
    SubsetSize(ArrivalsOf(p), ArrivalsOf(s));
    if NewAhead(p, s, next, slot) {
      forall a | a in ArrivalsOf(p) ensures Rank(s, a) < slot <==> a.at < NextN(next, a.client) {
        RanksBelowKept(p, s, slot, a);
      }
    }
    if CursorAt(s, next, slot) {
      CursorKeepsNew(p, s, next, slot);
    }
  }

  ghost function Behind(s: seq<Window>, slot: nat): set<Arrival> {
    set a | a in ArrivalsOf(s) && Rank(s, a) < slot
  }

  lemma BehindSize(s: seq<Window>, slot: nat)
    requires slot <= |ArrivalsOf(s)|
    ensures |Behind(s, slot)| == slot
  {
    hide ArrivalsOf, Rank;
    if slot == |ArrivalsOf(s)| {
      forall a | a in ArrivalsOf(s) ensures a in Behind(s, slot) {
        RankInjective(s, a, a);
      }
      assert Behind(s, slot) == ArrivalsOf(s);
    } else {
      RankSurjective(s, slot);
      var m :| m in ArrivalsOf(s) && Rank(s, m) == slot;
      forall a | a in ArrivalsOf(s) ensures a in Behind(s, slot) <==> Before(a, m) {
        RankInjective(s, a, m);
      }
      BehindIsBelow(s, slot, m);
    }
  }

  lemma BehindIsBelow(s: seq<Window>, slot: nat, m: Arrival)
    requires Rank(s, m) == slot && forall a :: a in ArrivalsOf(s) ==> (a in Behind(s, slot) <==> Before(a, m))
    ensures |Behind(s, slot)| == slot
  {
    assert Behind(s, slot) == Below(ArrivalsOf(s), m);
  }

  /** A cursor that is right on both histories has passed none of the added
      arrivals: it has passed as many as its slot says, all of the old history. */
  lemma CursorKeepsNew(p: seq<Window>, s: seq<Window>, next: map<u64, u64>, slot: nat)
    requires p <= s && CursorAt(p, next, slot) && CursorAt(s, next, slot)
    ensures NewAhead(p, s, next, slot)
  {
    hide ArrivalsOf, Rank;
    ArrivalsPrefix(p, s);
    BehindSize(p, slot);
    BehindSize(s, slot);
    SubsetSize(Behind(p, slot), Behind(s, slot));
    assert Behind(p, slot) == Behind(s, slot);
    forall b | b in ArrivalsOf(s) && b !in ArrivalsOf(p) ensures slot <= Rank(s, b) && NextN(next, b.client) <= b.at {
      assert b !in Behind(s, slot);
    }
  }

  /** Two cursors agree on every slot both have passed, however each got there. */
  lemma SameOwners(s: seq<Window>, m1: map<nat, SlotMeta>, from1: nat, to1: nat, m2: map<nat, SlotMeta>, from2: nat, to2: nat, k: nat)
    requires MetaOk(s, m1, from1, to1) && MetaOk(s, m2, from2, to2)
    requires from1 <= k < to1 && from2 <= k < to2
    ensures k in m1 && k in m2 && m1[k] == m2[k]
  {
    assert Owns(s, m1[k], k) && Owns(s, m2[k], k);
    OwnerUnique(s, m1[k], k, Arrival(m2[k].reqId, m2[k].clientId));
  }

  /** A half window is not appended so harmlessly: the entry of another client
      moves an arrival that already had its slot. */
  lemma HalfWindowMovesSlots()
    ensures var p := [Window(4 * NS_PER_MS, 1, NS_PER_MS, 1)];
      var s := p + [Window(4 * NS_PER_MS, 2, NS_PER_MS, 1)];
      var a := Arrival(2 * NS_PER_MS, 1);
      ValidSchedule(s) && !CutOf(p, s) && a in ArrivalsOf(p) && Rank(p, a) != Rank(s, a)
  {
    var p := [Window(4 * NS_PER_MS, 1, NS_PER_MS, 1)];
    var s := p + [Window(4 * NS_PER_MS, 2, NS_PER_MS, 1)];
    var a, b := Arrival(2 * NS_PER_MS, 1), Arrival(NS_PER_MS, 2);
    ArrivalAt(p, 0, a.at);
    ArrivalAt(s, 1, b.at);
    ArrivalsPrefix(p, s);
    assert b !in Below(ArrivalsOf(p), a) && b in Below(ArrivalsOf(s), a);
    SubsetSize(Below(ArrivalsOf(p), a), Below(ArrivalsOf(s), a));
  }
}
