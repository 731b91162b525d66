/** A replica's schedule with its per-client index and its merge cursor: the
    fields installScheduleLocked, genCursorUpToLocked and resetCursorLocked
    update, and what those updates keep. */
module ReplicaIndex {
  import opened Schedule
  import opened Arrivals
  import opened SlotArithmetic
  import opened GlobalSlot
  import opened ClientSequence
  import opened MergeCursor
  import opened CursorReset
  import opened SortedIds

  class ScheduleIndex {
    var schedule: seq<Window>
    var clients: map<u64, ClientLine>
    var cursorNextN: map<u64, u64>
    var cursorSlot: nat
    var slotMeta: map<nat, SlotMeta>
    var prunedBelow: nat

    ghost predicate Indexed()
      reads this`schedule, this`clients
    {
      ValidSchedule(schedule) && Indexes(clients, schedule)
    }

    ghost predicate CursorOk()
      reads this`schedule, this`cursorNextN, this`cursorSlot, this`slotMeta, this`prunedBelow
    {
      && CursorAt(schedule, cursorNextN, cursorSlot)
      && WithinHistory(schedule, cursorNextN)
      && MetaOk(schedule, slotMeta, prunedBelow, cursorSlot)
    }

    constructor ()
      ensures Indexed() && CursorOk() && schedule == [] && prunedBelow == 0
    {
      schedule, clients := [], map[];
      cursorNextN, cursorSlot, slotMeta, prunedBelow := map[], 0, map[], 0;
    }

    /** One client's candidate for the next slot: its first arrival without one. */
    method NextOf(cid: u64) returns (n: u64)
      requires Indexed() && cid in clients
      ensures n == 0 ==> forall a :: Pending(schedule, cursorNextN, a) ==> a.client != cid
      ensures n != 0 ==> Pending(schedule, cursorNextN, Arrival(n, cid)) && n < MAX_INT64
      ensures n != 0 ==> forall a :: Pending(schedule, cursorNextN, a) && a.client == cid ==> n <= a.at
    {
      n := if cid in cursorNextN then cursorNextN[cid] else 0;
      if n == 0 {
        n := 1;
      }
      ghost var from := n;
      n := NextSequence(clients[cid], n);
      forall a | Pending(schedule, cursorNextN, a) && a.client == cid
        ensures from <= a.at && Announced(clients[cid].windows, a.at)
      {
        ClientAnnounced(schedule, cid, a.at);
      }
      if n != 0 {
        ClientAnnounced(schedule, cid, n);
        ArrivesBeforeEnd(schedule, Arrival(n, cid));
      }
    }

    /** The scan over all clients, in any order, for the least candidate. */
    method LeastCandidate() returns (found: bool, bestCid: u64, bestN: u64)
      requires Indexed()
      ensures !found ==> forall a :: !Pending(schedule, cursorNextN, a)
      ensures found ==> Pending(schedule, cursorNextN, Arrival(bestN, bestCid)) && 0 < bestN < MAX_INT64
      ensures found ==> forall a :: Pending(schedule, cursorNextN, a) ==>
          a == Arrival(bestN, bestCid) || Before(Arrival(bestN, bestCid), a)
    {
      hide Pending, Indexed;
      bestCid, bestN, found := 0, 0, false;
      var rest := clients.Keys;
      PendingClients();
      while rest != {}
        invariant rest <= clients.Keys && Indexed()
        invariant !found ==> forall a :: Pending(schedule, cursorNextN, a) ==> a.client in rest
        invariant found ==> Pending(schedule, cursorNextN, Arrival(bestN, bestCid)) && 0 < bestN < MAX_INT64
        invariant found ==> forall a :: Pending(schedule, cursorNextN, a) ==>
            a.client in rest || a == Arrival(bestN, bestCid) || Before(Arrival(bestN, bestCid), a)
      {
        var cid :| cid in rest;
        rest := rest - {cid};
        var n := NextOf(cid);
        if n != 0 && (!found || n < bestN || (n == bestN && cid < bestCid)) {
          bestCid, bestN, found := cid, n, true;
        }
      }
    }

    lemma PendingClients()
      requires Indexed()
      ensures forall a :: Pending(schedule, cursorNextN, a) ==> a.client in clients
    {
      forall a | Pending(schedule, cursorNextN, a) ensures a.client in clients {
        var i := WindowOf(schedule, a);
      }
    }

    /** One round of the merge: the slot at the cursor gets its owner. */
    method AssignSlot() returns (moved: bool)
      requires Indexed() && CursorOk()
      modifies this`cursorNextN, this`cursorSlot, this`slotMeta
      ensures CursorOk()
      ensures moved <==> old(cursorSlot) < |ArrivalsOf(schedule)|
      ensures moved ==> cursorSlot == old(cursorSlot) + 1
      ensures !moved ==> cursorSlot == old(cursorSlot)
      ensures forall k :: k in old(slotMeta) ==> k in slotMeta && slotMeta[k] == old(slotMeta[k])
    {
      hide Indexes, Pending, ValidSchedule, MetaOk, CursorAt, WithinHistory, Rank, ArrivalsOf;
      var bestCid, bestN;
      moved, bestCid, bestN := LeastCandidate();
      if !moved {
        NothingPending(schedule, cursorNextN, cursorSlot);
        return;
      }
      CursorBelowTotal(schedule, cursorNextN, cursorSlot, Arrival(bestN, bestCid));
      CursorAdvances(schedule, cursorNextN, cursorSlot, Arrival(bestN, bestCid), bestN + 1);
      RecordExtends(schedule, cursorNextN, slotMeta, prunedBelow, cursorSlot, SlotMeta(bestCid, bestN, bestN));
      slotMeta := slotMeta[cursorSlot := SlotMeta(bestCid, bestN, bestN)];
      cursorNextN := cursorNextN[bestCid := bestN + 1];
      cursorSlot := cursorSlot + 1;
    }

    /** genCursorUpToLocked: assign slots until `target` is moved or the
        arrivals run out, whatever order the clients are visited in. */
    method GenCursorUpTo(target: nat)
      requires Indexed() && CursorOk()
      modifies this`cursorNextN, this`cursorSlot, this`slotMeta
      ensures CursorOk()
      ensures cursorSlot == if old(cursorSlot) > target then old(cursorSlot)
                            else if target < |ArrivalsOf(schedule)| then target + 1 else |ArrivalsOf(schedule)|
      ensures forall k :: k in old(slotMeta) ==> k in slotMeta && slotMeta[k] == old(slotMeta[k])
    {
      hide Indexed, Indexes, ValidSchedule, MetaOk, Owns, WithinHistory;
      var moved := true;
      while cursorSlot <= target && moved
        invariant CursorOk() && cursorSlot <= |ArrivalsOf(schedule)|
        invariant old(cursorSlot) <= cursorSlot && (cursorSlot <= target + 1 || cursorSlot == old(cursorSlot))
        invariant !moved ==> cursorSlot == |ArrivalsOf(schedule)| && cursorSlot <= target
        invariant forall k :: k in old(slotMeta) ==> k in slotMeta && slotMeta[k] == old(slotMeta[k])
        decreases target + 1 - cursorSlot, moved
      {
        moved := AssignSlot();
      }
    }

    /** slotOwnerLocked: the owner of a slot, generating the cursor up to it. */
    method SlotOwner(slot: nat) returns (known: bool, meta: SlotMeta)
      requires Indexed() && CursorOk()
      modifies this`cursorNextN, this`cursorSlot, this`slotMeta
      ensures CursorOk()
      ensures prunedBelow <= slot ==> (known <==> slot < |ArrivalsOf(schedule)|)
      ensures prunedBelow <= slot && known ==> Owns(schedule, meta, slot)
      ensures slot < prunedBelow ==> known == (slot in slotMeta) && (known ==> meta == slotMeta[slot])
      ensures !known ==> meta == SlotMeta(0, 0, 0)
    {
      GenCursorUpTo(slot);
      known := slot in slotMeta;
      meta := if known then slotMeta[slot] else SlotMeta(0, 0, 0);
    }

    /** What pruning does to the record of owners: those of the pruned slots go,
        the cursor stays where it is. */
    method PruneMeta(target: nat)
      requires Indexed() && CursorOk()
      modifies this`slotMeta, this`prunedBelow
      ensures Indexed() && CursorOk()
      ensures prunedBelow == if target < old(prunedBelow) then old(prunedBelow) else target
      ensures forall k :: k in slotMeta <==> k in old(slotMeta) && !(old(prunedBelow) <= k < target)
      ensures forall k :: k in slotMeta ==> slotMeta[k] == old(slotMeta[k])
    {
      hide CursorAt, WithinHistory, Owns, Indexed;
      var n := if target < prunedBelow then prunedBelow else target;
      for slot := prunedBelow to n
        invariant forall k :: k in slotMeta <==> k in old(slotMeta) && !(old(prunedBelow) <= k < slot)
        invariant forall k :: k in slotMeta ==> slotMeta[k] == old(slotMeta[k])
      {
        slotMeta := slotMeta - {slot};
      }
      prunedBelow := n;
    }

    /** The latest end of any client's last window. */
    method LastEnd() returns (high: u64)
      requires Indexed()
      ensures high == if |schedule| > 0 then schedule[|schedule| - 1].endTime else 0
    {
      hide Indexes, LineOk, ValidSchedule, WindowsOf, ClientsOf;
      high := 0;
      var rest := clients.Keys;
      LastClient(schedule);
      while rest != {}
        invariant rest <= clients.Keys
        invariant high <= if |schedule| > 0 then schedule[|schedule| - 1].endTime else 0
        invariant |schedule| > 0 && schedule[|schedule| - 1].clientId !in rest ==>
          schedule[|schedule| - 1].clientId !in clients || high == schedule[|schedule| - 1].endTime
      {
        var cid :| cid in rest;
        rest := rest - {cid};
        LineOf(clients, schedule, cid);
        EndOfLine(schedule, cid);
        var ws := clients[cid].windows;
        if |ws| > 0 {
          var end := ws[|ws| - 1].endTime;
          if end > high {
            high := end;
          }
        }
      }
      if |schedule| > 0 {
        LineOf(clients, schedule, schedule[|schedule| - 1].clientId);
      }
    }

    static lemma LastClient(s: seq<Window>)
      ensures |s| > 0 ==> s[|s| - 1].clientId in ClientsOf(s)
    {
    }

    /** The time of the first slot that is not pruned, within the history. */
    ghost predicate AroundSlot(low: int)
      reads this`schedule, this`prunedBelow
    {
      TimeOfSlot(schedule, prunedBelow, low) && (|schedule| > 0 ==> 0 < low <= schedule[|schedule| - 1].endTime)
    }

    /** The binary search of resetCursorLocked: the time of the first slot kept. */
    method TimeAround() returns (low: u64)
      requires Indexed() && 0 < prunedBelow
      ensures low <= MAX_INT64
      ensures Plain(schedule) ==> AroundSlot(low)
    {
      hide Indexes, BeforeTime, ValidSchedule;
      low := 0;
      var high := LastEnd();
      if Plain(schedule) { NothingBeforeStart(schedule); }
      WithinEnd();
      ghost var end := high;
      while low < high
        invariant low <= high <= end
        invariant Plain(schedule) ==> |BeforeTime(schedule, low)| <= prunedBelow
        invariant Plain(schedule) ==> high == end || |BeforeTime(schedule, high + 1)| > prunedBelow
      {
        var mid := low + (high - low) / 2;
        var count := CountAll(clients, schedule, mid, true);
        if count > prunedBelow {
          high := mid;
        } else {
          low := mid + 1;
        }
      }
    }

    lemma WithinEnd()
      requires Indexed()
      ensures var end := if |schedule| > 0 then schedule[|schedule| - 1].endTime else 0;
        end <= MAX_INT64 && BeforeTime(schedule, end) == ArrivalsOf(schedule) && (|schedule| > 0 ==> 0 < end)
    {
      var end := if |schedule| > 0 then schedule[|schedule| - 1].endTime else 0;
      forall i | 0 <= i < |schedule| ensures schedule[i].endTime <= end {
        assert i == |schedule| - 1 || Precedes(schedule[i], schedule[|schedule| - 1]);
        assert ValidTiming(schedule[|schedule| - 1]);
      }
      AllBeforeEnd(schedule, end);
    }

    /** resetCursorLocked: the cursor stands at the first slot that is not
        pruned, exactly if the schedule has as many arrivals as were pruned. */
    method ResetCursor()
      requires Indexed()
      modifies this`cursorNextN, this`cursorSlot, this`slotMeta
      ensures cursorSlot == prunedBelow && slotMeta == map[]
      ensures Plain(schedule) ==> (CursorOk() <==> prunedBelow <= |ArrivalsOf(schedule)|)
    {
      cursorSlot := prunedBelow;
      cursorNextN := map[];
      slotMeta := map[];
      if prunedBelow == 0 {
        return;
      }
      var low := TimeAround();
      SettleClients(low);
      if Plain(schedule) { SettledCursor(schedule, cursorNextN, cursorSlot); }
    }

    /** What the loop over the ids has reached: the clients asked so far are settled. */
    static ghost predicate Reached(s: seq<Window>, next: map<u64, u64>, slot: nat, low: int, before: nat) {
      && Settled(s, next, slot) && Counted(s, next, slot, low, before) && WithinHistory(s, next)
      && forall c :: c in next ==> next[c] > 0
    }

    static lemma NextReached(s: seq<Window>, ids: seq<u64>, i: nat, next: map<u64, u64>, slot: nat, low: u64, before: nat, n: u64)
      requires ValidSchedule(s) && TimeOfSlot(s, slot, low) && (|s| > 0 ==> 0 < low <= s[|s| - 1].endTime) && low <= MAX_INT64
      requires Ascending(ids) && i < |ids| && (forall x :: x in ids <==> x in ClientsOf(s)) && forall x :: x in next <==> x in ids[..i]
      requires FirstFrom(WindowsOf(s, ids[i]), low, n) || (n == 0 && NoneFrom(WindowsOf(s, ids[i]), low))
      requires Reached(s, next, slot, low, before)
      ensures var skip := n == low && before < slot;
        Reached(s, next[ids[i] := if skip then low + 1 else low], slot, low, if skip then before + 1 else before)
    {
      hide ValidSchedule, TimeOfSlot, Settled, Counted, ArrivalsOf, FirstFrom, NoneFrom, WindowsOf, WithinHistory, Ascending;
      assert ids[i] in ids;
      LowerIdsDone(s, ids, i);
      NonEmpty(s, ids[i]);
      NextIsLow(s, ids[i], low, n);
      var c := if n == low && before < slot then low + 1 else low;
      SettlesOne(s, next, slot, low, ids[i], before, c);
      StillWithin(s, next, ids[i], c);
    }

    static lemma NonEmpty(s: seq<Window>, c: u64)
      ensures c in ClientsOf(s) ==> |s| > 0
    {
    }

    /** The loop over the sorted client ids. */
    method SettleClients(low: u64)
      requires Indexed() && low <= MAX_INT64 && cursorNextN == map[]
      modifies this`cursorNextN
      ensures cursorNextN.Keys == ClientsOf(schedule)
      ensures Plain(schedule) && AroundSlot(low) ==>
        && Settled(schedule, cursorNextN, prunedBelow) && WithinHistory(schedule, cursorNextN)
        && forall c :: c in cursorNextN ==> cursorNextN[c] > 0
    {
      hide Indexes, ValidSchedule, Reached, BeforeTime, FirstFrom, NoneFrom, WindowsOf, ClientsOf, LineOk, DisjointWindows, Ascending, TimeOfSlot,
        Settled, Counted, WithinHistory, Plain, AroundSlot, Wrap, Announced, ArrivesAt, ArrivalsOf;
      ghost var sound := Plain(schedule) && AroundSlot(low);
      var before: nat := CountAll(clients, schedule, low, false);
      var ids := Sort(clients.Keys);
      SameClients(clients, schedule);
      if sound { PlainAround(low); NoneReached(schedule, prunedBelow, low); }
      for i := 0 to |ids|
        invariant forall x :: x in cursorNextN <==> x in ids[..i]
        invariant sound ==> Reached(schedule, cursorNextN, prunedBelow, low, before)
      {
        before := SettleNext(ids, i, low, before, sound);
      }
      assert ids[..|ids|] == ids;
      if sound { AllReached(schedule, cursorNextN, prunedBelow, low, before); }
    }

    /** One client's place: its first arrival from `low` on, or the one behind
        that if it is at `low` and still before the slot. */
    method SettleNext(ids: seq<u64>, i: nat, low: u64, before: nat, ghost sound: bool) returns (passed: nat)
      requires Indexed() && low <= MAX_INT64 && (sound ==> Plain(schedule) && AroundSlot(low) && Reached(schedule, cursorNextN, prunedBelow, low, before))
      requires Ascending(ids) && i < |ids| && (forall x :: x in ids <==> x in ClientsOf(schedule)) && forall x :: x in cursorNextN <==> x in ids[..i]
      modifies this`cursorNextN
      ensures forall x :: x in cursorNextN <==> x in ids[..i + 1]
      ensures sound ==> Reached(schedule, cursorNextN, prunedBelow, low, passed)
    {
      hide Indexes, ValidSchedule, Reached, FirstFrom, NoneFrom, WindowsOf, ClientsOf, LineOk, DisjointWindows, Ascending, Plain, AroundSlot;
      var id := ids[i];
      SameClients(clients, schedule);
      LineOf(clients, schedule, id);
      var n := NextSequence(clients[id], low);
      NextSettled(sound, ids, i, low, before, n);
      var next := low;
      passed := before;
      if n == low && before < prunedBelow {
        next := next + 1;
        passed := passed + 1;
      }
      assert ids[..i + 1] == ids[..i] + [id];
      cursorNextN := cursorNextN[id := next];
    }

    lemma PlainAround(low: int)
      requires AroundSlot(low) && Plain(schedule)
      ensures TimeOfSlot(schedule, prunedBelow, low) && |ArrivalsOf(schedule)| < TWO_TO_THE_64
    {
    }

    lemma NextSettled(sound: bool, ids: seq<u64>, i: nat, low: u64, before: nat, n: u64)
      requires Indexed() && low <= MAX_INT64 && (sound ==> Plain(schedule) && AroundSlot(low) && Reached(schedule, cursorNextN, prunedBelow, low, before))
      requires Ascending(ids) && i < |ids| && (forall x :: x in ids <==> x in ClientsOf(schedule)) && forall x :: x in cursorNextN <==> x in ids[..i]
      requires FirstFrom(WindowsOf(schedule, ids[i]), low, n) || (n == 0 && NoneFrom(WindowsOf(schedule, ids[i]), low))
      ensures var skip := n == low && before < prunedBelow;
        sound ==> Reached(schedule, cursorNextN[ids[i] := if skip then low + 1 else low], prunedBelow, low, if skip then before + 1 else before)
    {
      hide Reached, Indexes, TimeOfSlot, FirstFrom, NoneFrom, WindowsOf, ClientsOf, Ascending, Plain;
      if sound { NextReached(schedule, ids, i, cursorNextN, prunedBelow, low, before, n); }
    }

    static lemma NoneReached(s: seq<Window>, slot: nat, low: int)
      requires TimeOfSlot(s, slot, low)
      ensures Reached(s, map[], slot, low, |BeforeTime(s, low)|)
    {
      hide TimeOfSlot, Settled, Counted, BeforeTime;
      NoneSettled(s, slot, low);
      NoneWithin(s);
    }

    static lemma AllReached(s: seq<Window>, next: map<u64, u64>, slot: nat, low: int, before: nat)
      requires Reached(s, next, slot, low, before)
      ensures Settled(s, next, slot) && WithinHistory(s, next) && forall c :: c in next ==> next[c] > 0
    {
    }

    static lemma NoneWithin(s: seq<Window>)
      ensures WithinHistory(s, map[])
    {
    }

    static lemma StillWithin(s: seq<Window>, next: map<u64, u64>, c: u64, n: u64)
      requires WithinHistory(s, next) && |s| > 0 && n <= s[|s| - 1].endTime
      ensures WithinHistory(s, next[c := n])
    {
    }

    static lemma SameClients(lines: map<u64, ClientLine>, s: seq<Window>)
      requires Indexes(lines, s)
      ensures lines.Keys == ClientsOf(s)
      ensures |s| == 0 ==> lines == map[]
    {
    }

    static lemma NextIsLow(s: seq<Window>, c: u64, low: u64, n: u64)
      requires ValidSchedule(s) && 0 < low && |s| > 0
      requires FirstFrom(WindowsOf(s, c), low, n) || (n == 0 && NoneFrom(WindowsOf(s, c), low))
      ensures n == low <==> Arrival(low, c) in ArrivalsOf(s)
      ensures n == low ==> low < s[|s| - 1].endTime
    {
      ClientAnnounced(s, c, low);
      if n == low {
        ArrivesBeforeEnd(s, Arrival(low, c));
      }
    }

    // ------------------------------------------------------------- installing a schedule

    /** The index of installScheduleLocked: one line per client, counts included. */
    static method BuildLines(s: seq<Window>, previous: map<u64, ClientLine>) returns (lines: map<u64, ClientLine>)
      requires ValidSchedule(s)
      ensures Indexes(lines, s)
      ensures forall c :: c in lines ==> lines[c].maxSeqSeen == if c in previous then previous[c].maxSeqSeen else 0
    {
      hide Indexes, ValidSchedule;
      lines := map[];
      IndexesNone();
      assert s[..0] == [];
      for i := 0 to |s|
        invariant Indexes(lines, s[..i])
        invariant forall c :: c in lines ==> lines[c].maxSeqSeen == if c in previous then previous[c].maxSeqSeen else 0
      {
        lines := AddEntry(s, i, lines, previous);
      }
      assert s[..|s|] == s;
    }

    static method AddEntry(s: seq<Window>, i: nat, lines: map<u64, ClientLine>, previous: map<u64, ClientLine>)
        returns (lines': map<u64, ClientLine>)
      requires ValidSchedule(s) && i < |s| && Indexes(lines, s[..i])
      ensures Indexes(lines', s[..i + 1])
      ensures forall c :: c in lines ==> c in lines' && lines'[c].maxSeqSeen == lines[c].maxSeqSeen
      ensures forall c :: c in lines' && c !in lines ==> lines'[c].maxSeqSeen == if c in previous then previous[c].maxSeqSeen else 0
    {
      hide ValidSchedule, LineOk, WindowsOf, ClientsOf, Indexes, LineCount, Step;
      var m := s[i];
      var line := if m.clientId in lines then lines[m.clientId]
                  else ClientLine([], [0], m.firstMsgNs, Step(m), if m.clientId in previous then previous[m.clientId].maxSeqSeen else 0);
      IndexExtends(s, i, lines, line);
      WindowTotalIs(m);
      var count := CountBefore(ClientLine([], [0], m.firstMsgNs, Step(m), 0), m.endTime, false);
      line := line.(windows := line.windows + [m], windowCounts := line.windowCounts + [line.windowCounts[|line.windowCounts| - 1] + count]);
      lines' := lines[m.clientId := line];
    }

    static lemma IndexesNone()
      ensures Indexes(map[], [])
    {
    }

    /** installScheduleLocked: the index always matches the new history. A cursor
        is kept when whole windows were appended and rebuilt when the history
        was replaced. */
    method InstallSchedule(s: seq<Window>)
      requires Indexed() && ValidSchedule(s)
      modifies this
      ensures Indexed() && schedule == s && prunedBelow == old(prunedBelow)
      ensures Plain(s) && old(CursorOk()) && CutOf(old(schedule), s) ==> CursorOk()
      ensures Plain(s) && old(CursorOk()) && old(schedule) <= s ==>
        (CursorOk() <==> NewAhead(old(schedule), s, old(cursorNextN), old(cursorSlot)))
      ensures old(schedule) <= s ==> cursorSlot == old(cursorSlot) && slotMeta == old(slotMeta) && cursorNextN == old(cursorNextN)
      ensures !(old(schedule) <= s) ==> cursorSlot == prunedBelow && slotMeta == map[]
      ensures Plain(s) && !(old(schedule) <= s) ==> (CursorOk() <==> prunedBelow <= |ArrivalsOf(s)|)
      ensures forall c :: c in clients && c in old(clients) ==> clients[c].maxSeqSeen == old(clients)[c].maxSeqSeen
    {
      var same := SchedulesEqual(schedule, s);
      if same {
        return;
      }
      var appendOnly := SchedulePrefix(schedule, s);
      var lines := BuildLines(s, clients);
      ghost var p := schedule;
      clients := lines;
      schedule := s;
      if !appendOnly {
        ResetCursor();
      } else if Plain(s) && old(CursorOk()) {
        KeptCursor(p);
      }
    }

    lemma KeptCursor(p: seq<Window>)
      requires ValidSchedule(schedule) && p <= schedule && NoBusAtZero(schedule)
      requires CursorAt(p, cursorNextN, cursorSlot) && WithinHistory(p, cursorNextN) && MetaOk(p, slotMeta, prunedBelow, cursorSlot)
      ensures CursorOk() <==> NewAhead(p, schedule, cursorNextN, cursorSlot)
      ensures CutOf(p, schedule) ==> CursorOk()
    {
      hide CursorAt, MetaOk, NewAhead;
      CursorKeptIff(p, schedule, cursorNextN, cursorSlot);
      if NewAhead(p, schedule, cursorNextN, cursorSlot) {
        RecordKept(p, schedule, cursorNextN, slotMeta, prunedBelow, cursorSlot);
      }
      if CutOf(p, schedule) {
        CursorGrows(p, schedule, cursorNextN, cursorSlot);
        RecordGrows(p, schedule, slotMeta, prunedBelow, cursorSlot);
      }
      if 0 < |p| < |schedule| {
        assert Precedes(schedule[|p| - 1], schedule[|schedule| - 1]) && ValidTiming(schedule[|schedule| - 1]);
      }
    }
  }
}
