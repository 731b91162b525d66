/** Every message of the protocol, by the description of its bytes: words, flags,
    byte strings and lists with a length in front, nested to any depth. What one
    replica writes, another reads back, and finds what follows it; a message that
    is cut short is refused. */
module MessageFormats {
  import opened Schedule
  import opened ReplicaSpec
  import opened ScheduleWire

  datatype Field = Word(size: nat) | Flag | Blob(limit: nat) | List(limit: nat, element: Format)

  datatype Format = End | Then(field: Field, more: Format)

  datatype Value = Num(n: nat) | Bit(on: bool) | Bytes(data: seq<byte>) | Items(items: seq<Record>)

  datatype Record = Nil | Cons(value: Value, tail: Record)

  datatype Read<T> = Fail | Done(value: T, rest: seq<byte>)

  // ------------------------------------------------------------- the messages

  const NO_LIMIT: nat := TWO_TO_THE_32 - 1
  const MAX_BITMAP_BYTES: nat := 0x10_0000
  const MAX_SLOT_LIST: nat := 0x10_0000
  const MAX_STATE_ENTRIES: nat := 0x1_0000

  const U64 := Word(8)
  const U32 := Word(4)

  const SLOT_LIST := List(MAX_SLOT_LIST, Then(U64, End))
  const REPLICA_LIST := List(MAX_STATE_ENTRIES, Then(U32, End))
  const SCHEDULE := List(MAX_HISTORY, Then(U64, Then(U64, Then(U64, Then(U64, End)))))

  const REQUEST := Then(U64, Then(U64, Then(U64, Then(Blob(NO_LIMIT), End))))
  const REQUESTS := Then(List(NO_LIMIT, REQUEST), End)
  const BUS := Then(U64, Then(U64, Then(U64, REQUESTS)))
  const REQUEST_REPLY := Then(U64, Then(U64, Then(U64, Then(U64, Then(U64, Then(U32, Then(Blob(NO_LIMIT), End)))))))

  const INSTALL := Then(U64, Then(U64, Then(U32, Then(SCHEDULE, End))))
  const VIEW_CHANGE :=
    Then(U32, Then(U64, Then(U64, Then(U64, Then(Flag, Then(U64, Then(U64, Then(U64, Then(Flag,
      Then(Blob(MAX_BITMAP_BYTES), Then(U64, Then(SLOT_LIST, Then(SCHEDULE, End)))))))))))))
  const START_VIEW :=
    Then(U64, Then(U64, Then(Flag, Then(U64, Then(Flag, Then(U64, Then(U32, Then(U64,
      Then(SLOT_LIST, Then(REPLICA_LIST, Then(SCHEDULE, End)))))))))))
  const GET_STATE := Then(U64, Then(U64, Then(U64, Then(U64, Then(U32, Then(SLOT_LIST, End))))))
  const STATE_ENTRY := Then(U64, Then(U64, Then(U64, Then(Flag, Then(Flag, Then(Blob(NO_LIMIT), End))))))
  const NEW_STATE := Then(U64, Then(U64, Then(U64, Then(U64, Then(U32, Then(List(MAX_STATE_ENTRIES, STATE_ENTRY), End))))))

  // ------------------------------------------------------------- writing and reading

  /** A value the field can carry. */
  predicate FitsField(f: Field, v: Value)
    decreases f, 0
  {
    match f
    case Word(k) => v.Num? && v.n < Power(k)
    case Flag => v.Bit?
    case Blob(limit) => v.Bytes? && |v.data| <= limit && |v.data| <= NO_LIMIT
    case List(limit, element) => v.Items? && |v.items| <= limit && |v.items| <= NO_LIMIT && FitsItems(element, v.items)
  }

  predicate FitsItems(e: Format, items: seq<Record>)
    decreases e, |items| + 1
  {
    items == [] || (Fits(e, items[0]) && FitsItems(e, items[1..]))
  }

  predicate Fits(f: Format, r: Record)
    decreases f, 0
  {
    match f
    case End => r.Nil?
    case Then(field, more) => r.Cons? && FitsField(field, r.value) && Fits(more, r.tail)
  }

  function PutField(f: Field, v: Value): seq<byte>
    requires FitsField(f, v)
    decreases f, 0
  {
    match f
    case Word(k) => PutWord(v.n, k)
    case Flag => [if v.on then 1 else 0]
    case Blob(limit) => PutWord(|v.data|, 4) + v.data
    case List(limit, element) => PutWord(|v.items|, 4) + PutItems(element, v.items)
  }

  function PutItems(e: Format, items: seq<Record>): seq<byte>
    requires FitsItems(e, items)
    decreases e, |items| + 1
  {
    if items == [] then [] else Put(e, items[0]) + PutItems(e, items[1..])
  }

  function Put(f: Format, r: Record): seq<byte>
    requires Fits(f, r)
    decreases f, 0
  {
    match f
    case End => []
    case Then(field, more) => PutField(field, r.value) + Put(more, r.tail)
  }

  function GetCount(b: seq<byte>, limit: nat): Read<nat> {
    if |b| < 4 || GetWord(b[..4]) > limit then Fail else Done(GetWord(b[..4]), b[4..])
  }

  function GetField(f: Field, b: seq<byte>): Read<Value>
    decreases f, 0
  {
    match f
    case Word(k) => if |b| < k then Fail else Done(Num(GetWord(b[..k])), b[k..])
    case Flag => if |b| < 1 then Fail else Done(Bit(b[0] != 0), b[1..])
    case Blob(limit) =>
      (match GetCount(b, limit)
       case Fail => Fail
       case Done(n, rest) => if |rest| < n then Fail else Done(Bytes(rest[..n]), rest[n..]))
    case List(limit, element) =>
      (match GetCount(b, limit)
       case Fail => Fail
       case Done(n, rest) =>
         match GetItems(element, n, rest)
         case Fail => Fail
         case Done(items, more) => Done(Items(items), more))
  }

  function GetItems(e: Format, n: nat, b: seq<byte>): Read<seq<Record>>
    decreases e, n + 1
  {
    if n == 0 then Done([], b)
    else match Get(e, b)
      case Fail => Fail
      case Done(r, rest) =>
        match GetItems(e, n - 1, rest)
        case Fail => Fail
        case Done(items, more) => Done([r] + items, more)
  }

  function Get(f: Format, b: seq<byte>): Read<Record>
    decreases f, 0
  {
    match f
    case End => Done(Nil, b)
    case Then(field, more) =>
      match GetField(field, b)
      case Fail => Fail
      case Done(v, rest) =>
        match Get(more, rest)
        case Fail => Fail
        case Done(r, left) => Done(Cons(v, r), left)
  }

  // ------------------------------------------------------------- round trips

  lemma CountBack(n: nat, limit: nat, rest: seq<byte>)
    requires n <= limit && n <= NO_LIMIT
    ensures GetCount(PutWord(n, 4) + rest, limit) == Done(n, rest)
  {
    WordSizes();
    GetPut(n, 4);
    assert (PutWord(n, 4) + rest)[..4] == PutWord(n, 4) && (PutWord(n, 4) + rest)[4..] == rest;
  }

  /** What the bytes of a field are: words and lengths little-endian, a flag one
      byte of 1 or 0. */
  lemma FieldBytes(f: Field, v: Value, i: nat)
    requires FitsField(f, v)
    ensures f.Word? ==> |PutField(f, v)| == f.size && (i < f.size ==> PutField(f, v)[i] == v.n / Power(i) % 256)
    ensures f.Flag? ==> PutField(f, v) == (if v.on then [1] else [0])
    ensures f.Blob? ==> |PutField(f, v)| == 4 + |v.data| && PutField(f, v)[4..] == v.data
    ensures f.List? ==> PutField(f, v)[4..] == PutItems(f.element, v.items)
    ensures (f.Blob? || f.List?) && i < 4 ==>
      PutField(f, v)[i] == (if f.Blob? then |v.data| else |v.items|) / Power(i) % 256
  {
    match f
    case Word(k) =>
      if i < k { WordBytes(v.n, k, i); }
    case Flag =>
    case Blob(limit) =>
      if i < 4 { WordBytes(|v.data|, 4, i); }
    case List(limit, element) =>
      if i < 4 { WordBytes(|v.items|, 4, i); }
  }

  /** The records of a list stand one behind the other. */
  lemma {:induction false} ItemsSplit(e: Format, items: seq<Record>, i: nat)
    requires FitsItems(e, items) && i < |items|
    ensures FitsItems(e, items[..i]) && Fits(e, items[i]) && FitsItems(e, items[i + 1..])
    ensures PutItems(e, items) == PutItems(e, items[..i]) + Put(e, items[i]) + PutItems(e, items[i + 1..])
  {
    hide Fits, Put;
    if i > 0 {
      var rest := items[1..];
      ItemsSplit(e, rest, i - 1);
      assert rest[i..] == items[i + 1..] && items[..i][1..] == rest[..i - 1] && items[..i][0] == items[0];
      hide PutItems, FitsItems;
      ItemsOne(e, items);
      ItemsOne(e, items[..i]);
    }
  }

  lemma ItemsOne(e: Format, items: seq<Record>)
    requires items != [] && Fits(e, items[0]) && FitsItems(e, items[1..])
    ensures FitsItems(e, items) && PutItems(e, items) == Put(e, items[0]) + PutItems(e, items[1..])
  {
  }

  lemma {:induction false} FieldBack(f: Field, v: Value, rest: seq<byte>)
    requires FitsField(f, v)
    ensures GetField(f, PutField(f, v) + rest) == Done(v, rest)
    decreases f, 0
  {
    var b := PutField(f, v) + rest;
    match f
    case Word(k) =>
      GetPut(v.n, k);
      assert b[..k] == PutWord(v.n, k) && b[k..] == rest;
    case Flag =>
      assert b[1..] == rest;
    case Blob(limit) =>
      assert b == PutWord(|v.data|, 4) + (v.data + rest);
      CountBack(|v.data|, limit, v.data + rest);
      assert (v.data + rest)[..|v.data|] == v.data && (v.data + rest)[|v.data|..] == rest;
    case List(limit, element) =>
      var items := PutItems(element, v.items);
      assert b == PutWord(|v.items|, 4) + (items + rest);
      CountBack(|v.items|, limit, items + rest);
      ItemsBack(element, v.items, rest);
  }

  lemma {:induction false} ItemsBack(e: Format, items: seq<Record>, rest: seq<byte>)
    requires FitsItems(e, items)
    ensures GetItems(e, |items|, PutItems(e, items) + rest) == Done(items, rest)
    decreases e, |items| + 1
  {
    if items == [] {
      assert PutItems(e, items) + rest == rest;
    } else {
      var tail := PutItems(e, items[1..]);
      assert PutItems(e, items) + rest == Put(e, items[0]) + (tail + rest);
      RoundTrip(e, items[0], tail + rest);
      ItemsBack(e, items[1..], rest);
      assert items == [items[0]] + items[1..];
    }
  }

  /** What was written is read back, and exactly what follows it is left. */
  lemma {:induction false} RoundTrip(f: Format, r: Record, rest: seq<byte>)
    requires Fits(f, r)
    ensures Get(f, Put(f, r) + rest) == Done(r, rest)
    decreases f, 0
  {
    match f
    case End =>
      assert Put(f, r) + rest == rest;
    case Then(field, more) =>
      assert Put(f, r) + rest == PutField(field, r.value) + (Put(more, r.tail) + rest);
      FieldBack(field, r.value, Put(more, r.tail) + rest);
      RoundTrip(more, r.tail, rest);
  }

  /** No stream of bytes reads as two messages. */
  lemma Unambiguous(f: Format, r: Record, s: Record, x: seq<byte>, y: seq<byte>)
    requires Fits(f, r) && Fits(f, s) && Put(f, r) + x == Put(f, s) + y
    ensures r == s && x == y
  {
    RoundTrip(f, r, x);
    RoundTrip(f, s, y);
  }

  // ------------------------------------------------------------- what is accepted

  lemma CountFits(b: seq<byte>, limit: nat, more: seq<byte>)
    requires GetCount(b, limit).Done?
    ensures var c := GetCount(b, limit);
      c.value <= limit && c.value <= NO_LIMIT && b == PutWord(c.value, 4) + c.rest && GetCount(b + more, limit) == Done(c.value, c.rest + more)
  {
    WordSizes();
    PutGet(b[..4]);
    assert b == b[..4] + b[4..];
    assert (b + more)[..4] == b[..4] && (b + more)[4..] == b[4..] + more;
  }

  /** What a reader makes of a stream: something the writer could have sent, of
      the length it would have; and what comes after it does not matter. */
  ghost predicate Sound(f: Format, b: seq<byte>, r: Record, rest: seq<byte>, more: seq<byte>) {
    Fits(f, r) && |b| == |Put(f, r)| + |rest| && Get(f, b + more) == Done(r, rest + more)
  }

  ghost predicate FieldReads(f: Field, b: seq<byte>, more: seq<byte>) {
    match GetField(f, b)
    case Fail => true
    case Done(v, rest) =>
      FitsField(f, v) && |b| == |PutField(f, v)| + |rest| && GetField(f, b + more) == Done(v, rest + more)
  }

  lemma WordReads(k: nat, b: seq<byte>, more: seq<byte>)
    ensures FieldReads(Word(k), b, more)
  {
    if |b| >= k {
      PutGet(b[..k]);
      assert (b + more)[..k] == b[..k] && (b + more)[k..] == b[k..] + more;
    }
  }

  lemma FlagReads(b: seq<byte>, more: seq<byte>)
    ensures FieldReads(Flag, b, more)
  {
    if |b| > 0 {
      assert (b + more)[1..] == b[1..] + more;
    }
  }

  lemma BlobReads(limit: nat, b: seq<byte>, more: seq<byte>)
    ensures FieldReads(Blob(limit), b, more)
  {
    hide GetWord, PutWord;
    if GetCount(b, limit).Done? {
      CountFits(b, limit, more);
      var n, rest := GetCount(b, limit).value, GetCount(b, limit).rest;
      if n <= |rest| {
        assert (rest + more)[..n] == rest[..n] && (rest + more)[n..] == rest[n..] + more;
      }
    }
  }

  ghost predicate ItemsRead(e: Format, n: nat, b: seq<byte>, more: seq<byte>) {
    match GetItems(e, n, b)
    case Fail => true
    case Done(items, rest) =>
      && |items| == n && FitsItems(e, items) && |b| == |PutItems(e, items)| + |rest|
      && GetItems(e, n, b + more) == Done(items, rest + more)
  }

  lemma ListReads(limit: nat, element: Format, b: seq<byte>, more: seq<byte>)
    requires GetCount(b, limit).Done? ==> ItemsRead(element, GetCount(b, limit).value, GetCount(b, limit).rest, more)
    ensures FieldReads(List(limit, element), b, more)
  {
    hide GetWord, PutWord;
    if GetCount(b, limit).Done? {
      CountFits(b, limit, more);
    }
  }

  lemma {:induction false} FieldSound(f: Field, b: seq<byte>, more: seq<byte>)
    ensures FieldReads(f, b, more)
    decreases f, 0
  {
    match f
    case Word(k) => WordReads(k, b, more);
    case Flag => FlagReads(b, more);
    case Blob(limit) => BlobReads(limit, b, more);
    case List(limit, element) =>
      if GetCount(b, limit).Done? {
        ItemsSound(element, GetCount(b, limit).value, GetCount(b, limit).rest, more);
      }
      ListReads(limit, element, b, more);
  }

  lemma {:induction false} ItemsSound(e: Format, n: nat, b: seq<byte>, more: seq<byte>)
    ensures ItemsRead(e, n, b, more)
    decreases e, n + 1
  {
    if n > 0 && Get(e, b).Done? {
      ReadsSound(e, b, more);
      var r := Get(e, b);
      ItemsSound(e, n - 1, r.rest, more);
      if GetItems(e, n - 1, r.rest).Done? {
        var g := GetItems(e, n - 1, r.rest);
        assert ([r.value] + g.value)[1..] == g.value;
      }
    }
  }

  lemma {:induction false} ReadsSound(f: Format, b: seq<byte>, more: seq<byte>)
    requires Get(f, b).Done?
    ensures Sound(f, b, Get(f, b).value, Get(f, b).rest, more)
    decreases f, 0
  {
    match f
    case End =>
    case Then(field, tail) =>
      FieldSound(field, b, more);
      ReadsSound(tail, GetField(field, b).rest, more);
  }

  /** A message that is cut short is refused, wherever the cut is. */
  lemma Truncated(f: Format, r: Record, n: nat)
    requires Fits(f, r) && n < |Put(f, r)|
    ensures Get(f, Put(f, r)[..n]).Fail?
  {
    var b := Put(f, r);
    if Get(f, b[..n]).Done? {
      ReadsSound(f, b[..n], b[n..]);
      assert b[..n] + b[n..] == b + [];
      RoundTrip(f, r, []);
    }
  }

  // ------------------------------------------------------------- particular messages

  function WindowRecord(w: Window): Record {
    Cons(Num(w.clientId), Cons(Num(w.firstMsgNs), Cons(Num(w.intervalMs), Cons(Num(w.endTime), Nil))))
  }

  function WindowRecords(s: seq<Window>): seq<Record> {
    if s == [] then [] else [WindowRecord(s[0])] + WindowRecords(s[1..])
  }

  function InstallRecord(m: ScheduleInstall): Record {
    Cons(Num(m.epoch), Cons(Num(m.digest), Cons(Num(m.senderIdx), Cons(Items(WindowRecords(m.schedule)), Nil))))
  }

  lemma WindowIsRecord(w: Window)
    ensures Fits(SCHEDULE.element, WindowRecord(w)) && Put(SCHEDULE.element, WindowRecord(w)) == PutWindow(w)
  {
    WordSizes();
    var e := SCHEDULE.element;
    assert e.more.more.more.more == End && e.field == U64;
    assert Put(e.more.more.more, WindowRecord(w).tail.tail.tail) == Put64(w.endTime) + [];
    assert Put(e.more.more, WindowRecord(w).tail.tail) == Put64(w.intervalMs) + Put64(w.endTime);
    assert Put(e.more, WindowRecord(w).tail) == Put64(w.firstMsgNs) + (Put64(w.intervalMs) + Put64(w.endTime));
  }

  lemma {:induction false} WindowsAreRecords(s: seq<Window>)
    ensures |WindowRecords(s)| == |s| && FitsItems(SCHEDULE.element, WindowRecords(s))
    ensures PutItems(SCHEDULE.element, WindowRecords(s)) == PutWindows(s)
  {
    if s != [] {
      WindowsAreRecords(s[1..]);
      WindowIsRecord(s[0]);
      assert WindowRecords(s)[1..] == WindowRecords(s[1..]);
      WindowsFront(s);
    }
  }

  lemma {:induction false} WindowsFront(s: seq<Window>)
    requires |s| > 0
    ensures PutWindows(s) == PutWindow(s[0]) + PutWindows(s[1..])
  {
    if |s| == 1 {
      assert PutWindows(s[..0]) == [] && PutWindows(s[1..]) == [];
    } else {
      var front := s[..|s| - 1];
      WindowsFront(front);
      assert front[1..] == s[1..][..|s| - 2];
    }
  }

  /** The snapshot that `ScheduleWire` writes by hand has this description. */
  lemma InstallIsRecord(m: ScheduleInstall)
    requires |m.schedule| <= MAX_HISTORY
    ensures Fits(INSTALL, InstallRecord(m)) && Put(INSTALL, InstallRecord(m)) == PutInstall(m)
  {
    WordSizes();
    WindowsAreRecords(m.schedule);
    var r := InstallRecord(m);
    assert PutField(SCHEDULE, r.tail.tail.tail.value) == PutSchedule(m.schedule);
    assert Put(INSTALL.more.more.more, r.tail.tail.tail) == PutSchedule(m.schedule) + [];
  }

  function EntryRecord(slot: u64, clientId: u64, reqId: u64, isBus: bool, isNoOp: bool, payload: seq<byte>): Record {
    Cons(Num(slot), Cons(Num(clientId), Cons(Num(reqId), Cons(Bit(isBus), Cons(Bit(isNoOp), Cons(Bytes(payload), Nil))))))
  }

  /** A bus in a state transfer: its requests travel as a message inside the
      entry's payload, and come out of it again. */
  lemma PayloadRoundTrip(requests: Record, slot: u64, clientId: u64, reqId: u64, rest: seq<byte>)
    requires Fits(REQUESTS, requests) && |Put(REQUESTS, requests)| <= NO_LIMIT
    ensures var payload := Put(REQUESTS, requests);
      var entry := EntryRecord(slot, clientId, reqId, true, false, payload);
      && Fits(STATE_ENTRY, entry) && Get(STATE_ENTRY, Put(STATE_ENTRY, entry) + rest) == Done(entry, rest)
      && Get(REQUESTS, payload) == Done(requests, [])
  {
    var payload := Put(REQUESTS, requests);
    EntryFits(slot, clientId, reqId, true, false, payload);
    RoundTrip(STATE_ENTRY, EntryRecord(slot, clientId, reqId, true, false, payload), rest);
    RoundTrip(REQUESTS, requests, []);
    assert payload + [] == payload;
  }

  lemma EntryFits(slot: u64, clientId: u64, reqId: u64, isBus: bool, isNoOp: bool, payload: seq<byte>)
    requires |payload| <= NO_LIMIT
    ensures Fits(STATE_ENTRY, EntryRecord(slot, clientId, reqId, isBus, isNoOp, payload))
  {
    WordSizes();
    var f, r := STATE_ENTRY, EntryRecord(slot, clientId, reqId, isBus, isNoOp, payload);
    assert FitsField(U64, r.value) && FitsField(U64, r.tail.value) && FitsField(U64, r.tail.tail.value);
    var f3, r3 := f.more.more.more, r.tail.tail.tail;
    assert f3 == Then(Flag, Then(Flag, Then(Blob(NO_LIMIT), End)));
    assert Fits(f3.more.more.more, r3.tail.tail.tail) && FitsField(f3.more.more.field, r3.tail.tail.value);
    assert Fits(f3.more.more, r3.tail.tail);
    assert Fits(f3.more, r3.tail);
    assert Fits(f3, r3);
    assert Fits(f.more.more, r.tail.tail);
  }
}
