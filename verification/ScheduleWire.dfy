/** The wire form of the schedule messages: little-endian words and
    length-prefixed lists. A reader accepts exactly what a writer produces, and
    leaves what follows it. */
module ScheduleWire {
  import opened Schedule
  import opened ReplicaSpec
  import opened SlotArithmetic

  type byte = x: int | 0 <= x < 256

  const TWO_TO_THE_32 := 0x1_0000_0000

  type u32 = x: int | 0 <= x < TWO_TO_THE_32

  const MSG_SCHD_PREPARE: byte := 28
  const MSG_SCHD_COMMIT: byte := 30

  datatype Header = Header(replicaId: u32, viewId: u64, startTime: u64, endTime: u64)

  datatype SchdPrepare = SchdPrepare(header: Header, requests: seq<HsRequest>)

  datatype ScheduleInstall = ScheduleInstall(epoch: u64, digest: u64, senderIdx: u32, schedule: seq<Window>)

  // ------------------------------------------------------------- words

  function PutWord(v: nat, k: nat): (b: seq<byte>)
    ensures |b| == k
  {
    if k == 0 then [] else [v % 256] + PutWord(v / 256, k - 1)
  }

  function GetWord(b: seq<byte>): nat {
    if b == [] then 0 else b[0] + 256 * GetWord(b[1..])
  }

  function Power(k: nat): (p: nat)
    ensures p > 0
  {
    if k == 0 then 1 else 256 * Power(k - 1)
  }

  lemma {:induction false} GetPut(v: nat, k: nat)
    requires v < Power(k)
    ensures GetWord(PutWord(v, k)) == v
  {
    if k > 0 {
      GetPut(v / 256, k - 1);
      assert PutWord(v, k)[1..] == PutWord(v / 256, k - 1);
    }
  }

  lemma {:induction false} PutGet(b: seq<byte>)
    ensures GetWord(b) < Power(|b|) && PutWord(GetWord(b), |b|) == b
  {
    if b != [] {
      PutGet(b[1..]);
      assert b == [b[0]] + b[1..];
    }
  }

  /** Words are little-endian: byte i is the i-th digit to base 256. */
  lemma {:induction false} WordBytes(v: nat, k: nat, i: nat)
    requires i < k
    ensures PutWord(v, k)[i] == v / Power(i) % 256
  {
    if i > 0 {
      WordBytes(v / 256, k - 1, i - 1);
      DivideTwice(v, Power(i - 1));
    }
  }

  lemma DivideTwice(v: nat, p: nat)
    requires p > 0
    ensures v / 256 / p == v / (256 * p)
  {
    var q, r := v / 256 / p, v / 256 % p;
    assert v / 256 == q * p + r;
    assert v == 256 * (q * p + r) + v % 256;
    assert 256 * (q * p + r) == q * (256 * p) + 256 * r;
    var rest := 256 * r + v % 256;
    assert 0 <= rest < 256 * p;
    assert v == q * (256 * p) + rest;
    QuotientIs(v, 256 * p, q, rest);
  }

  lemma WordSizes()
    ensures Power(4) == TWO_TO_THE_32 && Power(8) == TWO_TO_THE_64
  {
    assert Power(4) == 256 * (256 * (256 * (256 * Power(0))));
    assert Power(8) == 256 * (256 * (256 * (256 * Power(4))));
  }

  function Put64(v: u64): seq<byte> {
    PutWord(v, 8)
  }

  function Put32(v: u32): seq<byte> {
    PutWord(v, 4)
  }

  /** Eight bytes are the encoding of exactly one word. */
  lemma Word64(b: seq<byte>, v: u64)
    requires |b| == 8
    ensures 0 <= GetWord(b) < TWO_TO_THE_64
    ensures Put64(v) == b <==> GetWord(b) == v
  {
    WordSizes();
    PutGet(b);
    GetPut(v, 8);
  }

  lemma Word32(b: seq<byte>, v: u32)
    requires |b| == 4
    ensures 0 <= GetWord(b) < TWO_TO_THE_32
    ensures Put32(v) == b <==> GetWord(b) == v
  {
    WordSizes();
    PutGet(b);
    GetPut(v, 4);
  }

  // ------------------------------------------------------------- messages

  function PutWindow(w: Window): (b: seq<byte>)
    ensures |b| == 32
  {
    Put64(w.clientId) + Put64(w.firstMsgNs) + Put64(w.intervalMs) + Put64(w.endTime)
  }

  function PutRequest(q: HsRequest): (b: seq<byte>)
    ensures |b| == 24
  {
    Put64(q.clientId) + Put64(q.startTime) + Put64(q.intervalMs)
  }

  function PutHeader(h: Header): (b: seq<byte>)
    ensures |b| == 28
  {
    Put32(h.replicaId) + Put64(h.viewId) + Put64(h.startTime) + Put64(h.endTime)
  }

  /** Where the fields stand in a message. */
  lemma Layout(w: Window, q: HsRequest, h: Header)
    ensures var b := PutWindow(w);
      b[..8] == Put64(w.clientId) && b[8..16] == Put64(w.firstMsgNs) && b[16..24] == Put64(w.intervalMs) && b[24..] == Put64(w.endTime)
    ensures var b := PutRequest(q); b[..8] == Put64(q.clientId) && b[8..16] == Put64(q.startTime) && b[16..] == Put64(q.intervalMs)
    ensures var b := PutHeader(h);
      b[..4] == Put32(h.replicaId) && b[4..12] == Put64(h.viewId) && b[12..20] == Put64(h.startTime) && b[20..] == Put64(h.endTime)
  {
  }

  function PutWindows(s: seq<Window>): (b: seq<byte>)
    ensures |b| == 32 * |s|
  {
    if s == [] then [] else PutWindows(s[..|s| - 1]) + PutWindow(s[|s| - 1])
  }

  function PutRequests(s: seq<HsRequest>): (b: seq<byte>)
    ensures |b| == 24 * |s|
  {
    if s == [] then [] else PutRequests(s[..|s| - 1]) + PutRequest(s[|s| - 1])
  }

  function PutSchedule(s: seq<Window>): seq<byte>
    requires |s| <= MAX_HISTORY
  {
    Put32(|s|) + PutWindows(s)
  }

  function PutPrepare(m: SchdPrepare): seq<byte>
    requires |m.requests| <= MAX_SCHEDULE_LEN
  {
    PutHeader(m.header) + (Put32(|m.requests|) + PutRequests(m.requests))
  }

  function PutInstall(m: ScheduleInstall): seq<byte>
    requires |m.schedule| <= MAX_HISTORY
  {
    (Put64(m.epoch) + Put64(m.digest) + Put32(m.senderIdx)) + PutSchedule(m.schedule)
  }

  /** scheduleBatch.Marshal: the dispatcher reads it as two or three messages. */
  function PutBatch(snapshot: ScheduleInstall, prepare: SchdPrepare, committed: bool): seq<byte>
    requires |snapshot.schedule| <= MAX_HISTORY && |prepare.requests| <= MAX_SCHEDULE_LEN
  {
    PutInstall(snapshot) + ([MSG_SCHD_PREPARE] + (PutPrepare(prepare)
      + if committed then [MSG_SCHD_COMMIT] + PutHeader(prepare.header) else []))
  }

  // ------------------------------------------------------------- fixed-size parts

  lemma Cut(a: seq<byte>, b: seq<byte>, c: seq<byte>)
    ensures a <= c && b <= c[|a|..] <==> a + b <= c
  {
    if a + b <= c {
      assert a == (a + b)[..|a|] == c[..|a|];
      assert b == (a + b)[|a|..] == c[|a|..|a| + |b|];
    }
    if a <= c && b <= c[|a|..] {
      assert c == a + c[|a|..];
    }
  }

  lemma WindowIs(b: seq<byte>, w: Window)
    requires |b| == 32
    ensures PutWindow(w) == b <==>
      w.clientId == GetWord(b[..8]) && w.firstMsgNs == GetWord(b[8..16]) && w.intervalMs == GetWord(b[16..24]) && w.endTime == GetWord(b[24..])
  {
    var p := PutWindow(w);
    assert p[..8] == Put64(w.clientId) && p[8..16] == Put64(w.firstMsgNs) && p[16..24] == Put64(w.intervalMs) && p[24..] == Put64(w.endTime);
    assert b == b[..8] + b[8..16] + b[16..24] + b[24..];
    Word64(b[..8], w.clientId);
    Word64(b[8..16], w.firstMsgNs);
    Word64(b[16..24], w.intervalMs);
    Word64(b[24..], w.endTime);
  }

  lemma RequestIs(b: seq<byte>, q: HsRequest)
    requires |b| == 24
    ensures PutRequest(q) == b <==>
      q.clientId == GetWord(b[..8]) && q.startTime == GetWord(b[8..16]) && q.intervalMs == GetWord(b[16..])
  {
    var p := PutRequest(q);
    assert p[..8] == Put64(q.clientId) && p[8..16] == Put64(q.startTime) && p[16..] == Put64(q.intervalMs);
    assert b == b[..8] + b[8..16] + b[16..];
    Word64(b[..8], q.clientId);
    Word64(b[8..16], q.startTime);
    Word64(b[16..], q.intervalMs);
  }

  lemma HeaderIs(b: seq<byte>, h: Header)
    requires |b| == 28
    ensures PutHeader(h) == b <==>
      h.replicaId == GetWord(b[..4]) && h.viewId == GetWord(b[4..12]) && h.startTime == GetWord(b[12..20]) && h.endTime == GetWord(b[20..])
  {
    var p := PutHeader(h);
    assert p[..4] == Put32(h.replicaId) && p[4..12] == Put64(h.viewId) && p[12..20] == Put64(h.startTime) && p[20..] == Put64(h.endTime);
    assert b == b[..4] + b[4..12] + b[12..20] + b[20..];
    Word32(b[..4], h.replicaId);
    Word64(b[4..12], h.viewId);
    Word64(b[12..20], h.startTime);
    Word64(b[20..], h.endTime);
  }

  // ------------------------------------------------------------- lists

  lemma SameHeader(h: Header, g: Header, rest: seq<byte>)
    requires PutHeader(g) <= PutHeader(h) + rest
    ensures g == h
  {
    assert PutHeader(g) == (PutHeader(h) + rest)[..28] == PutHeader(h);
    HeaderIs(PutHeader(h), g);
    HeaderIs(PutHeader(h), h);
  }

  lemma SameCount(n: u32, m: u32, rest: seq<byte>)
    requires Put32(m) <= Put32(n) + rest
    ensures m == n
  {
    assert Put32(m) == (Put32(n) + rest)[..4] == Put32(n);
    Word32(Put32(n), m);
    Word32(Put32(n), n);
  }

  /** A prepare at the front of a stream has the header and the length found there. */
  lemma PrepareParts(m: SchdPrepare, h: Header, n: u32, rest: seq<byte>)
    requires |m.requests| <= MAX_SCHEDULE_LEN && PutPrepare(m) <= PutHeader(h) + (Put32(n) + rest)
    ensures m.header == h && |m.requests| == n && PutRequests(m.requests) <= rest
  {
    hide PutHeader, PutRequests, Put32;
    var data := PutHeader(h) + (Put32(n) + rest);
    Cut(PutHeader(m.header), Put32(|m.requests|) + PutRequests(m.requests), data);
    SameHeader(h, m.header, Put32(n) + rest);
    assert data[|PutHeader(h)|..] == Put32(n) + rest;
    Cut(Put32(|m.requests|), PutRequests(m.requests), Put32(n) + rest);
    SameCount(n, |m.requests|, rest);
    assert (Put32(n) + rest)[|Put32(n)|..] == rest;
  }

  lemma ScheduleParts(s: seq<Window>, n: u32, rest: seq<byte>)
    requires |s| <= MAX_HISTORY && PutSchedule(s) <= Put32(n) + rest
    ensures |s| == n && PutWindows(s) <= rest
  {
    hide PutWindows, Put32;
    Cut(Put32(|s|), PutWindows(s), Put32(n) + rest);
    SameCount(n, |s|, rest);
    assert (Put32(n) + rest)[|Put32(n)|..] == rest;
  }

  lemma RequestsStep(s: seq<HsRequest>, q: HsRequest)
    ensures PutRequests(s + [q]) == PutRequests(s) + PutRequest(q)
  {
    assert (s + [q])[..|s|] == s;
  }

  lemma WindowsStep(s: seq<Window>, w: Window)
    ensures PutWindows(s + [w]) == PutWindows(s) + PutWindow(w)
  {
    assert (s + [w])[..|s|] == s;
  }

  // ------------------------------------------------------------- nothing reads two ways

  lemma {:induction false} WindowsUnique(s: seq<Window>, t: seq<Window>)
    requires |s| == |t| && PutWindows(s) == PutWindows(t)
    ensures s == t
  {
    if s != [] {
      var n := |s| - 1;
      var a, b := PutWindows(s), PutWindows(t);
      assert a[..32 * n] == PutWindows(s[..n]) && b[..32 * n] == PutWindows(t[..n]);
      assert a[32 * n..] == PutWindow(s[n]) && b[32 * n..] == PutWindow(t[n]);
      WindowsUnique(s[..n], t[..n]);
      WindowIs(PutWindow(s[n]), s[n]);
      WindowIs(PutWindow(s[n]), t[n]);
    }
  }

  lemma {:induction false} RequestsUnique(s: seq<HsRequest>, t: seq<HsRequest>)
    requires |s| == |t| && PutRequests(s) == PutRequests(t)
    ensures s == t
  {
    if s != [] {
      var n := |s| - 1;
      var a, b := PutRequests(s), PutRequests(t);
      assert a[..24 * n] == PutRequests(s[..n]) && b[..24 * n] == PutRequests(t[..n]);
      assert a[24 * n..] == PutRequest(s[n]) && b[24 * n..] == PutRequest(t[n]);
      RequestsUnique(s[..n], t[..n]);
      RequestIs(PutRequest(s[n]), s[n]);
      RequestIs(PutRequest(s[n]), t[n]);
    }
  }

  /** A prepare and what follows it can be told apart in one way only. */
  lemma PrepareUnique(m: SchdPrepare, p: SchdPrepare, x: seq<byte>, y: seq<byte>)
    requires |m.requests| <= MAX_SCHEDULE_LEN && |p.requests| <= MAX_SCHEDULE_LEN
    requires PutPrepare(m) + x == PutPrepare(p) + y
    ensures m == p && x == y
  {
    hide PutHeader, PutRequests, Put32;
    var rest := PutRequests(p.requests) + y;
    assert PutPrepare(p) + y == PutHeader(p.header) + (Put32(|p.requests|) + rest);
    PrepareParts(m, p.header, |p.requests|, rest);
    assert PutRequests(m.requests) == rest[..24 * |p.requests|] == PutRequests(p.requests);
    RequestsUnique(m.requests, p.requests);
    assert x == (PutPrepare(m) + x)[|PutPrepare(m)|..];
    assert y == (PutPrepare(p) + y)[|PutPrepare(p)|..];
  }

  /** The words of the wire hold this prepare. */
  predicate FitsWire(p: Prepare) {
    p.replicaId < TWO_TO_THE_32 && p.view < TWO_TO_THE_64 && |p.requests| <= MAX_SCHEDULE_LEN
  }

  /** The handlers' message, as it is sent ... */
  function ToWire(p: Prepare): SchdPrepare
    requires FitsWire(p)
  {
    SchdPrepare(Header(p.replicaId, p.view, p.start, p.end), p.requests)
  }

  /** ... and as it is received. */
  function FromWire(m: SchdPrepare): Prepare {
    Prepare(m.header.replicaId, m.header.viewId, m.requests, m.header.startTime, m.header.endTime)
  }

  /** Whatever prepare is read off the bytes of a handler's prepare is that one. */
  lemma PrepareCarried(p: Prepare, m: SchdPrepare, x: seq<byte>, y: seq<byte>)
    requires FitsWire(p) && |m.requests| <= MAX_SCHEDULE_LEN && PutPrepare(ToWire(p)) + x == PutPrepare(m) + y
    ensures FromWire(m) == p && x == y
  {
    hide PutPrepare;
    PrepareUnique(ToWire(p), m, x, y);
  }

  lemma {:induction false} WindowsLayout(s: seq<Window>, i: nat)
    requires i < |s|
    ensures PutWindows(s)[32 * i..32 * i + 32] == PutWindow(s[i])
  {
    hide PutWindow;
    var n := |s| - 1;
    if i < n {
      WindowsLayout(s[..n], i);
      assert PutWindows(s)[32 * i..32 * i + 32] == PutWindows(s[..n])[32 * i..32 * i + 32];
    }
  }

  lemma {:induction false} RequestsLayout(s: seq<HsRequest>, i: nat)
    requires i < |s|
    ensures PutRequests(s)[24 * i..24 * i + 24] == PutRequest(s[i])
  {
    hide PutRequest;
    var n := |s| - 1;
    if i < n {
      RequestsLayout(s[..n], i);
      assert PutRequests(s)[24 * i..24 * i + 24] == PutRequests(s[..n])[24 * i..24 * i + 24];
    }
  }

  /** A message is its fixed fields, then the length of its list, then the list. */
  lemma MessageLayout(p: SchdPrepare, m: ScheduleInstall)
    requires |p.requests| <= MAX_SCHEDULE_LEN && |m.schedule| <= MAX_HISTORY
    ensures var b := PutPrepare(p); b[..28] == PutHeader(p.header) && b[28..32] == Put32(|p.requests|) && b[32..] == PutRequests(p.requests)
    ensures var b := PutInstall(m);
      b[..8] == Put64(m.epoch) && b[8..16] == Put64(m.digest) && b[16..20] == Put32(m.senderIdx)
      && b[20..24] == Put32(|m.schedule|) && b[24..] == PutWindows(m.schedule)
  {
  }

  lemma InstallParts(m: ScheduleInstall, epoch: u64, digest: u64, senderIdx: u32, rest: seq<byte>)
    requires |m.schedule| <= MAX_HISTORY
    requires PutInstall(m) <= (Put64(epoch) + Put64(digest) + Put32(senderIdx)) + rest
    ensures m.epoch == epoch && m.digest == digest && m.senderIdx == senderIdx && PutSchedule(m.schedule) <= rest
  {
    hide PutSchedule;
    var h, g := Put64(epoch) + Put64(digest) + Put32(senderIdx), Put64(m.epoch) + Put64(m.digest) + Put32(m.senderIdx);
    Cut(g, PutSchedule(m.schedule), h + rest);
    assert g == (h + rest)[..20] == h && (h + rest)[20..] == rest;
    assert g[..8] == Put64(m.epoch) && g[8..16] == Put64(m.digest) && g[16..] == Put32(m.senderIdx);
    assert h[..8] == Put64(epoch) && h[8..16] == Put64(digest) && h[16..] == Put32(senderIdx);
    Word64(h[..8], m.epoch);
    Word64(h[..8], epoch);
    Word64(h[8..16], m.digest);
    Word64(h[8..16], digest);
    Word32(h[16..], m.senderIdx);
    Word32(h[16..], senderIdx);
  }

  lemma InstallUnique(m: ScheduleInstall, p: ScheduleInstall, x: seq<byte>, y: seq<byte>)
    requires |m.schedule| <= MAX_HISTORY && |p.schedule| <= MAX_HISTORY
    requires PutInstall(m) + x == PutInstall(p) + y
    ensures m == p && x == y
  {
    hide Put32, Put64, PutWindows;
    var rest := PutWindows(p.schedule) + y;
    assert PutInstall(p) + y == (Put64(p.epoch) + Put64(p.digest) + Put32(p.senderIdx)) + (Put32(|p.schedule|) + rest);
    InstallParts(m, p.epoch, p.digest, p.senderIdx, Put32(|p.schedule|) + rest);
    ScheduleParts(m.schedule, |p.schedule|, rest);
    assert PutWindows(m.schedule) == rest[..32 * |p.schedule|] == PutWindows(p.schedule);
    WindowsUnique(m.schedule, p.schedule);
    assert x == (PutInstall(m) + x)[|PutInstall(m)|..];
    assert y == (PutInstall(p) + y)[|PutInstall(p)|..];
  }

  // ------------------------------------------------------------- writers

  method MarshalPrepare(m: SchdPrepare) returns (b: seq<byte>)
    requires |m.requests| <= MAX_SCHEDULE_LEN
    ensures b == PutPrepare(m)
  {
    b := PutHeader(m.header) + Put32(|m.requests|);
    ghost var front := b;
    for i := 0 to |m.requests|
      invariant b == front + PutRequests(m.requests[..i])
    {
      assert m.requests[..i + 1][..i] == m.requests[..i];
      b := b + PutRequest(m.requests[i]);
    }
    assert m.requests[..|m.requests|] == m.requests;
  }

  method MarshalInstall(m: ScheduleInstall) returns (b: seq<byte>)
    requires |m.schedule| <= MAX_HISTORY
    ensures b == PutInstall(m)
  {
    b := Put64(m.epoch) + Put64(m.digest) + Put32(m.senderIdx) + Put32(|m.schedule|);
    ghost var front := b;
    for i := 0 to |m.schedule|
      invariant b == front + PutWindows(m.schedule[..i])
    {
      assert m.schedule[..i + 1][..i] == m.schedule[..i];
      b := b + PutWindow(m.schedule[i]);
    }
    assert m.schedule[..|m.schedule|] == m.schedule;
  }

  method MarshalBatch(snapshot: ScheduleInstall, prepare: SchdPrepare, committed: bool) returns (b: seq<byte>)
    requires |snapshot.schedule| <= MAX_HISTORY && |prepare.requests| <= MAX_SCHEDULE_LEN
    ensures b == PutBatch(snapshot, prepare, committed)
  {
    b := MarshalInstall(snapshot);
    b := b + [MSG_SCHD_PREPARE];
    var p := MarshalPrepare(prepare);
    b := b + p;
    if committed {
      b := b + [MSG_SCHD_COMMIT];
      b := b + PutHeader(prepare.header);
    }
  }

  // ------------------------------------------------------------- readers

  class Reader {
    const data: seq<byte>
    var pos: nat

    ghost predicate Valid()
      reads this
    {
      pos <= |data|
    }

    function Left(): seq<byte>
      requires Valid()
      reads this
    {
      data[pos..]
    }

    /** io.ReadFull: n bytes, or an error if the stream ends before. */
    method ReadFull(n: nat) returns (ok: bool, b: seq<byte>)
      requires Valid()
      modifies this`pos
      ensures Valid() && ok == (n <= |old(Left())|)
      ensures ok ==> b == old(Left())[..n] && Left() == old(Left())[n..]
    {
      if |data| - pos < n {
        pos := |data|;
        return false, [];
      }
      b := data[pos..pos + n];
      pos := pos + n;
      return true, b;
    }

    method ReadHeader() returns (ok: bool, h: Header)
      requires Valid()
      modifies this`pos
      ensures Valid() && (ok <==> exists g :: PutHeader(g) <= old(Left()))
      ensures ok ==> old(Left()) == PutHeader(h) + Left()
    {
      h := Header(0, 0, 0, 0);
      var b;
      ok, b := ReadFull(28);
      if ok {
        WordsFit(b);
        h := Header(GetWord(b[..4]), GetWord(b[4..12]), GetWord(b[12..20]), GetWord(b[20..]));
        HeaderIs(b, h);
      }
    }

    static lemma WordFits(b: seq<byte>)
      ensures |b| == 4 ==> GetWord(b) < TWO_TO_THE_32
      ensures |b| == 8 ==> GetWord(b) < TWO_TO_THE_64
    {
      WordSizes();
      PutGet(b);
    }

    static lemma WordsFit(b: seq<byte>)
      ensures |b| == 28 ==> GetWord(b[..4]) < TWO_TO_THE_32
      ensures |b| == 28 ==> GetWord(b[4..12]) < TWO_TO_THE_64 && GetWord(b[12..20]) < TWO_TO_THE_64 && GetWord(b[20..]) < TWO_TO_THE_64
      ensures |b| == 32 ==> GetWord(b[..8]) < TWO_TO_THE_64 && GetWord(b[8..16]) < TWO_TO_THE_64
      ensures |b| == 32 ==> GetWord(b[16..24]) < TWO_TO_THE_64 && GetWord(b[24..]) < TWO_TO_THE_64
      ensures |b| == 24 ==> GetWord(b[..8]) < TWO_TO_THE_64 && GetWord(b[8..16]) < TWO_TO_THE_64 && GetWord(b[16..]) < TWO_TO_THE_64
      ensures |b| == 20 ==> GetWord(b[..8]) < TWO_TO_THE_64 && GetWord(b[8..16]) < TWO_TO_THE_64 && GetWord(b[16..]) < TWO_TO_THE_32
    {
      hide GetWord;
      forall c: seq<byte> ensures (|c| == 4 ==> GetWord(c) < TWO_TO_THE_32) && (|c| == 8 ==> GetWord(c) < TWO_TO_THE_64) {
        WordFits(c);
      }
    }

    method ReadRequest() returns (ok: bool, q: HsRequest)
      requires Valid()
      modifies this`pos
      ensures Valid() && ok == (24 <= |old(Left())|)
      ensures ok ==> old(Left()) == PutRequest(q) + Left()
    {
      q := HsRequest(0, 0, 0);
      var b;
      ok, b := ReadFull(24);
      if ok {
        WordsFit(b);
        q := HsRequest(GetWord(b[..8]), GetWord(b[8..16]), GetWord(b[16..]));
        RequestIs(b, q);
      }
    }

    method ReadWindow() returns (ok: bool, w: Window)
      requires Valid()
      modifies this`pos
      ensures Valid() && ok == (32 <= |old(Left())|)
      ensures ok ==> old(Left()) == PutWindow(w) + Left()
    {
      w := Window(0, 0, 0, 0);
      var b;
      ok, b := ReadFull(32);
      if ok {
        WordsFit(b);
        w := Window(GetWord(b[24..]), GetWord(b[..8]), GetWord(b[8..16]), GetWord(b[16..24]));
        WindowIs(b, w);
      }
    }

    method ReadCount() returns (ok: bool, n: u32)
      requires Valid()
      modifies this`pos
      ensures Valid() && ok == (4 <= |old(Left())|)
      ensures ok ==> old(Left()) == Put32(n) + Left()
    {
      n := 0;
      var b;
      ok, b := ReadFull(4);
      if ok {
        WordSizes();
        PutGet(b);
        n := GetWord(b);
        Word32(b, n);
      }
    }

    /** The loop of SchdPrepare.Unmarshal. */
    method ReadRequests(n: nat) returns (ok: bool, list: seq<HsRequest>)
      requires Valid()
      modifies this`pos
      ensures Valid() && ok == (24 * n <= |old(Left())|)
      ensures ok ==> |list| == n && old(Left()) == PutRequests(list) + Left()
    {
      hide PutRequests, PutRequest;
      list := [];
      RequestsNone();
      for i := 0 to n
        invariant Valid() && |list| == i && old(Left()) == PutRequests(list) + Left()
      {
        var q;
        ok, q := ReadRequest();
        if !ok {
          return;
        }
        RequestsStep(list, q);
        list := list + [q];
      }
      ok := true;
    }

    static lemma RequestsNone()
      ensures PutRequests([]) == [] && PutWindows([]) == []
    {
    }

    /** SchdPrepare.Unmarshal: accepts exactly the prepares within the length
        limit, and leaves what follows. */
    method ReadPrepare() returns (ok: bool, m: SchdPrepare)
      requires Valid()
      modifies this`pos
      ensures Valid()
      ensures ok <==> exists p: SchdPrepare :: |p.requests| <= MAX_SCHEDULE_LEN && PutPrepare(p) <= old(Left())
      ensures ok ==> |m.requests| <= MAX_SCHEDULE_LEN && old(Left()) == PutPrepare(m) + Left()
    {
      hide PutHeader, PutRequests, Put32;
      ghost var data := Left();
      m := SchdPrepare(Header(0, 0, 0, 0), []);
      var h, n, list;
      ok, h := ReadHeader();
      if !ok {
        NoHeader(data);
        return;
      }
      ghost var afterHeader := Left();
      ok, n := ReadCount();
      if !ok {
        NoCount(data, h, afterHeader);
        return;
      }
      ghost var rest := Left();
      assert data == PutHeader(h) + (Put32(n) + rest);
      PreparesAre(data, h, n, rest);
      if n > MAX_SCHEDULE_LEN {
        return false, m;
      }
      ok, list := ReadRequests(n);
      if ok {
        m := SchdPrepare(h, list);
        assert PutPrepare(m) + Left() == data;
      }
    }

    static lemma NoHeader(data: seq<byte>)
      requires !exists g :: PutHeader(g) <= data
      ensures forall p: SchdPrepare :: |p.requests| <= MAX_SCHEDULE_LEN ==> !(PutPrepare(p) <= data)
    {
      hide PutHeader, PutRequests, Put32;
      forall p: SchdPrepare | |p.requests| <= MAX_SCHEDULE_LEN ensures !(PutPrepare(p) <= data) {
        Cut(PutHeader(p.header), Put32(|p.requests|) + PutRequests(p.requests), data);
      }
    }

    static lemma NoCount(data: seq<byte>, h: Header, rest: seq<byte>)
      requires data == PutHeader(h) + rest && |rest| < 4
      ensures forall p: SchdPrepare :: |p.requests| <= MAX_SCHEDULE_LEN ==> !(PutPrepare(p) <= data)
    {
    }

    static lemma PreparesAre(data: seq<byte>, h: Header, n: u32, rest: seq<byte>)
      requires data == PutHeader(h) + (Put32(n) + rest)
      ensures forall p: SchdPrepare :: |p.requests| <= MAX_SCHEDULE_LEN && PutPrepare(p) <= data ==> |p.requests| == n && 24 * n <= |rest|
    {
      hide PutHeader, PutRequests, Put32, PutPrepare;
      forall p: SchdPrepare | |p.requests| <= MAX_SCHEDULE_LEN && PutPrepare(p) <= data ensures |p.requests| == n && 24 * n <= |rest| {
        PrepareParts(p, h, n, rest);
      }
    }

    method ReadWindows(n: nat) returns (ok: bool, list: seq<Window>)
      requires Valid()
      modifies this`pos
      ensures Valid() && ok == (32 * n <= |old(Left())|)
      ensures ok ==> |list| == n && old(Left()) == PutWindows(list) + Left()
    {
      hide PutWindows, PutWindow;
      list := [];
      RequestsNone();
      for i := 0 to n
        invariant Valid() && |list| == i && old(Left()) == PutWindows(list) + Left()
      {
        var w;
        ok, w := ReadWindow();
        if !ok {
          return;
        }
        WindowsStep(list, w);
        list := list + [w];
      }
      ok := true;
    }

    /** readSchedule. */
    method ReadSchedule() returns (ok: bool, s: seq<Window>)
      requires Valid()
      modifies this`pos
      ensures Valid()
      ensures ok <==> exists t: seq<Window> :: |t| <= MAX_HISTORY && PutSchedule(t) <= old(Left())
      ensures ok ==> |s| <= MAX_HISTORY && old(Left()) == PutSchedule(s) + Left()
    {
      hide PutWindows, Put32, PutSchedule;
      ghost var data := Left();
      s := [];
      var n;
      ok, n := ReadCount();
      if !ok {
        ShortSchedule(data);
        return;
      }
      ghost var rest := Left();
      SchedulesAre(data, n, rest);
      if n > MAX_HISTORY {
        return false, [];
      }
      ok, s := ReadWindows(n);
      if ok {
        ScheduleRead(data, n, s, Left());
      }
    }

    static lemma ScheduleRead(data: seq<byte>, n: u32, s: seq<Window>, rest: seq<byte>)
      requires |s| == n <= MAX_HISTORY && data == Put32(n) + (PutWindows(s) + rest)
      ensures data == PutSchedule(s) + rest && PutSchedule(s) <= data
    {
      hide PutWindows, Put32;
    }

    static lemma ShortSchedule(data: seq<byte>)
      requires |data| < 4
      ensures forall t: seq<Window> :: |t| <= MAX_HISTORY ==> !(PutSchedule(t) <= data)
    {
    }

    static lemma SchedulesAre(data: seq<byte>, n: u32, rest: seq<byte>)
      requires data == Put32(n) + rest
      ensures forall t: seq<Window> :: |t| <= MAX_HISTORY && PutSchedule(t) <= data ==> |t| == n && 32 * n <= |rest|
    {
      hide PutWindows, Put32, PutSchedule;
      forall t: seq<Window> | |t| <= MAX_HISTORY && PutSchedule(t) <= data ensures |t| == n && 32 * n <= |rest| {
        ScheduleParts(t, n, rest);
      }
    }

    /** BusScheduleInstall.Unmarshal. */
    method ReadInstall() returns (ok: bool, m: ScheduleInstall)
      requires Valid()
      modifies this`pos
      ensures Valid()
      ensures ok <==> exists p: ScheduleInstall :: |p.schedule| <= MAX_HISTORY && PutInstall(p) <= old(Left())
      ensures ok ==> |m.schedule| <= MAX_HISTORY && old(Left()) == PutInstall(m) + Left()
    {
      hide PutSchedule, Put32, Put64, PutInstall;
      ghost var data := Left();
      m := ScheduleInstall(0, 0, 0, []);
      var b;
      ok, b := ReadFull(20);
      if !ok {
        ShortInstall(data);
        return;
      }
      WordsFit(b);
      var epoch, digest, sender := GetWord(b[..8]), GetWord(b[8..16]), GetWord(b[16..]);
      FrontIs(b, epoch, digest, sender);
      ghost var rest := Left();
      assert data == (Put64(epoch) + Put64(digest) + Put32(sender)) + rest;
      InstallsAre(data, epoch, digest, sender, rest);
      var s;
      ok, s := ReadSchedule();
      if ok {
        m := ScheduleInstall(epoch, digest, sender, s);
        InstallRead(data, m, Left());
      }
    }

    static lemma InstallRead(data: seq<byte>, m: ScheduleInstall, rest: seq<byte>)
      requires |m.schedule| <= MAX_HISTORY && data == (Put64(m.epoch) + Put64(m.digest) + Put32(m.senderIdx)) + (PutSchedule(m.schedule) + rest)
      ensures data == PutInstall(m) + rest && PutInstall(m) <= data
    {
      hide PutSchedule, Put32, Put64;
    }

    static lemma FrontIs(b: seq<byte>, epoch: u64, digest: u64, sender: u32)
      requires |b| == 20 && epoch == GetWord(b[..8]) && digest == GetWord(b[8..16]) && sender == GetWord(b[16..])
      ensures b == Put64(epoch) + Put64(digest) + Put32(sender)
    {
      Word64(b[..8], epoch);
      Word64(b[8..16], digest);
      Word32(b[16..], sender);
      assert b == b[..8] + b[8..16] + b[16..];
    }

    static lemma ShortInstall(data: seq<byte>)
      requires |data| < 20
      ensures forall p: ScheduleInstall :: |p.schedule| <= MAX_HISTORY ==> !(PutInstall(p) <= data)
    {
      hide PutSchedule;
    }

    static lemma InstallsAre(data: seq<byte>, epoch: u64, digest: u64, sender: u32, rest: seq<byte>)
      requires data == (Put64(epoch) + Put64(digest) + Put32(sender)) + rest
      ensures forall p: ScheduleInstall :: |p.schedule| <= MAX_HISTORY && PutInstall(p) <= data ==> PutSchedule(p.schedule) <= rest
    {
      hide PutSchedule, PutInstall, Put32, Put64;
      forall p: ScheduleInstall | |p.schedule| <= MAX_HISTORY && PutInstall(p) <= data ensures PutSchedule(p.schedule) <= rest {
        InstallParts(p, epoch, digest, sender, rest);
      }
    }

    /** The dispatcher's reading of a batch, whose first code byte it has read: the
        snapshot, the prepare and the commit arrive one by one, as they were sent. */
    method ReadBatch(ghost snapshot: ScheduleInstall, ghost prepare: SchdPrepare, ghost committed: bool, ghost rest: seq<byte>)
      returns (first: ScheduleInstall, second: SchdPrepare, third: Option<Header>)
      requires Valid() && |snapshot.schedule| <= MAX_HISTORY && |prepare.requests| <= MAX_SCHEDULE_LEN
      requires Left() == PutBatch(snapshot, prepare, committed) + rest
      requires |rest| > 0 ==> rest[0] != MSG_SCHD_COMMIT
      modifies this`pos
      ensures Valid() && Left() == rest
      ensures first == snapshot && second == prepare && third == if committed then Some(prepare.header) else None
    {
      hide PutInstall, PutPrepare, PutHeader;
      ghost var tail := if committed then [MSG_SCHD_COMMIT] + PutHeader(prepare.header) else [];
      ghost var data := Left();
      assert data == PutInstall(snapshot) + ([MSG_SCHD_PREPARE] + (PutPrepare(prepare) + (tail + rest)));
      var ok;
      ok, first := ReadInstall();
      InstallUnique(first, snapshot, Left(), [MSG_SCHD_PREPARE] + (PutPrepare(prepare) + (tail + rest)));
      var b;
      ok, b := ReadFull(1);
      assert b == [MSG_SCHD_PREPARE];
      ok, second := ReadPrepare();
      PrepareUnique(second, prepare, Left(), tail + rest);
      third := None;
      if pos < |this.data| && this.data[pos] == MSG_SCHD_COMMIT {
        assert committed && Left() == [MSG_SCHD_COMMIT] + (PutHeader(prepare.header) + rest);
        ok, b := ReadFull(1);
        var h;
        ok, h := ReadHeader();
        HeaderUnique(h, prepare.header, Left(), rest);
        third := Some(h);
      }
    }

    static lemma HeaderUnique(h: Header, g: Header, x: seq<byte>, y: seq<byte>)
      requires PutHeader(h) + x == PutHeader(g) + y
      ensures h == g && x == y
    {
      SameHeader(g, h, y);
      assert x == (PutHeader(h) + x)[28..] && y == (PutHeader(g) + y)[28..];
    }
  }
}
