/** computeGlobalSlot: the slot of a bus is the rank of its arrival, modulo the
    word size; and how many entries a window may have before that matters. */
module GlobalSlot {
  import opened Schedule
  import opened Arrivals
  import opened SlotArithmetic

  ghost function ClientsOf(s: seq<Window>): set<u64> {
    set i | 0 <= i < |s| :: s[i].clientId
  }

  /** `lines` is the per-client index of `s`: what installScheduleLocked builds. */
  ghost predicate Indexes(lines: map<u64, ClientLine>, s: seq<Window>) {
    && lines.Keys == ClientsOf(s)
    && forall c :: c in lines ==> lines[c].windows == WindowsOf(s, c) && |lines[c].windows| > 0 && LineOk(lines[c])
  }

  // ------------------------------------------------------------- one client's windows

  lemma {:induction false} WindowsOfIn(s: seq<Window>, c: u64)
    ensures forall w :: w in WindowsOf(s, c) <==> w in s && w.clientId == c
    ensures |WindowsOf(s, c)| > 0 <==> c in ClientsOf(s)
  {
    if s != [] {
      var front, last := s[..|s| - 1], s[|s| - 1];
      WindowsOfIn(front, c);
      assert s == front + [last];
      if c in ClientsOf(s) {
        var i :| 0 <= i < |s| && s[i].clientId == c;
        assert s[i] in s && s[i] in WindowsOf(s, c);
      }
      if |WindowsOf(s, c)| > 0 {
        assert WindowsOf(s, c)[0] in s;
        var i :| 0 <= i < |s| && s[i] == WindowsOf(s, c)[0];
        assert s[i].clientId in ClientsOf(s);
      }
    }
  }

  lemma {:induction false} WindowsOfDisjoint(s: seq<Window>, c: u64)
    requires ValidSchedule(s)
    ensures DisjointWindows(WindowsOf(s, c))
  {
    if s != [] {
      var front, last := s[..|s| - 1], s[|s| - 1];
      ValidPrefix(front, s);
      WindowsOfDisjoint(front, c);
      WindowsOfIn(front, c);
      if last.clientId == c {
        var ws := WindowsOf(front, c);
        forall i | 0 <= i < |ws| ensures ws[i].endTime <= last.firstMsgNs {
          assert ws[i] in front;
          var j :| 0 <= j < |front| && front[j] == ws[i];
          assert Precedes(s[j], s[|s| - 1]);
        }
      }
    }
  }

  lemma LineOf(lines: map<u64, ClientLine>, s: seq<Window>, c: u64)
    requires Indexes(lines, s)
    ensures c in lines <==> c in ClientsOf(s)
    ensures c in lines ==> lines[c].windows == WindowsOf(s, c) && |lines[c].windows| > 0
    ensures c in lines ==> LineOk(lines[c]) && DisjointWindows(lines[c].windows)
  {
  }

  /** A client's last window ends with the schedule at the latest. */
  lemma EndOfLine(s: seq<Window>, c: u64)
    requires ValidSchedule(s) && c in ClientsOf(s)
    ensures |s| > 0 && |WindowsOf(s, c)| > 0
    ensures var ws := WindowsOf(s, c);
      && 0 < ws[|ws| - 1].endTime <= s[|s| - 1].endTime
      && (c == s[|s| - 1].clientId ==> ws[|ws| - 1] == s[|s| - 1])
  {
    var ws := WindowsOf(s, c);
    WindowsOfIn(s, c);
    assert ws[|ws| - 1] in s;
    var i :| 0 <= i < |s| && s[i] == ws[|ws| - 1];
    assert i == |s| - 1 || Precedes(s[i], s[|s| - 1]);
    assert ValidTiming(s[i]) && ValidTiming(s[|s| - 1]);
  }

  // ------------------------------------------------------------- building the index

  /** One more entry of the history extends the line of its client. */
  function Extended(line: ClientLine, m: Window): ClientLine
    requires |line.windowCounts| > 0
  {
    line.(windows := line.windows + [m],
          windowCounts := line.windowCounts + [line.windowCounts[|line.windowCounts| - 1] + WindowTotal(m)])
  }

  function WindowTotal(m: Window): nat {
    var n := WindowCount(m, m.endTime, false);
    if n >= 0 then n else 0
  }

  lemma WindowTotalIs(m: Window)
    requires ValidTiming(m)
    ensures WindowCount(m, m.endTime, false) == WindowTotal(m)
  {
    WindowCounted(m, m.endTime);
  }

  lemma LineExtends(line: ClientLine, m: Window)
    requires LineOk(line) && ValidTiming(m) && DisjointWindows(line.windows + [m])
    ensures LineOk(Extended(line, m))
  {
    hide WindowCount, ValidTiming;
    var line' := Extended(line, m);
    var n := |line.windows|;
    WindowTotalIs(m);
    forall j | 0 <= j <= n + 1 ensures line'.windowCounts[j] == CountTo(line'.windows[..j]) {
      if j <= n {
        assert line'.windows[..j] == line.windows[..j];
      } else {
        assert line'.windows[..j] == line.windows + [m] && line.windows[..n] == line.windows;
        assert (line.windows + [m])[..n] == line.windows;
        TimingPositive(m);
      }
    }
  }

  lemma TimingPositive(m: Window)
    requires ValidTiming(m)
    ensures m.firstMsgNs < m.endTime
  {
  }

  lemma IndexExtends(s: seq<Window>, i: nat, lines: map<u64, ClientLine>, line: ClientLine)
    requires ValidSchedule(s) && i < |s| && Indexes(lines, s[..i])
    requires if s[i].clientId in lines then line == lines[s[i].clientId] else line.windows == [] && line.windowCounts == [0]
    ensures LineOk(line) && |line.windowCounts| == |line.windows| + 1 && ValidTiming(s[i])
    ensures Indexes(lines[s[i].clientId := Extended(line, s[i])], s[..i + 1])
  {
    hide ValidSchedule, LineOk, Extended;
    var p, q, c := s[..i], s[..i + 1], s[i].clientId;
    assert q[..i] == p && q == p + [s[i]];
    LineOf(lines, p, c);
    EmptyLineOk(line);
    WindowsOfIn(p, c);
    assert WindowsOf(q, c) == line.windows + [s[i]];
    PrefixDisjoint(s, i, c);
    LineExtends(line, s[i]);
    assert ClientsOf(q) == ClientsOf(p) + {c} by {
      assert q[i] == s[i] && forall j :: 0 <= j < i ==> q[j] == p[j];
    }
    ExtendedWindows(line, s[i]);
    forall d | d in ClientsOf(q) && d != c ensures WindowsOf(q, d) == WindowsOf(p, d) {}
  }

  lemma EmptyLineOk(line: ClientLine)
    ensures line.windows == [] && line.windowCounts == [0] ==> LineOk(line)
    ensures LineOk(line) ==> |line.windowCounts| == |line.windows| + 1
  {
  }

  lemma ExtendedWindows(line: ClientLine, m: Window)
    requires LineOk(line)
    ensures Extended(line, m).windows == line.windows + [m]
  {
  }

  lemma PrefixDisjoint(s: seq<Window>, i: nat, c: u64)
    requires ValidSchedule(s) && i < |s|
    ensures ValidTiming(s[i]) && DisjointWindows(WindowsOf(s[..i + 1], c))
  {
    ValidPrefix(s[..i + 1], s);
    WindowsOfDisjoint(s[..i + 1], c);
  }

  // ------------------------------------------------------------- the sum over the clients

  /** The arrivals of client c that come before a. */
  ghost function ClientBelow(s: seq<Window>, c: u64, a: Arrival): set<Arrival> {
    set b | b in Below(ArrivalsOf(s), a) && b.client == c
  }

  lemma {:induction false} SizeOfImage(times: set<nat>, c: u64, image: set<Arrival>)
    requires forall t: nat :: t in times ==> Arrival(t, c) in image
    requires forall b :: b in image ==> b.client == c && 0 <= b.at && b.at in times
    ensures |image| == |times|
    decreases times
  {
    if |times| == 0 {
      assert image == {};
    } else {
      var t :| t in times;
      forall b | b in image - {Arrival(t, c)} ensures b.at in times - {t} {}
      SizeOfImage(times - {t}, c, image - {Arrival(t, c)});
    }
  }

  /** countBefore on c's line counts c's arrivals before a. */
  lemma ClientCounted(s: seq<Window>, c: u64, a: Arrival)
    ensures |ClientBelow(s, c, a)| == |TimesBefore(WindowsOf(s, c), a.at, c < a.client)|
  {
    var times := TimesBefore(WindowsOf(s, c), a.at, c < a.client);
    WindowsOfIn(s, c);
    forall t | t in times ensures Arrival(t, c) in ClientBelow(s, c, a) {
      var i :| 0 <= i < |WindowsOf(s, c)| && ArrivesAt(WindowsOf(s, c)[i], t);
      assert WindowsOf(s, c)[i] in s;
      var j :| 0 <= j < |s| && s[j] == WindowsOf(s, c)[i];
      ArrivalAt(s, j, t);
    }
    forall b | b in ClientBelow(s, c, a) ensures b.at in times {
      var j := WindowOf(s, b);
      assert s[j] in WindowsOf(s, c);
    }
    SizeOfImage(times, c, ClientBelow(s, c, a));
  }

  /** The arrivals before a of the clients already summed. */
  ghost function SummedBelow(s: seq<Window>, done: set<u64>, a: Arrival): set<Arrival> {
    set b | b in Below(ArrivalsOf(s), a) && b.client in done
  }

  lemma SumOneMore(s: seq<Window>, done: set<u64>, c: u64, a: Arrival)
    requires c !in done
    ensures |SummedBelow(s, done + {c}, a)| == |SummedBelow(s, done, a)| + |ClientBelow(s, c, a)|
  {
    assert SummedBelow(s, done + {c}, a) == SummedBelow(s, done, a) + ClientBelow(s, c, a);
  }

  lemma SumAll(s: seq<Window>, a: Arrival)
    ensures SummedBelow(s, ClientsOf(s), a) == Below(ArrivalsOf(s), a)
  {
    forall b | b in Below(ArrivalsOf(s), a) ensures b.client in ClientsOf(s) {
      var i := WindowOf(s, b);
    }
  }

  /** A uint64 result of an addition or subtraction. */
  function Wrap(x: int): u64 {
    x % TWO_TO_THE_64
  }

  lemma WrapSmall(x: int)
    requires 0 <= x < TWO_TO_THE_64
    ensures Wrap(x) == x
  {
  }

  lemma WrapAdd(sum: int, count: int)
    ensures Wrap(Wrap(sum) + count) == Wrap(sum + count)
  {
  }

  /** Whatever order the clients are visited in, the sum is the rank of the
      arrival (reqId, clientId), as far as 64 bits hold it. */
  method ComputeGlobalSlot(lines: map<u64, ClientLine>, ghost s: seq<Window>, clientId: u64, reqId: u64) returns (slot: u64)
    requires ValidSchedule(s) && Indexes(lines, s)
    ensures clientId in lines ==> slot == Wrap(Rank(s, Arrival(reqId, clientId)))
    ensures clientId !in lines ==> slot == Wrap(reqId - 1)
  {
    hide ValidSchedule, LineOk, Below, SummedBelow, ClientBelow, TimesBefore, ClientsOf, WindowsOf, Wrap;
    if clientId !in lines {
      return Wrap(reqId - 1);
    }
    ghost var a := Arrival(reqId, clientId);
    var self := lines[clientId];
    var y := AsSigned(reqId);
    var sum := CountBefore(self, y, false);
    slot := Wrap(sum);
    var rest := lines.Keys - {clientId};
    SumFirst(s, clientId, a);
    assert lines.Keys - rest == {clientId};
    while rest != {}
      invariant rest <= lines.Keys - {clientId}
      invariant slot == Wrap(|SummedBelow(s, lines.Keys - rest, a)|)
    {
      var cid :| cid in rest;
      var before := CountBefore(lines[cid], y, cid < clientId);
      ClientCounted(s, cid, a);
      SumOneMore(s, lines.Keys - rest, cid, a);
      assert lines.Keys - (rest - {cid}) == lines.Keys - rest + {cid};
      WrapAdd(|SummedBelow(s, lines.Keys - rest, a)|, before);
      slot := Wrap(slot + before);
      rest := rest - {cid};
    }
    assert lines.Keys - rest == lines.Keys;
    SumAll(s, a);
  }

  lemma SumFirst(s: seq<Window>, c: u64, a: Arrival)
    requires a.client == c
    ensures |SummedBelow(s, {c}, a)| == |TimesBefore(WindowsOf(s, c), a.at, false)|
  {
    ClientCounted(s, c, a);
    assert SummedBelow(s, {c}, a) == ClientBelow(s, c, a);
  }
}
