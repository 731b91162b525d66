/** The closed-form slot arithmetic: counting arrivals by division within a
    window, by binary search over a client's windows, and by a sum over clients
    in any order, equals the rank of an arrival in the schedule. */
module SlotArithmetic {
  import opened Schedule
  import opened Arrivals

  /** A client's announcements with the running arrival counts at their ends. */
  datatype ClientLine = ClientLine(windows: seq<Window>, windowCounts: seq<nat>, baseNs: int, intervalNs: int, maxSeqSeen: u64)

  /** The arithmetic of countBefore for a single arrival line. Go divides a
      non-negative number here, so truncation and Dafny's division agree. */
  function LineCount(base: int, k: int, y: int, tiePrecedes: bool): int {
    var d := y - base;
    if k <= 0 then 0
    else (if d > 0 then (d - 1) / k + 1 else 0) + (if tiePrecedes && d >= 0 && d % k == 0 then 1 else 0)
  }

  function WindowCount(w: Window, y: int, tiePrecedes: bool): int {
    LineCount(w.firstMsgNs, Step(w), y, tiePrecedes)
  }

  /** The windows of one client, in schedule order. */
  function WindowsOf(s: seq<Window>, client: u64): seq<Window> {
    if s == [] then []
    else
      var last := s[|s| - 1];
      WindowsOf(s[..|s| - 1], client) + (if last.clientId == client then [last] else [])
  }

  /** The arrival times of a client's windows that lie before y, or at y too. */
  ghost function TimesBefore(windows: seq<Window>, y: int, tiePrecedes: bool): set<nat> {
    set i, t: nat | 0 <= i < |windows| && windows[i].firstMsgNs <= t < windows[i].endTime && ArrivesAt(windows[i], t)
               && (t < y || (tiePrecedes && t == y)) :: t
  }

  /** Windows of one client: in time order and disjoint. */
  ghost predicate DisjointWindows(windows: seq<Window>) {
    && (forall i :: 0 <= i < |windows| ==> ValidTiming(windows[i]))
    && (forall i, j :: 0 <= i < j < |windows| ==> windows[i].endTime <= windows[j].firstMsgNs)
  }

  ghost predicate LineOk(line: ClientLine) {
    && DisjointWindows(line.windows)
    && |line.windowCounts| == |line.windows| + 1
    && forall i :: 0 <= i <= |line.windows| ==> line.windowCounts[i] == CountTo(line.windows[..i])
  }

  function CountTo(windows: seq<Window>): nat {
    if windows == [] then 0
    else
      var last := windows[|windows| - 1];
      CountTo(windows[..|windows| - 1]) + (if last.endTime > last.firstMsgNs then WindowCount(last, last.endTime, false) else 0)
  }

  // ------------------------------------------------------------- one window

  lemma DivStep(d: int, k: int)
    requires d >= 0 && k > 0
    ensures d % k == 0 ==> d > 0 ==> d / k == (d - 1) / k + 1
    ensures d % k != 0 ==> d / k == (d - 1) / k
  {
    var q, r := d / k, d % k;
    assert d == q * k + r;
    if r != 0 {
      assert (d - 1) == q * k + (r - 1);
      QuotientIs(d - 1, k, q, r - 1);
    } else if d > 0 {
      assert (d - 1) == (q - 1) * k + (k - 1);
      QuotientIs(d - 1, k, q - 1, k - 1);
    }
  }

  lemma Multiple(x: int, k: int)
    requires k > 0
    ensures x >= 1 ==> x * k >= k
    ensures x <= -1 ==> x * k <= -k
  {
  }

  lemma QuotientIs(d: int, k: int, q: int, r: int)
    requires k > 0 && 0 <= r < k && d == q * k + r
    ensures d / k == q && d % k == r
  {
    var q', r' := d / k, d % k;
    assert d == q' * k + r';
    assert (q' - q) * k == r - r';
    Multiple(q' - q, k);
  }

  ghost function WindowTimes(w: Window, y: int): set<nat> {
    set t: nat | w.firstMsgNs <= t < y && t < w.endTime && ArrivesAt(w, t) :: t
  }

  /** Within its window, division counts the arrivals before y. */
  lemma {:induction false} WindowCounted(w: Window, y: int)
    requires ValidTiming(w) && w.firstMsgNs <= y <= w.endTime
    ensures |WindowTimes(w, y)| == WindowCount(w, y, false)
    decreases y
  {
    hide ArrivesAt, Step;
    if y == w.firstMsgNs {
      assert WindowTimes(w, y) == {};
    } else {
      WindowCounted(w, y - 1);
      CountStep(w, y);
      TimesStep(w, y);
    }
  }

  lemma CountStep(w: Window, y: int)
    requires w.firstMsgNs < y <= w.endTime
    ensures WindowCount(w, y, false) == WindowCount(w, y - 1, false) + (if ArrivesAt(w, y - 1) then 1 else 0)
  {
    if w.intervalMs > 0 {
      DivStep(y - 1 - w.firstMsgNs, Step(w));
    }
  }

  lemma TimesStep(w: Window, y: int)
    requires w.firstMsgNs < y <= w.endTime
    ensures |WindowTimes(w, y)| == |WindowTimes(w, y - 1)| + (if ArrivesAt(w, y - 1) then 1 else 0)
  {
    hide ArrivesAt;
    if ArrivesAt(w, y - 1) {
      assert WindowTimes(w, y) == WindowTimes(w, y - 1) + {y - 1};
    } else {
      assert WindowTimes(w, y) == WindowTimes(w, y - 1);
    }
  }

  /** One window's part of countBefore, for a time that is not past its end. */
  lemma WindowCountedTied(w: Window, y: int, tiePrecedes: bool)
    requires ValidTiming(w) && y < w.endTime
    ensures var times := WindowTimes(w, y) + (if tiePrecedes && ArrivesAt(w, y) then {y} else {});
      |times| == WindowCount(w, y, tiePrecedes)
  {
    if y < w.firstMsgNs {
      assert WindowTimes(w, y) == {};
    } else {
      WindowCounted(w, y);
    }
  }

  // ------------------------------------------------------------- one client

  ghost function AllTimes(windows: seq<Window>): set<nat> {
    set i, t: nat | 0 <= i < |windows| && windows[i].firstMsgNs <= t < windows[i].endTime && ArrivesAt(windows[i], t) :: t
  }

  lemma AllTimesAppend(windows: seq<Window>)
    requires DisjointWindows(windows) && |windows| > 0
    ensures var front, last := windows[..|windows| - 1], windows[|windows| - 1];
      && AllTimes(windows) == AllTimes(front) + WindowTimes(last, last.endTime)
      && AllTimes(front) !! WindowTimes(last, last.endTime)
  {
    var front, last := windows[..|windows| - 1], windows[|windows| - 1];
    forall t | t in AllTimes(windows) ensures t in AllTimes(front) + WindowTimes(last, last.endTime) {
      var i :| 0 <= i < |windows| && ArrivesAt(windows[i], t);
      if i < |front| { assert ArrivesAt(front[i], t); }
    }
    forall t | t in AllTimes(front) ensures t in AllTimes(windows) && t < last.firstMsgNs {
      var i :| 0 <= i < |front| && ArrivesAt(front[i], t);
      assert ArrivesAt(windows[i], t);
    }
    forall t | t in WindowTimes(last, last.endTime) ensures t in AllTimes(windows) {
      assert ArrivesAt(windows[|windows| - 1], t);
    }
  }

  /** The running counts count the arrivals of the windows they close. */
  lemma {:induction false} CountToCounts(windows: seq<Window>)
    requires DisjointWindows(windows)
    ensures |AllTimes(windows)| == CountTo(windows)
  {
    hide ArrivesAt, WindowCount;
    if windows == [] {
      assert AllTimes(windows) == {};
    } else {
      var last := windows[|windows| - 1];
      CountToCounts(windows[..|windows| - 1]);
      WindowCounted(last, last.endTime);
      AllTimesAppend(windows);
    }
  }

  /** The arrivals before y: all those of the windows that ended by y, and the
      part of the window around y. */
  lemma TimesSplit(windows: seq<Window>, i: nat, y: int, tiePrecedes: bool)
    requires DisjointWindows(windows) && i <= |windows|
    requires forall j :: 0 <= j < i ==> windows[j].endTime <= y
    requires i < |windows| ==> y < windows[i].endTime
    ensures TimesBefore(windows, y, tiePrecedes) ==
      if i == |windows| then AllTimes(windows[..i])
      else AllTimes(windows[..i]) + (WindowTimes(windows[i], y) + (if tiePrecedes && ArrivesAt(windows[i], y) then {y} else {}))
    ensures i < |windows| ==> forall t :: t in AllTimes(windows[..i]) ==> t < windows[i].firstMsgNs
  {
    var done := windows[..i];
    forall t | t in TimesBefore(windows, y, tiePrecedes)
      ensures t in AllTimes(done) || (i < |windows| && ArrivesAt(windows[i], t))
    {
      var j :| 0 <= j < |windows| && ArrivesAt(windows[j], t);
      if j < i { assert ArrivesAt(done[j], t); }
      if j > i { assert windows[i].endTime <= windows[j].firstMsgNs; }
    }
    forall t | t in AllTimes(done)
      ensures t in TimesBefore(windows, y, tiePrecedes) && (i < |windows| ==> t < windows[i].firstMsgNs)
    {
      var j :| 0 <= j < |done| && ArrivesAt(done[j], t);
      assert ArrivesAt(windows[j], t) && windows[j].endTime <= y;
    }
  }

  /** sort.Search over the window ends: the first window that ends after y. */
  method SearchEnd(windows: seq<Window>, y: int) returns (i: nat)
    requires DisjointWindows(windows)
    ensures i <= |windows|
    ensures forall j :: 0 <= j < i ==> windows[j].endTime <= y
    ensures i < |windows| ==> y < windows[i].endTime
  {
    i := 0;
    var high := |windows|;
    while i < high
      invariant i <= high <= |windows|
      invariant forall j :: 0 <= j < i ==> windows[j].endTime <= y
      invariant high < |windows| ==> y < windows[high].endTime
    {
      var mid := i + (high - i) / 2;
      if windows[mid].endTime > y {
        high := mid;
      } else {
        forall j | 0 <= j < mid ensures windows[j].endTime <= y {
          assert ValidTiming(windows[mid]);
        }
        i := mid + 1;
      }
    }
  }

  lemma LineCounted(line: ClientLine, i: nat, y: int, tiePrecedes: bool)
    requires LineOk(line) && i <= |line.windows| && 0 <= y
    requires forall j :: 0 <= j < i ==> line.windows[j].endTime <= y
    requires i < |line.windows| ==> y < line.windows[i].endTime
    ensures |TimesBefore(line.windows, y, tiePrecedes)| ==
      line.windowCounts[i] + if i < |line.windows| then WindowCount(line.windows[i], y, tiePrecedes) else 0
    ensures |TimesBefore(line.windows, y, tiePrecedes)| <= y + 1
  {
    hide ArrivesAt, WindowCount, CountTo;
    CountToCounts(line.windows[..i]);
    TimesSplit(line.windows, i, y, tiePrecedes);
    TimesFew(TimesBefore(line.windows, y, tiePrecedes), y + 1);
    if i < |line.windows| {
      var w := line.windows[i];
      WindowCountedTied(w, y, tiePrecedes);
      var times := WindowTimes(w, y) + (if tiePrecedes && ArrivesAt(w, y) then {y} else {});
      StartsLater(w, y);
      assert AllTimes(line.windows[..i]) !! times;
    }
  }

  lemma StartsLater(w: Window, y: int)
    ensures forall t :: t in WindowTimes(w, y) ==> w.firstMsgNs <= t
    ensures ArrivesAt(w, y) ==> w.firstMsgNs <= y
  {
  }

  /** uint64(y) and int64(n). */
  function AsWord(y: int): int {
    if y < 0 then y + TWO_TO_THE_64 else y
  }

  function AsSigned(n: u64): int {
    if n <= MAX_INT64 then n else n - TWO_TO_THE_64
  }

  /** The index into the running counts and one division count exactly the
      arrivals before y, or up to y when ties precede; nothing overflows. A time
      too large for an int64 comes in negative, and is past every window. */
  method CountBefore(line: ClientLine, y: int, tiePrecedes: bool) returns (count: int)
    requires |line.windows| > 0 ==> LineOk(line)
    requires -MAX_INT64 - 1 <= y <= MAX_INT64 && (|line.windows| == 0 ==> 0 <= y)
    ensures |line.windows| > 0 ==> count == |TimesBefore(line.windows, AsWord(y), tiePrecedes)| && 0 <= count <= AsWord(y) + 1
    ensures |line.windows| == 0 ==> count == LineCount(line.baseNs, line.intervalNs, y, tiePrecedes)
    decreases |line.windows|
  {
    if |line.windows| > 0 {
      var i := SearchEnd(line.windows, AsWord(y));
      count := line.windowCounts[i];
      LineCounted(line, i, AsWord(y), tiePrecedes);
      if i < |line.windows| {
        var w := line.windows[i];
        var inside := CountBefore(ClientLine([], [0], w.firstMsgNs, Step(w), 0), y, tiePrecedes);
        count := count + inside;
      }
      return;
    }
    var d := y - line.baseNs;
    var k := line.intervalNs;
    if k <= 0 {
      return 0;
    }
    count := 0;
    if d > 0 {
      count := (d - 1) / k + 1;
    }
    if tiePrecedes && d >= 0 && d % k == 0 {
      count := count + 1;
    }
  }

  lemma {:induction false} TimesFew(times: set<nat>, n: nat)
    requires forall t: nat :: t in times ==> 0 <= t < n
    ensures |times| <= n
  {
    if n == 0 {
      assert forall t :: t in times ==> t < 0;
      assert times == {};
    } else {
      TimesFew(times - {n - 1}, n - 1);
    }
  }
}
