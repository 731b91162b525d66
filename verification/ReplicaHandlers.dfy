/** The mutex sections of schedule.go and the schedule half of recovery.go, as
    they update a replica in place; each is proved to do what its function in
    `ReplicaSpec` says, which is the step `Agreement` takes. */
module ReplicaHandlers {
  import opened Schedule
  import opened ReplicaSpec
  import opened GlobalSlot
  import opened SortedIds
  import opened Arrivals
  import opened CursorReset
  import opened ReplicaIndex
  import opened SlotArithmetic
  import opened ClientSequence
  import opened CommitMarks

  type RequestBook = map<u64, map<u64, HsRequest>>

  /** What the leader keeps of the clients' requests: by window start, then client. */
  ghost predicate BookOk(cfg: Config, book: RequestBook) {
    cfg.window > 0 && forall start :: start in book ==>
      && 0 < start && start % cfg.window == 0 && start + cfg.window <= MAX_INT64
      && 0 < |book[start]| <= cfg.expectedClients
      && forall c :: c in book[start] ==> RequestOk(book[start][c], start, c)
  }

  predicate RequestOk(q: HsRequest, start: u64, client: u64) {
    q.startTime == start && q.clientId == client && q.intervalMs <= MAX_INT64 / NS_PER_MS
  }

  predicate AscendingClients(list: seq<HsRequest>) {
    forall i, j :: 0 <= i < j < |list| ==> list[i].clientId < list[j].clientId
  }

  /** The requests for one window, sorted by client. */
  method SortedRequests(requests: map<u64, HsRequest>, start: u64) returns (list: seq<HsRequest>)
    requires forall c :: c in requests ==> RequestOk(requests[c], start, c)
    ensures AscendingClients(list) && |list| == |requests|
    ensures forall q: HsRequest :: q in list <==> q.clientId in requests && requests[q.clientId] == q
  {
    list := [];
    var ids := Sort(requests.Keys);
    for i := 0 to |ids|
      invariant |list| == i && forall j :: 0 <= j < i ==> list[j] == requests[ids[j]] && list[j].clientId == ids[j]
    {
      list := list + [requests[ids[i]]];
    }
    forall q: HsRequest | q.clientId in requests && requests[q.clientId] == q ensures q in list {
      var j :| 0 <= j < |ids| && ids[j] == q.clientId;
      assert list[j] == q;
    }
  }

  lemma ProposedEntriesValid(cfg: Config, m: Prepare)
    requires cfg.Valid() && AscendingClients(m.requests) && |m.requests| <= cfg.expectedClients
    requires m.start < m.end <= MAX_INT64
    requires forall i :: 0 <= i < |m.requests| ==> m.requests[i].startTime == m.start && m.requests[i].intervalMs <= MAX_INT64 / NS_PER_MS
    ensures ValidSchedule(Entries(m))
  {
  }

  lemma {:induction false} CommittedOfStep(s: seq<Window>, i: nat, end: u64)
    requires i < |s|
    ensures CommittedOf(s[..i + 1], end) == CommittedOf(s[..i], end) + (if s[i].endTime <= end then [s[i]] else [])
  {
    assert s[..i + 1][..i] == s[..i];
  }

  /** What becomes of a bus that arrives: unknown, held off, or let in. */
  datatype Admission = Unsynced | Fenced | Admitted

  class ScheduleReplica {
    const cfg: Config
    const idx: nat
    var view: nat
    var status: Status
    var lastNormalView: nat
    var schedule: seq<Window>
    var epoch: nat
    var ready: bool
    var committedEnd: u64
    var installActive: bool
    var proposal: Option<Prepare>
    var prepared: set<nat>
    var round: Option<Round>
    var recovery: Option<nat>
    var startViewSeen: nat
    var requests: RequestBook
    const index: ScheduleIndex  // r.clients and the merge cursor

    /** The client index is the one of this very history. */
    ghost predicate Matches()
      reads this`schedule, index
    {
      index.Indexed() && index.schedule == schedule
    }

    ghost predicate Valid()
      reads this`schedule, this`requests, index
    {
      cfg.Valid() && idx < cfg.n && ValidSchedule(schedule) && BookOk(cfg, requests) && Matches()
    }

    ghost function State(): ReplicaState
      reads this
    {
      ReplicaState(idx, view, status, lastNormalView, schedule, epoch, ready, committedEnd, installActive,
                   proposal, prepared, round, recovery, startViewSeen)
    }

    constructor (cfg: Config, idx: nat)
      requires cfg.Valid() && idx < cfg.n
      ensures Valid() && State() == InitialReplica(idx) && requests == map[] && this.cfg == cfg
      ensures fresh(index) && index.CursorOk()
    {
      index := new ScheduleIndex();
      this.cfg, this.idx := cfg, idx;
      view, status, lastNormalView := 0, Normal, 0;
      schedule, epoch, ready, committedEnd, installActive := [], 0, false, 0, false;
      proposal, prepared, round, recovery, startViewSeen := None, {}, None, None, 0;
      requests := map[];
    }

    // ----------------------------------------------------------- the history

    method CommitScheduleHistory()
      modifies this`committedEnd
      ensures State() == CommitHistory(old(State()))
    {
      if |schedule| > 0 {
        committedEnd := schedule[|schedule| - 1].endTime;
      }
    }

    /** installScheduleLocked: history, index and cursor change together. */
    method InstallSchedule(s: seq<Window>, e: nat, r: bool)
      requires Matches() && ValidSchedule(s)
      modifies this`schedule, this`epoch, this`ready, this`committedEnd, index
      ensures Matches() && State() == Install(old(State()), s, e, r)
      ensures Plain(s) && old(index.CursorOk()) && CutOf(old(schedule), s) ==> index.CursorOk()
      ensures Plain(s) && !(old(schedule) <= s) ==> (index.CursorOk() <==> index.prunedBelow <= |ArrivalsOf(s)|)
      ensures index.prunedBelow == old(index.prunedBelow)
    {
      index.InstallSchedule(s);
      schedule := s;
      epoch := e;
      ready := r;
      if ready {
        CommitScheduleHistory();
      }
    }

    method CommittedSchedule() returns (out: seq<Window>)
      ensures out == CommittedOf(schedule, committedEnd)
    {
      out := [];
      for i := 0 to |schedule|
        invariant out == CommittedOf(schedule[..i], committedEnd)
      {
        CommittedOfStep(schedule, i, committedEnd);
        if schedule[i].endTime <= committedEnd {
          out := out + [schedule[i]];
        }
      }
      assert schedule[..|schedule|] == schedule;
    }

    /** The entries a prepare announces, if it passes every check that does not
        look at the history. */
    method EntriesOf(m: Prepare) returns (ok: bool, entries: seq<Window>)
      requires cfg.Valid()
      ensures ok <==> MayPrepare(cfg, State(), m)
      ensures ok ==> entries == Entries(m)
    {
      entries := [];
      if m.view != view || status != Normal || m.replicaId != cfg.LeaderOf(view)
         || Wrap(m.end - m.start) != cfg.window || m.end <= m.start
         || |m.requests| == 0 || |m.requests| > cfg.expectedClients {
        return false, [];
      }
      for i := 0 to |m.requests|
        invariant |entries| == i && entries == Entries(m)[..i]
        invariant forall j :: 0 <= j < i ==> m.requests[j].startTime == m.start
      {
        var q := m.requests[i];
        if q.startTime != m.start {
          return false, [];
        }
        entries := entries + [Window(m.end, q.clientId, q.startTime, q.intervalMs)];
      }
      assert entries == Entries(m);
      ok := ValidateSchedule(entries);
    }

    /** acceptSchedulePrepareLocked. */
    method AcceptSchedulePrepare(m: Prepare) returns (ok: bool)
      requires Valid()
      modifies this`schedule, this`epoch, this`ready, this`committedEnd, index
      ensures Valid() && State() == AcceptPrepare(cfg, old(State()), m)
      ensures ok == Accepts(cfg, old(State()), m)
      ensures old(schedule) <= schedule && committedEnd == old(committedEnd)
      ensures ok ==> forall q :: q in m.requests ==> Window(m.end, q.clientId, q.startTime, q.intervalMs) in schedule
      ensures !ok ==> State() == old(State())
      ensures Plain(schedule) && CutOf(old(schedule), schedule) && old(index.CursorOk()) ==> index.CursorOk()
    {
      hide ValidSchedule, WellFormedPrepare, BookOk, Matches;
      var entries;
      ok, entries := EntriesOf(m);
      if !ok {
        return false;
      }
      PrepareFacts(cfg, m);
      for i := 0 to |schedule|
        invariant forall j :: 0 <= j < i ==> schedule[j].firstMsgNs != m.start
      {
        if schedule[i].firstMsgNs == m.start {
          var end := i;
          while end < |schedule| && schedule[end].firstMsgNs == m.start
            invariant i <= end <= |schedule|
            invariant forall j :: i <= j < end ==> schedule[j].firstMsgNs == m.start
          {
            end := end + 1;
          }
          NotAgain(schedule, i, end, m.start);
          WindowAtRun(schedule, i, end, m.start);
          ok := SchedulesEqual(schedule[i..end], entries);
          if ok { EntriesIn(m, schedule, i, end); }
          return;
        }
      }
      if |schedule| > 0 && schedule[|schedule| - 1].endTime > m.start {
        return false;
      }
      if |schedule| + |entries| > MAX_HISTORY {
        return false;
      }
      AppendWindow(m, entries);
      return true;
    }

    method AppendWindow(m: Prepare, entries: seq<Window>)
      requires Valid() && MayPrepare(cfg, State(), m) && MayAppend(State(), m) && entries == Entries(m)
      modifies this`schedule, this`epoch, this`ready, this`committedEnd, index
      ensures Valid() && State() == AcceptPrepare(cfg, old(State()), m) && schedule == old(schedule) + entries && committedEnd == old(committedEnd)
      ensures forall q :: q in m.requests ==> Window(m.end, q.clientId, q.startTime, q.intervalMs) in schedule
      ensures Plain(schedule) && CutOf(old(schedule), schedule) && old(index.CursorOk()) ==> index.CursorOk()
    {
      hide ValidSchedule, WellFormedPrepare, BookOk, Matches;
      PrepareFacts(cfg, m);
      AppendValid(schedule, m);
      AppendedAt(schedule, entries);
      EntriesIn(m, schedule + entries, |schedule|, |schedule + entries|);
      InstallSchedule(schedule + entries, m.view, false);
      ready := committedEnd > 0;
    }

    static lemma AppendedAt(s: seq<Window>, e: seq<Window>)
      ensures (s + e)[|s|..|s + e|] == e
    {
    }

    static lemma EntriesIn(m: Prepare, s: seq<Window>, i: nat, end: nat)
      requires i <= end <= |s| && s[i..end] == Entries(m)
      ensures forall q :: q in m.requests ==> Window(m.end, q.clientId, q.startTime, q.intervalMs) in s
    {
      forall q | q in m.requests ensures Window(m.end, q.clientId, q.startTime, q.intervalMs) in s {
        var k :| 0 <= k < |m.requests| && m.requests[k] == q;
        assert s[i..end][k] == Entries(m)[k] && s[i + k] == s[i..end][k];
      }
    }

    static lemma PrepareFacts(cfg: Config, m: Prepare)
      requires cfg.Valid() && WellFormedPrepare(cfg, m)
      ensures ValidSchedule(Entries(m)) && |Entries(m)| == |m.requests| > 0
      ensures forall i :: 0 <= i < |m.requests| ==> m.requests[i].startTime == m.start
    {
    }

    // ----------------------------------------------------------- the messages

    method HandleSchdPrepareReply(from: nat, v: nat, start: u64, end: u64)
      requires cfg.Valid()
      modifies this`prepared
      ensures State() == HandlePrepareReply(cfg, old(State()), from, v, start, end)
      ensures (from < cfg.n && status == Normal && idx == view % cfg.n && proposal.Some? && v == proposal.value.view
        && start == proposal.value.start && end == proposal.value.end) ==> prepared == old(prepared) + {from}
      ensures prepared == old(prepared) || (prepared == old(prepared) + {from} && from < cfg.n)
    {
      if proposal.Some? && status == Normal && idx == cfg.LeaderOf(view) && v == proposal.value.view
         && start == proposal.value.start && end == proposal.value.end && from < cfg.n {
        prepared := prepared + {from};
      }
    }

    method HandleSchdCommit(replicaId: nat, v: nat, start: u64, end: u64)
      requires Valid()
      modifies this`committedEnd, this`ready
      ensures State() == HandleCommit(cfg, old(State()), replicaId, v, start, end)
      ensures v == view && status == Normal && replicaId == view % cfg.n ==>
        forall i :: 0 <= i < |schedule| && schedule[i].firstMsgNs == start && schedule[i].endTime == end ==> ready && schedule[i].endTime <= committedEnd
      ensures old(committedEnd) <= committedEnd && (committedEnd == old(committedEnd) || committedEnd == end)
    {
      if v != view || status != Normal || replicaId != cfg.LeaderOf(view) {
        return;
      }
      for i := 0 to |schedule|
        invariant forall j :: 0 <= j < i ==> !(schedule[j].firstMsgNs == start && schedule[j].endTime == end)
      {
        if schedule[i].firstMsgNs == start && schedule[i].endTime == end {
          if end > committedEnd {
            committedEnd := end;
          }
          ready := true;
          return;
        }
      }
    }

    method HandleScheduleSnapshot(sender: nat, e: nat, s: seq<Window>) returns (ok: bool)
      requires Valid()
      modifies this`schedule, this`epoch, this`ready, this`committedEnd, index
      ensures Valid() && (State(), ok) == HandleScheduleInstall(cfg, old(State()), sender, e, s)
      ensures ok && s != [] ==> ready && old(schedule) <= schedule && s <= schedule && (schedule == old(schedule) || schedule == s)
      ensures ok && s != [] ==> forall w :: w in s ==> w in schedule && w.endTime <= committedEnd
      ensures ok ==> committedEnd == old(committedEnd) || (s != [] && committedEnd == s[|s| - 1].endTime)
      ensures !ok ==> State() == old(State())
      ensures Plain(schedule) && CutOf(old(schedule), schedule) && old(index.CursorOk()) ==> index.CursorOk()
    {
      hide ValidSchedule, BookOk, Matches, HandleScheduleInstall;
      SnapshotCommits(cfg, State(), sender, e, s);
      ok := TakeSnapshot(sender, e, s);
    }

    method TakeSnapshot(sender: nat, e: nat, s: seq<Window>) returns (ok: bool)
      requires Valid()
      modifies this`schedule, this`epoch, this`ready, this`committedEnd, index
      ensures Valid() && (State(), ok) == HandleScheduleInstall(cfg, old(State()), sender, e, s)
      ensures Plain(schedule) && CutOf(old(schedule), schedule) && old(index.CursorOk()) ==> index.CursorOk()
    {
      hide ValidSchedule, BookOk, Matches;
      if e != view || status != Normal || sender != cfg.LeaderOf(view) {
        return false;
      }
      var valid := ValidateSchedule(s);
      if !valid {
        return false;
      }
      if |s| == 0 {
        return |schedule| == 0 || committedEnd == 0;
      }
      var longer := SchedulePrefix(schedule, s);
      if longer {
        InstallSchedule(s, e, true);
        return true;
      }
      var covered := SchedulePrefix(s, schedule);
      if covered {
        var end := s[|s| - 1].endTime;
        if end > committedEnd {
          committedEnd := end;
        }
        ready := true;
        return true;
      }
      return false;
    }

    /** admitLocked, but for the injected drops: a bus is let in exactly if it
        arrives when a committed entry of its client announces it, and the
        replica has a schedule for its view. */
    method Admit(clientId: u64, sequence: u64) returns (a: Admission)
      requires Valid()
      modifies index`clients
      ensures Valid() && State() == old(State())
      ensures a.Unsynced? <==> sequence == 0 || forall w :: w in schedule && w.clientId == clientId && ArrivesAt(w, sequence) ==> committedEnd < w.endTime
      ensures a.Admitted? ==> ready && epoch == view && schedule != []
      ensures !a.Unsynced? && ready && epoch == view ==> a.Admitted?
      ensures a.Unsynced? ==> index.clients == old(index.clients)
      ensures !a.Unsynced? ==> clientId in old(index.clients) && index.clients == Seen(old(index.clients), clientId, sequence)
    {
      hide ValidSchedule, BookOk, ArrivesAt, LineOk, Matches;
      if clientId !in index.clients || sequence == 0 {
        NotAClient(clientId, sequence);
        return Unsynced;
      }
      var line := index.clients[clientId];
      LineFacts(clientId);
      var valid := ValidSequence(line, sequence, committedEnd);
      LineEntries(clientId, sequence);
      if !valid {
        return Unsynced;
      }
      SeeSequence(clientId, sequence);
      if !(ready && epoch == view && |schedule| > 0) {
        return Fenced;
      }
      return Admitted;
    }

    /** The highest sequence a client was heard with. */
    static function Seen(clients: map<u64, ClientLine>, c: u64, sequence: u64): (r: map<u64, ClientLine>)
      requires c in clients
    {
      if sequence > clients[c].maxSeqSeen then clients[c := clients[c].(maxSeqSeen := sequence)] else clients
    }

    method SeeSequence(clientId: u64, sequence: u64)
      requires Valid() && clientId in index.clients
      modifies index`clients
      ensures Valid() && State() == old(State()) && index.clients == Seen(old(index.clients), clientId, sequence)
    {
      hide ValidSchedule, BookOk, ArrivesAt;
      var line := index.clients[clientId];
      if sequence > line.maxSeqSeen {
        index.clients := index.clients[clientId := line.(maxSeqSeen := sequence)];
      }
    }

    lemma LineFacts(c: u64)
      requires Valid() && c in index.clients
      ensures LineOk(index.clients[c]) && |index.clients[c].windows| > 0 && index.clients[c].windows == WindowsOf(schedule, c)
    {
    }

    lemma NotAClient(c: u64, t: u64)
      requires Valid()
      ensures c !in index.clients ==> forall w :: w in schedule ==> w.clientId != c
    {
      WindowsOfIn(schedule, c);
    }

    /** The entries on a client's line are its entries of the schedule. */
    lemma LineEntries(c: u64, t: u64)
      requires Valid() && c in index.clients
      ensures (exists i :: 0 <= i < |index.clients[c].windows| && ArrivesAt(index.clients[c].windows[i], t) && index.clients[c].windows[i].endTime <= committedEnd)
        <==> exists w :: w in schedule && w.clientId == c && ArrivesAt(w, t) && w.endTime <= committedEnd
    {
      hide ArrivesAt, ValidSchedule;
      var line := index.clients[c].windows;
      WindowsOfIn(schedule, c);
      assert forall i :: 0 <= i < |line| ==> line[i] in line;
    }

    // ----------------------------------------------------------- the leader's loop

    /** The requests kept for a start. */
    function BookAt(start: u64): map<u64, HsRequest>
      reads this`requests
    {
      if start in requests then requests[start] else map[]
    }

    /** A committed window of this client at this start. */
    ghost predicate Answers(m: HsRequest, s: Window)
      reads this`schedule, this`committedEnd
    {
      s in CommittedOf(schedule, committedEnd) && s.clientId == m.clientId && s.firstMsgNs == m.startTime
    }

    lemma NoAnswer(m: HsRequest)
      requires forall j :: 0 <= j < |schedule| ==>
        !(schedule[j].firstMsgNs == m.startTime && schedule[j].clientId == m.clientId && schedule[j].endTime <= committedEnd)
      ensures forall s :: !Answers(m, s)
    {
      CommittedOfIn(schedule, committedEnd);
    }

    static lemma {:induction false} CommittedOfIn(s: seq<Window>, end: u64)
      ensures forall w :: w in CommittedOf(s, end) ==> w in s && w.endTime <= end
    {
      if s != [] {
        CommittedOfIn(s[..|s| - 1], end);
      }
    }

    /** handleHsRequest: keep a client's announcement for a window that is soon
        to be proposed, or answer at once from the committed history. */
    method HandleHsRequest(m: HsRequest, now: u64) returns (reply: Option<Window>)
      requires Valid() && now <= MAX_INT64
      modifies this`requests
      ensures Valid()
      ensures reply.Some? ==> Answers(m, reply.value)
      ensures reply.Some? ==> reply.value in schedule && reply.value.endTime <= committedEnd
      ensures reply.Some? ==> reply.value.clientId == m.clientId && reply.value.firstMsgNs == m.startTime
      ensures reply.Some? <==> (m.startTime + cfg.window <= MAX_INT64 && m.startTime % cfg.window == 0 && m.intervalMs <= MAX_INT64 / NS_PER_MS
        && idx == view % cfg.n && status == Normal && exists s :: Answers(m, s))
      ensures requests == if m.startTime + cfg.window <= MAX_INT64 && m.startTime % cfg.window == 0 && m.intervalMs <= MAX_INT64 / NS_PER_MS
          && idx == view % cfg.n && status == Normal && reply.None?
          && now + cfg.window < m.startTime <= now + 3 * cfg.window && committedEnd <= m.startTime
          && (m.clientId in old(BookAt(m.startTime)) || |old(BookAt(m.startTime))| < cfg.expectedClients)
        then old(requests)[m.startTime := old(BookAt(m.startTime))[m.clientId := m]] else old(requests)
    {
      hide ValidSchedule, BookOk, Matches;
      var w := cfg.window;
      reply := None;
      if m.startTime > MAX_INT64 - w || m.startTime % w != 0 || m.intervalMs > MAX_INT64 / NS_PER_MS {
        return;
      }
      if idx != cfg.LeaderOf(view) || status != Normal {
        return;
      }
      for i := 0 to |schedule|
        invariant forall j :: 0 <= j < i ==>
          !(schedule[j].firstMsgNs == m.startTime && schedule[j].clientId == m.clientId && schedule[j].endTime <= committedEnd)
      {
        var s := schedule[i];
        if s.firstMsgNs == m.startTime && s.clientId == m.clientId && s.endTime <= committedEnd {
          CommittedOfHas(schedule, i, committedEnd);
          assert Answers(m, s);
          return Some(s);
        }
      }
      NoAnswer(m);
      if m.startTime <= now + w || m.startTime > now + 3 * w || m.startTime < committedEnd {
        return;
      }
      var book := if m.startTime in requests then requests[m.startTime] else map[];
      if m.clientId !in book && |book| >= cfg.expectedClients {
        return;
      }
      BookGrows(cfg, requests, book, m);
      requests := requests[m.startTime := book[m.clientId := m]];
    }

    static lemma {:induction false} CommittedOfHas(s: seq<Window>, i: nat, end: u64)
      requires i < |s| && s[i].endTime <= end
      ensures s[i] in CommittedOf(s, end)
    {
      if i < |s| - 1 {
        CommittedOfHas(s[..|s| - 1], i, end);
      }
    }

    static lemma BookGrows(cfg: Config, all: RequestBook, book: map<u64, HsRequest>, m: HsRequest)
      requires cfg.Valid() && BookOk(cfg, all) && 0 < m.startTime <= MAX_INT64 - cfg.window && m.startTime % cfg.window == 0
      requires RequestOk(m, m.startTime, m.clientId)
      requires book == if m.startTime in all then all[m.startTime] else map[]
      requires m.clientId in book || |book| < cfg.expectedClients
      ensures BookOk(cfg, all[m.startTime := book[m.clientId := m]])
    {
      var book' := book[m.clientId := m];
      assert book'.Keys == book.Keys + {m.clientId};
      assert |book'| == |book'.Keys| && |book| == |book.Keys|;
    }

    /** The earliest window that is due; 0 when there is none. */
    method DueStart(now: u64) returns (start: u64)
      requires Valid() && now <= MAX_INT64
      ensures start != 0 ==> start in requests && start <= now + cfg.window
      ensures start != 0 ==> forall t :: t in requests && t <= now + cfg.window ==> start <= t
      ensures start == 0 ==> forall t :: t in requests ==> t > now + cfg.window
    {
      start := 0;
      var rest := requests.Keys;
      ghost var done: set<u64> := {};
      while rest != {}
        invariant done + rest == requests.Keys
        invariant start != 0 ==> start in done && start <= now + cfg.window
        invariant forall t :: t in done && t <= now + cfg.window ==> start != 0 && start <= t
      {
        var t: u64 :| t in rest;
        rest, done := rest - {t}, done + {t};
        if t <= now + cfg.window && (start == 0 || t < start) {
          start := t;
        }
      }
      assert done == requests.Keys;
    }

    /** What the leader proposes for `start`: its clients' requests, sorted. */
    method MakeProposal(start: u64) returns (m: Prepare)
      requires Valid() && start in requests
      ensures m.start == start && IsProposal(m) && WellFormedPrepare(cfg, m)
    {
      var list := SortedRequests(requests[start], start);
      m := Prepare(idx, view, list, start, start + cfg.window);
      assert forall i :: 0 <= i < |list| ==> list[i] in list;
      ProposedEntriesValid(cfg, m);
    }

    predicate MayOpen()
      requires cfg.Valid()
      reads this`status, this`view, this`installActive
    {
      status == Normal && idx == cfg.LeaderOf(view) && !installActive
    }

    /** The earliest requested window, if it starts within the next one. */
    ghost predicate IsDue(start: u64, now: u64)
      reads this`requests
    {
      start in requests && start <= now + cfg.window && forall t :: t in requests ==> start <= t
    }

    /** The prepare for a requested window: its requests, by ascending client. */
    ghost predicate IsProposal(m: Prepare)
      reads this`requests, this`view
    {
      && m.start in requests && m.replicaId == idx && m.view == view && m.end == m.start + cfg.window
      && AscendingClients(m.requests)
      && forall q: HsRequest :: q in m.requests <==> q.clientId in requests[m.start] && requests[m.start][q.clientId] == q
    }

    static lemma BookShrinks(cfg: Config, book: RequestBook, start: u64)
      requires BookOk(cfg, book)
      ensures BookOk(cfg, book - {start})
    {
    }

    /** The proposing half of scheduleLoop: the step the leader takes, if any, is
        one that `Agreement` lets it take. */
    method ProposeDue(now: u64) returns (proposed: Option<Prepare>)
      requires Valid() && now <= MAX_INT64
      modifies this, index
      ensures Valid()
      ensures proposed.None? ==> State() == old(State())
      ensures proposed.Some? ==> State() == Propose(cfg, old(State()), proposed.value)
      ensures proposed.Some? ==> var m := proposed.value;
        && old(status == Normal && idx == cfg.LeaderOf(view) && !installActive)
        && m.replicaId == idx && m.view == old(view) && 0 < m.start && old(committedEnd) <= m.start && Accepts(cfg, old(State()), m)
      ensures proposed.Some? ==> proposal == proposed && prepared == {idx} && installActive && old(schedule) <= schedule
      ensures proposed.Some? ==> old(IsDue(proposed.value.start, now) && IsProposal(proposed.value))
      ensures requests.Keys == old(requests.Keys) - (set start | start in old(requests) && old(MayOpen() && IsDue(start, now)))
      ensures forall start :: start in requests ==> requests[start] == old(requests)[start]
      ensures proposed.None? ==> forall start: u64 :: old(MayOpen() && IsDue(start, now)) ==>
        start < old(committedEnd) || exists m :: old(IsProposal(m)) && m.start == start && !Accepts(cfg, old(State()), m)
      ensures Plain(schedule) && CutOf(old(schedule), schedule) && old(index.CursorOk()) ==> index.CursorOk()
    {
      hide WellFormedPrepare, BookOk, ValidSchedule, MayAppend, AcceptPrepare, Matches;
      proposed := None;
      if status != Normal || idx != cfg.LeaderOf(view) || installActive {
        return;
      }
      var start := DueStart(now);
      if start == 0 {
        return;
      }
      var m := MakeProposal(start);
      BookShrinks(cfg, requests, start);
      requests := requests - {start};
      if start >= committedEnd {
        var ok := OpenWindow(m);
        proposed := if ok then Some(m) else None;
      }
    }

    /** expireScheduleRequestsLocked: the windows that are over by now are dropped. */
    method ExpireRequests(now: u64)
      requires Valid()
      modifies this`requests
      ensures Valid()
      ensures forall start :: start in requests <==> start in old(requests) && now < start + cfg.window
      ensures forall start :: start in requests ==> requests[start] == old(requests)[start]
    {
      hide ValidSchedule, Matches;
      var rest := requests.Keys;
      while rest != {}
        invariant Valid() && rest <= requests.Keys
        invariant forall start :: start in requests ==> start in old(requests) && requests[start] == old(requests)[start]
        invariant forall start :: start in old(requests) && start !in requests ==> start + cfg.window <= now
        invariant forall start :: start in requests && start !in rest ==> now < start + cfg.window
      {
        var start: u64 :| start in rest;
        rest := rest - {start};
        if start <= now && cfg.window <= now - start {
          BookShrinks(cfg, requests, start);
          requests := requests - {start};
        }
      }
    }

    /** The mutex section of scheduleLoop up to the proposal: only a leader expires
        requests, and it proposes for no window that is over. */
    method Tick(now: u64) returns (proposed: Option<Prepare>)
      requires Valid() && now <= MAX_INT64
      modifies this, index
      ensures Valid()
      ensures State() == if proposed.Some? then Propose(cfg, old(State()), proposed.value) else old(State())
      ensures proposed.Some? ==> now < proposed.value.start + cfg.window && proposed.value.start in old(requests)
      ensures old(status == Normal && idx == cfg.LeaderOf(view)) ==> forall start :: start in requests ==> now < start + cfg.window
      ensures !old(status == Normal && idx == cfg.LeaderOf(view)) ==> proposed.None? && requests == old(requests)
    {
      hide ValidSchedule, BookOk, Matches, Propose, Accepts, IsProposal;
      if status != Normal || idx != cfg.LeaderOf(view) {
        return None;
      }
      ExpireRequests(now);
      proposed := ProposeDue(now);
    }

    method OpenWindow(m: Prepare) returns (ok: bool)
      requires Valid()
      modifies this`schedule, this`epoch, this`ready, this`committedEnd, this`installActive, this`proposal, this`prepared, index
      ensures Valid() && State() == Propose(cfg, old(State()), m) && ok == Accepts(cfg, old(State()), m)
      ensures ok ==> installActive && proposal == Some(m) && prepared == {idx} && old(schedule) <= schedule
      ensures ok ==> forall q :: q in m.requests ==> Window(m.end, q.clientId, q.startTime, q.intervalMs) in schedule
      ensures Plain(schedule) && CutOf(old(schedule), schedule) && old(index.CursorOk()) ==> index.CursorOk()
    {
      hide WellFormedPrepare, BookOk, ValidSchedule, MayAppend, Matches;
      ok := AcceptSchedulePrepare(m);
      if ok {
        installActive := true;
        proposal := Some(m);
        prepared := {idx};
      } else {
        NotAccepted(cfg, old(State()), m);
      }
    }

    static lemma NotAccepted(cfg: Config, s: ReplicaState, m: Prepare)
      requires cfg.Valid() && !Accepts(cfg, s, m)
      ensures AcceptPrepare(cfg, s, m) == s
    {
    }

    /** The committing half of scheduleLoop; `history` is the snapshot it sends. */
    method CommitIfPrepared() returns (committed: bool, history: seq<Window>)
      requires Valid() && status == Normal && idx == cfg.LeaderOf(view) && proposal.Some?
      modifies this`committedEnd, this`ready, this`installActive, this`proposal
      ensures committed == MayCommit(cfg, old(State()))
      ensures committed <==> |prepared| >= cfg.f + 1
      ensures committed ==> committedEnd == old(proposal).value.end && ready && proposal.None? && !installActive
      ensures !committed ==> State() == old(State())
      ensures State() == if committed then CommitProposal(old(State())) else old(State())
      ensures history == CommittedOf(schedule, committedEnd)
    {
      var msg := proposal.value;
      committed := |prepared| >= cfg.QuorumSize();
      if committed {
        committedEnd := msg.end;
        ready := true;
        installActive := false;
        proposal := None;
      }
      history := CommittedSchedule();
    }

    // ----------------------------------------------------------- the view change

    method StartViewChange(newView: nat)
      requires Valid()
      modifies this
      ensures Valid() && State() == BeginViewChange(old(State()), newView)
      ensures newView > old(view) ==> view == newView && status == ViewChange && !ready && proposal.None? && recovery.None?
      ensures newView > old(view) ==> round == Some(Round(newView, {idx}, false, false)) && schedule == old(schedule) && lastNormalView == old(lastNormalView)
      ensures requests == if newView > old(view) then map[] else old(requests)
    {
      hide BookOk, ValidSchedule, Matches;
      if newView <= view {
        return;
      }
      EmptyBook(cfg);
      recovery := None;
      view := newView;
      status := ViewChange;
      ready := false;
      installActive := false;
      proposal := None;
      requests := map[];
      round := Some(Round(newView, {idx}, false, false));
    }

    static lemma EmptyBook(cfg: Config)
      requires cfg.Valid()
      ensures BookOk(cfg, map[]) && ValidSchedule([])
    {
    }

    method HandleRequest(sender: nat, v: nat) returns (report: Option<ScheduleReport>)
      requires Valid()
      modifies this
      ensures Valid()
      ensures State() == HandleViewChangeRequest(cfg, BeginViewChange(old(State()), v), sender, v)
      ensures requests == if v > old(view) then map[] else old(requests)
      ensures report == if ReportDue(cfg, BeginViewChange(old(State()), v), sender, v) then Some(BuildReport(State())) else None
      ensures v > old(view) ==> (report.Some? <==> |{idx, sender}| >= cfg.f + 1)
      ensures v == old(view) && old(round).Some? && old(round).value.view == v && !old(round).value.reportSent ==>
        && (report.Some? <==> |old(round).value.requests + {sender}| >= cfg.f + 1)
        && round.Some? && round.value.requests == old(round).value.requests + {sender} && round.value.reportSent == report.Some?
      ensures v < old(view) || (v == old(view) && (old(round).None? || old(round).value.view != v || old(round).value.reportSent)) ==> report.None?
      ensures report.Some? ==> report.value == ScheduleReport(idx, v, lastNormalView, schedule) && lastNormalView == old(lastNormalView) && schedule == old(schedule)
    {
      if v > view {
        StartViewChange(v);
      }
      if v != view {
        return None;
      }
      if round.None? || round.value.view != v || round.value.reportSent {
        return None;
      }
      round := Some(round.value.(requests := round.value.requests + {sender}));
      if |round.value.requests| < cfg.QuorumSize() {
        return None;
      }
      round := Some(round.value.(reportSent := true));
      return Some(ScheduleReport(idx, view, lastNormalView, schedule));
    }

    /** driveViewChange, from the merged history to the start view it broadcasts. */
    method InstallMerge(plan: seq<Window>) returns (startView: seq<Window>)
      requires Valid() && MayMerge(State()) && ValidSchedule(plan)
      modifies this`schedule, this`epoch, this`ready, this`committedEnd, this`round, index
      ensures Valid() && State() == MergeInstall(old(State()), plan) && startView == plan
      ensures schedule == plan && epoch == view && !ready && committedEnd == old(committedEnd) && round.Some? && round.value.merged
    {
      InstallSchedule(plan, round.value.view, false);
      round := Some(round.value.(merged := true));
      startView := plan;
    }

    method PublishNormalView(v: nat)
      requires v == view
      modifies this`lastNormalView, this`status, this`ready, this`committedEnd
      ensures State() == PublishNormal(old(State()))
      ensures status == Normal && lastNormalView == view && (ready <==> epoch == view && schedule != [])
      ensures committedEnd == if schedule != [] then schedule[|schedule| - 1].endTime else old(committedEnd)
    {
      lastNormalView := v;
      status := Normal;
      ready := epoch == v && |schedule| > 0;
      CommitScheduleHistory();
    }

    /** handleStartView: the queueing decision. */
    method HandleStartView(v: nat) returns (queued: bool)
      modifies this`startViewSeen, this`recovery
      ensures State() == SeeStartView(old(State()), v)
      ensures !queued ==> State() == old(State())
      ensures !queued <==> v < view || (v == view && status == Normal && lastNormalView == view) || (old(recovery).Some? && v == old(recovery).value)
      ensures queued ==> startViewSeen >= v && startViewSeen >= old(startViewSeen) && (recovery.Some? ==> recovery == old(recovery) && v < recovery.value)
    {
      if v < view || (v == view && status == Normal && lastNormalView == view)
         || (recovery.Some? && v == recovery.value) {
        return false;
      }
      if v > startViewSeen {
        startViewSeen := v;
      }
      if recovery.Some? && v > recovery.value {
        recovery := None;
      }
      return true;
    }

    method InstallQueuedStartView(v: nat, s: seq<Window>) returns (installed: bool)
      requires Valid() && (|s| > 0 ==> ValidSchedule(s))
      modifies this, index
      ensures Valid() && State() == InstallStartView(old(State()), v, s) && requests == old(requests)
      ensures installed == MayInstallStartView(old(State()), v)
      ensures installed ==> view == v && status == ViewChange && schedule == s && epoch == v && !ready && recovery == Some(v) && committedEnd == old(committedEnd)
      ensures !installed ==> State() == old(State())
      ensures old(recovery).None? && old(startViewSeen) <= v && (old(view) < v || (old(view) == v && old(status) == ViewChange)) ==> installed
    {
      hide BookOk, ValidSchedule, Matches;
      EmptyBook(cfg);
      if v < view || v < startViewSeen || (v == view && status == Normal && lastNormalView == view) {
        return false;
      }
      if recovery.Some? {
        return false;
      }
      round := None;
      view := v;
      status := ViewChange;
      recovery := Some(v);
      InstallSchedule(s, v, false);
      return true;
    }

    /** finishRecoveryIfComplete, once every slot up to the announced end is filled. */
    method FinishInstall() returns (finished: bool)
      requires Valid()
      modifies this`lastNormalView, this`status, this`ready, this`committedEnd, this`recovery
      ensures Valid() && State() == FinishRecovery(old(State())) && finished == MayFinish(old(State()))
      ensures finished <==> old(recovery == Some(view) && status == ViewChange)
      ensures finished ==> status == Normal && lastNormalView == view && recovery.None? && (ready <==> epoch == view && schedule != [])
      ensures finished ==> committedEnd == if schedule != [] then schedule[|schedule| - 1].endTime else old(committedEnd)
    {
      if recovery.None? || status != ViewChange || view != recovery.value {
        return false;
      }
      PublishNormalView(recovery.value);
      recovery := None;
      return true;
    }
  }
}
