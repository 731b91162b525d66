# PaxosBus, modelled and verified in Dafny

PaxosBus orders client batches ("buses") by an arrival schedule that the
replicas agree on in advance. The global slot of a bus is computed from the
schedule, not voted on. This project models the parts of the repository on which
that design's safety rests, and three independent algorithms of the baselines
that ship with it, and proves what they promise.

Check everything with `dafny verify dfyconfig.toml` (Dafny 4.11).

## The parts

**Schedule agreement** (`Schedule`, `ReplicaSpec`, `Agreement`,
`AgreementInvariant`, `AgreementSteps`, `AgreementViewSteps`,
`AgreementTheorems`, `AgreementProgress`, `CommitMarks`, `MarkRuns`, `MarkCases`,
`SlotAgreement`, `ReplicaHandlers`). A replica's part of
the protocol is a pure state, with one function per handler branch
(`ReplicaSpec`). The cluster is a step relation over N = 2F+1 such states and a
set of messages that is never emptied: a message may be lost, late, reordered or
handled twice, and a crashed replica is one that takes no more steps. There are
sixteen kinds of step: propose, send a batch, send a snapshot, commit, accept a
snapshot, accept a prepare, count an acknowledgement, handle a commit, begin a
view change, answer a request with a report, merge, publish, send a start view,
see one, install one, and finish recovery. An inductive invariant is kept by each of them, so for every
run: a window that a leader committed on F+1 acknowledgements is contained, with
everything before it, in every start view and every normal replica of every later view;
committed histories of all views form one growing log; two replicas that are
normal in the same view, at any two moments, hold histories one of which is a
cut of the other at a window boundary; and a bus has the same slot on all of
them, different from every other bus's. Whatever a replica admits buses by, its
history up to `scheduleCommittedEnd`, is traced too: an accepted snapshot and an
accepted commit mark all they carry, within a view the mark never falls, and what
it marks was agreed as long as two guards are kept (see below). The class `ScheduleReplica` carries the
handlers in the form the repository has them, fields updated in place and loops, and
each method is proved to make exactly the step that the cluster takes, and to leave
a client index that is the index of its history.

**Slots** (`Arrivals`, `SlotArithmetic`, `GlobalSlot`, `SlotRange`,
`ClientSequence`, `MergeCursor`, `CursorReset`, `SortedIds`, `ReplicaIndex`).
The reference is one definition: the slot of an arrival is the number of
scheduled arrivals before it in the order (time, client). It is proved to be a
bijection from the scheduled arrivals onto 0..total-1 that later windows do not
disturb. The closed form with its division and binary search, the
k-way merge cursor, and the rebuild of that cursor by binary search over time
are then proved to compute it.

**Execution** (`Replay`, `ExecutorSpec`, `LogIndexes`, `Executor`, `Pruning`,
`FollowerInstall`, `ViewReports`, `StaleCells`, `ShortCases`). A log executes
from the front into a key-value store, a dedup map, a log-index counter and a
running hash, with per-slot undo records, two ring buffers, pruning and byte
accounting. The reference is a pure replay of the executed slots, and the replay
itself is shown to mean what one expects (each request counts at its first
occurrence). `Exact` says that the executor holds the replay's state, restricted
to what was not pruned; `Counts` says that the log indexes alone are right, in
the dedup map and in the records for a rewind, and survives where `Exact` does
not. Every operation either keeps them or is given the exact condition under
which it does. On top: the follower's install of a start view, the bitmap
reports of a view change, and the merge of those reports.

**Leaders and clients** (`LeaderView`, `ReplicaLife`, `IndexReuse`,
`ReplicaSections`, `ClientVotes`, `ClientClock`). A leader's time in a view is
any interleaving of buses and requests that arrive, slots that are closed,
execution, pruning, stable slots and repeated replies; the life of a replica is
any sequence of those, of new views, of rewinds and of slots that are dropped.
For every run: what was executed, closed or sent in a view stays. For every life
in which each rewind is safe: one log index answers one request in a view. When
a rewind is safe is stated exactly, and shown to be needed: otherwise the next
bus can make the leader tell one index to two requests. Hence a client's votes
never commit two requests at one index in one view, nor a request whose slot the
leader closed. The bus clock is compared with the replica's own sequence.

**Wire** (`ScheduleWire`, `MessageFormats`). The readers and writers of the
schedule messages, and one theorem about the encoding of every other message.

**Baselines** (`DependencyGraph`, `BatchStore`, `EpaxosExec`, `Quorums`, `HashLog`). EPaxos's
executor as the recursive search it is, over a stack and index fields, proved
to run exactly the strongly connected components of the unexecuted dependency
graph, each after what it depends on, and to leave under every key the last value
written to it; SwiftPaxos's enumeration of quorums and ballots; and its hash log, a
doubly linked list with an incremental hash.

## How to read the conventions

- A `...Locked` function or a section under the mutex is one atomic step.
- `CutOf(p, s)`: p is a prefix of s that ends at a window boundary. `Rank(s, a)`:
  the number of arrivals of s before a. `SlotOf`: the same modulo 2^64.
- Where a method updates an object, its postcondition gives the new abstract
  state (`State()`, `Contents()`, `Now()`) as a function of the old one, or the whole
  of what changed. The functions have no postcondition of their own where they
  would only repeat their body; the lemmas and methods about them are what the
  table lists.
- `Exact()` is not part of `Executor.Valid()`: structure and byte
  accounting hold without condition, equality with the replay under the
  conditions the methods state.
- `Plain(s)`: a history without a bus at time 0 and with fewer than 2^64 arrivals.
  Every history of every run is (`RunNoBusAtZero`, `RunSlotsFit`); the merge cursor
  is right under this condition, the client index without it.

## What the code does not do, found on the way

- A start view that a leader repeats carries its whole history, a proposal that is
  still pending included (recovery.go:1008-1040), and the replica that installs it
  counts all of it as committed (schedule.go:102-106). The start view carries agreed
  windows only if and only if no proposal is pending (`StartViewIff`);
  `PendingInStartView` is a run in which a replica treats a window as committed that
  no quorum ever acknowledged.
- Publishing an empty history leaves an older `scheduleCommittedEnd` as it was
  (schedule.go:102-106), so that a window appended later and ending by it counts as
  committed at once (`PublishMarks`, `AcceptedMarkIff`; `MarkLeftOver` is a run). In every
  run without these two moves, what a normal replica treats as committed is a cut
  of what its view began with or of a history committed in it (`CommittedIsBacked`).
- A second rewind can be wrong. A rewind leaves the ring cells alone, but the range in
  which cells count as valid moves with the frontier (replica.go:550-584), so a cell that a
  later slot overwrote can pass for an earlier slot's. `RewindTo` is exact if and
  only if the slot below the target is out of the ring, or its cell still agrees with what the
  log entry recorded; `CellTrueIff` says how to check that before the call, and
  `StaleRing` builds an executor that ends with a wrong log index.
- From there one log index can be told to two requests in one view (`ToldTwice`
  goes on to do so): a third rewind, by then out of the ring's reach, reads the
  right index, which is lower, and a request that no slot holds any longer still
  has it. No rewind does this if and only if every dedup entry at or past the index
  it reads belongs to a slot it undoes (`RewindUniqueIff`, `RewindReuseIff`). It is
  always so while each rewind reads the index its slot began with, which the
  entry below the target records (`IndexedRewindsIff`, `CellCountsIff`).
- A replica that will lead a view executes what it fetches before the view is
  installed (`applyStateEntries`, recovery.go:1941-1977), with replies that carry the
  new view's number; the installation may then rewind below those slots
  (recovery.go:862-875, 1448-1490). An index answered so can be told to another
  request in the same view (`AnsweredTwice`). It is not if and only if nothing at or
  past the index that the rewind reads was answered in the view (`RewindUniqueIff`).
- Without a stable slot pruning goes up to the frontier, and a rewind to 0 still
  succeeds. Hash, log index and dedup map are then right, but the writes of the
  pruned slots stay in the store: it is right if and only if those slots carried no
  request (`RewindTo`, `ZeroIff`); `WriteLeftOver` is a run in which they did.
- A schedule that `validateSchedule` accepts can have more than 2^64 arrivals, so
  that two buses share a slot (`SlotsCollide`). It cannot happen in a run, where a
  window never holds more than the configured clients (`RunSlotsFit`).
- `installScheduleLocked` keeps the merge cursor whenever the old history is a
  prefix of the new one. That is right if and only if no added arrival falls
  behind the cursor (`InstallSchedule`, `CursorKeptIff`); an append that splits
  a window can move slots already given out (`HalfWindowMovesSlots`). Histories
  in a run are cut at window boundaries, where it is always right.
- `resetCursorLocked` is right if and only if the schedule has at least
  `prunedBelow` arrivals (`ResetCursor`).
- A request that was pruned and is carried again executes again. The state
  equals the replay if and only if no such request comes (`AdvanceOne`,
  `ForgetCommutesIff`; `CarriedAgain` is a run in which it does). It is then
  answered with a new index; one index still answers one request, in that view and
  in later ones, since pruning and execution keep `Counts` in any case.
- `HashLog.Append` of a command that is already pending puts it into the list twice
  (`UniqueIff`, `AppendedTwice`).
- `SameHigher` returns a strictly higher ballot if and only if `higherThan` is at
  least the leader's number of quorums or `sameAs` was higher already (two replicas or more).
- `nextSequence` cannot report an arrival at time 0, because 0 means none;
  `HandleHsRequest` shows that no request for time 0 enters the book.
- `installStartView` does not clear `scheduleProposal`. Only a replica that led an
  earlier view can hold one, and it is cleared by the view change without which
  that replica cannot lead again.
- A client drops a window that has ended while its view is not allowed, even if it has
  unsent buses (`NextBusArrival`); `ClockIsSequence` is about windows that are allowed.
- A bus that arrives for a slot below `prunedBelow` is stored again and never
  pruned. The accounting stays right, and `Valid()` allows for it.

## Model

| member | source | states |
|---|---|---|
| Schedule.ValidateSchedule | paxosbus/internal/protocol/schedule.go:36-52 | comparing neighbours only, accepts exactly the histories in which every entry has a timing within the word bounds and any two entries are in the same window by ascending client or in windows one of which ends before the other starts |
| Schedule.SchedulesEqual | paxosbus/internal/protocol/schedule.go:53-63 | the field-by-field loop decides equality of histories |
| Schedule.SchedulePrefix | paxosbus/internal/protocol/schedule.go:64-66 | decides the prefix relation by comparing lengths and then the leading part |
| Schedule.CutsComparable | paxosbus/internal/protocol/schedule.go:64-100 | two cuts of one history are comparable, and the shorter is a cut of the longer |
| Schedule.CutOfExtend | paxosbus/internal/protocol/schedule.go:64-100 | a longer prefix keeps every cut of the shorter one |
| ReplicaSpec.HighestNormalView | paxosbus/internal/protocol/recovery.go:630-636 | the highest last normal view of the reports, attained by one of them |
| ReplicaSpec.Surviving | paxosbus/internal/protocol/recovery.go:637-643 | the histories of exactly the reports at that view |
| ReplicaSpec.MergeSchedulesExact | paxosbus/internal/protocol/recovery.go:644-660 | the loop over surviving histories conflicts if and only if two of them are not prefixes of each other; otherwise every one is a prefix of the result, and the result is one of them |
| AgreementInvariant.OthersKeep | paxosbus/internal/protocol/schedule.go:149-329 | the invariant of every replica that does not move survives the growth of another's history |
| AgreementInvariant.MsgsKeep | paxosbus/internal/protocol/schedule.go:149-329 | what a message in flight promises stays true while histories grow |
| AgreementInvariant.SafeKeeps | paxosbus/internal/protocol/recovery.go:364-399 | a schedule that is in the base of a view, or blocked from ever being chosen, stays so under every move |
| ReplicaSpec.AppendValid | paxosbus/internal/protocol/schedule.go:242-274 | appending a whole window where the history has ended gives a valid history, cut at a window boundary |
| AgreementSteps.ThroughCut | paxosbus/internal/protocol/schedule.go:242-274 | the history up to the end of the window with a given start is a cut that ends with that window |
| AgreementSteps.ProposeKeeps | paxosbus/internal/protocol/schedule.go:159-186 | opening a window as the leader keeps the invariant of the cluster |
| AgreementSteps.SendBatchKeeps | paxosbus/internal/protocol/schedule.go:208-222 | sending the committed snapshot with the pending prepare keeps it |
| AgreementSteps.SendSnapshotKeeps | paxosbus/internal/protocol/schedule.go:187-199 | so does sending the snapshot alone |
| AgreementSteps.PendingSnapshot | paxosbus/internal/protocol/schedule.go:233-241 | the snapshot a leader sends while a window is pending is its history without that window, cut at the boundary |
| AgreementSteps.CommitReplica | paxosbus/internal/protocol/schedule.go:200-207 | counting F+1 acknowledgements commits the leader's whole history: a quorum has promised exactly it |
| AgreementSteps.CommitKeeps | paxosbus/internal/protocol/schedule.go:200-222 | the commit and its batch keep the invariant |
| AgreementSteps.AckReplica | paxosbus/internal/protocol/schedule.go:283-290 | an acknowledgement that matches the pending start and end is for this very history, so that it can be counted |
| AgreementSteps.HandleAckKeeps | paxosbus/internal/protocol/schedule.go:283-290 | counting an acknowledgement keeps the invariant |
| AgreementSteps.HandleCommitKeeps | paxosbus/internal/protocol/schedule.go:291-306 | a follower's commit keeps the invariant |
| AgreementSteps.SnapshotReplica | paxosbus/internal/protocol/schedule.go:307-329 | an accepted snapshot is from the follower's own view; the follower's history afterwards extends both its own and the snapshot |
| AgreementSteps.HandleSnapshotKeeps | paxosbus/internal/protocol/replica.go:690-716 | accepting a snapshot keeps the invariant |
| AgreementSteps.AppendFollowsLeader | paxosbus/internal/protocol/schedule.go:242-274 | a follower that took the snapshot and may append stands exactly at the snapshot, so that appending keeps it within the leader's history |
| AgreementSteps.NextWindow | paxosbus/internal/protocol/schedule.go:242-274 | a history that went past the snapshot within the leader's already has the prepared window |
| AgreementSteps.PrepareReplica | paxosbus/internal/protocol/schedule.go:242-274 | accepting a prepare leaves the follower within the leader's history, grown by whole windows, with the acknowledged window in it |
| AgreementSteps.PrepareOutcome | paxosbus/internal/protocol/schedule.go:275-282 | ... and its acknowledgement is backed by a promise for the history through that window |
| AgreementSteps.HandlePrepareKeeps | paxosbus/internal/protocol/schedule.go:275-282 | handling a prepare, accepted or refused, keeps the invariant |
| AgreementSteps.AcceptedWindow | paxosbus/internal/protocol/schedule.go:242-274 | what an accepted prepare left at its start is its own window and nothing else |
| AgreementViewSteps.BeginViewChangeKeeps | paxosbus/internal/protocol/recovery.go:364-399 | entering a view change keeps the invariant |
| AgreementViewSteps.HandleRequestKeeps | paxosbus/internal/protocol/recovery.go:441-476 | answering a view-change request with a report keeps it |
| AgreementViewSteps.PublishKeeps | paxosbus/internal/protocol/recovery.go:1524-1533 | a leader entering normal status after its merge keeps it |
| AgreementViewSteps.FinishRecoveryKeeps | paxosbus/internal/protocol/recovery.go:1376-1434 | a follower entering normal status after its install keeps it |
| AgreementViewSteps.SendStartViewKeeps | paxosbus/internal/protocol/recovery.go:1008-1041 | a repeated start view keeps it |
| AgreementViewSteps.SeeStartViewKeeps | paxosbus/internal/protocol/recovery.go:1044-1074 | queueing a start view, which may abandon a half-finished install, keeps it |
| AgreementViewSteps.InstalledOk | paxosbus/internal/protocol/recovery.go:1133-1222 | a replica that installs a start view holds a history of that view and honours all it promised before |
| AgreementViewSteps.InstallKeeps | paxosbus/internal/protocol/recovery.go:1133-1222 | installing a start view keeps the invariant |
| AgreementViewSteps.PromiserShows | paxosbus/internal/protocol/recovery.go:535-589 | a report shows what its sender promised: the promised history is in it, or was blocked, or the sender was last normal in a later view |
| AgreementViewSteps.PromiseMerged | paxosbus/internal/protocol/recovery.go:630-660 | a history promised by one of the senders is in the merged history or could never be chosen |
| AgreementViewSteps.MergeSafe | paxosbus/internal/protocol/recovery.go:630-660 | for a quorum of reports: every history an earlier view may still commit is in the merged history |
| AgreementViewSteps.NewViewSafe | paxosbus/internal/protocol/recovery.go:764-778 | so the base of the new view is safe for every earlier view |
| AgreementViewSteps.MergeKeeps | paxosbus/internal/protocol/recovery.go:716-795 | merging and announcing a new view keeps the invariant |
| AgreementTheorems.StepKeeps | paxosbus/internal/protocol/schedule.go:149-329 | every one of the sixteen steps keeps the invariant |
| AgreementTheorems.RunInv | paxosbus/internal/protocol/recovery.go:716-795 | every world of every run satisfies it |
| AgreementTheorems.QuorumsMeet | paxosbus/internal/config/config.go:92-108 | two quorums of F+1 among 2F+1 replicas share one |
| AgreementTheorems.ChosenReachesBase | paxosbus/internal/protocol/recovery.go:630-660 | a history acknowledged by F+1 replicas in view v is in the base of every later view |
| AgreementTheorems.CommitsLast | paxosbus/internal/protocol/schedule.go:200-207 | a counted commit is never taken back |
| AgreementTheorems.CommittedInStartViews | paxosbus/internal/protocol/recovery.go:764-778 | in every run: a committed history is a cut of the schedule in every start view sent at any time for any later view |
| AgreementTheorems.CommittedInReplicas | paxosbus/internal/protocol/recovery.go:1133-1183 | ... and of the history of every replica that is normal in a later view |
| AgreementTheorems.CommitsAgree | paxosbus/internal/protocol/schedule.go:200-207 | commits of all views, leaders and moments are comparable; of different views, the earlier is a cut of the later |
| AgreementTheorems.StepGrows | paxosbus/internal/protocol/schedule.go:67-101 | in every step the history of every view only grows, by whole windows |
| AgreementTheorems.RunGrows | paxosbus/internal/protocol/schedule.go:67-101 | ... hence between any two moments of a run |
| AgreementTheorems.NormalHistory | paxosbus/internal/protocol/schedule.go:67-101 | a normal replica's history is valid and a cut of its view's history |
| AgreementTheorems.SameViewComparable | paxosbus/internal/protocol/schedule.go:242-329 | two replicas normal in the same view, each at any moment of the run, hold comparable histories, cut at window boundaries |
| SlotAgreement.AppendSmall | paxosbus/internal/protocol/schedule.go:243-251 | appending a window for a new start keeps every window within the configured number of clients |
| SlotAgreement.RunSmall | paxosbus/internal/protocol/schedule.go:242-274 | ... and every window starts after time 0, in every history of every run |
| SlotAgreement.RunSlotsFit | paxosbus/internal/protocol/replica.go:111-128 | in every run no replica's slot computation wraps around: the slot of every arrival is its rank |
| SlotAgreement.RunNoBusAtZero | paxosbus/internal/protocol/schedule.go:156-187 | in every run no history has a bus at time 0, which the cursor could not tell from none |
| SlotAgreement.ComparableSlots | paxosbus/internal/protocol/replica.go:111-128 | two comparable histories give equal slots to equal arrivals only |
| SlotAgreement.SameViewSlots | paxosbus/internal/protocol/replica.go:111-128 | in every run, for replicas normal in the same view at any two moments: two buses are the same if and only if the replicas give them the same slot |
| SlotAgreement.CommittedSlotsLast | paxosbus/internal/protocol/replica.go:111-128 | in every later view the buses of a committed history are still scheduled and keep their slots, and every other bus comes after them |
| SlotAgreement.CursorInvertsSlot | paxosbus/internal/protocol/replica.go:1462-1498 | the recorded owner of slot k is the arrival whose closed-form slot is k, and no other |
| CommitMarks.CommittedCut | paxosbus/internal/protocol/schedule.go:233-241 | the committed part of a valid history is exactly its entries that end by the committed end, cut between windows |
| CommitMarks.SnapshotCommits | paxosbus/internal/protocol/schedule.go:307-329 | after an accepted snapshot every entry of it is in the history and ends by the committed end, and the replica is ready; the history is the longer of the two; the committed end does not fall |
| CommitMarks.CommitCommits | paxosbus/internal/protocol/schedule.go:291-306 | after a commit of this view's leader every entry held of the named window ends by the committed end, which does not fall |
| CommitMarks.AcceptedMarkIff | paxosbus/internal/protocol/schedule.go:242-274 | an appended window counts as committed at once if and only if the committed end is already at or past its end |
| CommitMarks.PublishMarks | paxosbus/internal/protocol/recovery.go:1524-1533 | publishing a view commits the whole history; with an empty one the old committed end is left over unless it was 0 |
| CommitMarks.AcceptsIff | paxosbus/internal/protocol/schedule.go:242-274 | a prepare is accepted exactly if it is the leader's for one whole window of this view, and either gives a valid history when it is appended or stands in the history already, all of it and nothing else at its start |
| MarkRuns.StepMarks | paxosbus/internal/protocol/schedule.go:307-329 | every step that keeps the two guards keeps: what a normal replica treats as committed is part of what its view began with or of a history committed in its view |
| MarkRuns.CommittedIsBacked | paxosbus/internal/protocol/schedule.go:233-241 | so in every run that keeps them: no leader repeats its start view while a proposal is pending, and no empty history is published over an old committed end; then a replica is also ready exactly if something is committed |
| MarkRuns.RunMarkGrows | paxosbus/internal/protocol/schedule.go:291-329 | in such a run, while a replica is normal in a view its history and its committed end never fall |
| MarkRuns.RunBeyond | paxosbus/internal/protocol/schedule.go:178-186 | in every run a pending window lies beyond all that the view began with or committed |
| MarkRuns.StartViewIff | paxosbus/internal/protocol/recovery.go:1008-1040 | a leader's start view carries what its view began with or committed if and only if no proposal is pending |
| MarkCases.PendingInStartView | paxosbus/internal/protocol/recovery.go:1008-1040 | a run of three replicas: a start view repeated while a proposal is pending makes a replica treat the proposed window as committed though nothing was |
| MarkCases.MarkLeftOver | paxosbus/internal/protocol/schedule.go:102-106 | a run of three replicas: a window is merged, marked and lost, the next view begins empty, and the next window proposed counts as committed as soon as it is accepted |
| AgreementProgress.SnapshotTaken | paxosbus/internal/protocol/schedule.go:307-329 | in every run a normal replica accepts every snapshot of its view that has entries, and all of them are then committed; an empty one exactly if it has no history or no committed end |
| AgreementProgress.RunAnnounced | paxosbus/internal/protocol/schedule.go:200-216 | every batch in every run carries a well-formed window that is a whole window of its view's history |
| AgreementProgress.PrepareTaken | paxosbus/internal/protocol/schedule.go:242-274 | in every run a prepare is accepted once the snapshot of its batch was, as long as the view lasts |
| AgreementProgress.BatchCommits | paxosbus/internal/protocol/schedule.go:291-306 | and the commit of the batch then commits every entry of its window |
| AgreementProgress.RepliesCount | paxosbus/internal/protocol/schedule.go:283-290 | acknowledgements in any order and number count each replica once, and the proposal can be committed exactly once F+1 have come |
| ReplicaHandlers.SortedRequests | paxosbus/internal/protocol/schedule.go:172-176 | the proposal lists each request of the window once, in ascending client order |
| ReplicaHandlers.ScheduleReplica.CommitScheduleHistory | paxosbus/internal/protocol/schedule.go:102-106 | the committed end moves to the end of the history |
| ReplicaHandlers.ScheduleReplica.InstallSchedule | paxosbus/internal/protocol/schedule.go:67-101 | history, epoch and readiness are replaced, the committed end moves to the end of the history only if it is ready, and the client index is that of the new history; a right cursor stays right when whole windows were appended, and a rebuilt one is right if and only if enough arrivals are scheduled |
| ReplicaHandlers.ScheduleReplica.CommittedSchedule | paxosbus/internal/protocol/schedule.go:233-241 | the loop returns the entries that end by the committed end, in order |
| ReplicaHandlers.ScheduleReplica.EntriesOf | paxosbus/internal/protocol/schedule.go:243-255 | the checks of a prepare, together with its window's entries |
| ReplicaHandlers.ScheduleReplica.AcceptSchedulePrepare | paxosbus/internal/protocol/schedule.go:242-274 | an acknowledgement exactly when the window is already there entry for entry or can be appended; the state is that of the protocol's step, with the client index of the new history; acknowledged, every entry of the prepare is in the history |
| ReplicaHandlers.ScheduleReplica.AppendWindow | paxosbus/internal/protocol/schedule.go:266-273 | the window is appended, entry for entry, and the committed end stays |
| ReplicaHandlers.ScheduleReplica.HandleSchdPrepareReply | paxosbus/internal/protocol/schedule.go:283-290 | counts the sender if view, start and end are those of the pending proposal; nothing else is counted |
| ReplicaHandlers.ScheduleReplica.HandleSchdCommit | paxosbus/internal/protocol/schedule.go:291-306 | from this view's leader: every entry held of the named window is committed, and the replica ready; the committed end never falls |
| ReplicaHandlers.ScheduleReplica.HandleScheduleSnapshot | paxosbus/internal/protocol/schedule.go:307-329 | from the own view's leader only: takes the longer of the two histories and refuses divergent ones; accepted, every entry of the snapshot is in the history and committed, and the replica ready |
| ReplicaHandlers.ScheduleReplica.Admit | paxosbus/internal/protocol/replica.go:919-941 | a bus is let in exactly if a committed entry of its client announces its time, and the replica is ready with a history of its view; the highest sequence heard of a client is kept |
| ReplicaHandlers.ScheduleReplica.HandleHsRequest | paxosbus/internal/protocol/schedule.go:113-148 | a leader answers exactly if it has a committed window of this client and start; else the request enters the book exactly if it is in the horizon, not behind the committed end, and there is room; nothing else changes |
| ReplicaHandlers.ScheduleReplica.DueStart | paxosbus/internal/protocol/schedule.go:160-167 | the earliest requested start that is due, or none if none is |
| ReplicaHandlers.ScheduleReplica.MakeProposal | paxosbus/internal/protocol/schedule.go:169-177 | a well-formed prepare for that start with exactly its requests, by ascending client |
| ReplicaHandlers.ScheduleReplica.ProposeDue | paxosbus/internal/protocol/schedule.go:159-186 | a leader with nothing pending takes exactly the earliest due window out of the book, and proposes it unless it is behind the committed end or the leader itself does not accept it; the state is that of the protocol's propose step |
| ReplicaHandlers.ScheduleReplica.ExpireRequests | paxosbus/internal/protocol/schedule.go:331-339 | drops exactly the windows that are over |
| ReplicaHandlers.ScheduleReplica.Tick | paxosbus/internal/protocol/schedule.go:149-186 | only a leader expires and proposes, and never for a window that is over; the state is that of the propose step or unchanged |
| ReplicaHandlers.ScheduleReplica.OpenWindow | paxosbus/internal/protocol/schedule.go:178-183 | the proposal is entered, with the leader's own acknowledgement, exactly if the leader itself accepts it |
| ReplicaHandlers.ScheduleReplica.CommitIfPrepared | paxosbus/internal/protocol/schedule.go:200-212 | commits exactly at F+1 acknowledgements, and sends the history committed by then |
| ReplicaHandlers.ScheduleReplica.StartViewChange | paxosbus/internal/protocol/recovery.go:364-399 | the state after entering a later view: proposal and recovery dropped, the request book emptied, a round that counts the replica itself |
| ReplicaHandlers.ScheduleReplica.HandleRequest | paxosbus/internal/protocol/recovery.go:441-476 | a report once F+1 replicas asked for the view, once per round, with the history held then |
| ReplicaHandlers.ScheduleReplica.InstallMerge | paxosbus/internal/protocol/recovery.go:764-778 | the merged history is installed once per round and announced as it is |
| ReplicaHandlers.ScheduleReplica.PublishNormalView | paxosbus/internal/protocol/recovery.go:1524-1533 | the view becomes the last normal one and the whole history counts as committed |
| ReplicaHandlers.ScheduleReplica.HandleStartView | paxosbus/internal/protocol/recovery.go:1044-1074 | a start view is queued if it is new; a recovery for an earlier view is abandoned |
| ReplicaHandlers.ScheduleReplica.InstallQueuedStartView | paxosbus/internal/protocol/recovery.go:1133-1222 | installed exactly if the view is still ahead of what was installed; the state is that of the protocol's step |
| ReplicaHandlers.ScheduleReplica.FinishInstall | paxosbus/internal/protocol/recovery.go:1376-1434 | the recovery ends in normal status exactly if it is still the current one |
| Arrivals.RankInjective | paxosbus/internal/protocol/replica.go:111-128 | ranks order arrivals strictly, and equal ranks mean equal arrivals; all are below the number of arrivals |
| Arrivals.ArrivalTimes | paxosbus/internal/protocol/schedule_transport.go:58-68 | the buses of a window come at its start and then every interval, in nanoseconds, before its end |
| Arrivals.RankSurjective | paxosbus/internal/protocol/replica.go:111-128 | every slot below the number of arrivals is some arrival's |
| Arrivals.LaterArrivals | paxosbus/internal/protocol/schedule.go:36-52 | what later windows announce arrives after everything a cut announced |
| Arrivals.RankStable | paxosbus/internal/protocol/schedule.go:76-100 | appending windows keeps the rank of every arrival and ranks new ones behind the old total |
| SlotArithmetic.WindowCounted | paxosbus/internal/protocol/replica.go:130-153 | within a window, one division counts the arrivals before a time |
| SlotArithmetic.WindowCountedTied | paxosbus/internal/protocol/replica.go:130-153 | ... also with ties counted as before |
| SlotArithmetic.CountToCounts | paxosbus/internal/protocol/schedule.go:87-90 | the running counts kept per client are the numbers of arrivals of the windows before |
| SlotArithmetic.TimesSplit | paxosbus/internal/protocol/replica.go:130-153 | the arrivals before a time are all of the ended windows and part of the next |
| SlotArithmetic.SearchEnd | paxosbus/internal/protocol/replica.go:134-136 | the binary search returns the first window that ends after the time |
| SlotArithmetic.CountBefore | paxosbus/internal/protocol/replica.go:130-153 | the closed form is the number of the client's arrivals before y, ties included or not, and never exceeds y + 1, so it does not overflow; a time beyond int64, which comes in negative, counts them all |
| GlobalSlot.WindowsOfDisjoint | paxosbus/internal/protocol/schedule.go:36-52 | in a valid history one client's windows do not overlap |
| GlobalSlot.LineExtends | paxosbus/internal/protocol/schedule.go:77-90 | adding a window to a client's line keeps its running counts right |
| GlobalSlot.IndexExtends | paxosbus/internal/protocol/schedule.go:77-90 | the index of a history, extended by one entry, is the index of the extended history |
| GlobalSlot.ClientCounted | paxosbus/internal/protocol/replica.go:111-128 | the client's part of the sum counts its arrivals before the bus, with ties decided by client id |
| GlobalSlot.SumAll | paxosbus/internal/protocol/replica.go:111-128 | the parts of all clients make up the arrivals before the bus |
| GlobalSlot.ComputeGlobalSlot | paxosbus/internal/protocol/replica.go:111-128 | for a scheduled client and any request id the result is the rank of (arrival, client) modulo 2^64, in whatever order the map is walked; for an unknown client it is reqId - 1, wrapping below 0 |
| SlotRange.SlotsDistinctIff | paxosbus/internal/protocol/replica.go:111-128 | slots identify arrivals if and only if there are at most 2^64 of them |
| SlotRange.FewPerSpan | paxosbus/internal/protocol/schedule.go:36-52 | intervals are whole milliseconds, so the arrivals of a history are at most one per millisecond of its windows and one more for each |
| SlotRange.SlotsFit | paxosbus/internal/protocol/schedule.go:36-52 | with at most 65536 clients a window, every valid history has fewer than 2^64 arrivals and slots do not wrap |
| SlotRange.SlotsCollide | paxosbus/internal/protocol/schedule.go:36-52 | a concrete history that validateSchedule accepts and in which two arrivals share a slot |
| ClientSequence.AnnouncedAround | paxosbus/internal/protocol/schedule_transport.go:58-68 | a time is announced exactly if the window around it announces it |
| ClientSequence.ValidSequence | paxosbus/internal/protocol/schedule_transport.go:58-68 | accepts exactly the announced arrivals of windows that end by the committed end |
| ClientSequence.RoundUp | paxosbus/internal/protocol/schedule_transport.go:69-85 | the rounding finds the least grid point not before the given time |
| ClientSequence.NextSequence | paxosbus/internal/protocol/schedule_transport.go:69-85 | the least announced arrival at or after the given time, or 0 if there is none |
| MergeCursor.OwnerUnique | paxosbus/internal/protocol/replica.go:1462-1493 | a slot's recorded owner is the only arrival with that rank |
| MergeCursor.LeastPendingRank | paxosbus/internal/protocol/replica.go:1462-1493 | the least arrival without a slot has the rank the cursor stands at |
| MergeCursor.CursorAdvances | paxosbus/internal/protocol/replica.go:1462-1493 | giving it the slot leaves a cursor for the next slot |
| MergeCursor.CursorBelowTotal | paxosbus/internal/protocol/replica.go:1462-1493 | a cursor with something pending is below the number of arrivals |
| MergeCursor.CursorGrows | paxosbus/internal/protocol/schedule.go:67-101 | a cursor stays right when whole windows are appended |
| MergeCursor.RecordGrows | paxosbus/internal/protocol/schedule.go:67-101 | so does the record of owners |
| MergeCursor.CursorKeptIff | paxosbus/internal/protocol/schedule.go:67-101 | for any extended history: the old cursor is right if and only if every added arrival is ahead of it |
| MergeCursor.RecordKept | paxosbus/internal/protocol/schedule.go:67-101 | under the same condition the record of owners stays right |
| MergeCursor.SameOwners | paxosbus/internal/protocol/replica.go:1462-1498 | two cursors agree on every slot both have passed, however each got there |
| MergeCursor.HalfWindowMovesSlots | paxosbus/internal/protocol/schedule.go:67-101 | a concrete history whose window was split: an arrival's slot moves when the other half is appended |
| CursorReset.CountAll | paxosbus/internal/protocol/replica.go:882-897 | the sum over all clients, in any order, is the number of arrivals before the time modulo 2^64 |
| CursorReset.PassedIsRank | paxosbus/internal/protocol/replica.go:898-907 | with the lower client ids done, the tied arrival of the next client has the counted rank |
| CursorReset.RankAroundTime | paxosbus/internal/protocol/replica.go:882-893 | at the time found, earlier arrivals rank below the slot and later ones at or above it |
| CursorReset.SettlesOne | paxosbus/internal/protocol/replica.go:899-907 | skipping exactly the ties that rank below the slot settles one client |
| CursorReset.SettledCursor | paxosbus/internal/protocol/replica.go:864-908 | all settled: it is a cursor at the slot if and only if the schedule has that many arrivals |
| SortedIds.Sort | paxosbus/internal/protocol/replica.go:898 | the keys in ascending order, each once |
| ReplicaIndex.ScheduleIndex.NextOf | paxosbus/internal/protocol/replica.go:1462-1493 | the client's first arrival without a slot, or 0 if it has none |
| ReplicaIndex.ScheduleIndex.LeastCandidate | paxosbus/internal/protocol/replica.go:1462-1493 | the least of them over all clients, whatever the order of iteration |
| ReplicaIndex.ScheduleIndex.AssignSlot | paxosbus/internal/protocol/replica.go:1462-1493 | one round moves the cursor by one exactly if it is below the number of arrivals, and keeps every owner recorded before |
| ReplicaIndex.ScheduleIndex.GenCursorUpTo | paxosbus/internal/protocol/replica.go:1462-1493 | the cursor ends just past the target or at the end of the schedule, all records right |
| ReplicaIndex.ScheduleIndex.SlotOwner | paxosbus/internal/protocol/replica.go:1495-1498 | for every slot not pruned: its owner if the schedule has that many arrivals, else nothing; for a pruned one what is still recorded |
| ReplicaIndex.ScheduleIndex.PruneMeta | paxosbus/internal/protocol/replica.go:1247-1254 | exactly the owners of the pruned slots are forgotten; cursor and record stay right |
| Pruning.PruneCommitted | paxosbus/internal/protocol/replica.go:1221-1254 | log and record of owners are pruned up to the same slot |
| Pruning.OwnerOfRetained | paxosbus/internal/protocol/replica.go:1495-1498 | so the owner of a slot that is retained can be told, if the schedule has it |
| ReplicaIndex.ScheduleIndex.LastEnd | paxosbus/internal/protocol/replica.go:871-881 | the greatest end of any client's last window is the end of the history |
| ReplicaIndex.ScheduleIndex.TimeAround | paxosbus/internal/protocol/replica.go:882-893 | unless the schedule has a bus at time 0 or 2^64 arrivals, which no run has: the binary search finds the time with at most prunedBelow arrivals before it and more by its end, if the schedule reaches that far |
| ReplicaIndex.ScheduleIndex.SettleClients | paxosbus/internal/protocol/replica.go:894-907 | every client gets a position; from the right time on, and with the same exceptions, its first arrival of rank prunedBelow or more |
| ReplicaIndex.ScheduleIndex.SettleNext | paxosbus/internal/protocol/replica.go:898-907 | one client in ascending order: its first arrival from the time found on, or the one behind that if it ties and still ranks below prunedBelow |
| ReplicaIndex.ScheduleIndex.ResetCursor | paxosbus/internal/protocol/replica.go:864-908 | the cursor is at prunedBelow with no owners recorded, and, with the same exceptions, right if and only if the schedule has at least prunedBelow arrivals |
| ReplicaIndex.ScheduleIndex.BuildLines | paxosbus/internal/protocol/schedule.go:77-91 | the lines are exactly the per-client index of the history, keeping the highest sequence seen |
| ReplicaIndex.ScheduleIndex.InstallSchedule | paxosbus/internal/protocol/schedule.go:67-101 | for every valid history the index is that of the new history; the cursor is kept on an extension, else rebuilt at prunedBelow; with the same exceptions it is right if and only if the added arrivals are ahead of it, or enough are scheduled |
| Replay.StreamMeaning | paxosbus/internal/protocol/replica.go:1316-1343 | the log index counts all carried requests, and the dedup map holds exactly the first occurrences |
| Replay.StreamCarries | paxosbus/internal/protocol/replica.go:1316-1343 | the stream leaves out no request of a bus and has none of a no-op: each stands at its place behind the slots before |
| Replay.StoreMeaning | paxosbus/internal/protocol/replica.go:1280-1283 | the store holds each client's last write among first occurrences |
| Replay.ReplayMeaning | paxosbus/internal/protocol/replica.go:1204-1217 | both, for the replay of a log of slots in which no-ops contribute nothing |
| Replay.RunIsStream | paxosbus/internal/protocol/replica.go:1316-1343 | but for the hash, replaying slots is replaying their requests in order |
| Replay.IndexInjective | paxosbus/internal/protocol/replica.go:1316-1343 | two different requests never have the same log index |
| Replay.RunLater | paxosbus/internal/protocol/replica.go:1316-1343 | executing more never changes an index that was given |
| Replay.Carrier | paxosbus/internal/protocol/replica.go:1316-1343 | a request with an index was carried by an executed slot |
| Replay.ForgetCommutesIff | paxosbus/internal/protocol/replica.go:1257-1269 | pruning and then executing equals executing and then pruning if and only if no pruned request is carried again |
| Replay.RunFromAdds | paxosbus/internal/protocol/replica.go:1316-1343 | executing further slots in any state gives each new request its position behind the index so far, and changes no index given before |
| Replay.EmptyStoreIff | paxosbus/internal/protocol/replica.go:1280-1283 | the store is empty if and only if no request was carried |
| ExecutorSpec.BytesChange | paxosbus/internal/protocol/replica.go:1050-1067 | the sum of entry sizes changes by the change of one entry |
| ExecutorSpec.BusBytesSum | paxosbus/internal/protocol/replica.go:84-90 | a bus is charged the sum over its requests of payload and 48 bytes |
| ExecutorSpec.AnswersForTruthful | paxosbus/internal/protocol/replica.go:1345-1360 | every reply queued for executed slots gives the index its request has, in the view |
| ExecutorSpec.AnswersForComplete | paxosbus/internal/protocol/replica.go:1345-1360 | every request of an executed bus that has an index is answered |
| ExecutorSpec.AnswersForStay | paxosbus/internal/protocol/replica.go:1345-1360 | executing more does not change the replies due for what was executed |
| ExecutorSpec.ReplayedTruthful | paxosbus/internal/protocol/recovery.go:1536-1560 | so do the replies that are repeated for a range of slots |
| ExecutorSpec.ReplayedComplete | paxosbus/internal/protocol/recovery.go:1536-1560 | every request with an index in a logged bus of the range is answered again |
| ExecutorSpec.UndoExtends | paxosbus/internal/protocol/replica.go:1285-1300 | remembering only the first old value of each key keeps the slot undoable |
| ExecutorSpec.RingAdvances | paxosbus/internal/protocol/replica.go:537-548 | writing the newest cell keeps every cell within reach right |
| ExecutorSpec.RingShrinks | paxosbus/internal/protocol/replica.go:550-584 | a rewind, which leaves the ring alone, keeps those still within reach of the highest frontier |
| ExecutorSpec.PrunedKeys | paxosbus/internal/protocol/replica.go:1257-1269 | every dedup entry in a slot's index range was carried by that slot |
| ExecutorSpec.UndoneKeys | paxosbus/internal/protocol/recovery.go:1562-1588 | which entries a rewind must drop: those indexed at or past the target's log index, all carried by the undone slots |
| ExecutorSpec.DedupRewound | paxosbus/internal/protocol/recovery.go:1562-1588 | with the right log index, what is left of the dedup map is the map of the target |
| ExecutorSpec.DedupPruned | paxosbus/internal/protocol/replica.go:1257-1269 | dropping one slot's range moves the pruned boundary past exactly that slot |
| LogIndexes.PlacedIn | paxosbus/internal/protocol/recovery.go:1562-1588 | a request whose index is at or past that of slot t is carried by a retained slot from t on |
| LogIndexes.PlacedAt | paxosbus/internal/protocol/replica.go:1257-1269 | one with an index between those of a slot and the next is carried by that slot |
| LogIndexes.ExecutedIndexed | paxosbus/internal/protocol/replica.go:1316-1343 | execution keeps every index a position in what was executed, pruned requests that come again included |
| LogIndexes.CountsAdvance | paxosbus/internal/protocol/replica.go:1204-1217 | so do the records for a rewind: entries and ring cells hold the index their slot ended with |
| LogIndexes.CountsPrune | paxosbus/internal/protocol/replica.go:1257-1269 | pruning a slot takes out exactly the requests whose index lies in it |
| LogIndexes.IndexedRewindsIff | paxosbus/internal/protocol/recovery.go:1562-1588 | after a rewind, below the pruned boundary too, indexes are positions if and only if the index read is the one the slot began with |
| LogIndexes.SaneRewindsIff | paxosbus/internal/protocol/recovery.go:1562-1588 | whatever index is read, afterwards none was given twice or is still to come for a second time if and only if every entry at or past it belongs to an undone slot |
| LogIndexes.ExactCounts | paxosbus/internal/protocol/replica.go:1316-1343 | where the state is the replay but for pruned entries, its indexes and their records are right |
| Executor.Executor.constructor | paxosbus/internal/protocol/replica.go:426-506 | an empty executor holds the replay of nothing |
| Executor.Executor.Record | paxosbus/internal/protocol/replica.go:1050-1067 | an entry is stored exactly if the slot holds nothing yet; bytes are conserved |
| Executor.Executor.RecordBusReceived | paxosbus/internal/protocol/replica.go:1050-1067 | the slot holds this bus, every other slot is untouched, bytes are conserved |
| Executor.Executor.BusSize | paxosbus/internal/protocol/replica.go:84-90 | the size charged is the overhead and payload of every request |
| Executor.Executor.RecordReceived | paxosbus/internal/protocol/replica.go:1117-1133 | the same for a single recovered request |
| Executor.Executor.SetNoOp | paxosbus/internal/protocol/replica.go:1136-1158 | closes exactly the slots at or above the frontier that are not closed yet; keeps a known owner, else sets the schedule's; releases the bytes |
| Executor.Executor.ClearSlotRange | paxosbus/internal/protocol/recovery.go:1311-1319 | removes exactly the slots of the range, none executed, with their bytes |
| Executor.Executor.ClearStrayNoOps | paxosbus/internal/protocol/recovery.go:1290-1298 | removes exactly the no-ops from a slot on that were not announced |
| Executor.Executor.SetStable | paxosbus/internal/protocol/recovery.go:111-121 | the stable slot only rises, and stays below the frontier |
| Executor.Executor.RememberWrite | paxosbus/internal/protocol/replica.go:1285-1300 | one undo record for each key, with the value it had, charged to the entry and to the total alike |
| Executor.Executor.AppendRequest | paxosbus/internal/protocol/replica.go:1316-1343 | one request changes the state as in the replay, stays undoable, and queues a reply with the index the request has |
| Executor.Executor.AppendRequests | paxosbus/internal/protocol/replica.go:1316-1343 | so do the requests of a bus, in order |
| Executor.Executor.AppendBus | paxosbus/internal/protocol/replica.go:1316-1343 | the slot's requests are applied as in the replay, its index range recorded, its writes undoable |
| Executor.Executor.FoldExecuted | paxosbus/internal/protocol/replica.go:537-548 | the running hash folds the slot; log entry and ring cell both record hash and log index |
| Executor.Executor.ExactAdvances | paxosbus/internal/protocol/replica.go:1204-1217 | one more executed slot gives the replay's state, pruned entries apart, if and only if it carries no request that was pruned; the records then extend |
| Executor.Executor.ExecuteSlot | paxosbus/internal/protocol/replica.go:1204-1217 | the state after the slot is the replay step applied to the state before |
| Executor.Executor.AdvanceOne | paxosbus/internal/protocol/replica.go:1204-1217 | advances exactly if the next slot is filled; keeps equality with the replay if and only if no pruned request is carried again; log indexes stay right in any case |
| Executor.Executor.AdvanceThrough | paxosbus/internal/protocol/replica.go:1187-1202 | stops at the first empty slot or past the limit, having executed a longer log with the same contents; the state is the run of those slots from the state before, and exactly their replies are queued; it still holds the replay if none of the slots carries a pruned request again; log indexes stay right in any case |
| Executor.CarriesNewPart | paxosbus/internal/protocol/replica.go:1257-1269 | that condition holds for a shorter log, with less pruned, and from a later slot on, if it holds at all |
| Executor.Executor.ReplayReplies | paxosbus/internal/protocol/recovery.go:1536-1560 | queues again the replies for every request in the range that still has an index |
| Executor.Executor.PrefixStateAt | paxosbus/internal/protocol/replica.go:577-584 | hash and log index come from the ring cell if it counts as valid, else from the entry if it was not pruned; otherwise it fails |
| Executor.Executor.ReadPrefix | paxosbus/internal/protocol/replica.go:577-584 | what it returns is the replay's state at the target if and only if no stale cell was read |
| Executor.Executor.UndoWrites | paxosbus/internal/protocol/replica.go:1302-1314 | the store is the one the slot started from, and its undo bytes are returned |
| Executor.Executor.UndoSlot | paxosbus/internal/protocol/recovery.go:1562-1588 | one slot undone: its writes, and its dedup entries at or past the log index |
| Executor.Executor.UndoDownTo | paxosbus/internal/protocol/recovery.go:1562-1588 | the loop restores the store of the target and drops exactly what the undone slots carried at or past the index |
| Executor.Executor.ReleaseIndexes | paxosbus/internal/protocol/recovery.go:1575-1583 | exactly the entries of these requests with an index in the range go |
| Executor.Executor.UndoStored | paxosbus/internal/protocol/recovery.go:1562-1588 | below the pruned boundary the loop changes no write, and drops exactly the requests stored there with an index at or past the target's |
| Executor.Executor.TakeBackTo | paxosbus/internal/protocol/recovery.go:1562-1588 | given the hash and log index for the target, the state is the target's if and only if these are, and below the pruned boundary also only if the pruned slots from the target on left the store as it was |
| Executor.Executor.ExactRewinds | paxosbus/internal/protocol/recovery.go:1562-1588 | the rewound state is the replay of the shorter log if and only if hash and log index are |
| Executor.Executor.RewindTo | paxosbus/internal/protocol/recovery.go:1562-1588 | succeeds exactly if the target's state is at hand; restores the target's store, or the pruned boundary's for a target below it; the whole state is the target's if and only if the target is 0, its slot is out of the ring, or the cell read is true, and below the boundary if also the store is; of the dedup map exactly the undone requests at or past the index read go; the log indexes stay right if and only if the index read is |
| Executor.Executor.ZeroIff | paxosbus/internal/protocol/recovery.go:1562-1588 | a rewind to 0 past pruned slots leaves nothing over if and only if those carried no request |
| Executor.Executor.CellTrueIff | paxosbus/internal/protocol/replica.go:550-584 | a cell is true if and only if it agrees with the log entry, and always if the slot is within the ring of the highest frontier ever executed |
| Executor.Executor.CellCountsIff | paxosbus/internal/protocol/replica.go:550-584 | its log index is right if and only if it agrees with the log entry, even if the state is no longer the replay |
| Executor.Executor.NewestCell | paxosbus/internal/protocol/replica.go:550-584 | the cell of the slot executed last is true |
| Executor.Executor.PruneSlot | paxosbus/internal/protocol/replica.go:1247-1254 | removes exactly one slot and the dedup entries it gave, keeping equality with the pruned replay; log indexes stay right |
| Executor.Executor.ExactPrunes | paxosbus/internal/protocol/replica.go:1257-1269 | dropping the entries of the slot's recorded range is dropping all that the slot first carried |
| Executor.Executor.PruneUpTo | paxosbus/internal/protocol/replica.go:1221-1245 | removes exactly the slots from the old boundary to the new |
| Executor.Executor.PruneDedup | paxosbus/internal/protocol/replica.go:1256-1269 | drops exactly the slot's requests with an index in its recorded range |
| Executor.Executor.PruneBytes | paxosbus/internal/protocol/replica.go:1239-1244 | the byte budget is met or the limit reached, dropping no slot more than needed |
| Executor.Executor.PruneCommitted | paxosbus/internal/protocol/replica.go:1221-1245 | ends with the slot and byte budgets met or at the limit min(frontier, stable), which it never passes, and drops nothing beyond what the budgets demand; log indexes stay right |
| StaleCells.StaleRing | paxosbus/internal/protocol/replica.go:550-584 | a no-op that becomes stable, four buses, a ring of three cells with one slot retained, pruning after every advance, a rewind to 3 and one to 2: the log index is 4 where the replay has 1 |
| StaleCells.RewindAgain | paxosbus/internal/protocol/recovery.go:1562-1588 | from there: the slots from 2 on are closed and execute, and a third rewind to 2 reads the right index 1, which a request that no slot holds any longer still has |
| StaleCells.ToldTwice | paxosbus/internal/protocol/replica.go:1316-1360 | a bus in slot 2 with that request and a new one then makes the replica tell both of them index 1, in one view |
| ShortCases.WriteLeftOver | paxosbus/internal/protocol/recovery.go:1562-1588 | two buses, one retained slot, nothing stable: a rewind to 0 succeeds and leaves the write of the pruned slot |
| ShortCases.CarriedAgain | paxosbus/internal/protocol/replica.go:1316-1343 | a request carried again after its slot was pruned is told a second index and executes again; indexes remain positions |
| ShortCases.AnsweredTwice | paxosbus/internal/protocol/recovery.go:1448-1518 | a bus executes, is taken back and closed, all in one view, and the next bus is told its index; the state is the replay throughout |
| FollowerInstall.FindConflict | paxosbus/internal/protocol/recovery.go:1240-1253 | true exactly if the announcement ends below what is committed here or closes a committed bus |
| FollowerInstall.RetainTarget | paxosbus/internal/protocol/recovery.go:1259-1276 | with the log retained, the frontier to keep is the first slot at which log and announcement disagree on bus or no-op, or where one of them ends; it is never below the stable slot |
| FollowerInstall.ChooseTarget | paxosbus/internal/protocol/recovery.go:1255-1276 | the slot to go back to, for both kinds of install |
| FollowerInstall.TargetKeeps | paxosbus/internal/protocol/recovery.go:1259-1276 | with the log retained, the part kept agrees with the announcement on every no-op above the stable slot, and is the longest such part |
| FollowerInstall.ContradictedConflicts | paxosbus/internal/protocol/recovery.go:1240-1253 | refused exactly if the announcement ends before a committed slot or closes one that is no no-op here |
| FollowerInstall.AdoptNoOps | paxosbus/internal/protocol/recovery.go:1287-1305 | the no-ops above the stable slot are exactly the announced ones |
| FollowerInstall.PrepareRecovery | paxosbus/internal/protocol/recovery.go:1224-1309 | succeeds exactly if nothing committed here is contradicted and the rewind is possible; then the log is taken back exactly to the target, never below the local stable end, its no-ops above that are exactly the announced ones, and the state is the replay if no stale cell was read; refused, it changes nothing; log indexes stay right if the index read is; no slot up to the stable one is touched, and an announcement that contradicts one is refused |
| FollowerInstall.HashToIsRun | paxosbus/internal/protocol/recovery.go:1389-1399 | folding unexecuted entries onto the running hash gives the hash their execution will give |
| FollowerInstall.AllFilled | paxosbus/internal/protocol/recovery.go:1382-1388 | true exactly if no slot up to the announced end is empty |
| FollowerInstall.PrefixMatches | paxosbus/internal/protocol/recovery.go:1390-1400 | compares that hash at the announced stable slot |
| FollowerInstall.ExecuteAnnounced | paxosbus/internal/protocol/recovery.go:1414-1420 | executes past the announced end and on to the first empty slot; executed no-ops are exactly the announced; the hash at the stable slot is the one foreseen; the stable slot is at least the announced one and never falls; the state is the replay if no pruned request came again; log indexes stay right in any case |
| FollowerInstall.FinishRecovery | paxosbus/internal/protocol/recovery.go:1376-1434 | done exactly if no announced slot is missing and the hash to be verified is the one execution will reach; then the cursor is past the announced end, exactly the announced no-ops are executed, the stable slot is at least the announced one and never falls, and the state is the replay if no pruned request came again; on a mismatch the log is taken back to the repair point and cleared up to the stable slot; log indexes stay right, but for a rewind that reads a wrong one |
| FollowerInstall.InstallAgain | paxosbus/internal/protocol/recovery.go:1224-1253 | once an install is done, an announcement that ends before its stable slot, or closes a slot up to there that executed with a bus, is refused |
| ViewReports.OneBit | paxosbus/internal/protocol/recovery.go:598-607 | setting one bit changes that bit only |
| ViewReports.MaskValue | paxosbus/internal/protocol/recovery.go:598-607 | bit k of a byte is worth 2^k |
| ViewReports.SetBit | paxosbus/internal/protocol/recovery.go:598-602 | in the whole bitmap exactly the one bit is added, and nothing out of bounds is written |
| ViewReports.ScanSlots | paxosbus/internal/protocol/recovery.go:569-587 | the bitmap has a bit for exactly the executed or filled slots, the no-op list names exactly the no-ops among them in order, and max is the highest |
| ViewReports.BuildViewChange | paxosbus/internal/protocol/recovery.go:535-589 | from its base on the report offers every received bus and every executed slot that is no no-op, and nothing else; it lists exactly the no-ops, and its maximum is at or above all of them; its hash is the replay's at the stable slot, if that is at hand; a span that does not fit the bitmap drops the oldest slots |
| ViewReports.ReportRange | paxosbus/internal/protocol/recovery.go:550-568 | from above the stable slot and what was pruned to the highest slot executed or observed, cut to the bitmap's size |
| ViewReports.ReportsLog | paxosbus/internal/protocol/recovery.go:569-587 | a description of the log slot by slot is a report of its received, closed and executed slots |
| ViewReports.HashRight | paxosbus/internal/protocol/replica.go:550-568 | the hash reported is the replay's if its cell was not overwritten, or its entry is retained |
| ViewReports.StableHash | paxosbus/internal/protocol/replica.go:557-565 | the hash from the ring cell if it counts as valid, else from the entry if it was not pruned, else 0 |
| ViewReports.ReportReachesAll | paxosbus/internal/protocol/recovery.go:549-560 | a report that goes up to the highest slot observed goes over the whole log |
| ViewReports.BestView | paxosbus/internal/protocol/recovery.go:630-636 | the highest last normal view among the reports |
| ViewReports.Select | paxosbus/internal/protocol/recovery.go:637-643 | exactly the reports of that view, with their senders |
| ViewReports.MergeHistories | paxosbus/internal/protocol/recovery.go:644-660 | the loop that stops at a conflict computes the merged history |
| ViewReports.FindExtremes | paxosbus/internal/protocol/recovery.go:663-674 | the highest stable and max slots, and a peer with the furthest frontier |
| ViewReports.DonorsOf | paxosbus/internal/protocol/recovery.go:684-706 | the sorted set of exactly the survivors that offer a bus at the slot |
| ViewReports.PlanSlots | paxosbus/internal/protocol/recovery.go:676-712 | every slot of the range is either closed as a no-op or has donors: closed exactly if nobody offers a bus |
| ViewReports.MergeSuffix | paxosbus/internal/protocol/recovery.go:624-714 | the whole plan: survivors, merged history, extremes, partition of the slots, and the sorted senders |
| ViewReports.MergedUnique | paxosbus/internal/protocol/recovery.go:644-660 | conflict and merged history depend only on the set of histories |
| ViewReports.OrderIndependent | paxosbus/internal/protocol/recovery.go:624-714 | two orders of the same reports give the same plan but for the catch-up peer, and for the history when there is a conflict |
| ViewReports.MergeMatchesLogs | paxosbus/internal/protocol/recovery.go:535-714 | reports built from logs, then merged: from the highest bitmap base to the merged maximum no slot is closed where a survivor's log holds a received bus, or executed one; and the donors of the others are exactly the survivors that hold or executed one |
| DependencyGraph.ReachTrans | epaxos/exec.go:78-117 | reachability along committed dependencies is transitive |
| DependencyGraph.ClosedReach | epaxos/exec.go:78-117 | nothing outside a closed set is reached from inside |
| DependencyGraph.PushOk | epaxos/exec.go:58-70 | numbering and pushing a node keeps the invariant of the search |
| DependencyGraph.BackToRoot | epaxos/exec.go:118-120 | everything above a root on the stack reaches it and is reached from it |
| DependencyGraph.ComponentClosed | epaxos/exec.go:118-120 | if a node's low link is its own index, the dependencies of what lies above it are above it or executed |
| DependencyGraph.ComponentFound | epaxos/exec.go:118-120 | then what lies above it is exactly one strongly connected component |
| DependencyGraph.PopOk | epaxos/exec.go:118-146 | executing it keeps the invariant, and all its outside dependencies were executed before |
| DependencyGraph.KeepOk | epaxos/exec.go:118-148 | a node with a lower low link stays on the stack, and still reaches one below it |
| DependencyGraph.LoopSkips | epaxos/exec.go:93-95 | an executed dependency may be skipped |
| DependencyGraph.LoopSees | epaxos/exec.go:110-114 | a dependency on the stack lowers the low link to its index |
| DependencyGraph.LoopVisits | epaxos/exec.go:103-109 | a visited one lowers it to its low link, which is reached from the node |
| DependencyGraph.KeptVisited | epaxos/exec.go:58-147 | what a visit that leaves its node on the stack promises to its caller |
| DependencyGraph.PoppedVisited | epaxos/exec.go:58-147 | what a visit that executes its node's component promises |
| DependencyGraph.DoneNotStuck | epaxos/exec.go:46-56 | an executed node was not stuck, and all it reaches was executed |
| DependencyGraph.BatchAppended | epaxos/exec.go:118-146 | one more component behind those executed keeps the order of execution right |
| BatchStore.CommandsWrite | epaxos/exec.go:125-141 | after a list of commands every key holds what the last Put to it wrote, or what it held |
| BatchStore.LastWritesWin | epaxos/exec.go:118-146 | after batches of instances every key holds the value of the last Put in the order of batches, instances and commands, or what it held |
| BatchStore.LastExists | epaxos/exec.go:118-146 | and a key that is written has such a Put |
| EpaxosExec.Exec.Insert | epaxos/exec.go:123 | one insertion keeps the elements and sorts one more |
| EpaxosExec.Exec.SortNodes | epaxos/exec.go:160-172 | a permutation in which sequence numbers ascend, ties ascend by replica and then by propose time |
| EpaxosExec.Exec.RunNode | epaxos/exec.go:125-142 | each key holds the value of the last Put to it among the node's commands, or what it held |
| EpaxosExec.Exec.RunComponent | epaxos/exec.go:118-146 | the component's nodes, each once, in sorted order, are executed and marked, and leave the stack |
| EpaxosExec.Exec.CloseComponent | epaxos/exec.go:118-146 | the component is what the search's invariant says it is, and the invariant is kept |
| EpaxosExec.Exec.VisitDependency | epaxos/exec.go:78-115 | one dependency: skipped, seen, visited, or the search is aborted because the node is stuck |
| EpaxosExec.Exec.VisitNew | epaxos/exec.go:103-109 | the recursive case |
| EpaxosExec.Exec.InStack | epaxos/exec.go:151-158 | finds exactly the nodes on the stack |
| EpaxosExec.Exec.VisitReplica | epaxos/exec.go:77-115 | all dependencies on one replica's instances |
| EpaxosExec.Exec.VisitAll | epaxos/exec.go:76-116 | all dependencies |
| EpaxosExec.Exec.Enter | epaxos/exec.go:58-74 | the node is numbered and pushed; one without commands aborts the search |
| EpaxosExec.Exec.Leave | epaxos/exec.go:118-148 | a component is executed exactly if the low link is the node's own index |
| EpaxosExec.Exec.StrongConnect | epaxos/exec.go:58-149 | terminates on the number of unnumbered nodes; keeps the invariant; its result is a visited node, or an aborted search from a stuck one |
| EpaxosExec.Exec.ResetIndexes | epaxos/exec.go:51-54 | every node that was not executed is unnumbered again |
| EpaxosExec.Exec.FindSCC | epaxos/exec.go:46-56 | what was executed is a sequence of whole components, each in order of sequence, replica and propose time and after all its outside dependencies; every key holds the value of the last Put to it in that order; it succeeds if and only if no uncommitted instance is in the way |
| EpaxosExec.Exec.ExecuteCommand | epaxos/exec.go:25-42 | true exactly for an instance that is executed, or committed and not stuck; then it is executed |
| ClientClock.BusClient.AcceptWindow | paxosbus/internal/protocol/client_schedule.go:27-51 | a window is entered exactly if its view is not behind and it repeats an earlier promise for its start, if there is one; no arrival once announced is taken back or added to its window |
| ClientClock.BusClient.ArrivalAfter | paxosbus/internal/protocol/client_schedule.go:182-213 | the window's first arrival after the last one |
| ClientClock.BusClient.NextBusArrival | paxosbus/internal/protocol/client_schedule.go:182-213 | the least arrival due in any started and allowed window, or none if none is due, in any order of iteration; exactly the windows that have ended and have no bus left, or whose view is not allowed, are dropped |
| ClientClock.BusClient.DueIsFirst | paxosbus/internal/protocol/client_schedule.go:182-213 | between the last arrival and the next one nothing was announced: none is skipped |
| ClientClock.BusClient.ClockIsSequence | paxosbus/internal/protocol/schedule_transport.go:69-85 | for the same windows the clock returns n if and only if n is the replica's next sequence after the last and n's window has started |
| ClientVotes.Votes.constructor | paxosbus/internal/protocol/client.go:218-230 | nothing in flight, nothing committed |
| ClientVotes.Votes.Send | paxosbus/internal/protocol/client.go:386-402 | the requests of a bus are in flight from then on, without votes; those in flight already keep theirs |
| ClientVotes.Votes.Forget | paxosbus/internal/protocol/client.go:531-542 | exactly the expired requests that are committed are forgotten |
| ClientVotes.Votes.HandleRequestReply | paxosbus/internal/protocol/client.go:491-529 | the votes of a request in flight are exactly the replicas below 32 that replied since, for each log index and view; it is committed exactly once those of one index and view are a quorum with the view's leader, and once only |
| ClientVotes.Votes.CommittedIff | paxosbus/internal/protocol/client.go:479-519 | a request in flight is committed if and only if a quorum of F+1 replicas, the view's leader among them, replied with one index and view since it is |
| ClientVotes.Votes.LeaderReplied | paxosbus/internal/protocol/client.go:479-482 | behind every commit is the leader's own reply |
| ClientVotes.LeaderSent | paxosbus/internal/protocol/client.go:479-529 | and, as the network makes up no replies, one that the leader had sent in the view |
| ClientVotes.CommitsDistinct | paxosbus/internal/protocol/client.go:491-529 | over any number of views, in one view two different requests, of any clients, are never both committed at one log index, provided every rewind of the leader was safe (`ReplicaLife.Safe`); `OneRequestIff` and `RewindReuseIff` show that the condition cannot be weakened |
| ClientVotes.CommitCarried | paxosbus/internal/protocol/replica.go:1136-1158 | a request committed at log index n is the n-th of all that the leader executed, carried by a slot that holds a bus: by none the leader closed in the view; provided indexes were positions when the view was installed (`LifeInPlace`) |
| LeaderView.RunExtends | paxosbus/internal/protocol/replica.go:1136-1158 | in a view nothing executed, sent or closed is taken back |
| LeaderView.ClosedStays | paxosbus/internal/protocol/replica.go:1136-1158 | a slot closed in the view stays a no-op, and executes as one |
| LeaderView.ExecutedStays | paxosbus/internal/protocol/replica.go:1204-1217 | an executed slot holds what it held when it executed |
| LeaderView.StepUnique | paxosbus/internal/protocol/replica.go:1316-1343 | if no index was or can be given to two requests of the view, no act of a leader changes that, pruned requests that come again included |
| LeaderView.RunUnique | paxosbus/internal/protocol/replica.go:1316-1343 | ... nor any run of acts |
| LeaderView.OneRequestPerIndex | paxosbus/internal/protocol/replica.go:1345-1360 | two replies of such a run with the same log index are for the same request, whenever they were sent |
| LeaderView.RunPlaced | paxosbus/internal/protocol/replica.go:1316-1343 | if indexes are positions in what was executed when the run begins, so are every index and every reply in it |
| IndexReuse.ReusedIndex | paxosbus/internal/protocol/replica.go:1316-1360 | where an index was given, told or is owed twice, one bus in the next slot makes the leader tell one index to two requests |
| IndexReuse.OneRequestIff | paxosbus/internal/protocol/replica.go:1316-1360 | with the next slot empty and two requests without an index: no run from a state ever tells an index to two requests if and only if none was or can be given twice in that state |
| IndexReuse.RewindReuseIff | paxosbus/internal/protocol/recovery.go:1562-1588 | likewise after a rewind: no later run tells an index twice if and only if the rewind was safe |
| ReplicaLife.RewindUniqueIff | paxosbus/internal/protocol/recovery.go:1562-1588 | a rewind leaves no index that is given twice if and only if every dedup entry at or past the index it reads belongs to a slot it undoes, and the view answered nothing at or past that index |
| ReplicaLife.LifeUnique | paxosbus/internal/protocol/recovery.go:1562-1588 | over any number of views, with safe rewinds, no index was or can be given to two requests of a view |
| ReplicaLife.SentStays | paxosbus/internal/protocol/replica.go:1345-1360 | views only grow, and no reply of a view is taken back |
| ReplicaLife.LifeOneRequest | paxosbus/internal/protocol/replica.go:1345-1360 | over the whole life of a replica, two replies of one view with the same log index are for the same request |
| ReplicaLife.RewindInPlaceIff | paxosbus/internal/protocol/recovery.go:1562-1588 | a safe rewind leaves every index a position in what was executed if and only if it reads the index the slot began with |
| ReplicaLife.LifeInPlace | paxosbus/internal/protocol/recovery.go:1562-1588 | over any number of views, with such rewinds, every index and every reply is a position in what was executed |
| ReplicaLife.RightIsCovered | paxosbus/internal/protocol/replica.go:1257-1269 | where indexes are positions, a rewind that reads the right index undoes every request at or past it, however much was pruned |
| ReplicaSections.ReplicaLog.constructor | paxosbus/internal/protocol/recovery.go:1507-1518 | any executor whose log indexes are right may begin, with nothing sent or closed |
| ReplicaSections.ReplicaLog.OneRequestPerIndex | paxosbus/internal/protocol/replica.go:1316-1360 | whatever was done with the log, in any order and over any views, two replies of one view with the same index are for the same request, whose position it is |
| ReplicaSections.ReplicaLog.EnterView | paxosbus/internal/protocol/recovery.go:373-373 | a new view is one change; nothing was answered in it |
| ReplicaSections.ReplicaLog.Rewind | paxosbus/internal/protocol/recovery.go:1562-1588 | the log indexes stay right if and only if the target is 0, out of the ring's reach, or its cell is right; then, if the view has answered nothing at or past the index read, the rewind is one change of a life as above |
| ReplicaSections.ReplicaLog.DropFrom | paxosbus/internal/protocol/recovery.go:1311-1319 | dropping slots that have not executed is one change |
| ReplicaSections.ReplicaLog.ReceiveBus | paxosbus/internal/protocol/replica.go:959-983 | an arriving bus is one act of the view: received if its slot is not filled, else ignored |
| ReplicaSections.ReplicaLog.ReceiveRequest | paxosbus/internal/protocol/replica.go:1080-1090 | so is a recovered request |
| ReplicaSections.ReplicaLog.CloseSlot | paxosbus/internal/protocol/replica.go:1841-1850 | closing a slot is one act, for exactly the slots at or above the frontier not closed yet |
| ReplicaSections.ReplicaLog.ExecuteFilled | paxosbus/internal/protocol/replica.go:1187-1202 | the advance loop is one act: the filled slots execute and exactly their replies are queued |
| ReplicaSections.ReplicaLog.PruneOld | paxosbus/internal/protocol/replica.go:1221-1245 | pruning is one act, which no slot from the frontier on notices |
| ReplicaSections.ReplicaLog.Advance | paxosbus/internal/protocol/replica.go:1187-1202 | the loop and the pruning behind it |
| ReplicaSections.ReplicaLog.SetStable | paxosbus/internal/protocol/recovery.go:97-121 | a stable slot changes nothing the view has promised |
| ReplicaSections.ReplicaLog.ReplayReplies | paxosbus/internal/protocol/recovery.go:1536-1560 | repeating replies is one act |
| Quorums.ExtendsSplit | replica/quorum.go:259-278 | the sets that extend the current choice split into those with the next replica and those without, and no set is in both |
| Quorums.QuorumSystem.Emit | replica/quorum.go:262-271 | the chosen set goes to each of its members under the next id |
| Quorums.QuorumSystem.Subsets | replica/quorum.go:259-278 | exactly the sets that extend the current choice are emitted, each once, and the choice is restored |
| Quorums.QuorumSystem.constructor | replica/quorum.go:228-241 | every leader gets every set of the given size that contains it, under exactly one id, and ids are contiguous from 0 |
| Quorums.QuorumSystem.BallotOf | replica/quorum.go:250-257 | a ballot exactly for the quorums that contain the leader; the ballot's leader and quorum are those asked for |
| Quorums.QuorumSystem.SameHigher | replica/quorum.go:138-142 | keeps leader and quorum; with two replicas or more it is strictly higher if and only if higherThan is at least the number of the leader's quorums or sameAs was higher |
| HashLog.AppendUpdateCommute | swift/dpath.go:60-92 | for a new command, appending and then updating ends as updating and then appending |
| HashLog.UniqueIff | swift/dpath.go:60-88 | appending keeps the pending list without repetitions if and only if the command was not pending, or only its update was awaited |
| HashLog.AppendedTwice | swift/dpath.go:60-88 | the same command appended twice to the empty log is pending twice |
| HashLog.SyncedGrows | swift/dpath.go:128-135 | the synced position never falls |
| HashLog.HashLog.constructor | swift/dpath.go:52-58 | the empty log |
| HashLog.HashLog.Append | swift/dpath.go:60-88 | the abstract log with the command appended, or its awaited update applied; returns the hash for it |
| HashLog.HashLog.LinkLast | swift/dpath.go:67-88 | list, map and hash all gain the node at the end |
| HashLog.HashLog.Attach | swift/dpath.go:72-85 | the pointers form one doubly linked list with the node last |
| HashLog.HashLog.UpdateKnown | swift/dpath.go:100-143 | the abstract update: synced position, synced hash, and the command out of the list; synced is at least that position, with its hash if it rose |
| HashLog.HashLog.Unlink | swift/dpath.go:109-127 | the node leaves the list and the map |
| HashLog.HashLog.Detach | swift/dpath.go:110-125 | its neighbours' pointers and the ends close over it |
| HashLog.HashLog.Rehash | swift/dpath.go:136-142 | the hash is recomputed as the fold of the whole pending list over the synced hash |
| HashLog.HashLog.Update | swift/dpath.go:90-92 | the object follows the abstract update, hash included |
| ScheduleWire.GetPut | paxosbus/internal/wire/msgs.go:100-119 | a word that fits its bytes is read back |
| ScheduleWire.WordBytes | paxosbus/internal/wire/msgs.go:100-107 | words are little-endian: byte i is the i-th digit to base 256 |
| ScheduleWire.PutGet | paxosbus/internal/wire/msgs.go:100-119 | bytes are the encoding of the word read from them |
| ScheduleWire.Layout | paxosbus/internal/wire/schedule_msgs.go:34-58 | where the fields of a window, a request and a header stand |
| ScheduleWire.WindowsLayout | paxosbus/internal/wire/msgs.go:121-128 | the i-th window of a list stands at byte 32 i |
| ScheduleWire.RequestsLayout | paxosbus/internal/wire/schedule_msgs.go:72-81 | the i-th request at byte 24 i |
| ScheduleWire.MessageLayout | paxosbus/internal/wire/schedule_msgs.go:72-81 | a message is its fixed fields, the length of its list, and the list |
| ScheduleWire.WindowsUnique | paxosbus/internal/wire/msgs.go:121-146 | two lists of windows with the same bytes are the same list |
| ScheduleWire.RequestsUnique | paxosbus/internal/wire/schedule_msgs.go:72-103 | the same for requests |
| ScheduleWire.PrepareUnique | paxosbus/internal/wire/schedule_msgs.go:72-103 | a prepare and the bytes behind it can be told apart in one way only |
| ScheduleWire.PrepareCarried | paxosbus/internal/wire/schedule_msgs.go:72-103 | a prepare of the handlers that fits the words is received as it was sent |
| ScheduleWire.InstallUnique | paxosbus/internal/wire/msgs.go:148-168 | the same for a snapshot with its nested schedule |
| ScheduleWire.MarshalPrepare | paxosbus/internal/wire/schedule_msgs.go:72-81 | writes the encoding of the prepare |
| ScheduleWire.MarshalInstall | paxosbus/internal/wire/msgs.go:148-155 | writes the encoding of the snapshot |
| ScheduleWire.MarshalBatch | paxosbus/internal/protocol/schedule_transport.go:93-102 | writes snapshot, coded prepare and, if committed, coded commit |
| ScheduleWire.Reader.ReadFull | paxosbus/internal/wire/msgs.go:109-119 | n bytes and the rest, or an error if there are fewer |
| ScheduleWire.Reader.ReadHeader | paxosbus/internal/wire/schedule_msgs.go:59-69 | succeeds exactly on an encoded header and leaves exactly the rest |
| ScheduleWire.Reader.ReadRequests | paxosbus/internal/wire/schedule_msgs.go:82-103 | a list of the given length, leaving exactly the rest |
| ScheduleWire.Reader.ReadPrepare | paxosbus/internal/wire/schedule_msgs.go:82-103 | succeeds exactly if an encoded prepare within the list limit is in front, returns it, and leaves exactly the bytes behind it |
| ScheduleWire.Reader.ReadWindows | paxosbus/internal/wire/msgs.go:130-146 | a list of the given length, leaving exactly the rest |
| ScheduleWire.Reader.ReadSchedule | paxosbus/internal/wire/msgs.go:130-146 | the same as ReadPrepare for a nested schedule within the history limit |
| ScheduleWire.Reader.ReadInstall | paxosbus/internal/wire/msgs.go:157-168 | the same for a snapshot |
| ScheduleWire.Reader.ReadBatch | paxosbus/internal/protocol/replica.go:690-716 | bytes written by scheduleBatch decode to its snapshot, its prepare and, exactly if it was committed, its commit, leaving what follows |
| MessageFormats.FieldBytes | paxosbus/internal/wire/msgs.go:665-722 | words and lengths are little-endian, a flag is one byte of 1 or 0, byte strings follow their length |
| MessageFormats.ItemsSplit | paxosbus/internal/wire/msgs.go:858-892 | the records of a list stand one behind the other, in order |
| MessageFormats.FieldBack | paxosbus/internal/wire/msgs.go:427-486 | a word, flag, byte string or list is read back as it was written, with what follows it |
| MessageFormats.ItemsBack | paxosbus/internal/wire/msgs.go:858-892 | so is a list of records, each with its own lists |
| MessageFormats.RoundTrip | paxosbus/internal/wire/msgs.go:665-767 | for every message description, among them view change, start view, state transfer and bus, nested to any depth: reading what was written gives the message and leaves exactly the bytes behind it |
| MessageFormats.Unambiguous | paxosbus/internal/wire/msgs.go:824-892 | no stream of bytes reads as two messages of one kind |
| MessageFormats.ReadsSound | paxosbus/internal/wire/msgs.go:688-722 | whatever a reader accepts is within the limits and as long as the writer's form of it, and what comes after it does not matter |
| MessageFormats.Truncated | paxosbus/internal/wire/msgs.go:688-722 | a message that is cut short anywhere is refused |
| MessageFormats.InstallIsRecord | paxosbus/internal/wire/msgs.go:148-155 | the snapshot written word by word has its description's bytes |
| MessageFormats.PayloadRoundTrip | paxosbus/internal/wire/msgs.go:12-37 | the requests of a transferred bus survive being a message inside the payload of another |

## Left out

- Sockets, goroutines, timers, retries, logging, statistics, command lines and configuration parsing; wall-clock time is a parameter where a handler compares with it.
- Liveness: view changes, message loss and crashes are steps that may happen at any time, and nothing says that a step does happen.
- FNV, SHA-256 and the schedule digest: hashes are uninterpreted functions, and two histories are compared as such, so a digest collision is not modelled.
- View ids, ballots, sequence numbers of EPaxos and slots in the log are unbounded; word widths are modelled where the repository's arithmetic depends on them (times, intervals, client ids, `computeGlobalSlot`, the sums of the cursor reset, the wire format).
- Durability of buses and no-ops across views: the merge prefers any bus, and closes slots that cannot be fetched, so it is not a property of this code; only acknowledged schedule windows are proved durable.
- A replica's own `scheduleCommittedEnd` as a sign of agreement by a quorum: a new leader marks its whole merged history committed, so only commits that a leader counted are in `World.commits`. `MarkRuns` proves that what is marked is what a view began with or what was counted in it, under the two guards named above.
- Start views in the schedule agreement carry the schedule only; their log part is the subject of `FollowerInstall`. The queue of start views is any later delivery of the message, and the flag of a connection that its snapshot was accepted is a set of accepted batches.
- The bookkeeping of `Agreement.History` (merged bases, latest histories, origins, promises) is no state of a replica; no handler reads it.
- The waiters for handshake replies, the statistics of admitted buses and the injected drops.
- Fetching of missing slots (`fetchMergedState`, `fetchRecoveryRange`), `installCanonicalViewLocked`, gap resolution between replicas, the periodic sync round, the durable log and the disk reader.
- The readers and writers of messages other than the schedule's are functions over a description of the message (`MessageFormats`), not the loops of the source, which `ScheduleWire` has for the schedule's messages. The small messages of fixed words (gap, sync, status) have no description of their own; `RoundTrip` holds for any. A flag byte other than 0 and 1 is read as true, as in the source, so a stream can read as a message without being its written form.
- `sort.Slice` and `sort.Sort` are modelled by sorts of the project's own; what is used of them is an ordered permutation.
- `NewQuorumsFromFile` and the three-quarters and majority helpers of the quorum file.
- The message protocols of SwiftPaxos, EPaxos, Paxos, CURP, Fast Paxos and N²Paxos, and the master; the loop under `transconf` in EPaxos's executor has no effect and is left out, as are its replies to clients, and GET and SCAN, which do not change the store.
- Executor.Executor.RewindTo: for a target below `prunedBelow` it states the state reached, but no method goes on from there, because slots the replica has pruned would then be missing below its frontier.
- Executor.Executor.Record: log entries are values in a map, so aliasing of an entry pointer between handlers is not captured.
- Executor.Executor.FoldExecuted: an entry without an owner never executes in this model, because recording a bus or a request sets the owner and `SetNoOp` is given it, where the repository looks it up in the schedule.
- FollowerInstall.PrepareRecovery: for `prunedBelow` at most the local stable end, which pruning keeps once there is a stable slot; the owners of announced no-ops are a parameter.
- FollowerInstall.InstallAgain: for a replica with a stable slot before the install; without one, pruning inside the install may pass the stable slot it announces, and `PrepareRecovery` is not about that. That `FinishRecovery` leaves the announced slot stable holds in any case.
- FollowerInstall.FinishRecovery: does not repeat the replies for slots executed before the install, which `Executor.ReplayReplies` models.
- Executor.Executor.ClearSlotRange: for a range at or above the frontier, where its callers have rewound to.
- EpaxosExec.Exec.FindSCC: instances are values by id, with the fields that the search changes (status, index, low link) kept in maps of the executor; they do not change hands with other goroutines during a search.
- HashLog.HashLog.Append: for a command that is not pending; for a pending one `UniqueIff` states on the abstract log what goes wrong, and the object then has two nodes for one key of its map.
- ReplicaIndex.ScheduleIndex.ResetCursor: what the cursor is worth on a schedule that is not `Plain`; `InstallSchedule`, `TimeAround` and `SettleClients` likewise.
- ViewReports.BuildViewChange: the highest slot ever observed is a parameter.
- ViewReports.MergeSuffix: for reports of distinct senders, as the map they are collected in ensures.
- ClientClock.BusClient.AcceptWindow: the part of the handshake after the reply was matched with its request.
- ReplicaLife.LifeUnique: whether every rewind of a replica is safe is not decided by the code, which has no such check; the exact condition for each rewind is what is proved.
- ClientVotes.LeaderSent: that a client hears only what was sent is a condition on the network (`HeardFrom`).
- ScheduleWire.Reader.ReadBatch: for bytes that a sender wrote; what a replica does with a stray code byte is not modelled.
- Executor.Executor.AppendRequest: the queue of replies is kept as a history; the loop that sends and empties it is not modelled.
