/** The client's votes: a request is committed at a log index once a quorum that
    includes the view's leader reported it there. No two are committed at one
    index in one view, because no leader sends two there. */
module ClientVotes {
  import opened Schedule
  import opened ReplicaSpec
  import opened Replay
  import opened ExecutorSpec
  import opened Executor
  import opened LogIndexes
  import opened LeaderView
  import opened ReplicaLife

  datatype VoteKey = VoteKey(logIndex: nat, viewId: nat)

  datatype RequestReply = RequestReply(requestId: u64, logIndex: nat, viewId: nat, replicaIdx: nat)

  datatype InFlight = InFlight(votes: map<VoteKey, set<nat>>, committed: bool)

  /** Replicas that fit into the 32-bit vote mask; config.go allows no more. */
  const MASK_BITS := 32

  /** Votes recorded for a log index in a view; none are recorded at first. */
  function VotesFor(e: InFlight, vk: VoteKey): set<nat> {
    if vk in e.votes then e.votes[vk] else {}
  }

  ghost predicate IsQuorum(config: Config, votes: set<nat>, viewId: nat)
    requires config.Valid()
  {
    |votes| >= config.f + 1 && viewId % config.n in votes
  }

  /** The votes of a request in flight are exactly the replicas that replied since
      it is: a reply counts if its replica fits into the mask. */
  ghost predicate Counted(q: u64, e: InFlight, replies: set<RequestReply>) {
    forall vk, r: nat :: r in VotesFor(e, vk) <==> r < MASK_BITS && RequestReply(q, vk.logIndex, vk.viewId, r) in replies
  }

  /** It is committed once those at one log index of one view are a quorum. */
  ghost predicate CommittedRight(config: Config, e: InFlight)
    requires config.Valid()
  {
    e.committed <==> exists vk :: IsQuorum(config, VotesFor(e, vk), vk.viewId)
  }

  ghost predicate FlightsOk(config: Config, inFlight: map<u64, InFlight>, since: map<u64, set<RequestReply>>)
    requires config.Valid()
  {
    since.Keys == inFlight.Keys && forall q :: q in inFlight ==> Counted(q, inFlight[q], since[q]) && CommittedRight(config, inFlight[q])
  }

  /** A commit rests on a quorum of replies. */
  ghost predicate CommitBacked(config: Config, heard: set<RequestReply>, c: (u64, VoteKey))
    requires config.Valid()
  {
    exists votes :: IsQuorum(config, votes, c.1.viewId) && Backed(heard, c, votes)
  }

  ghost predicate Backed(heard: set<RequestReply>, c: (u64, VoteKey), votes: set<nat>) {
    forall r :: r in votes ==> RequestReply(c.0, c.1.logIndex, c.1.viewId, r) in heard
  }

  ghost predicate CommitsOk(config: Config, heard: set<RequestReply>, commits: set<(u64, VoteKey)>)
    requires config.Valid()
  {
    forall c :: c in commits ==> CommitBacked(config, heard, c)
  }

  /** What is committed in flight was counted. */
  ghost predicate AllCounted(inFlight: map<u64, InFlight>, commits: set<(u64, VoteKey)>) {
    forall q :: q in inFlight && inFlight[q].committed ==> exists vk :: (q, vk) in commits
  }

  ghost predicate HeardAll(since: map<u64, set<RequestReply>>, heard: set<RequestReply>) {
    forall q :: q in since ==> since[q] <= heard
  }

  class Votes {
    const config: Config
    const clientId: u64
    var inFlight: map<u64, InFlight>
    ghost var since: map<u64, set<RequestReply>>    // the replies handled since a request is in flight
    ghost var heard: set<RequestReply>              // every reply handled so far
    ghost var commits: set<(u64, VoteKey)>          // every commit counted so far

    ghost predicate Valid()
      reads this
    {
      && config.Valid() && config.n <= MASK_BITS && FlightsOk(config, inFlight, since) && HeardAll(since, heard)
      && CommitsOk(config, heard, commits) && AllCounted(inFlight, commits)
    }

    constructor (config: Config, clientId: u64)
      requires config.Valid() && config.n <= MASK_BITS
      ensures Valid() && this.config == config && this.clientId == clientId && inFlight == map[] && heard == {} && commits == {}
    {
      this.config, this.clientId := config, clientId;
      inFlight, since, heard, commits := map[], map[], {}, {};
    }

    /** quorumReached. */
    predicate QuorumReached(mask: set<nat>, viewId: nat)
      requires config.Valid()
    {
      |mask| >= config.QuorumSize() && config.LeaderOf(viewId) in mask
    }

    /** A bus leaves: its requests are in flight from now on, if they are not yet. */
    method Send(requests: seq<u64>)
      requires Valid()
      modifies this`inFlight, this`since
      ensures Valid()
      ensures forall q :: q in inFlight <==> q in old(inFlight) || q in requests
      ensures forall q :: q in old(inFlight) ==> inFlight[q] == old(inFlight)[q] && since[q] == old(since)[q]
      ensures forall q :: q in inFlight && q !in old(inFlight) ==> since[q] == {} && inFlight[q] == InFlight(map[], false)
    {
      hide Counted, CommittedRight, CommitsOk, IsQuorum;
      for i := 0 to |requests|
        invariant Valid()
        invariant forall q :: q in inFlight <==> q in old(inFlight) || q in requests[..i]
        invariant forall q :: q in old(inFlight) ==> inFlight[q] == old(inFlight)[q] && since[q] == old(since)[q]
        invariant forall q :: q in inFlight && q !in old(inFlight) ==> since[q] == {} && inFlight[q] == InFlight(map[], false)
      {
        assert requests[..i + 1] == requests[..i] + [requests[i]];
        var rid := requests[i];
        if rid !in inFlight {
          NewFlight(config, rid);
          FlightGoesOn(config, inFlight, since, rid, InFlight(map[], false), {}, heard, commits);
          inFlight, since := inFlight[rid := InFlight(map[], false)], since[rid := {}];
        }
      }
      assert requests[..|requests|] == requests;
    }

    static lemma NewFlight(config: Config, q: u64)
      requires config.Valid()
      ensures Counted(q, InFlight(map[], false), {}) && CommittedRight(config, InFlight(map[], false))
    {
    }

    /** janitorLoop: committed requests that are old enough are forgotten. */
    method Forget(expired: set<u64>)
      requires Valid()
      modifies this`inFlight, this`since
      ensures Valid()
      ensures forall q :: q in inFlight <==> q in old(inFlight) && !(q in expired && old(inFlight)[q].committed)
      ensures forall q :: q in inFlight ==> inFlight[q] == old(inFlight)[q] && since[q] == old(since)[q]
    {
      hide Counted, CommittedRight, CommitsOk;
      var rest := inFlight.Keys;
      while rest != {}
        invariant Valid() && rest <= inFlight.Keys
        invariant forall q :: q in inFlight ==> q in old(inFlight) && inFlight[q] == old(inFlight)[q] && since[q] == old(since)[q]
        invariant forall q :: q in old(inFlight) && q !in inFlight ==> q in expired && old(inFlight)[q].committed
        invariant forall q :: q in inFlight && q !in rest ==> !(q in expired && inFlight[q].committed)
      {
        var rid: u64 :| rid in rest;
        rest := rest - {rid};
        if inFlight[rid].committed && rid in expired {
          FlightEnds(config, inFlight, since, rid, heard, commits);
          inFlight, since := inFlight - {rid}, since - {rid};
        }
      }
    }

    static lemma FlightEnds(config: Config, inFlight: map<u64, InFlight>, since: map<u64, set<RequestReply>>, q: u64,
        heard: set<RequestReply>, commits: set<(u64, VoteKey)>)
      requires config.Valid() && FlightsOk(config, inFlight, since) && HeardAll(since, heard) && AllCounted(inFlight, commits)
      ensures FlightsOk(config, inFlight - {q}, since - {q}) && HeardAll(since - {q}, heard) && AllCounted(inFlight - {q}, commits)
    {
      hide Counted, CommittedRight;
    }

    static lemma FlightGoesOn(config: Config, inFlight: map<u64, InFlight>, since: map<u64, set<RequestReply>>, q: u64,
        e: InFlight, replies: set<RequestReply>, heard: set<RequestReply>, commits: set<(u64, VoteKey)>)
      requires config.Valid() && FlightsOk(config, inFlight, since) && HeardAll(since, heard) && AllCounted(inFlight, commits)
      requires Counted(q, e, replies) && CommittedRight(config, e) && replies <= heard && (e.committed ==> exists vk :: (q, vk) in commits)
      ensures FlightsOk(config, inFlight[q := e], since[q := replies]) && HeardAll(since[q := replies], heard)
      ensures AllCounted(inFlight[q := e], commits)
    {
      hide Counted, CommittedRight;
    }

    static lemma Hears(config: Config, heard: set<RequestReply>, commits: set<(u64, VoteKey)>, msg: RequestReply)
      requires config.Valid() && CommitsOk(config, heard, commits)
      ensures CommitsOk(config, heard + {msg}, commits)
    {
      hide IsQuorum;
      forall c | c in commits ensures CommitBacked(config, heard + {msg}, c) {
        var votes :| IsQuorum(config, votes, c.1.viewId) && Backed(heard, c, votes);
        assert Backed(heard + {msg}, c, votes);
      }
    }

    /** What the client makes of one more reply for a request in flight. */
    static ghost predicate Follows(config: Config, was: InFlight, msg: RequestReply, now: InFlight)
      requires config.Valid()
    {
      var vk := VoteKey(msg.logIndex, msg.viewId);
      var before := VotesFor(was, vk);
      if msg.replicaIdx in before then now == was
      else
        var after := if msg.replicaIdx < MASK_BITS then before + {msg.replicaIdx} else before;
        now == InFlight(was.votes[vk := after], was.committed || IsQuorum(config, after, msg.viewId))
    }

    static lemma VoteCounted(config: Config, q: u64, was: InFlight, replies: set<RequestReply>, msg: RequestReply, now: InFlight)
      requires config.Valid() && Counted(q, was, replies) && msg.requestId == q && Follows(config, was, msg, now)
      ensures Counted(q, now, replies + {msg})
    {
      hide IsQuorum;
      var key := VoteKey(msg.logIndex, msg.viewId);
      forall vk, r: nat
        ensures r in VotesFor(now, vk) <==> r < MASK_BITS && RequestReply(q, vk.logIndex, vk.viewId, r) in replies + {msg}
      {
        assert RequestReply(q, vk.logIndex, vk.viewId, r) == msg <==> vk == key && r == msg.replicaIdx;
        assert r in VotesFor(was, vk) <==> r < MASK_BITS && RequestReply(q, vk.logIndex, vk.viewId, r) in replies;
      }
    }

    static lemma CommitRight(config: Config, was: InFlight, msg: RequestReply, now: InFlight)
      requires config.Valid() && CommittedRight(config, was) && Follows(config, was, msg, now)
      ensures CommittedRight(config, now)
    {
      hide IsQuorum;
      var key := VoteKey(msg.logIndex, msg.viewId);
      assert forall vk :: vk != key ==> VotesFor(now, vk) == VotesFor(was, vk);
      VotesGrow(config, VotesFor(was, key), VotesFor(now, key), msg.viewId);
      if was.committed {
        var vk :| IsQuorum(config, VotesFor(was, vk), vk.viewId);
        assert IsQuorum(config, VotesFor(now, vk), vk.viewId);
      } else if now.committed {
        assert IsQuorum(config, VotesFor(now, key), key.viewId);
      }
    }

    static lemma VotesGrow(config: Config, before: set<nat>, after: set<nat>, viewId: nat)
      requires config.Valid() && before <= after
      ensures IsQuorum(config, before, viewId) ==> IsQuorum(config, after, viewId)
      ensures |before| <= |after|
    {
      assert after == before + (after - before);
    }

    static lemma CommitAdded(config: Config, heard: set<RequestReply>, commits: set<(u64, VoteKey)>, c: (u64, VoteKey), votes: set<nat>)
      requires config.Valid() && CommitsOk(config, heard, commits) && IsQuorum(config, votes, c.1.viewId) && Backed(heard, c, votes)
      ensures CommitsOk(config, heard, commits + {c})
    {
    }

    /** handleRequestReply: a second reply of a replica changes nothing, and a
        request is committed at most once while it is in flight. */
    method HandleRequestReply(msg: RequestReply) returns (justCommitted: bool)
      requires Valid()
      modifies this
      ensures Valid() && heard == old(heard) + {msg} && inFlight.Keys == old(inFlight).Keys
      ensures forall q :: q in since && q != msg.requestId ==> inFlight[q] == old(inFlight)[q] && since[q] == old(since)[q]
      ensures msg.requestId in since ==> since[msg.requestId] == old(since)[msg.requestId] + {msg}
      ensures msg.requestId in inFlight && old(inFlight)[msg.requestId].committed ==> inFlight[msg.requestId].committed
      ensures justCommitted <==> msg.requestId in inFlight && !old(inFlight)[msg.requestId].committed && inFlight[msg.requestId].committed
      ensures commits == old(commits) + (if justCommitted then {(msg.requestId, VoteKey(msg.logIndex, msg.viewId))} else {})
    {
      hide Counted, CommittedRight, CommitsOk, Backed, VotesFor, CommitBacked;
      Hears(config, heard, commits, msg);
      heard := heard + {msg};
      if msg.requestId !in inFlight {
        return false;
      }
      var e := inFlight[msg.requestId];
      ghost var was, replies := e, since[msg.requestId] + {msg};
      var vk := VoteKey(msg.logIndex, msg.viewId);
      var mask := VotesFor(e, vk);
      if msg.replicaIdx in mask {
        NextReply(msg, was, e);
        FlightGoesOn(config, inFlight, since, msg.requestId, e, replies, heard, commits);
        since := since[msg.requestId := replies];
        assert inFlight[msg.requestId := e] == inFlight;
        return false;
      }
      if msg.replicaIdx < MASK_BITS {
        mask := mask + {msg.replicaIdx};
      }
      e := e.(votes := e.votes[vk := mask]);
      justCommitted := !e.committed && QuorumReached(mask, msg.viewId);
      if justCommitted {
        e := e.(committed := true);
      }
      NextReply(msg, was, e);
      if justCommitted {
        VotesHeard(msg.requestId, e, replies, vk, mask, heard);
        CommitAdded(config, heard, commits, (msg.requestId, vk), mask);
        commits := commits + {(msg.requestId, vk)};
      }
      FlightGoesOn(config, inFlight, since, msg.requestId, e, replies, heard, commits);
      inFlight, since := inFlight[msg.requestId := e], since[msg.requestId := replies];
    }

    lemma NextReply(msg: RequestReply, was: InFlight, now: InFlight)
      requires config.Valid() && FlightsOk(config, inFlight, since) && msg.requestId in inFlight && was == inFlight[msg.requestId]
      requires Follows(config, was, msg, now)
      ensures Counted(msg.requestId, now, since[msg.requestId] + {msg}) && CommittedRight(config, now)
    {
      hide Follows, Counted, CommittedRight;
      VoteCounted(config, msg.requestId, was, since[msg.requestId], msg, now);
      CommitRight(config, was, msg, now);
    }

    static lemma VotesHeard(q: u64, e: InFlight, replies: set<RequestReply>, vk: VoteKey, votes: set<nat>, heard: set<RequestReply>)
      requires Counted(q, e, replies) && replies <= heard && vk in e.votes && e.votes[vk] == votes
      ensures Backed(heard, (q, vk), votes)
    {
    }

    /** A commit has the leader's own reply behind it. */
    lemma LeaderReplied(requestId: u64, vk: VoteKey)
      requires Valid() && (requestId, vk) in commits
      ensures RequestReply(requestId, vk.logIndex, vk.viewId, config.LeaderOf(vk.viewId)) in heard
    {
      assert CommitBacked(config, heard, (requestId, vk));
      var votes :| IsQuorum(config, votes, vk.viewId) && Backed(heard, (requestId, vk), votes);
    }

    /** The other half: once the replies of a quorum with the view's leader in it
        have come in for a request in flight, it is committed. */
    lemma CommittedIff(q: u64)
      requires Valid() && q in inFlight
      ensures inFlight[q].committed <==> exists vk, quorum :: QuorumReplied(q, vk, quorum)
      ensures inFlight[q].committed ==> exists vk :: (q, vk) in commits
    {
      hide CommitsOk, HeardAll;
      var e := inFlight[q];
      assert Counted(q, e, since[q]) && CommittedRight(config, e);
      if e.committed {
        var vk :| IsQuorum(config, VotesFor(e, vk), vk.viewId);
        assert QuorumReplied(q, vk, VotesFor(e, vk));
      }
      if vk, quorum :| QuorumReplied(q, vk, quorum) {
        assert quorum <= VotesFor(e, vk);
        VotesGrow(config, quorum, VotesFor(e, vk), vk.viewId);
      }
    }

    /** A quorum of replicas, the view's leader among them, replied so. */
    ghost predicate QuorumReplied(q: u64, vk: VoteKey, quorum: set<nat>)
      requires config.Valid() && q in since
      reads this`since
    {
      && |quorum| >= config.f + 1 && vk.viewId % config.n in quorum
      && forall r :: r in quorum ==> r < MASK_BITS && RequestReply(q, vk.logIndex, vk.viewId, r) in since[q]
    }
  }

  /** Whatever this client heard from the leader of `view` that replica had sent
      at some time of its life: the network makes up no replies. */
  ghost predicate HeardFrom(v: Votes, view: nat, life: seq<Leader>)
    requires v.config.Valid()
    reads v
  {
    forall m :: m in v.heard && m.viewId == view && m.replicaIdx == v.config.LeaderOf(view) ==>
      exists k: nat, slot: nat :: SentAt(life, k, view, Reply(v.clientId, m.requestId, slot, m.logIndex, view))
  }

  ghost predicate SentAt(life: seq<Leader>, k: nat, view: nat, r: Reply) {
    k < |life| && life[k].view == view && r in life[k].sent
  }

  /** Behind a commit is a reply the leader sent in the view. */
  lemma LeaderSent(v: Votes, view: nat, logIndex: nat, q: u64, life: seq<Leader>) returns (k: nat, r: Reply)
    requires v.Valid() && (q, VoteKey(logIndex, view)) in v.commits && HeardFrom(v, view, life)
    ensures SentAt(life, k, view, r) && r.logIndex == logIndex && KeyOfReply(r) == Key(v.clientId, q)
  {
    v.LeaderReplied(q, VoteKey(logIndex, view));
    var m := RequestReply(q, logIndex, view, v.config.LeaderOf(view));
    var i: nat, slot: nat :| SentAt(life, i, view, Reply(v.clientId, m.requestId, slot, m.logIndex, view));
    k, r := i, Reply(v.clientId, q, slot, logIndex, view);
  }

  /** In one view two different requests are never both committed at one log
      index, by whichever clients, and whatever the leader did in this view and
      the views before. */
  lemma CommitsDistinct(a: Votes, b: Votes, view: nat, logIndex: nat, q: u64, r: u64, fold: Fold, life: seq<Leader>)
    requires a.Valid() && b.Valid() && IsLife(fold, life) && Unique(life[0])
    requires HeardFrom(a, view, life) && HeardFrom(b, view, life)
    requires (q, VoteKey(logIndex, view)) in a.commits && (r, VoteKey(logIndex, view)) in b.commits
    ensures a.clientId == b.clientId && q == r
  {
    hide HeardFrom, FlightsOk, CommitsOk, IsLife, Unique;
    var j, x := LeaderSent(a, view, logIndex, q, life);
    var k, y := LeaderSent(b, view, logIndex, r, life);
    LifeOneRequest(fold, life, j, k, x, y);
  }

  /** A request committed at log index n is the n-th the leader executed, carried
      by a slot that holds a bus, now and as long as the view lasts: by none that
      the leader closed in the view. */
  lemma CommitCarried(a: Votes, view: nat, logIndex: nat, q: u64, fold: Fold, run: seq<Leader>) returns (j: nat, i: nat)
    requires a.Valid() && IsLeaderRun(fold, run) && InPlace(run[0]) && ClosedOk(run[0])
    requires HeardFrom(a, view, run) && (q, VoteKey(logIndex, view)) in a.commits
    ensures var last := run[|run| - 1];
      && j < |last.executed| && last.executed[j].state.Received? && i < |last.executed[j].requests|
      && |Stream(last.executed[..j])| + i == logIndex && KeyOf(last.executed[j].requests[i]) == Key(a.clientId, q)
      && j !in last.closed
  {
    hide HeardFrom, FlightsOk, CommitsOk, Indexed;
    var n := |run| - 1;
    var k, r := LeaderSent(a, view, logIndex, q, run);
    RunExtends(fold, run, k, n);
    RunPlaced(fold, run, n);
    j, i := StreamSlot(run[n].executed, logIndex);
  }
}
