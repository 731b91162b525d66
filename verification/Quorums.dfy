/** SwiftPaxos's quorum enumeration: every leader's quorums, numbered without gap
    or repetition, and the ballots that name them. */
module Quorums {

  type Quorum = set<nat>

  /** A leader's quorums by id. */
  type QuorumsOfLeader = map<nat, Quorum>

  /** The ids are 0, 1, ... without a gap. */
  ghost predicate Contiguous(m: QuorumsOfLeader) {
    forall id: nat :: id in m <==> id < |m|
  }

  ghost predicate DistinctSets(m: QuorumsOfLeader) {
    forall i, j :: i in m && j in m && m[i] == m[j] ==> i == j
  }

  ghost predicate Listed(m: QuorumsOfLeader, s: Quorum) {
    exists id :: id in m && m[id] == s
  }

  /** s is q and `size` more replicas from [i, n). */
  predicate Extends(s: Quorum, q: Quorum, i: nat, n: nat, size: int) {
    q <= s && |s| == |q| + size && forall x :: x in s && x !in q ==> i <= x < n
  }

  lemma Same(s: Quorum, q: Quorum)
    requires q <= s && |s| == |q|
    ensures s == q
  {
    assert s == q + (s - q);
  }

  /** An extension has i in it or it does not. */
  lemma ExtendsSplit(s: Quorum, q: Quorum, i: nat, n: nat, size: int)
    requires i < n && i !in q
    ensures Extends(s, q, i, n, size) <==> Extends(s, q, i + 1, n, size) || Extends(s, q + {i}, i + 1, n, size - 1)
    ensures !(Extends(s, q, i + 1, n, size) && Extends(s, q + {i}, i + 1, n, size - 1))
  {
    assert |q + {i}| == |q| + 1;
    if Extends(s, q, i, n, size) && i in s {
      assert q + {i} <= s;
    }
  }

  lemma AllSplit(q: Quorum, i: nat, k: nat, n: nat, size: int, q': Quorum, rest: int)
    requires i < n && i !in q && k == i + 1 && q' == q + {i} && rest == size - 1
    ensures forall s :: Extends(s, q, i, n, size) <==> Extends(s, q, k, n, size) || Extends(s, q', k, n, rest)
    ensures forall s :: Extends(s, q', k, n, rest) ==> !Extends(s, q, k, n, size)
  {
    hide Extends;
    forall s ensures Extends(s, q, i, n, size) <==> Extends(s, q, k, n, size) || Extends(s, q', k, n, rest) {
      ExtendsSplit(s, q, i, n, size);
    }
    forall s | Extends(s, q', k, n, rest) ensures !Extends(s, q, k, n, size) {
      ExtendsSplit(s, q, i, n, size);
    }
  }

  lemma Later(q: Quorum, i: nat, j: nat, n: nat, size: int)
    requires i <= j
    ensures forall s :: Extends(s, q, j, n, size) ==> Extends(s, q, i, n, size)
  {
  }

  lemma NoNegative(q: Quorum, i: nat, n: nat, size: int)
    requires size < 0
    ensures forall s :: !Extends(s, q, i, n, size)
  {
    forall s ensures !Extends(s, q, i, n, size) {
      assert q <= s ==> s == q + (s - q);
    }
  }

  lemma AllNothing(q: Quorum, n: nat, size: int)
    ensures forall s :: Extends(s, q, n, n, size) ==> size == 0 && s == q
  {
    forall s | Extends(s, q, n, n, size) ensures size == 0 && s == q {
      ExtendsNothing(s, q, n, n, size);
    }
  }

  lemma ExtendsNothing(s: Quorum, q: Quorum, i: nat, n: nat, size: int)
    requires n <= i
    ensures Extends(s, q, i, n, size) <==> size == 0 && s == q
  {
    if Extends(s, q, i, n, size) {
      assert s == q;
    }
  }

  class QuorumSystem {
    const n: nat
    var q: Quorum
    var qs: map<nat, QuorumsOfLeader>
    ghost var emitted: set<Quorum>

    /** Every leader's list holds exactly the emitted sets that contain it. */
    ghost predicate Valid()
      reads this`qs, this`emitted
    {
      && (forall r: nat :: r in qs <==> r < n)
      && forall r :: r in qs ==> ListOk(qs[r], r, emitted)
    }

    static ghost predicate ListOk(m: QuorumsOfLeader, r: nat, emitted: set<Quorum>) {
      && Contiguous(m) && DistinctSets(m)
      && forall s :: Listed(m, s) <==> s in emitted && r in s
    }

    static lemma AppendContiguous(m: QuorumsOfLeader, s: Quorum)
      requires Contiguous(m)
      ensures |m| !in m && Contiguous(m[|m| := s]) && |m[|m| := s]| == |m| + 1
    {
      var k := |m|;
      assert k !in m;
      AppendSize(m, k, s);
      var m' := m[k := s];
      forall id: nat ensures id in m' <==> id < k + 1 {
        assert id in m <==> id < k;
      }
    }

    static lemma AppendSize(m: QuorumsOfLeader, k: nat, s: Quorum)
      requires k !in m
      ensures |m[k := s]| == |m| + 1
    {
      assert m[k := s].Keys == m.Keys + {k};
      assert |m| == |m.Keys| && |m[k := s]| == |m[k := s].Keys|;
    }

    static lemma AppendListed(m: QuorumsOfLeader, id: nat, s: Quorum, t: Quorum)
      requires id !in m
      ensures Listed(m[id := s], t) <==> Listed(m, t) || t == s
    {
      var m' := m[id := s];
      if Listed(m, t) {
        var i :| i in m && m[i] == t;
        assert i in m' && m'[i] == t;
      }
      assert m'[id] == s;
    }

    static lemma AppendDistinct(m: QuorumsOfLeader, id: nat, s: Quorum)
      requires DistinctSets(m) && id !in m && !Listed(m, s)
      ensures DistinctSets(m[id := s])
    {
      forall i | i in m ensures Listed(m, m[i]) {}
    }

    static lemma ListGrows(m: QuorumsOfLeader, r: nat, emitted: set<Quorum>, s: Quorum)
      requires ListOk(m, r, emitted) && s !in emitted
      ensures r in s ==> ListOk(m[|m| := s], r, emitted + {s})
      ensures r !in s ==> ListOk(m, r, emitted + {s})
    {
      hide Contiguous, DistinctSets, Listed;
      AppendContiguous(m, s);
      AppendDistinct(m, |m|, s);
      forall t ensures Listed(m[|m| := s], t) <==> Listed(m, t) || t == s {
        AppendListed(m, |m|, s, t);
      }
    }

    /** The leaf of the recursion: the set built so far goes to all its members. */
    method Emit()
      requires Valid() && q !in emitted
      modifies this`qs, this`emitted
      ensures Valid() && emitted == old(emitted) + {q}
    {
      hide ListOk;
      for repId := 0 to n
        invariant emitted == old(emitted) && forall r: nat :: r in qs <==> r < n
        invariant forall r: nat :: r < n ==> r in qs && ListOk(qs[r], r, if r < repId then emitted + {q} else emitted)
      {
        var length := |qs[repId]|;
        ListGrows(qs[repId], repId, emitted, q);
        if repId in q {
          qs := qs[repId := qs[repId][length := q]];
        }
      }
      emitted := emitted + {q};
    }

    /** subsets: with `size` replicas still to choose from [i, n), every way to
        choose them is emitted once. */
    method Subsets(size: int, i: nat)
      requires Valid() && i <= n && (forall x :: x in q ==> x < i)
      requires forall s :: Extends(s, q, i, n, size) ==> s !in emitted
      modifies this
      ensures Valid() && q == old(q)
      ensures forall s :: s in emitted <==> s in old(emitted) || Extends(s, q, i, n, size)
      decreases n - i
    {
      hide Extends, ListOk;
      SelfExtends(q, i, n);
      if size == 0 {
        Emit();
      }
      ghost var base := emitted;
      for j := i to n
        invariant Valid() && q == old(q)
        invariant forall s :: s in emitted <==> s in base || (Extends(s, q, i, n, size) && !Extends(s, q, j, n, size))
      {
        ghost var before := q;
        AllSplit(q, j, j + 1, n, size, q + {j}, size - 1);
        Later(q, i, j, n, size);
        if size == 0 {
          NoNegative(q + {j}, j + 1, n, size - 1);
        }
        q := q + {j};
        Subsets(size - 1, j + 1);
        q := q - {j};
        assert q == before;
      }
      AllNothing(q, n, size);
    }

    static lemma SelfExtends(q: Quorum, i: nat, n: nat)
      ensures Extends(q, q, i, n, 0)
      ensures forall s :: Extends(s, q, i, n, 0) ==> s == q
    {
      forall s | Extends(s, q, i, n, 0) ensures s == q {
        Same(s, q);
      }
    }

    constructor (quorumSize: nat, n: nat)
      ensures this.n == n && Valid() && q == {}
      ensures forall s :: s in emitted <==> Extends(s, {}, 0, n, quorumSize)
    {
      this.n := n;
      q, emitted := {}, {};
      qs := map[];
      new;
      hide ListOk, Extends;
      for id := 0 to n
        invariant q == {} && emitted == {}
        invariant forall r: nat :: r in qs <==> r < id
        invariant forall r :: r in qs ==> ListOk(qs[r], r, {})
      {
        NoneListed(id);
        qs := qs[id := map[]];
      }
      Subsets(quorumSize, 0);
    }

    static lemma NoneListed(r: nat)
      ensures ListOk(map[], r, {})
    {
      var m: QuorumsOfLeader := map[];
      assert |m| == |m.Keys| == 0;
    }

    // ----------------------------------------------------------- ballots

    function LeaderOf(ballot: nat): nat
      requires n > 0
    {
      ballot % n
    }

    /** AQ: the quorum a ballot names. */
    function AQ(ballot: nat): Quorum
      requires Valid() && n > 0 && |qs[LeaderOf(ballot)]| > 0
      reads this`qs, this`emitted
    {
      var lqs := qs[LeaderOf(ballot)];
      AqId(qs, n, ballot);
      lqs[(ballot / n) % |lqs|]
    }

    lemma AqId(qs: map<nat, QuorumsOfLeader>, n: nat, ballot: nat)
      ensures n > 0 && ballot % n in qs && |qs[ballot % n]| > 0 && Contiguous(qs[ballot % n]) ==>
        (ballot / n) % |qs[ballot % n]| in qs[ballot % n]
    {
    }

    /** BallotOf: a ballot of the leader that names the quorum, or none. */
    method BallotOf(leader: nat, s: Quorum) returns (ballot: int)
      requires Valid() && leader < n
      ensures ballot >= 0 <==> s in emitted && leader in s
      ensures ballot >= 0 ==> LeaderOf(ballot) == leader && |qs[leader]| > 0 && AQ(ballot) == s
      ensures ballot >= 0 ==> ballot % n == leader && ballot / n in qs[leader] && qs[leader][ballot / n] == s
      ensures ballot < 0 ==> ballot == -1
    {
      var rest := qs[leader].Keys;
      while rest != {}
        invariant rest <= qs[leader].Keys
        invariant forall id :: id in qs[leader] && id !in rest ==> qs[leader][id] != s
      {
        var qid: nat :| qid in rest;
        rest := rest - {qid};
        if qs[leader][qid] == s {
          assert Listed(qs[leader], s);
          BallotParts(qid, n, leader);
          SmallMod(qid, |qs[leader]|);
          return qid * n + leader;
        }
      }
      assert !Listed(qs[leader], s);
      return -1;
    }

    static lemma BallotParts(qid: nat, n: nat, leader: nat)
      requires leader < n
      ensures (qid * n + leader) % n == leader && (qid * n + leader) / n == qid
      ensures 0 <= qid * n + leader
    {
      var b := qid * n + leader;
      var d := b / n - qid;
      assert b == (b / n) * n + b % n;
      assert d * n == leader - b % n;
      assert d >= 1 ==> d * n >= n;
      assert d <= -1 ==> d * n + n <= 0;
    }

    static lemma SmallMod(x: nat, m: nat)
      requires x < m
      ensures x % m == x
    {
    }

    /** SameHigher: a ballot of the same leader and quorum, and, if there are at
        least two replicas, a higher one than `higherThan` exactly if that is at
        least the number of the leader's quorums or already below `sameAs`. */
    method SameHigher(sameAs: nat, higherThan: nat) returns (ballot: nat)
      requires Valid() && n > 0 && |qs[sameAs % n]| > 0
      ensures LeaderOf(ballot) == LeaderOf(sameAs) && |qs[LeaderOf(ballot)]| > 0 && AQ(ballot) == AQ(sameAs)
      ensures n >= 2 ==> (ballot > higherThan <==> higherThan >= |qs[sameAs % n]| || sameAs > higherThan)
    {
      hide ListOk, Contiguous, AQ, Shift;
      var l := sameAs % n;
      var count := |qs[l]|;
      var k := higherThan / count;
      SameBallot(sameAs, k);
      HigherIff(sameAs, higherThan, count, n);
      ballot := sameAs + Shift(k, count, n);
    }

    /** How far SameHigher moves a ballot. */
    static function Shift(k: nat, count: nat, n: nat): int {
      k * count * n
    }

    lemma SameBallot(sameAs: nat, k: nat)
      requires Valid() && n > 0 && |qs[sameAs % n]| > 0
      ensures var ballot := sameAs + Shift(k, |qs[sameAs % n]|, n);
        ballot >= 0 && LeaderOf(ballot) == LeaderOf(sameAs) && |qs[LeaderOf(ballot)]| > 0 && AQ(ballot) == AQ(sameAs)
    {
      hide Shift, ListOk;
      ShiftParts(sameAs, k, |qs[sameAs % n]|, n);
    }

    static lemma ShiftParts(b: nat, k: nat, count: nat, n: nat)
      requires n > 0 && count > 0
      ensures var c := b + Shift(k, count, n);
        c >= 0 && c % n == b % n && (c / n) % count == (b / n) % count
    {
      NonNegative(k, count);
      SameParts(b, k * count, n);
      ModShift(b / n, k, count);
    }

    static lemma NonNegative(k: nat, m: nat)
      ensures k * m >= 0
    {
    }

    static lemma SameParts(b: nat, m: nat, n: nat)
      requires n > 0
      ensures (b + m * n) % n == b % n && (b + m * n) / n == b / n + m
      ensures m * n >= 0
    {
      assert b == (b / n) * n + b % n;
      assert (b / n + m) * n == (b / n) * n + m * n;
      BallotParts(b / n + m, n, b % n);
    }

    static lemma ModShift(x: nat, k: nat, m: nat)
      requires m > 0
      ensures (x + k * m) % m == x % m
    {
      SameParts(x, k, m);
    }

    static lemma HigherIff(sameAs: nat, higherThan: nat, count: nat, n: nat)
      requires count > 0 && n > 0
      ensures n >= 2 ==> (sameAs + Shift(higherThan / count, count, n) > higherThan <==> higherThan >= count || sameAs > higherThan)
    {
      var k := higherThan / count;
      assert higherThan == k * count + higherThan % count;
      if k >= 1 && n >= 2 {
        assert k * count >= count;
        assert k * count * n >= k * count * 2;
      } else if k <= 0 {
        assert k * count * n == 0;
      }
    }
  }
}
