/** SwiftPaxos's hash log: a doubly linked list of pending commands behind the
    last synced one, with the hash of the whole kept up to date. */
module HashLog {

  datatype CommandId = CommandId(clientId: int, seqNum: int)

  datatype SHash = SHash(bytes: seq<bv8>)

  datatype UpdateEntry = UpdateEntry(hash: SHash, seqnum: int)

  /** The hash of a command on top of a hash, left uninterpreted. */
  type Hasher = (SHash, CommandId) -> SHash

  // ------------------------------------------------------------- the log as a value

  datatype Log = Log(synced: int, syncedHash: SHash, pending: seq<CommandId>, updates: map<CommandId, UpdateEntry>)

  function HashAll(hasher: Hasher, initial: SHash, ids: seq<CommandId>): SHash {
    if ids == [] then initial else hasher(HashAll(hasher, initial, ids[..|ids| - 1]), ids[|ids| - 1])
  }

  /** The command's result is known: it may become the highest synced one. */
  function Synced(l: Log, s: int, h: SHash): Log {
    if s > l.synced then l.(synced := s, syncedHash := h) else l
  }

  function Without(ids: seq<CommandId>, id: CommandId): seq<CommandId> {
    if ids == [] then []
    else Without(ids[..|ids| - 1], id) + (if ids[|ids| - 1] == id then [] else [ids[|ids| - 1]])
  }

  function Appended(l: Log, id: CommandId): Log {
    if id in l.updates then Synced(l.(updates := l.updates - {id}), l.updates[id].seqnum, l.updates[id].hash)
    else l.(pending := l.pending + [id])
  }

  function Updated(l: Log, id: CommandId, s: int, h: SHash): Log {
    if id in l.pending then Synced(l.(pending := Without(l.pending, id)), s, h)
    else l.(updates := l.updates[id := UpdateEntry(h, s)])
  }

  lemma {:induction false} WithoutAbsent(ids: seq<CommandId>, id: CommandId)
    requires id !in ids
    ensures Without(ids, id) == ids
  {
    if ids != [] {
      WithoutAbsent(ids[..|ids| - 1], id);
    }
  }

  /** For a new command it does not matter whether it is appended or updated first. */
  lemma AppendUpdateCommute(l: Log, id: CommandId, s: int, h: SHash)
    requires id !in l.pending && id !in l.updates
    ensures Updated(Appended(l, id), id, s, h) == Appended(Updated(l, id, s, h), id)
  {
    hide Without, Synced;
    WithoutLast(l.pending, id);
    assert l.updates[id := UpdateEntry(h, s)] - {id} == l.updates;
  }

  lemma WithoutLast(ids: seq<CommandId>, id: CommandId)
    requires id !in ids
    ensures id in ids + [id] && Without(ids + [id], id) == ids
  {
    WithoutAbsent(ids, id);
    assert (ids + [id])[..|ids|] == ids && (ids + [id])[|ids|] == id;
  }

  ghost predicate Unique(ids: seq<CommandId>) {
    forall i, j :: 0 <= i < j < |ids| ==> ids[i] != ids[j]
  }

  /** The list stays free of repetitions exactly if no pending command is appended
      again; nothing in Append stops a caller from doing that. */
  lemma UniqueIff(l: Log, id: CommandId)
    requires Unique(l.pending)
    ensures Unique(Appended(l, id).pending) <==> id !in l.pending || id in l.updates
  {
    if id in l.pending && id !in l.updates {
      var i :| 0 <= i < |l.pending| && l.pending[i] == id;
      assert Appended(l, id).pending[i] == Appended(l, id).pending[|l.pending|];
    }
  }

  /** Such a caller: the same command twice in a row, on an empty log. */
  lemma AppendedTwice(h: SHash, id: CommandId)
    ensures var l := Log(-1, h, [], map[]);
      Appended(Appended(l, id), id).pending == [id, id] && !Unique(Appended(Appended(l, id), id).pending)
  {
    var l := Appended(Log(-1, h, [], map[]), id);
    UniqueIff(l, id);
  }

  lemma SyncedGrows(l: Log, id: CommandId, s: int, h: SHash)
    ensures Appended(l, id).synced >= l.synced && Updated(l, id, s, h).synced >= l.synced
  {
  }

  /** Taking out the element at k of a list without repetitions. */
  lemma {:induction false} WithoutAt(ids: seq<CommandId>, k: nat)
    requires k < |ids| && forall i, j :: 0 <= i < j < |ids| ==> ids[i] != ids[j]
    ensures Without(ids, ids[k]) == ids[..k] + ids[k + 1..]
  {
    var n := |ids| - 1;
    var front := ids[..n];
    if k == n {
      WithoutAbsent(front, ids[k]);
    } else {
      WithoutAt(front, k);
      assert front[..k] == ids[..k] && ids[k + 1..] == front[k + 1..] + [ids[n]];
    }
  }

  // ------------------------------------------------------------- the linked list

  class HashNode {
    const id: CommandId
    var next: HashNode?
    var previous: HashNode?

    constructor (id: CommandId)
      ensures this.id == id && next == null && previous == null
    {
      this.id, next, previous := id, null, null;
    }
  }

  /** The node at i, if there is one. */
  ghost function NodeAt(list: seq<HashNode>, i: int): HashNode? {
    if 0 <= i < |list| then list[i] else null
  }

  /** The nodes are linked in this order, both ways, and end on both sides. */
  ghost predicate Linked(list: seq<HashNode>)
    reads set n | n in list
  {
    forall i :: 0 <= i < |list| ==> LinkedAt(list, i)
  }

  ghost predicate LinkedAt(list: seq<HashNode>, i: int)
    requires 0 <= i < |list|
    reads set n | n in list
  {
    list[i].next == NodeAt(list, i + 1) && list[i].previous == NodeAt(list, i - 1)
  }

  ghost predicate DistinctIds(list: seq<HashNode>) {
    forall i, j :: 0 <= i < j < |list| ==> list[i].id != list[j].id
  }

  ghost function IdsOf(list: seq<HashNode>): (ids: seq<CommandId>)
    ensures |ids| == |list| && forall i :: 0 <= i < |list| ==> ids[i] == list[i].id
  {
    seq(|list|, i requires 0 <= i < |list| => list[i].id)
  }

  class HashLog {
    const hasher: Hasher
    var synced: int
    var syncedHash: SHash
    var pendingHead: HashNode?
    var pendingTail: HashNode?
    var hash: SHash
    var nodes: map<CommandId, HashNode>
    var pendingUpd: map<CommandId, UpdateEntry>
    ghost var list: seq<HashNode>

    /** The tail is the last node; a single node may be head alone. */
    ghost predicate Ends()
      reads this`pendingHead, this`pendingTail, this`list
    {
      && pendingHead == (if |list| > 0 then list[0] else null)
      && (|list| == 0 ==> pendingTail == null)
      && (|list| == 1 ==> pendingTail == null || pendingTail == list[0])
      && (|list| > 1 ==> pendingTail == list[|list| - 1])
    }

    ghost predicate Indexed()
      reads this`nodes, this`list
    {
      && DistinctIds(list)
      && (forall i :: 0 <= i < |list| ==> list[i].id in nodes && nodes[list[i].id] == list[i])
      && (forall id :: id in nodes ==> nodes[id] in list && nodes[id].id == id)
    }

    ghost predicate Valid()
      reads this, set n | n in list
    {
      && Linked(list) && Ends() && Indexed()
      && hash == HashAll(hasher, syncedHash, IdsOf(list))
      && nodes.Keys !! pendingUpd.Keys
    }

    ghost function State(): Log
      reads this`synced, this`syncedHash, this`list, this`pendingUpd
    {
      Log(synced, syncedHash, IdsOf(list), pendingUpd)
    }

    lemma InList(id: CommandId)
      requires Indexed()
      ensures id in nodes <==> id in IdsOf(list)
    {
      if id in nodes {
        var i :| 0 <= i < |list| && list[i] == nodes[id];
        assert IdsOf(list)[i] == id;
      }
    }

    lemma KnownNode(id: CommandId)
      requires Indexed()
      ensures id in nodes ==> nodes[id] in list && nodes[id].id == id
    {
    }

    constructor (hasher: Hasher, zero: SHash)
      ensures Valid() && State() == Log(-1, zero, [], map[]) && list == []
    {
      this.hasher := hasher;
      synced, syncedHash, hash := -1, zero, zero;
      pendingHead, pendingTail, nodes, pendingUpd, list := null, null, map[], map[], [];
    }

    /** Append, for a command that is not pending. */
    method Append(cmdId: CommandId) returns (h: SHash)
      requires Valid() && cmdId !in nodes
      modifies this, set n | n in list
      ensures Valid() && State() == Appended(old(State()), cmdId)
      ensures h == if cmdId in old(pendingUpd) then old(pendingUpd)[cmdId].hash else hash
      ensures cmdId in old(pendingUpd) ==> var upd := old(pendingUpd)[cmdId];
        && synced == (if upd.seqnum > old(synced) then upd.seqnum else old(synced))
        && syncedHash == (if upd.seqnum > old(synced) then upd.hash else old(syncedHash))
      ensures cmdId !in old(pendingUpd) ==> IdsOf(list) == IdsOf(old(list)) + [cmdId] && synced == old(synced) && hash == hasher(old(hash), cmdId)
      ensures forall n :: n in list && n !in old(list) ==> fresh(n)
    {
      InList(cmdId);
      if cmdId in pendingUpd {
        var upd := pendingUpd[cmdId];
        pendingUpd := pendingUpd - {cmdId};
        UpdateKnown(cmdId, upd.seqnum, upd.hash, false);
        return upd.hash;
      }
      var node := new HashNode(cmdId);
      LinkLast(node);
      return hash;
    }

    /** The node goes to the end of the list. */
    method LinkLast(node: HashNode)
      requires Valid() && node.id !in nodes && node.id !in pendingUpd && node !in list && node.next == null && node.previous == null
      modifies this, node, set n | n in list
      ensures Valid() && list == old(list) + [node] && synced == old(synced) && syncedHash == old(syncedHash) && pendingUpd == old(pendingUpd)
    {
      hide HashAll, IdsOf;
      HashAppend(hasher, syncedHash, list, node);
      hash := hasher(hash, node.id);
      nodes := nodes[node.id := node];
      Attach(node);
    }

    static lemma HashAppend(hasher: Hasher, initial: SHash, list: seq<HashNode>, node: HashNode)
      ensures HashAll(hasher, initial, IdsOf(list + [node])) == hasher(HashAll(hasher, initial, IdsOf(list)), node.id)
    {
      assert IdsOf(list + [node])[..|list|] == IdsOf(list);
    }

    method Attach(node: HashNode)
      requires Linked(list) && Ends() && node !in list && node.next == null && node.previous == null
      requires forall i, j :: 0 <= i < j < |list| ==> list[i] != list[j]
      modifies this`pendingHead, this`pendingTail, this`list, node, set n | n in list
      ensures Linked(list) && Ends() && list == old(list) + [node]
    {
      ghost var was := list;
      if pendingHead == null {
        pendingHead := node;
      } else {
        if pendingTail == null {
          pendingTail := node;
          node.previous := pendingHead;
          pendingHead.next := node;
        } else {
          pendingTail.next := node;
          node.previous := pendingTail;
          pendingTail := node;
        }
      }
      list := list + [node];
      forall i | 0 <= i < |list| ensures LinkedAt(list, i) {
        assert i < |was| ==> old(LinkedAt(list, i));
      }
    }

    /** update. */
    method UpdateKnown(cmdId: CommandId, s: int, h: SHash, save: bool)
      requires Valid() && (save || (cmdId !in nodes && cmdId !in pendingUpd))
      modifies this, set n | n in list
      ensures Valid()
      ensures cmdId in old(nodes) || !save ==> synced == (if s > old(synced) then s else old(synced))
      ensures cmdId in old(nodes) || !save ==> syncedHash == (if s > old(synced) then h else old(syncedHash))
      ensures save ==> State() == Updated(old(State()), cmdId, s, h)
      ensures !save ==> State() == Synced(old(State()), s, h)
      ensures forall n :: n in list ==> n in old(list)
    {
      hide Linked, Ends, HashAll, Without, DistinctIds, IdsOf, Indexed;
      InList(cmdId);
      KnownNode(cmdId);
      var known := cmdId in nodes;
      if !known && save {
        pendingUpd := pendingUpd[cmdId := UpdateEntry(h, s)];
        return;
      }
      if known {
        Unlink(nodes[cmdId]);
      }
      if s <= synced && !known {
        return;
      }
      if s > synced {
        synced := s;
        syncedHash := h;
      }
      Rehash();
    }

    /** The node leaves the list. */
    method Unlink(n: HashNode)
      requires Linked(list) && Ends() && Indexed() && n in list && nodes.Keys !! pendingUpd.Keys
      modifies this`pendingHead, this`pendingTail, this`nodes, this`list, set x | x in list
      ensures Linked(list) && Ends() && Indexed() && nodes.Keys !! pendingUpd.Keys
      ensures IdsOf(list) == Without(IdsOf(old(list)), n.id)
      ensures forall x :: x in list ==> x in old(list)
    {
      hide Ends, Linked, IdsOf, Without;
      ghost var k :| 0 <= k < |list| && list[k] == n;
      CutIds(list, k);
      CutIndexed(list, k, nodes);
      Detach(n, k);
      nodes := nodes - {n.id};
    }

    static lemma CutIds(list: seq<HashNode>, k: nat)
      requires k < |list| && DistinctIds(list)
      ensures IdsOf(list[..k] + list[k + 1..]) == Without(IdsOf(list), list[k].id)
      ensures forall x :: x in list[..k] + list[k + 1..] ==> x in list
      ensures forall i, j :: 0 <= i < j < |list| ==> list[i] != list[j]
    {
      WithoutAt(IdsOf(list), k);
      assert IdsOf(list[..k] + list[k + 1..]) == IdsOf(list)[..k] + IdsOf(list)[k + 1..];
    }

    static lemma CutIndexed(list: seq<HashNode>, k: nat, nodes: map<CommandId, HashNode>)
      requires k < |list| && DistinctIds(list)
      requires forall i :: 0 <= i < |list| ==> list[i].id in nodes && nodes[list[i].id] == list[i]
      requires forall id :: id in nodes ==> nodes[id] in list && nodes[id].id == id
      ensures var rest, left := list[..k] + list[k + 1..], nodes - {list[k].id};
        && DistinctIds(rest) && (forall i :: 0 <= i < |rest| ==> rest[i].id in left && left[rest[i].id] == rest[i])
        && (forall id :: id in left ==> left[id] in rest && left[id].id == id)
    {
      var rest, left := list[..k] + list[k + 1..], nodes - {list[k].id};
      forall id | id in left ensures left[id] in rest {
        var i :| 0 <= i < |list| && list[i] == nodes[id];
        assert if i < k then rest[i] == list[i] else rest[i - 1] == list[i];
      }
    }

    /** The pointers of its neighbours and the ends of the list close over it. */
    method Detach(n: HashNode, ghost k: nat)
      requires Linked(list) && Ends() && k < |list| && list[k] == n
      requires forall i, j :: 0 <= i < j < |list| ==> list[i] != list[j]
      modifies this`pendingHead, this`pendingTail, this`list, set x | x in list
      ensures list == old(list)[..k] + old(list)[k + 1..]
      ensures Linked(list) && Ends()
    {
      LinksOf(list, k);
      var previous := n.previous;
      var next := n.next;
      if previous != null {
        previous.next := next;
      }
      if next != null {
        next.previous := previous;
      }
      if pendingHead == n {
        pendingHead := next;
      }
      if pendingTail == n {
        pendingTail := previous;
      }
      n.previous := null;
      n.next := null;
      list := list[..k] + list[k + 1..];
      forall i | 0 <= i < |list| ensures LinkedAt(list, i) {
        assert old(LinkedAt(list, if i < k then i else i + 1));
      }
    }

    static lemma LinksOf(list: seq<HashNode>, k: nat)
      requires Linked(list) && k < |list|
      ensures list[k].next == NodeAt(list, k + 1) && list[k].previous == NodeAt(list, k - 1)
    {
      assert LinkedAt(list, k);
    }

    /** The loop at the end of update: the hash of the pending list from scratch. */
    method Rehash()
      requires Linked(list) && Ends()
      modifies this`hash
      ensures hash == HashAll(hasher, syncedHash, IdsOf(list))
    {
      var initial := syncedHash;
      var n := pendingHead;
      ghost var i := 0;
      while n != null
        invariant 0 <= i <= |list| && n == (if i < |list| then list[i] else null)
        invariant initial == HashAll(hasher, syncedHash, IdsOf(list)[..i])
        decreases |list| - i
      {
        assert IdsOf(list)[..i + 1][..i] == IdsOf(list)[..i] && LinkedAt(list, i);
        initial := hasher(initial, n.id);
        n := n.next;
        i := i + 1;
      }
      assert IdsOf(list)[..|list|] == IdsOf(list);
      hash := initial;
    }

    /** Update. */
    method Update(cmdId: CommandId, s: int, h: SHash)
      requires Valid()
      modifies this, set n | n in list
      ensures Valid() && State() == Updated(old(State()), cmdId, s, h)
      ensures synced == (if cmdId in old(nodes) && s > old(synced) then s else old(synced))
      ensures syncedHash == (if cmdId in old(nodes) && s > old(synced) then h else old(syncedHash))
      ensures cmdId !in old(nodes) ==> pendingUpd == old(pendingUpd)[cmdId := UpdateEntry(h, s)] && IdsOf(list) == IdsOf(old(list))
      ensures forall n :: n in list ==> n in old(list)
    {
      hide Linked, Ends, HashAll, Without, DistinctIds, IdsOf, Indexed;
      InList(cmdId);
      UpdateKnown(cmdId, s, h, true);
    }
  }
}
