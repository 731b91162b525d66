/** What executing EPaxos's batches does to the key-value store. */
module BatchStore {
  import opened DependencyGraph

  function RunCommands(store: map<int, seq<bv8>>, cmds: seq<Command>): map<int, seq<bv8>> {
    if cmds == [] then store
    else
      var before, c := RunCommands(store, cmds[..|cmds| - 1]), cmds[|cmds| - 1];
      if c.op.Put? then before[c.key := c.value] else before
  }

  function RunBatch(insts: map<Id, Instance>, store: map<int, seq<bv8>>, list: seq<Id>): map<int, seq<bv8>> {
    if list == [] then store
    else
      var before, x := RunBatch(insts, store, list[..|list| - 1]), list[|list| - 1];
      if x in insts && insts[x].cmds.Some? then RunCommands(before, insts[x].cmds.list) else before
  }

  function RunBatches(insts: map<Id, Instance>, store: map<int, seq<bv8>>, batches: seq<seq<Id>>): map<int, seq<bv8>> {
    if batches == [] then store
    else RunBatch(insts, RunBatches(insts, store, batches[..|batches| - 1]), batches[|batches| - 1])
  }

  /** The c-th command puts v at k. */
  predicate Puts(cmds: seq<Command>, c: nat, k: int, v: seq<bv8>) {
    c < |cmds| && cmds[c].op.Put? && cmds[c].key == k && cmds[c].value == v
  }

  /** ... and no later one puts anything there. */
  ghost predicate LastPut(cmds: seq<Command>, c: nat, k: int, v: seq<bv8>) {
    Puts(cmds, c, k, v) && NoPut(cmds, c + 1, k)
  }

  ghost predicate NoPut(cmds: seq<Command>, from: nat, k: int) {
    forall c :: from <= c < |cmds| ==> !(cmds[c].op.Put? && cmds[c].key == k)
  }

  predicate HasCommands(insts: map<Id, Instance>, x: Id) {
    x in insts && insts[x].cmds.Some?
  }

  ghost predicate LastWrite(insts: map<Id, Instance>, x: Id, c: nat, k: int, v: seq<bv8>) {
    HasCommands(insts, x) && LastPut(insts[x].cmds.list, c, k, v)
  }

  ghost predicate Silent(insts: map<Id, Instance>, x: Id, k: int) {
    HasCommands(insts, x) ==> NoPut(insts[x].cmds.list, 0, k)
  }

  /** None of the instances from position i on writes k. */
  ghost predicate AllSilent(insts: map<Id, Instance>, list: seq<Id>, from: nat, k: int) {
    forall i :: from <= i < |list| ==> Silent(insts, list[i], k)
  }

  predicate KeepsValue(before: map<int, seq<bv8>>, after: map<int, seq<bv8>>, k: int) {
    (k in after <==> k in before) && (k in after ==> after[k] == before[k])
  }

  predicate HoldsValue(store: map<int, seq<bv8>>, k: int, v: seq<bv8>) {
    k in store && store[k] == v
  }

  ghost predicate NeverWritten(insts: map<Id, Instance>, batches: seq<seq<Id>>, k: int) {
    forall b :: 0 <= b < |batches| ==> AllSilent(insts, batches[b], 0, k)
  }

  /** The last Put to k: the last command of the last instance of the last batch
      that writes k. */
  ghost predicate LastOfAll(insts: map<Id, Instance>, batches: seq<seq<Id>>, k: int, b: nat, i: nat, c: nat, v: seq<bv8>) {
    && b < |batches| && i < |batches[b]| && LastWrite(insts, batches[b][i], c, k, v)
    && AllSilent(insts, batches[b], i + 1, k)
    && forall d :: b < d < |batches| ==> AllSilent(insts, batches[d], 0, k)
  }

  /** The value of k is what the last Put to it wrote, or what it was before. */
  ghost predicate LastWriteHeld(insts: map<Id, Instance>, before: map<int, seq<bv8>>, after: map<int, seq<bv8>>, batches: seq<seq<Id>>, k: int) {
    && (NeverWritten(insts, batches, k) ==> KeepsValue(before, after, k))
    && forall b: nat, i: nat, c: nat, v :: LastOfAll(insts, batches, k, b, i, c, v) ==> HoldsValue(after, k, v)
  }

  ghost predicate LastWritesHeld(insts: map<Id, Instance>, before: map<int, seq<bv8>>, after: map<int, seq<bv8>>, batches: seq<seq<Id>>) {
    forall k :: LastWriteHeld(insts, before, after, batches, k)
  }

  /** The value of k is what the last of the commands to write it wrote. */
  ghost predicate LastPutHeld(before: map<int, seq<bv8>>, after: map<int, seq<bv8>>, cmds: seq<Command>, k: int) {
    && (NoPut(cmds, 0, k) ==> KeepsValue(before, after, k))
    && forall c: nat, v :: LastPut(cmds, c, k, v) ==> HoldsValue(after, k, v)
  }

  lemma {:induction false} CommandsWrite(store: map<int, seq<bv8>>, cmds: seq<Command>, k: int)
    ensures LastPutHeld(store, RunCommands(store, cmds), cmds, k)
  {
    if cmds != [] {
      var n := |cmds| - 1;
      var front := cmds[..n];
      CommandsWrite(store, front, k);
      forall c: nat, v | LastPut(cmds, c, k, v) ensures HoldsValue(RunCommands(store, cmds), k, v) {
        if c < n {
          assert LastPut(front, c, k, v);
        }
      }
    }
  }

  lemma {:induction false} BatchWrites(insts: map<Id, Instance>, store: map<int, seq<bv8>>, list: seq<Id>, k: int)
    ensures AllSilent(insts, list, 0, k) ==> KeepsValue(store, RunBatch(insts, store, list), k)
    ensures forall i: nat, c: nat, v :: i < |list| && LastWrite(insts, list[i], c, k, v) && AllSilent(insts, list, i + 1, k) ==>
      HoldsValue(RunBatch(insts, store, list), k, v)
  {
    hide LastPut, NoPut, RunCommands;
    if list != [] {
      var n := |list| - 1;
      var front, x := list[..n], list[n];
      BatchWrites(insts, store, front, k);
      if HasCommands(insts, x) {
        CommandsWrite(RunBatch(insts, store, front), insts[x].cmds.list, k);
      }
      forall i: nat, c: nat, v | i < |list| && LastWrite(insts, list[i], c, k, v) && AllSilent(insts, list, i + 1, k)
        ensures HoldsValue(RunBatch(insts, store, list), k, v)
      {
        if i < n {
          assert front[i] == list[i] && AllSilent(insts, front, i + 1, k);
        }
      }
    }
  }

  lemma {:induction false} BatchesWrite(insts: map<Id, Instance>, store: map<int, seq<bv8>>, batches: seq<seq<Id>>, k: int)
    ensures LastWriteHeld(insts, store, RunBatches(insts, store, batches), batches, k)
  {
    hide LastWrite, AllSilent, RunBatch;
    if batches != [] {
      var n := |batches| - 1;
      var front := batches[..n];
      BatchesWrite(insts, store, front, k);
      BatchWrites(insts, RunBatches(insts, store, front), batches[n], k);
      forall b: nat, i: nat, c: nat, v | LastOfAll(insts, batches, k, b, i, c, v)
        ensures HoldsValue(RunBatches(insts, store, batches), k, v)
      {
        if b < n {
          assert front[b] == batches[b] && LastOfAll(insts, front, k, b, i, c, v);
        }
      }
    }
  }

  /** Every key written holds the value of the Put that comes last in the order
      of batches, instances and commands. */
  lemma LastWritesWin(insts: map<Id, Instance>, store: map<int, seq<bv8>>, batches: seq<seq<Id>>)
    ensures LastWritesHeld(insts, store, RunBatches(insts, store, batches), batches)
  {
    forall k ensures LastWriteHeld(insts, store, RunBatches(insts, store, batches), batches, k) {
      BatchesWrite(insts, store, batches, k);
    }
  }

  /** A key that is written has such a Put. */
  lemma LastExists(insts: map<Id, Instance>, batches: seq<seq<Id>>, k: int) returns (b: nat, i: nat, c: nat, v: seq<bv8>)
    requires !NeverWritten(insts, batches, k)
    ensures LastOfAll(insts, batches, k, b, i, c, v)
  {
    hide NoPut;
    b := LastBatch(insts, batches, k);
    i := LastInstance(insts, batches[b], k);
    c, v := LastCommand(insts[batches[b][i]].cmds.list, k);
  }

  lemma {:induction false} LastBatch(insts: map<Id, Instance>, batches: seq<seq<Id>>, k: int) returns (b: nat)
    requires !NeverWritten(insts, batches, k)
    ensures b < |batches| && !AllSilent(insts, batches[b], 0, k) && forall d :: b < d < |batches| ==> AllSilent(insts, batches[d], 0, k)
  {
    hide AllSilent;
    b := |batches| - 1;
    if AllSilent(insts, batches[b], 0, k) {
      b := LastBatch(insts, batches[..b], k);
    }
  }

  lemma {:induction false} LastInstance(insts: map<Id, Instance>, list: seq<Id>, k: int) returns (i: nat)
    requires !AllSilent(insts, list, 0, k)
    ensures i < |list| && !Silent(insts, list[i], k) && AllSilent(insts, list, i + 1, k)
  {
    hide Silent;
    i := |list| - 1;
    if Silent(insts, list[i], k) {
      i := LastInstance(insts, list[..i], k);
    }
  }

  lemma {:induction false} LastCommand(cmds: seq<Command>, k: int) returns (c: nat, v: seq<bv8>)
    requires !NoPut(cmds, 0, k)
    ensures LastPut(cmds, c, k, v)
  {
    var n := |cmds| - 1;
    if cmds[n].op.Put? && cmds[n].key == k {
      c, v := n, cmds[n].value;
    } else {
      c, v := LastCommand(cmds[..n], k);
    }
  }
}
