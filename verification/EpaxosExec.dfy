/** EPaxos's executor: Tarjan's search over the instances, with its global stack,
    executing each component where it finds it. */
module EpaxosExec {
  import opened DependencyGraph
  import opened BatchStore

  class Exec {
    const n: nat
    const insts: map<Id, Instance>
    const execedUpTo: seq<int>
    var status: map<Id, Status>
    var index: map<Id, int>
    var lowlink: map<Id, int>
    var stack: seq<Id>
    var store: map<int, seq<bv8>>
    ghost var batches: seq<seq<Id>>        // what this search has executed, component by component
    ghost var storeBefore: map<int, seq<bv8>>

    /** `g` is what this search started from. */
    ghost predicate StatusOk(g: Graph)
      reads this`status, this`index, this`lowlink
    {
      && g.Valid() && g.n == n && g.insts == insts && g.execedUpTo == execedUpTo
      && status.Keys == index.Keys == lowlink.Keys == insts.Keys
      && (forall x :: x in insts && !status[x].Executed? ==> status[x] == g.status[x])
      && (forall x :: x in insts && status[x].Executed? ==> !g.status[x].Other?)
    }

    lemma Statics(g: Graph)
      requires StatusOk(g)
      ensures g.Valid() && g.n == n && g.insts == insts && g.execedUpTo == execedUpTo
      ensures status.Keys == index.Keys == lowlink.Keys == insts.Keys
    {
    }

    ghost function Now(): Search
      reads this`status, this`index, this`stack
    {
      Search(index, set x | x in stack, set x | x in status && status[x].Executed?)
    }

    /** The stack is ordered by index. */
    ghost predicate Ordered()
      reads this`index, this`stack
    {
      OrderedBy(stack, index)
    }

    static ghost predicate OrderedBy(stack: seq<Id>, index: map<Id, int>) {
      && (forall x :: x in stack ==> x in index)
      && forall i, j :: 0 <= i < j < |stack| ==> stack[i] in index && stack[j] in index && index[stack[i]] < index[stack[j]]
    }

    static lemma PrefixOrdered(stack: seq<Id>, index: map<Id, int>, l: nat)
      requires OrderedBy(stack, index) && l <= |stack|
      ensures OrderedBy(stack[..l], index)
    {
    }

    static lemma PushOrdered(stack: seq<Id>, index: map<Id, int>, v: Id, next: int)
      requires OrderedBy(stack, index) && v in index && v !in stack && forall x :: x in stack ==> index[x] < next
      ensures OrderedBy(stack + [v], index[v := next])
    {
      forall i, j | 0 <= i < j < |stack + [v]|
        ensures var s := stack + [v]; s[i] in index[v := next] && s[j] in index[v := next] && index[v := next][s[i]] < index[v := next][s[j]]
      {
        assert stack[i] in stack;
        assert j < |stack| ==> stack[j] in stack;
      }
    }

    ghost predicate Logged(g: Graph)
      requires g.Valid()
      reads this`status, this`batches, this`store, this`storeBefore
    {
      && BatchesOk(g, batches) && DoneAfter(g, batches) == (set x | x in status && status[x].Executed?)
      && store == RunBatches(insts, storeBefore, batches)
    }

    ghost predicate Running(g: Graph, gray: set<Id>, next: int)
      reads this
    {
      StatusOk(g) && SearchOk(g, Now(), gray, next) && Ordered() && Logged(g)
    }

    /** When the search gives up: nothing half executed, and all that is visited
        and not executed is on the stack. */
    ghost predicate Aborted(g: Graph)
      reads this
    {
      && StatusOk(g) && Logged(g) && DoneClosed(g, Now().done)
      && (forall x :: x in insts && !status[x].Executed? && index[x] != 0 ==> x in stack)
      && (forall x :: x in stack ==> x in insts)
    }

    // ----------------------------------------------------------- executing a component

    static predicate Sorted(insts: map<Id, Instance>, list: seq<Id>, n: nat)
      requires n <= |list|
    {
      && (forall x :: x in list ==> x in insts)
      && forall i, j :: 0 <= i < j < n ==> !RunsBefore(insts, list[j], list[i])
    }

    /** Moves the last of the first i + 1 nodes to its place among them. */
    static method Insert(insts: map<Id, Instance>, list: seq<Id>, i: nat) returns (out: seq<Id>)
      requires i < |list| && Sorted(insts, list, i)
      ensures |out| == |list| && multiset(out) == multiset(list) && Sorted(insts, out, i + 1)
    {
      out := list;
      var j := i;
      while j > 0 && RunsBefore(insts, out[j], out[j - 1])
        invariant 0 <= j <= i && |out| == |list| && multiset(out) == multiset(list)
        invariant forall x :: x in out ==> x in insts
        invariant forall a, b :: 0 <= a < b <= i && b != j ==> !RunsBefore(insts, out[b], out[a])
      {
        ghost var was := out;
        out := out[j := out[j - 1]][j - 1 := out[j]];
        SwapKeeps(was, out, j);
        j := j - 1;
      }
    }

    static lemma SwapKeeps(was: seq<Id>, now: seq<Id>, j: nat)
      requires 0 < j < |was| && now == was[j := was[j - 1]][j - 1 := was[j]]
      ensures multiset(now) == multiset(was)
      ensures forall x :: x in now ==> x in was
    {
    }

    static method SortNodes(insts: map<Id, Instance>, list: seq<Id>) returns (sorted: seq<Id>)
      requires forall x :: x in list ==> x in insts
      ensures multiset(sorted) == multiset(list) && InOrder(insts, sorted)
    {
      sorted := list;
      for i := 0 to |list|
        invariant |sorted| == |list| && multiset(sorted) == multiset(list) && Sorted(insts, sorted, i)
      {
        sorted := Insert(insts, sorted, i);
      }
    }

    method RunNode(w: Id)
      requires w in insts && insts[w].cmds.Some?
      modifies this`store
      ensures store == RunCommands(old(store), insts[w].cmds.list)
      ensures forall k :: LastPutHeld(old(store), store, insts[w].cmds.list, k)
    {
      var cmds := insts[w].cmds.list;
      for idx := 0 to |cmds|
        invariant store == RunCommands(old(store), cmds[..idx])
      {
        assert cmds[..idx + 1][..idx] == cmds[..idx];
        var c := cmds[idx];
        if c.op.Put? {
          store := store[c.key := c.value];
        }
      }
      assert cmds[..|cmds|] == cmds;
      forall k ensures LastPutHeld(old(store), store, cmds, k) {
        CommandsWrite(old(store), cmds, k);
      }
    }

    /** The execution of a component: the stack from position l up, sorted. */
    method RunComponent(l: nat)
      requires l <= |stack| && status.Keys == insts.Keys
      requires forall x :: x in stack[l..] ==> x in insts && insts[x].cmds.Some?
      requires forall i, j :: l <= i < j < |stack| ==> stack[i] != stack[j]
      modifies this`status, this`stack, this`store, this`batches
      ensures stack == old(stack)[..l] && status.Keys == insts.Keys
      ensures |batches| == |old(batches)| + 1 && batches[..|old(batches)|] == old(batches)
      ensures var list := batches[|old(batches)|];
        && InOrder(insts, list) && NoRepeats(list) && (forall x :: x in list <==> x in old(stack)[l..])
        && store == RunBatch(insts, old(store), list)
        && forall x :: x in insts ==> status[x] == if x in list then Executed else old(status)[x]
    {
      var list := stack[l..];
      ghost var part := list;
      list := SortNodes(insts, list);
      Permuted(part, list);
      for i := 0 to |list|
        invariant store == RunBatch(insts, old(store), list[..i]) && status.Keys == insts.Keys
        invariant stack == old(stack) && batches == old(batches)
        invariant forall x :: x in insts ==> status[x] == if x in list[..i] then Executed else old(status)[x]
      {
        assert list[..i + 1][..i] == list[..i] && list[..i + 1] == list[..i] + [list[i]];
        assert list[i] in list;
        RunNode(list[i]);
        status := status[list[i] := Executed];
      }
      assert list[..|list|] == list;
      stack := stack[..l];
      batches := batches + [list];
    }

    static lemma Permuted(a: seq<Id>, b: seq<Id>)
      requires multiset(a) == multiset(b) && NoRepeats(a)
      ensures forall x :: x in b <==> x in a
      ensures NoRepeats(b)
    {
      forall x ensures x in b <==> x in a {
        assert x in b <==> x in multiset(b);
        assert x in a <==> x in multiset(a);
      }
      forall i, j | 0 <= i < j < |b| ensures b[i] != b[j] {
        Once(a, b[i]);
        Twice(b, i, j);
      }
    }

    static lemma Twice(b: seq<Id>, i: nat, j: nat)
      requires i < j < |b|
      ensures b[i] == b[j] ==> multiset(b)[b[i]] >= 2
    {
      assert b == b[..i] + [b[i]] + b[i + 1..j] + [b[j]] + b[j + 1..];
    }

    static lemma {:induction false} Once(a: seq<Id>, x: Id)
      requires NoRepeats(a)
      ensures multiset(a)[x] <= 1
      ensures x !in a ==> multiset(a)[x] == 0
    {
      if a != [] {
        var front, last := a[..|a| - 1], a[|a| - 1];
        assert a == front + [last];
        Once(front, x);
        assert last !in front;
      }
    }

    // ----------------------------------------------------------- the search

    ghost function Unvisited(): set<Id>
      reads this`index
    {
      set x | x in index && index[x] == 0
    }

    static lemma FewerUnvisited(a: map<Id, int>, b: map<Id, int>)
      requires a.Keys == b.Keys && forall x :: x in a && a[x] != 0 ==> b[x] != 0
      ensures |set x | x in b && b[x] == 0| <= |set x | x in a && a[x] == 0|
      ensures (exists x :: x in a && a[x] == 0 && b[x] != 0) ==> |set x | x in b && b[x] == 0| < |set x | x in a && a[x] == 0|
    {
      var u, v := set x | x in a && a[x] == 0, set x | x in b && b[x] == 0;
      assert v <= u;
      assert u == v + (u - v);
      if x :| x in a && a[x] == 0 && b[x] != 0 {
        assert x in u - v;
      }
    }

    /** The stack from v's position up is v and what lies above it. */
    lemma StackAbove(v: Id, l: nat)
      requires Ordered() && l < |stack| && stack[l] == v
      ensures forall x :: x in stack[l..] <==> x in Above(Now(), v)
      ensures forall x :: x in stack[..l] <==> x in stack && x !in Above(Now(), v)
      ensures forall i, j :: l <= i < j < |stack| ==> stack[i] != stack[j]
    {
      forall x | x in stack ensures (x in stack[l..] <==> Below(Now(), v, x)) && (x in stack[..l] <==> !Below(Now(), v, x)) {
        var i :| 0 <= i < |stack| && stack[i] == x;
        if i < l {
          assert index[stack[i]] < index[stack[l]];
          assert x in stack[..l];
        } else {
          assert stack[l..][i - l] == x;
          assert i > l ==> index[stack[l]] < index[stack[i]];
        }
        if j :| 0 <= j < l && stack[j] == x {
          assert index[stack[j]] < index[stack[l]];
        }
      }
    }

    /** The end of strongconnect for a node that reaches nothing below itself. */
    method CloseComponent(v: Id, l: nat, next: int, ghost g: Graph, ghost gray: set<Id>)
      requires Running(g, gray, next) && v in gray && TopGray(Now(), gray, v) && v in index && LoopDone(g, Now(), v, index[v])
      requires l < |stack| && stack[l] == v
      modifies this`status, this`stack, this`store, this`batches
      ensures Running(g, gray - {v}, next) && Now() == Pop(old(Now()), v) && stack == old(stack)[..l]
    {
      hide LoopDone, SearchOk, TopGray, OrderedBy, BatchesOk, IsComponent, Above, InOrder, NoRepeats, DoneAfter, RunBatches, RunBatch;
      ghost var s := Now();
      StackAbove(v, l);
      PopOk(g, s, gray, next, v);
      OpenNodes(g, s, gray, next);
      RunComponent(l);
      ghost var list := batches[|old(batches)|];
      assert batches == old(batches) + [list];
      assert Batch(list) == Above(s, v);
      BatchAppended(g, old(batches), list);
      PrefixOrdered(old(stack), index, l);
      BatchRun(insts, storeBefore, old(batches), list);
      assert Now() == Pop(s, v);
    }

    static lemma BatchRun(insts: map<Id, Instance>, store: map<int, seq<bv8>>, batches: seq<seq<Id>>, list: seq<Id>)
      ensures RunBatches(insts, store, batches + [list]) == RunBatch(insts, RunBatches(insts, store, batches), list)
    {
      assert (batches + [list])[..|batches|] == batches;
    }

    static lemma OpenNodes(g: Graph, s: Search, gray: set<Id>, next: int)
      requires g.Valid() && SearchOk(g, s, gray, next)
      ensures forall x :: x in s.open ==> x in g.insts && g.insts[x].cmds.Some? && !g.status[x].Other? && x !in s.done && x in s.index
    {
    }

    /** v's loop has come to dependency (q, i). */
    ghost predicate AtDependency(g: Graph, gray: set<Id>, v: Id, next: int, q: nat, i: int)
      reads this
    {
      && Running(g, gray, next) && v in gray && TopGray(Now(), gray, v)
      && v in insts && Ready(g, v) && LoopOk(g, Now(), v, lowlink[v], q, i)
    }

    static ghost predicate IndexKept(a: map<Id, int>, b: map<Id, int>) {
      a.Keys == b.Keys && forall x :: x in a && a[x] != 0 ==> b[x] != 0
    }

    static ghost predicate LowKept(a: map<Id, int>, b: map<Id, int>, nodes: seq<Id>, v: Id) {
      forall x :: x in nodes && x in a && x != v ==> x in b && b[x] == a[x]
    }

    static lemma TopGrayGrows(g: Graph, s: Search, t: Search, gray: set<Id>, v: Id, next: int)
      requires TopGray(s, gray, v) && Grown(s, t, next) && gray <= s.open && v in s.open
      requires g.Valid() && OpenOk(g, s, next)
      ensures TopGray(t, gray, v)
    {
    }

    static lemma RunningFacts(g: Graph, s: Search, gray: set<Id>, next: int)
      requires g.Valid() && SearchOk(g, s, gray, next)
      ensures OpenOk(g, s, next) && gray <= s.open && DoneClosed(g, s.done)
      ensures forall x :: ExecutedBefore(g, x) ==> x in s.done
    {
    }

    /** A running node reaches every dependency of the node on top. */
    static lemma GrayReach(g: Graph, s: Search, gray: set<Id>, next: int, v: Id, w: Id)
      requires g.Valid() && SearchOk(g, s, gray, next) && v in gray && TopGray(s, gray, v) && Edge(g, v, w)
      ensures forall x :: x in gray ==> Reach(g, x, w)
    {
      hide Reach, HomeIn;
      ReachEdge(g, v, w);
      forall x | x in gray ensures Reach(g, x, w) {
        if x != v {
          PathFrom(g, s, gray, x, v);
          ReachTrans(g, x, v, w);
        }
      }
    }

    static lemma StopHere(g: Graph, s: Search, gray: set<Id>, next: int)
      requires g.Valid() && SearchOk(g, s, gray, next)
      ensures DoneClosed(g, s.done)
      ensures forall x :: x in g.insts && x !in s.done && s.index[x] != 0 ==> x in s.open
      ensures forall x :: x in s.open ==> x in g.insts
    {
    }

    method VisitDependency(v: Id, q: nat, i: int, first: int, ghost g: Graph, ghost gray: set<Id>) returns (ok: bool, next: int)
      requires AtDependency(g, gray, v, first, q, i) && DependsOn(g, v, Id(q, i))
      modifies this`status, this`index, this`lowlink, this`stack, this`store, this`batches
      ensures ok ==> AtDependency(g, gray, v, next, q, i + 1) && Grown(old(Now()), Now(), first) && first <= next
      ensures ok ==> old(stack) <= stack && LowKept(old(lowlink), lowlink, old(stack), v)
      ensures !ok ==> Aborted(g) && Stuck(g, v)
      ensures IndexKept(old(index), index)
      decreases |Unvisited()|, 2
    {
      hide SearchOk, LoopOk, TopGray, OrderedBy, BatchesOk, Reach, DoneAfter, DoneClosed;
      next := first;
      var w := Id(q, i);
      ghost var s := Now();
      StopHere(g, s, gray, first);
      if w !in insts || insts[w].cmds.Nil? {
        StuckAt(g, v, w);
        return false, next;
      }
      if status[w].Executed? {
        RunningFacts(g, s, gray, first);
        LoopSkips(g, s, v, lowlink[v], q, i);
        return true, next;
      }
      if !status[w].Committed? {
        StuckAt(g, v, w);
        return false, next;
      }
      RunningFacts(g, s, gray, first);
      if index[w] == 0 {
        ok, next := VisitNew(v, q, i, first, g, gray);
        return;
      } else {
        var onStack := InStack(w);
        LoopSees(g, s, v, lowlink[v], q, i);
        if onStack {
          if index[w] < lowlink[v] {
            lowlink := lowlink[v := index[w]];
          }
        }
      }
      return true, next;
    }

    /** A dependency that was not visited yet. */
    method VisitNew(v: Id, q: nat, i: int, first: int, ghost g: Graph, ghost gray: set<Id>) returns (ok: bool, next: int)
      requires AtDependency(g, gray, v, first, q, i) && DependsOn(g, v, Id(q, i)) && Ready(g, Id(q, i))
      requires Id(q, i) in insts && status[Id(q, i)].Committed? && Id(q, i) !in stack
      modifies this`status, this`index, this`lowlink, this`stack, this`store, this`batches
      ensures ok ==> AtDependency(g, gray, v, next, q, i + 1) && Grown(old(Now()), Now(), first) && first <= next
      ensures ok ==> old(stack) <= stack && LowKept(old(lowlink), lowlink, old(stack), v)
      ensures !ok ==> Aborted(g) && Stuck(g, v)
      ensures IndexKept(old(index), index)
      decreases |Unvisited()|, 1
    {
      hide SearchOk, LoopOk, TopGray, OrderedBy, BatchesOk, Reach, Visited, DoneAfter, Grown, OpenOk, DoneClosed, Logged, DependsOn, Stuck;
      var w := Id(q, i);
      ghost var s := Now();
      RunningFacts(g, s, gray, first);
      OpenFacts(g, s, first, v, w);
      GrayReach(g, s, gray, first, v, w);
      ok, next := StrongConnect(w, first, g, gray);
      if !ok {
        StuckThrough(g, v, w);
        return false, next;
      }
      VisitedGrows(g, s, Now(), w, first, lowlink[w]);
      TopGrayGrows(g, s, Now(), gray, v, first);
      LoopVisits(g, s, Now(), v, lowlink[v], q, i, first, lowlink[w]);
      if lowlink[w] < lowlink[v] {
        lowlink := lowlink[v := lowlink[w]];
      }
      return true, next;
    }

    static lemma OpenFacts(g: Graph, s: Search, next: int, v: Id, w: Id)
      requires g.Valid() && OpenOk(g, s, next) && DependsOn(g, v, w) && Ready(g, w) && w !in s.done
      requires forall x :: ExecutedBefore(g, x) ==> x in s.done
      ensures Edge(g, v, w)
    {
    }

    method InStack(w: Id) returns (found: bool)
      ensures found <==> w in stack
    {
      for j := 0 to |stack|
        invariant w !in stack[..j]
      {
        if stack[j] == w {
          return true;
        }
      }
      return false;
    }

    /** The dependencies of v on replica q's instances. */
    method VisitReplica(v: Id, q: nat, first: int, ghost g: Graph, ghost gray: set<Id>) returns (ok: bool, next: int)
      requires q < n && AtDependency(g, gray, v, first, q, FirstInstance(g, q))
      modifies this`status, this`index, this`lowlink, this`stack, this`store, this`batches
      ensures ok ==> AtDependency(g, gray, v, next, q + 1, FirstInstance(g, q + 1)) && Grown(old(Now()), Now(), first) && first <= next
      ensures ok ==> old(stack) <= stack && LowKept(old(lowlink), lowlink, old(stack), v)
      ensures !ok ==> Aborted(g) && Stuck(g, v)
      ensures IndexKept(old(index), index)
      decreases |Unvisited()|, 3
    {
      hide SearchOk, LoopOk, TopGray, OrderedBy, BatchesOk, Reach, Visited, DoneAfter, Grown, StatusOk, Logged, DependsOn, Ready, LowKept;
      Statics(g);
      LowSelf(lowlink, stack, v);
      next := first;
      var inst := insts[v].deps[q];
      var i := execedUpTo[q] + 1;
      GrownSelf(Now(), first);
      while i <= inst
        invariant FirstInstance(g, q) <= i && AtDependency(g, gray, v, next, q, i) && Grown(old(Now()), Now(), first) && first <= next
        invariant old(stack) <= stack && LowKept(old(lowlink), lowlink, old(stack), v) && IndexKept(old(index), index)
        decreases inst - i
      {
        FewerUnvisited(old(index), index);
        ghost var s, before, low, earlier := Now(), next, lowlink, stack;
        Statics(g);
        InRange(g, v, q, i);
        ok, next := VisitDependency(v, q, i, next, g, gray);
        if !ok {
          return;
        }
        GrownTransitive(old(Now()), s, Now(), first, before);
        LowTransitive(old(lowlink), low, lowlink, old(stack), earlier, v);
        i := i + 1;
      }
      Statics(g);
      LoopNextReplica(g, Now(), v, lowlink[v], q, i);
      return true, next;
    }

    static lemma InRange(g: Graph, v: Id, q: nat, i: int)
      requires g.Valid() && v in g.insts && q < g.n && FirstInstance(g, q) <= i <= g.insts[v].deps[q]
      ensures DependsOn(g, v, Id(q, i))
    {
    }

    static lemma LowSelf(a: map<Id, int>, nodes: seq<Id>, v: Id)
      ensures LowKept(a, a, nodes, v)
    {
    }

    static lemma LowTransitive(a: map<Id, int>, b: map<Id, int>, c: map<Id, int>, nodes: seq<Id>, more: seq<Id>, v: Id)
      requires LowKept(a, b, nodes, v) && LowKept(b, c, more, v) && nodes <= more
      ensures LowKept(a, c, nodes, v)
    {
      assert forall x :: x in nodes ==> x in more;
    }

    static lemma GrownSelf(s: Search, next: int)
      ensures Grown(s, s, next)
    {
    }

    /** The first lines of strongconnect: v is numbered and pushed. */
    method Enter(v: Id, first: int, ghost g: Graph, ghost gray: set<Id>)
      requires Running(g, gray, first) && v in insts && status[v].Committed? && v !in stack
      requires forall x :: x in gray ==> Reach(g, x, v)
      modifies this`index, this`lowlink, this`stack
      ensures StatusOk(g) && Logged(g) && index == old(index)[v := first] && lowlink == old(lowlink)[v := first] && stack == old(stack) + [v]
      ensures Now() == Push(old(Now()), v, first) && OrderedBy(stack, index)
      ensures insts[v].cmds.Some? ==> AtDependency(g, gray + {v}, v, first + 1, 0, FirstInstance(g, 0))
      ensures insts[v].cmds.Nil? ==> Aborted(g) && Stuck(g, v)
    {
      hide SearchOk, LoopOk, TopGray, OrderedBy, BatchesOk, Reach, DoneAfter;
      ghost var s := Now();
      RunningFacts(g, s, gray, first);
      StopHere(g, s, gray, first);
      PushOrdered(stack, index, v, first);
      PushTop(s, gray, v, first);
      index := index[v := first];
      lowlink := lowlink[v := first];
      stack := stack + [v];
      assert Now() == Push(s, v, first);
      if insts[v].cmds.Some? {
        PushOk(g, s, gray, first, v);
        LoopStarts(g, s, v, first);
      }
    }

    static lemma PushTop(s: Search, gray: set<Id>, v: Id, next: int)
      requires forall x :: x in gray ==> x in s.index && s.index[x] < next
      ensures TopGray(Push(s, v, next), gray + {v}, v)
    {
    }

    /** The last lines: a component is executed, or v waits on the stack for one. */
    method Leave(v: Id, l: nat, first: int, next: int, ghost g: Graph, ghost gray: set<Id>, ghost s: Search)
      requires l < |stack| && stack[l] == v && (set x | x in stack[..l]) == s.open
      requires v !in gray && v !in s.open && v in s.index && Grown(Push(s, v, first), Now(), first + 1)
      requires g.Valid() && OpenOk(g, s, first)
      requires AtDependency(g, gray + {v}, v, next, g.n, FirstInstance(g, g.n))
      modifies this`status, this`stack, this`store, this`batches
      ensures Running(g, gray, next) && v in lowlink && Visited(g, s, Now(), v, first, lowlink[v])
      ensures old(stack)[..l] <= stack
    {
      hide SearchOk, LoopOk, TopGray, OrderedBy, BatchesOk, Reach, Visited, DoneAfter, Grown, LoopDone, OpenOk;
      ghost var t := Now();
      LoopEnds(g, t, v, lowlink[v], FirstInstance(g, g.n));
      LoopLow(g, t, v, lowlink[v]);
      PoppedVisited(g, s, t, v, first);
      assert gray + {v} - {v} == gray;
      if lowlink[v] == index[v] {
        CloseComponent(v, l, next, g, gray + {v});
      } else {
        KeepOk(g, t, gray + {v}, next, v, lowlink[v]);
        KeptVisited(g, s, t, v, first, lowlink[v]);
      }
    }

    static lemma LoopLow(g: Graph, s: Search, v: Id, low: int)
      requires g.Valid() && LoopDone(g, s, v, low)
      ensures v in s.index && low <= s.index[v]
    {
    }

    method VisitAll(v: Id, first: int, ghost g: Graph, ghost gray: set<Id>) returns (ok: bool, next: int)
      requires AtDependency(g, gray, v, first, 0, FirstInstance(g, 0))
      modifies this`status, this`index, this`lowlink, this`stack, this`store, this`batches
      ensures ok ==> AtDependency(g, gray, v, next, g.n, FirstInstance(g, g.n)) && Grown(old(Now()), Now(), first) && first <= next
      ensures ok ==> old(stack) <= stack && LowKept(old(lowlink), lowlink, old(stack), v)
      ensures !ok ==> Aborted(g) && Stuck(g, v)
      ensures IndexKept(old(index), index)
      decreases |Unvisited()|, 4
    {
      hide SearchOk, LoopOk, TopGray, OrderedBy, BatchesOk, Reach, DoneAfter, Grown, StatusOk, Logged, Ready, LowKept;
      Statics(g);
      LowSelf(lowlink, stack, v);
      next := first;
      GrownSelf(Now(), first);
      var q := 0;
      while q < n
        invariant q <= n && AtDependency(g, gray, v, next, q, FirstInstance(g, q)) && first <= next
        invariant Grown(old(Now()), Now(), first) && IndexKept(old(index), index)
        invariant old(stack) <= stack && LowKept(old(lowlink), lowlink, old(stack), v)
      {
        FewerUnvisited(old(index), index);
        ghost var t, before, low, earlier := Now(), next, lowlink, stack;
        ok, next := VisitReplica(v, q, next, g, gray);
        if !ok {
          return;
        }
        GrownTransitive(old(Now()), t, Now(), first, before);
        LowTransitive(old(lowlink), low, lowlink, old(stack), earlier, v);
        q := q + 1;
      }
      return true, next;
    }

    /** strongconnect. */
    method StrongConnect(v: Id, first: int, ghost g: Graph, ghost gray: set<Id>) returns (ok: bool, next: int)
      requires Running(g, gray, first) && v in insts && status[v].Committed? && v !in stack
      requires forall x :: x in gray ==> Reach(g, x, v)
      modifies this`status, this`index, this`lowlink, this`stack, this`store, this`batches
      ensures ok ==> Running(g, gray, next) && first < next && v in lowlink && Visited(g, old(Now()), Now(), v, first, lowlink[v])
      ensures ok ==> old(stack) <= stack && LowKept(old(lowlink), lowlink, old(stack), v) && Ready(g, v)
      ensures !ok ==> Aborted(g) && Stuck(g, v)
      ensures IndexKept(old(index), index)
      decreases |Unvisited()|, 0
    {
      hide SearchOk, LoopOk, TopGray, OrderedBy, BatchesOk, Reach, Visited, DoneAfter, Grown, LoopDone, OpenOk, DoneClosed, AtDependency, StatusOk, Logged, Stuck, Ready;
      Statics(g);
      ghost var s := Now();
      RunningFacts(g, s, gray, first);
      IndexFacts(g, s, gray, first, v);
      Enter(v, first, g, gray);
      FewerUnvisited(old(index), index);
      next := first + 1;
      var l := |stack| - 1;
      if insts[v].cmds.Nil? {
        return false, next;
      }
      ok, next := VisitAll(v, next, g, gray + {v});
      if !ok {
        return;
      }
      RunningReady(g, gray + {v}, v, next, g.n, FirstInstance(g, g.n));
      assert stack[..l] == old(stack);
      Leave(v, l, first, next, g, gray, s);
      return true, next;
    }

    lemma RunningReady(g: Graph, gray: set<Id>, v: Id, next: int, q: nat, i: int)
      requires AtDependency(g, gray, v, next, q, i)
      ensures g.Valid() && Ready(g, v)
    {
    }

    static lemma IndexFacts(g: Graph, s: Search, gray: set<Id>, next: int, v: Id)
      requires g.Valid() && SearchOk(g, s, gray, next) && v in g.insts && v !in s.open && v !in s.done
      ensures v in s.index && s.index[v] == 0 && 0 < next && v !in gray
    {
    }

    // ----------------------------------------------------------- one command

    /** What the search starts from. */
    ghost function Start(): Graph
      reads this`status
    {
      Graph(n, insts, execedUpTo, status)
    }

    /** No unexecuted instance is left numbered. */
    ghost predicate Clean()
      reads this`status, this`index
    {
      forall x :: x in insts && x in status && x in index && !status[x].Executed? ==> index[x] == 0
    }

    ghost predicate Valid()
      reads this`status, this`index, this`lowlink
    {
      Start().Valid() && StatusOk(Start()) && Clean()
    }

    lemma Begins(g: Graph)
      requires Valid() && g == Start() && stack == [] && batches == [] && storeBefore == store
      ensures Running(g, {}, 1)
    {
      hide Reach;
    }

    /** A finished search leaves nothing on the stack: nothing there could get home. */
    static lemma NothingOpen(g: Graph, s: Search, next: int)
      requires g.Valid() && SearchOk(g, s, {}, next)
      ensures s.open == {} && DoneClosed(g, s.done)
      ensures forall x :: x in g.insts && x !in s.done ==> x in s.index && s.index[x] == 0
    {
      hide Reach, HomeIn;
      forall x ensures x !in s.open {
        NoHome(g, s, x);
      }
    }

    static lemma NoHome(g: Graph, s: Search, x: Id)
      requires g.Valid()
      ensures !HomeIn(g, s, {}, x)
    {
    }

    /** The loop that ends findSCC. */
    method ResetIndexes(ghost g: Graph)
      requires StatusOk(g) && forall x :: x in stack ==> x in insts
      requires forall x :: x in insts && !status[x].Executed? && index[x] != 0 ==> x in stack
      modifies this`index
      ensures StatusOk(g) && Clean()
    {
      for j := 0 to |stack|
        invariant index.Keys == insts.Keys
        invariant forall x :: x in insts ==> index[x] == if x in stack[..j] then 0 else old(index)[x]
      {
        assert stack[..j + 1] == stack[..j] + [stack[j]] && stack[j] in stack;
        index := index[stack[j] := 0];
      }
      assert stack[..|stack|] == stack;
    }

    /** What was executed since `g`, with the store as it was then: components, in
        dependency order, and their commands. */
    ghost predicate Ran(g: Graph, before: map<int, seq<bv8>>)
      requires g.Valid()
      reads this`status, this`store, this`batches
    {
      && BatchesOk(g, batches)
      && DoneAfter(g, batches) == (set x | x in status && status[x].Executed?)
      && store == RunBatches(insts, before, batches) && LastWritesHeld(insts, before, store, batches)
    }

    lemma NothingRan()
      requires Valid() && batches == []
      ensures Ran(Start(), store)
    {
    }

    /** findSCC: executes everything the root depends on and then the root, one
        strongly connected component after the other, exactly if none of it is
        missing; and whatever happens it executes whole components only, in
        dependency order, and leaves no unexecuted instance numbered. */
    method FindSCC(root: Id) returns (ok: bool)
      requires Valid() && root in insts && status[root].Committed?
      modifies this
      ensures old(Start()).Valid() && StatusOk(old(Start())) && Clean()
      ensures Ran(old(Start()), old(store))
      ensures ok <==> !Stuck(old(Start()), root)
      ensures ok ==> forall x :: Reach(old(Start()), root, x) ==> x in insts && status[x].Executed?
      ensures forall x, q: nat, i :: Needs(x, q, i) && status[x].Executed? && x in old(status) && !old(status)[x].Executed? ==>
        Id(q, i) in insts && status[Id(q, i)].Executed?
    {
      hide SearchOk, BatchesOk, Reach, Visited, DoneAfter, DoneClosed, Stuck, LastWritesHeld;
      ghost var g := Start();
      batches, storeBefore := [], store;
      stack := [];
      Begins(g);
      ghost var s := Now();
      var next;
      ok, next := StrongConnect(root, 1, g, {});
      if ok {
        NothingOpen(g, Now(), next);
        VisitedRoot(g, s, Now(), root, lowlink[root]);
        RootDone(g, Now(), root);
      }
      LastWritesWin(insts, old(store), batches);
      AllDone(g);
      ResetIndexes(g);
    }

    /** Instance x depends on the i-th instance of replica q, which is not known to
        be executed. */
    predicate Needs(x: Id, q: nat, i: int)
      reads this`status
    {
      x in insts && x in status && q < n && q < |execedUpTo| && q < |insts[x].deps| && execedUpTo[q] < i <= insts[x].deps[q]
    }

    lemma AllDone(g: Graph)
      requires StatusOk(g) && DoneClosed(g, Now().done)
      ensures forall x, q: nat, i :: Needs(x, q, i) && status[x].Executed? && x in g.status && !g.status[x].Executed? ==>
        Id(q, i) in insts && status[Id(q, i)].Executed?
    {
      forall x, q: nat, i | Needs(x, q, i) && status[x].Executed? && x in g.status && !g.status[x].Executed?
        ensures Id(q, i) in insts && status[Id(q, i)].Executed?
      {
        assert DependsOn(g, x, Id(q, i));
      }
    }

    static lemma VisitedRoot(g: Graph, s: Search, t: Search, root: Id, low: int)
      requires g.Valid() && Visited(g, s, t, root, 1, low) && t.open == {}
      ensures root in t.done
    {
    }

    static lemma RootDone(g: Graph, s: Search, root: Id)
      requires g.Valid() && DoneClosed(g, s.done) && root in s.done && Ready(g, root) && !ExecutedBefore(g, root)
      ensures !Stuck(g, root) && forall x :: Reach(g, root, x) ==> x in s.done
    {
      DoneNotStuck(g, s.done, root);
    }

    /** executeCommand. */
    method ExecuteCommand(replica: nat, instance: int) returns (ok: bool)
      requires Valid()
      modifies this
      ensures old(Start()).Valid() && StatusOk(old(Start())) && Clean() && Ran(old(Start()), old(store))
      ensures !(Id(replica, instance) in insts && old(status)[Id(replica, instance)].Committed?) ==> batches == []
      ensures var x := Id(replica, instance); ok <==> x in insts && (old(status)[x].Executed? || (old(status)[x].Committed? && !Stuck(old(Start()), x)))
      ensures ok ==> Id(replica, instance) in insts && status[Id(replica, instance)].Executed?
    {
      hide Reach, Stuck, Ran;
      var x := Id(replica, instance);
      batches := [];
      NothingRan();
      if x !in insts {
        return false;
      }
      if status[x].Executed? {
        return true;
      }
      if !status[x].Committed? {
        return false;
      }
      ok := FindSCC(x);
      RootReached(old(Start()), x);
    }

    static lemma RootReached(g: Graph, x: Id)
      requires g.Valid()
      ensures Reach(g, x, x)
    {
      ReachSelf(g, x);
    }
  }
}
