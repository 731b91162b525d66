/** The graph EPaxos executes: instances and the dependencies that have not been
    executed when a search starts, its strongly connected components, and what
    the depth-first search for them keeps. */
module DependencyGraph {

  datatype Id = Id(replica: nat, instance: int)

  datatype Op = NoneOp | Put | Get | Scan

  datatype Command = Command(op: Op, key: int, value: seq<bv8>)

  datatype Commands = Nil | Some(list: seq<Command>)

  datatype Instance = Instance(cmds: Commands, sequence: int, deps: seq<int>, proposeTime: int)

  datatype Status = Other | Committed | Executed

  /** What does not change during a search: the instances, how far each replica's
      log is known to be executed, and the statuses when the search starts. */
  datatype Graph = Graph(n: nat, insts: map<Id, Instance>, execedUpTo: seq<int>, status: map<Id, Status>) {
    predicate Valid() {
      && |execedUpTo| == n && status.Keys == insts.Keys
      && forall x :: x in insts ==> |insts[x].deps| == n
    }
  }

  predicate DependsOn(g: Graph, x: Id, y: Id)
    requires g.Valid()
  {
    x in g.insts && y.replica < g.n && g.execedUpTo[y.replica] < y.instance <= g.insts[x].deps[y.replica]
  }

  /** The search can go on to y: it is there, has commands, and is committed. */
  predicate Ready(g: Graph, y: Id)
    requires g.Valid()
  {
    y in g.insts && g.insts[y].cmds.Some? && !g.status[y].Other?
  }

  predicate ExecutedBefore(g: Graph, y: Id)
    requires g.Valid()
  {
    y in g.insts && g.status[y].Executed?
  }

  /** An edge of the unexecuted dependency graph. */
  predicate Edge(g: Graph, x: Id, y: Id)
    requires g.Valid()
  {
    DependsOn(g, x, y) && !ExecutedBefore(g, y)
  }

  predicate IsPath(g: Graph, p: seq<Id>)
    requires g.Valid()
  {
    |p| > 0 && forall i :: 0 <= i < |p| - 1 ==> Edge(g, p[i], p[i + 1])
  }

  ghost predicate Reach(g: Graph, x: Id, y: Id)
    requires g.Valid()
  {
    exists p :: IsPath(g, p) && p[0] == x && p[|p| - 1] == y
  }

  lemma ReachSelf(g: Graph, x: Id)
    requires g.Valid()
    ensures Reach(g, x, x)
  {
    assert IsPath(g, [x]);
  }

  lemma ReachEdge(g: Graph, x: Id, y: Id)
    requires g.Valid() && Edge(g, x, y)
    ensures Reach(g, x, y)
  {
    assert IsPath(g, [x, y]);
  }

  lemma ReachTrans(g: Graph, x: Id, y: Id, z: Id)
    requires g.Valid() && Reach(g, x, y) && Reach(g, y, z)
    ensures Reach(g, x, z)
  {
    var p :| IsPath(g, p) && p[0] == x && p[|p| - 1] == y;
    var q :| IsPath(g, q) && q[0] == y && q[|q| - 1] == z;
    var r := p + q[1..];
    forall i | 0 <= i < |r| - 1 ensures Edge(g, r[i], r[i + 1]) {
      if i < |p| - 1 {
        assert r[i] == p[i] && r[i + 1] == p[i + 1];
      } else {
        assert r[i] == q[i - (|p| - 1)] && r[i + 1] == q[i - (|p| - 1) + 1];
      }
    }
    assert IsPath(g, r);
  }

  ghost predicate Closed(g: Graph, s: set<Id>)
    requires g.Valid()
  {
    forall x, y :: x in s && Edge(g, x, y) ==> y in s
  }

  /** Nothing leaves a closed set. */
  lemma {:induction false} ClosedPath(g: Graph, s: set<Id>, p: seq<Id>)
    requires g.Valid() && Closed(g, s) && IsPath(g, p) && p[0] in s
    ensures p[|p| - 1] in s
    decreases |p|
  {
    if |p| > 1 {
      assert Edge(g, p[0], p[0 + 1]);
      ClosedPath(g, s, p[1..]);
    }
  }

  lemma ClosedReach(g: Graph, s: set<Id>, x: Id, y: Id)
    requires g.Valid() && Closed(g, s) && x in s && Reach(g, x, y)
    ensures y in s
  {
    var p :| IsPath(g, p) && p[0] == x && p[|p| - 1] == y;
    ClosedPath(g, s, p);
  }

  /** A strongly connected component: all of it mutually reachable, nothing missing. */
  ghost predicate IsComponent(g: Graph, b: set<Id>)
    requires g.Valid()
  {
    && b != {}
    && (forall x, y :: x in b && y in b ==> Reach(g, x, y))
    && (forall x, y :: x in b && Reach(g, x, y) && Reach(g, y, x) ==> y in b)
  }

  // ------------------------------------------------------------- the state of a search

  /** `index` is 0 for a node not visited, `open` holds the nodes on the stack,
      `done` everything executed so far. */
  datatype Search = Search(index: map<Id, int>, open: set<Id>, done: set<Id>)

  predicate Handled(g: Graph, s: Search, y: Id)
    requires g.Valid()
  {
    Ready(g, y) && (y in s.done || y in s.open)
  }

  /** The nodes this search has executed depend on executed nodes only. */
  ghost predicate DoneClosed(g: Graph, done: set<Id>)
    requires g.Valid()
  {
    && (forall y :: ExecutedBefore(g, y) ==> y in done)
    && (forall x, y :: x in done && !ExecutedBefore(g, x) && DependsOn(g, x, y) ==> Ready(g, y) && y in done)
  }

  function NewlyDone(g: Graph, done: set<Id>): set<Id>
    requires g.Valid()
  {
    set x | x in done && !ExecutedBefore(g, x)
  }

  /** Exactly the nodes on the stack are visited and not executed. */
  ghost predicate OpenOk(g: Graph, s: Search, next: int)
    requires g.Valid()
  {
    && s.index.Keys == g.insts.Keys
    && (forall x :: x in s.open ==> Ready(g, x) && x !in s.done && x in s.index && 0 < s.index[x] < next)
    && (forall x :: x in s.index && x !in s.done ==> (s.index[x] != 0 <==> x in s.open))
  }

  /** All dependencies of the finished nodes on the stack are handled. `gray` are
      the nodes whose own loop is still running. */
  ghost predicate BlackOk(g: Graph, s: Search, gray: set<Id>)
    requires g.Valid()
  {
    && gray <= s.open
    && forall x, y :: x in s.open && x !in gray && DependsOn(g, x, y) ==> Handled(g, s, y)
  }

  predicate Below(s: Search, x: Id, y: Id) {
    x in s.index && y in s.index && s.index[x] <= s.index[y]
  }

  /** Every node on the stack gets back to a running node below it or itself, and
      a running node gets to everything above it. */
  ghost predicate PathsOk(g: Graph, s: Search, gray: set<Id>)
    requires g.Valid()
  {
    && (forall x :: x in s.open ==> HomeIn(g, s, gray, x))
    && (forall x, y :: x in gray && y in s.open && Below(s, x, y) ==> Reach(g, x, y))
  }

  ghost predicate HomeIn(g: Graph, s: Search, gray: set<Id>, x: Id)
    requires g.Valid()
  {
    exists y :: y in gray && Below(s, y, x) && Reach(g, x, y)
  }

  ghost predicate SearchOk(g: Graph, s: Search, gray: set<Id>, next: int)
    requires g.Valid()
  {
    0 < next && OpenOk(g, s, next) && BlackOk(g, s, gray) && PathsOk(g, s, gray) && DoneClosed(g, s.done)
  }

  // ------------------------------------------------------------- entering a node

  function Push(s: Search, v: Id, next: int): Search {
    s.(index := s.index[v := next], open := s.open + {v})
  }

  lemma PathFrom(g: Graph, s: Search, gray: set<Id>, x: Id, y: Id)
    requires g.Valid() && PathsOk(g, s, gray) && x in gray && y in s.open && Below(s, x, y)
    ensures Reach(g, x, y)
  {
  }

  lemma Home(g: Graph, s: Search, gray: set<Id>, x: Id) returns (y: Id)
    requires g.Valid() && PathsOk(g, s, gray) && x in s.open
    ensures y in gray && Below(s, y, x) && Reach(g, x, y)
  {
    assert HomeIn(g, s, gray, x);
    y :| y in gray && Below(s, y, x) && Reach(g, x, y);
  }

  lemma HomeIs(g: Graph, s: Search, gray: set<Id>, x: Id, y: Id)
    requires g.Valid() && y in gray && Below(s, y, x) && Reach(g, x, y)
    ensures HomeIn(g, s, gray, x)
  {
  }

  lemma PushBelow(s: Search, v: Id, next: int, x: Id, y: Id)
    requires v in s.index && x in s.index && y in s.index && s.index[x] < next && s.index[y] < next && x != v
    ensures Below(Push(s, v, next), x, v)
    ensures y != v ==> Below(Push(s, v, next), x, y) == Below(s, x, y) && !Below(Push(s, v, next), v, y)
  {
  }

  lemma PushOpen(g: Graph, s: Search, v: Id, next: int)
    requires g.Valid() && OpenOk(g, s, next) && v in s.index
    ensures Push(s, v, next).open == s.open + {v} && Below(Push(s, v, next), v, v)
    ensures forall x :: x in s.open ==> x in s.index && s.index[x] < next
  {
  }

  lemma PushPaths(g: Graph, s: Search, gray: set<Id>, next: int, v: Id)
    requires g.Valid() && PathsOk(g, s, gray) && OpenOk(g, s, next) && gray <= s.open
    requires v !in s.open && v in s.index
    requires forall x :: x in gray ==> Reach(g, x, v)
    ensures PathsOk(g, Push(s, v, next), gray + {v})
  {
    hide Reach, PathsOk, OpenOk, Below, Push, HomeIn;
    PushOpen(g, s, v, next);
    var t := Push(s, v, next);
    ReachSelf(g, v);
    forall x | x in t.open ensures HomeIn(g, t, gray + {v}, x) {
      if x == v {
        HomeIs(g, t, gray + {v}, v, v);
      } else {
        var y := Home(g, s, gray, x);
        PushBelow(s, v, next, y, x);
        HomeIs(g, t, gray + {v}, x, y);
      }
    }
    forall x, y | x in gray + {v} && y in t.open && Below(t, x, y) ensures Reach(g, x, y) {
      if y == v {
      } else if x == v {
        PushBelow(s, v, next, y, y);
      } else {
        PushBelow(s, v, next, x, y);
        PathFrom(g, s, gray, x, y);
      }
    }
    PathsAre(g, t, gray + {v});
  }

  lemma PathsAre(g: Graph, s: Search, gray: set<Id>)
    requires g.Valid() && forall x :: x in s.open ==> HomeIn(g, s, gray, x)
    requires forall x, y :: x in gray && y in s.open && Below(s, x, y) ==> Reach(g, x, y)
    ensures PathsOk(g, s, gray)
  {
  }

  lemma PushOk(g: Graph, s: Search, gray: set<Id>, next: int, v: Id)
    requires g.Valid() && SearchOk(g, s, gray, next)
    requires Ready(g, v) && v !in s.done && v !in s.open
    requires forall x :: x in gray ==> Reach(g, x, v)
    ensures SearchOk(g, Push(s, v, next), gray + {v}, next + 1)
  {
    hide Reach, PathsOk, DoneClosed;
    PushPaths(g, s, gray, next, v);
  }

  // ------------------------------------------------------------- leaving a node

  /** v and everything above it on the stack. */
  function Above(s: Search, v: Id): set<Id> {
    set x | x in s.open && Below(s, v, x)
  }

  /** All dependencies of v are handled, v reaches the node of index `low`, and no
      edge from v or from above it leads to a node below v of a lower index. */
  ghost predicate LoopDone(g: Graph, s: Search, v: Id, low: int)
    requires g.Valid()
  {
    && v in s.open && v in s.index && low <= s.index[v]
    && (forall y :: DependsOn(g, v, y) ==> Handled(g, s, y))
    && (exists y :: y in s.open && y in s.index && s.index[y] == low && Reach(g, v, y))
    && EdgesAbove(g, s, v, low)
  }

  ghost predicate EdgesAbove(g: Graph, s: Search, v: Id, low: int)
    requires g.Valid()
  {
    forall x, y :: x in s.open && y in s.open && Below(s, v, x) && !Below(s, v, y) && Edge(g, x, y) ==>
      y in s.index && low <= s.index[y]
  }

  /** The other running nodes lie below v. */
  ghost predicate TopGray(s: Search, gray: set<Id>, v: Id) {
    forall x :: x in gray && x != v ==> !Below(s, v, x)
  }

  /** When low is v's own index, nothing but executed nodes leads out of v's part. */
  lemma ComponentClosed(g: Graph, s: Search, gray: set<Id>, next: int, v: Id, x: Id, y: Id)
    requires g.Valid() && OpenOk(g, s, next) && BlackOk(g, s, gray) && TopGray(s, gray, v) && DoneClosed(g, s.done)
    requires v in s.index && LoopDone(g, s, v, s.index[v])
    requires x in Above(s, v) && DependsOn(g, x, y)
    ensures Ready(g, y) && (y in Above(s, v) || y in s.done)
  {
    hide Reach, DependsOn, Ready;
    assert Below(s, v, x) && Handled(g, s, y);
    if y in s.open {
      assert Edge(g, x, y);
    }
  }

  lemma ComponentSealed(g: Graph, s: Search, gray: set<Id>, next: int, v: Id)
    requires g.Valid() && OpenOk(g, s, next) && BlackOk(g, s, gray) && TopGray(s, gray, v) && DoneClosed(g, s.done)
    requires v in s.index && LoopDone(g, s, v, s.index[v])
    ensures Closed(g, Above(s, v) + NewlyDone(g, s.done))
  {
    hide Reach, LoopDone, BlackOk, TopGray;
    forall x, y | x in Above(s, v) + NewlyDone(g, s.done) && Edge(g, x, y)
      ensures y in Above(s, v) + NewlyDone(g, s.done)
    {
      if x in Above(s, v) {
        ComponentClosed(g, s, gray, next, v, x, y);
      }
    }
  }

  /** Everything above v reaches v: its way home cannot end below v. */
  lemma BackToRoot(g: Graph, s: Search, gray: set<Id>, v: Id, x: Id)
    requires g.Valid() && PathsOk(g, s, gray) && TopGray(s, gray, v) && v in gray && gray <= s.open
    requires v in s.index && (forall y :: y in s.open ==> y in s.index && y !in s.done)
    requires Closed(g, Above(s, v) + NewlyDone(g, s.done)) && x in Above(s, v)
    ensures Reach(g, v, x) && Reach(g, x, v)
  {
    hide Reach, Closed, PathsOk;
    assert Below(s, v, x);
    PathFrom(g, s, gray, v, x);
    var y := Home(g, s, gray, x);
    ClosedReach(g, Above(s, v) + NewlyDone(g, s.done), x, y);
  }

  lemma ComponentFound(g: Graph, s: Search, gray: set<Id>, next: int, v: Id)
    requires g.Valid() && SearchOk(g, s, gray, next) && v in gray && TopGray(s, gray, v)
    requires v in s.index && LoopDone(g, s, v, s.index[v])
    ensures IsComponent(g, Above(s, v))
  {
    hide Reach, LoopDone, Closed, HomeIn;
    ComponentSealed(g, s, gray, next, v);
    var sealed := Above(s, v) + NewlyDone(g, s.done);
    assert v in Above(s, v);
    forall x | x in Above(s, v) ensures Reach(g, v, x) && Reach(g, x, v) {
      BackToRoot(g, s, gray, v, x);
    }
    forall x, y | x in Above(s, v) && y in Above(s, v) ensures Reach(g, x, y) {
      ReachTrans(g, x, v, y);
    }
    forall x, y | x in Above(s, v) && Reach(g, x, y) && Reach(g, y, x) ensures y in Above(s, v) {
      ClosedReach(g, sealed, x, y);
      if y in s.done {
        DoneIsClosed(g, s.done);
        ClosedReach(g, NewlyDone(g, s.done), y, x);
      }
    }
  }

  lemma DoneIsClosed(g: Graph, done: set<Id>)
    requires g.Valid() && DoneClosed(g, done)
    ensures Closed(g, NewlyDone(g, done))
  {
  }

  /** The component of v is executed and leaves the stack. */
  function Pop(s: Search, v: Id): Search {
    s.(open := s.open - Above(s, v), done := s.done + Above(s, v))
  }

  lemma PopPaths(g: Graph, s: Search, gray: set<Id>, v: Id)
    requires g.Valid() && PathsOk(g, s, gray) && v in s.index && forall x :: x in s.open ==> x in s.index
    ensures PathsOk(g, Pop(s, v), gray - {v})
  {
    hide Reach, PathsOk, HomeIn;
    var t := Pop(s, v);
    forall x | x in t.open ensures HomeIn(g, t, gray - {v}, x) {
      var y := Home(g, s, gray, x);
      HomeIs(g, t, gray - {v}, x, y);
    }
    forall x, y | x in gray - {v} && y in t.open && Below(t, x, y) ensures Reach(g, x, y) {
      PathFrom(g, s, gray, x, y);
    }
    PathsAre(g, t, gray - {v});
  }

  lemma PopOk(g: Graph, s: Search, gray: set<Id>, next: int, v: Id)
    requires g.Valid() && SearchOk(g, s, gray, next) && v in gray && TopGray(s, gray, v)
    requires v in s.index && LoopDone(g, s, v, s.index[v])
    ensures SearchOk(g, Pop(s, v), gray - {v}, next) && IsComponent(g, Above(s, v))
    ensures forall x, y :: x in Above(s, v) && DependsOn(g, x, y) ==> Ready(g, y) && (y in Above(s, v) || y in s.done)
  {
    hide Reach, LoopDone, PathsOk, IsComponent, DependsOn, Ready;
    ComponentFound(g, s, gray, next, v);
    PopPaths(g, s, gray, v);
    forall x, y | x in Above(s, v) && DependsOn(g, x, y) ensures Ready(g, y) && (y in Above(s, v) || y in s.done) {
      ComponentClosed(g, s, gray, next, v, x, y);
    }
  }

  /** v stays on the stack: it reaches a node below it. */
  lemma KeepPaths(g: Graph, s: Search, gray: set<Id>, v: Id, low: int)
    requires g.Valid() && PathsOk(g, s, gray) && v in s.index && low < s.index[v]
    requires exists y :: y in s.open && y in s.index && s.index[y] == low && Reach(g, v, y)
    ensures PathsOk(g, s, gray - {v})
  {
    hide Reach, PathsOk, HomeIn;
    var z :| z in s.open && z in s.index && s.index[z] == low && Reach(g, v, z);
    var h := Home(g, s, gray, z);
    ReachTrans(g, v, z, h);
    forall x | x in s.open ensures HomeIn(g, s, gray - {v}, x) {
      var y := Home(g, s, gray, x);
      if y == v {
        ReachTrans(g, x, v, h);
        HomeIs(g, s, gray - {v}, x, h);
      } else {
        HomeIs(g, s, gray - {v}, x, y);
      }
    }
    forall x, y | x in gray - {v} && y in s.open && Below(s, x, y) ensures Reach(g, x, y) {
      PathFrom(g, s, gray, x, y);
    }
    PathsAre(g, s, gray - {v});
  }

  lemma KeepOk(g: Graph, s: Search, gray: set<Id>, next: int, v: Id, low: int)
    requires g.Valid() && SearchOk(g, s, gray, next) && v in gray && v in s.index && LoopDone(g, s, v, low) && low < s.index[v]
    ensures SearchOk(g, s, gray - {v}, next)
  {
    hide Reach, PathsOk, HomeIn, EdgesAbove;
    KeepPaths(g, s, gray, v, low);
  }

  // ------------------------------------------------------------- the loop over the dependencies

  predicate Before(y: Id, q: nat, i: int) {
    y.replica < q || (y.replica == q && y.instance < i)
  }

  ghost predicate LowWitness(g: Graph, s: Search, v: Id, low: int)
    requires g.Valid()
  {
    exists y :: y in s.open && y in s.index && s.index[y] == low && Reach(g, v, y)
  }

  /** The dependencies of v before (q, i) have been looked at. */
  ghost predicate LoopOk(g: Graph, s: Search, v: Id, low: int, q: nat, i: int)
    requires g.Valid()
  {
    && v in s.open && v in s.index && low <= s.index[v] && LowWitness(g, s, v, low)
    && (forall y :: DependsOn(g, v, y) && Before(y, q, i) ==> Handled(g, s, y))
    && (forall x, y :: x in s.open && y in s.open && Below(s, v, x) && !Below(s, v, y) && Edge(g, x, y) && (x == v ==> Before(y, q, i)) ==>
          y in s.index && low <= s.index[y])
  }

  function FirstInstance(g: Graph, q: nat): int {
    if q < |g.execedUpTo| then g.execedUpTo[q] + 1 else 0
  }

  lemma LoopStarts(g: Graph, s: Search, v: Id, next: int)
    requires g.Valid() && OpenOk(g, s, next) && v !in s.open && v in s.index
    ensures LoopOk(g, Push(s, v, next), v, next, 0, FirstInstance(g, 0))
  {
    hide Reach;
    ReachSelf(g, v);
    var t := Push(s, v, next);
    assert v in t.open && t.index[v] == next;
    forall x | x in t.open && Below(t, v, x) ensures x == v {}
    forall y | DependsOn(g, v, y) ensures !Before(y, 0, FirstInstance(g, 0)) {}
  }

  lemma LoopEnds(g: Graph, s: Search, v: Id, low: int, i: int)
    requires g.Valid() && LoopOk(g, s, v, low, g.n, i)
    ensures LoopDone(g, s, v, low)
  {
    hide Reach;
  }

  /** From one replica's dependencies to the next one's. */
  lemma LoopNextReplica(g: Graph, s: Search, v: Id, low: int, q: nat, i: int)
    requires g.Valid() && LoopOk(g, s, v, low, q, i) && q < g.n && v in g.insts && i > g.insts[v].deps[q]
    ensures LoopOk(g, s, v, low, q + 1, FirstInstance(g, q + 1))
  {
    hide Reach, LowWitness, Handled;
    forall y | DependsOn(g, v, y) && Before(y, q + 1, FirstInstance(g, q + 1)) ensures Before(y, q, i) {}
  }

  /** A dependency that was executed, in this search or before. */
  lemma LoopSkips(g: Graph, s: Search, v: Id, low: int, q: nat, i: int)
    requires g.Valid() && LoopOk(g, s, v, low, q, i) && Ready(g, Id(q, i)) && Id(q, i) in s.done && Id(q, i) !in s.open
    ensures LoopOk(g, s, v, low, q, i + 1)
  {
    hide Reach, LowWitness;
    forall y | Before(y, q, i + 1) ensures y == Id(q, i) || Before(y, q, i) {}
  }

  /** A dependency on the stack. */
  lemma LoopSees(g: Graph, s: Search, v: Id, low: int, q: nat, i: int)
    requires g.Valid() && LoopOk(g, s, v, low, q, i)
    requires var w := Id(q, i); Ready(g, w) && w in s.open && w in s.index && Edge(g, v, w)
    ensures LoopOk(g, s, v, if s.index[Id(q, i)] < low then s.index[Id(q, i)] else low, q, i + 1)
  {
    hide Reach;
    var w := Id(q, i);
    ReachEdge(g, v, w);
    forall y | Before(y, q, i + 1) ensures y == w || Before(y, q, i) {}
  }

  /** What a finished visit of w leaves behind, for the node it was visited from. */
  ghost predicate Visited(g: Graph, s: Search, t: Search, w: Id, next: int, low: int)
    requires g.Valid()
  {
    && s.open <= t.open && s.done <= t.done && s.index.Keys == t.index.Keys
    && (forall x :: x in s.open && x in s.index ==> t.index[x] == s.index[x])
    && (forall x :: x in t.open && x !in s.open ==> x in t.index && next <= t.index[x])
    && (w in t.open || w in t.done)
    && (w in t.open ==> low < next && LowWitness(g, t, w, low))
    && (w !in t.open ==> low == next)
    && (forall x, y :: x in t.open && x !in s.open && y in s.open && Edge(g, x, y) ==> y in t.index && low <= t.index[y])
  }

  lemma VisitWitness(g: Graph, s: Search, t: Search, v: Id, low: int, w: Id, next: int, lowW: int)
    requires g.Valid() && v in s.open && v in s.index && low <= s.index[v] < next && LowWitness(g, s, v, low)
    requires Edge(g, v, w) && Visited(g, s, t, w, next, lowW)
    ensures LowWitness(g, t, v, if lowW < low then lowW else low)
  {
    hide Reach;
    if lowW < low {
      var y :| y in t.open && y in t.index && t.index[y] == lowW && Reach(g, w, y);
      ReachEdge(g, v, w);
      ReachTrans(g, v, w, y);
    } else {
      var y :| y in s.open && y in s.index && s.index[y] == low && Reach(g, v, y);
      assert y in t.open && t.index[y] == low;
    }
  }

  lemma VisitEdges(g: Graph, s: Search, t: Search, v: Id, low: int, q: nat, i: int, next: int, lowW: int, x: Id, y: Id)
    requires g.Valid() && LoopOk(g, s, v, low, q, i) && OpenOk(g, s, next)
    requires Edge(g, v, Id(q, i)) && Visited(g, s, t, Id(q, i), next, lowW) && Id(q, i) !in s.open
    requires x in t.open && y in t.open && Below(t, v, x) && !Below(t, v, y) && Edge(g, x, y) && (x == v ==> Before(y, q, i + 1))
    ensures y in t.index && (if lowW < low then lowW else low) <= t.index[y]
  {
    hide LowWitness, Handled;
    var w := Id(q, i);
    assert y in s.open;
    if x in s.open {
      assert Below(s, v, x) && !Below(s, v, y);
      assert x == v ==> y == w || Before(y, q, i);
    }
  }

  lemma LoopVisits(g: Graph, s: Search, t: Search, v: Id, low: int, q: nat, i: int, next: int, lowW: int)
    requires g.Valid() && LoopOk(g, s, v, low, q, i) && OpenOk(g, s, next)
    requires var w := Id(q, i); Edge(g, v, w) && Ready(g, w) && w !in s.open && Visited(g, s, t, w, next, lowW)
    ensures LoopOk(g, t, v, if lowW < low then lowW else low, q, i + 1)
  {
    hide LowWitness, Ready, Edge;
    VisitWitness(g, s, t, v, low, Id(q, i), next, lowW);
    forall x, y | x in t.open && y in t.open && Below(t, v, x) && !Below(t, v, y) && Edge(g, x, y) && (x == v ==> Before(y, q, i + 1))
      ensures y in t.index && (if lowW < low then lowW else low) <= t.index[y]
    {
      VisitEdges(g, s, t, v, low, q, i, next, lowW, x, y);
    }
    forall y | Before(y, q, i + 1) ensures y == Id(q, i) || Before(y, q, i) {}
  }

  // ------------------------------------------------------------- a whole visit

  /** t has grown from s: nothing left the stack, new nodes have new indexes. */
  ghost predicate Grown(s: Search, t: Search, next: int) {
    && s.open <= t.open && s.done <= t.done && s.index.Keys == t.index.Keys
    && (forall x :: x in s.open && x in s.index ==> t.index[x] == s.index[x])
    && (forall x :: x in t.open && x !in s.open ==> x in t.index && next <= t.index[x])
  }

  lemma GrownTransitive(s: Search, t: Search, u: Search, next: int, later: int)
    requires Grown(s, t, next) && Grown(t, u, later) && next <= later
    ensures Grown(s, u, next)
  {
  }

  lemma VisitedGrows(g: Graph, s: Search, t: Search, w: Id, next: int, low: int)
    requires g.Valid() && Visited(g, s, t, w, next, low)
    ensures Grown(s, t, next)
  {
    hide LowWitness, Edge;
  }

  lemma KeptVisited(g: Graph, s: Search, t: Search, v: Id, next: int, low: int)
    requires g.Valid() && OpenOk(g, s, next) && v in s.index && v !in s.open
    requires Grown(Push(s, v, next), t, next + 1) && LoopDone(g, t, v, low) && low < next
    ensures Visited(g, s, t, v, next, low)
  {
    hide Reach, Edge;
    assert v in Push(s, v, next).open;
    forall x, y | x in t.open && x !in s.open && y in s.open && Edge(g, x, y) ensures y in t.index && low <= t.index[y] {
      assert Below(t, v, x);
      assert y in Push(s, v, next).open;
    }
  }

  lemma PoppedVisited(g: Graph, s: Search, t: Search, v: Id, next: int)
    requires g.Valid() && OpenOk(g, s, next) && v in s.index && v !in s.open
    requires Grown(Push(s, v, next), t, next + 1) && v in t.index
    ensures t.index[v] == next && Visited(g, s, Pop(t, v), v, next, next) && Pop(t, v).open == s.open
  {
    hide Edge, LowWitness;
    assert v in Push(s, v, next).open && t.index[v] == next;
    forall x | x in t.open ensures x in s.open <==> !Below(t, v, x) {
      assert x in s.open ==> x in Push(s, v, next).open && t.index[x] == s.index[x];
    }
  }

  // ------------------------------------------------------------- when the search gives up

  /** Something v depends on, however indirectly, is missing or not committed. */
  ghost predicate Stuck(g: Graph, v: Id)
    requires g.Valid()
  {
    !Ready(g, v) || exists x, y :: Reach(g, v, x) && DependsOn(g, x, y) && !Ready(g, y)
  }

  lemma StuckThrough(g: Graph, v: Id, w: Id)
    requires g.Valid() && Edge(g, v, w) && Stuck(g, w)
    ensures Stuck(g, v)
  {
    hide Reach;
    ReachEdge(g, v, w);
    ReachSelf(g, v);
    if Ready(g, w) {
      var x, y :| Reach(g, w, x) && DependsOn(g, x, y) && !Ready(g, y);
      ReachTrans(g, v, w, x);
    }
  }

  lemma StuckAt(g: Graph, v: Id, y: Id)
    requires g.Valid() && DependsOn(g, v, y) && !Ready(g, y)
    ensures Stuck(g, v)
  {
    hide Reach;
    ReachSelf(g, v);
  }

  /** What was executed was not stuck. */
  lemma DoneNotStuck(g: Graph, done: set<Id>, v: Id)
    requires g.Valid() && DoneClosed(g, done) && v in done && !ExecutedBefore(g, v) && Ready(g, v)
    ensures !Stuck(g, v)
    ensures forall x :: Reach(g, v, x) ==> x in done
  {
    hide Reach;
    DoneIsClosed(g, done);
    forall x | Reach(g, v, x) ensures x in NewlyDone(g, done) {
      ClosedReach(g, NewlyDone(g, done), v, x);
    }
  }

  // ------------------------------------------------------------- batches

  /** nodeArray.Less. */
  predicate RunsBefore(insts: map<Id, Instance>, x: Id, y: Id)
    requires x in insts && y in insts
  {
    var a, b := insts[x], insts[y];
    || a.sequence < b.sequence
    || (a.sequence == b.sequence && x.replica < y.replica)
    || (a.sequence == b.sequence && x.replica == y.replica && a.proposeTime < b.proposeTime)
  }

  /** Sequence numbers ascend; where they are equal the replicas do, and where
      these are too the times of proposal. */
  ghost predicate InOrder(insts: map<Id, Instance>, list: seq<Id>) {
    && (forall x :: x in list ==> x in insts)
    && forall i, j :: 0 <= i < j < |list| ==> list[i] in insts && list[j] in insts && Ascend(list[i], insts[list[i]], list[j], insts[list[j]])
  }

  ghost predicate Ascend(x: Id, a: Instance, y: Id, b: Instance) {
    && a.sequence <= b.sequence
    && (a.sequence == b.sequence ==> x.replica <= y.replica)
    && (a.sequence == b.sequence && x.replica == y.replica ==> a.proposeTime <= b.proposeTime)
  }

  ghost predicate NoRepeats(list: seq<Id>) {
    forall i, j :: 0 <= i < j < |list| ==> list[i] != list[j]
  }

  ghost function Batch(list: seq<Id>): set<Id> {
    set x | x in list
  }

  /** One batch is one component, run once each in order, after all its
      dependencies outside were executed. */
  ghost predicate BatchOk(g: Graph, earlier: set<Id>, list: seq<Id>)
    requires g.Valid()
  {
    && IsComponent(g, Batch(list)) && InOrder(g.insts, list) && NoRepeats(list)
    && (forall x, y :: x in list && DependsOn(g, x, y) ==> y in list || y in earlier)
    && (forall x :: x in list ==> x !in earlier)
  }

  ghost function DoneAfter(g: Graph, batches: seq<seq<Id>>): set<Id>
    requires g.Valid()
  {
    if batches == [] then set x | x in g.insts && g.status[x].Executed?
    else DoneAfter(g, batches[..|batches| - 1]) + Batch(batches[|batches| - 1])
  }

  ghost predicate BatchesOk(g: Graph, batches: seq<seq<Id>>)
    requires g.Valid()
  {
    forall k :: 0 <= k < |batches| ==> BatchOk(g, DoneAfter(g, batches[..k]), batches[k])
  }

  lemma BatchAppended(g: Graph, batches: seq<seq<Id>>, list: seq<Id>)
    requires g.Valid() && BatchesOk(g, batches) && BatchOk(g, DoneAfter(g, batches), list)
    ensures BatchesOk(g, batches + [list]) && DoneAfter(g, batches + [list]) == DoneAfter(g, batches) + Batch(list)
  {
    hide BatchOk;
    var all := batches + [list];
    assert all[..|batches|] == batches;
    forall k | 0 <= k < |all| ensures BatchOk(g, DoneAfter(g, all[..k]), all[k]) {
      if k < |batches| {
        assert all[..k] == batches[..k];
      }
    }
  }
}
