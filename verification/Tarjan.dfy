// Strongly connected components: the invariant of the depth-first search with a stack and
// low links, and what each of its steps keeps.
module Tarjan {
  import opened Graph

  // The graph the search runs on: its nodes and their successor sets.
  datatype Net = Net(nodes: set<Block>, succs: map<Block, set<Block>>)
  {
    function Out(x: Block): set<Block>
    {
      if x in succs then succs[x] else {}
    }

    ghost predicate Valid()
    {
      nodes <= succs.Keys && forall x {:trigger Out(x)} :: x in nodes ==> Out(x) <= nodes
    }

    ghost predicate Edge(a: Block, b: Block)
    {
      a in nodes && b in Out(a)
    }

    ghost predicate Linked(p: seq<Block>, i: nat)
      requires i + 1 < |p|
    {
      Edge(p[i], p[i + 1])
    }

    ghost predicate PathBetween(p: seq<Block>, a: Block, b: Block)
    {
      |p| > 0 && p[0] == a && p[|p| - 1] == b && forall i :: 0 <= i < |p| - 1 ==> Linked(p, i)
    }

    ghost predicate Reaches(a: Block, b: Block)
    {
      exists p :: PathBetween(p, a, b)
    }

    lemma ReachesSelf(a: Block)
      ensures Reaches(a, a)
    {
      assert PathBetween([a], a, a);
    }

    lemma ReachesStep(a: Block, b: Block, c: Block)
      requires Reaches(a, b) && Edge(b, c)
      ensures Reaches(a, c)
    {
      var p :| PathBetween(p, a, b);
      var r := p + [c];
      forall i | 0 <= i < |r| - 1 ensures Linked(r, i) {
        assert i < |p| - 1 ==> Linked(p, i);
      }
      assert PathBetween(r, a, c);
    }

    lemma ReachesTrans(a: Block, b: Block, c: Block)
      requires Reaches(a, b) && Reaches(b, c)
      ensures Reaches(a, c)
    {
      var q :| PathBetween(q, b, c);
      ReachesAlong(a, b, c, q);
    }

    lemma {:induction false} ReachesAlong(a: Block, b: Block, c: Block, q: seq<Block>)
      requires Reaches(a, b) && PathBetween(q, b, c)
      ensures Reaches(a, c)
      decreases |q|
    {
      if |q| > 1 {
        var init := q[..|q| - 1];
        var d := init[|init| - 1];
        assert Linked(q, |q| - 2);
        forall i | 0 <= i < |init| - 1 ensures Linked(init, i) {
          assert Linked(q, i);
        }
        ReachesAlong(a, b, d, init);
        ReachesStep(a, d, c);
      }
    }

    // What a closed set contains it keeps.
    lemma ClosedKeeps(s: set<Block>, a: Block, b: Block)
      requires a in s && Reaches(a, b) && forall x, y :: x in s && Edge(x, y) ==> y in s
      ensures b in s
    {
      var p :| PathBetween(p, a, b);
      var i := 0;
      while i < |p| - 1
        invariant 0 <= i < |p| && p[i] in s
      {
        assert Linked(p, i);
        i := i + 1;
      }
    }

    ghost predicate Mutual(a: Block, b: Block)
    {
      Reaches(a, b) && Reaches(b, a)
    }

    // The strongly connected component of a.
    ghost function Component(a: Block): set<Block>
    {
      set b | b in nodes && Mutual(a, b)
    }

    // A maximal strongly connected set with at least two nodes.
    ghost predicate IsComponent(c: set<Block>)
    {
      |c| >= 2 && exists a :: a in nodes && c == Component(a)
    }
  }

  // The state of the search.
  datatype Search = Search(index: map<Block, int>, stack: seq<Block>, count: int, found: set<set<Block>>)
  {
    ghost function Idx(x: Block): int
    {
      if x in index then index[x] else -1
    }

    // The number of the node at position i of the stack.
    ghost function NumberAt(i: nat): int
    {
      if i < |stack| then Idx(stack[i]) else -1
    }

    ghost predicate Visited(x: Block)
    {
      Idx(x) != -1
    }

    ghost predicate On(x: Block)
    {
      x in stack
    }

    // Visited and assigned to a component.
    ghost predicate Completed(x: Block)
    {
      Visited(x) && !On(x)
    }
  }

  // Numbers are given in order, and the stack lists its nodes in that order.
  ghost predicate Ordered(g: Net, s: Search)
  {
    && s.count >= 0 && g.nodes <= s.index.Keys
    && (forall x {:trigger s.Visited(x)} :: s.Visited(x) ==> s.Idx(x) < s.count && x in g.nodes)
    && (forall x {:trigger s.On(x)} :: s.On(x) ==> s.Visited(x))
    && (forall i: nat, j: nat {:trigger s.NumberAt(i), s.NumberAt(j)} :: i < j < |s.stack| ==>
      s.NumberAt(i) < s.NumberAt(j))
  }

  // Completed nodes lead to completed nodes only.
  ghost predicate CompletedClosed(g: Net, s: Search)
  {
    forall x, y {:trigger g.Edge(x, y)} :: g.Edge(x, y) && s.Completed(x) ==> s.Completed(y)
  }

  // What is on the stack but no longer active has had all its successors visited.
  ghost predicate InactiveDone(g: Net, s: Search, active: set<Block>)
  {
    forall x, y {:trigger g.Edge(x, y)} :: g.Edge(x, y) && s.On(x) && x !in active ==> s.Visited(y)
  }

  ghost predicate ReachesAbove(g: Net, s: Search, a: Block)
  {
    s.On(a) && forall x {:trigger s.On(x)} :: s.On(x) && s.Idx(a) <= s.Idx(x) ==> g.Reaches(a, x)
  }

  // An active node is on the stack and reaches everything above it.
  ghost predicate ReachesUp(g: Net, s: Search, active: set<Block>)
  {
    forall a {:trigger a in active} :: a in active ==> ReachesAbove(g, s, a)
  }

  ghost predicate ReachesActive(g: Net, s: Search, active: set<Block>, x: Block)
  {
    exists a :: a in active && s.Idx(a) <= s.Idx(x) && g.Reaches(x, a)
  }

  // Everything on the stack reaches an active node at or below it.
  ghost predicate ReachesDown(g: Net, s: Search, active: set<Block>)
  {
    forall x {:trigger ReachesActive(g, s, active, x)} :: s.On(x) ==> ReachesActive(g, s, active, x)
  }

  ghost predicate FoundFrom(g: Net, s: Search, c: set<Block>)
  {
    |c| >= 2 && exists a :: s.Completed(a) && c == g.Component(a)
  }

  // Exactly the components of completed nodes have been found.
  ghost predicate FoundExact(g: Net, s: Search)
  {
    forall c {:trigger c in s.found} :: c in s.found <==> FoundFrom(g, s, c)
  }

  ghost predicate Inv(g: Net, s: Search, active: set<Block>)
  {
    && Ordered(g, s)
    && CompletedClosed(g, s) && InactiveDone(g, s, active)
    && ReachesUp(g, s, active) && ReachesDown(g, s, active)
    && FoundExact(g, s)
  }

  // No edge leads from level lo or above on the stack to a node of the stack below level low.
  ghost predicate Bounded(g: Net, s: Search, lo: int, low: int)
  {
    forall x, y {:trigger g.Edge(x, y)} :: g.Edge(x, y) && s.On(x) && lo <= s.Idx(x) && s.On(y) ==> low <= s.Idx(y)
  }

  // low is the number of a node on the stack that n reaches.
  ghost predicate LowReached(g: Net, s: Search, n: Block, low: int)
  {
    exists z :: s.On(z) && s.Idx(z) == low && g.Reaches(n, z)
  }

  // s' continues s: numbers stay, the stack only grows on top, with later numbers.
  ghost predicate Extends(s: Search, s': Search)
  {
    && s.count <= s'.count && s.stack <= s'.stack
    && (forall x {:trigger s'.Idx(x)} :: s.Visited(x) ==> s'.Idx(x) == s.Idx(x))
    && (forall x {:trigger s'.Visited(x)} :: s'.Visited(x) && !s.Visited(x) ==> s.count <= s'.Idx(x))
    && (forall x {:trigger s'.On(x)} :: s.Visited(x) ==> s'.On(x) == s.On(x))
  }

  lemma ExtendsTrans(s: Search, s': Search, s'': Search)
    requires Extends(s, s') && Extends(s', s'')
    ensures Extends(s, s'')
  {
    forall x {:trigger s''.Idx(x)} | s.Visited(x) ensures s''.Idx(x) == s.Idx(x) {
      assert s'.Idx(x) == s.Idx(x) && s'.Visited(x);
    }
    forall x | s''.Visited(x) && !s.Visited(x) ensures s.count <= s''.Idx(x) {
      if s'.Visited(x) {
        assert s''.Idx(x) == s'.Idx(x);
      }
    }
    forall x | s.Visited(x) ensures s''.On(x) == s.On(x) {
      assert s'.Idx(x) == s.Idx(x) && s'.Visited(x) && s'.On(x) == s.On(x);
    }
  }

  // ---- Opening a node ----

  ghost function Open(s: Search, n: Block): Search
  {
    Search(s.index[n := s.count], s.stack + [n], s.count + 1, s.found)
  }

  lemma OpenAt(s: Search, n: Block, x: Block)
    requires !s.Visited(n) && s.count >= 0
    ensures Open(s, n).Idx(x) == (if x == n then s.count else s.Idx(x))
    ensures Open(s, n).On(x) <==> x == n || s.On(x)
    ensures !s.On(n) ==> (Open(s, n).Completed(x) <==> s.Completed(x))
  {
  }

  lemma OpenOrdered(g: Net, s: Search, n: Block)
    requires Ordered(g, s) && n in g.nodes && !s.Visited(n)
    ensures Ordered(g, Open(s, n)) && Extends(s, Open(s, n)) && !s.On(n)
  {
    var s' := Open(s, n);
    assert s.On(n) ==> s.Visited(n);
    forall x ensures s'.Idx(x) == (if x == n then s.count else s.Idx(x)) && (s'.On(x) <==> x == n || s.On(x)) {
      OpenAt(s, n, x);
    }
    forall x | s'.Visited(x) ensures s'.Idx(x) < s'.count && x in g.nodes {
      assert x != n ==> s.Visited(x);
    }
    forall i: nat, j: nat | i < j < |s'.stack| ensures s'.NumberAt(i) < s'.NumberAt(j) {
      assert j < |s.stack| ==> s.NumberAt(i) < s.NumberAt(j);
      assert s.On(s.stack[i]);
      if j < |s.stack| {
        assert s.On(s.stack[j]);
      }
    }
  }

  lemma OpenClosed(g: Net, s: Search, active: set<Block>, n: Block)
    requires Ordered(g, s) && n in g.nodes && !s.Visited(n)
    requires CompletedClosed(g, s) && InactiveDone(g, s, active)
    ensures CompletedClosed(g, Open(s, n)) && InactiveDone(g, Open(s, n), active + {n})
  {
    OpenOrdered(g, s, n);
    var s' := Open(s, n);
    forall x, y | g.Edge(x, y) && s'.Completed(x) ensures s'.Completed(y) {
      OpenAt(s, n, x);
      OpenAt(s, n, y);
    }
    forall x, y | g.Edge(x, y) && s'.On(x) && x !in active + {n} ensures s'.Visited(y) {
      OpenAt(s, n, x);
      OpenAt(s, n, y);
    }
  }

  lemma OpenReaches(g: Net, s: Search, active: set<Block>, n: Block)
    requires Ordered(g, s) && n in g.nodes && !s.Visited(n)
    requires ReachesUp(g, s, active) && ReachesDown(g, s, active)
    requires forall a :: a in active ==> g.Reaches(a, n)
    ensures ReachesUp(g, Open(s, n), active + {n}) && ReachesDown(g, Open(s, n), active + {n})
  {
    OpenOrdered(g, s, n);
    var s' := Open(s, n);
    g.ReachesSelf(n);
    forall a | a in active + {n} ensures ReachesAbove(g, s', a) {
      OpenAt(s, n, a);
      assert a in active ==> ReachesAbove(g, s, a);
      forall x | s'.On(x) && s'.Idx(a) <= s'.Idx(x) ensures g.Reaches(a, x) {
        OpenAt(s, n, x);
      }
    }
    forall x | s'.On(x) ensures ReachesActive(g, s', active + {n}, x) {
      OpenAt(s, n, x);
      if x == n {
        assert n in active + {n};
      } else {
        assert ReachesActive(g, s, active, x);
        var a :| a in active && s.Idx(a) <= s.Idx(x) && g.Reaches(x, a);
        OpenAt(s, n, a);
        assert ReachesAbove(g, s, a);
        assert a in active + {n};
      }
    }
  }

  lemma OpenFound(g: Net, s: Search, n: Block)
    requires Ordered(g, s) && n in g.nodes && !s.Visited(n) && FoundExact(g, s)
    ensures FoundExact(g, Open(s, n))
  {
    OpenOrdered(g, s, n);
    var s' := Open(s, n);
    forall c ensures FoundFrom(g, s', c) <==> FoundFrom(g, s, c) {
      if FoundFrom(g, s, c) {
        var a :| s.Completed(a) && c == g.Component(a);
        OpenAt(s, n, a);
      }
      if FoundFrom(g, s', c) {
        var a :| s'.Completed(a) && c == g.Component(a);
        OpenAt(s, n, a);
      }
    }
  }

  // Numbering a fresh node that every active node reaches and pushing it makes it active.
  lemma OpenKeeps(g: Net, s: Search, active: set<Block>, n: Block)
    requires Inv(g, s, active) && n in g.nodes && !s.Visited(n)
    requires forall a :: a in active ==> g.Reaches(a, n)
    ensures Inv(g, Open(s, n), active + {n}) && Extends(s, Open(s, n))
    ensures LowReached(g, Open(s, n), n, s.count) && Bounded(g, Open(s, n), s.count + 1, s.count)
  {
    var s' := Open(s, n);
    OpenOrdered(g, s, n);
    OpenClosed(g, s, active, n);
    OpenReaches(g, s, active, n);
    OpenFound(g, s, n);
    OpenAt(s, n, n);
    g.ReachesSelf(n);
    assert s'.On(n);
    forall x | s'.On(x) ensures s'.Idx(x) < s.count + 1 {
      assert s'.Visited(x);
    }
  }

  // ---- Looking at the successors ----

  // The successors in done have been looked at: they are visited, and not below low on the stack.
  ghost predicate Looked(g: Net, s: Search, done: set<Block>, low: int)
  {
    forall y {:trigger y in done} :: y in done ==> s.Visited(y) && (s.On(y) ==> low <= s.Idx(y))
  }

  // Between two successors of the open node n, with low its low link so far.
  ghost predicate BetweenSuccessors(g: Net, s: Search, n: Block, done: set<Block>, low: int)
  {
    && s.On(n) && low <= s.Idx(n) && LowReached(g, s, n, low)
    && Bounded(g, s, s.Idx(n) + 1, low) && Looked(g, s, done, low)
  }

  // What traverse promises about the node n it was called on in state s.
  ghost predicate Traversed(g: Net, s: Search, s': Search, n: Block, low: int)
  {
    && s'.Visited(n) && low <= s'.Idx(n) && Extends(s, s')
    && Bounded(g, s', s.count, low)
    && (if s'.On(n) then exists z :: s.On(z) && s.Idx(z) == low && g.Reaches(n, z) else low == s'.Idx(n))
  }

  ghost function Min(a: int, b: int): int
  {
    if a < b then a else b
  }

  // A successor already visited: on the stack it may lower the low link, off it nothing changes.
  lemma LookKeeps(g: Net, s: Search, n: Block, done: set<Block>, low: int, y: Block)
    requires BetweenSuccessors(g, s, n, done, low) && g.Edge(n, y) && s.Visited(y)
    ensures BetweenSuccessors(g, s, n, done + {y}, if s.On(y) then Min(s.Idx(y), low) else low)
  {
    if s.On(y) && s.Idx(y) < low {
      g.ReachesSelf(n);
      g.ReachesStep(n, n, y);
      assert LowReached(g, s, n, s.Idx(y));
    }
  }

  lemma ReturnReached(g: Net, s: Search, s': Search, n: Block, low: int, y: Block, low': int)
    requires Ordered(g, s) && s.On(n) && LowReached(g, s, n, low) && low <= s.Idx(n)
    requires g.Edge(n, y) && !s.Visited(y) && Traversed(g, s, s', y, low')
    ensures LowReached(g, s', n, Min(low', low)) && s'.On(n) && s'.Idx(n) == s.Idx(n)
  {
    if low' < low {
      assert s'.On(y);
      var z :| s.On(z) && s.Idx(z) == low' && g.Reaches(y, z);
      g.ReachesSelf(n);
      g.ReachesStep(n, n, y);
      g.ReachesTrans(n, y, z);
      assert s'.On(z) && s'.Idx(z) == s.Idx(z);
    } else {
      var z :| s.On(z) && s.Idx(z) == low && g.Reaches(n, z);
      assert s'.On(z) && s'.Idx(z) == s.Idx(z);
    }
    assert s'.On(n) && s'.Idx(n) == s.Idx(n);
  }

  lemma ReturnBounded(g: Net, s: Search, s': Search, lo: int, low: int, y: Block, low': int)
    requires Ordered(g, s) && Ordered(g, s') && Bounded(g, s, lo, low) && low < s.count
    requires Traversed(g, s, s', y, low')
    ensures Bounded(g, s', lo, Min(low', low))
  {
    forall a, b | g.Edge(a, b) && s'.On(a) && lo <= s'.Idx(a) && s'.On(b) ensures Min(low', low) <= s'.Idx(b) {
      assert s'.Visited(a) && s'.Visited(b);
      assert s.Visited(b) ==> s'.Idx(b) == s.Idx(b);
      assert s.Visited(a) ==> s'.Idx(a) == s.Idx(a);
    }
  }

  // A successor just traversed: its low link counts.
  lemma ReturnKeeps(g: Net, s: Search, s': Search, n: Block, done: set<Block>, low: int, y: Block, low': int)
    requires Ordered(g, s) && Ordered(g, s') && BetweenSuccessors(g, s, n, done, low)
    requires g.Edge(n, y) && !s.Visited(y) && Traversed(g, s, s', y, low')
    ensures BetweenSuccessors(g, s', n, done + {y}, Min(low', low))
  {
    ReturnReached(g, s, s', n, low, y, low');
    ReturnBounded(g, s, s', s.Idx(n) + 1, low, y, low');
    forall x | x in done + {y} ensures s'.Visited(x) && (s'.On(x) ==> Min(low', low) <= s'.Idx(x)) {
      if x in done {
        assert s.Visited(x) && s'.Idx(x) == s.Idx(x);
        assert s'.On(x) == s.On(x);
      }
    }
  }

  // ---- Leaving a node that stays on the stack ----

  lemma StayReaches(g: Net, s: Search, active: set<Block>, n: Block, b: Block, x: Block)
    requires ReachesActive(g, s, active + {n}, x) && b in active && s.Idx(b) < s.Idx(n) && g.Reaches(n, b)
    ensures ReachesActive(g, s, active, x)
  {
    var a :| a in active + {n} && s.Idx(a) <= s.Idx(x) && g.Reaches(x, a);
    if a == n {
      g.ReachesTrans(x, n, b);
    }
  }

  lemma StayReachesDown(g: Net, s: Search, active: set<Block>, n: Block, low: int)
    requires ReachesDown(g, s, active + {n}) && LowReached(g, s, n, low) && low < s.Idx(n)
    ensures ReachesDown(g, s, active)
  {
    var z :| s.On(z) && s.Idx(z) == low && g.Reaches(n, z);
    assert ReachesActive(g, s, active + {n}, z);
    var b :| b in active + {n} && s.Idx(b) <= s.Idx(z) && g.Reaches(z, b);
    g.ReachesTrans(n, z, b);
    forall x | s.On(x) ensures ReachesActive(g, s, active, x) {
      StayReaches(g, s, active, n, b, x);
    }
  }

  lemma StayKeepsInv(g: Net, s: Search, active: set<Block>, n: Block, done: set<Block>, low: int)
    requires Inv(g, s, active + {n}) && Looked(g, s, done, low) && LowReached(g, s, n, low) && low < s.Idx(n)
    requires n in g.nodes && n in g.succs && done == g.succs[n]
    ensures Inv(g, s, active)
  {
    StayReachesDown(g, s, active, n, low);
    forall a | a in active ensures ReachesAbove(g, s, a) {
      assert a in active + {n};
    }
    forall x, y | g.Edge(x, y) && s.On(x) && x !in active ensures s.Visited(y) {
      if x == n {
        assert y in done;
      } else {
        assert x !in active + {n};
      }
    }
  }

  lemma StayBounded(g: Net, s: Search, n: Block, done: set<Block>, low: int)
    requires Ordered(g, s) && BetweenSuccessors(g, s, n, done, low)
    requires n in g.nodes && n in g.succs && done == g.succs[n]
    ensures Bounded(g, s, s.Idx(n), low)
  {
    forall x, y | g.Edge(x, y) && s.On(x) && s.Idx(n) <= s.Idx(x) && s.On(y) ensures low <= s.Idx(y) {
      if s.Idx(x) == s.Idx(n) {
        SameNode(g, s, x, n);
        assert y in done;
      }
    }
  }

  // A node whose low link is smaller than its number stays on the stack.
  lemma StayKeeps(g: Net, s0: Search, s: Search, active: set<Block>, n: Block, done: set<Block>, low: int)
    requires Inv(g, s, active + {n}) && BetweenSuccessors(g, s, n, done, low) && low < s.Idx(n)
    requires n in g.nodes && n in g.succs && done == g.succs[n]
    requires Extends(s0, s) && !s0.Visited(n) && s.Idx(n) == s0.count
    ensures Inv(g, s, active) && Traversed(g, s0, s, n, low)
  {
    StayKeepsInv(g, s, active, n, done, low);
    StayBounded(g, s, n, done, low);
    var z :| s.On(z) && s.Idx(z) == low && g.Reaches(n, z);
    assert s.Visited(z);
    assert s0.Visited(z) && s.Idx(z) == s0.Idx(z) && s.On(z) == s0.On(z);
  }

  lemma SameNode(g: Net, s: Search, x: Block, y: Block)
    requires Ordered(g, s) && s.On(x) && s.On(y) && s.Idx(x) == s.Idx(y)
    ensures x == y
  {
    var i: nat :| i < |s.stack| && s.stack[i] == x;
    var j: nat :| j < |s.stack| && s.stack[j] == y;
    assert s.NumberAt(i) == s.NumberAt(j);
  }

  // ---- Leaving a node that is the root of its component ----

  // The nodes of the stack from position k on.
  ghost function Popped(s: Search, k: nat): set<Block>
    requires k <= |s.stack|
  {
    set x | x in s.stack[k..]
  }

  ghost function Close(s: Search, k: nat): Search
    requires k <= |s.stack|
  {
    var c := Popped(s, k);
    Search(s.index, s.stack[..k], s.count, if |c| == 1 then s.found else s.found + {c})
  }

  lemma PoppedIff(g: Net, s: Search, k: nat, x: Block)
    requires Ordered(g, s) && k < |s.stack|
    ensures x in Popped(s, k) <==> s.On(x) && s.Idx(s.stack[k]) <= s.Idx(x)
    ensures x in s.stack[..k] <==> s.On(x) && s.Idx(x) < s.Idx(s.stack[k])
  {
    forall i: nat | i < |s.stack| && s.stack[i] == x ensures i < k <==> s.Idx(x) < s.Idx(s.stack[k]) {
      assert i < k ==> s.NumberAt(i) < s.NumberAt(k);
      assert i > k ==> s.NumberAt(i) > s.NumberAt(k);
    }
    if x in s.stack[..k] {
      var i: nat :| i < k && s.stack[i] == x;
    }
    if x in s.stack[k..] {
      var i: nat :| i < |s.stack| - k && s.stack[k..][i] == x;
      assert s.stack[k + i] == x;
    }
    if s.On(x) {
      var i: nat :| i < |s.stack| && s.stack[i] == x;
      assert if i < k then s.stack[..k][i] == x else s.stack[k..][i - k] == x;
    }
  }

  // The open node n has had all its successors looked at and its low link is its own number.
  ghost predicate AtRoot(g: Net, s: Search, active: set<Block>, n: Block, k: nat)
  {
    && k < |s.stack| && s.stack[k] == n && n in g.nodes && n in g.succs
    && Looked(g, s, g.succs[n], s.Idx(n)) && Bounded(g, s, s.Idx(n), s.Idx(n))
    && forall a {:trigger s.Idx(a)} :: a in active ==> s.Idx(a) < s.Idx(n)
  }

  lemma PoppedClosed(g: Net, s: Search, active: set<Block>, n: Block, k: nat, x: Block, y: Block)
    requires Inv(g, s, active + {n}) && AtRoot(g, s, active, n, k)
    requires g.Edge(x, y) && (s.Completed(x) || x in Popped(s, k))
    ensures s.Completed(y) || y in Popped(s, k)
  {
    PoppedIff(g, s, k, x);
    PoppedIff(g, s, k, y);
    if x == n {
      assert y in g.succs[n];
    } else if s.On(x) {
      assert x !in active + {n};
      assert s.Visited(y);
    }
  }

  lemma PoppedContains(g: Net, s: Search, active: set<Block>, n: Block, k: nat, x: Block, y: Block)
    requires Inv(g, s, active + {n}) && AtRoot(g, s, active, n, k)
    requires s.Completed(x) || x in Popped(s, k)
    requires g.Reaches(x, y)
    ensures s.Completed(y) || y in Popped(s, k)
  {
    PoppedIff(g, s, k, x);
    var all := set z | z in g.nodes && (s.Completed(z) || z in Popped(s, k));
    assert s.Visited(x);
    forall a, b | a in all && g.Edge(a, b) ensures b in all {
      PoppedClosed(g, s, active, n, k, a, b);
      PoppedIff(g, s, k, b);
      assert s.Visited(b);
    }
    g.ClosedKeeps(all, x, y);
  }

  lemma CompletedContains(g: Net, s: Search, x: Block, y: Block)
    requires Ordered(g, s) && CompletedClosed(g, s) && s.Completed(x) && g.Reaches(x, y)
    ensures s.Completed(y)
  {
    var all := set z | z in g.nodes && s.Completed(z);
    assert s.Visited(x);
    forall a, b | a in all && g.Edge(a, b) ensures b in all {
      assert s.Completed(b) && s.Visited(b);
    }
    g.ClosedKeeps(all, x, y);
  }

  lemma BelowNotReached(g: Net, s: Search, active: set<Block>, n: Block, k: nat, x: Block, a: Block)
    requires Inv(g, s, active + {n}) && AtRoot(g, s, active, n, k) && x in Popped(s, k) && a in active
    ensures !g.Reaches(x, a)
  {
    assert a in active + {n};
    assert ReachesAbove(g, s, a);
    PoppedIff(g, s, k, a);
    if g.Reaches(x, a) {
      PoppedContains(g, s, active, n, k, x, a);
    }
  }

  // Every node popped with n is mutually reachable with n ...
  lemma PoppedMutual(g: Net, s: Search, active: set<Block>, n: Block, k: nat, x: Block)
    requires Inv(g, s, active + {n}) && AtRoot(g, s, active, n, k) && x in Popped(s, k)
    ensures x in g.nodes && g.Mutual(n, x)
  {
    PoppedIff(g, s, k, x);
    assert s.Visited(x);
    assert n in active + {n};
    assert ReachesAbove(g, s, n);
    assert ReachesActive(g, s, active + {n}, x);
    var a :| a in active + {n} && s.Idx(a) <= s.Idx(x) && g.Reaches(x, a);
    if a in active {
      BelowNotReached(g, s, active, n, k, x, a);
    }
  }

  // ... and nothing else is.
  lemma MutualPopped(g: Net, s: Search, active: set<Block>, n: Block, k: nat, x: Block)
    requires Inv(g, s, active + {n}) && AtRoot(g, s, active, n, k) && x in g.nodes && g.Mutual(n, x)
    ensures x in Popped(s, k)
  {
    PoppedIff(g, s, k, n);
    assert s.On(n);
    PoppedContains(g, s, active, n, k, n, x);
    if s.Completed(x) {
      CompletedContains(g, s, x, n);
    }
  }

  lemma PoppedIsComponent(g: Net, s: Search, active: set<Block>, n: Block, k: nat)
    requires Inv(g, s, active + {n}) && AtRoot(g, s, active, n, k)
    ensures Popped(s, k) == g.Component(n)
  {
    forall x ensures x in Popped(s, k) <==> x in g.Component(n) {
      if x in Popped(s, k) {
        PoppedMutual(g, s, active, n, k, x);
      }
      if x in g.Component(n) {
        MutualPopped(g, s, active, n, k, x);
      }
    }
  }

  lemma CloseAt(g: Net, s: Search, k: nat, x: Block)
    requires Ordered(g, s) && k < |s.stack|
    ensures Close(s, k).Idx(x) == s.Idx(x)
    ensures Close(s, k).On(x) <==> s.On(x) && x !in Popped(s, k)
    ensures Close(s, k).On(x) <==> s.On(x) && s.Idx(x) < s.Idx(s.stack[k])
    ensures Close(s, k).Completed(x) <==> s.Completed(x) || x in Popped(s, k)
  {
    PoppedIff(g, s, k, x);
    if x in Popped(s, k) {
      assert s.Visited(x);
    }
  }

  lemma CloseOrdered(g: Net, s: Search, k: nat)
    requires Ordered(g, s) && k < |s.stack|
    ensures Ordered(g, Close(s, k))
  {
    var s' := Close(s, k);
    forall x | s'.Visited(x) ensures s'.Idx(x) < s'.count && x in g.nodes {
      CloseAt(g, s, k, x);
      assert s.Visited(x);
    }
    forall x | s'.On(x) ensures s'.Visited(x) {
      CloseAt(g, s, k, x);
      assert s.Visited(x);
    }
    forall i: nat, j: nat | i < j < |s'.stack| ensures s'.NumberAt(i) < s'.NumberAt(j) {
      assert j < |s.stack| ==> s.NumberAt(i) < s.NumberAt(j);
      CloseAt(g, s, k, s.stack[i]);
      CloseAt(g, s, k, s.stack[j]);
    }
  }

  lemma CloseClosed(g: Net, s: Search, active: set<Block>, n: Block, k: nat)
    requires Inv(g, s, active + {n}) && AtRoot(g, s, active, n, k)
    ensures CompletedClosed(g, Close(s, k)) && InactiveDone(g, Close(s, k), active)
  {
    var s' := Close(s, k);
    forall x, y | g.Edge(x, y) && s'.Completed(x) ensures s'.Completed(y) {
      CloseAt(g, s, k, x);
      CloseAt(g, s, k, y);
      PoppedClosed(g, s, active, n, k, x, y);
    }
    forall x, y | g.Edge(x, y) && s'.On(x) && x !in active ensures s'.Visited(y) {
      CloseAt(g, s, k, x);
      CloseAt(g, s, k, y);
      assert x !in active + {n};
      assert s.Visited(y);
    }
  }

  lemma CloseReaches(g: Net, s: Search, active: set<Block>, n: Block, k: nat)
    requires Inv(g, s, active + {n}) && AtRoot(g, s, active, n, k)
    ensures ReachesUp(g, Close(s, k), active) && ReachesDown(g, Close(s, k), active)
  {
    var s' := Close(s, k);
    forall a | a in active ensures ReachesAbove(g, s', a) {
      assert a in active + {n};
      assert ReachesAbove(g, s, a);
      CloseAt(g, s, k, a);
      forall x | s'.On(x) && s'.Idx(a) <= s'.Idx(x) ensures g.Reaches(a, x) {
        CloseAt(g, s, k, x);
      }
    }
    forall x | s'.On(x) ensures ReachesActive(g, s', active, x) {
      CloseAt(g, s, k, x);
      assert ReachesActive(g, s, active + {n}, x);
      var a :| a in active + {n} && s.Idx(a) <= s.Idx(x) && g.Reaches(x, a);
      CloseAt(g, s, k, a);
      assert a in active;
    }
  }

  lemma SameComponent(g: Net, a: Block, b: Block)
    requires g.Mutual(a, b)
    ensures g.Component(a) == g.Component(b)
  {
    forall x ensures g.Mutual(a, x) <==> g.Mutual(b, x) {
      if g.Mutual(a, x) {
        g.ReachesTrans(b, a, x);
        g.ReachesTrans(x, a, b);
      }
      if g.Mutual(b, x) {
        g.ReachesTrans(a, b, x);
        g.ReachesTrans(x, b, a);
      }
    }
  }

  lemma CloseFound(g: Net, s: Search, active: set<Block>, n: Block, k: nat)
    requires Inv(g, s, active + {n}) && AtRoot(g, s, active, n, k)
    ensures FoundExact(g, Close(s, k))
  {
    var s' := Close(s, k);
    PoppedIsComponent(g, s, active, n, k);
    PoppedIff(g, s, k, n);
    CloseAt(g, s, k, n);
    var popped := Popped(s, k);
    assert n in popped && popped == g.Component(n);
    assert |popped| == 1 <==> !(|popped| >= 2);
    forall c ensures c in s'.found <==> FoundFrom(g, s', c) {
      if c in s.found {
        assert FoundFrom(g, s, c);
        var a :| s.Completed(a) && c == g.Component(a);
        CloseAt(g, s, k, a);
      }
      if FoundFrom(g, s', c) {
        var a :| s'.Completed(a) && c == g.Component(a);
        CloseAt(g, s, k, a);
        if a in popped {
          assert a in g.Component(n);
          SameComponent(g, n, a);
        } else {
          assert FoundFrom(g, s, c);
        }
      }
    }
  }

  // Popping down to a root n pops exactly the component of n.
  lemma CloseKeeps(g: Net, s0: Search, s: Search, active: set<Block>, n: Block, k: nat)
    requires Inv(g, s, active + {n}) && AtRoot(g, s, active, n, k)
    requires Extends(s0, s) && !s0.Visited(n) && k == |s0.stack| && s.Idx(n) == s0.count
    requires Ordered(g, s0)
    ensures Inv(g, Close(s, k), active) && Traversed(g, s0, Close(s, k), n, s.Idx(n))
  {
    var s' := Close(s, k);
    CloseOrdered(g, s, k);
    CloseClosed(g, s, active, n, k);
    CloseReaches(g, s, active, n, k);
    CloseFound(g, s, active, n, k);
    CloseExtends(g, s0, s, k, n);
    CloseAt(g, s, k, n);
    forall x | s'.On(x) ensures s'.Idx(x) < s0.count {
      CloseAt(g, s, k, x);
    }
  }

  lemma CloseExtends(g: Net, s0: Search, s: Search, k: nat, n: Block)
    requires Ordered(g, s0) && Ordered(g, s) && Extends(s0, s) && k == |s0.stack| < |s.stack|
    requires s.stack[k] == n && s.Idx(n) == s0.count
    ensures Extends(s0, Close(s, k))
  {
    var s' := Close(s, k);
    forall x {:trigger s'.Idx(x)} | s0.Visited(x) ensures s'.Idx(x) == s0.Idx(x) {
      CloseAt(g, s, k, x);
      assert s.Idx(x) == s0.Idx(x);
    }
    forall x | s'.Visited(x) && !s0.Visited(x) ensures s0.count <= s'.Idx(x) {
      CloseAt(g, s, k, x);
      assert s.Visited(x);
    }
    forall x | s0.Visited(x) ensures s'.On(x) == s0.On(x) {
      CloseAt(g, s, k, x);
      assert s.Idx(x) == s0.Idx(x) && s.On(x) == s0.On(x);
    }
  }
}
