// Discovery of the loop nest of a function.
module LoopSearch {
  import opened Graph
  import opened Tarjan
  import opened LoopNest
  import opened LoopLevels

  // Low links of nodes visited before are left alone.
  ghost predicate SameLinks(s: Search, before: map<Block, int>, after: map<Block, int>)
  {
    forall x {:trigger s.Visited(x)} :: s.Visited(x) && x in before ==> x in after && after[x] == before[x]
  }

  ghost predicate OnStackExact(onStack: set<Block>, s: Search)
  {
    forall x {:trigger s.On(x)} :: x in onStack <==> s.On(x)
  }

  lemma SameLinksTrans(s: Search, s': Search, a: map<Block, int>, b: map<Block, int>, c: map<Block, int>)
    requires SameLinks(s, a, b) && SameLinks(s', b, c) && Extends(s, s')
    ensures SameLinks(s, a, c)
  {
    forall x | s.Visited(x) && x in a ensures x in c && c[x] == a[x] {
      assert s'.Idx(x) == s.Idx(x) && s'.Visited(x);
    }
  }

  ghost function Fresh(nodes: set<Block>, index: map<Block, int>): set<Block>
  {
    set x | x in nodes && (x !in index || index[x] == -1)
  }

  lemma FreshShrinks(g: Net, s: Search, s': Search)
    requires Extends(s, s')
    ensures Fresh(g.nodes, s'.index) <= Fresh(g.nodes, s.index)
    ensures forall n :: s'.Visited(n) && !s.Visited(n) && n in g.nodes ==>
      Fresh(g.nodes, s'.index) < Fresh(g.nodes, s.index)
  {
    forall x | x in Fresh(g.nodes, s'.index) ensures x in Fresh(g.nodes, s.index) {
      if s.Visited(x) {
        assert s'.Idx(x) == s.Idx(x);
      }
    }
    forall n | s'.Visited(n) && !s.Visited(n) && n in g.nodes
      ensures Fresh(g.nodes, s'.index) < Fresh(g.nodes, s.index)
    {
      assert n in Fresh(g.nodes, s.index) && n !in Fresh(g.nodes, s'.index);
    }
  }

  // Between two successors of the open node n, opened in state s0.
  ghost predicate Visiting(g: Net, s0: Search, s: Search, n: Block)
  {
    Ordered(g, s0) && Extends(s0, s) && s.Idx(n) == s0.count && s0.stack + [n] <= s.stack && !s0.Visited(n)
  }

  lemma PoppedStep(s: Search, k: nat)
    requires k < |s.stack|
    ensures Popped(s, k) == Popped(s, k + 1) + {s.stack[k]}
  {
    assert s.stack[k..] == [s.stack[k]] + s.stack[k + 1..];
  }

  lemma PositionUnique(g: Net, s: Search, i: nat, j: nat)
    requires Ordered(g, s) && i < |s.stack| && j < |s.stack| && s.stack[i] == s.stack[j]
    ensures i == j
  {
    assert s.NumberAt(i) == s.NumberAt(j);
  }

  lemma FlagsAfterClose(g: Net, s: Search, k: nat, onStack: set<Block>)
    requires Ordered(g, s) && k < |s.stack| && OnStackExact(onStack, s)
    ensures OnStackExact(onStack - Popped(s, k), Close(s, k))
  {
    forall x ensures x in onStack - Popped(s, k) <==> Close(s, k).On(x) {
      CloseAt(g, s, k, x);
      assert x in onStack <==> s.On(x);
    }
  }

  // While popping: tmp was popped last, and scc is what has been popped so far.
  ghost predicate Popping(s: Search, k: nat, stack: seq<Block>, tmp: Block, scc: set<Block>, onStack: set<Block>,
      onStack0: set<Block>)
  {
    && k <= |stack| < |s.stack| && stack == s.stack[..|stack|] && tmp == s.stack[|stack|]
    && scc == Popped(s, |stack|) && onStack == onStack0 - scc
  }

  lemma PoppingStarts(s: Search, onStack: set<Block>)
    requires s.stack != []
    ensures var last := |s.stack| - 1;
      forall k: nat :: k <= last ==> Popping(s, k, s.stack[..last], s.stack[last], {s.stack[last]},
        onStack - {s.stack[last]}, onStack)
  {
    PoppedStep(s, |s.stack| - 1);
  }

  lemma PoppingStep(s: Search, k: nat, n: Block, stack: seq<Block>, tmp: Block, scc: set<Block>, onStack: set<Block>,
      onStack0: set<Block>)
    requires Popping(s, k, stack, tmp, scc, onStack, onStack0) && s.stack[k] == n && tmp != n
    ensures stack != [] && var next := stack[|stack| - 1];
      Popping(s, k, stack[..|stack| - 1], next, scc + {next}, onStack - {next}, onStack0)
  {
    PoppedStep(s, |stack| - 1);
  }

  lemma PoppingDone(g: Net, s: Search, k: nat, stack: seq<Block>, tmp: Block, scc: set<Block>, onStack: set<Block>,
      onStack0: set<Block>)
    requires Ordered(g, s) && OnStackExact(onStack0, s)
    requires Popping(s, k, stack, tmp, scc, onStack, onStack0) && s.stack[k] == tmp
    ensures stack == s.stack[..k] && scc == Popped(s, k) && OnStackExact(onStack, Close(s, k))
  {
    PositionUnique(g, s, k, |stack|);
    FlagsAfterClose(g, s, k, onStack0);
  }

  ghost predicate AllVisited(nodes: set<Block>, s: Search)
  {
    forall x {:trigger s.Visited(x)} :: x in nodes ==> s.Visited(x)
  }

  lemma VisitedStay(g: Net, s: Search, s': Search, nodes: set<Block>)
    requires AllVisited(nodes, s) && (s == s' || Extends(s, s'))
    ensures AllVisited(nodes, s')
  {
    forall x | x in nodes ensures s'.Visited(x) {
      assert s.Visited(x);
      assert s'.Idx(x) == s.Idx(x);
    }
  }

  lemma StartInv(g: Net, s: Search)
    requires g.Valid() && s.index.Keys == g.nodes && s.stack == [] && s.count == 0 && s.found == {}
    requires forall x {:trigger s.Idx(x)} :: s.Idx(x) == -1
    ensures Inv(g, s, {})
  {
    forall x ensures !s.Visited(x) && !s.On(x) {
    }
    forall c ensures !FoundFrom(g, s, c) {
    }
  }

  // With no node open the stack is empty, and when every node is visited all components are found.
  lemma EndInv(g: Net, s: Search)
    requires Inv(g, s, {}) && AllVisited(g.nodes, s)
    ensures s.stack == []
    ensures forall c {:trigger c in s.found} :: c in s.found <==> g.IsComponent(c)
  {
    if s.stack != [] {
      assert s.On(s.stack[0]);
      var reached := ReachesActive(g, s, {}, s.stack[0]);
    }
    forall a ensures a in g.nodes <==> s.Completed(a) {
      assert s.Visited(a) ==> a in g.nodes;
    }
    forall c ensures FoundFrom(g, s, c) <==> g.IsComponent(c) {
    }
  }

  lemma OneLess(all: set<Block>, todo: set<Block>, b: Block)
    requires todo <= all && b in todo
    ensures all - (todo - {b}) == all - todo + {b}
  {
  }

  // One component more of a round has been handled.
  lemma OneMoreEntered(g: Net, sccs: set<set<Block>>, todo: set<set<Block>>, c: set<Block>, before: set<Block>,
      bases: set<Block>, b: Block)
    requires before <= bases && b !in bases && Entered(g, c) && forall d :: d in sccs - todo ==> Entered(g, d)
    ensures before < bases + {b} && forall d :: d in sccs - (todo - {c}) ==> Entered(g, d)
  {
  }

  class LoopSearchPass {
    var nodes: set<Block>
    var succs: map<Block, set<Block>>
    var prevs: map<Block, set<Block>>
    var index: map<Block, int>
    var lowlink: map<Block, int>
    var onStack: set<Block>
    var stack: seq<Block>
    var indexCount: int
    var sccs: set<set<Block>>
    var reserved: set<Block>
    var nest: Nest

    constructor ()
      ensures nest == Nest({}, map[], map[], map[])
    {
      nodes, succs, prevs, index, lowlink := {}, map[], map[], map[], map[];
      onStack, stack, indexCount, sccs, reserved := {}, [], 0, {}, {};
      nest := Nest({}, map[], map[], map[]);
    }

    ghost function Net(): Net
      reads this`nodes, this`succs
    {
      Tarjan.Net(nodes, succs)
    }

    ghost function State(): Search
      reads this`index, this`stack, this`indexCount, this`sccs
    {
      Search(index, stack, indexCount, sccs)
    }

    ghost function Unvisited(): set<Block>
      reads this`nodes, this`index
    {
      Fresh(nodes, index)
    }

    // The components found are the popped ones, and the flags mirror the stack.
    ghost predicate Searching(active: set<Block>)
      reads this
    {
      && Net().Valid() && Inv(Net(), State(), active)
      && OnStackExact(onStack, State())
    }

    // Number n and push it.
    method OpenNode(n: Block, ghost active: set<Block>)
      requires Searching(active) && n in nodes && !State().Visited(n)
      requires forall a :: a in active ==> Net().Reaches(a, n)
      modifies this`index, this`lowlink, this`onStack, this`stack, this`indexCount
      ensures Searching(active + {n}) && State() == Open(old(State()), n)
      ensures Visiting(Net(), old(State()), State(), n) && lowlink == old(lowlink)[n := old(indexCount)]
      ensures BetweenSuccessors(Net(), State(), n, {}, lowlink[n])
      ensures Unvisited() < old(Unvisited())
    {
      ghost var s0 := State();
      OpenKeeps(Net(), s0, active, n);
      index := index[n := indexCount];
      indexCount := indexCount + 1;
      lowlink := lowlink[n := index[n]];
      stack := stack + [n];
      onStack := onStack + {n};
      forall x ensures State().On(x) <==> x == n || s0.On(x) {
        OpenAt(s0, n, x);
      }
      FreshShrinks(Net(), s0, State());
    }

    // Visit n and everything not yet visited that it leads to.
    method Traverse(n: Block, ghost active: set<Block>)
      requires Searching(active) && n in nodes && !State().Visited(n)
      requires forall a :: a in active ==> Net().Reaches(a, n)
      modifies this`index, this`lowlink, this`onStack, this`stack, this`indexCount, this`sccs
      ensures Searching(active)
      ensures n in lowlink && Traversed(Net(), old(State()), State(), n, lowlink[n])
      ensures SameLinks(old(State()), old(lowlink), lowlink)
      decreases Unvisited(), 0
    {
      ghost var s0 := State();
      OpenNode(n, active);
      var todo := succs[n];
      while todo != {}
        invariant todo <= succs[n] && n in lowlink && Unvisited() < old(Unvisited())
        invariant Searching(active + {n}) && Visiting(Net(), s0, State(), n)
        invariant BetweenSuccessors(Net(), State(), n, succs[n] - todo, lowlink[n])
        invariant SameLinks(s0, old(lowlink), lowlink)
      {
        var su :| su in todo;
        ghost var done := succs[n] - todo;
        VisitSuccessor(n, su, active, s0, done);
        OneLess(succs[n], todo, su);
        todo := todo - {su};
      }
      assert succs[n] - todo == succs[n];
      FinishNode(n, active, s0);
    }

    // One successor of the open node n.
    method VisitSuccessor(n: Block, su: Block, ghost active: set<Block>, ghost s0: Search, ghost done: set<Block>)
      requires Searching(active + {n}) && Net().Edge(n, su) && n in lowlink
      requires Visiting(Net(), s0, State(), n)
      requires BetweenSuccessors(Net(), State(), n, done, lowlink[n])
      requires forall a :: a in active ==> Net().Reaches(a, n)
      modifies this`index, this`lowlink, this`onStack, this`stack, this`indexCount, this`sccs
      ensures Searching(active + {n}) && n in lowlink
      ensures Visiting(Net(), s0, State(), n)
      ensures BetweenSuccessors(Net(), State(), n, done + {su}, lowlink[n])
      ensures Unvisited() <= old(Unvisited()) && SameLinks(s0, old(lowlink), lowlink)
      decreases Unvisited(), 1
    {
      ghost var s := State();
      assert su in Net().nodes;
      if su !in index || index[su] == -1 {
        forall a | a in active + {n} ensures Net().Reaches(a, su) {
          Net().ReachesSelf(n);
          Net().ReachesStep(a, n, su);
        }
        Traverse(su, active + {n});
        ReturnKeeps(Net(), s, State(), n, done, old(lowlink[n]), su, lowlink[su]);
        ExtendsTrans(s0, s, State());
        FreshShrinks(Net(), s, State());
        SameLinksTrans(s0, s, old(lowlink), old(lowlink), lowlink);
        lowlink := lowlink[n := if lowlink[su] < lowlink[n] then lowlink[su] else lowlink[n]];
      } else {
        LookKeeps(Net(), s, n, done, lowlink[n], su);
        if su in onStack {
          lowlink := lowlink[n := if index[su] < lowlink[n] then index[su] else lowlink[n]];
        }
      }
    }

    // Pop the stack down to n, and record what was popped unless it is a single node.
    method PopComponent(n: Block, ghost k: nat)
      requires Ordered(Net(), State()) && OnStackExact(onStack, State())
      requires k < |stack| && stack[k] == n
      modifies this`onStack, this`stack, this`sccs
      ensures State() == Close(old(State()), k) && OnStackExact(onStack, State())
    {
      ghost var s := State();
      var tmp := stack[|stack| - 1];
      PoppingStarts(s, onStack);
      onStack := onStack - {tmp};
      var scc := {tmp};
      stack := stack[..|stack| - 1];
      while tmp != n
        invariant Popping(s, k, stack, tmp, scc, onStack, old(onStack)) && sccs == old(sccs)
        decreases |stack|
      {
        PoppingStep(s, k, n, stack, tmp, scc, onStack, old(onStack));
        tmp := stack[|stack| - 1];
        onStack := onStack - {tmp};
        scc := scc + {tmp};
        stack := stack[..|stack| - 1];
      }
      PoppingDone(Net(), s, k, stack, tmp, scc, onStack, old(onStack));
      if |scc| != 1 {
        sccs := sccs + {scc};
      }
    }

    // All successors of n have been visited: its component is complete if n is its root.
    method FinishNode(n: Block, ghost active: set<Block>, ghost s0: Search)
      requires Searching(active + {n}) && n in nodes && n in lowlink
      requires Visiting(Net(), s0, State(), n)
      requires BetweenSuccessors(Net(), State(), n, succs[n], lowlink[n])
      requires forall a :: a in active ==> s0.On(a)
      modifies this`onStack, this`stack, this`sccs
      ensures Searching(active) && Traversed(Net(), s0, State(), n, lowlink[n])
    {
      if index[n] == lowlink[n] {
        ghost var k := |s0.stack|;
        ghost var s := State();
        StayBounded(Net(), s, n, succs[n], lowlink[n]);
        assert AtRoot(Net(), s, active, n, k);
        PopComponent(n, k);
        CloseKeeps(Net(), s0, s, active, n, k);
      } else {
        StayKeeps(Net(), s0, State(), active, n, succs[n], lowlink[n]);
      }
    }

    ghost predicate Unmarked()
      reads this
    {
      index.Keys == nodes && forall x {:trigger State().Idx(x)} :: State().Idx(x) == -1
    }

    // Find all components of at least two nodes.
    method StronglyConnectedComponents() returns (some: bool)
      requires Net().Valid() && Unmarked() && onStack == {} && sccs == {}
      modifies this`index, this`lowlink, this`onStack, this`stack, this`indexCount, this`sccs
      ensures forall c {:trigger c in sccs} :: c in sccs <==> Net().IsComponent(c)
      ensures stack == [] && onStack == {} && (some <==> sccs != {})
    {
      indexCount := 0;
      stack := [];
      assert forall x {:trigger State().Idx(x)} :: State().Idx(x) == old(State()).Idx(x);
      StartInv(Net(), State());
      var todo := nodes;
      while todo != {}
        invariant todo <= nodes && Searching({})
        invariant AllVisited(nodes - todo, State())
      {
        var n :| n in todo;
        todo := todo - {n};
        ghost var s := State();
        if index[n] == -1 {
          Traverse(n, {});
        }
        VisitedStay(Net(), s, State(), nodes - todo - {n});
      }
      EndInv(Net(), State());
      assert forall x :: x in onStack ==> State().On(x);
      some := |sccs| != 0;
    }

    // A node of scc with an edge from outside: from a node still in the graph, or else from a base.
    method FindLoopBase(scc: set<Block>) returns (base: Option<Block>)
      requires scc <= prevs.Keys && reserved <= succs.Keys
      ensures base.Some? ==> SeesEntry(reserved, succs, prevs, scc, base.value)
      ensures base.None? ==> forall b :: !SeesEntry(reserved, succs, prevs, scc, b)
      ensures forall b :: EnteredFromRest(prevs, scc, b) ==> base.Some? && EnteredFromRest(prevs, scc, base.value)
    {
      base := None;
      var todo := scc;
      while todo != {}
        invariant todo <= scc
        invariant base.Some? ==> EnteredFromRest(prevs, scc, base.value)
        invariant base.None? ==> forall n :: n in scc - todo ==> !EnteredFromRest(prevs, scc, n)
      {
        var n :| n in todo;
        todo := todo - {n};
        if exists prev :: prev in prevs[n] && prev !in scc {
          base := Some(n);
        }
      }
      if base.Some? {
        return;
      }
      todo := reserved;
      while todo != {}
        invariant todo <= reserved
        invariant base.Some? ==> SeesEntry(reserved, succs, prevs, scc, base.value)
        invariant base.None? ==> forall r, s :: r in reserved - todo && s in succs[r] ==> s !in scc
      {
        var res :| res in todo;
        todo := todo - {res};
        if succ :| succ in succs[res] && succ in scc {
          base := Some(succ);
        }
      }
    }

    // Erase the base from the graph; as a base it stays known.
    method RemoveBase(base: Block, ghost g: Net)
      requires Mirrors(g, reserved, nodes, succs, prevs) && base in nodes
      modifies this`nodes, this`succs, this`prevs, this`reserved
      ensures Mirrors(g, reserved, nodes, succs, prevs)
      ensures reserved == old(reserved) + {base}
    {
      EraseKeeps(g, reserved, nodes, succs, prevs, base);
      assert Kept(g, reserved, succs, prevs, base);
      reserved := reserved + {base};
      nodes := nodes - {base};
      ForgetAsPredecessor(base);
      ForgetAsSuccessor(base);
    }

    method ForgetAsPredecessor(base: Block)
      requires base in succs && succs[base] <= prevs.Keys
      modifies this`prevs
      ensures prevs == Erased(old(prevs), succs[base], base)
    {
      var todo := succs[base];
      while todo != {}
        invariant todo <= succs[base] && prevs == Erased(old(prevs), succs[base] - todo, base)
      {
        var su :| su in todo;
        ghost var done := succs[base] - todo;
        todo := todo - {su};
        prevs := prevs[su := prevs[su] - {base}];
        assert succs[base] - todo == done + {su};
      }
      assert succs[base] - todo == succs[base];
    }

    method ForgetAsSuccessor(base: Block)
      requires base in prevs && prevs[base] <= succs.Keys
      modifies this`succs
      ensures succs == Erased(old(succs), prevs[base], base)
    {
      var todo := prevs[base];
      while todo != {}
        invariant todo <= prevs[base] && succs == Erased(old(succs), prevs[base] - todo, base)
      {
        var prev :| prev in todo;
        ghost var done := prevs[base] - todo;
        todo := todo - {prev};
        succs := succs[prev := succs[prev] - {base}];
        assert prevs[base] - todo == done + {prev};
      }
      assert prevs[base] - todo == prevs[base];
    }

    // Store a loop under its base, as the innermost loop so far of each of its blocks.
    method RecordLoop(scc: set<Block>, base: Block)
      modifies this`nest
      ensures nest == Add(old(nest), scc, base)
    {
      var bb2base := nest.bb2base;
      var todo := scc;
      while todo != {}
        invariant todo <= scc && nest == old(nest)
        invariant bb2base == nest.bb2base + (map x | x in scc - todo :: base)
      {
        var bb :| bb in todo;
        todo := todo - {bb};
        bb2base := bb2base[bb := base];
      }
      assert scc - todo == scc;
      nest := Nest(nest.loops + {scc}, nest.base2loop[base := scc], nest.loop2base[scc := base], bb2base);
    }

    // The innermost loop of a block.
    method GetInnerLoop(bb: Block, ghost g: Net) returns (inner: Option<set<Block>>)
      requires g.Valid() && NestInv(g, reserved, nest)
      ensures inner.None? ==> forall c :: c in nest.loops ==> bb !in c
      ensures inner.Some? ==> inner.value in nest.loops && bb in inner.value
      ensures inner.Some? ==> forall c :: c in nest.loops && bb in c ==> inner.value <= c
    {
      assert InnerExact(nest, bb);
      assert forall c :: c in nest.loops ==> nest.Has(c);
      if bb !in nest.bb2base {
        return None;
      }
      return Some(nest.base2loop[nest.bb2base[bb]]);
    }

    // Copy the flow graph of f, with every node unmarked.
    method BuildCfg(f: Cfg)
      requires f.Valid()
      modifies this`nodes, this`succs, this`prevs, this`index, this`onStack
      ensures Mirrors(NetOf(f), {}, nodes, succs, prevs) && Unmarked() && onStack == {}
    {
      nodes := f.blocks;
      onStack := {};
      index := map bb | bb in f.blocks :: -1;
      succs := map bb | bb in f.blocks :: set s | s in f.succ[bb];
      prevs := map bb | bb in f.blocks :: set p | p in f.pred[bb];
      NetOfValid(f);
      forall x | x in nodes ensures Kept(NetOf(f), {}, succs, prevs, x) {
        forall p ensures p in prevs[x] <==> p in PredsIn(NetOf(f), f.blocks - {}, x) {
          NetOfEdge(f, p, x);
          assert p in f.pred[x] <==> p in f.blocks && x in f.succ[p];
        }
      }
    }

    // Between two components: what is left of g, and the loops recorded so far.
    ghost predicate AtLoop(g: Net)
      reads this
    {
      Mirrors(g, reserved, nodes, succs, prevs) && NestInv(g, reserved, nest) && Levels(g, reserved, nest)
    }

    // Record one component of this round and take its base out of the graph.
    method RecordComponent(scc: set<Block>, ghost g: Net, ghost before: set<Block>) returns (ok: bool)
      requires AtLoop(g) && before <= reserved && Pending(g, before, reserved, nest, scc)
      modifies this`nodes, this`succs, this`prevs, this`reserved, this`nest
      ensures ok <==> Entered(g, scc)
      ensures ok ==> AtLoop(g)
      ensures ok ==> exists b ::
        b in scc && b !in old(reserved) && reserved == old(reserved) + {b} && nest == Add(old(nest), scc, b)
    {
      PendingConnected(g, before, reserved, nest, scc);
      FitsNew(nest, scc);
      var base := FindLoopBase(scc);
      forall b ensures SeesEntry(reserved, succs, prevs, scc, b) <==> EnteredAt(g, scc, b) {
        SeesEntryIff(g, reserved, nodes, succs, prevs, scc, b);
      }
      if base.None? {
        return false;
      }
      AddKeeps(g, reserved, nest, scc, base.value);
      StaysComponent(g, before, reserved, scc);
      AddLevels(g, reserved, nest, scc, base.value);
      RecordLoop(scc, base.value);
      RemoveBase(base.value, g);
      return true;
    }

    // Record every component found in this round. Without a base for one of them the search fails.
    method RecordRound(ghost g: Net) returns (ok: bool)
      requires AtLoop(g) && AllPending(g, reserved, reserved, nest, sccs)
      modifies this`nodes, this`succs, this`prevs, this`reserved, this`nest
      ensures ok <==> forall c :: c in sccs ==> Entered(g, c)
      ensures ok ==> AtLoop(g)
      ensures ok ==> old(reserved) <= reserved && (sccs != {} ==> old(reserved) < reserved)
    {
      ghost var before := reserved;
      var todo := sccs;
      while todo != {}
        invariant todo <= sccs && before <= reserved && (todo != sccs ==> before < reserved)
        invariant AtLoop(g) && AllPending(g, before, reserved, nest, todo)
        invariant forall c :: c in sccs - todo ==> Entered(g, c)
      {
        var scc :| scc in todo;
        ghost var bases, loops, rest := reserved, nest, todo;
        assert Pending(g, before, bases, loops, scc);
        todo := todo - {scc};
        var found := RecordComponent(scc, g, before);
        if !found {
          return false;
        }
        ghost var b :| b in scc && reserved == bases + {b} && nest == Add(loops, scc, b);
        AllPendingAfter(g, before, bases, loops, rest, scc, b);
        OneMoreEntered(g, sccs, rest, scc, before, bases, b);
      }
      return true;
    }

    method ResetMarks()
      modifies this`index, this`lowlink, this`onStack
      ensures Unmarked() && onStack == {}
    {
      index := map n | n in nodes :: -1;
      lowlink := map n | n in nodes :: -1;
      onStack := {};
    }

    // Find the components of what is left of g.
    method FindComponents(ghost g: Net) returns (some: bool)
      requires Mirrors(g, reserved, nodes, succs, prevs) && Unmarked() && onStack == {} && sccs == {}
      modifies this`index, this`lowlink, this`onStack, this`stack, this`indexCount, this`sccs
      ensures AreComponents(g, reserved, sccs) && (some <==> sccs != {})
    {
      MirrorsGraph(g, reserved, nodes, succs, prevs);
      some := StronglyConnectedComponents();
      forall c ensures Net().IsComponent(c) <==> Without(g, reserved).IsComponent(c) {
        SameComponents(Net(), Without(g, reserved), c);
      }
    }

    // The components of what is left of g have been found and are to be recorded.
    ghost predicate AtRound(g: Net)
      reads this
    {
      AtLoop(g) && AreComponents(g, reserved, sccs)
    }

    // Record the components found and unmark the nodes that are left.
    method CloseRound(ghost g: Net) returns (ok: bool)
      requires AtRound(g) && sccs != {}
      modifies this
      ensures ok <==> forall c :: c in old(sccs) ==> Entered(g, c)
      ensures ok ==> AtLoop(g)
      ensures ok ==> old(reserved) < reserved && sccs == {} && Unmarked() && onStack == {}
    {
      AllPendingAtStart(g, reserved, nest, sccs);
      ok := RecordRound(g);
      sccs := {};
      ResetMarks();
    }

    // One round of the search, and the components for the next.
    method RunRound(ghost g: Net) returns (ok: bool, more: bool)
      requires AtRound(g) && sccs != {}
      requires reserved == {} || AllEntered(g)
      modifies this
      ensures ok <==> AllEntered(g)
      ensures ok ==> AtRound(g) && |nodes| < |old(nodes)| && reserved != {} && (more <==> sccs != {})
    {
      RoundOutcome(g, reserved, sccs);
      ghost var before := reserved;
      ok := CloseRound(g);
      if !ok {
        return false, false;
      }
      RestShrinks(g.nodes, before, reserved);
      more := FindComponents(g);
    }

    method Start(f: Cfg)
      requires f.Valid()
      modifies this
      ensures reserved == {} && sccs == {} && Unmarked() && onStack == {}
      ensures AtLoop(NetOf(f))
    {
      reserved, sccs := {}, {};
      nest := Nest({}, map[], map[], map[]);
      BuildCfg(f);
      NoLoops(NetOf(f));
      LevelsAtStart(NetOf(f));
    }

    // The rounds of the search: the loops of the graph copied into nodes, from the outside in.
    method Explore(ghost g: Net) returns (ok: bool)
      requires AtLoop(g) && reserved == {} && sccs == {} && Unmarked() && onStack == {}
      modifies this
      ensures ok <==> AllEntered(g)
      ensures ok ==> NestInv(g, reserved, nest) && LoopsExact(g, nest) && Acyclic(g, reserved)
    {
      var more := FindComponents(g);
      RoundOutcome(g, {}, sccs);
      ok := true;
      while more
        invariant ok && AtRound(g) && (more <==> sccs != {})
        invariant AllEntered(g) || (reserved == {} && more)
        decreases |nodes|
      {
        ok, more := RunRound(g);
        if !ok {
          return;
        }
      }
      NoComponentsAcyclic(g, reserved, sccs);
      LevelsAtEnd(g, reserved, nest, sccs);
    }

    // Find the loops of f. The search fails, with no base to record, exactly when some component of
    // the flow graph has no edge entering it. Otherwise a recorded loop is a component of the flow graph
    // without the bases of the recorded loops strictly around it; every component of the flow graph is
    // recorded, and every component of what is left inside a recorded loop.
    method Run(f: Cfg) returns (ok: bool)
      requires f.Valid()
      modifies this
      ensures ok <==> AllEntered(NetOf(f))
      ensures ok ==> NestInv(NetOf(f), reserved, nest) && Acyclic(NetOf(f), reserved)
      ensures ok ==> forall c :: c in nest.loops <==> Without(NetOf(f), Above(nest, c)).IsComponent(c)
      ensures ok ==> forall c :: NetOf(f).IsComponent(c) ==> c in nest.loops
      ensures ok ==> forall c, e :: e in nest.loops && c <= e && Without(NetOf(f), Around(nest, e)).IsComponent(c) ==>
        c in nest.loops
    {
      Start(f);
      ghost var g := NetOf(f);
      ok := Explore(g);
      if ok {
        forall c ensures c in nest.loops <==> Without(g, Above(nest, c)).IsComponent(c) {
          assert nest.Has(c) <==> AtLevel(g, nest, c);
        }
        forall c | g.IsComponent(c) ensures c in nest.loops {
          OutermostRecorded(g, nest, c);
        }
        forall c, e | e in nest.loops && c <= e && Without(g, Around(nest, e)).IsComponent(c)
          ensures c in nest.loops
        {
          InnerRecorded(g, nest, e, c);
        }
      }
    }
  }
}
