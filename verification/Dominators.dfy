// The pass that numbers the blocks in post order, iterates immediate dominators to a fixed
// point, and derives the dominance frontiers and the children lists of the dominator tree.
module Dominators {
  import opened Graph
  import opened DomTree

  // The finished blocks in the order of a depth-first traversal. An edge that does not go
  // down in this order closes a cycle.
  ghost predicate PostOrdered(g: Cfg, order: seq<Block>, visited: set<Block>)
    requires g.Valid()
  {
    && (forall i, j :: 0 <= i < j < |order| ==> order[i] != order[j])
    && (forall b :: b in order ==> b in visited && b in g.blocks)
    && forall i :: 0 <= i < |order| ==> Finished(g, order, visited, i)
  }

  ghost predicate Finished(g: Cfg, order: seq<Block>, visited: set<Block>, i: nat)
    requires g.Valid() && i < |order|
  {
    order[i] in g.blocks
    && forall v :: v in g.succ[order[i]] ==> v in visited && (v in order[..i] || g.Reaches(v, order[i]))
  }

  // What a visit of bb appends: blocks that bb reaches, each with a predecessor that
  // finishes later, which for some of them is bb itself.
  ghost predicate Segment(g: Cfg, order: seq<Block>, start: nat, bb: Block)
  {
    start <= |order| && forall i :: start <= i < |order| ==> g.Reaches(bb, order[i]) && HasParent(g, order, i, bb)
  }

  ghost predicate HasParent(g: Cfg, order: seq<Block>, i: nat, above: Block)
    requires i < |order|
  {
    g.Edge(above, order[i]) || exists j :: i < j < |order| && g.Edge(order[j], order[i])
  }

  ghost predicate Open(order: seq<Block>, visited: set<Block>, u: Block)
  {
    u in visited && u !in order
  }

  ghost predicate Numbering(order: seq<Block>, id: map<Block, nat>)
  {
    && (forall b :: b in id <==> b in order)
    && forall i :: 0 <= i < |order| ==> id[order[i]] == i
  }

  lemma ExtendSegment(g: Cfg, order: seq<Block>, order': seq<Block>, start: nat, bb: Block, b: Block)
    requires Segment(g, order, start, bb) && order <= order' && |order| < |order'| && g.Edge(bb, b)
    requires Segment(g, order'[..|order'| - 1], |order|, b) && order'[|order'| - 1] == b
    ensures Segment(g, order', start, bb)
  {
    forall i | start <= i < |order'| ensures g.Reaches(bb, order'[i]) && HasParent(g, order', i, bb) {
      g.ReachesSelf(bb);
      g.ReachesStep(bb, bb, b);
      if i < |order| {
        assert order[i] == order'[i];
        assert g.Reaches(bb, order[i]) && HasParent(g, order, i, bb);
      } else if i < |order'| - 1 {
        var init := order'[..|order'| - 1];
        assert g.Reaches(b, init[i]) && HasParent(g, init, i, b);
        g.ReachesTrans(bb, b, order'[i]);
      }
    }
  }

  lemma Finish(g: Cfg, order: seq<Block>, order': seq<Block>, visited: set<Block>, bb: Block)
    requires g.Valid() && PostOrdered(g, order, visited)
    requires bb in g.blocks && bb in visited && bb !in order && order' == order + [bb]
    requires forall v :: v in g.succ[bb] ==> v in visited
    requires forall u :: Open(order, visited, u) ==> g.Reaches(u, bb)
    ensures PostOrdered(g, order', visited)
  {
    forall i | 0 <= i < |order'| ensures Finished(g, order', visited, i) {
      if i < |order| {
        assert Finished(g, order, visited, i);
        assert order'[..i] == order[..i];
      } else {
        assert order'[..i] == order;
        forall v | v in g.succ[bb] ensures v in order || g.Reaches(v, bb) {
          assert v !in order ==> Open(order, visited, v);
        }
      }
    }
  }

  lemma MoreVisited(g: Cfg, order: seq<Block>, visited: set<Block>, visited': set<Block>)
    requires g.Valid() && PostOrdered(g, order, visited) && visited <= visited'
    ensures PostOrdered(g, order, visited')
  {
    forall i | 0 <= i < |order| ensures Finished(g, order, visited', i) {
      assert Finished(g, order, visited, i);
    }
  }

  // The blocks that are discovered and not finished are the same, apart from bb.
  ghost predicate SameOpenBut(order0: seq<Block>, seen: set<Block>, order: seq<Block>, visited: set<Block>, bb: Block)
  {
    forall u :: Open(order, visited, u) <==> Open(order0, seen, u) || u == bb
  }

  ghost predicate SameOpen(order0: seq<Block>, seen: set<Block>, order: seq<Block>, visited: set<Block>)
  {
    forall u :: Open(order, visited, u) <==> Open(order0, seen, u)
  }

  // Every block discovered but not finished reaches bb.
  ghost predicate OpenReach(g: Cfg, order: seq<Block>, seen: set<Block>, bb: Block)
  {
    forall u :: Open(order, seen, u) ==> g.Reaches(u, bb)
  }

  // What a visit of bb may rely on.
  ghost predicate MayVisit(g: Cfg, order: seq<Block>, id: map<Block, nat>, seen: set<Block>, bb: Block)
  {
    && g.Valid() && bb in g.blocks && bb !in seen && seen <= g.blocks
    && PostOrdered(g, order, seen) && Numbering(order, id) && OpenReach(g, order, seen, bb)
  }

  // The state between two successors of bb, which itself is discovered and not finished.
  ghost predicate UnderWay(g: Cfg, order0: seq<Block>, seen: set<Block>, order: seq<Block>, id: map<Block, nat>,
      visited: set<Block>, bb: Block)
  {
    && g.Valid() && bb in g.blocks && bb !in seen && OpenReach(g, order0, seen, bb)
    && seen + {bb} <= visited <= g.blocks
    && PostOrdered(g, order, visited) && Numbering(order, id)
    && order0 <= order && Segment(g, order, |order0|, bb)
    && SameOpenBut(order0, seen, order, visited, bb)
  }

  // What a visit of bb achieves: it appends blocks that bb reaches and then bb itself.
  ghost predicate Explored(g: Cfg, order0: seq<Block>, seen: set<Block>, order: seq<Block>, id: map<Block, nat>,
      visited: set<Block>, bb: Block)
  {
    && g.Valid() && seen <= visited <= g.blocks && bb in visited
    && PostOrdered(g, order, visited) && Numbering(order, id)
    && |order0| < |order| && order0 <= order && order[|order| - 1] == bb
    && Segment(g, order[..|order| - 1], |order0|, bb)
    && SameOpen(order0, seen, order, visited)
  }

  lemma VisitStarts(g: Cfg, order: seq<Block>, id: map<Block, nat>, seen: set<Block>, bb: Block)
    requires MayVisit(g, order, id, seen, bb)
    ensures UnderWay(g, order, seen, order, id, seen + {bb}, bb)
  {
    MoreVisited(g, order, seen, seen + {bb});
    assert bb !in order;
  }

  lemma VisitDescends(g: Cfg, order0: seq<Block>, seen: set<Block>, order: seq<Block>, id: map<Block, nat>,
      visited: set<Block>, bb: Block, b: Block)
    requires UnderWay(g, order0, seen, order, id, visited, bb) && b in g.succ[bb] && b !in visited
    ensures MayVisit(g, order, id, visited, b) && g.blocks - visited < g.blocks - seen
  {
    assert g.Edge(bb, b);
    assert bb in visited && bb in g.blocks;
    g.ReachesSelf(bb);
    forall u | Open(order, visited, u) ensures g.Reaches(u, b) {
      g.ReachesStep(u, bb, b);
    }
  }

  lemma VisitReturns(g: Cfg, order0: seq<Block>, seen: set<Block>, order: seq<Block>, id: map<Block, nat>,
      visited: set<Block>, bb: Block,
      b: Block, order': seq<Block>, id': map<Block, nat>, visited': set<Block>)
    requires UnderWay(g, order0, seen, order, id, visited, bb) && b in g.succ[bb]
    requires Explored(g, order, visited, order', id', visited', b)
    ensures UnderWay(g, order0, seen, order', id', visited', bb) && visited <= visited' && b in visited'
  {
    assert g.Edge(bb, b);
    ExtendSegment(g, order, order', |order0|, bb, b);
  }

  lemma VisitEnds(g: Cfg, order0: seq<Block>, seen: set<Block>, order: seq<Block>, id: map<Block, nat>,
      visited: set<Block>, bb: Block)
    requires UnderWay(g, order0, seen, order, id, visited, bb)
    requires forall v :: v in g.succ[bb] ==> v in visited
    ensures Explored(g, order0, seen, order + [bb], id[bb := |order|], visited, bb)
  {
    g.ReachesSelf(bb);
    assert Open(order, visited, bb);
    forall u | Open(order, visited, u) ensures g.Reaches(u, bb) {
      assert Open(order0, seen, u) || u == bb;
    }
    Finish(g, order, order + [bb], visited, bb);
    NumberNext(order, id, bb);
    assert (order + [bb])[..|order|] == order;
  }

  lemma NumberNext(order: seq<Block>, id: map<Block, nat>, bb: Block)
    requires Numbering(order, id) && bb !in order
    ensures Numbering(order + [bb], id[bb := |order|])
  {
  }

  // The list after `reverse`, with post-order numbers that put the entry highest.
  ghost predicate ReversePostOrdered(g: Cfg, rpo: seq<Block>, id: map<Block, nat>)
  {
    && g.Valid()
    && (forall b {:trigger g.Reachable(b)} :: b in id <==> g.Reachable(b))
    && Covers(rpo, id)
    && (forall i :: 0 <= i < |rpo| ==> rpo[i] in id && id[rpo[i]] == |rpo| - 1 - i)
    && |rpo| > 0 && rpo[0] == g.entry
    && (forall b {:trigger ParentBefore(g, id, b)} :: b in id && b != g.entry ==> ParentBefore(g, id, b))
    && forall u, v {:trigger g.Edge(u, v)} :: u in id && v in g.blocks && g.Edge(u, v) ==>
      v in id && (id[v] < id[u] || g.Reaches(v, u))
  }

  ghost predicate Covers(rpo: seq<Block>, id: map<Block, nat>)
  {
    forall b {:trigger Known(id, b)} :: Known(id, b) <==> b in rpo
  }

  ghost predicate Known(id: map<Block, nat>, b: Block)
  {
    b in id
  }

  // Every block but the entry has a predecessor that comes before it.
  ghost predicate ParentBefore(g: Cfg, id: map<Block, nat>, b: Block)
  {
    exists p :: p in id && b in id && g.Edge(p, b) && id[b] < id[p]
  }

  function Elements(s: seq<Block>): set<Block>
  {
    set b | b in s
  }

  lemma ElementsSnoc(s: seq<Block>, i: nat)
    requires i < |s|
    ensures Elements(s[..i + 1]) == Elements(s[..i]) + {s[i]}
  {
    assert s[..i + 1] == s[..i] + [s[i]];
  }

  function Reversed(s: seq<Block>): (r: seq<Block>)
    ensures |r| == |s|
    ensures forall i :: 0 <= i < |s| ==> r[i] == s[|s| - 1 - i]
  {
    seq(|s|, i requires 0 <= i < |s| => s[|s| - 1 - i])
  }

  lemma {:induction false} NumbersBounded(order: seq<Block>, id: map<Block, nat>)
    requires Numbering(order, id)
    ensures |id| == |order|
  {
    if |order| == 0 {
      assert id.Keys == {};
    } else {
      var init := order[..|order| - 1];
      var last := order[|order| - 1];
      assert forall i :: 0 <= i < |init| ==> init[i] == order[i];
      var id' := map b | b in id && b != last :: id[b];
      forall b ensures b in id' <==> b in init {
        if b in init {
          var i :| 0 <= i < |init| && init[i] == b;
          assert id[order[i]] == i;
        }
      }
      NumbersBounded(init, id');
      assert id.Keys == id'.Keys + {last};
    }
  }

  lemma TraversalReaches(g: Cfg, order: seq<Block>, visited: set<Block>)
    requires g.Valid() && PostOrdered(g, order, visited)
    requires |order| > 0 && order[|order| - 1] == g.entry && Segment(g, order[..|order| - 1], 0, g.entry)
    requires forall u :: !Open(order, visited, u)
    ensures forall b :: b in order <==> g.Reachable(b)
  {
    forall b ensures b in order <==> g.Reachable(b) {
      if b in order {
        g.ReachesSelf(g.entry);
        var i :| 0 <= i < |order| && order[i] == b;
        assert i < |order| - 1 ==> order[..|order| - 1][i] == b;
      }
      if g.Reachable(b) {
        forall u, v | u in order && g.Edge(u, v) ensures v in order {
          var i :| 0 <= i < |order| && order[i] == u;
          assert Finished(g, order, visited, i);
          assert !Open(order, visited, v);
        }
        var p :| g.PathBetween(p, g.entry, b);
        g.ClosedContains(Elements(order), g.entry, p, b);
      }
    }
  }

  lemma TraversalParent(g: Cfg, order: seq<Block>, id: map<Block, nat>, b: Block)
    requires Numbering(order, id) && b in id && b != g.entry
    requires |order| > 0 && order[|order| - 1] == g.entry && Segment(g, order[..|order| - 1], 0, g.entry)
    ensures ParentBefore(g, id, b)
  {
    var i :| 0 <= i < |order| && order[i] == b;
    var init := order[..|order| - 1];
    assert init[i] == b && HasParent(g, init, i, g.entry);
    if g.Edge(g.entry, b) {
      assert id[order[|order| - 1]] == |order| - 1;
    } else {
      var j :| i < j < |init| && g.Edge(init[j], init[i]);
      assert id[order[j]] == j;
    }
  }

  lemma TraversalReversed(g: Cfg, order: seq<Block>, id: map<Block, nat>, visited: set<Block>)
    requires g.Valid() && PostOrdered(g, order, visited) && Numbering(order, id)
    requires |order| > 0 && order[|order| - 1] == g.entry && Segment(g, order[..|order| - 1], 0, g.entry)
    requires forall u :: !Open(order, visited, u)
    ensures ReversePostOrdered(g, Reversed(order), id)
  {
    TraversalReaches(g, order, visited);
    forall u, v | u in order && g.Edge(u, v) ensures v in order && (id[v] < id[u] || g.Reaches(v, u)) {
      var i :| 0 <= i < |order| && order[i] == u;
      assert Finished(g, order, visited, i);
      assert !Open(order, visited, v);
    }
    forall b | b in id && b != g.entry ensures ParentBefore(g, id, b) {
      TraversalParent(g, order, id, b);
    }
    forall b ensures Known(id, b) <==> b in Reversed(order) {
      if b in order {
        var i :| 0 <= i < |order| && order[i] == b;
        assert Reversed(order)[|order| - 1 - i] == b;
      }
    }
  }

  ghost function ParentOf(g: Cfg, id: map<Block, nat>, b: Block): (p: Block)
    requires b != g.entry ==> ParentBefore(g, id, b)
    ensures b != g.entry ==> p in id && b in id && g.Edge(p, b) && id[b] < id[p]
  {
    if b == g.entry then g.entry
    else var p :| p in id && b in id && g.Edge(p, b) && id[b] < id[p]; p
  }

  lemma CountNumbers(rpo: seq<Block>, id: map<Block, nat>)
    requires Covers(rpo, id)
    requires forall i :: 0 <= i < |rpo| ==> rpo[i] in id && id[rpo[i]] == |rpo| - 1 - i
    ensures |id| == |rpo|
  {
    var order := Reversed(rpo);
    forall b ensures b in id <==> b in order {
      assert Known(id, b) <==> b in rpo;
      if b in rpo {
        var i :| 0 <= i < |rpo| && rpo[i] == b;
        assert order[|rpo| - 1 - i] == b;
      }
    }
    NumbersBounded(order, id);
  }

  lemma NumberOf(rpo: seq<Block>, id: map<Block, nat>, b: Block) returns (i: nat)
    requires b in id && Covers(rpo, id)
    requires forall i :: 0 <= i < |rpo| ==> rpo[i] in id && id[rpo[i]] == |rpo| - 1 - i
    ensures i < |rpo| && rpo[i] == b && id[b] == |rpo| - 1 - i
  {
    assert Known(id, b);
    i :| 0 <= i < |rpo| && rpo[i] == b;
  }

  lemma SpanningTree(g: Cfg, rpo: seq<Block>, id: map<Block, nat>) returns (par: Tree)
    requires ReversePostOrdered(g, rpo, id)
    ensures Spanning(g, par) && par.id == id && par.DistinctIds()
  {
    par := Tree(g.entry, map b | b in id :: ParentOf(g, id, b), id);
    CountNumbers(rpo, id);
    forall b | b in id ensures id[b] < |id| {
      var i := NumberOf(rpo, id, b);
    }
    forall a, b | SameId(par.id, a, b) ensures a == b {
      var i := NumberOf(rpo, id, a);
      var j := NumberOf(rpo, id, b);
    }
    forall b {:trigger par.Up(b)} | b in id
      ensures par.Up(b) == ParentOf(g, id, b) && par.Up(b) in id
    {
      assert b != g.entry ==> ParentBefore(g, id, b);
    }
    assert rpo[0] in rpo;
  }

  // The pairs a parent pointer may still move to; a change takes one away.
  ghost function Room(t: Tree): set<(Block, Block)>
  {
    set b, a | b in t.id && a in t.id && (b in t.up && t.up[b] in t.id ==> t.id[t.up[b]] <= t.id[a]) :: (b, a)
  }

  lemma RoomShrinks(t: Tree, t': Tree, b: Block, y: Block)
    requires t.DistinctIds() && b in t.id && y in t.id && t' == t.(up := t.up[b := y])
    requires if b in t.up then t.up[b] in t.id && t.up[b] != y && t.id[t.up[b]] <= t.id[y] else t.id[b] < t.id[y]
    ensures Room(t') < Room(t)
  {
    var x := if b in t.up then t.up[b] else b;
    assert !SameId(t.id, x, y);
    assert (b, x) in Room(t) && (b, x) !in Room(t');
  }

  // z lies above the first k of the given blocks, as far as they have a parent.
  ghost predicate AboveAll(t: Tree, preds: seq<Block>, k: nat, z: Block)
    requires t.Valid() && k <= |preds|
  {
    forall m :: 0 <= m < k && preds[m] in t.up ==> z in t.Anc(preds[m])
  }

  // One predecessor more in the meet.
  lemma MeetNext(t: Tree, preds: seq<Block>, k: nat, pred: Block, x: Block, y: Block)
    requires t.Valid() && pred in t.up && x in t.up && y in t.up && k < |preds|
    requires forall z :: z in t.Anc(x) <==> z in t.Anc(pred) && AboveAll(t, preds, k, z)
    requires t.Anc(y) == if preds[k] != pred && preds[k] in t.up then t.Anc(preds[k]) * t.Anc(x) else t.Anc(x)
    ensures forall z :: z in t.Anc(y) <==> z in t.Anc(pred) && AboveAll(t, preds, k + 1, z)
  {
    var k1 := k + 1;
    forall z ensures AboveAll(t, preds, k1, z) <==>
      AboveAll(t, preds, k, z) && (preds[k] in t.up ==> z in t.Anc(preds[k])) {
    }
  }

  // The lower of two blocks is not above the other, so the climb may skip it.
  lemma SkipLower(t: Tree, a: Block, b: Block)
    requires t.Valid() && a in t.up && b in t.up && t.id[a] < t.id[b]
    ensures t.up[a] == t.Up(a) && t.Up(a) in t.up && t.id[a] < t.id[t.Up(a)]
    ensures t.Anc(t.Up(a)) * t.Anc(b) == t.Anc(a) * t.Anc(b) == t.Anc(b) * t.Anc(a) == t.Anc(b) * t.Anc(t.Up(a))
  {
    t.AncAbove(b, t.root);
    if a in t.Anc(b) {
      t.AncAbove(b, a);
    }
  }

  // Every merge block the entry reaches is entered only from reachable blocks. The walks
  // of the frontier computation end exactly under this condition.
  ghost predicate MergesReachable(g: Cfg)
    requires g.Valid()
  {
    forall x, p :: x in g.blocks && g.Reachable(x) && |g.pred[x]| >= 2 && p in g.pred[x] ==> g.Reachable(p)
  }

  lemma FrontierWalksEndIff(g: Cfg, t: Tree)
    requires IsDomTree(g, t)
    ensures MergesReachable(g) <==> forall x, p :: x in g.blocks && |g.pred[x]| >= 2 && p in g.pred[x] ==>
      WalkEnds(t, p, x)
  {
    forall x, p | x in g.blocks && |g.pred[x]| >= 2 && p in g.pred[x]
      ensures WalkEnds(t, p, x) <==> (g.Reachable(x) ==> g.Reachable(p))
    {
      assert g.Edge(p, x);
      WalkEndsIff(g, t, p, x);
    }
  }

  // The condition is needed: block 2 merges control from the entry and from block 1, which nothing
  // leads to. The graph has a dominator tree, and in every such tree the walk from block 1 never
  // meets the immediate dominator of block 2.
  lemma UnreachableArmNeverEnds() returns (g: Cfg, t: Tree)
    ensures g.Valid() && g.pred[g.entry] == [] && g.Edge(1, 2) && |g.pred[2]| == 2
    ensures IsDomTree(g, t) && forall u :: IsDomTree(g, u) ==> !WalkEnds(u, 1, 2)
  {
    g := Cfg({0, 1, 2}, 0, map[0 := [2], 1 := [2], 2 := []], map[0 := [], 1 := [], 2 := [0, 1]]);
    t := Tree(0, map[0 := 0, 2 := 0], map[0 := 1, 2 := 0]);
    ReachableInArm(g);
    TreeOfArm(g, t);
    assert g.Edge(1, 2);
    forall u | IsDomTree(g, u) ensures !WalkEnds(u, 1, 2) {
      WalkEndsIff(g, u, 1, 2);
    }
  }

  lemma ReachableInArm(g: Cfg)
    requires g == Cfg({0, 1, 2}, 0, map[0 := [2], 1 := [2], 2 := []], map[0 := [], 1 := [], 2 := [0, 1]])
    ensures forall b :: g.Reachable(b) <==> b == 0 || b == 2
  {
    g.ReachesSelf(0);
    assert g.Edge(0, 2);
    g.ReachableStep(0, 2);
    forall b ensures g.Reachable(b) ==> b == 0 || b == 2 {
      if g.Reachable(b) {
        var p :| g.PathBetween(p, 0, b);
        g.ClosedContains({0, 2}, 0, p, b);
      }
    }
  }

  lemma ArmDominators(g: Cfg, d: Block)
    requires g.entry == 0 && g.Edge(0, 2)
    ensures (g.Dom(d, 0) <==> d == 0) && (g.Dom(d, 2) <==> d == 0 || d == 2)
  {
    assert g.PathBetween([0], 0, 0);
    assert g.Linked([0, 2], 0) && g.PathBetween([0, 2], 0, 2);
    assert d in [0] <==> d == 0;
    assert d in [0, 2] <==> d == 0 || d == 2;
  }

  lemma ArmAncestors(t: Tree)
    requires t == Tree(0, map[0 := 0, 2 := 0], map[0 := 1, 2 := 0])
    ensures t.Valid() && t.Anc(0) == {0} && t.Anc(2) == {2, 0}
  {
  }

  lemma TreeOfArm(g: Cfg, t: Tree)
    requires g.Valid() && g.entry == 0 && g.pred.Keys == {0, 1, 2} && g.pred[0] == [] && g.Edge(0, 2)
    requires t == Tree(0, map[0 := 0, 2 := 0], map[0 := 1, 2 := 0])
    requires forall b :: g.Reachable(b) <==> b == 0 || b == 2
    ensures IsDomTree(g, t)
  {
    ArmAncestors(t);
    forall d ensures (d in t.Anc(0) <==> g.Dom(d, 0)) && (d in t.Anc(2) <==> g.Dom(d, 2)) {
      ArmDominators(g, d);
    }
  }

  ghost predicate OnSomeWalk(t: Tree, n: Block, preds: seq<Block>, x: Block)
    requires t.Valid()
  {
    exists p :: p in preds && OnWalk(t, n, p, x)
  }

  // Where the walk from p may stand before it has met the parent of x.
  ghost predicate Walking(t: Tree, p: Block, runner: Option<Block>, x: Block)
    requires t.Valid()
  {
    if p in t.up then runner.Some? && runner.value in t.Anc(p) && x in t.up && t.Up(x) in t.Anc(runner.value)
    else (runner == Some(p) || runner == None) && x !in t.up
  }

  // The blocks the walk has left behind.
  ghost predicate Passed(t: Tree, n: Block, p: Block, runner: Option<Block>)
    requires t.Valid() && (p in t.up ==> runner.Some? && runner.value in t.up)
  {
    if p in t.up then n in t.Anc(p) && n !in t.Anc(runner.value) else n == p && runner == None
  }

  ghost function WalkLeft(t: Tree, p: Block, runner: Option<Block>): nat
    requires t.Valid()
  {
    if p in t.up then (if runner.Some? && runner.value in t.up then |t.id| - t.id[runner.value] else 0)
    else if runner == Some(p) then 1 else 0
  }

  lemma WalkStart(g: Cfg, t: Tree, p: Block, x: Block)
    requires IsDomTree(g, t) && g.Edge(p, x) && (g.Reachable(x) ==> g.Reachable(p))
    ensures Walking(t, p, Some(p), x) && forall n :: !Passed(t, n, p, Some(p))
  {
    if p in t.up {
      ParentAbovePredecessor(g, t, p, x);
    } else {
      assert !g.Reachable(p);
    }
  }

  lemma WalkStep(g: Cfg, t: Tree, p: Block, runner: Option<Block>, x: Block)
    requires IsDomTree(g, t) && p in g.blocks && Walking(t, p, runner, x) && runner != Pointer(t, Some(x))
    ensures runner.Some? && runner.value in g.blocks
    ensures Walking(t, p, Pointer(t, runner), x)
    ensures WalkLeft(t, p, Pointer(t, runner)) < WalkLeft(t, p, runner)
    ensures forall n :: Passed(t, n, p, Pointer(t, runner)) <==> Passed(t, n, p, runner) || n == runner.value
  {
    if p in t.up {
      var r := runner.value;
      assert t.Up(r) in t.up;
      t.AncAbove(r, t.Up(x));
      t.AncTrans(p, r);
      assert g.Reachable(r);
      g.ReachableInBlocks(r);
      if r in t.Anc(t.Up(r)) {
        t.AncAbove(t.Up(r), r);
      }
    }
  }

  // The blocks passed have got x, and nothing else has been added.
  ghost predicate WalkAdded(t: Tree, before: map<Block, set<Block>>, after: map<Block, set<Block>>, p: Block,
      runner: Option<Block>, x: Block)
    requires t.Valid() && Walking(t, p, runner, x)
  {
    after.Keys == before.Keys && forall n :: n in after ==>
      after[n] == before[n] + (if Passed(t, n, p, runner) then {x} else {})
  }

  lemma WalkAdds(g: Cfg, t: Tree, before: map<Block, set<Block>>, after: map<Block, set<Block>>, p: Block,
      runner: Option<Block>, x: Block)
    requires IsDomTree(g, t) && p in g.blocks && Walking(t, p, runner, x) && runner != Pointer(t, Some(x))
    requires runner.Some? && runner.value in after && WalkAdded(t, before, after, p, runner, x)
    ensures Walking(t, p, Pointer(t, runner), x)
    ensures WalkAdded(t, before, after[runner.value := after[runner.value] + {x}], p, Pointer(t, runner), x)
  {
    WalkStep(g, t, p, runner, x);
  }

  lemma WalkDone(g: Cfg, t: Tree, p: Block, runner: Option<Block>, x: Block)
    requires IsDomTree(g, t) && Walking(t, p, runner, x) && runner == Pointer(t, Some(x))
    ensures forall n :: Passed(t, n, p, runner) <==> OnWalk(t, n, p, x)
  {
  }

  lemma ParentInGraph(g: Cfg, t: Tree, c: Block)
    requires IsDomTree(g, t) && c in t.up
    ensures c in g.blocks && t.up[c] in g.blocks && (t.up[c] == c <==> c == g.entry)
  {
    assert g.Reachable(c) && t.Up(c) in t.up;
    assert g.Reachable(t.Up(c));
    g.ReachableInBlocks(c);
    g.ReachableInBlocks(t.Up(c));
  }

  // The state between two blocks of one sweep. `w` is the visited part of the order, and as
  // long as nothing has changed the visited blocks are settled in the tree of the sweep's start.
  ghost predicate Sweeping(g: Cfg, par: Tree, start: Tree, t: Tree, w: set<Block>, changed: bool)
  {
    && Inv(g, par, t, w) && t.DistinctIds() && t.id == start.id
    && Room(t) <= Room(start)
    && (changed ==> Room(t) < Room(start))
    && (!changed ==> t == start && forall v {:trigger Settled(g, t, v)} :: v in w && v != t.root ==> Settled(g, t, v))
  }

  lemma SweepStart(g: Cfg, par: Tree, t: Tree, w: set<Block>)
    requires Inv(g, par, t, w) && t.DistinctIds()
    ensures Sweeping(g, par, t, t, {g.entry}, false)
  {
  }

  lemma InitialTree(g: Cfg, par: Tree)
    requires Spanning(g, par)
    ensures Inv(g, par, Tree(g.entry, map[g.entry := g.entry], par.id), {g.entry})
  {
    g.ReachesSelf(g.entry);
  }

  lemma SweepStep(g: Cfg, par: Tree, start: Tree, t: Tree, w: set<Block>, changed: bool, b: Block, y: Block)
    returns (t': Tree)
    requires Sweeping(g, par, start, t, w, changed)
    requires b in par.up && b != t.root && b !in w && par.Up(b) in w
    requires forall v :: v in w ==> t.id[b] < t.id[v]
    requires b in g.blocks && IsMeet(g, t, b, y)
    ensures t' == t.(up := t.up[b := y])
    ensures Sweeping(g, par, start, t', w + {b}, changed || b !in t.up || t.up[b] != y)
  {
    t' := Step(g, par, t, w, b, y);
    if b !in t.up || t.up[b] != y {
      RoomShrinks(t, t', b, y);
    } else {
      assert t'.up == t.up;
      assert t' == t;
      assert t.Up(b) == y;
      g.ReachableInBlocks(b);
      assert Settled(g, t, b);
    }
  }

  // In reverse post order the next block comes after its spanning-tree parent.
  lemma NextInOrder(g: Cfg, par: Tree, rpo: seq<Block>, i: nat, w: set<Block>)
    requires Spanning(g, par) && ReversePostOrdered(g, rpo, par.id)
    requires i < |rpo| && w == {g.entry} + Elements(rpo[..i])
    requires rpo[i] != g.entry
    ensures rpo[i] in par.up && rpo[i] !in w && par.Up(rpo[i]) in w
    ensures forall v :: v in w ==> v in par.id && par.id[rpo[i]] < par.id[v]
  {
    var b := rpo[i];
    assert b in rpo && par.Up(b) in par.up;
    var j := NumberOf(rpo, par.id, par.Up(b));
    assert rpo[..i][j] == par.Up(b);
    forall v | v in w ensures v in par.id && par.id[b] < par.id[v] {
      if v == g.entry {
        assert rpo[0] == v;
      } else {
        var k :| 0 <= k < i && rpo[k] == v;
      }
    }
  }

  lemma AllVisited(g: Cfg, par: Tree, rpo: seq<Block>)
    requires Spanning(g, par) && Covers(rpo, par.id)
    ensures {g.entry} + Elements(rpo[..|rpo|]) == par.up.Keys
  {
    assert rpo[..|rpo|] == rpo;
    forall b ensures b in par.up <==> b in {g.entry} + Elements(rpo) {
      assert Known(par.id, b) <==> b in rpo;
    }
  }

  // A block whose spanning-tree parent has been placed has a predecessor to start from.
  lemma StartingPredecessor(g: Cfg, par: Tree, t: Tree, w: set<Block>, b: Block)
    requires Inv(g, par, t, w) && b in par.up && b != t.root && par.Up(b) in w
    ensures b in g.blocks && par.Up(b) in g.pred[b] && par.Up(b) in t.up
  {
    g.ReachableInBlocks(b);
    assert g.Edge(par.Up(b), b);
  }

  class DominatorPass {
    const g: Cfg
    var reversePostOrder: seq<Block>
    var postOrderId: map<Block, nat>
    var idom: map<Block, Block>             // a block without an entry has a null immediate dominator
    var domFrontier: map<Block, set<Block>>
    var domTreeSucc: map<Block, set<Block>>

    constructor (g: Cfg)
      ensures this.g == g
    {
      this.g := g;
      reversePostOrder, postOrderId, idom, domFrontier, domTreeSucc := [], map[], map[], map[], map[];
    }

    // Depth-first visit of bb, which finishes bb after everything it discovers from it.
    method PostOrderVisit(bb: Block, seen: set<Block>) returns (visited: set<Block>)
      requires MayVisit(g, reversePostOrder, postOrderId, seen, bb)
      modifies this`reversePostOrder, this`postOrderId
      ensures Explored(g, old(reversePostOrder), seen, reversePostOrder, postOrderId, visited, bb)
      decreases g.blocks - seen
    {
      visited := seen + {bb};
      VisitStarts(g, reversePostOrder, postOrderId, seen, bb);
      var succs := g.succ[bb];
      for k := 0 to |succs|
        invariant UnderWay(g, old(reversePostOrder), seen, reversePostOrder, postOrderId, visited, bb)
        invariant forall j :: 0 <= j < k ==> succs[j] in visited
      {
        var b := succs[k];
        if b !in visited {
          ghost var before, idBefore, visitedBefore := reversePostOrder, postOrderId, visited;
          VisitDescends(g, old(reversePostOrder), seen, before, idBefore, visited, bb, b);
          visited := PostOrderVisit(b, visited);
          VisitReturns(g, old(reversePostOrder), seen, before, idBefore, visitedBefore, bb, b, reversePostOrder,
            postOrderId, visited);
        }
      }
      VisitEnds(g, old(reversePostOrder), seen, reversePostOrder, postOrderId, visited, bb);
      postOrderId := postOrderId[bb := |reversePostOrder|];
      reversePostOrder := reversePostOrder + [bb];
    }

    method CreateReversePostOrder()
      requires g.Valid()
      modifies this`reversePostOrder, this`postOrderId
      ensures ReversePostOrdered(g, reversePostOrder, postOrderId)
    {
      reversePostOrder, postOrderId := [], map[];
      var visited := PostOrderVisit(g.entry, {});
      TraversalReversed(g, reversePostOrder, postOrderId, visited);
      reversePostOrder := Reversed(reversePostOrder);
    }

    // The current parent pointers together with the numbering.
    ghost function Current(): Tree
      reads this
    {
      Tree(g.entry, idom, postOrderId)
    }

    // The closest common ancestor of two blocks in the current tree.
    method Intersect(x: Block, y: Block) returns (b1: Block)
      requires Current().Valid() && Current().DistinctIds() && x in idom && y in idom
      ensures b1 in idom && Current().Anc(b1) == Current().Anc(x) * Current().Anc(y)
    {
      ghost var t := Current();
      ghost var both := t.Anc(x) * t.Anc(y);
      b1 := x;
      var b2 := y;
      while b1 != b2
        invariant b1 in idom && b2 in idom
        invariant t.Anc(b1) * t.Anc(b2) == both
        decreases |t.id| - t.id[b1] + |t.id| - t.id[b2]
      {
        ghost var c1, c2 := b1, b2;
        assert !SameId(t.id, b1, b2);
        while postOrderId[b1] < postOrderId[b2]
          invariant b1 in idom && t.id[c1] <= t.id[b1] && (t.id[c1] < t.id[c2] ==> b1 == c1 || t.id[c1] < t.id[b1])
          invariant t.Anc(b1) * t.Anc(b2) == both
          decreases |t.id| - t.id[b1]
        {
          SkipLower(t, b1, b2);
          b1 := idom[b1];
        }
        while postOrderId[b2] < postOrderId[b1]
          invariant b2 in idom && t.id[c2] <= t.id[b2] && (b2 == c2 || t.id[c2] < t.id[b2])
          invariant t.Anc(b1) * t.Anc(b2) == both
          decreases |t.id| - t.id[b2]
        {
          SkipLower(t, b2, b1);
          b2 := idom[b2];
        }
      }
    }

    // The meet of the predecessors of bb that already have an immediate dominator.
    method NewIdom(bb: Block) returns (newIdom: Block)
      requires g.Valid() && bb in g.blocks && Current().Valid() && Current().DistinctIds()
      requires exists p :: p in g.pred[bb] && p in idom
      ensures IsMeet(g, Current(), bb, newIdom)
    {
      ghost var t := Current();
      var preds := g.pred[bb];
      var j := 0;
      while j < |preds| && preds[j] !in idom
        invariant 0 <= j <= |preds|
        invariant forall m :: 0 <= m < j ==> preds[m] !in idom
      {
        j := j + 1;
      }
      assert j < |preds|;
      var pred := preds[j];
      newIdom := pred;
      for k := 0 to |preds|
        invariant newIdom in idom
        invariant forall z :: z in t.Anc(newIdom) <==> z in t.Anc(pred) && AboveAll(t, preds, k, z)
      {
        var p := preds[k];
        ghost var idom0 := newIdom;
        if p != pred && p in idom {
          newIdom := Intersect(p, newIdom);
        }
        MeetNext(t, preds, k, pred, idom0, newIdom);
      }
    }

    // One block of a sweep: recompute its immediate dominator and note a change.
    method UpdateIdom(bb: Block, changed0: bool, ghost par: Tree, ghost start: Tree, ghost done: set<Block>)
        returns (changed: bool)
      requires Sweeping(g, par, start, Current(), done, changed0)
      requires bb in par.up && bb != g.entry && bb !in done && par.Up(bb) in done
      requires forall v :: v in done ==> v in par.id && par.id[bb] < par.id[v]
      modifies this`idom
      ensures Sweeping(g, par, start, Current(), done + {bb}, changed)
    {
      changed := changed0;
      ghost var t := Current();
      StartingPredecessor(g, par, t, done, bb);
      var newIdom := NewIdom(bb);
      ghost var next := SweepStep(g, par, start, t, done, changed, bb, newIdom);
      if bb !in idom || idom[bb] != newIdom {
        idom := idom[bb := newIdom];
        changed := true;
      }
      assert Current().up == next.up;
      assert Current() == next;
    }

    // One sweep over the blocks in reverse post order.
    method Sweep(ghost par: Tree) returns (changed: bool)
      requires ReversePostOrdered(g, reversePostOrder, postOrderId)
      requires Sweeping(g, par, Current(), Current(), {g.entry}, false)
      modifies this`idom
      ensures Sweeping(g, par, old(Current()), Current(), par.up.Keys, changed)
    {
      changed := false;
      ghost var start := Current();
      ghost var done := {g.entry};
      for i := 0 to |reversePostOrder|
        invariant Sweeping(g, par, start, Current(), done, changed)
        invariant done == {g.entry} + Elements(reversePostOrder[..i])
      {
        var bb := reversePostOrder[i];
        ElementsSnoc(reversePostOrder, i);
        if bb != g.entry {
          NextInOrder(g, par, reversePostOrder, i, done);
          changed := UpdateIdom(bb, changed, par, start, done);
        }
        done := done + {bb};
      }
      AllVisited(g, par, reversePostOrder);
    }

    // Sweeps until nothing changes.
    method CreateIdom()
      requires ReversePostOrdered(g, reversePostOrder, postOrderId)
      modifies this`idom
      ensures IsDomTree(g, Current()) && Current().DistinctIds()
    {
      ghost var par := SpanningTree(g, reversePostOrder, postOrderId);
      idom := map[g.entry := g.entry];
      InitialTree(g, par);
      ghost var done := {g.entry};
      var changed := true;
      while changed
        invariant Inv(g, par, Current(), done) && Current().DistinctIds()
        invariant !changed ==> done == par.up.Keys && AllSettled(g, Current())
        decreases Room(Current()), changed
      {
        SweepStart(g, par, Current(), done);
        changed := Sweep(par);
        done := par.up.Keys;
      }
      SettledIsDomTree(g, par, Current());
    }

    // The immediate dominator as the program reads it: null where there is none.
    function GetIdom(b: Block): (r: Option<Block>)
      reads this`idom
    {
      if b in idom then Some(idom[b]) else None
    }

    // Adds bb to the frontier of every block from p up to the immediate dominator of bb.
    method RunFrontier(p: Block, bb: Block)
      requires IsDomTree(g, Current()) && g.Edge(p, bb) && bb in g.blocks
      requires g.Reachable(bb) ==> g.Reachable(p)
      requires domFrontier.Keys == g.blocks
      modifies this`domFrontier
      ensures domFrontier.Keys == g.blocks
      ensures forall n :: n in g.blocks ==>
        domFrontier[n] == old(domFrontier[n]) + (if OnWalk(Current(), n, p, bb) then {bb} else {})
    {
      ghost var t := Current();
      ghost var before := domFrontier;
      var runner := Some(p);
      WalkStart(g, t, p, bb);
      while runner != GetIdom(bb)
        invariant Walking(t, p, runner, bb) && WalkAdded(t, before, domFrontier, p, runner, bb)
        decreases WalkLeft(t, p, runner)
      {
        WalkStep(g, t, p, runner, bb);
        WalkAdds(g, t, before, domFrontier, p, runner, bb);
        domFrontier := domFrontier[runner.value := domFrontier[runner.value] + {bb}];
        runner := GetIdom(runner.value);
      }
      WalkDone(g, t, p, runner, bb);
    }

    // Walks up from every predecessor of a block that has at least two of them.
    method CollectFrontier(bb: Block)
      requires IsDomTree(g, Current()) && MergesReachable(g) && bb in g.blocks && domFrontier.Keys == g.blocks
      modifies this`domFrontier
      ensures domFrontier.Keys == g.blocks
      ensures forall n, x :: n in g.blocks ==>
        (x in domFrontier[n] <==> x in old(domFrontier[n]) || (x == bb && InFrontier(g, Current(), n, bb)))
    {
      var preds := g.pred[bb];
      if |preds| >= 2 {
        ghost var t, before := Current(), domFrontier;
        for k := 0 to |preds|
          invariant domFrontier.Keys == g.blocks
          invariant forall n, x :: n in g.blocks ==>
            (x in domFrontier[n] <==> x in before[n] || (x == bb && OnSomeWalk(t, n, preds[..k], bb)))
        {
          assert preds[k] in preds && g.Edge(preds[k], bb);
          RunFrontier(preds[k], bb);
          assert preds[..k + 1] == preds[..k] + [preds[k]];
        }
        assert preds[..|preds|] == preds;
      }
    }

    // The frontiers of all blocks.
    method CreateDominanceFrontier()
      requires IsDomTree(g, Current()) && MergesReachable(g)
      modifies this`domFrontier
      ensures domFrontier.Keys == g.blocks
      ensures forall n, x :: n in g.blocks ==> (x in domFrontier[n] <==> InFrontier(g, Current(), n, x))
    {
      domFrontier := map b | b in g.blocks :: {};
      ghost var t := Current();
      var todo := g.blocks;
      while todo != {}
        invariant todo <= g.blocks && domFrontier.Keys == g.blocks
        invariant forall n, x :: n in g.blocks ==> (x in domFrontier[n] <==> x !in todo && InFrontier(g, t, n, x))
        decreases todo
      {
        var bb :| bb in todo;
        CollectFrontier(bb);
        todo := todo - {bb};
      }
    }

    ghost predicate IsChild(c: Block, b: Block)
      reads this`idom
    {
      c in g.blocks && c in idom && c != g.entry && idom[c] == b
    }

    // The children of every block in the dominator tree.
    method CreateDomTreeSucc()
      requires IsDomTree(g, Current())
      modifies this`domTreeSucc
      ensures domTreeSucc.Keys == g.blocks
      ensures forall b, c :: b in g.blocks ==> (c in domTreeSucc[b] <==> IsChild(c, b))
    {
      domTreeSucc := map b | b in g.blocks :: {};
      var todo := g.blocks;
      while todo != {}
        invariant todo <= g.blocks && domTreeSucc.Keys == g.blocks
        invariant forall b, c :: b in g.blocks ==> (c in domTreeSucc[b] <==> c !in todo && IsChild(c, b))
        decreases todo
      {
        var bb :| bb in todo;
        var parent := GetIdom(bb);
        // A null parent would only add a child to the null block, which nobody asks for.
        if bb in idom {
          ParentInGraph(g, Current(), bb);
        }
        if parent.Some? && parent.value != bb {
          domTreeSucc := domTreeSucc[parent.value := domTreeSucc[parent.value] + {bb}];
        }
        todo := todo - {bb};
      }
    }

    // The whole pass over one function.
    method Run()
      requires g.Valid() && MergesReachable(g)
      modifies this
      ensures IsDomTree(g, Current())
      ensures domFrontier.Keys == g.blocks && domTreeSucc.Keys == g.blocks
      ensures forall n, x :: n in g.blocks ==> (x in domFrontier[n] <==> InFrontier(g, Current(), n, x))
      ensures forall b, c :: b in g.blocks ==> (c in domTreeSucc[b] <==> IsChild(c, b))
    {
      CreateReversePostOrder();
      CreateIdom();
      CreateDominanceFrontier();
      CreateDomTreeSucc();
    }
  }
}
