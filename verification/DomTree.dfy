// Parent trees over blocks, and the theory behind the fixed point that computes immediate
// dominators: what each step of the sweep keeps, and what the end of the last sweep means.
module DomTree {
  import opened Graph

  ghost predicate SameId(id: map<Block, nat>, a: Block, b: Block)
  {
    a in id && b in id && id[a] == id[b]
  }

  // A tree given by parent pointers. Numbers increase towards the root, which points to itself.
  // A block without an entry in `up` has a null parent pointer.
  datatype Tree = Tree(root: Block, up: map<Block, Block>, id: map<Block, nat>)
  {
    // The parent of b.
    ghost function Up(b: Block): Block
    {
      if b in up then up[b] else root
    }

    ghost predicate Valid()
    {
      && root in up && Up(root) == root
      && (forall b :: b in id ==> id[b] < |id|)
      && (forall b :: b in up ==> b in id)
      && (forall b {:trigger Up(b)} :: b in up ==> Up(b) in up)
      && (forall b {:trigger Up(b)} :: b in up && b != root ==> Up(b) in id && id[b] < id[Up(b)])
    }

    ghost predicate DistinctIds()
    {
      forall a, b :: SameId(id, a, b) ==> a == b
    }

    // b and the blocks above it.
    ghost function Anc(b: Block): (s: set<Block>)
      requires Valid() && b in up
      ensures b in s && root in s && s <= up.Keys
      decreases |id| - id[b]
    {
      if b == root then {b} else {b} + Anc(Up(b))
    }

    lemma {:induction false} AncAbove(b: Block, y: Block)
      requires Valid() && b in up && y in Anc(b)
      ensures y in up && id[b] <= id[y]
      ensures y != b ==> b != root && y in Anc(Up(b)) && id[b] < id[y]
      decreases |id| - id[b]
    {
      if b != root && y != b {
        AncAbove(Up(b), y);
      }
    }

    // Two blocks above b are above each other in the order of their numbers.
    lemma {:induction false} AncChain(b: Block, x: Block, y: Block)
      requires Valid() && b in up && x in Anc(b) && y in Anc(b) && id[x] <= id[y]
      ensures y in Anc(x)
      decreases |id| - id[b]
    {
      if x != b {
        AncAbove(b, x);
        AncAbove(b, y);
        AncChain(Up(b), x, y);
      }
    }

    lemma {:induction false} AncTrans(b: Block, x: Block)
      requires Valid() && b in up && x in Anc(b)
      ensures x in up && Anc(x) <= Anc(b)
      decreases |id| - id[b]
    {
      AncAbove(b, x);
      if x != b {
        AncTrans(Up(b), x);
      }
    }

    // The block on the way from b up to c that is just below c.
    lemma {:induction false} Below(b: Block, c: Block) returns (y: Block)
      requires Valid() && b in up && c in Anc(b) && c != b
      ensures y in Anc(b) && y in up && y != root && Up(y) == c
      decreases |id| - id[b]
    {
      AncAbove(b, c);
      y := b;
      if Up(b) != c {
        y := Below(Up(b), c);
      }
    }

    // Two blocks neither of which is above the other lie below different children of one block.
    lemma {:induction false} Siblings(b: Block, d: Block) returns (x: Block, y: Block)
      requires Valid() && b in up && d in up && b !in Anc(d) && d !in Anc(b)
      ensures x in Anc(b) && y in Anc(d) && x != y && x in up && y in up && x != root && y != root && Up(x) == Up(y)
      decreases |id| - id[b]
    {
      x := b;
      if Up(b) in Anc(d) {
        y := Below(d, Up(b));
      } else {
        x, y := Siblings(Up(b), d);
      }
    }
  }

  // The blocks above every predecessor of c that already has a parent.
  ghost predicate Common(g: Cfg, t: Tree, c: Block, y: Block)
    requires g.Valid() && c in g.blocks && t.Valid()
  {
    && y in t.up
    && forall p :: p in g.pred[c] && p in t.up ==> y in t.Anc(p)
  }

  // y is the lowest of the blocks above all placed predecessors of c.
  ghost predicate IsMeet(g: Cfg, t: Tree, c: Block, y: Block)
    requires g.Valid() && c in g.blocks && t.Valid()
  {
    y in t.up && forall z :: Common(g, t, c, z) <==> z in t.Anc(y)
  }

  // What a traversal of the graph supplies: a tree of graph edges that spans the reachable blocks.
  ghost predicate Spanning(g: Cfg, par: Tree)
  {
    && g.Valid() && par.Valid() && par.root == g.entry
    && par.up.Keys == par.id.Keys
    && (forall b {:trigger g.Reachable(b)} :: b in par.up <==> g.Reachable(b))
    && (forall b {:trigger par.Up(b)} :: b in par.up && b != g.entry ==> g.Edge(par.Up(b), b))
  }

  // The invariant of the iteration. `w` holds the blocks already visited in the current sweep.
  ghost predicate Inv(g: Cfg, par: Tree, t: Tree, w: set<Block>)
  {
    && Spanning(g, par)
    && t.Valid() && t.root == g.entry && t.id == par.id
    && Visited(par, w) && w <= t.up.Keys
    && (forall b {:trigger ParentSpans(par, t, b)} :: b in t.up && b != t.root ==> ParentSpans(par, t, b))
    && (forall b {:trigger ParentFollows(par, t, b)} :: b in w && b != t.root ==> ParentFollows(par, t, b))
    && (forall c {:trigger NearestSoFar(g, t, c)} :: c in t.up && c != t.root ==> NearestSoFar(g, t, c))
    && (forall c {:trigger KeepsDominators(g, t, c)} :: c in t.up && c != t.root ==> KeepsDominators(g, t, c))
  }

  // The tentative parent of b is a proper ancestor of b in the spanning tree.
  ghost predicate ParentSpans(par: Tree, t: Tree, b: Block)
    requires par.Valid() && b in par.up
  {
    t.Up(b) in par.Anc(par.Up(b))
  }

  // The tentative parent of b lies, in the current tree, above the spanning-tree parent of b.
  ghost predicate ParentFollows(par: Tree, t: Tree, b: Block)
    requires t.Valid()
  {
    par.Up(b) in t.up && t.Up(b) in t.Anc(par.Up(b))
  }

  // A set of blocks that contains the root and is closed under spanning-tree parents.
  ghost predicate Visited(par: Tree, w: set<Block>)
    requires par.Valid()
  {
    && w <= par.up.Keys && par.root in w
    && forall b {:trigger par.Up(b)} :: b in w ==> par.Up(b) in w
  }

  // Common ancestors of the predecessors are never below the tentative parent.
  ghost predicate NearestSoFar(g: Cfg, t: Tree, c: Block)
    requires g.Valid() && t.Valid() && c in t.up
  {
    && c in g.blocks
    && (exists p :: p in g.pred[c] && p in t.up)
    && forall y :: Common(g, t, c, y) ==> t.id[t.Up(c)] <= t.id[y]
  }

  ghost predicate KeepsDominators(g: Cfg, t: Tree, c: Block)
    requires t.Valid() && c in t.up
  {
    forall d :: g.StrictDom(d, c) ==> g.Dom(d, t.Up(c))
  }

  // The parent of c is exactly the meet of its predecessors.
  ghost predicate Settled(g: Cfg, t: Tree, c: Block)
    requires g.Valid() && t.Valid() && c in t.up
  {
    c in g.blocks && IsMeet(g, t, c, t.Up(c))
  }

  ghost predicate AllSettled(g: Cfg, t: Tree)
    requires g.Valid() && t.Valid()
  {
    forall c {:trigger Settled(g, t, c)} :: c in t.up && c != t.root ==> Settled(g, t, c)
  }

  lemma {:induction false} AncWithinSpanning(g: Cfg, par: Tree, t: Tree, w: set<Block>, b: Block)
    requires Inv(g, par, t, w) && b in t.up
    ensures b in par.up && t.Anc(b) <= par.Anc(b)
    decreases |t.id| - t.id[b]
  {
    if b != t.root {
      assert ParentSpans(par, t, b);
      AncWithinSpanning(g, par, t, w, t.Up(b));
      par.AncTrans(par.Up(b), t.Up(b));
    }
  }

  // For a visited block, a spanning-tree ancestor u has above it everything
  // that the visited block has from u upwards.
  lemma {:induction false} VisitedChain(g: Cfg, par: Tree, t: Tree, w: set<Block>, b: Block, u: Block, y: Block)
    requires Inv(g, par, t, w) && b in w && u in par.Anc(b) && y in t.Anc(b) && u in t.id && y in t.id &&
      t.id[u] <= t.id[y]
    ensures u in w && y in t.Anc(u)
    decreases |t.id| - t.id[b]
  {
    if u != b {
      par.AncAbove(b, u);
      t.AncAbove(b, y);
      assert ParentFollows(par, t, b);
      t.AncTrans(par.Up(b), t.Up(b));
      VisitedChain(g, par, t, w, par.Up(b), u, y);
    }
  }

  // Dominators of a placed block lie above it, and between it and a block above it.
  lemma {:induction false} DominatorAbove(g: Cfg, t: Tree, b: Block, d: Block)
    requires t.Valid() && t.root == g.entry && b in t.up && g.Dom(d, b)
    requires forall c {:trigger KeepsDominators(g, t, c)} :: c in t.up && c != t.root ==> KeepsDominators(g, t, c)
    ensures d in t.Anc(b)
    decreases |t.id| - t.id[b]
  {
    if b == t.root {
      assert g.PathBetween([b], g.entry, b);
    } else if d != b {
      assert KeepsDominators(g, t, b) && g.StrictDom(d, b);
      DominatorAbove(g, t, t.Up(b), d);
    }
  }

  lemma {:induction false} DominatorOfAncestor(g: Cfg, t: Tree, b: Block, m: Block, d: Block)
    requires t.Valid() && t.root == g.entry && b in t.up && m in t.Anc(b) && g.Dom(d, b)
    requires d in t.id && m in t.id && t.id[m] <= t.id[d]
    requires forall c {:trigger KeepsDominators(g, t, c)} :: c in t.up && c != t.root ==> KeepsDominators(g, t, c)
    ensures g.Dom(d, m)
    decreases |t.id| - t.id[b]
  {
    if m != b {
      t.AncAbove(b, m);
      assert KeepsDominators(g, t, b) && g.StrictDom(d, b);
      DominatorOfAncestor(g, t, t.Up(b), m, d);
    }
  }

  // Moving one parent pointer up (or setting it for the first time) only shrinks what lies above a block.
  lemma {:induction false} AncShrinks(t: Tree, t': Tree, b: Block, y: Block, c: Block)
    requires t.Valid() && t'.Valid() && b != t.root && y in t.up && c in t.up
    requires t' == t.(up := t.up[b := y])
    requires b in t.up ==> y in t.Anc(t.Up(b))
    ensures t'.Anc(c) <= t.Anc(c)
    ensures b in t.id && t.id[b] < t.id[c] ==> t'.Anc(c) == t.Anc(c)
    decreases |t.id| - t.id[c]
  {
    if c == t.root {
    } else if c == b {
      assert t'.Up(b) == y;
      if b in t.up {
        t.AncTrans(t.Up(b), y);
      }
      AncShrinks(t, t', b, y, y);
    } else {
      AncShrinks(t, t', b, y, t.Up(c));
    }
  }

  // If the meet y of the placed predecessors of b becomes its parent, y lies above the old parent.
  lemma MovesUp(g: Cfg, par: Tree, t: Tree, w: set<Block>, b: Block, y: Block)
    requires Inv(g, par, t, w)
    requires b in par.up && b != t.root && b !in w && par.Up(b) in w
    requires b in g.blocks && IsMeet(g, t, b, y)
    ensures y in t.Anc(par.Up(b)) && t.id[b] < t.id[y]
    ensures b in t.up ==> y in t.Anc(t.Up(b)) && t.id[t.Up(b)] <= t.id[y]
  {
    assert Common(g, t, b, y);
    assert g.Edge(par.Up(b), b);
    assert y in t.Anc(par.Up(b));
    t.AncAbove(par.Up(b), y);
    if b in t.up {
      assert NearestSoFar(g, t, b) && ParentSpans(par, t, b);
      VisitedChain(g, par, t, w, par.Up(b), t.Up(b), y);
    }
  }

  lemma NearestKept(g: Cfg, par: Tree, t: Tree, t': Tree, w: set<Block>, b: Block, y: Block, c: Block)
    requires Inv(g, par, t, w) && t'.Valid()
    requires b in par.up && b != t.root && b !in w && par.Up(b) in w
    requires b in g.blocks && IsMeet(g, t, b, y)
    requires t' == t.(up := t.up[b := y])
    requires c in t'.up && c != t.root
    ensures NearestSoFar(g, t', c)
  {
    MovesUp(g, par, t, w, b, y);
    g.ReachableInBlocks(b);
    assert g.Edge(par.Up(b), b);
    assert c != b ==> NearestSoFar(g, t, c);
    var q :| q in g.pred[c] && q in t.up;
    forall z | Common(g, t', c, z) ensures t'.id[t'.Up(c)] <= t'.id[z] {
      forall p | p in g.pred[c] && p in t.up ensures z in t.Anc(p) {
        AncShrinks(t, t', b, y, p);
      }
      t.AncAbove(q, z);
      assert Common(g, t, c, z);
      if c == b {
        t.AncAbove(y, z);
      }
    }
  }

  lemma SpansKept(g: Cfg, par: Tree, t: Tree, t': Tree, w: set<Block>, b: Block, y: Block, c: Block)
    requires Inv(g, par, t, w) && t'.Valid() && t' == t.(up := t.up[b := y])
    requires b in par.up && b != t.root && b !in w && par.Up(b) in w
    requires y in t.Anc(par.Up(b)) && c in t'.up && c != t.root
    ensures ParentSpans(par, t', c)
  {
    AncWithinSpanning(g, par, t, w, par.Up(b));
    assert c != b ==> ParentSpans(par, t, c);
  }

  // One step of the sweep: b receives the meet of its placed predecessors.
  lemma Step(g: Cfg, par: Tree, t: Tree, w: set<Block>, b: Block, y: Block) returns (t': Tree)
    requires Inv(g, par, t, w)
    requires b in par.up && b != t.root && b !in w && par.Up(b) in w
    requires forall v :: v in w ==> t.id[b] < t.id[v]
    requires b in g.blocks && IsMeet(g, t, b, y)
    ensures t' == t.(up := t.up[b := y])
    ensures Inv(g, par, t', w + {b})
    ensures b in t.up ==> t.id[t.Up(b)] <= t.id[y]
    ensures t.id[b] < t.id[y]
  {
    MovesUp(g, par, t, w, b, y);
    t' := t.(up := t.up[b := y]);
    ParentSet(t, t', b, y);
    forall c | c in t'.up && c != t'.root ensures ParentSpans(par, t', c) {
      SpansKept(g, par, t, t', w, b, y, c);
    }
    forall v | v in w + {b} && v != t.root ensures ParentFollows(par, t', v) {
      VisitedKept(g, par, t, t', w, b, y, v);
    }
    forall c | c in t'.up && c != t'.root ensures NearestSoFar(g, t', c) {
      NearestKept(g, par, t, t', w, b, y, c);
    }
    forall c | c in t'.up && c != t'.root ensures KeepsDominators(g, t', c) {
      DominatorsKept(g, par, t, t', w, b, y, c);
    }
  }

  lemma ParentSet(t: Tree, t': Tree, b: Block, y: Block)
    requires t.Valid() && b in t.id && y in t.up && b != t.root && t.id[b] < t.id[y]
    requires t' == t.(up := t.up[b := y])
    ensures t'.Valid()
    ensures forall c {:trigger t'.Up(c)} :: t'.Up(c) == if c == b then y else t.Up(c)
  {
    assert forall c {:trigger t'.Up(c)} :: t'.Up(c) == if c == b then y else t.Up(c);
  }

  lemma VisitedKept(g: Cfg, par: Tree, t: Tree, t': Tree, w: set<Block>, b: Block, y: Block, v: Block)
    requires Inv(g, par, t, w)
    requires b in par.up && b != t.root && b !in w && par.Up(b) in w
    requires forall v :: v in w ==> t.id[b] < t.id[v]
    requires y in t.Anc(par.Up(b)) && t.id[b] < t.id[y]
    requires b in t.up ==> y in t.Anc(t.Up(b))
    requires t'.Valid() && t' == t.(up := t.up[b := y])
    requires v in w + {b} && v != t.root
    ensures ParentFollows(par, t', v)
  {
    assert v != b ==> ParentFollows(par, t, v);
    ParentSet(t, t', b, y);
    AncShrinks(t, t', b, y, par.Up(v));
  }

  lemma DominatorsKept(g: Cfg, par: Tree, t: Tree, t': Tree, w: set<Block>, b: Block, y: Block, c: Block)
    requires Inv(g, par, t, w) && t'.Valid()
    requires b in par.up && b != t.root && b !in w && par.Up(b) in w
    requires b in g.blocks && IsMeet(g, t, b, y)
    requires t' == t.(up := t.up[b := y])
    requires c in t'.up && c != t.root
    ensures KeepsDominators(g, t', c)
  {
    if c == b {
      forall d | g.StrictDom(d, b) ensures g.Dom(d, y) {
        StepDominator(g, par, t, w, b, y, d);
      }
    } else {
      assert KeepsDominators(g, t, c);
    }
  }

  lemma StepDominator(g: Cfg, par: Tree, t: Tree, w: set<Block>, b: Block, y: Block, d: Block)
    requires Inv(g, par, t, w)
    requires b in par.up && b != t.root && b !in w && par.Up(b) in w
    requires b in g.blocks && IsMeet(g, t, b, y)
    requires g.StrictDom(d, b)
    ensures g.Dom(d, y)
  {
    g.ReachableInBlocks(b);
    MovesUp(g, par, t, w, b, y);
    forall p | p in g.pred[b] && p in t.up ensures d in t.Anc(p) {
      assert p in t.id && g.Reachable(p) && g.Edge(p, b);
      g.DomPred(d, p, b);
      DominatorAbove(g, t, p, d);
    }
    var q := par.Up(b);
    assert g.Edge(q, b);
    t.AncAbove(q, d);
    assert Common(g, t, b, d);
    t.AncAbove(y, d);
    g.DomPred(d, q, b);
    DominatorOfAncestor(g, t, q, y, d);
  }

  // When a whole sweep changes nothing, the tree is exactly the dominator tree.
  lemma {:induction false} AboveDominates(g: Cfg, par: Tree, t: Tree, b: Block, y: Block, p: seq<Block>)
    requires Spanning(g, par) && t.Valid() && t.root == g.entry && t.id == par.id && t.up.Keys == par.up.Keys
    requires AllSettled(g, t)
    requires b in t.up && y in t.Anc(b) && g.PathBetween(p, g.entry, b)
    ensures y in p
    decreases |p|
  {
    if y != b {
      t.AncAbove(b, y);
      assert Settled(g, t, b);
      assert Common(g, t, b, y);
      var q := g.PathLast(p, g.entry, b);
      assert g.Reachable(q);
      AboveDominates(g, par, t, q, y, p[..|p| - 1]);
    }
  }

  // The immediate dominator tree of g, numbered so that numbers increase towards the entry.
  ghost predicate IsDomTree(g: Cfg, t: Tree)
  {
    && g.Valid() && t.Valid() && t.root == g.entry
    && t.up.Keys == t.id.Keys
    && (forall b {:trigger g.Reachable(b)} :: b in t.up <==> g.Reachable(b))
    && (forall b, d :: b in t.up ==> (d in t.Anc(b) <==> g.Dom(d, b)))
  }

  lemma SettledIsDomTree(g: Cfg, par: Tree, t: Tree)
    requires Inv(g, par, t, par.up.Keys)
    requires AllSettled(g, t)
    ensures IsDomTree(g, t)
  {
    assert t.up.Keys == par.up.Keys;
    forall b, d | b in t.up ensures d in t.Anc(b) <==> g.Dom(d, b) {
      if d in t.Anc(b) {
        forall p | g.PathBetween(p, g.entry, b) ensures d in p {
          AboveDominates(g, par, t, b, d, p);
        }
      }
      if g.Dom(d, b) {
        DominatorAbove(g, t, b, d);
      }
    }
  }

  // What the parent pointers of the dominator tree say: the parent of b is the strict
  // dominator of b that every other strict dominator of b dominates.
  lemma ImmediateDominator(g: Cfg, t: Tree, b: Block)
    requires IsDomTree(g, t) && b in t.up && b != g.entry
    ensures g.StrictDom(t.Up(b), b)
    ensures forall d :: g.StrictDom(d, b) ==> g.Dom(d, t.Up(b))
  {
    forall d | g.StrictDom(d, b) ensures g.Dom(d, t.Up(b)) {
      t.AncAbove(b, d);
    }
  }

  lemma DomAntisymmetric(g: Cfg, t: Tree, a: Block, b: Block)
    requires IsDomTree(g, t) && g.Dom(a, b) && g.Dom(b, a)
    ensures a == b
  {
    t.AncAbove(a, b);
    t.AncAbove(b, a);
  }

  // ---- Dominance frontiers ----

  // The parent pointer as the program reads it: null for a block without an entry, and null for null.
  ghost function Pointer(t: Tree, b: Option<Block>): Option<Block>
  {
    if b.Some? && b.value in t.up then Some(t.up[b.value]) else None
  }

  // Where k steps up from b lead.
  ghost function Climb(t: Tree, b: Option<Block>, k: nat): Option<Block>
    decreases k
  {
    if k == 0 then b else Climb(t, Pointer(t, b), k - 1)
  }

  // The walk from the predecessor p up to the parent of x ends.
  ghost predicate WalkEnds(t: Tree, p: Block, x: Block)
  {
    exists k: nat :: Climb(t, Some(p), k) == Pointer(t, Some(x))
  }

  lemma {:induction false} ClimbReaches(t: Tree, b: Block, y: Block)
    requires t.Valid() && b in t.up && y in t.Anc(b)
    ensures exists k: nat :: Climb(t, Some(b), k) == Some(y)
    decreases |t.id| - t.id[b]
  {
    if y == b {
      assert Climb(t, Some(b), 0) == Some(y);
    } else {
      t.AncAbove(b, y);
      ClimbReaches(t, t.Up(b), y);
      var k: nat :| Climb(t, Some(t.Up(b)), k) == Some(y);
      assert Climb(t, Some(b), k + 1) == Some(y);
    }
  }

  lemma {:induction false} ClimbNull(t: Tree, k: nat)
    ensures Climb(t, None, k) == None
  {
    if k > 0 {
      ClimbNull(t, k - 1);
    }
  }

  // The parent of x lies above every reachable predecessor of x.
  lemma ParentAbovePredecessor(g: Cfg, t: Tree, p: Block, x: Block)
    requires IsDomTree(g, t) && g.Edge(p, x) && g.Reachable(p)
    ensures p in t.up && x in t.up && t.Up(x) in t.Anc(p)
  {
    g.ReachableStep(p, x);
    if x != g.entry {
      ImmediateDominator(g, t, x);
      g.DomPred(t.Up(x), p, x);
    }
  }

  // The walk that collects frontiers ends exactly when it does not start at an unreachable
  // predecessor of a reachable block.
  lemma WalkEndsIff(g: Cfg, t: Tree, p: Block, x: Block)
    requires IsDomTree(g, t) && g.Edge(p, x)
    ensures WalkEnds(t, p, x) <==> (g.Reachable(x) ==> g.Reachable(p))
  {
    if g.Reachable(p) {
      ParentAbovePredecessor(g, t, p, x);
      ClimbReaches(t, p, t.Up(x));
    } else if !g.Reachable(x) {
      assert Climb(t, Some(p), 1) == Climb(t, None, 0) == None;
    } else {
      assert t.Up(x) in t.up;
      forall k: nat ensures Climb(t, Some(p), k) != Pointer(t, Some(x)) {
        if k > 0 {
          ClimbNull(t, k - 1);
        }
      }
    }
  }

  // The blocks the walk from p visits before it meets the parent of x.
  ghost predicate OnWalk(t: Tree, n: Block, p: Block, x: Block)
    requires t.Valid()
  {
    if p in t.up then n in t.Anc(p) && (x in t.up ==> n !in t.Anc(t.Up(x))) else n == p
  }

  // The frontier as the walks from the predecessors of merge blocks collect it.
  ghost predicate InFrontier(g: Cfg, t: Tree, n: Block, x: Block)
    requires g.Valid() && t.Valid()
  {
    x in g.blocks && |g.pred[x]| >= 2 && exists p :: p in g.pred[x] && OnWalk(t, n, p, x)
  }

  lemma {:induction false} NotOwnOnlyPredecessor(g: Cfg, x: Block, p: seq<Block>)
    requires g.Valid() && x in g.blocks && x != g.entry && g.PathBetween(p, g.entry, x)
    ensures exists q :: q in g.pred[x] && q != x
    decreases |p|
  {
    var q := g.PathLast(p, g.entry, x);
    if q == x {
      NotOwnOnlyPredecessor(g, x, p[..|p| - 1]);
    }
  }

  // A block with a single predecessor is dominated by what dominates that predecessor.
  lemma SinglePredecessor(g: Cfg, t: Tree, n: Block, p: Block, x: Block)
    requires IsDomTree(g, t) && x in g.blocks && x != g.entry && g.Dom(n, p)
    requires g.pred[x] == [p]
    ensures g.StrictDom(n, x)
  {
    assert p in g.pred[x] && g.Edge(p, x);
    g.ReachableStep(p, x);
    forall q, d | g.PathBetween(q, g.entry, x) && g.Dom(d, p) ensures d in q {
      var l := g.PathLast(q, g.entry, x);
      assert l in g.pred[x];
      assert d in q[..|q| - 1];
    }
    g.DomSelf(p);
    if n == x {
      DomAntisymmetric(g, t, x, p);
      var q :| g.PathBetween(q, g.entry, x);
      NotOwnOnlyPredecessor(g, x, q);
    }
  }

  // For a reachable block the frontier is the textbook one: the blocks x with a predecessor
  // that n dominates, where n does not strictly dominate x itself. Of an entry with predecessors
  // the walks miss that it is in its own frontier, and all if there is only one predecessor. An
  // unreachable block has in its frontier the merge blocks it is a predecessor of.
  lemma FrontierExact(g: Cfg, t: Tree, n: Block, x: Block)
    requires IsDomTree(g, t) && x in g.blocks
    ensures InFrontier(g, t, n, x) <==>
      if g.Reachable(n) then
        (exists p :: p in g.pred[x] && g.Dom(n, p)) && !g.StrictDom(n, x) &&
          (x == g.entry ==> n != g.entry && |g.pred[x]| >= 2)
      else |g.pred[x]| >= 2 && n in g.pred[x]
  {
    if !g.Reachable(n) {
      if n in g.pred[x] {
        assert OnWalk(t, n, n, x);
      }
    } else if x == g.entry {
      assert t.Up(x) == x && t.Anc(x) == {x};
      g.ReachesSelf(x);
      FrontierOfEntry(g, t, n);
    } else {
      FrontierTextbook(g, t, n, x);
    }
  }

  lemma FrontierOfEntry(g: Cfg, t: Tree, n: Block)
    requires IsDomTree(g, t) && g.Reachable(n)
    ensures InFrontier(g, t, n, g.entry) <==>
      (exists p :: p in g.pred[g.entry] && g.Dom(n, p)) && !g.StrictDom(n, g.entry) && n != g.entry &&
        |g.pred[g.entry]| >= 2
  {
    g.ReachesSelf(g.entry);
    assert t.Up(g.entry) == g.entry && t.Anc(g.entry) == {g.entry};
    forall p ensures OnWalk(t, n, p, g.entry) <==> g.Dom(n, p) && n != g.entry {
      assert p in t.up <==> g.Reachable(p);
    }
  }

  lemma FrontierTextbook(g: Cfg, t: Tree, n: Block, x: Block)
    requires IsDomTree(g, t) && g.Reachable(n) && x in g.blocks && x != g.entry
    ensures InFrontier(g, t, n, x) <==> (exists p :: p in g.pred[x] && g.Dom(n, p)) && !g.StrictDom(n, x)
  {
    if InFrontier(g, t, n, x) {
      var p :| p in g.pred[x] && OnWalk(t, n, p, x);
      assert g.Dom(n, p) && g.Edge(p, x);
      g.ReachableStep(p, x);
      if g.StrictDom(n, x) {
        ImmediateDominator(g, t, x);
      }
    }
    if (exists p :: p in g.pred[x] && g.Dom(n, p)) && !g.StrictDom(n, x) {
      var p :| p in g.pred[x] && g.Dom(n, p);
      assert g.Edge(p, x);
      g.ReachableStep(p, x);
      ImmediateDominator(g, t, x);
      if n in t.Anc(t.Up(x)) {
        g.DomTrans(n, t.Up(x), x);
        DomAntisymmetric(g, t, x, t.Up(x));
      }
      assert OnWalk(t, n, p, x);
      if |g.pred[x]| < 2 {
        assert g.pred[x] == [p];
        SinglePredecessor(g, t, n, p, x);
      }
    }
  }
}
