// Walks over the dominator tree: what has been visited between two visits, and in what order.
module TreeWalk {
  import opened Graph
  import opened DomTree

  // All strict dominators of b have been visited.
  ghost predicate AboveVisited(t: Tree, order: seq<Block>, b: Block)
    requires t.Valid() && b in t.up
  {
    forall a {:trigger a in t.Anc(b)} :: a in t.Anc(b) && a != b ==> a in order
  }

  ghost predicate InSubtree(t: Tree, b: Block, x: Block)
    requires t.Valid()
  {
    x in t.up && b in t.Anc(x)
  }

  lemma {:induction false} ChildTowards(t: Tree, b: Block, x: Block) returns (c: Block)
    requires t.Valid() && InSubtree(t, b, x) && x != b
    ensures c in t.up && c != t.root && t.Up(c) == b && InSubtree(t, c, x)
    decreases |t.id| - t.id[x]
  {
    t.AncAbove(x, b);
    if t.Up(x) == b {
      c := x;
    } else {
      c := ChildTowards(t, b, t.Up(x));
    }
  }

  lemma ChildSubtreesDisjoint(t: Tree, b: Block, c: Block, d: Block, x: Block)
    requires t.Valid() && c in t.up && d in t.up && c != t.root && d != t.root && t.Up(c) == b && t.Up(d) == b
    requires InSubtree(t, c, x) && InSubtree(t, d, x)
    ensures c == d
  {
    if c != d {
      if t.id[c] <= t.id[d] {
        t.AncChain(x, c, d);
        t.AncAbove(c, d);
        t.AncAbove(b, d);
        t.AncAbove(d, t.Up(d));
      } else {
        t.AncChain(x, d, c);
        t.AncAbove(d, c);
        t.AncAbove(b, c);
        t.AncAbove(c, t.Up(c));
      }
    }
  }

  // `after` has what `before` has and the subtree of b.
  ghost predicate Grown(t: Tree, b: Block, before: seq<Block>, after: seq<Block>)
    requires t.Valid()
  {
    && before <= after
    && (forall x :: x in after <==> x in before || InSubtree(t, b, x))
  }

  // Every block is listed once, and after its immediate dominator.
  ghost predicate Preorder(t: Tree, order: seq<Block>)
  {
    (forall b {:trigger b in order} :: b in order ==> b in t.up)
    && forall i :: 0 <= i < |order| ==> PreorderAt(t, order, i)
  }

  ghost predicate PreorderAt(t: Tree, order: seq<Block>, i: nat)
    requires i < |order|
  {
    order[i] !in order[..i] && (order[i] != t.root ==> t.Up(order[i]) in order[..i])
  }

  lemma PreorderSnoc(t: Tree, order: seq<Block>, b: Block)
    requires t.Valid() && Preorder(t, order) && b in t.up && b !in order && AboveVisited(t, order, b)
    ensures Preorder(t, order + [b])
  {
    assert b != t.root ==> t.Up(b) in t.Anc(b) && t.Up(b) != b;
    var order' := order + [b];
    forall i | 0 <= i < |order'| ensures PreorderAt(t, order', i) {
      assert order'[..i] == order[..i];
      assert i < |order| ==> PreorderAt(t, order, i);
    }
  }

  ghost predicate SubtreeFresh(t: Tree, order: seq<Block>, b: Block)
    requires t.Valid()
  {
    forall x :: InSubtree(t, b, x) ==> x !in order
  }

  // What has been visited beside the way from the root to b, has been visited with all below it.
  ghost predicate WholeSubtrees(t: Tree, order: seq<Block>, b: Block)
    requires t.Valid() && b in t.up
  {
    forall x, y {:trigger InSubtree(t, x, y)} :: x in order && x !in t.Anc(b) && InSubtree(t, x, y) ==> y in order
  }

  // The walk may have visited the blocks of `order`, and nothing else, when it comes to b.
  ghost predicate Arrives(t: Tree, order: seq<Block>, b: Block)
    requires t.Valid() && b in t.up
  {
    AboveVisited(t, order, b) && SubtreeFresh(t, order, b) && WholeSubtrees(t, order, b)
  }

  ghost predicate Handled(t: Tree, handled: set<Block>, x: Block)
    requires t.Valid()
  {
    exists c :: c in handled && InSubtree(t, c, x)
  }

  // The subtree of the next child has not been touched by the walks over the other children.
  lemma NextChild(t: Tree, order0: seq<Block>, order: seq<Block>, b: Block, handled: set<Block>, c: Block)
    requires t.Valid() && b in t.up && Arrives(t, order0, b)
    requires forall x :: x in order <==> x in order0 || x == b || Handled(t, handled, x)
    requires c in t.up && c != t.root && t.Up(c) == b && c !in handled
    requires forall d :: d in handled ==> d in t.up && d != t.root && t.Up(d) == b
    ensures Arrives(t, order, c) && t.id[c] < t.id[b]
  {
    NextChildWhole(t, order0, order, b, handled, c);
    forall a | a in t.Anc(c) && a != c ensures a in order {
      t.AncAbove(c, a);
    }
    forall x | InSubtree(t, c, x) ensures x !in order {
      t.AncAbove(x, c);
      t.AncTrans(x, c);
      assert b in t.Anc(c);
      assert InSubtree(t, b, x);
      if x == b {
        t.AncAbove(b, c);
      }
      if Handled(t, handled, x) {
        var d :| d in handled && InSubtree(t, d, x);
        ChildSubtreesDisjoint(t, b, c, d, x);
      }
    }
  }

  lemma NextChildWhole(t: Tree, order0: seq<Block>, order: seq<Block>, b: Block, handled: set<Block>, c: Block)
    requires t.Valid() && b in t.up && WholeSubtrees(t, order0, b)
    requires forall x :: x in order <==> x in order0 || x == b || Handled(t, handled, x)
    requires c in t.up && c != t.root && t.Up(c) == b
    ensures WholeSubtrees(t, order, c)
  {
    assert t.Anc(c) == {c} + t.Anc(b);
    forall x, y | x in order && x !in t.Anc(c) && InSubtree(t, x, y) ensures y in order {
      if x !in order0 {
        var d :| d in handled && InSubtree(t, d, x);
        t.AncTrans(y, x);
        assert InSubtree(t, d, y);
      }
    }
  }

  lemma HandledMore(t: Tree, handled: set<Block>, c: Block)
    requires t.Valid()
    ensures forall x :: Handled(t, handled + {c}, x) <==> Handled(t, handled, x) || InSubtree(t, c, x)
  {
    forall x ensures Handled(t, handled + {c}, x) <==> Handled(t, handled, x) || InSubtree(t, c, x) {
      if InSubtree(t, c, x) {
        assert c in handled + {c};
      }
      if Handled(t, handled, x) {
        var d :| d in handled && InSubtree(t, d, x);
        assert d in handled + {c};
      }
    }
  }

  lemma AllChildren(t: Tree, b: Block, kids: set<Block>, x: Block)
    requires t.Valid() && b in t.up
    requires forall c :: c in kids <==> c in t.up && c != t.root && t.Up(c) == b
    ensures Handled(t, kids, x) <==> InSubtree(t, b, x) && x != b
  {
    if InSubtree(t, b, x) && x != b {
      var c := ChildTowards(t, b, x);
    }
    if Handled(t, kids, x) {
      var c :| c in kids && InSubtree(t, c, x);
      t.AncTrans(x, c);
      assert b in t.Anc(c);
      t.AncAbove(x, c);
      assert t.id[c] < t.id[t.Up(c)];
    }
  }

  // ---- Which blocks a walk can have visited ----

  lemma {:induction false} LowestOf(t: Tree, s: set<Block>) returns (b: Block)
    requires t.Valid() && s <= t.up.Keys && s != {}
    ensures b in s && forall c :: c in s ==> t.id[b] <= t.id[c]
  {
    b :| b in s;
    if s != {b} {
      var c := LowestOf(t, s - {b});
      if t.id[c] < t.id[b] {
        b := c;
      }
    }
  }

  // Blocks that come with all their ancestors can be listed in an order a walk can visit them in.
  lemma {:induction false} PreorderOf(t: Tree, s: set<Block>) returns (order: seq<Block>)
    requires t.Valid() && s <= t.up.Keys && forall b {:trigger t.Up(b)} :: b in s && b != t.root ==> t.Up(b) in s
    ensures Preorder(t, order) && forall b :: b in order <==> b in s
  {
    order := [];
    if s != {} {
      var b := LowestOf(t, s);
      var init := PreorderOf(t, s - {b});
      order := init + [b];
      forall i | 0 <= i < |order| ensures PreorderAt(t, order, i) {
        assert order[..i] == init[..i];
        assert i < |init| ==> PreorderAt(t, init, i);
        assert i == |init| ==> init[..i] == init && (b != t.root ==> t.Up(b) in s && t.id[b] < t.id[t.Up(b)]);
      }
    }
  }

  // A walk can come to p right after its ancestors.
  lemma ArrivesFirst(t: Tree, p: Block) returns (order: seq<Block>)
    requires t.Valid() && p in t.up
    ensures Preorder(t, order) && Arrives(t, order, p)
  {
    var s := t.Anc(p) - {p};
    forall b | b in s && b != t.root ensures t.Up(b) in s {
      AboveProper(t, p, b);
    }
    order := PreorderOf(t, s);
    forall x | InSubtree(t, p, x) ensures x !in order {
      if x in s {
        t.AncAbove(p, x);
        t.AncAbove(x, p);
      }
    }
  }

  lemma AboveProper(t: Tree, p: Block, b: Block)
    requires t.Valid() && p in t.up && b in t.Anc(p) && b != t.root
    ensures t.Up(b) in t.Anc(p) && t.Up(b) != p
  {
    t.AncTrans(p, b);
    t.AncAbove(p, b);
    assert t.id[b] < t.id[t.Up(b)];
  }

  // A walk can come to p after the subtree of a child of one of its ancestors, if p is not in it.
  lemma ArrivesAfter(t: Tree, p: Block, x: Block, y: Block) returns (order: seq<Block>)
    requires t.Valid() && p in t.up && x in t.up && y in t.up && x != t.root && y != t.root
    requires y in t.Anc(p) && t.Up(x) == t.Up(y) && x != y
    ensures Preorder(t, order) && Arrives(t, order, p) && forall d :: InSubtree(t, x, d) ==> d in order
  {
    var below := set d | d in t.up.Keys && InSubtree(t, x, d);
    var s := (t.Anc(p) - {p}) + below;
    AboveProper(t, p, y);
    forall b | b in s && b != t.root ensures t.Up(b) in s {
      if b in below {
        t.AncAbove(b, x);
        assert b != x ==> InSubtree(t, x, t.Up(b));
      } else {
        AboveProper(t, p, b);
      }
    }
    order := PreorderOf(t, s);
    forall b | InSubtree(t, p, b) ensures b !in order {
      if b in below {
        t.AncTrans(b, p);
        ChildSubtreesDisjoint(t, t.Up(x), x, y, b);
      } else if b in t.Anc(p) && b != p {
        t.AncAbove(p, b);
        t.AncAbove(b, p);
      }
    }
    forall b, c | b in order && b !in t.Anc(p) && InSubtree(t, b, c) ensures c in order {
      t.AncTrans(c, b);
      assert InSubtree(t, x, c);
    }
  }

  lemma WholeTreeVisited(t: Tree, order: seq<Block>, done: set<Block>)
    requires t.Valid() && Grown(t, t.root, [], order) && forall x :: x in done <==> InSubtree(t, t.root, x)
    ensures forall x :: x in t.up ==> x in order && x in done
    ensures forall x :: x in done ==> x in t.up
  {
    forall x | x in t.up ensures x in order && x in done {
      assert InSubtree(t, t.root, x);
    }
  }

  // ---- The edges of the blocks visited ----

  // The edges out of p, in the order the successor list gives them.
  ghost function EdgesOf(g: Cfg, p: Block): (r: seq<(Block, Block)>)
    requires g.Valid() && p in g.blocks
    ensures |r| == |g.succ[p]| && forall j :: 0 <= j < |r| ==> r[j] == (p, g.succ[p][j])
  {
    seq(|g.succ[p]|, j requires 0 <= j < |g.succ[p]| => (p, g.succ[p][j]))
  }

  ghost function AllEdges(g: Cfg, order: seq<Block>): seq<(Block, Block)>
    requires g.Valid()
  {
    if order == [] then []
    else
      var p := order[|order| - 1];
      AllEdges(g, order[..|order| - 1]) + (if p in g.blocks then EdgesOf(g, p) else [])
  }

  lemma EdgesSnoc(g: Cfg, order: seq<Block>, b: Block)
    requires g.Valid() && b in g.blocks
    ensures AllEdges(g, order + [b]) == AllEdges(g, order) + EdgesOf(g, b)
  {
    assert (order + [b])[..|order|] == order;
  }

  lemma {:induction false} EdgeListed(g: Cfg, order: seq<Block>, p: Block, c: Block)
    requires g.Valid() && p in order && g.Edge(p, c)
    ensures (p, c) in AllEdges(g, order)
  {
    var init, last := order[..|order| - 1], order[|order| - 1];
    assert order == init + [last];
    if p == last {
      var j :| 0 <= j < |g.succ[p]| && g.succ[p][j] == c;
      assert EdgesOf(g, p)[j] == (p, c);
    } else {
      EdgeListed(g, init, p, c);
    }
  }

  lemma {:induction false} EdgesFrom(succ: seq<Block>, edges: seq<(Block, Block)>, p: Block, q: Block, c: Block)
    requires |edges| == |succ| && forall j :: 0 <= j < |succ| ==> edges[j] == (p, succ[j])
    ensures multiset(edges)[(q, c)] == if q == p then multiset(succ)[c] else 0
  {
    if succ != [] {
      var n := |succ| - 1;
      EdgesFrom(succ[..n], edges[..n], p, q, c);
      assert succ == succ[..n] + [succ[n]] && edges == edges[..n] + [edges[n]];
    }
  }

  lemma PreorderInit(t: Tree, order: seq<Block>)
    requires Preorder(t, order) && order != []
    ensures Preorder(t, order[..|order| - 1]) && order[|order| - 1] !in order[..|order| - 1]
  {
    var init := order[..|order| - 1];
    assert PreorderAt(t, order, |order| - 1);
    forall i | 0 <= i < |init| ensures PreorderAt(t, init, i) {
      assert PreorderAt(t, order, i) && init[..i] == order[..i];
    }
    forall b | b in init ensures b in t.up {
      assert b in order;
    }
  }

  // As every block is visited once, every edge out of a visited block is listed as often as the
  // function has it.
  lemma {:induction false} EdgeCount(t: Tree, g: Cfg, order: seq<Block>, p: Block, c: Block)
    requires g.Valid() && Preorder(t, order)
    ensures multiset(AllEdges(g, order))[(p, c)] == if p in order && p in g.blocks then multiset(g.succ[p])[c] else 0
  {
    if order != [] {
      var init, last := order[..|order| - 1], order[|order| - 1];
      PreorderInit(t, order);
      EdgeCount(t, g, init, p, c);
      assert order == init + [last];
      if last in g.blocks {
        EdgesFrom(g.succ[last], EdgesOf(g, last), last, p, c);
      }
    }
  }
}
