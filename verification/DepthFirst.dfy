// The depth-first walks over the dominator tree, for every order in which they can take the children
// of a block, and the blocks they have visited when they come to a block.
module DepthFirst {
  import opened Graph
  import opened DomTree
  import opened TreeWalk

  ghost function Kids(t: Tree, b: Block): set<Block>
    requires t.Valid()
  {
    set c | c in t.up && c != t.root && t.Up(c) == b
  }

  // l is the subtree of b as a walk lists it: b, and then the subtrees of its children one by one.
  ghost predicate Lists(t: Tree, b: Block, l: seq<Block>)
    requires t.Valid()
    decreases |l|, 0, 0
  {
    l != [] && l[0] == b && ListsAll(t, Kids(t, b), l[1..])
  }

  // l lists the subtrees of these children, in some order.
  ghost predicate ListsAll(t: Tree, kids: set<Block>, l: seq<Block>)
    requires t.Valid()
    decreases |l|, 1, |kids|
  {
    if kids == {} then l == []
    else exists c, i: nat :: c in kids && i <= |l| && Lists(t, c, l[..i]) && ListsAll(t, kids - {c}, l[i..])
  }

  // A walk can have listed `order` when it comes to p: what it had listed when it came to the parent, the
  // parent, and the subtrees of some other children of the parent.
  ghost predicate Comes(t: Tree, order: seq<Block>, p: Block)
    requires t.Valid() && p in t.up
    decreases |order|
  {
    if p == t.root then order == []
    else exists k: nat, handled: set<Block> ::
      k < |order| && ComesFrom(t, order, p, k, handled) && Comes(t, order[..k], t.Up(p))
  }

  ghost predicate ComesFrom(t: Tree, order: seq<Block>, p: Block, k: nat, handled: set<Block>)
    requires t.Valid() && p in t.up && k < |order|
  {
    order[k] == t.Up(p) && handled <= Kids(t, t.Up(p)) - {p} && ListsAll(t, handled, order[k + 1..])
  }

  // ---- One walk ----

  lemma ListsAllBy(t: Tree, kids: set<Block>, l: seq<Block>, c: Block, m: seq<Block>, rest: seq<Block>)
    requires t.Valid() && c in kids && l == m + rest && Lists(t, c, m) && ListsAll(t, kids - {c}, rest)
    ensures ListsAll(t, kids, l)
  {
    assert l[..|m|] == m && l[|m|..] == rest;
  }

  lemma FirstListed(t: Tree, kids: set<Block>, l: seq<Block>) returns (c: Block, m: seq<Block>, rest: seq<Block>)
    requires t.Valid() && kids != {} && ListsAll(t, kids, l)
    ensures c in kids && l == m + rest && Lists(t, c, m) && ListsAll(t, kids - {c}, rest)
  {
    var i: nat;
    c, i :| c in kids && i <= |l| && Lists(t, c, l[..i]) && ListsAll(t, kids - {c}, l[i..]);
    m, rest := l[..i], l[i..];
  }

  lemma ListsOne(t: Tree, c: Block, m: seq<Block>)
    requires t.Valid() && Lists(t, c, m)
    ensures ListsAll(t, {c}, m)
  {
    assert {c} - {c} == {};
    ListsAllBy(t, {c}, m, c, m, []);
  }

  lemma ListsBehind(t: Tree, kids: set<Block>, c: Block, d: Block, n: seq<Block>, rest: seq<Block>, m: seq<Block>)
    requires t.Valid() && c !in kids && d in kids && Lists(t, d, n) && ListsAll(t, kids - {d} + {c}, rest + m)
    ensures ListsAll(t, kids + {c}, n + rest + m)
  {
    assert kids - {d} + {c} == kids + {c} - {d} && n + rest + m == n + (rest + m);
    ListsAllBy(t, kids + {c}, n + rest + m, d, n, rest + m);
  }

  // The next child is listed behind those already handled.
  lemma {:induction false} ListsSnoc(t: Tree, kids: set<Block>, l: seq<Block>, c: Block, m: seq<Block>)
    requires t.Valid() && ListsAll(t, kids, l) && c !in kids && Lists(t, c, m)
    ensures ListsAll(t, kids + {c}, l + m)
    decreases |kids|
  {
    if kids == {} {
      ListsOne(t, c, m);
      assert kids + {c} == {c} && l + m == m;
    } else {
      var d, n, rest := FirstListed(t, kids, l);
      ListsSnoc(t, kids - {d}, rest, c, m);
      ListsBehind(t, kids, c, d, n, rest, m);
    }
  }

  lemma {:induction false} ListsMembers(t: Tree, b: Block, l: seq<Block>, x: Block)
    requires t.Valid() && b in t.up && Lists(t, b, l)
    ensures x in l <==> InSubtree(t, b, x)
    decreases |l|, 0, 0
  {
    assert l == [b] + l[1..];
    ListsAllMembers(t, b, Kids(t, b), l[1..], x);
    AllChildren(t, b, Kids(t, b), x);
    assert InSubtree(t, b, b);
  }

  lemma {:induction false} ListsAllMembers(t: Tree, b: Block, kids: set<Block>, l: seq<Block>, x: Block)
    requires t.Valid() && kids <= Kids(t, b) && ListsAll(t, kids, l)
    ensures x in l <==> Handled(t, kids, x)
    decreases |l|, 1, |kids|
  {
    if kids != {} {
      var c, m, rest := FirstListed(t, kids, l);
      ListsMembers(t, c, m, x);
      ListsAllMembers(t, b, kids - {c}, rest, x);
      HandledMore(t, kids - {c}, c);
      assert kids == kids - {c} + {c};
    }
  }

  // With all children handled, what is below b has been.
  lemma KidsHandled(t: Tree, b: Block, kids: set<Block>)
    requires t.Valid() && b in t.up && kids == Kids(t, b)
    ensures forall x :: Handled(t, kids, x) <==> InSubtree(t, b, x) && x != b
  {
    forall x ensures Handled(t, kids, x) <==> InSubtree(t, b, x) && x != b {
      AllChildren(t, b, kids, x);
    }
  }

  // Some walk over the subtree.
  lemma {:induction false} AnyListing(t: Tree, b: Block) returns (l: seq<Block>)
    requires t.Valid() && b in t.up
    ensures Lists(t, b, l)
    decreases t.id[b], 1, 0
  {
    var rest := AnyListings(t, b, Kids(t, b));
    l := [b] + rest;
    assert l[1..] == rest;
  }

  lemma {:induction false} AnyListings(t: Tree, b: Block, kids: set<Block>) returns (l: seq<Block>)
    requires t.Valid() && b in t.up && kids <= Kids(t, b)
    ensures ListsAll(t, kids, l)
    decreases t.id[b], 0, |kids|
  {
    l := [];
    if kids != {} {
      var c :| c in kids;
      assert t.id[c] < t.id[t.Up(c)];
      var m := AnyListing(t, c);
      var rest := AnyListings(t, b, kids - {c});
      l := m + rest;
      ListsAllBy(t, kids, l, c, m, rest);
    }
  }

  // ---- What a walk can have listed ----

  lemma ComesMembers(t: Tree, order: seq<Block>, p: Block, k: nat, handled: set<Block>, x: Block)
    requires t.Valid() && p in t.up && k < |order| && ComesFrom(t, order, p, k, handled)
    ensures x in order <==> x in order[..k] || x == t.Up(p) || Handled(t, handled, x)
  {
    assert order == order[..k] + [t.Up(p)] + order[k + 1..];
    ListsAllMembers(t, t.Up(p), handled, order[k + 1..], x);
  }

  lemma {:induction false} ComesArrives(t: Tree, order: seq<Block>, p: Block)
    requires t.Valid() && p in t.up && Comes(t, order, p)
    ensures Arrives(t, order, p) && forall x :: x in order ==> x in t.up
    decreases |order|
  {
    if p == t.root {
      assert t.Anc(p) == {p};
    } else {
      var k: nat, handled :| k < |order| && ComesFrom(t, order, p, k, handled) && Comes(t, order[..k], t.Up(p));
      ComesArrives(t, order[..k], t.Up(p));
      forall x ensures x in order <==> x in order[..k] || x == t.Up(p) || Handled(t, handled, x) {
        ComesMembers(t, order, p, k, handled, x);
      }
      NextChild(t, order[..k], order, t.Up(p), handled, p);
    }
  }

  // The walk goes on to a child.
  lemma ComesToChild(t: Tree, order0: seq<Block>, b: Block, handled: set<Block>, l: seq<Block>, c: Block)
    requires t.Valid() && b in t.up && Comes(t, order0, b) && c in Kids(t, b) && handled <= Kids(t, b) - {c} &&
      ListsAll(t, handled, l)
    ensures Comes(t, order0 + [b] + l, c)
  {
    var order, k := order0 + [b] + l, |order0|;
    assert order[..k] == order0 && order[k + 1..] == l;
    assert ComesFrom(t, order, c, k, handled);
  }

  // ---- Every set of blocks with which the walk arrives ----

  // A set of blocks is what a walk can have visited on arrival at p.
  ghost predicate ArrivesWith(t: Tree, s: set<Block>, p: Block)
    requires t.Valid() && p in t.up
  {
    && s <= t.up.Keys
    && (forall x {:trigger t.Up(x)} :: x in s && x != t.root ==> t.Up(x) in s)
    && (forall a {:trigger a in t.Anc(p)} :: a in t.Anc(p) && a != p ==> a in s)
    && (forall x {:trigger InSubtree(t, p, x)} :: InSubtree(t, p, x) ==> x !in s)
    && (forall x, y {:trigger InSubtree(t, x, y)} :: x in s && x !in t.Anc(p) && InSubtree(t, x, y) ==> y in s)
  }

  // What had been visited on arrival at the parent.
  ghost function Outside(t: Tree, s: set<Block>, q: Block): set<Block>
    requires t.Valid()
  {
    set x | x in s && !InSubtree(t, q, x)
  }

  lemma ParentArrives(t: Tree, s: set<Block>, p: Block)
    requires t.Valid() && p in t.up && p != t.root && ArrivesWith(t, s, p)
    ensures ArrivesWith(t, Outside(t, s, t.Up(p)), t.Up(p)) && t.Up(p) in s
  {
    var q := t.Up(p);
    var s0 := Outside(t, s, q);
    t.AncAbove(p, q);
    forall x | x in s0 && x != t.root ensures t.Up(x) in s0 {
      assert x in s;
    }
    forall a | a in t.Anc(q) && a != q ensures a in s0 {
      t.AncAbove(q, a);
      if InSubtree(t, q, a) {
        t.AncAbove(a, q);
      }
      assert a in t.Anc(p);
    }
    forall x, y | x in s0 && x !in t.Anc(q) && InSubtree(t, x, y) ensures y in s0 {
      assert x != p by {
        assert InSubtree(t, p, p);
      }
      assert x !in t.Anc(p);
      if InSubtree(t, q, y) {
        if t.id[x] <= t.id[q] {
          t.AncChain(y, x, q);
          assert InSubtree(t, q, x);
        } else {
          t.AncChain(y, q, x);
        }
      }
    }
  }

  // Of the subtree of the parent, the parent itself and whole subtrees of other children have been visited.
  lemma InsideParent(t: Tree, s: set<Block>, p: Block, x: Block)
    requires t.Valid() && p in t.up && p != t.root && ArrivesWith(t, s, p)
    ensures x in s <==> x in Outside(t, s, t.Up(p)) || x == t.Up(p) || Handled(t, Kids(t, t.Up(p)) * s, x)
  {
    var q, handled := t.Up(p), Kids(t, t.Up(p)) * s;
    ParentArrives(t, s, p);
    if x in s && InSubtree(t, q, x) && x != q {
      var c := ChildTowards(t, q, x);
      UpwardClosed(t, s, x, c);
      assert c in handled;
    }
    if c :| c in handled && InSubtree(t, c, x) {
      assert t.id[c] < t.id[q];
      if c in t.Anc(p) {
        assert InSubtree(t, p, p);
        t.AncAbove(q, c);
      }
    }
  }

  lemma {:induction false} UpwardClosed(t: Tree, s: set<Block>, x: Block, a: Block)
    requires t.Valid() && s <= t.up.Keys && (forall y {:trigger t.Up(y)} :: y in s && y != t.root ==> t.Up(y) in s)
    requires x in s && a in t.Anc(x)
    ensures a in s
    decreases |t.id| - t.id[x]
  {
    if a != x {
      t.AncAbove(x, a);
      UpwardClosed(t, s, t.Up(x), a);
    }
  }

  // Every such set is what some walk has listed.
  lemma {:induction false} ComesWith(t: Tree, s: set<Block>, p: Block) returns (order: seq<Block>)
    requires t.Valid() && p in t.up && ArrivesWith(t, s, p)
    ensures Comes(t, order, p) && forall x :: x in order <==> x in s
    decreases |t.id| - t.id[p]
  {
    if p == t.root {
      order := [];
      forall x ensures x !in s {
        assert x in t.up ==> InSubtree(t, p, x);
      }
    } else {
      var q, handled := t.Up(p), Kids(t, t.Up(p)) * s;
      ParentArrives(t, s, p);
      var order0 := ComesWith(t, Outside(t, s, q), q);
      var l := AnyListings(t, q, handled);
      assert p !in s by {
        assert InSubtree(t, p, p);
      }
      ComesToChild(t, order0, q, handled, l, p);
      order := order0 + [q] + l;
      forall x ensures x in order <==> x in s {
        InsideParent(t, s, p, x);
        ListsAllMembers(t, q, handled, l, x);
      }
    }
  }

  // A list that names each block once and after its parent, and holds whole subtrees beside the way to p,
  // has the members of what some walk has listed when it comes to p.
  lemma SomeWalkComes(t: Tree, order: seq<Block>, p: Block) returns (walk: seq<Block>)
    requires t.Valid() && p in t.up && Preorder(t, order) && Arrives(t, order, p)
    ensures Comes(t, walk, p) && forall x :: x in walk <==> x in order
  {
    var s := set x | x in order;
    forall x | x in s && x != t.root ensures t.Up(x) in s {
      var i: nat :| i < |order| && order[i] == x;
      assert PreorderAt(t, order, i);
    }
    walk := ComesWith(t, s, p);
  }
}
