// The loop nest: what holds of the loops recorded so far while bases are removed from the graph.
module LoopNest {
  import opened Graph
  import opened Tarjan

  // ---- The graph without the removed bases ----

  ghost function Without(g: Net, gone: set<Block>): Net
    requires g.Valid()
  {
    Net(g.nodes - gone, map x | x in g.nodes - gone :: g.succs[x] - gone)
  }

  lemma WithoutEdge(g: Net, gone: set<Block>, a: Block, b: Block)
    requires g.Valid()
    ensures Without(g, gone).Edge(a, b) <==> g.Edge(a, b) && a !in gone && b !in gone
  {
  }

  ghost predicate SubNet(h: Net, g: Net)
  {
    h.nodes <= g.nodes && forall a, b {:trigger h.Edge(a, b)} :: h.Edge(a, b) ==> g.Edge(a, b)
  }

  lemma SubReaches(h: Net, g: Net, a: Block, b: Block)
    requires SubNet(h, g) && h.Reaches(a, b)
    ensures g.Reaches(a, b)
  {
    var p :| h.PathBetween(p, a, b);
    forall i | 0 <= i < |p| - 1 ensures g.Linked(p, i) {
      assert h.Linked(p, i);
    }
    assert g.PathBetween(p, a, b);
  }

  // Two descriptions of the same graph have the same components.
  lemma SameComponents(h: Net, g: Net, c: set<Block>)
    requires SubNet(h, g) && SubNet(g, h)
    ensures h.IsComponent(c) <==> g.IsComponent(c)
  {
    forall a ensures h.Component(a) == g.Component(a) {
      forall b ensures h.Mutual(a, b) <==> g.Mutual(a, b) {
        MutualBetween(h, g, a, b);
        MutualBetween(g, h, a, b);
      }
    }
  }

  lemma MutualBetween(h: Net, g: Net, a: Block, b: Block)
    requires SubNet(h, g)
    ensures h.Mutual(a, b) ==> g.Mutual(a, b)
  {
    if h.Mutual(a, b) {
      SubReaches(h, g, a, b);
      SubReaches(h, g, b, a);
    }
  }

  lemma WithoutSub(g: Net, gone: set<Block>, more: set<Block>)
    requires g.Valid() && gone <= more
    ensures SubNet(Without(g, more), Without(g, gone)) && SubNet(Without(g, gone), g)
  {
    forall a, b | Without(g, more).Edge(a, b) ensures Without(g, gone).Edge(a, b) {
      WithoutEdge(g, gone, a, b);
      WithoutEdge(g, more, a, b);
    }
    forall a, b | Without(g, gone).Edge(a, b) ensures g.Edge(a, b) {
      WithoutEdge(g, gone, a, b);
    }
  }

  // ---- Strongly connected sets ----

  ghost predicate Connected(g: Net, c: set<Block>)
  {
    c <= g.nodes && forall a, b {:trigger g.Reaches(a, b)} :: a in c && b in c ==> g.Reaches(a, b)
  }

  lemma ComponentConnected(g: Net, a: Block)
    requires a in g.nodes
    ensures Connected(g, g.Component(a)) && a in g.Component(a)
  {
    g.ReachesSelf(a);
    forall x, y | x in g.Component(a) && y in g.Component(a) ensures g.Reaches(x, y) {
      g.ReachesTrans(x, a, y);
    }
  }

  // A component is a strongly connected set that no node outside can be added to.
  lemma ComponentMaximal(g: Net, c: set<Block>)
    ensures g.IsComponent(c) <==> |c| >= 2 && Connected(g, c) && forall d :: Connected(g, d) && c <= d ==> d == c
  {
    if g.IsComponent(c) {
      var a :| a in g.nodes && c == g.Component(a);
      ComponentConnected(g, a);
      forall d | Connected(g, d) && c <= d ensures d == c {
        forall x | x in d ensures x in c {
          assert g.Reaches(a, x) && g.Reaches(x, a);
        }
      }
    }
    if |c| >= 2 && Connected(g, c) && forall d :: Connected(g, d) && c <= d ==> d == c {
      var a :| a in c;
      ComponentConnected(g, a);
      forall x | x in c ensures x in g.Component(a) {
        assert g.Reaches(a, x) && g.Reaches(x, a);
      }
    }
  }

  // Nothing outside c is mutually reachable with anything in c.
  ghost predicate Separate(g: Net, c: set<Block>)
  {
    forall x, y {:trigger g.Mutual(x, y)} :: x in c && y !in c && y in g.nodes ==> !g.Mutual(x, y)
  }

  lemma ComponentSeparate(g: Net, c: set<Block>)
    requires g.IsComponent(c)
    ensures Separate(g, c)
  {
    var a :| a in g.nodes && c == g.Component(a);
    forall x, y | x in c && y !in c && y in g.nodes ensures !g.Mutual(x, y) {
      if g.Mutual(x, y) {
        g.ReachesTrans(a, x, y);
        g.ReachesTrans(y, x, a);
      }
    }
  }

  lemma SeparateSub(h: Net, g: Net, c: set<Block>)
    requires SubNet(h, g) && Separate(g, c)
    ensures Separate(h, c)
  {
    forall x, y | x in c && y !in c && y in h.nodes ensures !h.Mutual(x, y) {
      MutualBetween(h, g, x, y);
    }
  }

  // ---- Loops are entered ----

  // Some edge leads from outside c to b.
  ghost predicate EnteredAt(g: Net, c: set<Block>, b: Block)
  {
    b in c && exists u :: u !in c && g.Edge(u, b)
  }

  ghost predicate Entered(g: Net, c: set<Block>)
  {
    exists b :: EnteredAt(g, c, b)
  }

  ghost predicate AllEntered(g: Net)
  {
    forall c :: g.IsComponent(c) ==> Entered(g, c)
  }

  // A walk from outside c into c enters c.
  lemma WalkEnters(g: Net, c: set<Block>, p: seq<Block>, a: Block, b: Block)
    requires g.PathBetween(p, a, b) && a !in c && b in c
    ensures Entered(g, c)
  {
    var i := 0;
    while i < |p| - 1 && p[i + 1] !in c
      invariant 0 <= i < |p| && p[i] !in c
    {
      i := i + 1;
    }
    assert g.Linked(p, i);
    assert EnteredAt(g, c, p[i + 1]);
  }

  // When every component is entered, so is every strongly connected set inside one.
  lemma ConnectedEntered(g: Net, c: set<Block>)
    requires AllEntered(g) && Connected(g, c) && |c| >= 2
    ensures Entered(g, c)
  {
    var a :| a in c;
    var whole := g.Component(a);
    ComponentConnected(g, a);
    forall x | x in c ensures x in whole {
      assert g.Reaches(a, x) && g.Reaches(x, a);
    }
    if whole == c {
      assert g.IsComponent(c);
    } else {
      var x :| x in whole && x !in c;
      assert g.Reaches(x, a);
      var p :| g.PathBetween(p, x, a);
      WalkEnters(g, c, p, x, a);
    }
  }

  // ---- The record ----

  // The loops recorded, the base of each, and for each block the base recorded last for it.
  datatype Nest = Nest(loops: set<set<Block>>, base2loop: map<Block, set<Block>>, loop2base: map<set<Block>, Block>,
    bb2base: map<Block, Block>)
  {
    ghost predicate Has(c: set<Block>)
    {
      c in loops
    }

    // The innermost recorded loop of x: what get_inner_loop returns.
    function Inner(x: Block): Option<set<Block>>
    {
      if x in bb2base && bb2base[x] in base2loop then Some(base2loop[bb2base[x]]) else None
    }
  }

  // A recorded loop: strongly connected in the flow graph, entered at its base, of at least two
  // blocks, and cut off from everything else once the bases are gone.
  ghost predicate Recorded(g: Net, bases: set<Block>, n: Nest, c: set<Block>)
  {
    && |c| >= 2 && Connected(g, c)
    && c in n.loop2base && n.loop2base[c] in bases && n.loop2base[c] in n.base2loop && n.base2loop[n.loop2base[c]] == c
    && EnteredAt(g, c, n.loop2base[c])
  }

  // b is the base recorded for the loop recorded under b.
  ghost predicate Owns(n: Nest, b: Block)
  {
    b in n.base2loop && n.Has(n.base2loop[b]) && n.base2loop[b] in n.loop2base && n.loop2base[n.base2loop[b]] == b
  }

  // Bases and loops are in one-to-one correspondence.
  ghost predicate BasesExact(bases: set<Block>, n: Nest)
  {
    && n.base2loop.Keys == bases && n.loop2base.Keys == n.loops
    && forall b {:trigger Owns(n, b)} :: b in bases ==> Owns(n, b)
  }

  ghost predicate Nested(c: set<Block>, d: set<Block>)
  {
    c == d || c !! d || c < d || d < c
  }

  ghost predicate Laminar(n: Nest)
  {
    forall c, d {:trigger Nested(c, d)} :: n.Has(c) && n.Has(d) ==> Nested(c, d)
  }

  // x is in no recorded loop and has no innermost one, or its innermost loop is the least that holds it.
  ghost predicate InnerExact(n: Nest, x: Block)
  {
    match n.Inner(x)
    case None => x !in n.bb2base && forall c {:trigger n.Has(c)} :: n.Has(c) ==> x !in c
    case Some(least) => n.Has(least) && x in least && forall c {:trigger n.Has(c)} :: n.Has(c) && x in c ==> least <= c
  }

  ghost predicate NestInv(g: Net, bases: set<Block>, n: Nest)
    requires g.Valid()
  {
    && bases <= g.nodes
    && (forall c {:trigger n.Has(c)} :: n.Has(c) ==> Recorded(g, bases, n, c))
    && (forall c {:trigger Separate(Without(g, bases), c)} :: n.Has(c) ==> Separate(Without(g, bases), c))
    && BasesExact(bases, n) && Laminar(n)
    && (forall x {:trigger InnerExact(n, x)} :: InnerExact(n, x))
  }

  lemma NoLoops(g: Net)
    requires g.Valid()
    ensures NestInv(g, {}, Nest({}, map[], map[], map[]))
  {
  }

  // c can be recorded next: it keeps clear of every recorded loop or lies strictly inside it.
  ghost predicate Fits(n: Nest, c: set<Block>)
  {
    forall d {:trigger n.Has(d)} :: n.Has(d) ==> c !! d || c < d
  }

  // A component of what is left fits.
  lemma ComponentFits(g: Net, bases: set<Block>, n: Nest, c: set<Block>)
    requires g.Valid() && NestInv(g, bases, n) && Without(g, bases).IsComponent(c)
    ensures Fits(n, c)
  {
    var h := Without(g, bases);
    var a :| a in h.nodes && c == h.Component(a);
    ComponentConnected(h, a);
    forall d | n.Has(d) ensures c !! d || c < d {
      assert Recorded(g, bases, n, d) && Separate(h, d);
      if !(c !! d) {
        var x :| x in c && x in d;
        forall y | y in c ensures y in d {
          assert h.Reaches(x, y) && h.Reaches(y, x);
          assert h.Mutual(x, y);
        }
        assert n.loop2base[d] !in c;
      }
    }
  }

  ghost function Add(n: Nest, c: set<Block>, b: Block): Nest
  {
    Nest(n.loops + {c}, n.base2loop[b := c], n.loop2base[c := b], n.bb2base + (map x | x in c :: b))
  }

  lemma FitsNew(n: Nest, c: set<Block>)
    requires Fits(n, c) && |c| >= 2
    ensures !n.Has(c)
  {
    var x :| x in c;
  }

  lemma AddFits(n: Nest, c: set<Block>, b: Block, d: set<Block>)
    requires Fits(n, d) && c !! d
    ensures Fits(Add(n, c, b), d)
  {
    forall e | Add(n, c, b).Has(e) ensures d !! e || d < e {
      assert n.Has(e) || e == c;
    }
  }

  lemma AddRecorded(g: Net, bases: set<Block>, n: Nest, c: set<Block>, b: Block, d: set<Block>)
    requires b !in bases && BasesExact(bases, n) && (n.Has(d) ==> Recorded(g, bases, n, d) && b != n.loop2base[d])
    requires |c| >= 2 && Connected(g, c) && EnteredAt(g, c, b) && !n.Has(c)
    requires Add(n, c, b).Has(d)
    ensures Recorded(g, bases + {b}, Add(n, c, b), d)
  {
    if d != c {
      assert n.Has(d);
    }
  }

  lemma AddBases(bases: set<Block>, n: Nest, c: set<Block>, b: Block)
    requires BasesExact(bases, n) && b !in bases && !n.Has(c)
    ensures BasesExact(bases + {b}, Add(n, c, b))
  {
    var n' := Add(n, c, b);
    forall x | x in bases + {b} ensures Owns(n', x) {
      assert x != b ==> Owns(n, x);
    }
  }

  lemma AddLaminar(n: Nest, c: set<Block>, b: Block)
    requires Laminar(n) && Fits(n, c)
    ensures Laminar(Add(n, c, b))
  {
    var n' := Add(n, c, b);
    forall d, e | n'.Has(d) && n'.Has(e) ensures Nested(d, e) {
      assert n.Has(d) || d == c;
      assert n.Has(e) || e == c;
    }
  }

  lemma AddInner(bases: set<Block>, n: Nest, c: set<Block>, b: Block, x: Block)
    requires InnerExact(n, x) && Fits(n, c) && b !in n.base2loop
    ensures InnerExact(Add(n, c, b), x)
  {
    var n' := Add(n, c, b);
    forall d ensures n'.Has(d) <==> n.Has(d) || d == c {
    }
    if x in c {
      assert n'.Inner(x) == Some(c);
    } else {
      assert n'.Inner(x) == n.Inner(x);
    }
  }

  // Recording a component of what is left under its base, and removing the base, keeps the nest.
  lemma AddKeeps(g: Net, bases: set<Block>, n: Nest, c: set<Block>, b: Block)
    requires g.Valid() && NestInv(g, bases, n) && Fits(n, c) && b in g.nodes - bases
    requires |c| >= 2 && Connected(g, c) && EnteredAt(g, c, b) && Separate(Without(g, bases), c)
    ensures NestInv(g, bases + {b}, Add(n, c, b))
  {
    var n' := Add(n, c, b);
    FitsNew(n, c);
    WithoutSub(g, bases, bases + {b});
    forall d | n'.Has(d) ensures Recorded(g, bases + {b}, n', d) {
      if n.Has(d) {
        assert Recorded(g, bases, n, d);
      }
      AddRecorded(g, bases, n, c, b, d);
    }
    forall d | n'.Has(d) ensures Separate(Without(g, bases + {b}), d) {
      assert n.Has(d) || d == c;
      assert Separate(Without(g, bases), d);
      SeparateSub(Without(g, bases + {b}), Without(g, bases), d);
    }
    AddBases(bases, n, c, b);
    AddLaminar(n, c, b);
    forall x ensures InnerExact(n', x) {
      assert InnerExact(n, x);
      AddInner(bases, n, c, b, x);
    }
  }

  // ---- The successor and predecessor sets kept while bases are removed ----

  ghost function PredsIn(g: Net, nodes: set<Block>, x: Block): set<Block>
  {
    set p | p in nodes && g.Edge(p, x)
  }

  // A remaining node knows its remaining successors and predecessors.
  ghost predicate Kept(g: Net, bases: set<Block>, succs: map<Block, set<Block>>, prevs: map<Block, set<Block>>,
      x: Block)
    requires x in g.nodes && g.Valid()
  {
    && x in succs && succs[x] == g.succs[x] - bases
    && x in prevs && prevs[x] == PredsIn(g, g.nodes - bases, x)
  }

  // A removed base still knows which remaining nodes it leads to.
  ghost predicate Remembered(g: Net, bases: set<Block>, succs: map<Block, set<Block>>, prevs: map<Block, set<Block>>,
      x: Block)
    requires x in g.nodes && g.Valid()
  {
    x in succs && x in prevs && g.succs[x] - bases <= succs[x] <= g.succs[x]
  }

  ghost predicate Mirrors(g: Net, bases: set<Block>, nodes: set<Block>, succs: map<Block, set<Block>>,
      prevs: map<Block, set<Block>>)
  {
    && g.Valid() && bases <= g.nodes && nodes == g.nodes - bases
    && succs.Keys == g.nodes && prevs.Keys == g.nodes
    && (forall x {:trigger Kept(g, bases, succs, prevs, x)} :: x in nodes ==> Kept(g, bases, succs, prevs, x))
    && (forall x {:trigger Remembered(g, bases, succs, prevs, x)} :: x in bases ==>
      Remembered(g, bases, succs, prevs, x))
  }

  lemma MirrorsGraph(g: Net, bases: set<Block>, nodes: set<Block>, succs: map<Block, set<Block>>,
      prevs: map<Block, set<Block>>)
    requires Mirrors(g, bases, nodes, succs, prevs)
    ensures Net(nodes, succs).Valid()
    ensures SubNet(Net(nodes, succs), Without(g, bases)) && SubNet(Without(g, bases), Net(nodes, succs))
  {
    var h := Net(nodes, succs);
    forall x | x in nodes ensures h.Out(x) <= nodes {
      assert Kept(g, bases, succs, prevs, x);
      assert g.Out(x) <= g.nodes;
    }
    forall a, b ensures h.Edge(a, b) <==> Without(g, bases).Edge(a, b) {
      WithoutEdge(g, bases, a, b);
      if a in nodes {
        assert Kept(g, bases, succs, prevs, a);
      }
    }
  }

  // An edge from a remaining node enters c at b.
  ghost predicate EnteredFromRest(prevs: map<Block, set<Block>>, c: set<Block>, b: Block)
  {
    b in c && exists p :: b in prevs && p in prevs[b] && p !in c
  }

  // The nodes at which find_loop_base sees an edge into c: from a remaining node or a base.
  ghost predicate SeesEntry(bases: set<Block>, succs: map<Block, set<Block>>, prevs: map<Block, set<Block>>,
      c: set<Block>, b: Block)
  {
    EnteredFromRest(prevs, c, b) || (b in c && exists r :: r in bases && r in succs && b in succs[r])
  }

  // It sees exactly the edges of the flow graph that enter c.
  lemma SeesEntryIff(g: Net, bases: set<Block>, nodes: set<Block>, succs: map<Block, set<Block>>,
      prevs: map<Block, set<Block>>, c: set<Block>, b: Block)
    requires Mirrors(g, bases, nodes, succs, prevs) && c <= nodes
    ensures SeesEntry(bases, succs, prevs, c, b) <==> EnteredAt(g, c, b)
  {
    if b in c {
      assert Kept(g, bases, succs, prevs, b);
      if p :| p in prevs[b] && p !in c {
        assert g.Edge(p, b);
      }
      if r :| r in bases && r in succs && b in succs[r] {
        assert Remembered(g, bases, succs, prevs, r);
        assert r !in c && g.Edge(r, b);
      }
      if u :| u !in c && g.Edge(u, b) {
        if u in nodes {
          assert u in prevs[b];
        } else {
          assert Remembered(g, bases, succs, prevs, u);
        }
      }
    }
  }

  // Removing the base b: it is erased from its successors' predecessors and its predecessors' successors.
  ghost function Erased(m: map<Block, set<Block>>, from: set<Block>, b: Block): map<Block, set<Block>>
  {
    map x | x in m :: if x in from then m[x] - {b} else m[x]
  }

  lemma EraseKeeps(g: Net, bases: set<Block>, nodes: set<Block>, succs: map<Block, set<Block>>,
      prevs: map<Block, set<Block>>, b: Block)
    requires Mirrors(g, bases, nodes, succs, prevs) && b in nodes
    ensures Mirrors(g, bases + {b}, nodes - {b}, Erased(succs, Erased(prevs, succs[b], b)[b], b),
      Erased(prevs, succs[b], b))
  {
    var prevs' := Erased(prevs, succs[b], b);
    var succs' := Erased(succs, prevs'[b], b);
    var bases' := bases + {b};
    assert Kept(g, bases, succs, prevs, b);
    forall x | x in nodes - {b} ensures Kept(g, bases', succs', prevs', x) {
      assert Kept(g, bases, succs, prevs, x);
      assert b in succs[x] <==> x in prevs'[b];
      assert x in succs[b] <==> b in prevs[x];
    }
    forall x | x in bases' ensures Remembered(g, bases', succs', prevs', x) {
      if x != b {
        assert Remembered(g, bases, succs, prevs, x);
        assert x !in prevs[b];
      }
    }
  }

  // ---- One round ----

  // The components still to be recorded in a round that began with the given bases.
  ghost predicate Pending(g: Net, before: set<Block>, bases: set<Block>, n: Nest, c: set<Block>)
    requires g.Valid()
  {
    Without(g, before).IsComponent(c) && c <= g.nodes - bases && Fits(n, c)
  }

  lemma PendingAtStart(g: Net, bases: set<Block>, n: Nest, c: set<Block>)
    requires g.Valid() && NestInv(g, bases, n) && Without(g, bases).IsComponent(c)
    ensures Pending(g, bases, bases, n, c)
  {
    ComponentFits(g, bases, n, c);
    ComponentMaximal(Without(g, bases), c);
  }

  // A pending component is strongly connected in the flow graph and separate in what is left.
  lemma PendingConnected(g: Net, before: set<Block>, bases: set<Block>, n: Nest, c: set<Block>)
    requires g.Valid() && before <= bases && Pending(g, before, bases, n, c)
    ensures |c| >= 2 && Connected(g, c) && Separate(Without(g, bases), c)
  {
    ComponentMaximal(Without(g, before), c);
    WithoutSub(g, before, bases);
    ComponentSeparate(Without(g, before), c);
    SeparateSub(Without(g, bases), Without(g, before), c);
    forall a, b | a in c && b in c ensures g.Reaches(a, b) {
      SubReaches(Without(g, before), g, a, b);
    }
  }

  lemma ComponentsDisjoint(g: Net, c: set<Block>, d: set<Block>)
    requires g.IsComponent(c) && g.IsComponent(d) && c != d
    ensures c !! d
  {
    var a :| a in g.nodes && c == g.Component(a);
    var b :| b in g.nodes && d == g.Component(b);
    if x :| x in c && x in d {
      SameComponent(g, a, x);
      SameComponent(g, b, x);
    }
  }

  lemma PendingAfter(g: Net, before: set<Block>, bases: set<Block>, n: Nest, c: set<Block>, b: Block, d: set<Block>)
    requires g.Valid() && Pending(g, before, bases, n, c) && Pending(g, before, bases, n, d) && c != d && b in c
    ensures Pending(g, before, bases + {b}, Add(n, c, b), d)
  {
    ComponentsDisjoint(Without(g, before), c, d);
    AddFits(n, c, b, d);
  }

  ghost predicate AllPending(g: Net, before: set<Block>, bases: set<Block>, n: Nest, todo: set<set<Block>>)
    requires g.Valid()
  {
    forall c {:trigger c in todo} :: c in todo ==> Pending(g, before, bases, n, c)
  }

  lemma AllPendingAtStart(g: Net, bases: set<Block>, n: Nest, found: set<set<Block>>)
    requires g.Valid() && NestInv(g, bases, n) && AreComponents(g, bases, found)
    ensures AllPending(g, bases, bases, n, found)
  {
    forall c | c in found ensures Pending(g, bases, bases, n, c) {
      assert Without(g, bases).IsComponent(c);
      PendingAtStart(g, bases, n, c);
    }
  }

  lemma AllPendingAfter(g: Net, before: set<Block>, bases: set<Block>, n: Nest, todo: set<set<Block>>, c: set<Block>,
      b: Block)
    requires g.Valid() && AllPending(g, before, bases, n, todo) && c in todo && b in c
    ensures AllPending(g, before, bases + {b}, Add(n, c, b), todo - {c})
  {
    forall d | d in todo - {c} ensures Pending(g, before, bases + {b}, Add(n, c, b), d) {
      PendingAfter(g, before, bases, n, c, b, d);
    }
  }

  ghost predicate AreComponents(g: Net, bases: set<Block>, found: set<set<Block>>)
    requires g.Valid()
  {
    forall c {:trigger Without(g, bases).IsComponent(c)} :: c in found <==> Without(g, bases).IsComponent(c)
  }

  // Every round finds a base for each component, if the first round does.
  lemma RoundOutcome(g: Net, bases: set<Block>, found: set<set<Block>>)
    requires g.Valid() && AreComponents(g, bases, found)
    ensures AllEntered(g) ==> forall c :: c in found ==> Entered(g, c)
    ensures bases == {} && (forall c :: c in found ==> Entered(g, c)) ==> AllEntered(g)
  {
    var h := Without(g, bases);
    WithoutSub(g, bases, bases);
    if AllEntered(g) {
      forall c | c in found ensures Entered(g, c) {
        assert h.IsComponent(c);
        ComponentMaximal(h, c);
        forall a, b | a in c && b in c ensures g.Reaches(a, b) {
          SubReaches(h, g, a, b);
        }
        ConnectedEntered(g, c);
      }
    }
    if bases == {} && forall c :: c in found ==> Entered(g, c) {
      forall a, b ensures h.Edge(a, b) <==> g.Edge(a, b) {
        WithoutEdge(g, bases, a, b);
      }
      forall c | g.IsComponent(c) ensures Entered(g, c) {
        SameComponents(h, g, c);
        assert c in found;
      }
    }
  }

  // ---- The end of the search ----

  // No two blocks are left on a common cycle.
  ghost predicate Acyclic(g: Net, bases: set<Block>)
    requires g.Valid()
  {
    forall a, b {:trigger Without(g, bases).Mutual(a, b)} ::
      a in g.nodes - bases && b in g.nodes - bases && Without(g, bases).Mutual(a, b) ==> a == b
  }

  lemma NoComponentsAcyclic(g: Net, bases: set<Block>, found: set<set<Block>>)
    requires g.Valid() && AreComponents(g, bases, found) && found == {}
    ensures Acyclic(g, bases)
  {
    var h := Without(g, bases);
    forall a, b | a in h.nodes && b in h.nodes && h.Mutual(a, b) ensures a == b {
      h.ReachesSelf(a);
      var c := h.Component(a);
      assert !h.IsComponent(c) by { assert c !in found; }
      if a != b {
        assert {a, b} <= c;
        SubsetSize({a, b}, c);
      }
    }
  }

  lemma SubsetSize(a: set<Block>, b: set<Block>)
    requires a <= b
    ensures |a| <= |b|
  {
    if a != {} {
      var x :| x in a;
      SubsetSize(a - {x}, b - {x});
    }
  }

  lemma RestShrinks(all: set<Block>, before: set<Block>, after: set<Block>)
    requires before < after <= all
    ensures |all - after| < |all - before|
  {
    var x :| x in after && x !in before;
    SubsetSize(all - after, all - before - {x});
  }

  // ---- The flow graph searched ----

  ghost function Elements(s: seq<Block>): set<Block>
  {
    set x | x in s
  }

  ghost function NetOf(f: Cfg): Net
    requires f.Valid()
  {
    Net(f.blocks, map b | b in f.blocks :: Elements(f.succ[b]))
  }

  lemma NetOfEdge(f: Cfg, a: Block, b: Block)
    requires f.Valid()
    ensures NetOf(f).Edge(a, b) <==> f.Edge(a, b)
  {
  }

  lemma NetOfValid(f: Cfg)
    requires f.Valid()
    ensures NetOf(f).Valid()
  {
    var g := NetOf(f);
    forall x | x in g.nodes ensures g.succs[x] <= g.nodes {
    }
  }

  // When every block is reachable and the entry block has no predecessor, every component is entered.
  lemma ReachableEntered(f: Cfg)
    requires f.Valid() && f.pred[f.entry] == []
    requires forall b :: b in f.blocks ==> f.Reachable(b)
    ensures AllEntered(NetOf(f))
  {
    var g := NetOf(f);
    forall c | g.IsComponent(c) ensures Entered(g, c) {
      ComponentMaximal(g, c);
      var b :| b in c;
      assert f.Reachable(b);
      EntryOutside(f, c);
      var p :| f.PathBetween(p, f.entry, b);
      forall i | 0 <= i < |p| - 1 ensures g.Linked(p, i) {
        assert f.Linked(p, i);
        NetOfEdge(f, p[i], p[i + 1]);
      }
      WalkEnters(g, c, p, f.entry, b);
    }
  }

  lemma EntryOutside(f: Cfg, c: set<Block>)
    requires f.Valid() && f.pred[f.entry] == [] && Connected(NetOf(f), c) && |c| >= 2
    ensures f.entry !in c
  {
    var g := NetOf(f);
    if f.entry in c {
      var x :| x in c && x != f.entry by {
        if forall x :: x in c ==> x == f.entry {
          SubsetSize(c, {f.entry});
        }
      }
      assert g.Reaches(x, f.entry);
      var p :| g.PathBetween(p, x, f.entry);
      assert g.Linked(p, |p| - 2);
      NetOfEdge(f, p[|p| - 2], f.entry);
    }
  }

  // The condition is needed: two blocks that branch to each other, one of them the entry, have no
  // edge from outside, so the search finds no base for them.
  lemma EntryInLoopNotEntered() returns (f: Cfg)
    ensures f.Valid() && f.Edge(f.entry, 1) && f.Edge(1, f.entry) && !AllEntered(NetOf(f))
  {
    f := Cfg({0, 1}, 0, map[0 := [1], 1 := [0]], map[0 := [1], 1 := [0]]);
    var g := NetOf(f);
    NetOfEdge(f, 0, 1);
    NetOfEdge(f, 1, 0);
    g.ReachesSelf(0);
    g.ReachesSelf(1);
    g.ReachesStep(0, 0, 1);
    g.ReachesStep(1, 1, 0);
    var c := g.Component(0);
    assert c == {0, 1} by {
      assert g.Mutual(0, 1);
    }
    assert g.IsComponent(c);
    forall b ensures !EnteredAt(g, c, b) {
      forall u | g.Edge(u, b) ensures u in c {
      }
    }
  }
}
