// Which loops are recorded: the components of the graph, and inside a recorded loop the
// components of what is left of it without the bases around.
module LoopLevels {
  import opened Graph
  import opened Tarjan
  import opened LoopNest

  // The bases of the recorded loops that strictly contain c.
  ghost function Above(n: Nest, c: set<Block>): set<Block>
  {
    set d | d in n.loop2base && c < d :: n.loop2base[d]
  }

  // The bases of the recorded loops that contain c.
  ghost function Around(n: Nest, c: set<Block>): set<Block>
  {
    set d | d in n.loop2base && c <= d :: n.loop2base[d]
  }

  // c is a component of the graph without the bases of the recorded loops that strictly contain it.
  ghost predicate AtLevel(g: Net, n: Nest, c: set<Block>)
    requires g.Valid()
  {
    Without(g, Above(n, c)).IsComponent(c)
  }

  ghost predicate Left(g: Net, bases: set<Block>, c: set<Block>)
    requires g.Valid()
  {
    Without(g, bases).IsComponent(c)
  }

  // Recorded, or still to be found among what is left, is exactly what is a component at its level.
  ghost predicate Levels(g: Net, bases: set<Block>, n: Nest)
    requires g.Valid()
  {
    forall c {:trigger AtLevel(g, n, c)} {:trigger n.Has(c)} {:trigger Left(g, bases, c)} ::
      AtLevel(g, n, c) <==> n.Has(c) || Left(g, bases, c)
  }

  lemma LevelsAtStart(g: Net)
    requires g.Valid()
    ensures Levels(g, {}, Nest({}, map[], map[], map[]))
  {
    var n := Nest({}, map[], map[], map[]);
    forall c ensures AtLevel(g, n, c) <==> n.Has(c) || Left(g, {}, c) {
      assert Above(n, c) == {};
    }
  }

  // ---- Components when more bases are removed ----

  // A path between members of a component stays in it.
  lemma PathInside(g: Net, c: set<Block>, p: seq<Block>, a: Block, b: Block, i: nat)
    requires g.IsComponent(c) && a in c && b in c && g.PathBetween(p, a, b) && i < |p|
    ensures p[i] in c
  {
    var r :| r in g.nodes && c == g.Component(r);
    var init, rest := p[..i + 1], p[i..];
    forall j | 0 <= j < |init| - 1 ensures g.Linked(init, j) {
      assert g.Linked(p, j);
    }
    assert g.PathBetween(init, a, p[i]);
    forall j | 0 <= j < |rest| - 1 ensures g.Linked(rest, j) {
      assert g.Linked(p, i + j);
    }
    assert g.PathBetween(rest, p[i], b);
    g.ReachesTrans(r, a, p[i]);
    g.ReachesTrans(p[i], b, r);
    if i < |p| - 1 {
      assert g.Linked(p, i);
    }
  }

  // A component that loses no block stays strongly connected.
  lemma StaysConnected(g: Net, less: set<Block>, more: set<Block>, c: set<Block>)
    requires g.Valid() && less <= more && c !! more && Without(g, less).IsComponent(c)
    ensures Connected(Without(g, more), c)
  {
    var h, h' := Without(g, less), Without(g, more);
    ComponentMaximal(h, c);
    forall a, b | a in c && b in c ensures h'.Reaches(a, b) {
      assert h.Reaches(a, b);
      var p :| h.PathBetween(p, a, b);
      forall i | 0 <= i < |p| - 1 ensures h'.Linked(p, i) {
        assert h.Linked(p, i);
        PathInside(h, c, p, a, b, i);
        PathInside(h, c, p, a, b, i + 1);
        WithoutEdge(g, less, p[i], p[i + 1]);
        WithoutEdge(g, more, p[i], p[i + 1]);
      }
      assert h'.PathBetween(p, a, b);
    }
  }

  lemma SubConnected(h: Net, g: Net, c: set<Block>)
    requires SubNet(h, g) && Connected(h, c)
    ensures Connected(g, c)
  {
    forall a, b | a in c && b in c ensures g.Reaches(a, b) {
      SubReaches(h, g, a, b);
    }
  }

  // It stays a component.
  lemma StaysComponent(g: Net, less: set<Block>, more: set<Block>, c: set<Block>)
    requires g.Valid() && less <= more && c !! more && Without(g, less).IsComponent(c)
    ensures Without(g, more).IsComponent(c)
  {
    StaysConnected(g, less, more, c);
    WithoutSub(g, less, more);
    forall d | Connected(Without(g, more), d) && c <= d ensures d == c {
      SubConnected(Without(g, more), Without(g, less), d);
      ComponentMaximal(Without(g, less), c);
    }
    ComponentMaximal(Without(g, less), c);
    ComponentMaximal(Without(g, more), c);
  }

  // A strongly connected set that shares a block with a component lies in it.
  lemma ConnectedInside(g: Net, c: set<Block>, d: set<Block>, x: Block)
    requires g.IsComponent(c) && Connected(g, d) && x in c && x in d
    ensures d <= c
  {
    var r :| r in g.nodes && c == g.Component(r);
    forall y | y in d ensures y in c {
      g.ReachesTrans(r, x, y);
      g.ReachesTrans(y, x, r);
    }
  }

  // Every strongly connected set of two or more nodes lies in a component.
  lemma InComponent(g: Net, c: set<Block>) returns (d: set<Block>)
    requires Connected(g, c) && |c| >= 2
    ensures g.IsComponent(d) && c <= d
  {
    var a :| a in c;
    d := g.Component(a);
    ComponentConnected(g, a);
    forall x | x in c ensures x in d {
      assert g.Reaches(a, x) && g.Reaches(x, a);
    }
    SubsetSize(c, d);
  }

  // A component c without its block b falls apart into what is left: putting back bases outside c
  // changes nothing inside it.
  lemma InsideIff(g: Net, less: set<Block>, more: set<Block>, c: set<Block>, b: Block, d: set<Block>)
    requires g.Valid() && less <= more && c !! more && b in c && Without(g, less).IsComponent(c) && d < c
    ensures Without(g, less + {b}).IsComponent(d) <==> Without(g, more + {b}).IsComponent(d)
  {
    var h, h' := Without(g, less + {b}), Without(g, more + {b});
    WithoutSub(g, less + {b}, more + {b});
    if h.IsComponent(d) {
      ComponentMaximal(h, d);
      StaysComponent(g, less + {b}, more + {b}, d);
    }
    if h'.IsComponent(d) {
      ComponentMaximal(h', d);
      SubConnected(h', h, d);
      var e := InComponent(h, d);
      ComponentMaximal(h, e);
      WithoutSub(g, less, less + {b});
      SubConnected(h, Without(g, less), e);
      var x :| x in d;
      ConnectedInside(Without(g, less), c, e, x);
      StaysConnected(g, less + {b}, more + {b}, e);
    }
  }

  // ---- Recording one loop ----

  lemma AboveAfter(n: Nest, c: set<Block>, b: Block, d: set<Block>)
    requires c !in n.loop2base
    ensures Above(Add(n, c, b), d) == if d < c then Above(n, d) + {b} else Above(n, d)
  {
    var n' := Add(n, c, b);
    forall x ensures x in Above(n', d) <==> x in Above(n, d) || (d < c && x == b) {
      if e :| e in n.loop2base && d < e && n.loop2base[e] == x {
        assert e in n'.loop2base && n'.loop2base[e] == x;
      }
      if d < c {
        assert c in n'.loop2base && n'.loop2base[c] == b;
      }
    }
  }

  // The recorded loops around something inside c are those around c.
  lemma AboveInside(n: Nest, c: set<Block>, d: set<Block>)
    requires n.loop2base.Keys == n.loops && Fits(n, c) && d < c && d != {}
    ensures Above(n, d) == Above(n, c)
  {
    var x :| x in d;
    forall e | e in n.loop2base && d < e ensures c < e {
      assert n.Has(e);
    }
  }

  lemma AboveInBases(g: Net, bases: set<Block>, n: Nest, c: set<Block>)
    requires g.Valid() && NestInv(g, bases, n)
    ensures Above(n, c) <= bases
  {
    forall d | d in n.loop2base && c < d ensures n.loop2base[d] in bases {
      assert n.Has(d);
    }
  }

  // What lies inside the loop c just recorded is at its level exactly if it is left.
  lemma LevelInside(g: Net, bases: set<Block>, n: Nest, c: set<Block>, b: Block, d: set<Block>)
    requires g.Valid() && NestInv(g, bases, n) && Levels(g, bases, n) && Left(g, bases, c) && b in c && d < c
    ensures AtLevel(g, Add(n, c, b), d) <==> Left(g, bases + {b}, d)
  {
    ComponentFits(g, bases, n, c);
    ComponentMaximal(Without(g, bases), c);
    FitsNew(n, c);
    if d == {} {
      return;
    }
    assert AtLevel(g, n, c);
    AboveInside(n, c, d);
    AboveAfter(n, c, b, d);
    AboveInBases(g, bases, n, c);
    InsideIff(g, Above(n, c), bases, c, b, d);
  }

  // What does not lie inside it is left exactly if it was left before, c apart.
  lemma LeftOutside(g: Net, bases: set<Block>, c: set<Block>, b: Block, d: set<Block>)
    requires g.Valid() && Left(g, bases, c) && b in c && !(d < c)
    ensures Left(g, bases + {b}, d) <==> Left(g, bases, d) && d != c
  {
    var h, h' := Without(g, bases), Without(g, bases + {b});
    WithoutSub(g, bases, bases + {b});
    ComponentMaximal(h, c);
    ComponentMaximal(h, d);
    ComponentMaximal(h', d);
    if h.IsComponent(d) && d != c {
      ComponentsDisjoint(h, c, d);
      StaysComponent(g, bases, bases + {b}, d);
    }
    if h'.IsComponent(d) {
      SubConnected(h', h, d);
      var e := InComponent(h, d);
      assert e != c;
      ComponentsDisjoint(h, c, e);
      ComponentMaximal(h, e);
      StaysConnected(g, bases, bases + {b}, e);
      assert e == d;
    }
  }

  // Recording a component of what is left keeps the levels.
  lemma AddLevels(g: Net, bases: set<Block>, n: Nest, c: set<Block>, b: Block)
    requires g.Valid() && NestInv(g, bases, n) && Levels(g, bases, n) && Left(g, bases, c) && b in c
    ensures Levels(g, bases + {b}, Add(n, c, b))
  {
    var n' := Add(n, c, b);
    ComponentFits(g, bases, n, c);
    ComponentMaximal(Without(g, bases), c);
    FitsNew(n, c);
    forall d ensures AtLevel(g, n', d) <==> n'.Has(d) || Left(g, bases + {b}, d) {
      assert n'.Has(d) <==> n.Has(d) || d == c;
      if d < c {
        LevelInside(g, bases, n, c, b, d);
        assert n.Has(d) ==> Recorded(g, bases, n, d);
      } else {
        AboveAfter(n, c, b, d);
        LeftOutside(g, bases, c, b, d);
        assert AtLevel(g, n, d) <==> n.Has(d) || Left(g, bases, d);
        assert AtLevel(g, n, c);
      }
    }
  }

  // ---- The loops found ----

  // The recorded loops are exactly the components at their levels.
  ghost predicate LoopsExact(g: Net, n: Nest)
    requires g.Valid()
  {
    forall c {:trigger AtLevel(g, n, c)} {:trigger n.Has(c)} :: n.Has(c) <==> AtLevel(g, n, c)
  }

  lemma LevelsAtEnd(g: Net, bases: set<Block>, n: Nest, found: set<set<Block>>)
    requires g.Valid() && Levels(g, bases, n) && AreComponents(g, bases, found) && found == {}
    ensures LoopsExact(g, n)
  {
    forall c ensures n.Has(c) <==> AtLevel(g, n, c) {
      assert Left(g, bases, c) <==> c in found;
    }
  }

  // Every component of the graph is a recorded loop.
  lemma OutermostRecorded(g: Net, n: Nest, c: set<Block>)
    requires g.Valid() && LoopsExact(g, n) && n.loop2base.Keys == n.loops && g.IsComponent(c)
    ensures n.Has(c)
  {
    WithoutSub(g, {}, {});
    forall d | d in n.loop2base ensures !(c < d) {
      assert n.Has(d) && AtLevel(g, n, d);
      ComponentMaximal(Without(g, Above(n, d)), d);
      WithoutSub(g, Above(n, d), Above(n, d));
      SubConnected(Without(g, Above(n, d)), g, d);
      ComponentMaximal(g, c);
    }
    assert Above(n, c) == {};
    forall a, b ensures Without(g, {}).Edge(a, b) <==> g.Edge(a, b) {
      WithoutEdge(g, {}, a, b);
    }
    SameComponents(Without(g, {}), g, c);
    assert AtLevel(g, n, c);
  }

  // And so is, inside a recorded loop e, every component of what is left of the graph without the
  // bases of the loops that contain e.
  lemma InnerRecorded(g: Net, n: Nest, e: set<Block>, c: set<Block>)
    requires g.Valid() && LoopsExact(g, n) && Laminar(n) && n.loop2base.Keys == n.loops
    requires n.Has(e) && c <= e && Without(g, Around(n, e)).IsComponent(c)
    ensures n.Has(c)
  {
    if c == e {
      return;
    }
    var h := Without(g, Around(n, e));
    ComponentMaximal(h, c);
    var x :| x in c;
    forall d | d in n.loop2base && c < d ensures e <= d {
      assert n.Has(d) && Nested(d, e);
      if d < e {
        BetweenConnected(g, n, d, e);
      }
    }
    assert Above(n, c) == Around(n, e);
    assert AtLevel(g, n, c);
  }

  // A recorded loop inside e is strongly connected without the bases of the loops that contain e.
  lemma BetweenConnected(g: Net, n: Nest, d: set<Block>, e: set<Block>)
    requires g.Valid() && LoopsExact(g, n) && n.Has(d) && d < e
    ensures Connected(Without(g, Around(n, e)), d)
  {
    assert AtLevel(g, n, d);
    ComponentMaximal(Without(g, Above(n, d)), d);
    assert Around(n, e) <= Above(n, d);
    WithoutSub(g, Around(n, e), Above(n, d));
    SubConnected(Without(g, Above(n, d)), Without(g, Around(n, e)), d);
  }

  // ---- The bases decide ----

  ghost predicate SameBases(n: Nest, m: Nest)
  {
    forall c {:trigger n.Has(c), m.Has(c)} :: n.Has(c) && m.Has(c) && c in n.loop2base && c in m.loop2base ==>
      n.loop2base[c] == m.loop2base[c]
  }

  // Two records of all loops that choose the same bases hold the same loops.
  lemma {:induction false} BasesDecide(g: Net, n: Nest, m: Nest, c: set<Block>)
    requires g.Valid() && LoopsExact(g, n) && LoopsExact(g, m) && SameBases(n, m)
    requires n.loop2base.Keys == n.loops && m.loop2base.Keys == m.loops
    ensures n.Has(c) <==> m.Has(c)
    decreases |g.nodes - c|
  {
    forall d | c < d && (n.Has(d) || m.Has(d)) ensures n.Has(d) && m.Has(d) {
      assert n.Has(d) ==> AtLevel(g, n, d);
      assert m.Has(d) ==> AtLevel(g, m, d);
      assert d <= g.nodes;
      RestShrinks(g.nodes, c, d);
      BasesDecide(g, n, m, d);
    }
    forall b ensures b in Above(n, c) <==> b in Above(m, c) {
      if d :| d in n.loop2base && c < d && n.loop2base[d] == b {
        assert n.Has(d) && m.Has(d);
      }
      if d :| d in m.loop2base && c < d && m.loop2base[d] == b {
        assert n.Has(d) && m.Has(d);
      }
    }
    assert Above(n, c) == Above(m, c);
    assert AtLevel(g, n, c) <==> AtLevel(g, m, c);
  }
}
