// When every reachable block has been visited, the code is the renamed form of the function.
module RenameFinal {
  import opened Graph
  import opened DomTree
  import opened IR
  import opened Ssa
  import opened RenameMeaning
  import opened Rename
  import opened TreeWalk

  // ---- The pairs of the phis ----

  lemma {:induction false} IncomingSnoc(ins: seq<(Operand, Block)>, x: (Operand, Block), p: Block)
    ensures Incoming(ins + [x], p) ==
      if Incoming(ins, p).Some? then Incoming(ins, p) else if x.1 == p then Some(x.0) else None
  {
    if ins == [] {
      assert ins + [x] == [x];
    } else {
      IncomingSnoc(ins[1..], x, p);
      assert (ins + [x])[1..] == ins[1..] + [x];
    }
  }

  lemma {:induction false} IncomingPairs(f: Fn, t: Tree, at: map<Reg, Place>, c: Block, v: Slot,
      fed: seq<(Block, Block)>, p: Block)
    requires Wf(f, t, at)
    ensures Incoming(Pairs(f, t, at, c, v, fed), p) == if (p, c) in fed then Content(f, t, at, p, v) else None
  {
    if fed != [] {
      var init, e := fed[..|fed| - 1], fed[|fed| - 1];
      assert fed == init + [e];
      IncomingPairs(f, t, at, c, v, init, p);
      if Content(f, t, at, e.0, v).Some? {
        IncomingSnoc(Pairs(f, t, at, c, v, init), (Content(f, t, at, e.0, v).value, e.0), p);
      }
    }
  }

  // The blocks a phi's pairs name.
  ghost function Sources(ins: seq<(Operand, Block)>): (r: seq<Block>)
    ensures |r| == |ins| && forall i :: 0 <= i < |ins| ==> r[i] == ins[i].1
  {
    seq(|ins|, i requires 0 <= i < |ins| => ins[i].1)
  }

  lemma SourcesSnoc(ins: seq<(Operand, Block)>, x: (Operand, Block), p: Block)
    ensures multiset(Sources(ins + [x]))[p] == multiset(Sources(ins))[p] + if x.1 == p then 1 else 0
  {
    assert Sources(ins + [x]) == Sources(ins) + [x.1];
  }

  // A phi has one pair for every handled edge into its block from a block where its slot has
  // a value, naming the edge's source.
  lemma {:induction false} OnePairPerEdge(f: Fn, t: Tree, at: map<Reg, Place>, c: Block, v: Slot,
      fed: seq<(Block, Block)>, p: Block)
    requires Wf(f, t, at)
    ensures multiset(Sources(Pairs(f, t, at, c, v, fed)))[p] == if Content(f, t, at, p, v).Some?
      then multiset(fed)[(p, c)] else 0
  {
    if fed != [] {
      var init, e := fed[..|fed| - 1], fed[|fed| - 1];
      OnePairPerEdge(f, t, at, c, v, init, p);
      assert multiset(fed)[(p, c)] == multiset(init)[(p, c)] + if e == (p, c) then 1 else 0 by {
        assert fed == init + [e];
      }
      if e.1 == c && Content(f, t, at, e.0, v).Some? {
        SourcesSnoc(Pairs(f, t, at, c, v, init), (Content(f, t, at, e.0, v).value, e.0), p);
      }
    }
  }

  lemma {:induction false} PairsContent(f: Fn, t: Tree, at: map<Reg, Place>, c: Block, v: Slot,
      fed: seq<(Block, Block)>, i: nat)
    requires Wf(f, t, at) && i < |Pairs(f, t, at, c, v, fed)|
    ensures var x := Pairs(f, t, at, c, v, fed)[i]; Content(f, t, at, x.1, v) == Some(x.0)
  {
    if i < |Pairs(f, t, at, c, v, fed[..|fed| - 1])| {
      PairsContent(f, t, at, c, v, fed[..|fed| - 1], i);
    }
  }

  // How many edges lead from p to c.
  ghost function EdgesBetween(g: Cfg, p: Block, c: Block): nat
  {
    if p in g.succ then multiset(g.succ[p])[c] else 0
  }

  // The phi has one pair for every edge into c from a visited block where v has a value, with that
  // value, and no other pairs.
  ghost predicate PhiComplete(f: Fn, t: Tree, at: map<Reg, Place>, c: Block, v: Slot, ins: seq<(Operand, Block)>)
    requires Wf(f, t, at)
  {
    && (forall p :: multiset(Sources(ins))[p] == if p in t.up &&
      ValOut(f, t, at, p, v).Some? then EdgesBetween(f.g, p, c) else 0)
    && forall i :: 0 <= i < |ins| ==> ins[i].1 in t.up && ValOut(f, t, at, ins[i].1, v) == Some(ins[i].0)
  }

  // When every block has been visited once, every phi is complete.
  lemma VisitedOnceComplete(f: Fn, t: Tree, at: map<Reg, Place>, order: seq<Block>, c: Block, v: Slot)
    requires Wf(f, t, at) && Preorder(t, order) && forall x :: x in t.up ==> x in order
    ensures PhiComplete(f, t, at, c, v, Pairs(f, t, at, c, v, AllEdges(f.g, order)))
  {
    var fed := AllEdges(f.g, order);
    var ins := Pairs(f, t, at, c, v, fed);
    forall p ensures multiset(Sources(ins))[p] == if p in t.up &&
      ValOut(f, t, at, p, v).Some? then EdgesBetween(f.g, p, c) else 0 {
      OnePairPerEdge(f, t, at, c, v, fed, p);
      EdgeCount(t, f.g, order, p, c);
    }
    forall i | 0 <= i < |ins| ensures ins[i].1 in t.up && ValOut(f, t, at, ins[i].1, v) == Some(ins[i].0) {
      PairsContent(f, t, at, c, v, fed, i);
    }
  }

  // All phis of all blocks.
  ghost predicate PhisComplete(f: Fn, t: Tree, at: map<Reg, Place>, code: map<Block, seq<Instr>>)
    requires Wf(f, t, at)
  {
    forall c, k {:trigger code[c][k]} :: c in code && 0 <= k < |code[c]| && code[c][k].Phi? ==>
      PhiComplete(f, t, at, c, code[c][k].slot, code[c][k].ins)
  }

  lemma {:induction false} WithoutFrom(s: seq<Instr>, w: set<Reg>, k: nat)
    requires k < |Without(s, w)|
    ensures exists j :: 0 <= j < |s| && Without(s, w)[k] == s[j]
  {
    var init := s[..|s| - 1];
    if k < |Without(init, w)| {
      WithoutFrom(init, w, k);
      var j :| 0 <= j < |init| && Without(init, w)[k] == init[j];
      assert s[j] == init[j];
    }
  }

  // ---- Code ----

  lemma {:induction false} WithoutUnion(s: seq<Instr>, w: set<Reg>, w': set<Reg>)
    ensures Without(Without(s, w), w') == Without(s, w + w')
  {
    if s != [] {
      var init := s[..|s| - 1];
      WithoutUnion(init, w, w');
      if s[|s| - 1].id !in w {
        assert Without(s, w)[..|Without(s, w)| - 1] == Without(init, w);
      }
    }
  }

  // The identities of what the renaming leaves out of a block.
  ghost function DroppedIds(s: seq<Instr>): set<Reg>
  {
    set k | 0 <= k < |s| && Dropped(s[k]) :: s[k].id
  }

  lemma DroppedId(f: Fn, t: Tree, at: map<Reg, Place>, b: Block, k: nat)
    requires Wf(f, t, at) && b in f.code && k < |f.code[b]|
    ensures f.code[b][k].id in DroppedIds(f.code[b]) <==> Dropped(f.code[b][k])
  {
    var id := f.code[b][k].id;
    if id in DroppedIds(f.code[b]) {
      var j :| 0 <= j < |f.code[b]| && Dropped(f.code[b][j]) && f.code[b][j].id == id;
      assert PlacedAt(f, at, b, j) && PlacedAt(f, at, b, k);
    }
  }

  // All loads of reachable blocks have been replaced, all edges out of them handled.
  ghost predicate Complete(f: Fn, t: Tree, at: map<Reg, Place>, subst: set<Reg>, fed: seq<(Block, Block)>)
    requires t.Valid()
  {
    && (forall r: Reg {:trigger r in subst} :: r in subst <==> IsLoad(f, at, r) && at[r].b in t.up)
    && (forall p: Block, c: Block {:trigger f.g.Edge(p, c)} :: p in t.up && f.g.Edge(p, c) ==> (p, c) in fed)
  }

  lemma SubComplete(f: Fn, t: Tree, at: map<Reg, Place>, subst: set<Reg>, fed: seq<(Block, Block)>, o: Operand)
    requires Wf(f, t, at) && Complete(f, t, at, subst, fed)
    ensures SubIn(f, t, at, subst, o) == Sub(f, t, at, o)
  {
  }

  lemma MatchComplete(f: Fn, t: Tree, at: map<Reg, Place>, subst: set<Reg>, fed: seq<(Block, Block)>, b: Block, k: nat)
    requires Wf(f, t, at) && AllDefined(f, t, at) && Complete(f, t, at, subst, fed)
    requires b in f.code && k < |f.code[b]| && !Dropped(f.code[b][k])
    ensures MatchInstr(f, t, at, b, f.code[b][k], RenderInstr(f, t, at, subst, fed, b, f.code[b][k]))
  {
    match f.code[b][k]
    case Compute(_, _, args) =>
      forall i | 0 <= i < |args| ensures SubIn(f, t, at, subst, args[i]) == Sub(f, t, at, args[i]) {
        SubComplete(f, t, at, subst, fed, args[i]);
      }
      assert SubAllIn(f, t, at, subst, args) == SubAll(f, t, at, args);
    case Effect(_, _, args) =>
      forall i | 0 <= i < |args| ensures SubIn(f, t, at, subst, args[i]) == Sub(f, t, at, args[i]) {
        SubComplete(f, t, at, subst, fed, args[i]);
      }
      assert SubAllIn(f, t, at, subst, args) == SubAll(f, t, at, args);
    case Phi(_, v, _) =>
      forall p ensures Fed(f, t, at, p, b, v, Pairs(f, t, at, b, v, fed)) {
        if p in t.up && f.g.Edge(p, b) {
          IncomingPairs(f, t, at, b, v, fed, p);
        }
      }
    case _ =>
  }

  lemma {:induction false} RenderedComplete(f: Fn, t: Tree, at: map<Reg, Place>, subst: set<Reg>,
      fed: seq<(Block, Block)>, b: Block, k: nat)
    requires Wf(f, t, at) && AllDefined(f, t, at) && Complete(f, t, at, subst, fed) && b in f.code && k <= |f.code[b]|
    ensures Rendered(f, t, at, b, k, Without(Render(f, t, at, subst, fed, b)[..k], DroppedIds(f.code[b])))
  {
    if k > 0 {
      var r := Render(f, t, at, subst, fed, b);
      RenderedComplete(f, t, at, subst, fed, b, k - 1);
      assert r[..k][..k - 1] == r[..k - 1];
      DroppedId(f, t, at, b, k - 1);
      if !Dropped(f.code[b][k - 1]) {
        MatchComplete(f, t, at, subst, fed, b, k - 1);
        var out := Without(r[..k], DroppedIds(f.code[b]));
        assert out[..|out| - 1] == Without(r[..k - 1], DroppedIds(f.code[b]));
      }
    }
  }

  // ---- The slots themselves ----

  function ScalarSlots(s: seq<Instr>): set<Reg>
  {
    set k | 0 <= k < |s| && s[k].Alloca? && s[k].scalar :: s[k].id
  }

  lemma {:induction false} WithoutKeeps(s: seq<Instr>, w: set<Reg>, x: Instr)
    ensures x in Without(s, w) <==> x in s && x.id !in w
  {
    if s != [] {
      var init := s[..|s| - 1];
      assert s == init + [s[|s| - 1]];
      WithoutKeeps(init, w, x);
    }
  }

  // First the accesses, then the slots: together what the renaming leaves out.
  lemma BlockComplete(f: Fn, t: Tree, at: map<Reg, Place>, subst: set<Reg>, fed: seq<(Block, Block)>, b: Block,
      code1: seq<Instr>, code2: seq<Instr>)
    requires Wf(f, t, at) && AllDefined(f, t, at) && Complete(f, t, at, subst, fed) && b in f.code
    requires code1 == Without(Render(f, t, at, subst, fed, b), Accesses(f.code[b]))
    requires code2 == Without(code1, ScalarSlots(code1))
    ensures Rendered(f, t, at, b, |f.code[b]|, code2)
  {
    var r := Render(f, t, at, subst, fed, b);
    WithoutUnion(r, Accesses(f.code[b]), ScalarSlots(code1));
    forall k | 0 <= k < |r|
      ensures r[k].id in Accesses(f.code[b]) + ScalarSlots(code1) <==> r[k].id in DroppedIds(f.code[b])
    {
      LeftOut(f, t, at, subst, fed, b, code1, k);
    }
    WithoutSame(r, Accesses(f.code[b]) + ScalarSlots(code1), DroppedIds(f.code[b]));
    RenderedComplete(f, t, at, subst, fed, b, |r|);
    assert r[..|r|] == r;
  }

  lemma LeftOut(f: Fn, t: Tree, at: map<Reg, Place>, subst: set<Reg>, fed: seq<(Block, Block)>, b: Block,
      code1: seq<Instr>, k: nat)
    requires Wf(f, t, at) && b in f.code && k < |f.code[b]|
    requires code1 == Without(Render(f, t, at, subst, fed, b), Accesses(f.code[b]))
    ensures f.code[b][k].id in Accesses(f.code[b]) + ScalarSlots(code1) <==> f.code[b][k].id in DroppedIds(f.code[b])
  {
    var r := Render(f, t, at, subst, fed, b);
    var i := f.code[b][k];
    DroppedId(f, t, at, b, k);
    WithoutKeeps(r, Accesses(f.code[b]), r[k]);
    assert r[k] in r;
    if i.id in Accesses(f.code[b]) {
      var j :| 0 <= j < |f.code[b]| && (f.code[b][j].Load? || f.code[b][j].Store?) && f.code[b][j].id == i.id;
      assert PlacedAt(f, at, b, j) && PlacedAt(f, at, b, k);
    } else if i.id in ScalarSlots(code1) {
      var j :| 0 <= j < |code1| && code1[j].Alloca? && code1[j].scalar && code1[j].id == i.id;
      WithoutKeeps(r, Accesses(f.code[b]), code1[j]);
      var m :| 0 <= m < |r| && r[m] == code1[j];
      assert PlacedAt(f, at, b, m) && PlacedAt(f, at, b, k);
    }
  }
}
