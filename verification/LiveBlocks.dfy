// Which blocks of a generated function control can reach, in terms of its source, and when every merge
// block that it reaches has only predecessors that it reaches.
module LiveBlocks {
  import opened Graph
  import opened Cminus
  import opened Machine
  import opened Generation
  import opened Framing
  import opened StmtMeaning
  import opened FunctionMeaning
  import opened BlockShape
  import opened Lowering
  import opened Dominators

  // ---- The source ----

  // The block open after a statement: none, one that control can reach, or one that it cannot.
  datatype Ending = Closed | Live | Dead

  function Left(live: bool): Ending
  {
    if live then Live else Dead
  }

  // Control that reaches the statement, if live, leaves it like this. After a selection whose branches
  // both return, what follows is generated all the same.
  function After(t: Stmt, live: bool): Ending
    decreases t
  {
    match t
    case ExprStmt(_) => Left(live)
    case Compound(_, body) => AfterAll(body, live)
    case If(_, a, b) => Left(live && (After(a, live).Live? || ElseAfter(b, live).Live?))
    case While(_, _) => Left(live)
    case Return(_) => Closed
  }

  function AfterAll(ts: seq<Stmt>, live: bool): Ending
    decreases ts
  {
    if ts == [] then Left(live)
    else
      var e := After(ts[0], live);
      if e.Closed? then Closed else AfterAll(ts[1..], e.Live?)
  }

  // Without an else, control passes by.
  function ElseAfter(b: Option<Stmt>, live: bool): Ending
    decreases b
  {
    if b.Some? then After(b.value, live) else Left(live)
  }

  // Control can reach what follows a selection.
  function ContLive(a: Stmt, b: Option<Stmt>, live: bool): bool
  {
    live && (After(a, live).Live? || ElseAfter(b, live).Live?)
  }

  // Where control meets again after a selection, or at the head of a loop, no branch and no body ends in
  // a block that it cannot reach.
  predicate Meets(t: Stmt, live: bool)
    decreases t
  {
    match t
    case Compound(_, body) => MeetsAll(body, live)
    case If(_, a, b) =>
      && Meets(a, live) && (b.Some? ==> Meets(b.value, live))
      && (ContLive(a, b, live) ==> !After(a, live).Dead? && !ElseAfter(b, live).Dead?)
    case While(_, a) => Meets(a, live) && (live ==> !After(a, live).Dead?)
    case _ => true
  }

  predicate MeetsAll(ts: seq<Stmt>, live: bool)
    decreases ts
  {
    ts == [] || (
      var e := After(ts[0], live);
      Meets(ts[0], live) && (e.Closed? || MeetsAll(ts[1..], e.Live?)))
  }

  lemma {:induction false} AfterDead(t: Stmt)
    ensures !After(t, false).Live?
    decreases t
  {
    if t.Compound? {
      AllDead(t.body);
    }
  }

  lemma {:induction false} AllDead(ts: seq<Stmt>)
    ensures !AfterAll(ts, false).Live?
    decreases ts
  {
    if ts != [] {
      AfterDead(ts[0]);
      AllDead(ts[1..]);
    }
  }

  // ---- The blocks ----

  ghost predicate Alive(live: seq<bool>, b: Block)
  {
    b < |live| && live[b]
  }

  ghost predicate Joins(succs: seq<seq<Block>>, a: Block, b: Block)
  {
    b in ListAt(succs, a)
  }

  ghost predicate Hop(succs: seq<seq<Block>>, p: seq<Block>, i: nat)
    requires i + 1 < |p|
  {
    Joins(succs, p[i], p[i + 1])
  }

  ghost predicate Way(succs: seq<seq<Block>>, p: seq<Block>, b: Block)
  {
    |p| > 0 && p[0] == 0 && p[|p| - 1] == b && forall i :: 0 <= i < |p| - 1 ==> Hop(succs, p, i)
  }

  ghost predicate Reach(succs: seq<seq<Block>>, b: Block)
  {
    exists p :: Way(succs, p, b)
  }

  // What is marked alive is closed under edges, and reachable unless an edge to it is still to come.
  ghost predicate Flow(g: Gen, live: seq<bool>, promised: set<Block>)
  {
    && |live| == |g.code| == |g.succs| && Alive(live, 0) &&
      (forall b {:trigger b in promised} :: b in promised ==> b < |live|)
    && (forall b {:trigger Alive(live, b)} :: Alive(live, b) && b !in promised ==> Reach(g.succs, b))
    && (forall a: Block, b: Block {:trigger Joins(g.succs, a, b)} :: Joins(g.succs, a, b) ==>
      b < |live| && (Alive(live, a) ==> Alive(live, b)))
  }

  // No edge leads from a block that is not alive to one that is.
  ghost predicate NoneIn(g: Gen, live: seq<bool>)
  {
    forall a, b {:trigger Joins(g.succs, a, b)} :: Joins(g.succs, a, b) && Alive(live, b) ==> Alive(live, a)
  }

  lemma SameFlow(g: Gen, g': Gen, live: seq<bool>, promised: set<Block>)
    requires Flow(g, live, promised) && g'.succs == g.succs && |g'.code| == |g.code|
    ensures Flow(g', live, promised) && (NoneIn(g', live) <==> NoneIn(g, live))
  {
  }

  lemma ReachMore(succs: seq<seq<Block>>, succs': seq<seq<Block>>, b: Block)
    requires Reach(succs, b) && forall x, y {:trigger Joins(succs, x, y)} :: Joins(succs, x, y) ==> Joins(succs', x, y)
    ensures Reach(succs', b)
  {
    var p :| Way(succs, p, b);
    forall i | 0 <= i < |p| - 1 ensures Hop(succs', p, i) {
      assert Hop(succs, p, i);
    }
    assert Way(succs', p, b);
  }

  lemma ReachNext(succs: seq<seq<Block>>, a: Block, b: Block)
    requires Reach(succs, a) && Joins(succs, a, b)
    ensures Reach(succs, b)
  {
    var p :| Way(succs, p, a);
    var q := p + [b];
    forall i | 0 <= i < |q| - 1 ensures Hop(succs, q, i) {
      assert i < |p| - 1 ==> Hop(succs, p, i);
    }
    assert Way(succs, q, b);
  }

  lemma NewFlow(g: Gen, live: seq<bool>, promised: set<Block>, st: bool)
    requires Flow(g, live, promised)
    ensures Flow(NewBlock(g), live + [st], if st then promised + {|g.code|} else promised)
    ensures NoneIn(NewBlock(g), live + [st]) <==> NoneIn(g, live)
  {
    var g', live' := NewBlock(g), live + [st];
    forall x, y ensures Joins(g'.succs, x, y) <==> Joins(g.succs, x, y) {
    }
    forall b | Alive(live', b) && b != |g.code| && b !in promised ensures Reach(g'.succs, b) {
      assert Alive(live, b);
      ReachMore(g.succs, g'.succs, b);
    }
    forall a, b | Joins(g.succs, a, b) ensures (Alive(live', a) <==> Alive(live, a)) &&
      (Alive(live', b) <==> Alive(live, b)) {
    }
  }

  // Edges out of the block that instructions go to.
  ghost predicate Jumps(g: Gen, g': Gen, live: seq<bool>, promised: set<Block>, targets: seq<Block>)
  {
    && g'.succs == Append(g.succs, g.insert, targets) && |g'.code| == |g.code| && g.insert < |g.code| &&
      g.insert !in promised
    && forall b {:trigger b in targets} :: b in targets ==> b < |live| && (Alive(live, g.insert) ==> Alive(live, b))
  }

  ghost function Kept(g: Gen, live: seq<bool>, promised: set<Block>, targets: seq<Block>): set<Block>
  {
    if Alive(live, g.insert) then promised - (set b | b in targets) else promised
  }

  lemma JumpFlow(g: Gen, g': Gen, live: seq<bool>, promised: set<Block>, targets: seq<Block>)
    requires Flow(g, live, promised) && Jumps(g, g', live, promised, targets)
    ensures Flow(g', live, Kept(g, live, promised, targets))
    ensures NoneIn(g', live) <==> NoneIn(g, live) && forall b {:trigger b in targets} ::
      b in targets && Alive(live, b) ==> Alive(live, g.insert)
  {
    forall x, y ensures Joins(g'.succs, x, y) <==> Joins(g.succs, x, y) || (x == g.insert && y in targets) {
    }
    forall b | Alive(live, b) && b !in Kept(g, live, promised, targets) ensures Reach(g'.succs, b) {
      if b in promised {
        ReachMore(g.succs, g'.succs, g.insert);
        ReachNext(g'.succs, g.insert, b);
      } else {
        ReachMore(g.succs, g'.succs, b);
      }
    }
    if NoneIn(g', live) {
      forall b | b in targets && Alive(live, b) ensures Alive(live, g.insert) {
        assert Joins(g'.succs, g.insert, b);
      }
      forall a, b | Joins(g.succs, a, b) && Alive(live, b) ensures Alive(live, a) {
        assert Joins(g'.succs, a, b);
      }
    }
  }

  // ---- Statements ----

  // A construct generated where control can reach the insert block, if live, ends as e says; ok tells whether
  // its edges keep blocks that control can reach apart from others.
  ghost predicate Flows(g: Gen, live: seq<bool>, promised: set<Block>, g': Gen, live': seq<bool>, e: Ending, ok: bool)
  {
    && live <= live' && Flow(g', live', promised) && Ready(g') && g'.insert !in promised
    && (e.Closed? <==> !InsertOpen(g')) && (!e.Closed? ==> (Alive(live', g'.insert) <==> e.Live?))
    && (NoneIn(g', live') <==> NoneIn(g, live) && ok)
  }

  ghost predicate Enters(g: Gen, live: seq<bool>, promised: set<Block>)
  {
    Ready(g) && InsertOpen(g) && Flow(g, live, promised) && g.insert !in promised
  }

  // Expressions, declarations and returns add no edge.
  lemma StraightFlows(g: Gen, g': Gen, live: seq<bool>, promised: set<Block>)
    requires Enters(g, live, promised) && Ready(g') && g'.succs == g.succs && |g'.code| == |g.code| &&
      g'.insert == g.insert
    ensures Flows(g, live, promised, g', live, if InsertOpen(g') then Left(Alive(live, g.insert)) else Closed, true)
  {
    SameFlow(g, g', live, promised);
  }

  lemma {:induction false} StmtFlow(t: Stmt, g: Gen, live: seq<bool>, promised: set<Block>) returns (live': seq<bool>)
    requires Enters(g, live, promised)
    ensures Flows(g, live, promised, GenStmt(t, g), live', After(t, Alive(live, g.insert)),
      Meets(t, Alive(live, g.insert)))
    decreases t, 1
  {
    live' := live;
    match t
    case ExprStmt(None) =>
    case ExprStmt(Some(e)) =>
      ExprStraight(e, g);
      ExprLeavesOpen(e, g);
      StraightFlows(g, GenExpr(e, g).0, live, promised);
    case Compound(decls, body) =>
      live' := CompoundFlow(decls, body, g, live, promised);
    case If(c, a, b) =>
      live' := IfFlow(c, a, b, g, live, promised);
    case While(c, a) =>
      live' := WhileFlow(c, a, g, live, promised);
    case Return(v) =>
      ReturnFlow(v, g, live, promised);
  }

  lemma ReturnFlow(v: Option<Expr>, g: Gen, live: seq<bool>, promised: set<Block>)
    requires Enters(g, live, promised)
    ensures Flows(g, live, promised, GenReturn(v, g), live, Closed, true)
  {
    var g1 := if v.Some? then GenExpr(v.value, g).0 else g;
    if v.Some? {
      ExprStraight(v.value, g);
    }
    var i := Ret(if v.Some? then Some(GenExpr(v.value, g).1) else None);
    EmitStraight(g1, i);
    assert Get(Emit(g1, i).code, g1.insert) == Get(g1.code, g1.insert) + [i];
    StraightFlows(g, GenReturn(v, g), live, promised);
  }

  lemma FlowsOn(g: Gen, live: seq<bool>, promised: set<Block>, g1: Gen, live1: seq<bool>, e: Ending, ok: bool, g2: Gen,
      live2: seq<bool>, e': Ending, ok': bool)
    requires Flows(g, live, promised, g1, live1, e, ok) && Flows(g1, live1, promised, g2, live2, e', ok')
    ensures Flows(g, live, promised, g2, live2, e', ok && ok')
  {
  }

  lemma {:induction false} StmtsFlow(ts: seq<Stmt>, g: Gen, live: seq<bool>, promised: set<Block>)
      returns (live': seq<bool>)
    requires Enters(g, live, promised)
    ensures Flows(g, live, promised, GenStmts(ts, g), live', AfterAll(ts, Alive(live, g.insert)),
      MeetsAll(ts, Alive(live, g.insert)))
    decreases ts, 0
  {
    live' := live;
    if ts != [] {
      var l, g1 := Alive(live, g.insert), GenStmt(ts[0], g);
      var live1 := StmtFlow(ts[0], g, live, promised);
      live' := live1;
      if InsertOpen(g1) {
        live' := StmtsFlow(ts[1..], g1, live1, promised);
        FlowsOn(g, live, promised, g1, live1, After(ts[0], l), Meets(ts[0], l), GenStmts(ts, g), live',
          AfterAll(ts, l), MeetsAll(ts[1..], After(ts[0], l).Live?));
      }
    }
  }

  lemma {:induction false} CompoundFlow(decls: seq<string>, body: seq<Stmt>, g: Gen, live: seq<bool>,
      promised: set<Block>)
    returns (live': seq<bool>)
    requires Enters(g, live, promised)
    ensures Flows(g, live, promised, GenCompound(decls, body, g), live', AfterAll(body, Alive(live, g.insert)),
      MeetsAll(body, Alive(live, g.insert)))
    decreases body, 1
  {
    var g0 := g.(scope := g.scope + [map[]]);
    EnterReady(g);
    DeclsDeclare(decls, g0);
    DeclsLeaveOpen(decls, g0);
    var g1 := GenDecls(decls, g0);
    SameFlow(g, g1, live, promised);
    live' := StmtsFlow(body, g1, live, promised);
    CompoundKeeps(decls, body, g);
    var g2 := GenStmts(body, g1);
    SameFlow(g2, GenCompound(decls, body, g), live', promised);
  }

  // ---- Selections and loops ----

  // The test of a condition keeps its promises to both targets.
  lemma TestFlow(g: Gen, v: Value, t: Block, f: Block, live: seq<bool>, owed: set<Block>, promised: set<Block>)
    requires Ready(g) && Flow(g, live, owed) && g.insert !in owed && t < |live| && f < |live|
    requires Alive(live, t) == Alive(live, f) == Alive(live, g.insert)
    requires promised == if Alive(live, g.insert) then owed - {f, t} else owed
    ensures
      var h := GenTest(g, v, t, f).(insert := t);
      Flow(h, live, promised) && (NoneIn(h, live) <==> NoneIn(g, live))
  {
    var h := GenTest(g, v, t, f).(insert := t);
    TestFrames(g, v, t, f);
    JumpFlow(g, h, live, owed, [f, t]);
    assert (set b | b in [f, t]) == {f, t};
  }

  function With(s: set<Block>, b: Block, st: bool): set<Block>
  {
    if st then s + {b} else s
  }

  // Three blocks, to which the promises are still to be kept.
  lemma ThreeFlow(g: Gen, live: seq<bool>, promised: set<Block>, x: bool, y: bool, z: bool)
    requires Flow(g, live, promised)
    ensures
      var n := |g.code|;
      var g' := NewBlock(NewBlock(NewBlock(g)));
      && Flow(g', live + [x, y, z], With(With(With(promised, n, x), n + 1, y), n + 2, z))
      && (NoneIn(g', live + [x, y, z]) <==> NoneIn(g, live))
  {
    var n := |g.code|;
    NewFlow(g, live, promised, x);
    NewFlow(NewBlock(g), live + [x], With(promised, n, x), y);
    NewFlow(NewBlock(NewBlock(g)), live + [x] + [y], With(With(promised, n, x), n + 1, y), z);
    assert live + [x] + [y] + [z] == live + [x, y, z];
  }

  lemma ThreeOwed(promised: set<Block>, n: Block, l: bool, hasElse: bool, cont: bool)
    requires (forall b :: b in promised ==> b < n) && (cont ==> l) && (l && !hasElse ==> cont)
    ensures
      var owed := With(With(With(promised, n, l), n + 1, l && hasElse), n + 2, cont);
      With(promised, n + 2, hasElse && cont) == if l then owed - {if hasElse then n + 1 else n + 2, n} else owed
  {
  }

  lemma ThreeTestFlow(g: Gen, v: Value, hasElse: bool, cont: bool, live: seq<bool>, promised: set<Block>, n: Block)
    requires Ready(g) && Flow(g, live, promised) && g.insert !in promised && n == |g.code|
    requires (cont ==> Alive(live, g.insert)) && (Alive(live, g.insert) && !hasElse ==> cont)
    ensures
      var l := Alive(live, g.insert);
      var h := GenTest(NewBlock(NewBlock(NewBlock(g))), v, n, if hasElse then n + 1 else n + 2).(insert := n);
      var live' := live + [l, l && hasElse, cont];
      Flow(h, live', With(promised, n + 2, hasElse && cont)) && (NoneIn(h, live') <==> NoneIn(g, live))
  {
    var l := Alive(live, g.insert);
    var live' := live + [l, l && hasElse, cont];
    ThreeFlow(g, live, promised, l, l && hasElse, cont);
    ThreeOwed(promised, n, l, hasElse, cont);
    AddsThree(g);
    assert Alive(live', g.insert) == l;
    var owed := With(With(With(promised, n, l), n + 1, l && hasElse), n + 2, cont);
    TestFlow(NewBlock(NewBlock(NewBlock(g))), v, n, if hasElse then n + 1 else n + 2, live', owed,
      With(promised, n + 2, hasElse && cont));
  }

  lemma IfTestFlow(c: Expr, hasElse: bool, cont: bool, g: Gen, h: Gen, live: seq<bool>, promised: set<Block>)
    requires Enters(g, live, promised) && (cont ==> Alive(live, g.insert)) &&
      (Alive(live, g.insert) && !hasElse ==> cont)
    requires h == GenIfTest(c, hasElse, g)
    ensures
      var l := Alive(live, g.insert);
      var live' := live + [l, l && hasElse, cont];
      Enters(h, live', With(promised, |g.code| + 2, hasElse && cont)) && (NoneIn(h, live') <==> NoneIn(g, live))
  {
    ExprStraight(c, g);
    var (g1, v) := GenExpr(c, g);
    SameFlow(g, g1, live, promised);
    IfTestKeeps(c, hasElse, g);
    IfTestIs(c, hasElse, g, g1, v, |g.code|);
    IfTestedFlow(g1, h, v, hasElse, cont, live, promised, |g.code|);
  }

  lemma IfTestedFlow(g1: Gen, h: Gen, v: Value, hasElse: bool, cont: bool, live: seq<bool>, promised: set<Block>,
      n: Block)
    requires Ready(g1) && Flow(g1, live, promised) && g1.insert !in promised && n == |g1.code|
    requires (cont ==> Alive(live, g1.insert)) && (Alive(live, g1.insert) && !hasElse ==> cont)
    requires h == GenTest(NewBlock(NewBlock(NewBlock(g1))), v, n, if hasElse then n + 1 else n + 2).(insert := n)
    requires Ready(h) && Get(h.code, h.insert) == []
    ensures
      var l := Alive(live, g1.insert);
      var live' := live + [l, l && hasElse, cont];
      Enters(h, live', With(promised, n + 2, hasElse && cont)) && (NoneIn(h, live') <==> NoneIn(g1, live))
  {
    ThreeTestFlow(g1, v, hasElse, cont, live, promised, n);
  }

  // A branch with the jump behind it.
  lemma {:induction false} BranchFlow(a: Stmt, h: Gen, live: seq<bool>, promised: set<Block>, c: Block)
      returns (live': seq<bool>)
    requires Enters(h, live, promised) && c < |live|
    requires After(a, Alive(live, h.insert)).Live? ==> Alive(live, c)
    ensures
      var g' := BrIfOpen(GenStmt(a, h), c);
      var e := After(a, Alive(live, h.insert));
      && live <= live' && Keeps(h, g') && Flow(g', live', if e.Live? then promised - {c} else promised)
      && (NoneIn(g', live') <==> NoneIn(h, live) && Meets(a, Alive(live, h.insert)) && !(e.Dead? && Alive(live, c)))
    decreases a, 2
  {
    live' := StmtFlow(a, h, live, promised);
    StmtKeeps(a, h);
    var g1 := GenStmt(a, h);
    BrIfOpenKeeps(h, g1, c);
    if InsertOpen(g1) {
      assert Alive(live', c) <==> Alive(live, c);
      JumpFlow(g1, EmitBr(g1, c), live', promised, [c]);
      assert (set b | b in [c]) == {c};
    }
  }

  lemma ReadyForBranches(t: Stmt, g: Gen, h: Gen, l: bool, live: seq<bool>, promised: set<Block>)
    requires t.If? && IfTested(g, h) && forall b {:trigger b in promised} :: b in promised ==> b < |live|
    requires
      var cont := ContLive(t.then_, t.else_, l);
      Enters(h, live + [l, l && t.else_.Some?, cont], With(promised, |live| + 2, t.else_.Some? && cont))
    ensures BranchesReady(t, h, l, live + [l, l && t.else_.Some?, ContLive(t.then_, t.else_, l)], promised)
  {
    assert h.insert == |live|;
  }

  lemma IfHeadFlow(t: Stmt, g: Gen, live: seq<bool>, promised: set<Block>)
    requires t.If? && Enters(g, live, promised)
    ensures
      var l, h := Alive(live, g.insert), GenIfTest(t.cond, t.else_.Some?, g);
      var live' := live + [l, l && t.else_.Some?, ContLive(t.then_, t.else_, l)];
      BranchesReady(t, h, l, live', promised) && (NoneIn(h, live') <==> NoneIn(g, live))
  {
    var l := Alive(live, g.insert);
    var h := GenIfTest(t.cond, t.else_.Some?, g);
    IfTestFlow(t.cond, t.else_.Some?, ContLive(t.then_, t.else_, l), g, h, live, promised);
    IfTestKeeps(t.cond, t.else_.Some?, g);
    ReadyForBranches(t, g, h, l, live, promised);
  }

  lemma {:induction false} IfFlow(c: Expr, a: Stmt, b: Option<Stmt>, g: Gen, live: seq<bool>, promised: set<Block>)
    returns (live': seq<bool>)
    requires Enters(g, live, promised)
    ensures Flows(g, live, promised, GenStmt(If(c, a, b), g), live', After(If(c, a, b), Alive(live, g.insert)),
      Meets(If(c, a, b), Alive(live, g.insert)))
    decreases If(c, a, b), 0, 2
  {
    var t, l, h := If(c, a, b), Alive(live, g.insert), GenIfTest(c, b.Some?, g);
    var live1 := live + [l, l && b.Some?, ContLive(a, b, l)];
    IfHeadFlow(t, g, live, promised);
    IfIs(c, a, b, g, h);
    live' := BranchesFlow(t, h, l, live1, promised);
    FlowsFrom(g, live, promised, h, live1, GenStmt(t, g), live', After(t, l), Meets(t, l));
  }

  lemma FlowsFrom(g: Gen, live: seq<bool>, promised: set<Block>, h: Gen, live1: seq<bool>, g': Gen, live': seq<bool>,
      e: Ending, ok: bool)
    requires live <= live1 && (NoneIn(h, live1) <==> NoneIn(g, live)) && Flows(h, live1, promised, g', live', e, ok)
    ensures Flows(g, live, promised, g', live', e, ok)
  {
  }

  // What the promises to what follows a selection have become.
  lemma Redeemed(promised: set<Block>, c: Block, a: Ending, b: Ending, cont: bool, hasElse: bool)
    requires c !in promised && (cont <==> a.Live? || b.Live?) && (a.Live? || b.Live? ==> cont)
    ensures
      var owed := With(promised, c, hasElse && cont);
      var kept := if a.Live? then owed - {c} else owed;
      if hasElse then promised == (if b.Live? then kept - {c} else kept) else promised == kept
  {
  }

  ghost predicate BranchesReady(t: Stmt, h: Gen, l: bool, live: seq<bool>, promised: set<Block>)
    requires t.If?
  {
    var fb, cb := h.insert + 1, h.insert + 2;
    && Enters(h, live, With(promised, cb, t.else_.Some? && ContLive(t.then_, t.else_, l))) && |live| == h.insert + 3
    && Get(h.code, fb) == [] && Get(h.code, cb) == [] && (forall b :: b in promised ==> b < h.insert)
    && (Alive(live, h.insert) <==> l) && (Alive(live, fb) <==> l && t.else_.Some?)
    && (Alive(live, cb) <==> ContLive(t.then_, t.else_, l))
  }

  lemma {:induction false} BranchesFlow(t: Stmt, h: Gen, l: bool, live: seq<bool>, promised: set<Block>)
    returns (live': seq<bool>)
    requires t.If? && BranchesReady(t, h, l, live, promised)
    ensures
      var cb := h.insert + 2;
      var g' := GenElse(t.else_, BrIfOpen(GenStmt(t.then_, h), cb), h.insert + 1, cb).(insert := cb);
      Flows(h, live, promised, g', live', After(t, l), Meets(t, l))
    decreases t, 0, 1
  {
    var fb, cb, cont := h.insert + 1, h.insert + 2, ContLive(t.then_, t.else_, l);
    var owed := With(promised, cb, t.else_.Some? && cont);
    EitherDead(t.then_, t.else_, l);
    Redeemed(promised, cb, After(t.then_, l), ElseAfter(t.else_, l), cont, t.else_.Some?);
    live' := BranchFlow(t.then_, h, live, owed, cb);
    var g1 := BrIfOpen(GenStmt(t.then_, h), cb);
    var kept := if After(t.then_, l).Live? then owed - {cb} else owed;
    if t.else_.Some? {
      live' := OtherFlow(t.else_.value, h, g1, l, live, live', kept);
      ContFlow(h, live, promised, GenElse(t.else_, g1, fb, cb), live', After(t, l), Meets(t, l));
    } else {
      SameFlow(g1, Erase(g1, fb), live', kept);
      ContFlow(h, live, promised, GenElse(t.else_, g1, fb, cb), live', After(t, l), Meets(t, l));
    }
  }

  // Generation moves behind the selection.
  lemma ContFlow(h: Gen, live: seq<bool>, promised: set<Block>, g: Gen, live': seq<bool>, e: Ending, ok: bool)
    requires live <= live' && h.insert + 2 < |live| && Flow(g, live', promised) && Get(g.code, h.insert + 2) == []
    requires ScopeBelow(g.scope, g.nextId) && h.insert + 2 !in promised
    requires !e.Closed? && (Alive(live, h.insert + 2) <==> e.Live?) && (NoneIn(g, live') <==> NoneIn(h, live) && ok)
    ensures Flows(h, live, promised, g.(insert := h.insert + 2), live', e, ok)
  {
    SameFlow(g, g.(insert := h.insert + 2), live', promised);
    assert Alive(live', h.insert + 2) <==> Alive(live, h.insert + 2);
  }

  lemma EitherDead(a: Stmt, b: Option<Stmt>, l: bool)
    ensures ContLive(a, b, l) <==> After(a, l).Live? || ElseAfter(b, l).Live?
  {
    AfterDead(a);
    if b.Some? {
      AfterDead(b.value);
    }
  }

  lemma {:induction false} OtherFlow(b: Stmt, h: Gen, g1: Gen, l: bool, live: seq<bool>, live1: seq<bool>,
      kept: set<Block>)
    returns (live': seq<bool>)
    requires h.insert + 2 < |h.code| && Keeps(h, g1) && Flow(g1, live1, kept) && h.insert + 1 !in kept &&
      h.insert + 2 < |live| && live <= live1
    requires Get(h.code, h.insert + 1) == [] && (Alive(live, h.insert + 1) <==> l) &&
      (After(b, l).Live? ==> Alive(live, h.insert + 2))
    ensures
      var cb := h.insert + 2;
      var g' := GenElse(Some(b), g1, h.insert + 1, cb);
      && live1 <= live' && Keeps(g1.(insert := h.insert + 1), g') &&
        Flow(g', live', if After(b, l).Live? then kept - {cb} else kept)
      && (NoneIn(g', live') <==> NoneIn(g1, live1) && Meets(b, l) && !(After(b, l).Dead? && Alive(live, cb)))
    decreases b, 3
  {
    var h1 := g1.(insert := h.insert + 1);
    SameFlow(g1, h1, live1, kept);
    assert Alive(live1, h.insert + 1) <==> l;
    live' := BranchFlow(b, h1, live1, kept, h.insert + 2);
  }

  lemma WhileStartFlow(g: Gen, live: seq<bool>, promised: set<Block>)
    requires Enters(g, live, promised)
    ensures
      var h, live' := GenWhileStart(g), live + [Alive(live, g.insert)];
      Enters(h, live', promised) && (NoneIn(h, live') <==> NoneIn(g, live)) && h.insert == |g.code|
  {
    var l, n := Alive(live, g.insert), |g.code|;
    var g1, live' := NewBlock(g), live + [Alive(live, g.insert)];
    NewFlow(g, live, promised, l);
    WhileStartKeeps(g);
    AddsOne(g);
    var owed := if l then promised + {n} else promised;
    assert InsertOpen(g1);
    JumpFlow(g1, EmitBr(g1, n), live', owed, [n]);
    assert (set b | b in [n]) == {n};
    assert Kept(g1, live', owed, [n]) == promised;
  }

  lemma TwoFlow(g: Gen, live: seq<bool>, promised: set<Block>, l: bool)
    requires Flow(g, live, promised)
    ensures
      var g' := NewBlock(NewBlock(g));
      && Flow(g', live + [l, l], With(With(promised, |g.code|, l), |g.code| + 1, l))
      && (NoneIn(g', live + [l, l]) <==> NoneIn(g, live))
  {
    NewFlow(g, live, promised, l);
    NewFlow(NewBlock(g), live + [l], With(promised, |g.code|, l), l);
    assert live + [l] + [l] == live + [l, l];
  }

  lemma TwoTestFlow(g: Gen, v: Value, live: seq<bool>, promised: set<Block>, n: Block)
    requires Ready(g) && Flow(g, live, promised) && g.insert !in promised && n == |g.code|
    ensures
      var l, h := Alive(live, g.insert), GenTest(NewBlock(NewBlock(g)), v, n, n + 1).(insert := n);
      Flow(h, live + [l, l], promised) && (NoneIn(h, live + [l, l]) <==> NoneIn(g, live))
  {
    var l := Alive(live, g.insert);
    TwoFlow(g, live, promised, l);
    TwoOwed(promised, n, l);
    AddsTwo(g);
    assert Alive(live + [l, l], g.insert) == l;
    TestFlow(NewBlock(NewBlock(g)), v, n, n + 1, live + [l, l], With(With(promised, n, l), n + 1, l), promised);
  }

  lemma WhileTestFlow(c: Expr, g: Gen, live: seq<bool>, promised: set<Block>)
    requires Enters(g, live, promised)
    ensures
      var l, h := Alive(live, g.insert), GenWhileTest(c, g);
      Enters(h, live + [l, l], promised) && (NoneIn(h, live + [l, l]) <==> NoneIn(g, live))
  {
    ExprStraight(c, g);
    var (g1, v) := GenExpr(c, g);
    SameFlow(g, g1, live, promised);
    TwoTestFlow(g1, v, live, promised, |g.code|);
    WhileTestIs(c, g, g1, v, |g.code|);
    WhileTestKeeps(c, g);
  }

  lemma TwoOwed(promised: set<Block>, n: Block, l: bool)
    requires forall b :: b in promised ==> b < n
    ensures var owed := With(With(promised, n, l), n + 1, l); promised == if l then owed - {n + 1, n} else owed
  {
  }

  lemma WhileHeadFlow(c: Expr, g: Gen, live: seq<bool>, promised: set<Block>)
    requires Enters(g, live, promised)
    ensures
      var l, h := Alive(live, g.insert), GenWhileTest(c, GenWhileStart(g));
      && Enters(h, live + [l, l, l], promised) && (NoneIn(h, live + [l, l, l]) <==> NoneIn(g, live))
      && h.insert == |g.code| + 1 == |live| + 1 && |h.code| == |live| + 3 && Get(h.code, h.insert + 1) == []
  {
    var l, g1 := Alive(live, g.insert), GenWhileStart(g);
    WhileStartFlow(g, live, promised);
    WhileStartKeeps(g);
    WhileTestFlow(c, g1, live + [l], promised);
    WhileTestKeeps(c, g1);
    assert live + [l] + [l, l] == live + [l, l, l];
  }

  // The body of a loop, the jump back to b, and then generation moves behind the loop.
  lemma {:induction false} BodyFlow(a: Stmt, h: Gen, live: seq<bool>, promised: set<Block>, b: Block)
    returns (live': seq<bool>)
    requires Enters(h, live, promised) && h.insert == b + 1 && |live| == b + 3 && Get(h.code, b + 2) == []
    requires b !in promised && b + 2 !in promised && Alive(live, b) == Alive(live, b + 1) == Alive(live, b + 2)
    ensures
      var l := Alive(live, b);
      Flows(h, live, promised, BrIfOpen(GenStmt(a, h), b).(insert := b + 2), live', Left(l),
        Meets(a, l) && (l ==> !After(a, l).Dead?))
    decreases a, 3
  {
    AfterDead(a);
    live' := BranchFlow(a, h, live, promised, b);
    assert promised - {b} == promised;
    var g1 := BrIfOpen(GenStmt(a, h), b);
    SameFlow(g1, g1.(insert := b + 2), live', promised);
    assert Alive(live', b + 2) <==> Alive(live, b + 2);
  }

  lemma {:induction false} WhileFlow(c: Expr, a: Stmt, g: Gen, live: seq<bool>, promised: set<Block>)
    returns (live': seq<bool>)
    requires Enters(g, live, promised)
    ensures Flows(g, live, promised, GenStmt(While(c, a), g), live', After(While(c, a), Alive(live, g.insert)),
      Meets(While(c, a), Alive(live, g.insert)))
    decreases While(c, a), 0
  {
    var t, l, h := While(c, a), Alive(live, g.insert), GenWhileTest(c, GenWhileStart(g));
    var live1 := live + [l, l, l];
    WhileHeadFlow(c, g, live, promised);
    live' := BodyFlow(a, h, live1, promised, |g.code|);
    WhileIs(c, a, g, h);
    FlowsFrom(g, live, promised, h, live1, GenStmt(t, g), live', After(t, l), Meets(t, l));
  }

  // ---- Functions ----

  lemma StartFlow(scope: Scopes)
    ensures Flow(Start(scope), [true], {}) && NoneIn(Start(scope), [true])
  {
    var g := Start(scope);
    assert g.succs == [[]] && g.code == [[]];
    assert Way(g.succs, [0], 0);
  }

  // The marks of a whole function.
  lemma FunctionFlow(f: Function, scope: Scopes) returns (live: seq<bool>)
    requires GlobalOnly(scope)
    ensures Flow(GenFunction(f, scope), live, {}) && (NoneIn(GenFunction(f, scope), live) <==> MeetsAll(f.body, true))
  {
    var g0 := Start(scope).(scope := scope + [map[]]);
    StartFlow(scope);
    StartReady(scope);
    ParamsDeclare(f.params, 0, g0);
    ParamsLeaveOpen(f.params, 0, g0);
    var g1 := GenParams(f.params, 0, g0);
    DeclsDeclare(f.decls, g1);
    DeclsLeaveOpen(f.decls, g1);
    var g2 := GenDecls(f.decls, g1);
    SameFlow(Start(scope), g2, [true], {});
    live := StmtsFlow(f.body, g2, [true], {});
    SameFlow(GenStmts(f.body, g2), GenFunction(f, scope), live, {});
  }

  lemma {:induction false} ReachIsReachable(g: Gen, p: seq<Block>, b: Block)
    requires Shape(g, {}) && 0 in g.order && Way(g.succs, p, b)
    ensures GraphOf(g).Reachable(b)
    decreases |p|
  {
    var c := GraphOf(g);
    if |p| == 1 {
      c.ReachesSelf(0);
    } else {
      var n := |p| - 1;
      var a := p[n - 1];
      assert Hop(g.succs, p, n - 1);
      forall i | 0 <= i < n - 1 ensures Hop(g.succs, p[..n], i) {
        assert Hop(g.succs, p, i);
      }
      ReachIsReachable(g, p[..n], a);
      EdgesInside(g, a, b);
      c.ReachableStep(a, b);
    }
  }

  lemma AliveIff(g: Gen, live: seq<bool>, b: Block)
    requires Shape(g, {}) && 0 in g.order && Flow(g, live, {})
    ensures GraphOf(g).Reachable(b) <==> Alive(live, b)
  {
    var c := GraphOf(g);
    if Alive(live, b) {
      var p :| Way(g.succs, p, b);
      ReachIsReachable(g, p, b);
    }
    if c.Reachable(b) {
      var s := set x | 0 <= x < |live| && live[x];
      var p :| c.PathBetween(p, c.entry, b);
      forall x, y | x in s && c.Edge(x, y) ensures y in s {
        assert Joins(g.succs, x, y);
      }
      c.ClosedContains(s, c.entry, p, b);
    }
  }

  // In a generated function the frontier walks all end if and only if, in the source, no branch and no body
  // ends where control cannot come, before a place where it can.
  lemma MergesReachableIff(f: Function, scope: Scopes)
    requires GlobalOnly(scope)
    ensures Shape(GenFunction(f, scope), {}) && GraphOf(GenFunction(f, scope)).Valid()
    ensures MergesReachable(GraphOf(GenFunction(f, scope))) <==> MeetsAll(f.body, true)
  {
    var g := GenFunction(f, scope);
    FunctionShape(f, scope);
    EntryKept(f, scope);
    GraphValid(g);
    var live := FunctionFlow(f, scope);
    MergesIff(g, live);
  }

  lemma MergesIff(g: Gen, live: seq<bool>)
    requires Shape(g, {}) && 0 in g.order && ListAt(g.preds, 0) == [] && Flow(g, live, {}) && GraphOf(g).Valid()
    ensures MergesReachable(GraphOf(g)) <==> NoneIn(g, live)
  {
    var c := GraphOf(g);
    forall b ensures c.Reachable(b) <==> Alive(live, b) {
      AliveIff(g, live, b);
    }
    if NoneIn(g, live) {
      forall x, p | x in c.blocks && c.Reachable(x) && |c.pred[x]| >= 2 && p in c.pred[x] ensures c.Reachable(p) {
        assert x in c.succ[p] && Joins(g.succs, p, x);
      }
    }
    if MergesReachable(c) {
      forall a: Block, b: Block | Joins(g.succs, a, b) && Alive(live, b) ensures Alive(live, a) {
        EdgesInside(g, a, b);
        OtherPredecessor(c, a, b);
      }
    }
  }

  // A reachable block with a predecessor that is not reachable has two predecessors.
  lemma OtherPredecessor(c: Cfg, a: Block, b: Block)
    requires c.Valid() && c.pred[c.entry] == [] && b in c.blocks && a in c.pred[b] && c.Reachable(b)
    ensures c.Reachable(a) || |c.pred[b]| >= 2
  {
    var p :| c.PathBetween(p, c.entry, b);
    if |p| > 1 {
      var q := c.PathLast(p, c.entry, b);
      assert c.Reachable(q);
      assert b in c.succ[q] && q in c.pred[b];
      var i :| 0 <= i < |c.pred[b]| && c.pred[b][i] == a;
      var j :| 0 <= j < |c.pred[b]| && c.pred[b][j] == q;
    }
  }

  // Not every function meets the condition: a selection with an else, whose branches both return, as the
  // only statement of a branch of another selection.
  lemma NestedReturns() returns (f: Function)
    ensures GraphOf(GenFunction(f, [])).Valid() && !MergesReachable(GraphOf(GenFunction(f, []))) &&
      !MeetsAll(f.body, true)
  {
    var inner := If(Num(1), Return(None), Some(Return(None)));
    var outer := If(Num(1), inner, None);
    f := Function("f", [], [], [outer], true);
    assert After(inner, true) == Dead && ContLive(inner, None, true);
    assert !Meets(outer, true);
    MergesReachableIff(f, []);
  }
}
