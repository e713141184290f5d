// Generated functions are well formed: one terminator per block, and edges that mirror the branches.
module BlockShape {
  import opened Graph
  import opened Cminus
  import opened Machine
  import opened Generation
  import opened Framing
  import opened StmtMeaning
  import opened FunctionMeaning

  // The blocks a terminator may jump to, in the order they are recorded as successors.
  function Targets(i: Instr): seq<Block>
  {
    match i
    case Br(b) => [b]
    case CondBr(_, t, f) => [f, t]
    case _ => []
  }

  function ListAt(lists: seq<seq<Block>>, b: Block): seq<Block>
  {
    if b < |lists| then lists[b] else []
  }

  ghost predicate NoneEnds(s: seq<Instr>, n: nat)
    requires n <= |s|
  {
    forall k {:trigger s[k]} :: 0 <= k < n ==> !s[k].Terminator()
  }

  // The block ends in its only terminator, and its successors are that terminator's targets.
  ghost predicate Closed(g: Gen, b: Block)
  {
    var s := Get(g.code, b);
    s != [] && s[|s| - 1].Terminator() && NoneEnds(s, |s| - 1) && ListAt(g.succs, b) == Targets(s[|s| - 1])
  }

  // The block has no terminator and no successors yet.
  ghost predicate Unfinished(g: Gen, b: Block)
  {
    NoneEnds(Get(g.code, b), |Get(g.code, b)|) && ListAt(g.succs, b) == []
  }

  // A block taken out of the function is empty and has no edges.
  ghost predicate Gone(g: Gen, b: Block)
  {
    Get(g.code, b) == [] && ListAt(g.succs, b) == [] && ListAt(g.preds, b) == []
  }

  ghost predicate ShapeAt(g: Gen, open: set<Block>, b: Block)
  {
    if b !in g.order then Gone(g, b) else if b in open then Unfinished(g, b) else Closed(g, b)
  }

  // b is recorded as a predecessor of c as often as c is recorded as a successor of b.
  ghost predicate Mirrored(g: Gen, b: Block, c: Block)
  {
    multiset(ListAt(g.succs, b))[c] == multiset(ListAt(g.preds, c))[b]
  }

  // The blocks of the function are listed in the order they were created in, the entry first.
  ghost predicate Ascending(order: seq<Block>)
  {
    forall i, j :: 0 <= i < j < |order| ==> order[i] < order[j]
  }

  ghost predicate Listed(g: Gen)
  {
    && |g.preds| == |g.code| && |g.succs| == |g.code|
    && (forall b {:trigger b in g.order} :: b in g.order ==> b < |g.code|)
    && Ascending(g.order)
  }

  // The blocks in open are unfinished, all others are closed; edges are recorded on both sides.
  ghost predicate Shape(g: Gen, open: set<Block>)
  {
    && Listed(g) && (forall b {:trigger b in open} :: b in open ==> b in g.order)
    && (forall b {:trigger ShapeAt(g, open, b)} :: ShapeAt(g, open, b))
    && (forall b, c {:trigger Mirrored(g, b, c)} :: Mirrored(g, b, c))
  }

  lemma {:induction false} MoveShape(g: Gen, open: set<Block>, b: Block)
    requires Shape(g, open)
    ensures Shape(g.(insert := b), open)
  {
    var g' := g.(insert := b);
    forall x ensures ShapeAt(g', open, x) {
      assert ShapeAt(g, open, x);
    }
    forall x, y ensures Mirrored(g', x, y) {
      assert Mirrored(g, x, y);
    }
  }

  // Another scope or instruction number changes nothing.
  lemma {:induction false} RenumberShape(g: Gen, open: set<Block>, scope: Scopes, n: nat)
    requires Shape(g, open)
    ensures Shape(g.(scope := scope, nextId := n), open)
  {
    var g' := g.(scope := scope, nextId := n);
    forall x ensures ShapeAt(g', open, x) {
      assert ShapeAt(g, open, x);
    }
    forall x, y ensures Mirrored(g', x, y) {
      assert Mirrored(g, x, y);
    }
  }

  lemma {:induction false} EmitShape(g: Gen, open: set<Block>, i: Instr)
    requires Shape(g, open) && g.insert in open && !i.Terminator()
    ensures Shape(Emit(g, i), open) && Shape(EmitId(g, i), open)
  {
    var g' := Emit(g, i);
    forall x ensures ShapeAt(g', open, x) {
      assert ShapeAt(g, open, x);
    }
    forall x, y ensures Mirrored(g', x, y) {
      assert Mirrored(g, x, y);
    }
    RenumberShape(g', open, g'.scope, g.nextId + 1);
  }

  lemma {:induction false} NewBlockShape(g: Gen, open: set<Block>)
    requires Shape(g, open)
    ensures Shape(NewBlock(g), open + {|g.code|}) && |g.code| in NewBlock(g).order && |g.code| !in open
  {
    var g' := NewBlock(g);
    var n: Block := |g.code|;
    assert |g.code| in g'.order by {
      assert g'.order[|g.order|] == |g.code|;
    }
    forall x ensures x in g'.order <==> x in g.order || x == n {
    }
    forall i | 0 <= i < |g.order| ensures g.order[i] < n {
      assert g.order[i] in g.order;
    }
    forall x ensures ShapeAt(g', open + {|g.code|}, x) {
      assert ShapeAt(g, open, x);
    }
    forall x, y ensures Mirrored(g', x, y) {
      assert Mirrored(g, x, y);
    }
  }

  lemma {:induction false} RetShape(g: Gen, open: set<Block>, v: Option<Value>)
    requires Shape(g, open) && g.insert in open
    ensures Shape(Emit(g, Ret(v)), open - {g.insert})
  {
    var g' := Emit(g, Ret(v));
    forall x ensures ShapeAt(g', open - {g.insert}, x) {
      assert ShapeAt(g, open, x);
    }
    forall x, y ensures Mirrored(g', x, y) {
      assert Mirrored(g, x, y);
    }
  }

  lemma {:induction false} BrShape(g: Gen, open: set<Block>, b: Block)
    requires Shape(g, open) && g.insert in open && b in g.order
    ensures Shape(EmitBr(g, b), open - {g.insert})
  {
    var g' := EmitBr(g, b);
    forall x ensures ShapeAt(g', open - {g.insert}, x) {
      assert ShapeAt(g, open, x);
    }
    forall x, y ensures Mirrored(g', x, y) {
      assert Mirrored(g, x, y);
      assert ShapeAt(g, open, g.insert);
    }
  }

  // What a conditional branch adds to the lists of each block.
  lemma {:induction false} CondBrLists(g: Gen, v: Value, t: Block, f: Block, x: Block)
    requires |g.preds| == |g.succs| && g.insert < |g.succs| && t < |g.preds| && f < |g.preds| && t != f
    ensures ListAt(EmitCondBr(g, v, t, f).preds, x) ==
      if x == t || x == f then ListAt(g.preds, x) + [g.insert] else ListAt(g.preds, x)
    ensures ListAt(EmitCondBr(g, v, t, f).succs, x) ==
      if x == g.insert then ListAt(g.succs, x) + [f, t] else ListAt(g.succs, x)
  {
  }

  lemma {:induction false} CondBrMirrored(g: Gen, g': Gen, t: Block, f: Block, x: Block, y: Block)
    requires Mirrored(g, x, y) && t != f
    requires ListAt(g'.preds, y) == if y == t || y == f then ListAt(g.preds, y) + [g.insert] else ListAt(g.preds, y)
    requires ListAt(g'.succs, x) == if x == g.insert then ListAt(g.succs, x) + [f, t] else ListAt(g.succs, x)
    ensures Mirrored(g', x, y)
  {
    assert multiset([f, t])[y] == if y == t || y == f then 1 else 0;
    assert multiset([g.insert])[x] == if x == g.insert then 1 else 0;
  }

  lemma {:induction false} CondBrShape(g: Gen, open: set<Block>, v: Value, t: Block, f: Block)
    requires Shape(g, open) && g.insert in open && t in g.order && f in g.order && t != f
    ensures Shape(EmitCondBr(g, v, t, f), open - {g.insert})
  {
    var g' := EmitCondBr(g, v, t, f);
    assert ShapeAt(g, open, g.insert);
    forall x ensures ShapeAt(g', open - {g.insert}, x) {
      CondBrLists(g, v, t, f, x);
      assert ShapeAt(g, open, x);
    }
    forall x, y ensures Mirrored(g', x, y) {
      CondBrLists(g, v, t, f, x);
      CondBrLists(g, v, t, f, y);
      assert Mirrored(g, x, y);
      CondBrMirrored(g, g', t, f, x, y);
    }
  }

  lemma {:induction false} RemoveIff(order: seq<Block>, b: Block)
    requires Ascending(order)
    ensures forall x :: x in Remove(order, b) <==> x in order && x != b
    ensures Ascending(Remove(order, b))
  {
    if order != [] {
      var init, last := order[..|order| - 1], order[|order| - 1];
      assert order == init + [last];
      RemoveIff(init, b);
      var kept := Remove(init, b);
      forall i | 0 <= i < |kept| ensures kept[i] < last {
        assert kept[i] in kept;
        var j :| 0 <= j < |init| && init[j] == kept[i];
        assert order[j] < order[|order| - 1];
      }
    }
  }

  // A block that nothing jumps to can be taken out while it is empty.
  lemma {:induction false} EraseShape(g: Gen, open: set<Block>, b: Block)
    requires Shape(g, open) && b in open && Get(g.code, b) == [] && ListAt(g.preds, b) == []
    ensures Shape(Erase(g, b), open - {b}) && forall x :: x in Erase(g, b).order <==> x in g.order && x != b
  {
    var g' := Erase(g, b);
    RemoveIff(g.order, b);
    forall x ensures ShapeAt(g', open - {b}, x) {
      assert ShapeAt(g, open, x);
    }
    forall x, y ensures Mirrored(g', x, y) {
      assert Mirrored(g, x, y);
    }
  }

  // ---- Whole constructs ----

  lemma {:induction false} ExprShape(e: Expr, g: Gen, open: set<Block>)
    requires Ready(g) && Shape(g, open) && g.insert in open
    ensures Shape(GenExpr(e, g).0, open)
    decreases e
  {
    match e
    case Num(n) =>
    case Var(x) => EmitShape(g, open, Load(g.nextId, VariableOf(g.scope, x)));
    case Assign(x, e1) =>
      ExprShape(e1, g, open);
      ExprStraight(e1, g);
      var (g1, v) := GenExpr(e1, g);
      EmitShape(g1, open, Instr.Store(v, VariableOf(g1.scope, x)));
    case Arith(op, l, r) =>
      PairShape(l, r, g, open, e);
      var (g1, a) := GenExpr(l, g);
      var (g2, b) := GenExpr(r, g1);
      EmitShape(g2, open, IArith(g2.nextId, op, a, b));
    case Compare(op, l, r) =>
      PairShape(l, r, g, open, e);
      var (g1, a) := GenExpr(l, g);
      var (g2, b) := GenExpr(r, g1);
      var i := ICmp(g2.nextId, op, a, b);
      EmitShape(g2, open, i);
      var g3 := EmitId(g2, i);
      EmitShape(g3, open, Zext(g3.nextId, Reg(g2.nextId)));
    case Call(f, args) =>
      AllShape(args, g, open);
      AllStraight(args, g);
      var (g1, vs) := GenAll(args, g);
      EmitShape(g1, open, CallTo(g1.nextId, FunctionOf(g1.scope, f), vs));
  }

  lemma {:induction false} PairShape(l: Expr, r: Expr, g: Gen, open: set<Block>, e: Expr)
    requires Ready(g) && Shape(g, open) && g.insert in open && l < e && r < e
    ensures Shape(GenExpr(r, GenExpr(l, g).0).0, open) && GenExpr(r, GenExpr(l, g).0).0.insert == g.insert
    decreases e, 0
  {
    ExprShape(l, g, open);
    ExprStraight(l, g);
    ExprShape(r, GenExpr(l, g).0, open);
    ExprStraight(r, GenExpr(l, g).0);
  }

  lemma {:induction false} AllShape(es: seq<Expr>, g: Gen, open: set<Block>)
    requires Ready(g) && Shape(g, open) && g.insert in open
    ensures Shape(GenAll(es, g).0, open)
    decreases es
  {
    if es != [] {
      ExprShape(es[0], g, open);
      ExprStraight(es[0], g);
      AllShape(es[1..], GenExpr(es[0], g).0, open);
    }
  }

  // No edge to a block that existed before has been added.
  ghost predicate PredsKept(g: Gen, g': Gen)
  {
    |g.code| <= |g'.code| && forall b: Block {:trigger ListAt(g'.preds, b)} :: b < |g.code| ==>
      ListAt(g'.preds, b) == ListAt(g.preds, b)
  }

  lemma {:induction false} PredsTrans(a: Gen, b: Gen, c: Gen)
    requires PredsKept(a, b) && PredsKept(b, c)
    ensures PredsKept(a, c)
  {
    forall x: Block | x < |a.code| ensures ListAt(c.preds, x) == ListAt(a.preds, x) {
      assert ListAt(b.preds, x) == ListAt(a.preds, x);
    }
  }

  ghost function OpenOf(g: Gen): set<Block>
  {
    if InsertOpen(g) then {g.insert} else {}
  }

  ghost predicate OrderKept(g: Gen, g': Gen)
  {
    forall b {:trigger b in g'.order} {:trigger b in g.order} :: b in g.order ==> b in g'.order
  }

  // A generated construct leaves the open blocks it was given open, closes the one it was generated
  // in, and leaves at most the one that generation has moved to.
  ghost predicate Shapes(g: Gen, open: set<Block>, g': Gen)
  {
    && Shape(g', open + OpenOf(g')) && PredsKept(g, g') && g'.insert in g'.order && g'.insert !in open
    && OrderKept(g, g')
  }

  lemma {:induction false} ShapesTrans(a: Gen, open: set<Block>, b: Gen, c: Gen)
    requires Shapes(a, open, b) && Shapes(b, open, c)
    ensures Shapes(a, open, c)
  {
    PredsTrans(a, b, c);
  }

  lemma {:induction false} UnfinishedOpen(g: Gen, open: set<Block>, b: Block)
    requires Shape(g, open) && b in open
    ensures Open(g.code, b)
  {
    assert ShapeAt(g, open, b);
  }

  lemma {:induction false} TestShape(g: Gen, open: set<Block>, v: Value, t: Block, f: Block)
    requires Shape(g, open) && g.insert in open && t in g.order && f in g.order && t != f && Ready(g)
    ensures Shape(GenTest(g, v, t, f), open - {g.insert}) && GenTest(g, v, t, f).order == g.order
    ensures forall b {:trigger ListAt(GenTest(g, v, t, f).preds, b)} :: b != t && b != f ==>
      ListAt(GenTest(g, v, t, f).preds, b) == ListAt(g.preds, b)
  {
    var i := ICmp(g.nextId, Neq, v, Const(0));
    EmitShape(g, open, i);
    CondBrShape(EmitId(g, i), open, Reg(g.nextId), t, f);
  }

  // New blocks are open, and nothing jumps to them.
  lemma {:induction false} NewShape(g: Gen, open: set<Block>)
    requires Shape(g, open)
    ensures
      var g' := NewBlock(g);
      && Shape(g', open + {|g.code|}) && |g.code| in g'.order && ListAt(g'.preds, |g.code|) == [] && PredsKept(g, g')
      && forall b {:trigger b in g.order} :: b in g.order ==> b in g'.order
  {
    NewBlockShape(g, open);
  }

  lemma {:induction false} TwoShape(g: Gen, open: set<Block>)
    requires Shape(g, open)
    ensures
      var g' := NewBlock(NewBlock(g));
      var n := |g.code|;
      && Shape(g', open + {n, n + 1}) && n in g'.order && n + 1 in g'.order && PredsKept(g, g')
      && ListAt(g'.preds, n) == [] && ListAt(g'.preds, n + 1) == []
      && forall b {:trigger b in g.order} :: b in g.order ==> b in g'.order
  {
    var g1 := NewBlock(g);
    NewShape(g, open);
    NewShape(g1, open + {|g.code|});
    PredsTrans(g, g1, NewBlock(g1));
    assert open + {|g.code|} + {|g.code| + 1} == open + {|g.code|, |g.code| + 1};
    assert |g.code| in g1.order;
  }

  lemma {:induction false} ThreeShape(g: Gen, open: set<Block>)
    requires Shape(g, open)
    ensures
      var g' := NewBlock(NewBlock(NewBlock(g)));
      var n := |g.code|;
      && Shape(g', open + {n, n + 1, n + 2}) && n in g'.order && n + 1 in g'.order && n + 2 in g'.order &&
        PredsKept(g, g')
      && ListAt(g'.preds, n) == [] && ListAt(g'.preds, n + 1) == [] && ListAt(g'.preds, n + 2) == []
      && forall b {:trigger b in g.order} :: b in g.order ==> b in g'.order
  {
    var g2 := NewBlock(NewBlock(g));
    var n := |g.code|;
    TwoShape(g, open);
    NewShape(g2, open + {n, n + 1});
    PredsTrans(g, g2, NewBlock(g2));
    assert open + {n, n + 1} + {n + 2} == open + {n, n + 1, n + 2};
    assert n in g2.order && n + 1 in g2.order;
  }

  // A test closes its block and moves to the first of the new ones.
  lemma {:induction false} CondShape(g1: Gen, g2: Gen, open: set<Block>, news: set<Block>, v: Value, t: Block, f: Block)
    requires Shape(g2, open + {g2.insert} + news) && g2.insert !in open && g2.insert !in news && Ready(g2)
    requires t in news && f in news && t != f && t >= |g1.code| && f >= |g1.code| && PredsKept(g1, g2)
    ensures
      var h := GenTest(g2, v, t, f).(insert := t);
      && Shape(h, open + news) && PredsKept(g1, h) && h.order == g2.order
      && forall b {:trigger ListAt(h.preds, b)} :: b != t && b != f ==> ListAt(h.preds, b) == ListAt(g2.preds, b)
  {
    assert t in g2.order && f in g2.order;
    TestShape(g2, open + {g2.insert} + news, v, t, f);
    var g3 := GenTest(g2, v, t, f);
    assert open + {g2.insert} + news - {g2.insert} == open + news;
    TestFrames(g2, v, t, f);
    forall x: Block | x < |g1.code| ensures ListAt(g3.preds, x) == ListAt(g1.preds, x) {
      assert ListAt(g2.preds, x) == ListAt(g1.preds, x);
    }
    MoveShape(g3, open + news, t);
  }

  // Three new blocks after an expression, nothing leading to them yet.
  ghost predicate ThreeReady(g: Gen, g1: Gen, g2: Gen, open: set<Block>, n: Block)
  {
    && Straight(g, g1) && n == |g1.code| && PredsKept(g1, g2) && Ready(g) && Ready(g2) && g2.insert == g.insert
    && Shape(g2, open + {g2.insert} + {n, n + 1, n + 2}) && g.insert !in open && ListAt(g2.preds, n + 1) == []
  }

  lemma {:induction false} ThreeAfterExpr(c: Expr, g: Gen, open: set<Block>)
    requires Ready(g) && Shape(g, open + {g.insert}) && g.insert !in open
    ensures ThreeReady(g, GenExpr(c, g).0, NewBlock(NewBlock(NewBlock(GenExpr(c, g).0))), open, |g.code|)
  {
    ExprShape(c, g, open + {g.insert});
    ExprStraight(c, g);
    var g1 := GenExpr(c, g).0;
    ThreeShape(g1, open + {g.insert});
    AddsThree(g1);
  }

  lemma {:induction false} IfTestIs(c: Expr, hasElse: bool, g: Gen, g1: Gen, v: Value, n: Block)
    requires (g1, v) == GenExpr(c, g) && n == |g1.code|
    ensures GenIfTest(c, hasElse, g) ==
      GenTest(NewBlock(NewBlock(NewBlock(g1))), v, n, if hasElse then n + 1 else n + 2).(insert := n)
  {
  }

  ghost predicate IfTestShaped(g: Gen, h: Gen, open: set<Block>, n: Block, hasElse: bool)
  {
    h.insert == n && Shape(h, open + {n, n + 1, n + 2}) && PredsKept(g, h) &&
      (!hasElse ==> ListAt(h.preds, n + 1) == [])
  }

  // After the test of an if its three blocks are open, and the unused one has no predecessor.
  lemma {:induction false} IfTestShape(c: Expr, hasElse: bool, g: Gen, open: set<Block>)
    requires Ready(g) && Shape(g, open + {g.insert}) && g.insert !in open
    ensures IfTestShaped(g, GenIfTest(c, hasElse, g), open, |g.code|, hasElse)
  {
    ThreeAfterExpr(c, g, open);
    var (g1, v) := GenExpr(c, g);
    var n := |g.code|;
    ExprStraight(c, g);
    IfTestIs(c, hasElse, g, g1, v, n);
    IfTestShapeOf(g, g1, NewBlock(NewBlock(NewBlock(g1))), GenIfTest(c, hasElse, g), open, n, v, hasElse);
  }

  lemma {:induction false} IfTestOrder(c: Expr, hasElse: bool, g: Gen)
    requires Ready(g)
    ensures GenIfTest(c, hasElse, g).order == g.order + [|g.code|, |g.code| + 1, |g.code| + 2]
  {
    ExprStraight(c, g);
  }

  lemma {:induction false} IfTestShapeOf(g: Gen, g1: Gen, g2: Gen, h: Gen, open: set<Block>, n: Block, v: Value,
      hasElse: bool)
    requires ThreeReady(g, g1, g2, open, n) && h == GenTest(g2, v, n, if hasElse then n + 1 else n + 2).(insert := n)
    ensures IfTestShaped(g, h, open, n, hasElse)
  {
    CondShape(g1, g2, open, {n, n + 1, n + 2}, v, n, if hasElse then n + 1 else n + 2);
    PredsTrans(g, g1, h);
  }

  // Two new blocks after an expression, nothing leading to them yet.
  ghost predicate TwoReady(g: Gen, g1: Gen, g2: Gen, open: set<Block>, n: Block)
  {
    && Straight(g, g1) && n == |g1.code| == |g.code| && PredsKept(g1, g2) && Ready(g) && Ready(g2) &&
      g2.insert == g.insert
    && Shape(g2, open + {g2.insert} + {n, n + 1}) && g.insert !in open && n in g2.order && n + 1 in g2.order &&
      OrderKept(g, g2)
  }

  lemma {:induction false} TwoAfterExpr(c: Expr, g: Gen, open: set<Block>)
    requires Ready(g) && Shape(g, open + {g.insert}) && g.insert !in open
    ensures TwoReady(g, GenExpr(c, g).0, NewBlock(NewBlock(GenExpr(c, g).0)), open, |g.code|)
  {
    ExprShape(c, g, open + {g.insert});
    ExprStraight(c, g);
    var g1 := GenExpr(c, g).0;
    TwoShape(g1, open + {g.insert});
    AddsTwo(g1);
  }

  lemma {:induction false} WhileTestIs(c: Expr, g: Gen, g1: Gen, v: Value, n: Block)
    requires (g1, v) == GenExpr(c, g) && n == |g1.code|
    ensures GenWhileTest(c, g) == GenTest(NewBlock(NewBlock(g1)), v, n, n + 1).(insert := n)
  {
  }

  ghost predicate WhileTestShaped(g: Gen, h: Gen, open: set<Block>, n: Block)
  {
    h.insert == n && Shape(h, open + {n, n + 1}) && PredsKept(g, h) && n in h.order && n + 1 in h.order &&
      OrderKept(g, h)
  }

  // After the test of a loop the blocks of its body and behind it are open.
  lemma {:induction false} WhileTestShape(c: Expr, g: Gen, open: set<Block>)
    requires Ready(g) && Shape(g, open + {g.insert}) && g.insert !in open
    ensures WhileTestShaped(g, GenWhileTest(c, g), open, |g.code|)
  {
    TwoAfterExpr(c, g, open);
    ExprStraight(c, g);
    var (g1, v) := GenExpr(c, g);
    WhileTestIs(c, g, g1, v, |g.code|);
    WhileTestShapeOf(g, g1, NewBlock(NewBlock(g1)), GenWhileTest(c, g), open, |g.code|, v);
  }

  lemma {:induction false} WhileTestShapeOf(g: Gen, g1: Gen, g2: Gen, h: Gen, open: set<Block>, n: Block, v: Value)
    requires TwoReady(g, g1, g2, open, n) && h == GenTest(g2, v, n, n + 1).(insert := n)
    ensures WhileTestShaped(g, h, open, n)
  {
    CondShape(g1, g2, open, {n, n + 1}, v, n, n + 1);
    PredsTrans(g, g1, h);
  }

  // The condition of a loop starts in a block of its own.
  lemma {:induction false} WhileStartShape(g: Gen, open: set<Block>)
    requires Ready(g) && Shape(g, open + {g.insert}) && g.insert !in open
    ensures
      var h := GenWhileStart(g);
      && Shape(h, open + {h.insert}) && h.insert == |g.code| && PredsKept(g, h) && h.insert in h.order
      && forall b {:trigger b in g.order} :: b in g.order ==> b in h.order
  {
    var n := |g.code|;
    NewShape(g, open + {g.insert});
    AddsOne(g);
    var g1 := NewBlock(g);
    UnfinishedOpen(g1, open + {g.insert} + {n}, g.insert);
    BrShape(g1, open + {g.insert} + {n}, n);
    assert open + {g.insert} + {n} - {g.insert} == open + {n};
    var g2 := EmitBr(g1, n);
    BrFrames(g1, n);
    forall x: Block | x < |g.code| ensures ListAt(g2.preds, x) == ListAt(g.preds, x) {
      assert ListAt(g1.preds, x) == ListAt(g.preds, x);
    }
    MoveShape(g2, open + {n}, n);
  }

  // A jump to a block closes the open block, if there is one.
  lemma {:induction false} BrIfOpenShape(g: Gen, open: set<Block>, b: Block)
    requires Shape(g, open + OpenOf(g)) && g.insert !in open && b in g.order && Ready(g)
    ensures Shape(BrIfOpen(g, b), open) && BrIfOpen(g, b).order == g.order
    ensures forall x {:trigger ListAt(BrIfOpen(g, b).preds, x)} :: x != b ==>
      ListAt(BrIfOpen(g, b).preds, x) == ListAt(g.preds, x)
  {
    if InsertOpen(g) {
      BrShape(g, open + {g.insert}, b);
      assert open + {g.insert} - {g.insert} == open;
    } else {
      assert open + OpenOf(g) == open;
    }
  }

  lemma {:induction false} DeclsShape(xs: seq<string>, g: Gen, open: set<Block>)
    requires Ready(g) && g.scope != [] && Shape(g, open) && g.insert in open
    ensures Shape(GenDecls(xs, g), open)
    decreases xs
  {
    if xs != [] {
      EmitShape(g, open, Alloca(g.nextId));
      var g1 := EmitId(g, Alloca(g.nextId));
      RenumberShape(g1, open, GenDecl(xs[0], g).scope, g1.nextId);
      assert g1.(scope := GenDecl(xs[0], g).scope, nextId := g1.nextId) == GenDecl(xs[0], g);
      DeclDeclares(xs[0], g);
      DeclsShape(xs[1..], GenDecl(xs[0], g), open);
    }
  }

  // What a construct is generated in: an open block other than the ones to be left alone.
  ghost predicate Starts(g: Gen, open: set<Block>)
  {
    Ready(g) && Shape(g, open + {g.insert}) && g.insert !in open
  }

  lemma {:induction false} StartsOpen(g: Gen, open: set<Block>)
    requires Starts(g, open)
    ensures InsertOpen(g) && OpenOf(g) == {g.insert} && g.insert in g.order
  {
    UnfinishedOpen(g, open + {g.insert}, g.insert);
  }

  // After a construct that leaves its block open, the next one can follow.
  lemma {:induction false} ShapesStarts(g: Gen, open: set<Block>, g': Gen)
    requires Shapes(g, open, g') && Ready(g') && InsertOpen(g')
    ensures Starts(g', open)
  {
  }

  lemma {:induction false} StmtShape(t: Stmt, g: Gen, open: set<Block>)
    requires Starts(g, open)
    ensures Shapes(g, open, GenStmt(t, g))
    decreases t, 0
  {
    StartsOpen(g, open);
    match t
    case ExprStmt(None) =>
    case ExprStmt(Some(e)) =>
      ExprShape(e, g, open + {g.insert});
      ExprStraight(e, g);
      ExprLeavesOpen(e, g);
    case Compound(decls, body) => CompoundShape(decls, body, g, open);
    case If(c, a, b) => IfShape(c, a, b, g, open);
    case While(c, a) => WhileShape(c, a, g, open);
    case Return(v) => ReturnShape(v, g, open);
  }

  lemma {:induction false} ReturnShape(v: Option<Expr>, g: Gen, open: set<Block>)
    requires Starts(g, open)
    ensures Shapes(g, open, GenStmt(Return(v), g))
  {
    StartsOpen(g, open);
    assert open + {g.insert} - {g.insert} == open;
    if v.None? {
      RetShape(g, open + {g.insert}, None);
      assert open + OpenOf(Emit(g, Ret(None))) == open;
    } else {
      ExprShape(v.value, g, open + {g.insert});
      ExprStraight(v.value, g);
      var (g1, x) := GenExpr(v.value, g);
      RetShape(g1, open + {g.insert}, Some(x));
      assert open + OpenOf(Emit(g1, Ret(Some(x)))) == open;
    }
  }

  // A branch: its statement, and a jump to cb if it does not return.
  lemma {:induction false} BranchShape(a: Stmt, h: Gen, open: set<Block>, cb: Block)
    requires Starts(h, open) && cb in open
    ensures
      var g' := BrIfOpen(GenStmt(a, h), cb);
      && Shape(g', open) && OrderKept(h, g') && |h.code| <= |g'.code|
      && forall x: Block {:trigger ListAt(g'.preds, x)} :: x < |h.code| && x != cb ==>
        ListAt(g'.preds, x) == ListAt(h.preds, x)
    decreases a, 1
  {
    StmtShape(a, h, open);
    StmtKeeps(a, h);
    var g1 := GenStmt(a, h);
    assert cb in h.order by {
      assert cb in open + {h.insert};
    }
    BrIfOpenShape(g1, open, cb);
    BrFrames(g1, cb);
    forall x: Block | x < |h.code| && x != cb ensures ListAt(BrIfOpen(g1, cb).preds, x) == ListAt(h.preds, x) {
      assert ListAt(g1.preds, x) == ListAt(h.preds, x);
    }
  }

  lemma {:induction false} IfShape(c: Expr, a: Stmt, b: Option<Stmt>, g: Gen, open: set<Block>)
    requires Starts(g, open)
    ensures Shapes(g, open, GenStmt(If(c, a, b), g))
    decreases If(c, a, b), 0, 2
  {
    var h := GenIfTest(c, b.Some?, g);
    IfHeadShape(c, b.Some?, g, h, open);
    IfRestShape(If(c, a, b), g, h, open);
  }

  // The branches of an if, with h where the first one starts.
  lemma {:induction false} IfRestShape(t: Stmt, g: Gen, h: Gen, open: set<Block>)
    requires t.If? && h == GenIfTest(t.cond, t.else_.Some?, g) && BranchReady(g, h, open, t.else_.Some?)
    ensures Shapes(g, open, GenStmt(t, g))
    decreases t, 0, 1
  {
    IfIs(t.cond, t.then_, t.else_, g, h);
    BranchesShape(t, g, h, open, h.insert + 1, h.insert + 2);
  }

  lemma {:induction false} BranchesShape(t: Stmt, g: Gen, h: Gen, open: set<Block>, fb: Block, cb: Block)
    requires t.If? && BranchReady(g, h, open, t.else_.Some?) && fb == h.insert + 1 && cb == h.insert + 2
    ensures Shapes(g, open, GenElse(t.else_, BrIfOpen(GenStmt(t.then_, h), cb), fb, cb).(insert := cb))
    decreases t, 0, 0
  {
    BranchShape(t.then_, h, open + {fb, cb}, cb);
    BranchBlocks(t.then_, g, h, fb, cb);
    ElseShape(t.else_, g, h, BrIfOpen(GenStmt(t.then_, h), cb), open, fb, cb);
  }

  ghost predicate BranchReady(g: Gen, h: Gen, open: set<Block>, hasElse: bool)
  {
    var fb, cb := h.insert + 1, h.insert + 2;
    && h.insert == |g.code| && |h.code| == h.insert + 3 && Keeps(g, h) && PredsKept(g, h) && OrderKept(g, h)
    && Starts(h, open + {fb, cb}) && fb !in open && cb !in open && fb !in g.order && fb in h.order && cb in h.order
    && Get(h.code, fb) == [] && Get(h.code, cb) == [] && (!hasElse ==> ListAt(h.preds, fb) == [])
  }

  // The test of an if, ready for the first branch.
  lemma {:induction false} IfHeadShape(c: Expr, hasElse: bool, g: Gen, h: Gen, open: set<Block>)
    requires Starts(g, open) && h == GenIfTest(c, hasElse, g)
    ensures BranchReady(g, h, open, hasElse)
  {
    IfTestShape(c, hasElse, g, open);
    IfTestOrder(c, hasElse, g);
    IfTestKeeps(c, hasElse, g);
    ThreeOpen(g, h, open, |g.code|, hasElse);
  }

  lemma {:induction false} ThreeOpen(g: Gen, h: Gen, open: set<Block>, n: Block, hasElse: bool)
    requires Starts(g, open) && n == |g.code| && IfTestShaped(g, h, open, n, hasElse) && IfTested(g, h)
    requires h.order == g.order + [n, n + 1, n + 2]
    ensures BranchReady(g, h, open, hasElse)
  {
    NewNotOld(g, open);
    assert open + {n, n + 1, n + 2} == open + {n + 1, n + 2} + {h.insert};
    AppendedThree(g.order, h.order, n);
  }

  lemma {:induction false} AppendedThree(order: seq<Block>, order': seq<Block>, n: Block)
    requires order' == order + [n, n + 1, n + 2]
    ensures n + 1 in order' && n + 2 in order' && forall b {:trigger b in order'} {:trigger b in order} ::
      b in order ==> b in order'
  {
    assert order'[|order| + 1] == n + 1 && order'[|order| + 2] == n + 2;
  }

  lemma {:induction false} BranchBlocks(a: Stmt, g: Gen, h: Gen, fb: Block, cb: Block)
    requires Keeps(g, h) && |g.code| <= fb < |h.code| && |g.code| <= cb < |h.code| && fb != h.insert && cb != h.insert
    requires Get(h.code, fb) == [] && Get(h.code, cb) == []
    ensures
      var g1 := BrIfOpen(GenStmt(a, h), cb);
      Keeps(h, g1) && Get(g1.code, fb) == [] && Get(g1.code, cb) == []
  {
    StmtKeeps(a, h);
    BrIfOpenKeeps(h, GenStmt(a, h), cb);
    var g1 := BrIfOpen(GenStmt(a, h), cb);
    assert Get(g1.code, fb) == Get(h.code, fb) && Get(g1.code, cb) == Get(h.code, cb);
  }

  lemma {:induction false} NewNotOld(g: Gen, open: set<Block>)
    requires Starts(g, open)
    ensures forall b {:trigger b in open} :: b in open ==> b < |g.code|
  {
    forall b | b in open ensures b < |g.code| {
      assert b in open + {g.insert};
      assert b in g.order;
    }
  }

  lemma {:induction false} ElseShape(b: Option<Stmt>, g: Gen, h: Gen, g1: Gen, open: set<Block>, fb: Block, cb: Block)
    requires Keeps(g, h) && Keeps(h, g1) && PredsKept(g, h) && OrderKept(g, h) && OrderKept(h, g1) && fb in h.order &&
      cb in h.order
    requires Shape(g1, open + {fb, cb}) && fb !in open && cb !in open && fb != cb && |g.code| <= fb && |g.code| <= cb
    requires forall x: Block {:trigger ListAt(g1.preds, x)} :: x < |h.code| && x != cb ==>
      ListAt(g1.preds, x) == ListAt(h.preds, x)
    requires Get(g1.code, fb) == [] && Get(g1.code, cb) == [] && fb < |h.code| && cb < |h.code| && fb !in g.order &&
      (b.None? ==> ListAt(h.preds, fb) == [])
    ensures Shapes(g, open, GenElse(b, g1, fb, cb).(insert := cb))
    decreases b
  {
    var g2 := GenElse(b, g1, fb, cb);
    if b.Some? {
      var h1 := g1.(insert := fb);
      MoveShape(g1, open + {fb, cb}, fb);
      assert open + {fb, cb} == open + {cb} + {fb};
      assert ScopeBelow(h1.scope, h1.nextId) && fb < |h1.code|;
      BranchShape(b.value, h1, open + {cb}, cb);
      StmtKeeps(b.value, h1);
      BrIfOpenKeeps(h1, GenStmt(b.value, h1), cb);
      assert Get(g2.code, cb) == Get(h1.code, cb);
      forall x: Block | x < |g.code| ensures ListAt(g2.preds, x) == ListAt(g.preds, x) {
        assert ListAt(g2.preds, x) == ListAt(h1.preds, x) && ListAt(g1.preds, x) == ListAt(h.preds, x) &&
          ListAt(h.preds, x) == ListAt(g.preds, x);
      }
    } else {
      EraseShape(g1, open + {fb, cb}, fb);
      assert open + {fb, cb} - {fb} == open + {cb};
      forall x: Block | x < |g.code| ensures ListAt(g2.preds, x) == ListAt(g.preds, x) {
        assert ListAt(g1.preds, x) == ListAt(h.preds, x) && ListAt(h.preds, x) == ListAt(g.preds, x);
      }
    }
    forall x | x in g.order ensures x in g2.order {
      assert x in h.order && x in g1.order;
    }
    MoveShape(g2, open + {cb}, cb);
    assert OpenOf(g2.(insert := cb)) == {cb};
    assert cb in open + {cb};
  }

  lemma {:induction false} WhileShape(c: Expr, a: Stmt, g: Gen, open: set<Block>)
    requires Starts(g, open)
    ensures Shapes(g, open, GenStmt(While(c, a), g))
    decreases While(c, a), 0, 1
  {
    WhileHeadShape(c, g, open);
    WhileRestShape(While(c, a), g, GenWhileTest(c, GenWhileStart(g)), open);
  }

  // The body of a loop, with h where it starts.
  lemma {:induction false} WhileRestShape(t: Stmt, g: Gen, h: Gen, open: set<Block>)
    requires t.While? && h == GenWhileTest(t.cond, GenWhileStart(g)) && BodyReady(g, h, open)
    ensures Shapes(g, open, GenStmt(t, g))
    decreases t, 0, 0
  {
    WhileIs(t.cond, t.loop, g, h);
    WhileBodyShape(t.loop, g, h, open, |g.code|);
  }

  ghost predicate BodyReady(g: Gen, h: Gen, open: set<Block>)
  {
    var xb := |g.code|;
    && Ready(h) && xb < h.insert && h.insert + 1 < |h.code| && PredsKept(g, h) && OrderKept(g, h) && xb in h.order
    && Shape(h, open + {h.insert, h.insert + 1}) && Get(h.code, h.insert + 1) == []
    && forall b {:trigger b in open} :: b in open ==> b < xb
  }

  // The start and the test of a loop, ready for the body.
  lemma {:induction false} WhileHeadShape(c: Expr, g: Gen, open: set<Block>)
    requires Starts(g, open)
    ensures BodyReady(g, GenWhileTest(c, GenWhileStart(g)), open)
  {
    LoopStarts(g, open);
    WhileTestHead(c, g, GenWhileStart(g), open);
  }

  // The block of a loop's condition is open, and its own.
  ghost predicate LoopStarted(g: Gen, g1: Gen, open: set<Block>)
  {
    && Ready(g1) && Shape(g1, open + {g1.insert}) && g1.insert == |g.code| && PredsKept(g, g1)
    && g1.insert in g1.order && OrderKept(g, g1) && forall b {:trigger b in open} :: b in open ==> b < |g.code|
  }

  lemma {:induction false} LoopStarts(g: Gen, open: set<Block>)
    requires Starts(g, open)
    ensures LoopStarted(g, GenWhileStart(g), open)
  {
    WhileStartShape(g, open);
    WhileStartKeeps(g);
    NewNotOld(g, open);
  }

  lemma {:induction false} WhileTestHead(c: Expr, g: Gen, g1: Gen, open: set<Block>)
    requires LoopStarted(g, g1, open)
    ensures BodyReady(g, GenWhileTest(c, g1), open)
  {
    WhileTestShape(c, g1, open);
    WhileTestKeeps(c, g1);
    PredsTrans(g, g1, GenWhileTest(c, g1));
    forall x | x in g.order ensures x in GenWhileTest(c, g1).order {
      assert x in g1.order;
    }
  }

  lemma {:induction false} WhileBodyShape(a: Stmt, g: Gen, h: Gen, open: set<Block>, xb: Block)
    requires BodyReady(g, h, open) && xb == |g.code|
    ensures Shapes(g, open, BrIfOpen(GenStmt(a, h), xb).(insert := h.insert + 1))
    decreases a, 2
  {
    var cb := h.insert + 1;
    assert open + {h.insert, cb} == open + {cb} + {h.insert};
    StmtShape(a, h, open + {cb});
    StmtKeeps(a, h);
    var g2 := GenStmt(a, h);
    BrIfOpenShape(g2, open + {cb}, xb);
    BrIfOpenKeeps(h, g2, xb);
    var g3 := BrIfOpen(g2, xb);
    assert Get(g3.code, cb) == Get(h.code, cb);
    forall x: Block | x < |g.code| ensures ListAt(g3.preds, x) == ListAt(g.preds, x) {
      assert ListAt(g2.preds, x) == ListAt(h.preds, x) && ListAt(h.preds, x) == ListAt(g.preds, x);
    }
    MoveShape(g3, open + {cb}, cb);
    assert OpenOf(g3.(insert := cb)) == {cb};
    assert cb in open + {cb};
  }

  lemma {:induction false} StmtsShape(ts: seq<Stmt>, g: Gen, open: set<Block>)
    requires Starts(g, open)
    ensures Shapes(g, open, GenStmts(ts, g))
    decreases ts, 0
  {
    StartsOpen(g, open);
    if ts != [] {
      StmtShape(ts[0], g, open);
      StmtKeeps(ts[0], g);
      var g1 := GenStmt(ts[0], g);
      if InsertOpen(g1) {
        ShapesStarts(g, open, g1);
        StmtsShape(ts[1..], g1, open);
        ShapesTrans(g, open, g1, GenStmts(ts, g));
      }
    }
  }

  lemma {:induction false} CompoundShape(decls: seq<string>, body: seq<Stmt>, g: Gen, open: set<Block>)
    requires Starts(g, open)
    ensures Shapes(g, open, GenCompound(decls, body, g))
    decreases body, 1
  {
    var g0 := g.(scope := g.scope + [map[]]);
    EnterReady(g);
    RenumberShape(g, open + {g.insert}, g0.scope, g.nextId);
    assert g.(scope := g0.scope, nextId := g.nextId) == g0;
    DeclsShape(decls, g0, open + {g.insert});
    DeclsDeclare(decls, g0);
    var g1 := GenDecls(decls, g0);
    StmtsShape(body, g1, open);
    var g2 := GenStmts(body, g1);
    RenumberShape(g2, open + OpenOf(g2), g.scope, g2.nextId);
    assert g2.(scope := g.scope, nextId := g2.nextId) == GenCompound(decls, body, g);
    forall x: Block | x < |g.code| ensures ListAt(g2.preds, x) == ListAt(g.preds, x) {
      assert ListAt(g2.preds, x) == ListAt(g1.preds, x);
    }
  }

  // ---- Functions ----

  lemma {:induction false} StartShape(scope: Scopes)
    ensures Shape(Start(scope), {0}) && Start(scope).insert == 0
  {
    var g := Gen([], [], [], [], 0, 0, scope);
    forall x ensures ShapeAt(g, {}, x) {
    }
    forall x, y ensures Mirrored(g, x, y) {
    }
    NewBlockShape(g, {});
    assert {} + {|g.code|} == {0};
  }

  lemma {:induction false} ParamsShape(xs: seq<string>, i: nat, g: Gen, open: set<Block>)
    requires Ready(g) && g.scope != [] && Shape(g, open) && g.insert in open
    ensures Shape(GenParams(xs, i, g), open)
    decreases xs
  {
    if xs != [] {
      var g1 := EmitId(g, Alloca(g.nextId));
      EmitShape(g, open, Alloca(g.nextId));
      var j := Instr.Store(Param(i), Reg(g.nextId));
      EmitShape(g1, open, j);
      var g2 := Emit(g1, j);
      RenumberShape(g2, open, GenParam(xs[0], i, g).scope, g2.nextId);
      assert g2.(scope := GenParam(xs[0], i, g).scope, nextId := g2.nextId) == GenParam(xs[0], i, g);
      ParamDeclares(xs[0], i, g);
      ParamsShape(xs[1..], i + 1, GenParam(xs[0], i, g), open);
    }
  }

  // Where the statements of a function start.
  ghost function Prologue(f: Function, scope: Scopes): Gen
  {
    GenDecls(f.decls, GenParams(f.params, 0, Start(scope).(scope := scope + [map[]])))
  }

  lemma {:induction false} PrologueShape(f: Function, scope: Scopes)
    requires GlobalOnly(scope)
    ensures Starts(Prologue(f, scope), {})
  {
    var g := Start(scope);
    var g0 := g.(scope := scope + [map[]]);
    StartShape(scope);
    StartReady(scope);
    RenumberShape(g, {0}, g0.scope, g.nextId);
    assert g.(scope := g0.scope, nextId := g.nextId) == g0;
    ParamsShape(f.params, 0, g0, {0});
    ParamsDeclare(f.params, 0, g0);
    var g1 := GenParams(f.params, 0, g0);
    DeclsShape(f.decls, g1, {0});
    DeclsDeclare(f.decls, g1);
    assert {} + {Prologue(f, scope).insert} == {0};
  }

  // In a finished function every block ends in its only terminator, the edges recorded are those of
  // the terminators, on both sides, and the scopes are back to the global ones.
  lemma {:induction false} FunctionShape(f: Function, scope: Scopes)
    requires GlobalOnly(scope)
    ensures Shape(GenFunction(f, scope), {}) && GenFunction(f, scope).scope == scope
  {
    var g1 := Prologue(f, scope);
    PrologueShape(f, scope);
    StmtsShape(f.body, g1, {});
    StmtsKeep(f.body, g1);
    var g2 := GenStmts(f.body, g1);
    var v := if f.void then None else Some(Const(0));
    var g3 := if InsertOpen(g2) then Emit(g2, Ret(v)) else g2;
    if InsertOpen(g2) {
      RetShape(g2, {} + {g2.insert}, v);
      assert {} + {g2.insert} - {g2.insert} == {};
    } else {
      assert {} + OpenOf(g2) == {};
    }
    RenumberShape(g3, {}, scope, g3.nextId);
    assert g3.(scope := scope, nextId := g3.nextId) == GenFunction(f, scope);
  }

  // Every recorded edge joins two blocks of the function, and is a branch of the first.
  lemma {:induction false} EdgesInside(g: Gen, b: Block, c: Block)
    requires Shape(g, {}) && c in ListAt(g.succs, b)
    ensures b in g.order && c in g.order && b in ListAt(g.preds, c)
    ensures Get(g.code, b) != [] && c in Targets(Get(g.code, b)[|Get(g.code, b)| - 1])
  {
    assert ShapeAt(g, {}, b) && ShapeAt(g, {}, c) && Mirrored(g, b, c);
    assert c in multiset(ListAt(g.succs, b));
    assert b in multiset(ListAt(g.preds, c));
  }
}
