// What generating a construct leaves alone.
module Framing {
  import opened Graph
  import opened Cminus
  import opened Machine
  import opened Generation

  // Every block of c has only been appended to in d.
  ghost predicate Extends(c: Code, d: Code)
  {
    forall b {:trigger Get(d, b)} :: Get(c, b) <= Get(d, b)
  }

  lemma {:induction false} ExtendsTrans(a: Code, b: Code, c: Code)
    requires Extends(a, b) && Extends(b, c)
    ensures Extends(a, c)
  {
    forall x ensures Get(a, x) <= Get(c, x) {
      assert Get(a, x) <= Get(b, x) && Get(b, x) <= Get(c, x);
    }
  }

  ghost predicate ValueBelow(v: Value, n: nat)
  {
    v.Reg? ==> v.id < n
  }

  ghost predicate FrameBelow(f: map<string, Value>, n: nat)
  {
    forall x {:trigger f[x]} :: x in f ==> ValueBelow(f[x], n)
  }

  // The scopes hold only variables that have been made.
  ghost predicate ScopeBelow(scope: Scopes, n: nat)
  {
    forall i {:trigger scope[i]} :: 0 <= i < |scope| ==> FrameBelow(scope[i], n)
  }

  // The block that instructions go to exists, and so do the variables.
  ghost predicate Ready(g: Gen)
  {
    g.insert < |g.code| && ScopeBelow(g.scope, g.nextId)
  }

  // Only the block instructions go to and new blocks are written.
  ghost predicate Frames(g: Gen, g': Gen)
  {
    && |g.code| <= |g'.code| && g.nextId <= g'.nextId
    && (g'.insert == g.insert || |g.code| <= g'.insert)
    && Extends(g.code, g'.code)
    && forall b: Block {:trigger Get(g'.code, b)} :: b < |g.code| && b != g.insert ==> Get(g'.code, b) == Get(g.code, b)
  }

  lemma {:induction false} FramesTrans(a: Gen, b: Gen, c: Gen)
    requires Frames(a, b) && Frames(b, c)
    ensures Frames(a, c)
  {
    ExtendsTrans(a.code, b.code, c.code);
    forall x: Block | x < |a.code| && x != a.insert ensures Get(c.code, x) == Get(a.code, x) {
      assert Get(b.code, x) == Get(a.code, x);
    }
  }

  lemma {:induction false} ScopeBelowMore(scope: Scopes, n: nat, m: nat)
    requires ScopeBelow(scope, n) && n <= m
    ensures ScopeBelow(scope, m)
  {
    forall i | 0 <= i < |scope| ensures FrameBelow(scope[i], m) {
      assert FrameBelow(scope[i], n);
    }
  }

  // Expressions are generated in one block.
  ghost predicate Straight(g: Gen, g': Gen)
  {
    && Frames(g, g') && Ready(g')
    && g'.insert == g.insert && |g'.code| == |g.code| && g'.scope == g.scope
    && g'.order == g.order && g'.preds == g.preds && g'.succs == g.succs
  }

  lemma {:induction false} StraightTrans(a: Gen, b: Gen, c: Gen)
    requires Straight(a, b) && Straight(b, c)
    ensures Straight(a, c)
  {
    FramesTrans(a, b, c);
  }

  lemma {:induction false} EmitStraight(g: Gen, i: Instr)
    requires Ready(g)
    ensures Straight(g, Emit(g, i)) && Straight(g, EmitId(g, i))
  {
    ScopeBelowMore(g.scope, g.nextId, g.nextId + 1);
    forall b ensures Get(g.code, b) <= Get(Emit(g, i).code, b) {
    }
  }

  lemma {:induction false} ExprStraight(e: Expr, g: Gen)
    requires Ready(g)
    ensures Straight(g, GenExpr(e, g).0) && ValueBelow(GenExpr(e, g).1, GenExpr(e, g).0.nextId)
    decreases e
  {
    match e
    case Num(n) =>
    case Var(x) => EmitStraight(g, Load(g.nextId, VariableOf(g.scope, x)));
    case Assign(x, e1) =>
      ExprStraight(e1, g);
      var (g1, v) := GenExpr(e1, g);
      EmitStraight(g1, Instr.Store(v, VariableOf(g1.scope, x)));
      StraightTrans(g, g1, GenExpr(e, g).0);
    case Arith(op, l, r) =>
      ExprStraight(l, g);
      var (g1, a) := GenExpr(l, g);
      ExprStraight(r, g1);
      var (g2, b) := GenExpr(r, g1);
      StraightTrans(g, g1, g2);
      EmitStraight(g2, IArith(g2.nextId, op, a, b));
      StraightTrans(g, g2, GenExpr(e, g).0);
    case Compare(op, l, r) =>
      ExprStraight(l, g);
      var (g1, a) := GenExpr(l, g);
      ExprStraight(r, g1);
      var (g2, b) := GenExpr(r, g1);
      StraightTrans(g, g1, g2);
      EmitStraight(g2, ICmp(g2.nextId, op, a, b));
      var g3 := EmitId(g2, ICmp(g2.nextId, op, a, b));
      StraightTrans(g, g2, g3);
      EmitStraight(g3, Zext(g3.nextId, Reg(g2.nextId)));
      StraightTrans(g, g3, GenExpr(e, g).0);
    case Call(f, args) =>
      AllStraight(args, g);
      var (g1, vs) := GenAll(args, g);
      EmitStraight(g1, CallTo(g1.nextId, FunctionOf(g1.scope, f), vs));
      StraightTrans(g, g1, GenExpr(e, g).0);
  }

  ghost predicate ValuesBelow(vs: seq<Value>, n: nat)
  {
    forall i {:trigger vs[i]} :: 0 <= i < |vs| ==> ValueBelow(vs[i], n)
  }

  lemma {:induction false} AllStraight(es: seq<Expr>, g: Gen)
    requires Ready(g)
    ensures Straight(g, GenAll(es, g).0) && ValuesBelow(GenAll(es, g).1, GenAll(es, g).0.nextId)
    decreases es
  {
    if es != [] {
      ExprStraight(es[0], g);
      var (g1, v) := GenExpr(es[0], g);
      AllStraight(es[1..], g1);
      var (g2, vs) := GenAll(es[1..], g1);
      StraightTrans(g, g1, g2);
      assert GenAll(es, g) == (g2, [v] + vs);
    }
  }

  // ---- Blocks ----

  lemma {:induction false} BlockFrames(g: Gen)
    requires Ready(g)
    ensures Frames(g, NewBlock(g)) && Ready(NewBlock(g)) && Get(NewBlock(g).code, |g.code|) == []
  {
    assert Get(g.code, |g.code|) == [];
  }

  lemma {:induction false} BrFrames(g: Gen, b: Block)
    requires Ready(g)
    ensures Frames(g, EmitBr(g, b)) && Ready(EmitBr(g, b)) && EmitBr(g, b).scope == g.scope &&
      EmitBr(g, b).insert == g.insert
    ensures Frames(g, BrIfOpen(g, b)) && Ready(BrIfOpen(g, b)) && BrIfOpen(g, b).scope == g.scope &&
      BrIfOpen(g, b).insert == g.insert
    ensures |EmitBr(g, b).code| == |g.code|
  {
    EmitStraight(g, Br(b));
  }

  lemma {:induction false} TestFrames(g: Gen, v: Value, t: Block, f: Block)
    requires Ready(g)
    ensures Frames(g, GenTest(g, v, t, f)) && Ready(GenTest(g, v, t, f))
    ensures GenTest(g, v, t, f).scope == g.scope && GenTest(g, v, t, f).insert == g.insert &&
      |GenTest(g, v, t, f).code| == |g.code|
  {
    var i := ICmp(g.nextId, Neq, v, Const(0));
    EmitStraight(g, i);
    EmitStraight(EmitId(g, i), CondBr(Reg(g.nextId), t, f));
    FramesTrans(g, EmitId(g, i), Emit(EmitId(g, i), CondBr(Reg(g.nextId), t, f)));
  }

  // Appending somewhere else, to a block that did not exist in a.
  lemma {:induction false} MoveFrames(a: Gen, g: Gen, b: Block)
    requires Frames(a, g) && Ready(g) && |a.code| <= b < |g.code|
    ensures Frames(a, g.(insert := b)) && Ready(g.(insert := b))
  {
  }

  // ---- Declarations ----

  // Like Straight, but for the scopes.
  ghost predicate Declares(g: Gen, g': Gen)
  {
    && Frames(g, g') && Ready(g') && |g'.scope| == |g.scope|
    && g'.insert == g.insert && |g'.code| == |g.code|
    && g'.order == g.order && g'.preds == g.preds && g'.succs == g.succs
  }

  lemma {:induction false} PushBelow(scope: Scopes, x: string, v: Value, n: nat)
    requires scope != [] && ScopeBelow(scope, n) && ValueBelow(v, n)
    ensures ScopeBelow(Push(scope, x, v), n)
  {
    var top := scope[|scope| - 1];
    assert FrameBelow(top, n);
    forall i | 0 <= i < |scope| ensures FrameBelow(Push(scope, x, v)[i], n) {
      assert FrameBelow(scope[i], n);
    }
  }

  lemma {:induction false} DeclDeclares(x: string, g: Gen)
    requires Ready(g) && g.scope != []
    ensures Declares(g, GenDecl(x, g))
  {
    EmitStraight(g, Alloca(g.nextId));
    PushBelow(g.scope, x, Reg(g.nextId), g.nextId + 1);
  }

  lemma {:induction false} DeclaresTrans(a: Gen, b: Gen, c: Gen)
    requires Declares(a, b) && Declares(b, c)
    ensures Declares(a, c)
  {
    FramesTrans(a, b, c);
  }

  lemma {:induction false} DeclsDeclare(xs: seq<string>, g: Gen)
    requires Ready(g) && g.scope != []
    ensures Declares(g, GenDecls(xs, g))
    decreases xs
  {
    if xs != [] {
      DeclDeclares(xs[0], g);
      DeclsDeclare(xs[1..], GenDecl(xs[0], g));
      DeclaresTrans(g, GenDecl(xs[0], g), GenDecls(xs, g));
    } else {
      assert Extends(g.code, g.code);
    }
  }

  // Declarations change the innermost scope only.
  lemma {:induction false} DeclsInner(xs: seq<string>, g: Gen)
    requires g.scope != []
    ensures |GenDecls(xs, g).scope| == |g.scope| && GenDecls(xs, g).scope[..|g.scope| - 1] == g.scope[..|g.scope| - 1]
    decreases xs
  {
    if xs != [] {
      DeclsInner(xs[1..], GenDecl(xs[0], g));
    }
  }

  lemma {:induction false} ParamDeclares(x: string, i: nat, g: Gen)
    requires Ready(g) && g.scope != []
    ensures Declares(g, GenParam(x, i, g))
  {
    var g1 := EmitId(g, Alloca(g.nextId));
    EmitStraight(g, Alloca(g.nextId));
    EmitStraight(g1, Instr.Store(Param(i), Reg(g.nextId)));
    FramesTrans(g, g1, Emit(g1, Instr.Store(Param(i), Reg(g.nextId))));
    PushBelow(g.scope, x, Reg(g.nextId), g.nextId + 1);
  }

  lemma {:induction false} ParamsDeclare(xs: seq<string>, i: nat, g: Gen)
    requires Ready(g) && g.scope != []
    ensures Declares(g, GenParams(xs, i, g))
    decreases xs
  {
    if xs != [] {
      ParamDeclares(xs[0], i, g);
      ParamsDeclare(xs[1..], i + 1, GenParam(xs[0], i, g));
      DeclaresTrans(g, GenParam(xs[0], i, g), GenParams(xs, i, g));
    } else {
      assert Extends(g.code, g.code);
    }
  }

  // ---- Statements ----

  // Generating a statement keeps everything but the open block, and restores the scopes.
  ghost predicate Keeps(g: Gen, g': Gen)
  {
    Frames(g, g') && Ready(g') && g'.scope == g.scope
  }

  lemma {:induction false} KeepsTrans(a: Gen, b: Gen, c: Gen)
    requires Keeps(a, b) && Keeps(b, c)
    ensures Keeps(a, c)
  {
    FramesTrans(a, b, c);
  }

  ghost predicate Adds(g: Gen, g': Gen, n: nat)
  {
    && Keeps(g, g') && g'.insert == g.insert && |g'.code| == |g.code| + n && g'.nextId == g.nextId
    && forall b: Block {:trigger Get(g'.code, b)} :: Get(g'.code, b) == if b < |g.code| then Get(g.code, b) else []
  }

  lemma {:induction false} AddsOne(g: Gen)
    requires Ready(g)
    ensures Adds(g, NewBlock(g), 1)
  {
    BlockFrames(g);
  }

  lemma {:induction false} AddsTrans(a: Gen, b: Gen, c: Gen, n: nat, m: nat)
    requires Ready(a) && Adds(a, b, n) && Adds(b, c, m)
    ensures Adds(a, c, n + m)
  {
    KeepsTrans(a, b, c);
    forall x: Block ensures Get(c.code, x) == if x < |a.code| then Get(a.code, x) else [] {
      assert Get(b.code, x) == if x < |a.code| then Get(a.code, x) else [];
    }
  }

  lemma {:induction false} AddsTwo(g: Gen)
    requires Ready(g)
    ensures Adds(g, NewBlock(NewBlock(g)), 2)
  {
    AddsOne(g);
    AddsOne(NewBlock(g));
    AddsTrans(g, NewBlock(g), NewBlock(NewBlock(g)), 1, 1);
  }

  lemma {:induction false} AddsThree(g: Gen)
    requires Ready(g)
    ensures Adds(g, NewBlock(NewBlock(NewBlock(g))), 3)
  {
    AddsTwo(g);
    AddsOne(NewBlock(NewBlock(g)));
    AddsTrans(g, NewBlock(NewBlock(g)), NewBlock(NewBlock(NewBlock(g))), 2, 1);
  }

  // The test goes to the old block, and generation to the first of the new ones.
  lemma {:induction false} TestThenMove(g: Gen, g2: Gen, n: nat, v: Value, t: Block, f: Block)
    requires Ready(g) && Adds(g, g2, n) && n > 0 && t == |g.code|
    ensures
      var h := GenTest(g2, v, t, f).(insert := t);
      && Keeps(g, h) && |h.code| == |g2.code|
      && forall b: Block {:trigger Get(h.code, b)} :: |g.code| <= b ==> Get(h.code, b) == []
  {
    TestFrames(g2, v, t, f);
    var g3 := GenTest(g2, v, t, f);
    KeepsTrans(g, g2, g3);
    MoveFrames(g, g3, t);
    forall b: Block | |g.code| <= b ensures Get(g3.code, b) == [] {
      assert Get(g2.code, b) == [];
      assert b < |g2.code| ==> Get(g3.code, b) == Get(g2.code, b);
    }
  }

  ghost predicate IfTested(g: Gen, h: Gen)
  {
    && Keeps(g, h) && h.insert >= |g.code| && |h.code| == h.insert + 3
    && Get(h.code, h.insert) == [] && Get(h.code, h.insert + 1) == [] && Get(h.code, h.insert + 2) == []
  }

  // After the test of an if the three blocks are new and empty and the first is open.
  lemma {:induction false} IfTestKeeps(c: Expr, hasElse: bool, g: Gen)
    requires Ready(g)
    ensures IfTested(g, GenIfTest(c, hasElse, g))
  {
    ExprStraight(c, g);
    var (g1, v) := GenExpr(c, g);
    AddsThree(g1);
    TestThenMove(g1, NewBlock(NewBlock(NewBlock(g1))), 3, v, |g1.code|, if hasElse then |g1.code| + 1
      else |g1.code| + 2);
    KeepsTrans(g, g1, GenIfTest(c, hasElse, g));
  }

  lemma {:induction false} IfTestReady(c: Expr, hasElse: bool, g: Gen)
    requires Ready(g)
    ensures Ready(GenIfTest(c, hasElse, g)) && |GenIfTest(c, hasElse, g).code| == GenIfTest(c, hasElse, g).insert + 3
  {
    IfTestKeeps(c, hasElse, g);
  }

  lemma {:induction false} WhileStartKeeps(g: Gen)
    requires Ready(g)
    ensures
      var h := GenWhileStart(g);
      Keeps(g, h) && h.insert == |g.code| && |h.code| == |g.code| + 1 && Get(h.code, h.insert) == []
  {
    BlockFrames(g);
    BrFrames(NewBlock(g), |g.code|);
    var g1 := BrIfOpen(NewBlock(g), |g.code|);
    KeepsTrans(g, NewBlock(g), g1);
    assert Get(g1.code, |g.code|) == Get(NewBlock(g).code, |g.code|);
    MoveFrames(g, g1, |g.code|);
  }

  lemma {:induction false} WhileTestKeeps(c: Expr, g: Gen)
    requires Ready(g)
    ensures
      var h := GenWhileTest(c, g);
      && Keeps(g, h) && h.insert == |g.code| && |h.code| == h.insert + 2
      && Get(h.code, h.insert) == [] && Get(h.code, h.insert + 1) == []
  {
    ExprStraight(c, g);
    var (g1, v) := GenExpr(c, g);
    AddsTwo(g1);
    TestThenMove(g1, NewBlock(NewBlock(g1)), 2, v, |g1.code|, |g1.code| + 1);
    KeepsTrans(g, g1, GenWhileTest(c, g));
  }

  lemma {:induction false} BrIfOpenKeeps(a: Gen, g: Gen, b: Block)
    requires Keeps(a, g)
    ensures Keeps(a, BrIfOpen(g, b))
  {
    BrFrames(g, b);
    KeepsTrans(a, g, BrIfOpen(g, b));
  }

  // The parts of a loop, and of an if.
  lemma {:induction false} WhileIs(c: Expr, a: Stmt, g: Gen, h: Gen)
    requires h == GenWhileTest(c, GenWhileStart(g))
    ensures GenStmt(While(c, a), g) == BrIfOpen(GenStmt(a, h), |g.code|).(insert := h.insert + 1)
  {
  }

  lemma {:induction false} IfIs(c: Expr, a: Stmt, b: Option<Stmt>, g: Gen, h: Gen)
    requires h == GenIfTest(c, b.Some?, g)
    ensures GenStmt(If(c, a, b), g) == GenElse(b, BrIfOpen(GenStmt(a, h), h.insert + 2), h.insert + 1,
      h.insert + 2).(insert := h.insert + 2)
  {
  }

  // Generating a branch of an if leaves the blocks for the others alone.
  lemma {:induction false} BranchKeeps(g: Gen, h: Gen, g1: Gen, b: Block)
    requires Keeps(g, h) && Keeps(h, g1) && |g.code| <= b < |h.code| && b != h.insert
    ensures Keeps(g, g1) && Keeps(g, g1.(insert := b)) && Get(g1.code, b) == Get(h.code, b)
  {
    KeepsTrans(g, h, g1);
    MoveFrames(g, g1, b);
  }

  lemma {:induction false} StmtKeeps(t: Stmt, g: Gen)
    requires Ready(g)
    ensures Keeps(g, GenStmt(t, g))
    decreases t, 0
  {
    match t
    case ExprStmt(None) => assert Extends(g.code, g.code);
    case ExprStmt(Some(e)) => ExprStraight(e, g);
    case Compound(decls, body) => CompoundKeeps(decls, body, g);
    case If(c, a, b) => IfKeeps(c, a, b, g);
    case While(c, a) =>
      WhileStartKeeps(g);
      var g1 := GenWhileStart(g);
      WhileTestKeeps(c, g1);
      var h := GenWhileTest(c, g1);
      KeepsTrans(g, g1, h);
      StmtKeeps(a, h);
      BrIfOpenKeeps(h, GenStmt(a, h), |g.code|);
      BranchKeeps(g, h, BrIfOpen(GenStmt(a, h), |g.code|), h.insert + 1);
    case Return(None) => EmitStraight(g, Ret(None));
    case Return(Some(e)) =>
      ExprStraight(e, g);
      var (g1, v) := GenExpr(e, g);
      EmitStraight(g1, Ret(Some(v)));
      KeepsTrans(g, g1, Emit(g1, Ret(Some(v))));
  }

  lemma {:induction false} IfKeeps(c: Expr, a: Stmt, b: Option<Stmt>, g: Gen)
    requires Ready(g)
    ensures Keeps(g, GenStmt(If(c, a, b), g))
    decreases If(c, a, b), 0, 1
  {
    var h := GenIfTest(c, b.Some?, g);
    IfIs(c, a, b, g, h);
    IfTestKeeps(c, b.Some?, g);
    BranchesKeep(If(c, a, b), g, h);
  }

  lemma {:induction false} BranchesKeep(t: Stmt, g: Gen, h: Gen)
    requires t.If? && Ready(g) && IfTested(g, h)
    ensures Keeps(g, GenElse(t.else_, BrIfOpen(GenStmt(t.then_, h), h.insert + 2), h.insert + 1,
      h.insert + 2).(insert := h.insert + 2))
    decreases t, 0, 0
  {
    var fb, cb := h.insert + 1, h.insert + 2;
    BranchKept(t.then_, h, cb);
    var g1 := BrIfOpen(GenStmt(t.then_, h), cb);
    BranchKeeps(g, h, g1, fb);
    ElseKeeps(t.else_, g, g1, fb, cb);
  }

  lemma {:induction false} ElseKeeps(b: Option<Stmt>, g: Gen, g1: Gen, fb: Block, cb: Block)
    requires Ready(g) && Keeps(g, g1) && |g.code| <= fb < |g1.code| && |g.code| <= cb < |g1.code| &&
      Keeps(g, g1.(insert := fb))
    ensures Keeps(g, GenElse(b, g1, fb, cb)) && Keeps(g, GenElse(b, g1, fb, cb).(insert := cb))
    ensures b.Some? ==> Keeps(g1.(insert := fb), GenElse(b, g1, fb, cb))
    decreases b
  {
    if b.Some? {
      var h1 := g1.(insert := fb);
      StmtKeeps(b.value, h1);
      BrIfOpenKeeps(h1, GenStmt(b.value, h1), cb);
      KeepsTrans(g, h1, GenElse(b, g1, fb, cb));
    }
    MoveFrames(g, GenElse(b, g1, fb, cb), cb);
  }

  // A branch, with the jump behind it.
  lemma {:induction false} BranchKept(a: Stmt, h: Gen, cb: Block)
    requires Ready(h)
    ensures Keeps(h, BrIfOpen(GenStmt(a, h), cb))
    decreases a, 1
  {
    StmtKeeps(a, h);
    BrIfOpenKeeps(h, GenStmt(a, h), cb);
  }

  lemma {:induction false} StmtsKeep(ts: seq<Stmt>, g: Gen)
    requires Ready(g)
    ensures Keeps(g, GenStmts(ts, g))
    decreases ts, 0
  {
    if ts != [] {
      StmtKeeps(ts[0], g);
      var g1 := GenStmt(ts[0], g);
      if InsertOpen(g1) {
        StmtsKeep(ts[1..], g1);
        KeepsTrans(g, g1, GenStmts(ts, g));
      }
    } else {
      assert Extends(g.code, g.code);
    }
  }

  lemma {:induction false} EnterReady(g: Gen)
    requires Ready(g)
    ensures Ready(g.(scope := g.scope + [map[]])) && Frames(g, g.(scope := g.scope + [map[]]))
  {
    var scope := g.scope + [map[]];
    forall i | 0 <= i < |scope| ensures FrameBelow(scope[i], g.nextId) {
      assert i < |g.scope| ==> FrameBelow(g.scope[i], g.nextId);
    }
  }

  lemma {:induction false} CompoundKeeps(decls: seq<string>, body: seq<Stmt>, g: Gen)
    requires Ready(g)
    ensures Keeps(g, GenCompound(decls, body, g))
    decreases body, 1
  {
    var g0 := g.(scope := g.scope + [map[]]);
    EnterReady(g);
    DeclsDeclare(decls, g0);
    var g1 := GenDecls(decls, g0);
    StmtsKeep(body, g1);
    var g2 := GenStmts(body, g1);
    FramesTrans(g, g0, g1);
    FramesTrans(g, g1, g2);
    ScopeBelowMore(g.scope, g.nextId, g2.nextId);
  }
}
