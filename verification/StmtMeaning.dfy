// The generated code of a statement does what the statement does.
module StmtMeaning {
  import opened Graph
  import opened Cminus
  import opened Machine
  import opened Generation
  import opened Framing
  import opened ExprMeaning

  // The machine follows a source run: it arrives where code for what comes next goes, with the same
  // store; or it returns the same value; or, while the source run needs more than the given fuel,
  // it is still running after that many steps.
  ghost predicate Follows(m: Machine, c: Config, g': Gen, regs': Regs, r: Outcome, fuel: nat)
  {
    match r
    case Normal(s') => InsertOpen(g') && Reaches(m, c, Here(g', regs', s'))
    case Returned(v, s') => Reaches(m, c, Halted(v, s'))
    case Timeout => StillRunning(m, c, fuel)
  }

  lemma {:induction false} FollowsAfter(m: Machine, c: Config, d: Config, g': Gen, regs': Regs, r: Outcome, fuel: nat)
    requires Reaches(m, c, d) && Follows(m, d, g', regs', r, fuel)
    ensures Follows(m, c, g', regs', r, fuel)
  {
    match r
    case Normal(s') => ReachesTrans(m, c, d, Here(g', regs', s'));
    case Returned(v, s') => ReachesTrans(m, c, d, Halted(v, s'));
    case Timeout => StillAfter(m, c, d, fuel);
  }

  // One step on, with one step less to wait for.
  lemma {:induction false} FollowsStep(m: Machine, c: Config, d: Config, g': Gen, regs': Regs, r: Outcome, fuel: nat)
    requires Step(m, c) == d && Reaches(m, c, d) && fuel > 0 && Follows(m, d, g', regs', r, fuel - 1)
    ensures Follows(m, c, g', regs', r, fuel)
  {
    if r.Timeout? {
      StillAfterStep(m, c, fuel - 1);
    } else {
      FollowsAfter(m, c, d, g', regs', r, fuel);
    }
  }

  // ---- Jumps ----

  lemma {:induction false} BrRuns(m: Machine, g: Gen, b: Block, regs: Regs, s: Cminus.Store)
    requires Ready(g) && Fits(EmitBr(g, b), m)
    ensures Step(m, Here(g, regs, s)) == At(b, 0, regs, s) && Reaches(m, Here(g, regs, s), At(b, 0, regs, s)) &&
      Fits(g, m)
  {
    assert EmitBr(g, b).code == Emit(g, Br(b)).code;
    EmitAt(g, Br(b), m);
    ReachesStep(m, Here(g, regs, s));
  }

  // The test jumps to the first block exactly when the value is not zero.
  lemma {:induction false} TestRuns(m: Machine, g: Gen, v: Value, t: Block, f: Block, regs: Regs, s: Cminus.Store)
      returns (regs': Regs)
    requires Ready(g) && Fits(GenTest(g, v, t, f), m)
    ensures Reaches(m, Here(g, regs, s), At(if Val(m.args, v, regs) != 0 then t else f, 0, regs', s)) &&
      Agree(regs, regs', g.nextId)
  {
    var i := ICmp(g.nextId, Neq, v, Const(0));
    var g1 := EmitId(g, i);
    EmitStraight(g, i);
    var j := CondBr(Reg(g.nextId), t, f);
    assert GenTest(g, v, t, f).code == Emit(g1, j).code;
    EmitAt(g1, j, m);
    var x := if Val(m.args, v, regs) != 0 then 1 else 0;
    EmitIdRuns(g, i, m, regs, s, x, s);
    regs' := regs[g.nextId := x];
    ReachesStep(m, Here(g1, regs', s));
    ReachesTrans(m, Here(g, regs, s), Here(g1, regs', s), At(if Val(m.args, v, regs) != 0 then t else f, 0, regs', s));
  }

  // A condition: its expression, and a jump to one of two blocks.
  lemma {:induction false} CondRuns(m: Machine, c: Expr, g: Gen, g2: Gen, n: nat, t: Block, f: Block, env: Env,
      regs: Regs, s: Cminus.Store) returns (regs': Regs)
    requires Ready(g) && Matches(g.scope, env, regs) && Adds(GenExpr(c, g).0, g2, n)
    requires Fits(GenTest(g2, GenExpr(c, g).1, t, f), m)
    ensures
      var (v, s1) := Eval(m.w, env, c, s);
      Reaches(m, Here(g, regs, s), At(if v != 0 then t else f, 0, regs', s1)) && Agree(regs, regs', g.nextId)
  {
    ExprStraight(c, g);
    var (g1, x) := GenExpr(c, g);
    TestFrames(g2, x, t, f);
    FitsEarlier(g2, GenTest(g2, x, t, f), m);
    FitsEarlier(g1, g2, m);
    var r1 := ExprRuns(m, c, g, env, regs, s);
    var (v, s1) := Eval(m.w, env, c, s);
    assert Here(g1, r1, s1) == Here(g2, r1, s1) by {
      assert Get(g2.code, g1.insert) == Get(g1.code, g1.insert);
    }
    regs' := TestRuns(m, g2, x, t, f, r1, s1);
    AgreeTrans(regs, r1, regs', g.nextId, g2.nextId);
    ReachesTrans(m, Here(g, regs, s), Here(g1, r1, s1), At(if v != 0 then t else f, 0, regs', s1));
  }

  lemma {:induction false} IfTestRuns(m: Machine, c: Expr, hasElse: bool, g: Gen, env: Env, regs: Regs, s: Cminus.Store)
      returns (regs': Regs)
    requires Ready(g) && Matches(g.scope, env, regs) && Fits(GenIfTest(c, hasElse, g), m)
    ensures
      var h := GenIfTest(c, hasElse, g);
      var (v, s1) := Eval(m.w, env, c, s);
      && Reaches(m, Here(g, regs, s), At(if v != 0 then h.insert else if hasElse then h.insert + 1
        else h.insert + 2, 0, regs', s1))
      && Agree(regs, regs', g.nextId)
  {
    ExprStraight(c, g);
    var g1 := GenExpr(c, g).0;
    AddsThree(g1);
    var tb, fb, cb := |g1.code|, |g1.code| + 1, |g1.code| + 2;
    regs' := CondRuns(m, c, g, NewBlock(NewBlock(NewBlock(g1))), 3, tb, if hasElse then fb else cb, env, regs, s);
  }

  lemma {:induction false} WhileTestRuns(m: Machine, c: Expr, g: Gen, env: Env, regs: Regs, s: Cminus.Store)
      returns (regs': Regs)
    requires Ready(g) && Matches(g.scope, env, regs) && Fits(GenWhileTest(c, g), m)
    ensures
      var h := GenWhileTest(c, g);
      var (v, s1) := Eval(m.w, env, c, s);
      && Reaches(m, Here(g, regs, s), At(if v != 0 then h.insert else h.insert + 1, 0, regs', s1))
      && Agree(regs, regs', g.nextId)
  {
    ExprStraight(c, g);
    var g1 := GenExpr(c, g).0;
    AddsTwo(g1);
    regs' := CondRuns(m, c, g, NewBlock(NewBlock(g1)), 2, |g1.code|, |g1.code| + 1, env, regs, s);
  }

  // ---- Declarations ----

  lemma {:induction false} PushMatches(scope: Scopes, env: Env, regs: Regs, x: string, v: Value, b: Binding)
    requires scope != [] && Matches(scope, env, regs) && Binds(v, b, regs)
    ensures Matches(Push(scope, x, v), Push(env, x, b), regs)
  {
    var n := |scope| - 1;
    assert FrameMatches(scope, env, regs, n) && BindsAt(scope[n], env[n], regs, x);
    forall i | 0 <= i < |scope| ensures FrameMatches(Push(scope, x, v), Push(env, x, b), regs, i) {
      assert FrameMatches(scope, env, regs, i);
      forall y ensures BindsAt(Push(scope, x, v)[i], Push(env, x, b)[i], regs, y) {
        assert BindsAt(scope[i], env[i], regs, y);
      }
    }
  }

  lemma {:induction false} EnterMatches(scope: Scopes, env: Env, regs: Regs)
    requires Matches(scope, env, regs)
    ensures Matches(scope + [map[]], env + [map[]], regs)
  {
    forall i | 0 <= i < |scope| + 1 ensures FrameMatches(scope + [map[]], env + [map[]], regs, i) {
      assert i < |scope| ==> FrameMatches(scope, env, regs, i);
      forall x ensures BindsAt((scope + [map[]])[i], (env + [map[]])[i], regs, x) {
        assert i < |scope| ==> BindsAt(scope[i], env[i], regs, x);
      }
    }
  }

  lemma {:induction false} DeclRuns(m: Machine, x: string, g: Gen, env: Env, regs: Regs, s: Cminus.Store)
      returns (regs': Regs)
    requires Ready(g) && g.scope != [] && Matches(g.scope, env, regs) && Fits(GenDecl(x, g), m)
    ensures Computes(m, g, GenDecl(x, g), regs, regs', s, Declare(env, x, s).1)
    ensures Matches(GenDecl(x, g).scope, Declare(env, x, s).0, regs')
  {
    EmitIdRuns(g, Alloca(g.nextId), m, regs, s, s.next, s.(next := s.next + 1));
    regs' := regs[g.nextId := s.next];
    MatchesAgree(g.scope, env, regs, regs', g.nextId);
    PushMatches(g.scope, env, regs', x, Reg(g.nextId), Variable(Local(s.next)));
  }

  lemma {:induction false} DeclsRun(m: Machine, xs: seq<string>, g: Gen, env: Env, regs: Regs, s: Cminus.Store)
      returns (regs': Regs)
    requires Ready(g) && g.scope != [] && Matches(g.scope, env, regs) && Fits(GenDecls(xs, g), m)
    ensures Computes(m, g, GenDecls(xs, g), regs, regs', s, DeclareAll(env, xs, s).1)
    ensures Matches(GenDecls(xs, g).scope, DeclareAll(env, xs, s).0, regs')
    decreases xs
  {
    if xs == [] {
      regs' := regs;
      ReachesSelf(m, Here(g, regs, s));
    } else {
      var g1 := GenDecl(xs[0], g);
      DeclDeclares(xs[0], g);
      DeclsDeclare(xs[1..], g1);
      FitsEarlier(g1, GenDecls(xs, g), m);
      var r1 := DeclRuns(m, xs[0], g, env, regs, s);
      var (env1, s1) := Declare(env, xs[0], s);
      regs' := DeclsRun(m, xs[1..], g1, env1, r1, s1);
      ComputesTrans(m, g, g1, GenDecls(xs, g), regs, r1, regs', s, s1, DeclareAll(env, xs, s).1);
    }
  }

  // ---- Statements ----

  lemma {:induction false} StmtRuns(m: Machine, t: Stmt, g: Gen, env: Env, regs: Regs, s: Cminus.Store, fuel: nat)
      returns (regs': Regs)
    requires Ready(g) && InsertOpen(g) && Matches(g.scope, env, regs) && Fits(GenStmt(t, g), m)
    ensures Follows(m, Here(g, regs, s), GenStmt(t, g), regs', Exec(m.w, env, t, s, fuel), fuel) &&
      Agree(regs, regs', g.nextId)
    decreases fuel, t, 0
  {
    StmtKeeps(t, g);
    match t
    case ExprStmt(None) =>
      regs' := regs;
      ReachesSelf(m, Here(g, regs, s));
    case ExprStmt(Some(e)) =>
      regs' := ExprRuns(m, e, g, env, regs, s);
      ExprLeavesOpen(e, g);
    case Compound(decls, body) =>
      regs' := CompoundRuns(m, decls, body, g, env, regs, s, fuel);
    case If(c, a, b) =>
      regs' := IfRuns(m, c, a, b, g, env, regs, s, fuel);
    case While(c, a) =>
      regs' := WhileRuns(m, c, a, g, env, regs, s, fuel);
    case Return(None) =>
      regs' := regs;
      EmitAt(g, Ret(None), m);
      ReachesStep(m, Here(g, regs, s));
    case Return(Some(e)) =>
      ExprStraight(e, g);
      var (g1, v) := GenExpr(e, g);
      EmitAt(g1, Ret(Some(v)), m);
      regs' := ExprRuns(m, e, g, env, regs, s);
      var (x, s1) := Eval(m.w, env, e, s);
      ReachesStep(m, Here(g1, regs', s1));
      ReachesTrans(m, Here(g, regs, s), Here(g1, regs', s1), Halted(Some(x), s1));
  }

  // No expression ends a block.
  lemma {:induction false} ExprLeavesOpen(e: Expr, g: Gen)
    requires Ready(g) && InsertOpen(g)
    ensures InsertOpen(GenExpr(e, g).0)
    decreases e
  {
    match e
    case Num(n) =>
    case Var(x) =>
    case Assign(x, e1) => ExprLeavesOpen(e1, g);
      ExprStraight(e1, g);
    case Arith(op, l, r) =>
      ExprLeavesOpen(l, g);
      ExprStraight(l, g);
      ExprLeavesOpen(r, GenExpr(l, g).0);
      ExprStraight(r, GenExpr(l, g).0);
    case Compare(op, l, r) =>
      ExprLeavesOpen(l, g);
      ExprStraight(l, g);
      ExprLeavesOpen(r, GenExpr(l, g).0);
      ExprStraight(r, GenExpr(l, g).0);
    case Call(f, args) =>
      AllStraight(args, g);
  }

  lemma {:induction false} CompoundRuns(m: Machine, decls: seq<string>, body: seq<Stmt>, g: Gen, env: Env, regs: Regs,
      s: Cminus.Store, fuel: nat) returns (regs': Regs)
    requires Ready(g) && InsertOpen(g) && Matches(g.scope, env, regs) && Fits(GenCompound(decls, body, g), m)
    ensures Follows(m, Here(g, regs, s), GenCompound(decls, body, g), regs',
      Exec(m.w, env, Compound(decls, body), s, fuel), fuel)
    ensures Agree(regs, regs', g.nextId)
    decreases fuel, body, 1
  {
    var g0 := g.(scope := g.scope + [map[]]);
    EnterReady(g);
    EnterMatches(g.scope, env, regs);
    DeclsDeclare(decls, g0);
    var g1 := GenDecls(decls, g0);
    StmtsKeep(body, g1);
    var g2 := GenStmts(body, g1);
    FitsEarlier(g1, g2, m);
    var r1 := DeclsRun(m, decls, g0, env + [map[]], regs, s);
    var (env1, s1) := DeclareAll(env + [map[]], decls, s);
    DeclsLeaveOpen(decls, g0);
    regs' := StmtsRun(m, body, g1, env1, r1, s1, fuel);
    AgreeTrans(regs, r1, regs', g.nextId, g1.nextId);
    FollowsAfter(m, Here(g, regs, s), Here(g1, r1, s1), g2, regs', ExecAll(m.w, env1, body, s1, fuel), fuel);
  }

  lemma {:induction false} DeclsLeaveOpen(xs: seq<string>, g: Gen)
    requires Ready(g) && g.scope != [] && InsertOpen(g)
    ensures InsertOpen(GenDecls(xs, g))
    decreases xs
  {
    if xs != [] {
      DeclDeclares(xs[0], g);
      DeclsLeaveOpen(xs[1..], GenDecl(xs[0], g));
    }
  }

  lemma {:induction false} StmtsRun(m: Machine, ts: seq<Stmt>, g: Gen, env: Env, regs: Regs, s: Cminus.Store, fuel: nat)
      returns (regs': Regs)
    requires Ready(g) && InsertOpen(g) && Matches(g.scope, env, regs) && Fits(GenStmts(ts, g), m)
    ensures Follows(m, Here(g, regs, s), GenStmts(ts, g), regs', ExecAll(m.w, env, ts, s, fuel), fuel) &&
      Agree(regs, regs', g.nextId)
    decreases fuel, ts, 0
  {
    if ts == [] {
      regs' := regs;
      ReachesSelf(m, Here(g, regs, s));
    } else {
      var g1 := GenStmt(ts[0], g);
      StmtKeeps(ts[0], g);
      if InsertOpen(g1) {
        StmtsKeep(ts[1..], g1);
        FitsEarlier(g1, GenStmts(ts, g), m);
      }
      regs' := StmtRuns(m, ts[0], g, env, regs, s, fuel);
      var r := Exec(m.w, env, ts[0], s, fuel);
      if r.Normal? {
        var r1 := regs';
        MatchesAgree(g.scope, env, regs, r1, g.nextId);
        regs' := StmtsRun(m, ts[1..], g1, env, r1, r.s, fuel);
        AgreeTrans(regs, r1, regs', g.nextId, g1.nextId);
        FollowsAfter(m, Here(g, regs, s), Here(g1, r1, r.s), GenStmts(ts, g), regs',
          ExecAll(m.w, env, ts[1..], r.s, fuel), fuel);
      }
    }
  }

  // A branch runs, and jumps to the block after the if unless it returns.
  lemma {:induction false} BranchRuns(m: Machine, a: Stmt, h: Gen, cb: Block, env: Env, regs: Regs, s: Cminus.Store,
      fuel: nat, g': Gen) returns (regs': Regs)
    requires Ready(h) && InsertOpen(h) && Matches(h.scope, env, regs) && Fits(BrIfOpen(GenStmt(a, h), cb), m)
    requires g'.insert == cb && Get(g'.code, cb) == []
    ensures Follows(m, Here(h, regs, s), g', regs', Exec(m.w, env, a, s, fuel), fuel) && Agree(regs, regs', h.nextId)
    decreases fuel, a, 1
  {
    var g1 := GenStmt(a, h);
    StmtKeeps(a, h);
    BrFrames(g1, cb);
    FitsEarlier(g1, BrIfOpen(g1, cb), m);
    regs' := StmtRuns(m, a, h, env, regs, s, fuel);
    var r := Exec(m.w, env, a, s, fuel);
    if r.Normal? {
      BrRuns(m, g1, cb, regs', r.s);
      ReachesTrans(m, Here(h, regs, s), Here(g1, regs', r.s), At(cb, 0, regs', r.s));
    }
  }

  lemma {:induction false} IfRuns(m: Machine, c: Expr, a: Stmt, b: Option<Stmt>, g: Gen, env: Env, regs: Regs,
      s: Cminus.Store, fuel: nat) returns (regs': Regs)
    requires Ready(g) && InsertOpen(g) && Matches(g.scope, env, regs) && Fits(GenStmt(If(c, a, b), g), m)
    ensures Follows(m, Here(g, regs, s), GenStmt(If(c, a, b), g), regs', Exec(m.w, env, If(c, a, b), s, fuel), fuel)
    ensures Agree(regs, regs', g.nextId)
    decreases fuel, If(c, a, b), 0, 1
  {
    var h := GenIfTest(c, b.Some?, g);
    var g1 := BrIfOpen(GenStmt(a, h), h.insert + 2);
    IfIs(c, a, b, g, h);
    IfSetup(c, a, b, g, h, g1, m);
    var r1 := IfTestRuns(m, c, b.Some?, g, env, regs, s);
    MatchesAgree(g.scope, env, regs, r1, g.nextId);
    regs' := BranchesRun(m, If(c, a, b), g, h, g1, env, regs, r1, s, Eval(m.w, env, c, s).0, Eval(m.w, env, c, s).1,
      fuel);
  }

  // An if in place: h where its first branch starts, and g1 after that branch.
  ghost predicate IfAt(m: Machine, b: Option<Stmt>, g: Gen, h: Gen, g1: Gen)
  {
    var fb, cb := h.insert + 1, h.insert + 2;
    && Keeps(g, h) && Keeps(g, g1.(insert := fb)) && Fits(h, m) && Fits(g1, m) && Fits(GenElse(b, g1, fb, cb), m)
    && Get(h.code, h.insert) == [] && Get(g1.code, fb) == [] && Get(GenElse(b, g1, fb, cb).code, cb) == []
  }

  // The machine's program contains the parts of an if.
  lemma {:induction false} IfParts(b: Option<Stmt>, g: Gen, h: Gen, g1: Gen, m: Machine)
    requires Ready(g) && IfTested(g, h) && Keeps(h, g1)
    requires Fits(GenElse(b, g1, h.insert + 1, h.insert + 2), m)
    ensures IfAt(m, b, g, h, g1)
  {
    var fb, cb := h.insert + 1, h.insert + 2;
    BranchKeeps(g, h, g1, fb);
    BranchKeeps(g, h, g1, cb);
    ElseKeeps(b, g, g1, fb, cb);
    var g' := GenElse(b, g1, fb, cb);
    if b.Some? {
      assert Get(g'.code, cb) == Get(g1.(insert := fb).code, cb);
      FitsEarlier(g1.(insert := fb), g', m);
    }
    FitsEarlier(h, g1, m);
  }

  lemma {:induction false} IfSetup(c: Expr, a: Stmt, b: Option<Stmt>, g: Gen, h: Gen, g1: Gen, m: Machine)
    requires Ready(g) && h == GenIfTest(c, b.Some?, g) && g1 == BrIfOpen(GenStmt(a, h), h.insert + 2)
    requires Fits(GenElse(b, g1, h.insert + 1, h.insert + 2), m)
    ensures IfAt(m, b, g, h, g1)
  {
    IfTestKeeps(c, b.Some?, g);
    BranchKept(a, h, h.insert + 2);
    IfParts(b, g, h, g1, m);
  }

  // After the test, whichever branch is taken.
  lemma {:induction false} BranchesRun(m: Machine, t: Stmt, g: Gen, h: Gen, g1: Gen, env: Env, regs: Regs, r1: Regs,
      s: Cminus.Store, v: int, s1: Cminus.Store, fuel: nat) returns (regs': Regs)
    requires t.If? && IfAt(m, t.else_, g, h, g1) && g1 == BrIfOpen(GenStmt(t.then_, h), h.insert + 2)
    requires Matches(g.scope, env, r1) && Agree(regs, r1, g.nextId)
    requires Reaches(m, Here(g, regs, s), At(if v != 0 then h.insert else if t.else_.Some? then h.insert + 1
      else h.insert + 2, 0, r1, s1))
    ensures Follows(m, Here(g, regs, s), GenElse(t.else_, g1, h.insert + 1, h.insert + 2).(insert := h.insert + 2),
      regs', Branch(m.w, env, t, v, s1, fuel), fuel)
    ensures Agree(regs, regs', g.nextId)
    decreases fuel, t, 0, 0
  {
    var fb, cb := h.insert + 1, h.insert + 2;
    var g' := GenElse(t.else_, g1, fb, cb).(insert := cb);
    if v != 0 {
      regs' := BranchRuns(m, t.then_, h, cb, env, r1, s1, fuel, g');
      FollowsAfter(m, Here(g, regs, s), Here(h, r1, s1), g', regs', Exec(m.w, env, t.then_, s1, fuel), fuel);
      AgreeTrans(regs, r1, regs', g.nextId, h.nextId);
    } else if t.else_.Some? {
      var h1 := g1.(insert := fb);
      regs' := BranchRuns(m, t.else_.value, h1, cb, env, r1, s1, fuel, g');
      FollowsAfter(m, Here(g, regs, s), Here(h1, r1, s1), g', regs', Exec(m.w, env, t.else_.value, s1, fuel), fuel);
      AgreeTrans(regs, r1, regs', g.nextId, h1.nextId);
    } else {
      regs' := r1;
    }
  }

  // What the branch of an if that v selects comes to.
  ghost function Branch(w: World, env: Env, t: Stmt, v: int, s: Cminus.Store, fuel: nat): Outcome
    requires t.If?
  {
    if v != 0 then Exec(w, env, t.then_, s, fuel)
    else if t.else_.Some? then Exec(w, env, t.else_.value, s, fuel)
    else Normal(s)
  }

  // ---- Loops ----

  // A loop in place: g1 where its condition starts, h where its body starts, and g' where the code
  // after the loop goes.
  ghost predicate LoopAt(m: Machine, c: Expr, a: Stmt, g1: Gen, h: Gen, g': Gen)
  {
    && Ready(g1) && Get(g1.code, g1.insert) == [] && Keeps(g1, h) && Get(h.code, h.insert) == []
    && h == GenWhileTest(c, g1) && Fits(h, m) && Fits(BrIfOpen(GenStmt(a, h), g1.insert), m)
    && g'.insert == h.insert + 1 && Get(g'.code, g'.insert) == []
  }

  // The condition of the loop leads to its body or behind it.
  lemma {:induction false} LoopTests(m: Machine, c: Expr, a: Stmt, g1: Gen, h: Gen, g': Gen, env: Env, regs: Regs,
      s: Cminus.Store) returns (regs': Regs)
    requires LoopAt(m, c, a, g1, h, g') && Matches(g1.scope, env, regs)
    ensures
      var (v, s1) := Eval(m.w, env, c, s);
      Reaches(m, Here(g1, regs, s), Here(if v != 0 then h else g', regs', s1)) && Agree(regs, regs', g1.nextId)
    ensures Matches(g1.scope, env, regs') && InsertOpen(g')
  {
    regs' := WhileTestRuns(m, c, g1, env, regs, s);
    MatchesAgree(g1.scope, env, regs, regs', g1.nextId);
  }

  // The loop from its condition on.
  lemma {:induction false} LoopRuns(m: Machine, c: Expr, a: Stmt, g1: Gen, h: Gen, g': Gen, env: Env, regs: Regs,
      s: Cminus.Store, fuel: nat) returns (regs': Regs)
    requires LoopAt(m, c, a, g1, h, g') && Matches(g1.scope, env, regs)
    ensures Follows(m, Here(g1, regs, s), g', regs', Exec(m.w, env, While(c, a), s, fuel), fuel) &&
      Agree(regs, regs', g1.nextId)
    decreases fuel, While(c, a), 0, 0
  {
    regs' := regs;
    if fuel == 0 {
      assert Run(m, Here(g1, regs, s), 0).At?;
    } else {
      ExecWhile(m.w, env, c, a, s, fuel);
      var r1 := LoopTests(m, c, a, g1, h, g', env, regs, s);
      var (v, s1) := Eval(m.w, env, c, s);
      regs' := r1;
      if v != 0 {
        regs' := RoundRuns(m, c, a, g1, h, g', env, r1, s1, fuel);
        AgreeTrans(regs, r1, regs', g1.nextId, g1.nextId);
        FollowsAfter(m, Here(g1, regs, s), Here(h, r1, s1), g', regs', Round(m.w, env, c, a, s1, fuel), fuel);
      }
    }
  }

  // What a round of a loop and the rounds after it come to.
  ghost function Round(w: World, env: Env, c: Expr, a: Stmt, s: Cminus.Store, fuel: nat): Outcome
    requires fuel > 0
  {
    var r := Exec(w, env, a, s, fuel);
    if r.Normal? then Exec(w, env, While(c, a), r.s, fuel - 1) else r
  }

  lemma {:induction false} ExecWhile(w: World, env: Env, c: Expr, a: Stmt, s: Cminus.Store, fuel: nat)
    requires fuel > 0
    ensures
      var (v, s1) := Eval(w, env, c, s);
      Exec(w, env, While(c, a), s, fuel) == if v == 0 then Normal(s1) else Round(w, env, c, a, s1, fuel)
  {
  }

  // One round: the body, the jump back, and the rest of the loop.
  lemma {:induction false} RoundRuns(m: Machine, c: Expr, a: Stmt, g1: Gen, h: Gen, g': Gen, env: Env, regs: Regs,
      s: Cminus.Store, fuel: nat) returns (regs': Regs)
    requires LoopAt(m, c, a, g1, h, g') && Matches(g1.scope, env, regs) && fuel > 0
    ensures Follows(m, Here(h, regs, s), g', regs', Round(m.w, env, c, a, s, fuel), fuel)
    ensures Agree(regs, regs', g1.nextId)
    decreases fuel, a, 1
  {
    var g2 := GenStmt(a, h);
    StmtKeeps(a, h);
    BrFrames(g2, g1.insert);
    FitsEarlier(g2, BrIfOpen(g2, g1.insert), m);
    regs' := StmtRuns(m, a, h, env, regs, s, fuel);
    AgreeTrans(regs, regs, regs', g1.nextId, h.nextId);
    var r := Exec(m.w, env, a, s, fuel);
    if r.Normal? {
      var r2 := regs';
      MatchesAgree(g1.scope, env, regs, r2, g1.nextId);
      regs' := BackRuns(m, c, a, g1, h, g', g2, env, r2, r.s, fuel);
      AgreeTrans(regs, r2, regs', g1.nextId, g1.nextId);
      FollowsAfter(m, Here(h, regs, s), Here(g2, r2, r.s), g', regs', Exec(m.w, env, While(c, a), r.s, fuel - 1), fuel);
    }
  }

  // The jump back from the end of the body, and the rest of the loop. A round takes at least this
  // one step.
  lemma {:induction false} BackRuns(m: Machine, c: Expr, a: Stmt, g1: Gen, h: Gen, g': Gen, g2: Gen, env: Env,
      regs: Regs, s: Cminus.Store, fuel: nat) returns (regs': Regs)
    requires LoopAt(m, c, a, g1, h, g') && Matches(g1.scope, env, regs) && fuel > 0
    requires Ready(g2) && InsertOpen(g2) && Fits(EmitBr(g2, g1.insert), m)
    ensures Follows(m, Here(g2, regs, s), g', regs', Exec(m.w, env, While(c, a), s, fuel - 1), fuel)
    ensures Agree(regs, regs', g1.nextId)
    decreases fuel, a, 0
  {
    BrRuns(m, g2, g1.insert, regs, s);
    regs' := LoopRuns(m, c, a, g1, h, g', env, regs, s, fuel - 1);
    FollowsStep(m, Here(g2, regs, s), Here(g1, regs, s), g', regs', Exec(m.w, env, While(c, a), s, fuel - 1), fuel);
  }

  lemma {:induction false} WhileRuns(m: Machine, c: Expr, a: Stmt, g: Gen, env: Env, regs: Regs, s: Cminus.Store,
      fuel: nat) returns (regs': Regs)
    requires Ready(g) && InsertOpen(g) && Matches(g.scope, env, regs) && Fits(GenStmt(While(c, a), g), m)
    ensures Follows(m, Here(g, regs, s), GenStmt(While(c, a), g), regs', Exec(m.w, env, While(c, a), s, fuel), fuel)
    ensures Agree(regs, regs', g.nextId)
    decreases fuel, While(c, a), 0, 1
  {
    var g1 := GenWhileStart(g);
    var h := GenWhileTest(c, g1);
    var g' := BrIfOpen(GenStmt(a, h), |g.code|).(insert := h.insert + 1);
    WhileIs(c, a, g, h);
    WhileParts(c, a, g, m);
    WhileStartRuns(m, g, regs, s);
    regs' := LoopRuns(m, c, a, g1, h, g', env, regs, s, fuel);
    FollowsAfter(m, Here(g, regs, s), Here(g1, regs, s), g', regs', Exec(m.w, env, While(c, a), s, fuel), fuel);
  }

  lemma {:induction false} WhileStartRuns(m: Machine, g: Gen, regs: Regs, s: Cminus.Store)
    requires Ready(g) && InsertOpen(g) && Fits(GenWhileStart(g), m)
    ensures Reaches(m, Here(g, regs, s), Here(GenWhileStart(g), regs, s))
  {
    AddsOne(g);
    var g0 := NewBlock(g);
    assert Get(g0.code, g.insert) == Get(g.code, g.insert);
    BrRuns(m, g0, |g.code|, regs, s);
    WhileStartKeeps(g);
  }

  lemma {:induction false} WhileParts(c: Expr, a: Stmt, g: Gen, m: Machine)
    requires Ready(g) && Fits(BrIfOpen(GenStmt(a, GenWhileTest(c, GenWhileStart(g))), |g.code|), m)
    ensures
      var g1 := GenWhileStart(g);
      var h := GenWhileTest(c, g1);
      Keeps(g, g1) && g1.insert == |g.code| && g1.nextId == g.nextId && Fits(g1, m)
      && LoopAt(m, c, a, g1, h, BrIfOpen(GenStmt(a, h), |g.code|).(insert := h.insert + 1))
  {
    WhileStartKeeps(g);
    var g1 := GenWhileStart(g);
    LoopParts(c, a, g1, m);
  }

  lemma {:induction false} LoopParts(c: Expr, a: Stmt, g1: Gen, m: Machine)
    requires Ready(g1) && Get(g1.code, g1.insert) == [] && Fits(BrIfOpen(GenStmt(a, GenWhileTest(c, g1)), g1.insert), m)
    ensures
      var h := GenWhileTest(c, g1);
      Fits(g1, m) && LoopAt(m, c, a, g1, h, BrIfOpen(GenStmt(a, h), g1.insert).(insert := h.insert + 1))
  {
    WhileTestKeeps(c, g1);
    var h := GenWhileTest(c, g1);
    BodyParts(a, g1, h, m);
  }

  lemma {:induction false} BodyParts(a: Stmt, g1: Gen, h: Gen, m: Machine)
    requires Keeps(g1, h) && |g1.code| <= h.insert && h.insert + 1 < |h.code|
    requires Get(h.code, h.insert + 1) == [] && Fits(BrIfOpen(GenStmt(a, h), g1.insert), m)
    ensures Fits(g1, m) && Fits(h, m) && Get(BrIfOpen(GenStmt(a, h), g1.insert).code, h.insert + 1) == []
  {
    StmtKeeps(a, h);
    BrIfOpenKeeps(h, GenStmt(a, h), g1.insert);
    var g3 := BrIfOpen(GenStmt(a, h), g1.insert);
    BranchKeeps(g1, h, g3, h.insert + 1);
    FitsEarlier(h, g3, m);
    FitsEarlier(g1, h, m);
  }
}
