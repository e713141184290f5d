// A generated function behaves as its source, and halts exactly when the source does.
module FunctionMeaning {
  import opened Graph
  import opened Cminus
  import opened Machine
  import opened Generation
  import opened Framing
  import opened ExprMeaning
  import opened StmtMeaning

  // One parameter: its variable, and the argument stored in it.
  lemma {:induction false} ParamRuns(m: Machine, x: string, i: nat, g: Gen, env: Env, regs: Regs, s: Cminus.Store)
      returns (regs': Regs)
    requires Ready(g) && g.scope != [] && Matches(g.scope, env, regs) && Fits(GenParam(x, i, g), m) && i < |m.args|
    ensures
      var (env1, s1) := Declare(env, x, s);
      && Computes(m, g, GenParam(x, i, g), regs, regs', s, Write(s1, Local(s.next), m.args[i]))
      && Matches(GenParam(x, i, g).scope, env1, regs')
  {
    var g1 := EmitId(g, Alloca(g.nextId));
    EmitStraight(g, Alloca(g.nextId));
    var j := Instr.Store(Param(i), Reg(g.nextId));
    assert GenParam(x, i, g).code == Emit(g1, j).code;
    EmitAt(g1, j, m);
    var s1 := s.(next := s.next + 1);
    EmitIdRuns(g, Alloca(g.nextId), m, regs, s, s.next, s1);
    regs' := regs[g.nextId := s.next];
    ReachesStep(m, Here(g1, regs', s1));
    ReachesTrans(m, Here(g, regs, s), Here(g1, regs', s1),
      Here(Emit(g1, j), regs', Write(s1, Local(s.next), m.args[i])));
    MatchesAgree(g.scope, env, regs, regs', g.nextId);
    PushMatches(g.scope, env, regs', x, Reg(g.nextId), Variable(Local(s.next)));
  }

  lemma {:induction false} ParamsRun(m: Machine, xs: seq<string>, i: nat, g: Gen, env: Env, regs: Regs, s: Cminus.Store)
      returns (regs': Regs)
    requires Ready(g) && g.scope != [] && env != [] && Matches(g.scope, env, regs) && Fits(GenParams(xs, i, g), m)
    requires i + |xs| == |m.args|
    ensures
      var (env1, s1) := BindParams(env, xs, m.args[i..], s);
      Computes(m, g, GenParams(xs, i, g), regs, regs', s, s1) && Matches(GenParams(xs, i, g).scope, env1, regs')
    decreases xs
  {
    if xs == [] {
      regs' := regs;
      ReachesSelf(m, Here(g, regs, s));
    } else {
      var g1 := GenParam(xs[0], i, g);
      ParamDeclares(xs[0], i, g);
      ParamsDeclare(xs[1..], i + 1, g1);
      FitsEarlier(g1, GenParams(xs, i, g), m);
      var r1 := ParamRuns(m, xs[0], i, g, env, regs, s);
      var (env1, s1) := Declare(env, xs[0], s);
      var s2 := Write(s1, Local(s.next), m.args[i]);
      assert m.args[i..][1..] == m.args[i + 1..];
      regs' := ParamsRun(m, xs[1..], i + 1, g1, env1, r1, s2);
      ComputesTrans(m, g, g1, GenParams(xs, i, g), regs, r1, regs', s, s2, BindParams(env, xs, m.args[i..], s).1);
    }
  }

  lemma {:induction false} ParamsLeaveOpen(xs: seq<string>, i: nat, g: Gen)
    requires Ready(g) && g.scope != [] && InsertOpen(g)
    ensures InsertOpen(GenParams(xs, i, g))
    decreases xs
  {
    if xs != [] {
      ParamDeclares(xs[0], i, g);
      var g1 := EmitId(g, Alloca(g.nextId));
      EmitStraight(g, Alloca(g.nextId));
      assert InsertOpen(GenParam(xs[0], i, g)) by {
        assert Get(GenParam(xs[0], i, g).code, g.insert) == Get(g1.code, g.insert) +
          [Instr.Store(Param(i), Reg(g.nextId))];
      }
      ParamsLeaveOpen(xs[1..], i + 1, GenParam(xs[0], i, g));
    }
  }

  // The global scope holds no variable of a function.
  ghost predicate GlobalOnly(scope: Scopes)
  {
    ScopeBelow(scope, 0)
  }

  ghost function Entry(s: Cminus.Store): Config
  {
    At(0, 0, map[], s)
  }

  // The machine follows a source run of a whole function.
  ghost predicate Agrees(m: Machine, c: Config, r: Outcome, fuel: nat)
  {
    match r
    case Normal(_) => false
    case Returned(v, s') => Reaches(m, c, Halted(v, s'))
    case Timeout => StillRunning(m, c, fuel)
  }

  lemma {:induction false} StartReady(scope: Scopes)
    requires GlobalOnly(scope)
    ensures
      var g := Start(scope).(scope := scope + [map[]]);
      Ready(g) && InsertOpen(g) && forall s :: Here(g, map[], s) == Entry(s)
  {
    EnterReady(Start(scope));
  }

  // Parameters and declarations lead to the first statement.
  lemma {:induction false} PrologueRuns(m: Machine, f: Function, scope: Scopes, env: Env, s: Cminus.Store)
      returns (regs': Regs)
    requires GlobalOnly(scope) && Matches(scope, env, map[]) && |m.args| == |f.params|
    requires Fits(GenDecls(f.decls, GenParams(f.params, 0, Start(scope).(scope := scope + [map[]]))), m)
    ensures
      var g := GenDecls(f.decls, GenParams(f.params, 0, Start(scope).(scope := scope + [map[]])));
      var (env1, s1) := BindParams(env + [map[]], f.params, m.args, s);
      var (env2, s2) := DeclareAll(env1, f.decls, s1);
      && Ready(g) && InsertOpen(g) && Matches(g.scope, env2, regs') && Reaches(m, Entry(s), Here(g, regs', s2))
  {
    var g0 := Start(scope).(scope := scope + [map[]]);
    StartReady(scope);
    EnterMatches(scope, env, map[]);
    ParamsDeclare(f.params, 0, g0);
    ParamsLeaveOpen(f.params, 0, g0);
    var g1 := GenParams(f.params, 0, g0);
    DeclsDeclare(f.decls, g1);
    DeclsLeaveOpen(f.decls, g1);
    var g2 := GenDecls(f.decls, g1);
    FitsEarlier(g1, g2, m);
    assert m.args[0..] == m.args;
    var r1 := ParamsRun(m, f.params, 0, g0, env + [map[]], map[], s);
    var (env1, s1) := BindParams(env + [map[]], f.params, m.args, s);
    regs' := DeclsRun(m, f.decls, g1, env1, r1, s1);
    ReachesTrans(m, Here(g0, map[], s), Here(g1, r1, s1), Here(g2, regs', DeclareAll(env1, f.decls, s1).1));
  }

  // Falling off the end of the body.
  lemma {:induction false} EpilogueRuns(m: Machine, f: Function, g: Gen, regs: Regs, s: Cminus.Store)
    requires Ready(g) && Fits(Emit(g, Ret(if f.void then None else Some(Const(0)))), m)
    ensures Reaches(m, Here(g, regs, s), Halted(if f.void then None else Some(0), s))
  {
    EmitAt(g, Ret(if f.void then None else Some(Const(0))), m);
    ReachesStep(m, Here(g, regs, s));
  }

  // The generated code of a function runs as the function does, however much fuel the source has.
  lemma {:induction false} FunctionRuns(m: Machine, f: Function, scope: Scopes, env: Env, s: Cminus.Store, fuel: nat)
    requires GlobalOnly(scope) && Matches(scope, env, map[]) && |m.args| == |f.params|
    requires m.code == GenFunction(f, scope).code
    ensures Agrees(m, Entry(s), CallFunction(m.w, env, f, m.args, s, fuel), fuel)
  {
    var g1 := GenDecls(f.decls, GenParams(f.params, 0, Start(scope).(scope := scope + [map[]])));
    var g2 := GenStmts(f.body, g1);
    BodyKeeps(f, scope);
    var ret := Ret(if f.void then None else Some(Const(0)));
    var g3 := if InsertOpen(g2) then Emit(g2, ret) else g2;
    EmitStraight(g2, ret);
    assert Fits(g3, m);
    if InsertOpen(g2) {
      FitsEarlier(g2, g3, m);
    }
    FitsEarlier(g1, g2, m);
    var r1 := PrologueRuns(m, f, scope, env, s);
    var (env1, s1) := BindParams(env + [map[]], f.params, m.args, s);
    var (env2, s2) := DeclareAll(env1, f.decls, s1);
    var r2 := StmtsRun(m, f.body, g1, env2, r1, s2, fuel);
    var r := ExecAll(m.w, env2, f.body, s2, fuel);
    FollowsAfter(m, Entry(s), Here(g1, r1, s2), g2, r2, r, fuel);
    if r.Normal? {
      EpilogueRuns(m, f, g2, r2, r.s);
      ReachesTrans(m, Entry(s), Here(g2, r2, r.s), Halted(if f.void then None else Some(0), r.s));
    }
  }

  lemma {:induction false} BodyKeeps(f: Function, scope: Scopes)
    requires GlobalOnly(scope)
    ensures
      var g1 := GenDecls(f.decls, GenParams(f.params, 0, Start(scope).(scope := scope + [map[]])));
      Ready(g1) && Keeps(g1, GenStmts(f.body, g1))
  {
    var g0 := Start(scope).(scope := scope + [map[]]);
    StartReady(scope);
    ParamsDeclare(f.params, 0, g0);
    DeclsDeclare(f.decls, GenParams(f.params, 0, g0));
    StmtsKeep(f.body, GenDecls(f.decls, GenParams(f.params, 0, g0)));
  }

  ghost predicate Halts(m: Machine, c: Config)
  {
    exists n: nat :: Run(m, c, n).Halted?
  }

  ghost predicate Ends(w: World, env: Env, f: Function, args: seq<int>, s: Cminus.Store)
    requires |args| == |f.params|
  {
    exists fuel: nat :: CallFunction(w, env, f, args, s, fuel).Returned?
  }

  lemma {:induction false} ReachesHalts(m: Machine, c: Config, v: Option<int>, s: Cminus.Store)
    requires Reaches(m, c, Halted(v, s))
    ensures Halts(m, c)
  {
    var n: nat :| Run(m, c, n) == Halted(v, s);
    assert Run(m, c, n).Halted?;
  }

  // The machine halts exactly when the source run ends, ...
  lemma {:induction false} HaltsIff(m: Machine, f: Function, scope: Scopes, env: Env, s: Cminus.Store)
    requires GlobalOnly(scope) && Matches(scope, env, map[]) && |m.args| == |f.params|
    requires m.code == GenFunction(f, scope).code
    ensures Halts(m, Entry(s)) <==> Ends(m.w, env, f, m.args, s)
  {
    if Halts(m, Entry(s)) {
      var n: nat :| Run(m, Entry(s), n).Halted?;
      FunctionRuns(m, f, scope, env, s, n + 1);
      if CallFunction(m.w, env, f, m.args, s, n + 1).Timeout? {
        var k: nat :| k >= n + 1 && Run(m, Entry(s), k).At?;
        HaltedOnce(m, Entry(s), n, k);
      }
      assert CallFunction(m.w, env, f, m.args, s, n + 1).Returned?;
    }
    if Ends(m.w, env, f, m.args, s) {
      var fuel: nat :| CallFunction(m.w, env, f, m.args, s, fuel).Returned?;
      FunctionRuns(m, f, scope, env, s, fuel);
      var r := CallFunction(m.w, env, f, m.args, s, fuel);
      ReachesHalts(m, Entry(s), r.value, r.s);
    }
  }

  // ... and then with the same value, variables and calls.
  lemma {:induction false} SameResult(m: Machine, f: Function, scope: Scopes, env: Env, s: Cminus.Store, n: nat,
      fuel: nat)
    requires GlobalOnly(scope) && Matches(scope, env, map[]) && |m.args| == |f.params|
    requires m.code == GenFunction(f, scope).code
    requires Run(m, Entry(s), n).Halted? && CallFunction(m.w, env, f, m.args, s, fuel).Returned?
    ensures Run(m, Entry(s), n).value == CallFunction(m.w, env, f, m.args, s, fuel).value
    ensures Run(m, Entry(s), n).s == CallFunction(m.w, env, f, m.args, s, fuel).s
  {
    FunctionRuns(m, f, scope, env, s, fuel);
    var r := CallFunction(m.w, env, f, m.args, s, fuel);
    var k: nat :| Run(m, Entry(s), k) == Halted(r.value, r.s);
    if n <= k {
      HaltedOnce(m, Entry(s), n, k);
    } else {
      HaltedOnce(m, Entry(s), k, n);
    }
  }

  lemma {:induction false} HaltedOnce(m: Machine, c: Config, n: nat, k: nat)
    requires Run(m, c, n).Halted? && n <= k
    ensures Run(m, c, k) == Run(m, c, n)
  {
    RunSplit(m, c, n, k - n);
    StoppedStays(m, Run(m, c, n), k - n);
  }
}
