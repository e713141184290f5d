// The generated code of an expression computes its value.
module ExprMeaning {
  import opened Cminus
  import opened Machine
  import opened Generation
  import opened Framing

  // A value of the scope stands for the same as a binding of the environment.
  ghost predicate Binds(v: Value, b: Binding, regs: Regs)
  {
    match v
    case Func(f) => b == Callee(f)
    case GlobalVar(x) => b == Variable(Global(x))
    case Reg(id) => id in regs && b == Variable(Local(regs[id]))
    case _ => false
  }

  ghost predicate BindsAt(f: map<string, Value>, e: map<string, Binding>, regs: Regs, x: string)
  {
    (x in f <==> x in e) && (x in f && x in e ==> Binds(f[x], e[x], regs))
  }

  ghost predicate FrameMatches(scope: Scopes, env: Env, regs: Regs, i: nat)
    requires i < |scope| && i < |env|
  {
    forall x {:trigger BindsAt(scope[i], env[i], regs, x)} :: BindsAt(scope[i], env[i], regs, x)
  }

  // Scopes and environment agree name by name, the variables' addresses being in registers.
  ghost predicate Matches(scope: Scopes, env: Env, regs: Regs)
  {
    |scope| == |env| && forall i {:trigger FrameMatches(scope, env, regs, i)} :: 0 <= i < |scope| ==>
      FrameMatches(scope, env, regs, i)
  }

  lemma {:induction false} FindMatches(scope: Scopes, env: Env, regs: Regs, x: string)
    requires Matches(scope, env, regs)
    ensures Find<Value>(scope, x).Some? <==> Find<Binding>(env, x).Some?
    ensures Find<Value>(scope, x).Some? ==> Binds(Find<Value>(scope, x).value, Find<Binding>(env, x).value, regs)
    decreases |scope|
  {
    if scope != [] {
      var n := |scope| - 1;
      assert FrameMatches(scope, env, regs, n) && BindsAt(scope[n], env[n], regs, x);
      InnerMatches(scope, env, regs, n);
      FindMatches(scope[..n], env[..n], regs, x);
    }
  }

  lemma {:induction false} InnerMatches(scope: Scopes, env: Env, regs: Regs, n: nat)
    requires Matches(scope, env, regs) && n <= |scope|
    ensures Matches(scope[..n], env[..n], regs)
  {
    forall i | 0 <= i < n ensures FrameMatches(scope[..n], env[..n], regs, i) {
      assert FrameMatches(scope, env, regs, i);
      forall x ensures BindsAt(scope[..n][i], env[..n][i], regs, x) {
        assert BindsAt(scope[i], env[i], regs, x);
      }
    }
  }

  lemma {:induction false} PlaceMatches(m: Machine, scope: Scopes, env: Env, regs: Regs, x: string)
    requires Matches(scope, env, regs)
    ensures Place(m.args, VariableOf(scope, x), regs) == PlaceOf(env, x)
    ensures FunctionOf(scope, x) == CalleeOf(env, x)
  {
    FindMatches(scope, env, regs, x);
  }

  // Registers below n are the same.
  ghost predicate Agree(r: Regs, r': Regs, n: nat)
  {
    forall id: nat {:trigger SameReg(r, r', id)} :: id < n ==> SameReg(r, r', id)
  }

  ghost predicate SameReg(r: Regs, r': Regs, id: nat)
  {
    (id in r <==> id in r') && (id in r && id in r' ==> r[id] == r'[id])
  }

  lemma {:induction false} AgreeSet(r: Regs, n: nat, id: nat, v: int)
    requires n <= id
    ensures Agree(r, r[id := v], n)
  {
  }

  lemma {:induction false} AgreeTrans(a: Regs, b: Regs, c: Regs, n: nat, m: nat)
    requires Agree(a, b, n) && Agree(b, c, m) && n <= m
    ensures Agree(a, c, n)
  {
    forall id: nat | id < n ensures SameReg(a, c, id) {
      assert SameReg(a, b, id) && SameReg(b, c, id);
    }
  }

  lemma {:induction false} ValAgrees(m: Machine, v: Value, r: Regs, r': Regs, n: nat)
    requires Agree(r, r', n) && ValueBelow(v, n)
    ensures Val(m.args, v, r) == Val(m.args, v, r')
  {
    if v.Reg? {
      assert SameReg(r, r', v.id);
    }
  }

  lemma {:induction false} MatchesAgree(scope: Scopes, env: Env, r: Regs, r': Regs, n: nat)
    requires Matches(scope, env, r) && ScopeBelow(scope, n) && Agree(r, r', n)
    ensures Matches(scope, env, r')
  {
    forall i | 0 <= i < |scope| ensures FrameMatches(scope, env, r', i) {
      assert FrameMatches(scope, env, r, i) && FrameBelow(scope[i], n);
      forall x ensures BindsAt(scope[i], env[i], r', x) {
        assert BindsAt(scope[i], env[i], r, x);
        if x in scope[i] && scope[i][x].Reg? {
          assert ValueBelow(scope[i][x], n);
          assert SameReg(r, r', scope[i][x].id);
        }
      }
    }
  }

  // The machine is about to run whatever is generated next.
  ghost function Here(g: Gen, regs: Regs, s: Cminus.Store): Config
  {
    At(g.insert, |Get(g.code, g.insert)|, regs, s)
  }

  // The machine runs a program that what has been generated is part of.
  ghost predicate Fits(g: Gen, m: Machine)
  {
    Extends(g.code, m.code)
  }

  lemma {:induction false} FitsEarlier(g: Gen, g': Gen, m: Machine)
    requires Frames(g, g') && Fits(g', m)
    ensures Fits(g, m)
  {
    ExtendsTrans(g.code, g'.code, m.code);
  }

  // The instruction emitted is the one the machine runs next.
  lemma {:induction false} EmitAt(g: Gen, i: Instr, m: Machine)
    requires Ready(g) && Fits(Emit(g, i), m)
    ensures |Get(g.code, g.insert)| < |Get(m.code, g.insert)| && Get(m.code, g.insert)[|Get(g.code, g.insert)|] == i
    ensures |Get(Emit(g, i).code, g.insert)| == |Get(g.code, g.insert)| + 1 && Fits(g, m)
  {
    EmitStraight(g, i);
    FitsEarlier(g, Emit(g, i), m);
    assert Get(Emit(g, i).code, g.insert) <= Get(m.code, g.insert);
    assert Get(Emit(g, i).code, g.insert)[|Get(g.code, g.insert)|] == i;
  }

  // Instruction i, the next one with a result, yields v and leaves s'.
  ghost predicate Yields(m: Machine, g: Gen, i: Instr, regs: Regs, s: Cminus.Store, v: int, s': Cminus.Store)
  {
    match i
    case Load(id, p) => id == g.nextId && v == Read(m.w, s, Place(m.args, p, regs)) && s' == s
    case IArith(id, op, a, b) => id == g.nextId && v == m.w.arith(op, Val(m.args, a, regs), Val(m.args, b, regs)) &&
      s' == s
    case ICmp(id, op, a, b) => id == g.nextId &&
      v == (if Test(op, Val(m.args, a, regs), Val(m.args, b, regs)) then 1 else 0) && s' == s
    case Zext(id, a) => id == g.nextId && v == Val(m.args, a, regs) && s' == s
    case CallTo(id, f, vs) => id == g.nextId && (v, s') == Ask(m.w, f, Vals(m.args, vs, regs), s)
    case Alloca(id) => id == g.nextId && v == s.next && s' == s.(next := s.next + 1)
    case _ => false
  }

  // One emitted instruction with a result runs.
  lemma {:induction false} EmitIdRuns(g: Gen, i: Instr, m: Machine, regs: Regs, s: Cminus.Store, v: int,
      s': Cminus.Store)
    requires Ready(g) && Fits(EmitId(g, i), m) && Yields(m, g, i, regs, s, v, s')
    ensures Reaches(m, Here(g, regs, s), Here(EmitId(g, i), regs[g.nextId := v], s')) &&
      Agree(regs, regs[g.nextId := v], g.nextId)
    ensures Fits(g, m)
  {
    EmitAt(g, i, m);
    ReachesStep(m, Here(g, regs, s));
    AgreeSet(regs, g.nextId, g.nextId, v);
  }

  // What an expression's code does, started anywhere the variables are where they should be.
  ghost predicate Computes(m: Machine, g: Gen, g': Gen, regs: Regs, regs': Regs, s: Cminus.Store, s': Cminus.Store)
  {
    Reaches(m, Here(g, regs, s), Here(g', regs', s')) && Agree(regs, regs', g.nextId)
  }

  lemma {:induction false} ComputesTrans(m: Machine, a: Gen, b: Gen, c: Gen, r0: Regs, r1: Regs, r2: Regs,
      s0: Cminus.Store, s1: Cminus.Store, s2: Cminus.Store)
    requires Computes(m, a, b, r0, r1, s0, s1) && Computes(m, b, c, r1, r2, s1, s2) && a.nextId <= b.nextId
    ensures Computes(m, a, c, r0, r2, s0, s2)
  {
    ReachesTrans(m, Here(a, r0, s0), Here(b, r1, s1), Here(c, r2, s2));
    AgreeTrans(r0, r1, r2, a.nextId, b.nextId);
  }

  // The code of an expression leaves its value and its effects.
  lemma {:induction false} ExprRuns(m: Machine, e: Expr, g: Gen, env: Env, regs: Regs, s: Cminus.Store)
      returns (regs': Regs)
    requires Ready(g) && Matches(g.scope, env, regs) && Fits(GenExpr(e, g).0, m)
    ensures Computes(m, g, GenExpr(e, g).0, regs, regs', s, Eval(m.w, env, e, s).1)
    ensures Val(m.args, GenExpr(e, g).1, regs') == Eval(m.w, env, e, s).0
    decreases e
  {
    ExprStraight(e, g);
    match e
    case Num(n) =>
      regs' := regs;
      ReachesSelf(m, Here(g, regs, s));
    case Var(x) =>
      var i := Load(g.nextId, VariableOf(g.scope, x));
      var v := Read(m.w, s, PlaceOf(env, x));
      PlaceMatches(m, g.scope, env, regs, x);
      EmitIdRuns(g, i, m, regs, s, v, s);
      regs' := regs[g.nextId := v];
    case Assign(x, e1) =>
      regs' := AssignRuns(m, x, e1, g, env, regs, s);
    case Arith(op, l, r) =>
      var (g1, a) := GenExpr(l, g);
      var (g2, b) := GenExpr(r, g1);
      var r2 := PairRuns(m, l, r, g, env, regs, s, e);
      var (x, s1) := Eval(m.w, env, l, s);
      var (y, s2) := Eval(m.w, env, r, s1);
      EmitIdRuns(g2, IArith(g2.nextId, op, a, b), m, r2, s2, m.w.arith(op, x, y), s2);
      regs' := r2[g2.nextId := m.w.arith(op, x, y)];
      ComputesTrans(m, g, g2, GenExpr(e, g).0, regs, r2, regs', s, s2, s2);
    case Compare(op, l, r) =>
      regs' := CompareRuns(m, op, l, r, g, env, regs, s);
    case Call(f, args) =>
      AllStraight(args, g);
      var (g1, vs) := GenAll(args, g);
      var i := CallTo(g1.nextId, FunctionOf(g1.scope, f), vs);
      EmitStraight(g1, i);
      FitsEarlier(g1, EmitId(g1, i), m);
      var r1 := AllRun(m, args, g, env, regs, s);
      var (xs, s1) := EvalAll(m.w, env, args, s);
      var (v, s2) := Ask(m.w, CalleeOf(env, f), xs, s1);
      PlaceMatches(m, g.scope, env, regs, f);
      EmitIdRuns(g1, i, m, r1, s1, v, s2);
      regs' := r1[g1.nextId := v];
      ComputesTrans(m, g, g1, GenExpr(e, g).0, regs, r1, regs', s, s1, s2);
  }

  lemma {:induction false} AssignRuns(m: Machine, x: string, e: Expr, g: Gen, env: Env, regs: Regs, s: Cminus.Store)
      returns (regs': Regs)
    requires Ready(g) && Matches(g.scope, env, regs) && Fits(GenExpr(Assign(x, e), g).0, m)
    ensures Computes(m, g, GenExpr(Assign(x, e), g).0, regs, regs', s, Eval(m.w, env, Assign(x, e), s).1)
    ensures Val(m.args, GenExpr(Assign(x, e), g).1, regs') == Eval(m.w, env, Assign(x, e), s).0
    decreases Assign(x, e), 1
  {
    ExprStraight(e, g);
    var (g1, v) := GenExpr(e, g);
    var i := Instr.Store(v, VariableOf(g1.scope, x));
    EmitAt(g1, i, m);
    regs' := ExprRuns(m, e, g, env, regs, s);
    var s1 := Eval(m.w, env, e, s).1;
    MatchesAgree(g.scope, env, regs, regs', g.nextId);
    PlaceMatches(m, g.scope, env, regs', x);
    ReachesStep(m, Here(g1, regs', s1));
    ReachesTrans(m, Here(g, regs, s), Here(g1, regs', s1), Here(Emit(g1, i), regs', Eval(m.w, env, Assign(x, e), s).1));
  }

  // Two operands, left to right: the left one's register survives the right one's code.
  lemma {:induction false} PairRuns(m: Machine, l: Expr, r: Expr, g: Gen, env: Env, regs: Regs, s: Cminus.Store,
      e: Expr) returns (r2: Regs)
    requires Ready(g) && Matches(g.scope, env, regs) && l < e && r < e
    requires Fits(GenExpr(r, GenExpr(l, g).0).0, m)
    ensures Computes(m, g, GenExpr(r, GenExpr(l, g).0).0, regs, r2, s, Eval(m.w, env, r, Eval(m.w, env, l, s).1).1)
    ensures Val(m.args, GenExpr(l, g).1, r2) == Eval(m.w, env, l, s).0
    ensures Val(m.args, GenExpr(r, GenExpr(l, g).0).1, r2) == Eval(m.w, env, r, Eval(m.w, env, l, s).1).0
    ensures Straight(g, GenExpr(r, GenExpr(l, g).0).0)
    decreases e, 0
  {
    var (g1, a) := GenExpr(l, g);
    var (g2, b) := GenExpr(r, g1);
    ExprStraight(l, g);
    ExprStraight(r, g1);
    StraightTrans(g, g1, g2);
    FitsEarlier(g1, g2, m);
    var r1 := ExprRuns(m, l, g, env, regs, s);
    var s1 := Eval(m.w, env, l, s).1;
    MatchesAgree(g.scope, env, regs, r1, g.nextId);
    r2 := ExprRuns(m, r, g1, env, r1, s1);
    ComputesTrans(m, g, g1, g2, regs, r1, r2, s, s1, Eval(m.w, env, r, s1).1);
    ValAgrees(m, a, r1, r2, g1.nextId);
  }

  lemma {:induction false} CompareRuns(m: Machine, op: CmpOp, l: Expr, r: Expr, g: Gen, env: Env, regs: Regs,
      s: Cminus.Store) returns (regs': Regs)
    requires Ready(g) && Matches(g.scope, env, regs) && Fits(GenExpr(Compare(op, l, r), g).0, m)
    ensures Computes(m, g, GenExpr(Compare(op, l, r), g).0, regs, regs', s, Eval(m.w, env, Compare(op, l, r), s).1)
    ensures Val(m.args, GenExpr(Compare(op, l, r), g).1, regs') == Eval(m.w, env, Compare(op, l, r), s).0
    decreases Compare(op, l, r), 1
  {
    var (g1, a) := GenExpr(l, g);
    var (g2, b) := GenExpr(r, g1);
    ExprStraight(l, g);
    ExprStraight(r, g1);
    var i := ICmp(g2.nextId, op, a, b);
    EmitStraight(g2, i);
    var g3 := EmitId(g2, i);
    var j := Zext(g3.nextId, Reg(g2.nextId));
    EmitStraight(g3, j);
    FitsEarlier(g3, EmitId(g3, j), m);
    FitsEarlier(g2, g3, m);
    var r2 := PairRuns(m, l, r, g, env, regs, s, Compare(op, l, r));
    var (x, s1) := Eval(m.w, env, l, s);
    var (y, s2) := Eval(m.w, env, r, s1);
    var v := if Test(op, x, y) then 1 else 0;
    EmitIdRuns(g2, i, m, r2, s2, v, s2);
    var r3 := r2[g2.nextId := v];
    EmitIdRuns(g3, j, m, r3, s2, v, s2);
    regs' := r3[g3.nextId := v];
    ComputesTrans(m, g, g2, g3, regs, r2, r3, s, s2, s2);
    ComputesTrans(m, g, g3, EmitId(g3, j), regs, r3, regs', s, s2, s2);
  }

  lemma {:induction false} AllRun(m: Machine, es: seq<Expr>, g: Gen, env: Env, regs: Regs, s: Cminus.Store)
      returns (regs': Regs)
    requires Ready(g) && Matches(g.scope, env, regs) && Fits(GenAll(es, g).0, m)
    ensures Computes(m, g, GenAll(es, g).0, regs, regs', s, EvalAll(m.w, env, es, s).1)
    ensures Vals(m.args, GenAll(es, g).1, regs') == EvalAll(m.w, env, es, s).0
    decreases es
  {
    if es == [] {
      regs' := regs;
      ReachesSelf(m, Here(g, regs, s));
    } else {
      var (g1, v) := GenExpr(es[0], g);
      ExprStraight(es[0], g);
      AllStraight(es[1..], g1);
      var (g2, vs) := GenAll(es[1..], g1);
      FitsEarlier(g1, g2, m);
      var r1 := ExprRuns(m, es[0], g, env, regs, s);
      var (x, s1) := Eval(m.w, env, es[0], s);
      MatchesAgree(g.scope, env, regs, r1, g.nextId);
      regs' := AllRun(m, es[1..], g1, env, r1, s1);
      var (xs, s2) := EvalAll(m.w, env, es[1..], s1);
      ComputesTrans(m, g, g1, g2, regs, r1, regs', s, s1, s2);
      ValAgrees(m, v, r1, regs', g1.nextId);
      assert GenAll(es, g) == (g2, [v] + vs) && EvalAll(m.w, env, es, s) == ([x] + xs, s2);
    }
  }
}
