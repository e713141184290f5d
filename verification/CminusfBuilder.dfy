// The builder: visitors that write one function through an insertion point and global flags.
module CminusfBuilder {
  import opened Graph
  import opened Cminus
  import opened Machine
  import opened Generation
  import opened Framing
  import opened ExprMeaning
  import opened StmtMeaning
  import opened FunctionMeaning
  import opened BlockShape
  import opened Programs

  // ---- Scopes ----

  // x is bound to v by frame i and by no inner frame.
  ghost predicate BoundAt<T>(frames: seq<map<string, T>>, x: string, i: nat)
  {
    i < |frames| && x in frames[i] && forall j {:trigger frames[j]} :: i < j < |frames| ==> x !in frames[j]
  }

  // Looking a name up finds its innermost binding, and nothing exactly when there is none.
  lemma {:induction false} FindInnermost<T>(frames: seq<map<string, T>>, x: string)
    ensures Find(frames, x) == None ==> forall i {:trigger frames[i]} :: 0 <= i < |frames| ==> x !in frames[i]
    ensures Find(frames, x).Some? ==> exists i: nat :: BoundAt(frames, x, i) && frames[i][x] == Find(frames, x).value
  {
    if frames != [] && x !in frames[|frames| - 1] {
      var init := frames[..|frames| - 1];
      FindInnermost(init, x);
      if Find(init, x).Some? {
        var i: nat :| BoundAt(init, x, i) && init[i][x] == Find(init, x).value;
        assert BoundAt(frames, x, i);
      }
    } else if frames != [] {
      assert BoundAt(frames, x, |frames| - 1);
    }
  }

  class Scope {
    var inner: Scopes

    constructor ()
      ensures inner == []
    {
      inner := [];
    }

    method Enter()
      modifies this
      ensures inner == old(inner) + [map[]]
    {
      inner := inner + [map[]];
    }

    method Exit()
      requires inner != []
      modifies this
      ensures inner == old(inner)[..|old(inner)| - 1]
    {
      inner := inner[..|inner| - 1];
    }

    predicate InGlobal()
      reads this
    {
      |inner| == 1
    }

    // Bind a name in the innermost scope; fails, changing nothing, if that scope binds it already.
    method PushName(name: string, val: Value) returns (success: bool)
      requires inner != []
      modifies this
      ensures inner == Push(old(inner), name, val)
      ensures success <==> name !in old(inner)[|old(inner)| - 1]
    {
      var n := |inner| - 1;
      success := name !in inner[n];
      if success {
        inner := inner[n := inner[n][name := val]];
      }
    }

    // Search from the innermost scope outwards.
    method FindName(name: string) returns (val: Option<Value>)
      ensures val == Find(inner, name)
    {
      var n := |inner|;
      assert inner[..n] == inner;
      while n > 0
        invariant 0 <= n <= |inner| && Find(inner, name) == Find(inner[..n], name)
      {
        n := n - 1;
        assert inner[..n + 1][..n] == inner[..n];
        if name in inner[n] {
          return Some(inner[n][name]);
        }
      }
      return None;
    }
  }

  // ---- Names that are looked up ----

  predicate IsVariable(scope: Scopes, x: string)
  {
    var v: Option<Value> := Find(scope, x);
    v.Some? && !v.value.Func?
  }

  predicate IsFunction(scope: Scopes, f: string)
  {
    var v: Option<Value> := Find(scope, f);
    v.Some? && v.value.Func?
  }

  // Every name an expression uses is bound, to a variable or a function as it is used.
  ghost predicate ResolvesExpr(e: Expr, scope: Scopes)
    decreases e
  {
    match e
    case Num(_) => true
    case Var(x) => IsVariable(scope, x)
    case Assign(x, e1) => IsVariable(scope, x) && ResolvesExpr(e1, scope)
    case Arith(_, l, r) => ResolvesExpr(l, scope) && ResolvesExpr(r, scope)
    case Compare(_, l, r) => ResolvesExpr(l, scope) && ResolvesExpr(r, scope)
    case Call(f, args) => IsFunction(scope, f) && ResolvesAll(args, scope)
  }

  ghost predicate ResolvesAll(es: seq<Expr>, scope: Scopes)
    decreases es
  {
    es == [] || (ResolvesExpr(es[0], scope) && ResolvesAll(es[1..], scope))
  }

  // The same for every statement that code is generated for.
  ghost predicate ResolvesStmt(t: Stmt, g: Gen)
    decreases t
  {
    match t
    case ExprStmt(e) => e.Some? ==> ResolvesExpr(e.value, g.scope)
    case Compound(decls, body) => ResolvesStmts(body, GenDecls(decls, g.(scope := g.scope + [map[]])))
    case If(c, a, b) =>
      var h := GenIfTest(c, b.Some?, g);
      && ResolvesExpr(c, g.scope) && ResolvesStmt(a, h)
      && (b.Some? ==> ResolvesStmt(b.value, BrIfOpen(GenStmt(a, h), h.insert + 2).(insert := h.insert + 1)))
    case While(c, a) => ResolvesExpr(c, g.scope) && ResolvesStmt(a, GenWhileTest(c, GenWhileStart(g)))
    case Return(e) => e.Some? ==> ResolvesExpr(e.value, g.scope)
  }

  ghost predicate ResolvesStmts(ts: seq<Stmt>, g: Gen)
    decreases ts, 0
  {
    ts == [] || (ResolvesStmt(ts[0], g) && (InsertOpen(GenStmt(ts[0], g)) ==>
      ResolvesStmts(ts[1..], GenStmt(ts[0], g))))
  }

  // The branches of a selection, whose test has led to h.
  ghost predicate ResolvesBranches(a: Stmt, b: Option<Stmt>, h: Gen)
  {
    ResolvesStmt(a, h) && (b.Some? ==> ResolvesStmt(b.value,
      BrIfOpen(GenStmt(a, h), h.insert + 2).(insert := h.insert + 1)))
  }

  ghost function GenBranches(a: Stmt, b: Option<Stmt>, h: Gen): Gen
  {
    GenElse(b, BrIfOpen(GenStmt(a, h), h.insert + 2), h.insert + 1, h.insert + 2).(insert := h.insert + 2)
  }

  lemma {:induction false} ResolvesIf(c: Expr, a: Stmt, b: Option<Stmt>, g: Gen, h: Gen)
    requires ResolvesStmt(If(c, a, b), g) && h == GenIfTest(c, b.Some?, g)
    ensures ResolvesExpr(c, g.scope) && ResolvesBranches(a, b, h) && GenStmt(If(c, a, b), g) == GenBranches(a, b, h)
  {
    IfIs(c, a, b, g, h);
  }

  lemma {:induction false} BranchesAre(a: Stmt, b: Option<Stmt>, h: Gen, fb: Block, cb: Block)
    requires ResolvesBranches(a, b, h) && fb == h.insert + 1 && cb == h.insert + 2
    ensures ResolvesStmt(a, h) && (b.Some? ==> ResolvesStmt(b.value, BrIfOpen(GenStmt(a, h), cb).(insert := fb)))
    ensures GenBranches(a, b, h) == GenElse(b, BrIfOpen(GenStmt(a, h), cb), fb, cb).(insert := cb)
  {
  }

  // ---- Programs ----

  const LIBRARY_SCOPE: Scopes := [map["input" := Func("input"), "output" := Func("output"),
    "outputFloat" := Func("outputFloat"), "neg_idx_except" := Func("neg_idx_except")]]

  ghost function ValueOf(d: Decl): Value
  {
    match d
    case VarDecl(x) => GlobalVar(x)
    case FunDecl(f) => Func(f.name)
  }

  // Every function uses only names that are bound where it is built.
  ghost predicate ResolvesProgram(ds: seq<Decl>, scope: Scopes)
    requires scope != []
    decreases |ds|
  {
    ds == [] ||
    var next := Push(scope, NameOf(ds[0]), ValueOf(ds[0]));
    (ds[0].FunDecl? ==> ResolvesStmts(ds[0].f.body, Prologue(ds[0].f, next))) && ResolvesProgram(ds[1..], next)
  }

  // The global scope after the declarations ds: names mean what these say.
  ghost predicate AtTop(ds: seq<Decl>, scope: Scopes)
  {
    |scope| == 1 && GlobalOnly(scope) && Matches(scope, [TopLevel(ds)], map[])
  }

  // g is what is generated for the last of the declarations ds, a function.
  ghost predicate Built(ds: seq<Decl>, g: Gen)
  {
    && ds != [] && ds[|ds| - 1].FunDecl?
    && AtTop(ds, g.scope) && g == GenFunction(ds[|ds| - 1].f, g.scope) && Shape(g, {})
  }

  // Every function among the first n declarations has been built.
  ghost predicate AllBuilt(ds: seq<Decl>, n: nat, built: map<nat, Gen>)
    requires n <= |ds|
  {
    && (forall k :: k in built <==> 0 <= k < n && ds[k].FunDecl?)
    && forall k :: k in built ==> Built(ds[..k + 1], built[k])
  }

  lemma LibraryMatches()
    ensures AtTop([], LIBRARY_SCOPE)
  {
    assert FrameMatches(LIBRARY_SCOPE, [TopLevel([])], map[], 0);
  }

  // One more declaration.
  lemma DeclMatches(ds: seq<Decl>, k: nat, scope: Scopes)
    requires k < |ds| && AtTop(ds[..k], scope) && ResolvesProgram(ds[k..], scope)
    ensures var next := Push(scope, NameOf(ds[k]), ValueOf(ds[k]));
      && AtTop(ds[..k + 1], next) && ResolvesProgram(ds[k + 1..], next)
      && (ds[k].FunDecl? ==> ResolvesStmts(ds[k].f.body, Prologue(ds[k].f, next)))
  {
    assert ds[..k + 1][..k] == ds[..k] && ds[k..][1..] == ds[k + 1..];
    PushMatches(scope, [TopLevel(ds[..k])], map[], NameOf(ds[k]), ValueOf(ds[k]), Declared(ds[k]));
    PushBelow(scope, NameOf(ds[k]), ValueOf(ds[k]), 0);
    assert Push([TopLevel(ds[..k])], NameOf(ds[k]), Declared(ds[k])) == [TopLevel(ds[..k + 1])];
  }

  // The machine and the source, when both have ended, have done so with the same result.
  ghost predicate EndAlike(m: Machine, ds: seq<Decl>, s: Cminus.Store, n: nat, fuel: nat)
    requires ds != [] && ds[|ds| - 1].FunDecl? && |m.args| == |ds[|ds| - 1].f.params|
  {
    var c, r := Run(m, Entry(s), n), CallFunction(m.w, [TopLevel(ds)], ds[|ds| - 1].f, m.args, s, fuel);
    c.Halted? && r.Returned? ==> c == Halted(r.value, r.s)
  }

  // A function of a program halts exactly when its source does, with the same result, if names
  // mean what the declarations up to it say.
  lemma BuiltRuns(ds: seq<Decl>, g: Gen, m: Machine, s: Cminus.Store)
    requires Built(ds, g) && m.code == g.code && |m.args| == |ds[|ds| - 1].f.params|
    ensures Halts(m, Entry(s)) <==> Ends(m.w, [TopLevel(ds)], ds[|ds| - 1].f, m.args, s)
    ensures forall n, fuel {:trigger EndAlike(m, ds, s, n, fuel)} :: EndAlike(m, ds, s, n, fuel)
  {
    var f := ds[|ds| - 1].f;
    HaltsIff(m, f, g.scope, [TopLevel(ds)], s);
    forall n: nat, fuel: nat ensures EndAlike(m, ds, s, n, fuel) {
      if Run(m, Entry(s), n).Halted? && CallFunction(m.w, [TopLevel(ds)], f, m.args, s, fuel).Returned? {
        SameResult(m, f, g.scope, [TopLevel(ds)], s, n, fuel);
      }
    }
  }

  // ---- The builder ----

  class Builder {
    var code: Code
    var order: seq<Block>
    var preds: seq<seq<Block>>
    var succs: seq<seq<Block>>
    var insert: Block
    var nextId: nat
    const scope: Scope
    var tmpVal: Value
    var requireLvalue: bool
    var preEnterScope: bool

    constructor ()
      ensures fresh(scope) && scope.inner == [map["input" := Func("input"), "output" := Func("output"),
        "outputFloat" := Func("outputFloat"), "neg_idx_except" := Func("neg_idx_except")]]
    {
      code, order, preds, succs, insert, nextId := [], [], [], [], 0, 0;
      scope := new Scope();
      tmpVal, requireLvalue, preEnterScope := Const(0), false, false;
      new;
      scope.Enter();
      var ok := scope.PushName("input", Func("input"));
      ok := scope.PushName("output", Func("output"));
      ok := scope.PushName("outputFloat", Func("outputFloat"));
      ok := scope.PushName("neg_idx_except", Func("neg_idx_except"));
    }

    // What has been built.
    ghost function State(): Gen
      reads this, scope
    {
      Gen(code, order, preds, succs, insert, nextId, scope.inner)
    }

    // ---- Instructions and blocks ----

    method AddInstruction(i: Instr)
      modifies this`code
      ensures State() == Emit(old(State()), i)
    {
      code := Append(code, insert, [i]);
    }

    // Append an instruction that has a result.
    method Create(i: Instr) returns (v: Value)
      modifies this`code, this`nextId
      ensures State() == EmitId(old(State()), i) && v == Reg(old(nextId))
    {
      v := Reg(nextId);
      AddInstruction(i);
      nextId := nextId + 1;
    }

    method CreateBlock() returns (b: Block)
      modifies this`code, this`order, this`preds, this`succs
      ensures State() == NewBlock(old(State())) && b == |old(code)|
    {
      b := |code|;
      code := code + [[]];
      order := order + [b];
      preds := preds + [[]];
      succs := succs + [[]];
    }

    method CreateBr(b: Block)
      modifies this`code, this`preds, this`succs
      ensures State() == EmitBr(old(State()), b)
      ensures |old(succs)| == |old(code)| == |old(preds)| && insert < |old(code)| && b < |old(code)| ==>
        && code == old(code)[insert := old(code)[insert] + [Br(b)]]
        && succs == old(succs)[insert := old(succs)[insert] + [b]]
        && preds == old(preds)[b := old(preds)[b] + [insert]]
    {
      preds := Append(preds, b, [insert]);
      succs := Append(succs, insert, [b]);
      AddInstruction(Br(b));
    }

    method CreateCondBr(v: Value, t: Block, f: Block)
      modifies this`code, this`preds, this`succs
      ensures State() == EmitCondBr(old(State()), v, t, f)
      ensures |old(succs)| == |old(code)| == |old(preds)| > insert && t != f && t < |old(code)| && f < |old(code)| ==>
        && code == old(code)[insert := old(code)[insert] + [CondBr(v, t, f)]]
        && succs == old(succs)[insert := old(succs)[insert] + [f, t]]
        && preds == old(preds)[t := old(preds)[t] + [insert]][f := old(preds)[f] + [insert]]
    {
      preds := Append(preds, t, [insert]);
      preds := Append(preds, f, [insert]);
      succs := Append(succs, insert, [f]);
      succs := Append(succs, insert, [t]);
      if insert < |succs| {
        assert old(succs)[insert] + [f] + [t] == old(succs)[insert] + [f, t];
      }
      AddInstruction(CondBr(v, t, f));
    }

    method CreateBrUnlessEnded(b: Block)
      modifies this`code, this`preds, this`succs
      ensures State() == BrIfOpen(old(State()), b)
    {
      if Open(code, insert) {
        CreateBr(b);
      }
    }

    // ---- Expressions ----

    // The value of an expression is left in tmpVal.
    method VisitExpr(e: Expr)
      requires ResolvesExpr(e, scope.inner) && !requireLvalue
      modifies this`code, this`nextId, this`tmpVal, this`requireLvalue
      ensures State() == GenExpr(e, old(State())).0 && tmpVal == GenExpr(e, old(State())).1
      ensures !requireLvalue
      decreases e
    {
      match e
      case Num(n) =>
        tmpVal := Const(n);
      case Var(x) =>
        VisitVar(x);
      case Assign(x, e1) =>
        VisitExpr(e1);
        var exprResult := tmpVal;
        requireLvalue := true;
        VisitVar(x);
        AddInstruction(Instr.Store(exprResult, tmpVal));
        tmpVal := exprResult;
      case Arith(op, l, r) =>
        VisitExpr(l);
        var lVal := tmpVal;
        VisitExpr(r);
        var rVal := tmpVal;
        tmpVal := Create(IArith(nextId, op, lVal, rVal));
      case Compare(op, l, r) =>
        VisitExpr(l);
        var lVal := tmpVal;
        VisitExpr(r);
        var rVal := tmpVal;
        var cmp := Create(ICmp(nextId, op, lVal, rVal));
        tmpVal := Create(Zext(nextId, cmp));
      case Call(f, args) =>
        var fun := scope.FindName(f);
        var vals := VisitArgs(args);
        tmpVal := Create(CallTo(nextId, fun.value.name, vals));
    }

    // A variable: its address where one is asked for, and otherwise its value.
    method VisitVar(x: string)
      requires IsVariable(scope.inner, x)
      modifies this`code, this`nextId, this`tmpVal, this`requireLvalue
      ensures old(requireLvalue) ==> State() == old(State()) && tmpVal == VariableOf(scope.inner, x)
      ensures !old(requireLvalue) ==>
        State() == GenExpr(Var(x), old(State())).0 && tmpVal == GenExpr(Var(x), old(State())).1
      ensures !requireLvalue
    {
      var v := scope.FindName(x);
      var shouldReturnLvalue := requireLvalue;
      requireLvalue := false;
      if shouldReturnLvalue {
        tmpVal := v.value;
      } else {
        tmpVal := Create(Load(nextId, v.value));
      }
    }

    method VisitArgs(args: seq<Expr>) returns (vals: seq<Value>)
      requires ResolvesAll(args, scope.inner) && !requireLvalue
      modifies this`code, this`nextId, this`tmpVal, this`requireLvalue
      ensures State() == GenAll(args, old(State())).0 && vals == GenAll(args, old(State())).1
      ensures !requireLvalue
      decreases args
    {
      if args == [] {
        return [];
      }
      VisitExpr(args[0]);
      var first := tmpVal;
      var rest := VisitArgs(args[1..]);
      return [first] + rest;
    }

    // ---- Statements ----

    // Inside a function, ready for the next statement.
    ghost predicate Generating()
      reads this, scope
    {
      !requireLvalue && !preEnterScope && Ready(State()) && |scope.inner| > 1
    }

    // A declaration: outside of functions a global variable, and inside an address for the variable. The
    // name is bound to it unless the scope has one of that name.
    method VisitDeclaration(x: string)
      requires scope.inner != []
      modifies this`code, this`nextId, scope
      ensures |old(scope.inner)| == 1 ==>
        State() == old(State()).(scope := Push(old(scope.inner), x, GlobalVar(x)))
      ensures |old(scope.inner)| > 1 ==> State() == GenDecl(x, old(State()))
    {
      if scope.InGlobal() {
        var ok := scope.PushName(x, GlobalVar(x));
      } else {
        var v := Create(Alloca(nextId));
        var ok := scope.PushName(x, v);
      }
    }

    method VisitDeclarations(xs: seq<string>)
      requires |scope.inner| > 1
      modifies this`code, this`nextId, scope
      ensures State() == GenDecls(xs, old(State()))
    {
      for k := 0 to |xs|
        invariant |scope.inner| > 1 && GenDecls(xs, old(State())) == GenDecls(xs[k..], State())
      {
        assert xs[k..][0] == xs[k] && xs[k..][1..] == xs[k + 1..];
        VisitDeclaration(xs[k]);
      }
    }

    method VisitStmt(t: Stmt)
      requires ResolvesStmt(t, State()) && Generating()
      modifies this, scope
      ensures State() == GenStmt(t, old(State())) && !requireLvalue && !preEnterScope
      decreases t, 0
    {
      match t
      case ExprStmt(e) =>
        if e.Some? {
          VisitExpr(e.value);
        }
      case Compound(decls, body) =>
        VisitCompound(decls, body);
      case If(c, a, b) =>
        VisitSelection(c, a, b);
      case While(c, a) =>
        VisitIteration(c, a);
      case Return(e) =>
        if e.None? {
          AddInstruction(Ret(None));
        } else {
          VisitExpr(e.value);
          AddInstruction(Ret(Some(tmpVal)));
        }
    }

    // Statements until one ends the block.
    method VisitStmts(ts: seq<Stmt>)
      requires ResolvesStmts(ts, State()) && Generating()
      modifies this, scope
      ensures State() == GenStmts(ts, old(State())) && !requireLvalue && !preEnterScope
      decreases ts, 0
    {
      if ts != [] {
        StmtKeeps(ts[0], State());
        VisitStmt(ts[0]);
        if Open(code, insert) {
          VisitStmts(ts[1..]);
        }
      }
    }

    // A compound statement has a scope of its own, unless it is the body of a function, whose scope
    // has been entered already.
    method VisitCompound(decls: seq<string>, body: seq<Stmt>)
      requires |scope.inner| > if preEnterScope then 1 else 0
      requires
        var g := if preEnterScope then State() else State().(scope := scope.inner + [map[]]);
        Ready(State()) && g.scope != [] && ResolvesStmts(body, GenDecls(decls, g))
      requires !requireLvalue
      modifies this, scope
      ensures old(preEnterScope) ==> State() == GenStmts(body, GenDecls(decls, old(State())))
      ensures !old(preEnterScope) ==> State() == GenCompound(decls, body, old(State()))
      ensures !requireLvalue && !preEnterScope
      decreases body, 1
    {
      ghost var g := State();
      var needExitScope := !preEnterScope;
      if preEnterScope {
        preEnterScope := false;
      } else {
        EnterReady(State());
        scope.Enter();
      }
      DeclsDeclare(decls, State());
      VisitDeclarations(decls);
      StmtsKeep(body, State());
      DeclsInner(decls, if needExitScope then g.(scope := g.scope + [map[]]) else g);
      VisitStmts(body);
      if needExitScope {
        scope.Exit();
      }
    }

    // Compare a value with zero and jump.
    method CreateTest(v: Value, t: Block, f: Block)
      modifies this`code, this`preds, this`succs, this`nextId
      ensures State() == GenTest(old(State()), v, t, f)
    {
      var condVal := Create(ICmp(nextId, Neq, v, Const(0)));
      CreateCondBr(condVal, t, f);
    }

    method CreateThreeBlocks() returns (a: Block, b: Block, c: Block)
      modifies this`code, this`order, this`preds, this`succs
      ensures State() == NewBlock(NewBlock(NewBlock(old(State()))))
      ensures a == |old(code)| && b == a + 1 && c == a + 2
    {
      a := CreateBlock();
      b := CreateBlock();
      c := CreateBlock();
    }

    // The condition of an if, its three blocks, and the jump to one of them.
    method VisitIfTest(c: Expr, hasElse: bool) returns (falseBB: Block, contBB: Block)
      requires ResolvesExpr(c, scope.inner) && !requireLvalue && !preEnterScope && Ready(State())
      modifies this`code, this`order, this`preds, this`succs, this`insert, this`nextId, this`tmpVal, this`requireLvalue
      ensures State() == GenIfTest(c, hasElse, old(State())) && !requireLvalue && Ready(State())
      ensures falseBB == insert + 1 < |code| && contBB == insert + 2
    {
      IfTestReady(c, hasElse, State());
      VisitExpr(c);
      var retVal := tmpVal;
      var trueBB;
      trueBB, falseBB, contBB := CreateThreeBlocks();
      CreateTest(retVal, trueBB, if hasElse then falseBB else contBB);
      insert := trueBB;
    }

    // A branch, and a jump behind the whole statement if it does not end its block.
    method VisitBranch(a: Stmt, next: Block)
      requires ResolvesStmt(a, State()) && Generating()
      modifies this, scope
      ensures State() == BrIfOpen(GenStmt(a, old(State())), next) && Generating() && |old(code)| <= |code|
      decreases a, 1
    {
      StmtKeeps(a, State());
      VisitStmt(a);
      BrFrames(State(), next);
      CreateBrUnlessEnded(next);
    }

    method VisitSelection(c: Expr, a: Stmt, b: Option<Stmt>)
      requires ResolvesStmt(If(c, a, b), State()) && Generating()
      modifies this, scope
      ensures State() == GenStmt(If(c, a, b), old(State())) && !requireLvalue && !preEnterScope
      decreases If(c, a, b), 0, 1
    {
      ghost var g, h := State(), GenIfTest(c, b.Some?, State());
      ResolvesIf(c, a, b, g, h);
      var falseBB, contBB := VisitIfTest(c, b.Some?);
      VisitBranches(c, a, b, falseBB, contBB);
    }

    // Both branches, and on to the block behind them.
    method VisitBranches(c: Expr, a: Stmt, b: Option<Stmt>, falseBB: Block, contBB: Block)
      requires Generating() && falseBB == insert + 1 < |code| && contBB == insert + 2
      requires ResolvesBranches(a, b, State())
      modifies this, scope
      ensures State() == GenBranches(a, b, old(State()))
      ensures !requireLvalue && !preEnterScope
      decreases If(c, a, b), 0, 0
    {
      BranchesAre(a, b, State(), falseBB, contBB);
      VisitBranch(a, contBB);
      VisitElse(b, falseBB, contBB);
      insert := contBB;
    }

    // The other branch, or its block is taken out of the function.
    method VisitElse(b: Option<Stmt>, falseBB: Block, contBB: Block)
      requires b.Some? ==> ResolvesStmt(b.value, State().(insert := falseBB))
      requires Generating() && falseBB < |code|
      modifies this, scope
      ensures State() == GenElse(b, old(State()), falseBB, contBB) && !requireLvalue && !preEnterScope
      decreases b
    {
      if b.None? {
        order := Remove(order, falseBB);
      } else {
        insert := falseBB;
        VisitBranch(b.value, contBB);
      }
    }

    // A block for the condition of a loop, which the open block leads to.
    method VisitWhileStart() returns (exprBB: Block)
      requires Ready(State())
      modifies this`code, this`order, this`preds, this`succs, this`insert
      ensures State() == GenWhileStart(old(State())) && exprBB == |old(code)| && Ready(State())
    {
      WhileStartKeeps(State());
      exprBB := CreateBlock();
      CreateBrUnlessEnded(exprBB);
      insert := exprBB;
    }

    method VisitWhileTest(c: Expr) returns (contBB: Block)
      requires ResolvesExpr(c, scope.inner) && !requireLvalue && !preEnterScope && Ready(State())
      modifies this`code, this`order, this`preds, this`succs, this`insert, this`nextId, this`tmpVal, this`requireLvalue
      ensures State() == GenWhileTest(c, old(State())) && !requireLvalue && Ready(State()) && contBB == insert + 1
    {
      WhileTestKeeps(c, State());
      VisitExpr(c);
      var retVal := tmpVal;
      var trueBB := CreateBlock();
      contBB := CreateBlock();
      CreateTest(retVal, trueBB, contBB);
      insert := trueBB;
    }

    method VisitIteration(c: Expr, a: Stmt)
      requires ResolvesStmt(While(c, a), State()) && Generating()
      modifies this, scope
      ensures State() == GenStmt(While(c, a), old(State())) && !requireLvalue && !preEnterScope
      decreases While(c, a), 0, 0
    {
      var exprBB := VisitWhileStart();
      var contBB := VisitWhileTest(c);
      VisitBranch(a, exprBB);
      insert := contBB;
    }

    // ---- Functions ----

    // The scope a function is built in: the global one, which holds the function itself.
    ghost function GlobalWith(f: Function, outer: Scopes): Scopes
      requires outer != []
    {
      Push(outer, f.name, Func(f.name))
    }

    method VisitParams(params: seq<string>)
      requires scope.inner != []
      modifies this`code, this`nextId, scope
      ensures State() == GenParams(params, 0, old(State()))
    {
      for i := 0 to |params|
        invariant scope.inner != [] && GenParams(params, 0, old(State())) == GenParams(params[i..], i, State())
      {
        assert params[i..][0] == params[i] && params[i..][1..] == params[i + 1..];
        var alloc := Create(Alloca(nextId));
        AddInstruction(Instr.Store(Param(i), alloc));
        var ok := scope.PushName(params[i], alloc);
      }
    }

    // A function declaration. What is built runs as the function does, and is well formed. The function's
    // name is bound to it while it is built and afterwards, unless it was bound before; all other names
    // are bound as they were.
    method VisitFunction(f: Function)
      requires |scope.inner| == 1 && GlobalOnly(scope.inner) && !requireLvalue && !preEnterScope
      requires ResolvesStmts(f.body, Prologue(f, GlobalWith(f, scope.inner)))
      modifies this, scope
      ensures State() == GenFunction(f, GlobalWith(f, old(scope.inner)))
      ensures Shape(State(), {}) && scope.inner == GlobalWith(f, old(scope.inner)) && GlobalOnly(scope.inner)
      ensures !requireLvalue && !preEnterScope
      ensures State() == GenFunction(f, scope.inner) && |scope.inner| == 1
      ensures forall x :: x in scope.inner[0] <==> x in old(scope.inner)[0] || x == f.name
      ensures forall x :: x in old(scope.inner)[0] ==> scope.inner[0][x] == old(scope.inner)[0][x]
      ensures f.name !in old(scope.inner)[0] ==> scope.inner[0][f.name] == Func(f.name)
    {
      ghost var outer := GlobalWith(f, scope.inner);
      PushBelow(scope.inner, f.name, Func(f.name), 0);
      var ok := scope.PushName(f.name, Func(f.name));
      code, order, preds, succs, insert, nextId := [], [], [], [], 0, 0;
      insert := CreateBlock();
      scope.Enter();
      preEnterScope := true;
      StartReady(outer);
      ghost var g0 := State();
      assert g0 == Start(outer).(scope := outer + [map[]]);
      ParamsDeclare(f.params, 0, g0);
      VisitParams(f.params);
      VisitCompound(f.decls, f.body);
      FinishFunction(f, outer);
    }

    // Return by default at the end of the last block, and leave the scope.
    method FinishFunction(f: Function, ghost outer: Scopes)
      requires GlobalOnly(outer) && State() == GenStmts(f.body, Prologue(f, outer))
      modifies this, scope
      ensures State() == GenFunction(f, outer) && Shape(State(), {}) && scope.inner == outer
      ensures old(insert < |code| && Open(code, insert)) ==>
        code == old(code[insert := code[insert] + [Ret(if f.void then None else Some(Const(0)))]])
      ensures requireLvalue == old(requireLvalue) && preEnterScope == old(preEnterScope)
    {
      BodyKeeps(f, outer);
      PrologueScope(f, outer);
      FunctionShape(f, outer);
      if Open(code, insert) {
        if f.void {
          AddInstruction(Ret(None));
        } else {
          AddInstruction(Ret(Some(Const(0))));
        }
      }
      scope.Exit();
    }

    // Before the declaration ds[k], all before it having been visited.
    ghost predicate Declaring(ds: seq<Decl>, k: nat)
      requires k <= |ds|
      reads this, scope
    {
      !requireLvalue && !preEnterScope && AtTop(ds[..k], scope.inner) && ResolvesProgram(ds[k..], scope.inner)
    }

    // One declaration of a program.
    method VisitDecl(ds: seq<Decl>, k: nat) returns (g: Option<Gen>)
      requires k < |ds| && Declaring(ds, k)
      modifies this, scope
      ensures Declaring(ds, k + 1) && (g.Some? <==> ds[k].FunDecl?) && (g.Some? ==> Built(ds[..k + 1], g.value))
    {
      DeclMatches(ds, k, scope.inner);
      match ds[k]
      case VarDecl(x) =>
        VisitDeclaration(x);
        g := None;
      case FunDecl(f) =>
        VisitFunction(f);
        assert ds[..k + 1][k] == ds[k];
        g := Some(Gen(code, order, preds, succs, insert, nextId, scope.inner));
    }

    // A whole program. Each function is built where names mean what the declarations up to it say.
    method VisitProgram(ds: seq<Decl>) returns (built: map<nat, Gen>)
      requires scope.inner == LIBRARY_SCOPE && !requireLvalue && !preEnterScope
      requires ResolvesProgram(ds, scope.inner)
      modifies this, scope
      ensures AtTop(ds, scope.inner) && AllBuilt(ds, |ds|, built)
    {
      built := map[];
      LibraryMatches();
      assert ds[0..] == ds && ds[..0] == [];
      for k := 0 to |ds|
        invariant Declaring(ds, k) && AllBuilt(ds, k, built)
      {
        var g := VisitDecl(ds, k);
        if g.Some? {
          built := built[k := g.value];
        }
      }
      assert ds[..|ds|] == ds;
    }

    // Nothing outside the function's own scope changes while it is built.
    lemma PrologueScope(f: Function, outer: Scopes)
      ensures |Prologue(f, outer).scope| == |outer| + 1 && Prologue(f, outer).scope[..|outer|] == outer
    {
      var g0 := Start(outer).(scope := outer + [map[]]);
      ParamsInner(f.params, 0, g0);
      DeclsInner(f.decls, GenParams(f.params, 0, g0));
    }

    lemma {:induction false} ParamsInner(xs: seq<string>, i: nat, g: Gen)
      requires g.scope != []
      ensures |GenParams(xs, i, g).scope| == |g.scope| &&
        GenParams(xs, i, g).scope[..|g.scope| - 1] == g.scope[..|g.scope| - 1]
      decreases xs
    {
      if xs != [] {
        ParamsInner(xs[1..], i + 1, GenParam(xs[0], i, g));
      }
    }
  }
}
