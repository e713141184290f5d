// Where the source assigns to all its variables first, the entry block of the generated function stores to
// all of them, and before it loads them.
module EntryAssigned {
  import opened Graph
  import opened Cminus
  import opened Machine
  import opened Generation
  import opened Framing
  import opened FunctionMeaning
  import opened BlockShape
  import opened MadeBeforeUse
  import opened AssignedFirst
  import opened Lowering
  import opened PlacedFunction
  import opened PhiPlacement

  // ---- Addresses used ----

  ghost predicate PointerAmong(i: Instr, vars: set<nat>)
  {
    PointerOf(i).Some? && PointerOf(i).value.Reg? ==> PointerOf(i).value.id in vars
  }

  // Only these variables are accessed.
  ghost predicate Among(code: Code, vars: set<nat>)
  {
    forall b: Block, k: nat {:trigger Get(code, b)[k]} :: k < |Get(code, b)| ==> PointerAmong(Get(code, b)[k], vars)
  }

  lemma EmitAmong(g: Gen, i: Instr, vars: set<nat>)
    requires Among(g.code, vars) && PointerAmong(i, vars)
    ensures Among(Emit(g, i).code, vars)
  {
    var code := Emit(g, i).code;
    forall b: Block, k: nat {:trigger Get(code, b)[k]} | k < |Get(code, b)| ensures PointerAmong(Get(code, b)[k],
      vars) {
      if b == g.insert && b < |g.code| {
        assert Get(code, b) == Get(g.code, b) + [i];
      } else {
        assert Get(code, b) == Get(g.code, b);
      }
    }
  }

  lemma {:induction false} FindAmong(scope: Scopes, x: string, vars: set<nat>)
    requires VarsOf(scope) <= vars
    ensures Find<Value>(scope, x).Some? && Find<Value>(scope, x).value.Reg? ==> Find<Value>(scope, x).value.id in vars
    decreases |scope|
  {
    if scope != [] {
      var n := |scope| - 1;
      forall p | p in VarsOf(scope[..n]) ensures p in vars {
        var i, y :| 0 <= i < n && y in scope[..n][i] && scope[..n][i][y].Reg? && scope[..n][i][y].id == p;
        assert scope[i][y].id in VarsOf(scope);
      }
      FindAmong(scope[..n], x, vars);
      assert x in scope[n] && scope[n][x].Reg? ==> scope[n][x].id in VarsOf(scope);
    }
  }

  lemma VariableAmong(scope: Scopes, x: string, vars: set<nat>)
    requires VarsOf(scope) <= vars
    ensures VariableOf(scope, x).Reg? ==> VariableOf(scope, x).id in vars
  {
    FindAmong(scope, x, vars);
  }

  lemma {:induction false} ExprAmong(e: Expr, g: Gen, vars: set<nat>)
    requires Ready(g) && VarsOf(g.scope) <= vars && Among(g.code, vars)
    ensures Among(GenExpr(e, g).0.code, vars)
    decreases e
  {
    match e
    case Num(_) =>
    case Var(x) =>
      VariableAmong(g.scope, x, vars);
      EmitAmong(g, Load(g.nextId, VariableOf(g.scope, x)), vars);
    case Assign(x, e1) =>
      ExprAmong(e1, g, vars);
      ExprStraight(e1, g);
      var (g1, v) := GenExpr(e1, g);
      VariableAmong(g1.scope, x, vars);
      EmitAmong(g1, Instr.Store(v, VariableOf(g1.scope, x)), vars);
    case Arith(op, l, r) =>
      PairAmong(l, r, g, vars, e);
      var (g1, a) := GenExpr(l, g);
      var (g2, b) := GenExpr(r, g1);
      EmitAmong(g2, IArith(g2.nextId, op, a, b), vars);
    case Compare(op, l, r) =>
      PairAmong(l, r, g, vars, e);
      var (g1, a) := GenExpr(l, g);
      var (g2, b) := GenExpr(r, g1);
      var i := ICmp(g2.nextId, op, a, b);
      EmitAmong(g2, i, vars);
      EmitAmong(EmitId(g2, i), Zext(g2.nextId + 1, Reg(g2.nextId)), vars);
    case Call(f, args) =>
      AllAmong(args, g, vars);
      var (g1, vs) := GenAll(args, g);
      EmitAmong(g1, CallTo(g1.nextId, FunctionOf(g1.scope, f), vs), vars);
  }

  lemma {:induction false} PairAmong(l: Expr, r: Expr, g: Gen, vars: set<nat>, e: Expr)
    requires Ready(g) && VarsOf(g.scope) <= vars && Among(g.code, vars) && l < e && r < e
    ensures Among(GenExpr(r, GenExpr(l, g).0).0.code, vars)
    decreases e, 0
  {
    ExprAmong(l, g, vars);
    ExprStraight(l, g);
    ExprAmong(r, GenExpr(l, g).0, vars);
  }

  lemma {:induction false} AllAmong(es: seq<Expr>, g: Gen, vars: set<nat>)
    requires Ready(g) && VarsOf(g.scope) <= vars && Among(g.code, vars)
    ensures Among(GenAll(es, g).0.code, vars)
    decreases es
  {
    if es != [] {
      ExprAmong(es[0], g, vars);
      ExprStraight(es[0], g);
      AllAmong(es[1..], GenExpr(es[0], g).0, vars);
    }
  }

  lemma NewAmong(g: Gen, vars: set<nat>)
    requires Among(g.code, vars)
    ensures Among(NewBlock(g).code, vars)
  {
    forall b: Block ensures Get(NewBlock(g).code, b) == Get(g.code, b) {
    }
  }

  lemma BrAmong(g: Gen, c: Block, vars: set<nat>)
    requires Among(g.code, vars)
    ensures Among(BrIfOpen(g, c).code, vars)
  {
    EmitAmong(g, Br(c), vars);
    assert EmitBr(g, c).code == Emit(g, Br(c)).code;
  }

  lemma TestAmong(g: Gen, v: Value, t: Block, f: Block, vars: set<nat>)
    requires Among(g.code, vars)
    ensures Among(GenTest(g, v, t, f).code, vars)
  {
    var i, j := ICmp(g.nextId, Neq, v, Const(0)), CondBr(Reg(g.nextId), t, f);
    EmitAmong(g, i, vars);
    EmitAmong(EmitId(g, i), j, vars);
    assert GenTest(g, v, t, f).code == Emit(EmitId(g, i), j).code;
  }

  lemma {:induction false} StmtAmong(t: Stmt, g: Gen, vars: set<nat>)
    requires Ready(g) && Flat(t) && VarsOf(g.scope) <= vars && Among(g.code, vars)
    ensures Among(GenStmt(t, g).code, vars)
    decreases t, 1
  {
    match t
    case ExprStmt(None) =>
    case ExprStmt(Some(e)) => ExprAmong(e, g, vars);
    case Compound(decls, body) => CompoundAmong(body, g, vars);
    case If(c, a, b) => IfAmong(c, a, b, g, vars);
    case While(c, a) => WhileAmong(c, a, g, vars);
    case Return(None) => EmitAmong(g, Ret(None), vars);
    case Return(Some(e)) =>
      ExprAmong(e, g, vars);
      var (g1, v) := GenExpr(e, g);
      EmitAmong(g1, Ret(Some(v)), vars);
  }

  lemma {:induction false} StmtsAmong(ts: seq<Stmt>, g: Gen, vars: set<nat>)
    requires Ready(g) && AllFlat(ts) && VarsOf(g.scope) <= vars && Among(g.code, vars)
    ensures Among(GenStmts(ts, g).code, vars)
    decreases ts, 0
  {
    if ts != [] {
      StmtAmong(ts[0], g, vars);
      StmtKeeps(ts[0], g);
      if InsertOpen(GenStmt(ts[0], g)) {
        StmtsAmong(ts[1..], GenStmt(ts[0], g), vars);
      }
    }
  }

  lemma {:induction false} CompoundAmong(body: seq<Stmt>, g: Gen, vars: set<nat>)
    requires Ready(g) && AllFlat(body) && VarsOf(g.scope) <= vars && Among(g.code, vars)
    ensures Among(GenCompound([], body, g).code, vars)
    decreases body, 1
  {
    var g0 := g.(scope := g.scope + [map[]]);
    EnterReady(g);
    assert VarsOf(g0.scope) <= VarsOf(g.scope) by {
      forall i, x | 0 <= i < |g0.scope| && x in g0.scope[i] ensures i < |g.scope| && g0.scope[i] == g.scope[i] {
      }
    }
    StmtsAmong(body, g0, vars);
  }

  lemma {:induction false} IfAmong(c: Expr, a: Stmt, b: Option<Stmt>, g: Gen, vars: set<nat>)
    requires Ready(g) && Flat(If(c, a, b)) && VarsOf(g.scope) <= vars && Among(g.code, vars)
    ensures Among(GenStmt(If(c, a, b), g).code, vars)
    decreases If(c, a, b), 0
  {
    var h := GenIfTest(c, b.Some?, g);
    IfTestAmong(c, b.Some?, g, vars);
    IfTestKeeps(c, b.Some?, g);
    BranchesAmong(If(c, a, b), g, h, vars);
    IfIs(c, a, b, g, h);
  }

  lemma {:induction false} BranchesAmong(t: Stmt, g: Gen, h: Gen, vars: set<nat>)
    requires t.If? && Flat(t) && Ready(g) && IfTested(g, h) && VarsOf(h.scope) <= vars && Among(h.code, vars)
    ensures Among(GenElse(t.else_, BrIfOpen(GenStmt(t.then_, h), h.insert + 2), h.insert + 1, h.insert + 2).code, vars)
    decreases t, 0, 0
  {
    BranchAmong(t.then_, h, h.insert + 2, vars);
    BranchKept(t.then_, h, h.insert + 2);
    var g1 := BrIfOpen(GenStmt(t.then_, h), h.insert + 2);
    BranchKeeps(g, h, g1, h.insert + 1);
    ElseAmong(t.else_, g1, h.insert + 1, h.insert + 2, vars);
  }

  lemma {:induction false} ElseAmong(b: Option<Stmt>, g: Gen, fb: Block, cb: Block, vars: set<nat>)
    requires Ready(g.(insert := fb)) && (b.Some? ==> Flat(b.value)) && VarsOf(g.scope) <= vars && Among(g.code, vars)
    ensures Among(GenElse(b, g, fb, cb).code, vars)
    decreases b
  {
    if b.Some? {
      BranchAmong(b.value, g.(insert := fb), cb, vars);
    }
  }

  lemma IfTestAmong(c: Expr, hasElse: bool, g: Gen, vars: set<nat>)
    requires Ready(g) && VarsOf(g.scope) <= vars && Among(g.code, vars)
    ensures Among(GenIfTest(c, hasElse, g).code, vars)
  {
    ExprAmong(c, g, vars);
    var (g1, v) := GenExpr(c, g);
    var n := |g1.code|;
    NewAmong(g1, vars);
    NewAmong(NewBlock(g1), vars);
    NewAmong(NewBlock(NewBlock(g1)), vars);
    TestAmong(NewBlock(NewBlock(NewBlock(g1))), v, n, if hasElse then n + 1 else n + 2, vars);
    IfTestIs(c, hasElse, g, g1, v, n);
  }

  lemma {:induction false} BranchAmong(a: Stmt, h: Gen, c: Block, vars: set<nat>)
    requires Ready(h) && Flat(a) && VarsOf(h.scope) <= vars && Among(h.code, vars)
    ensures Among(BrIfOpen(GenStmt(a, h), c).code, vars)
    decreases a, 2
  {
    StmtAmong(a, h, vars);
    BrAmong(GenStmt(a, h), c, vars);
  }

  lemma {:induction false} WhileAmong(c: Expr, a: Stmt, g: Gen, vars: set<nat>)
    requires Ready(g) && Flat(a) && VarsOf(g.scope) <= vars && Among(g.code, vars)
    ensures Among(GenStmt(While(c, a), g).code, vars)
    decreases While(c, a), 0
  {
    var g1 := GenWhileStart(g);
    NewAmong(g, vars);
    BrAmong(NewBlock(g), |g.code|, vars);
    WhileStartKeeps(g);
    WhileTestAmong(c, g1, vars);
    WhileTestKeeps(c, g1);
    var h := GenWhileTest(c, g1);
    BranchAmong(a, h, |g.code|, vars);
    WhileIs(c, a, g, h);
  }

  lemma WhileTestAmong(c: Expr, g: Gen, vars: set<nat>)
    requires Ready(g) && VarsOf(g.scope) <= vars && Among(g.code, vars)
    ensures Among(GenWhileTest(c, g).code, vars)
  {
    ExprAmong(c, g, vars);
    var (g1, v) := GenExpr(c, g);
    NewAmong(g1, vars);
    NewAmong(NewBlock(g1), vars);
    TestAmong(NewBlock(NewBlock(g1)), v, |g1.code|, |g1.code| + 1, vars);
    WhileTestIs(c, g, g1, v, |g1.code|);
  }

  // ---- The entry block ----

  ghost predicate StoredBy(s: seq<Instr>, p: nat, n: nat)
  {
    exists j :: 0 <= j < n && j < |s| && s[j].Store? && s[j].ptr == Reg(p)
  }

  // No variable is loaded before it has been stored to.
  ghost predicate StoredFirst(s: seq<Instr>)
  {
    forall k {:trigger s[k]} :: 0 <= k < |s| && s[k].Load? && s[k].ptr.Reg? ==> StoredBy(s, s[k].ptr.id, k)
  }

  lemma StoredMore(s: seq<Instr>, s': seq<Instr>, p: nat, n: nat, n': nat)
    requires StoredBy(s, p, n) && s <= s' && n <= n'
    ensures StoredBy(s', p, n')
  {
    var j :| 0 <= j < n && j < |s| && s[j].Store? && s[j].ptr == Reg(p);
    assert s'[j] == s[j];
  }

  lemma StoredFirstMore(s: seq<Instr>, i: Instr)
    requires StoredFirst(s) && (i.Load? && i.ptr.Reg? ==> StoredBy(s, i.ptr.id, |s|))
    ensures StoredFirst(s + [i])
  {
    var s' := s + [i];
    forall k | 0 <= k < |s'| && s'[k].Load? && s'[k].ptr.Reg? ensures StoredBy(s', s'[k].ptr.id, k) {
      StoredMore(s, s', s'[k].ptr.id, k, k);
    }
  }

  // Variables are named by locals, and those of the names in done have been stored to.
  ghost predicate NamedAt(scope: Scopes, locals: set<string>, done: set<string>, s: seq<Instr>, x: string)
  {
    VariableOf(scope, x).Reg? ==> x in locals && (x in done ==> StoredBy(s, VariableOf(scope, x).id, |s|))
  }

  // The variable p has a name.
  ghost predicate HasName(scope: Scopes, p: nat)
  {
    exists x :: VariableOf(scope, x) == Reg(p)
  }

  ghost predicate AllNamed(scope: Scopes, locals: set<string>, done: set<string>, s: seq<Instr>)
  {
    && (forall x {:trigger NamedAt(scope, locals, done, s, x)} :: NamedAt(scope, locals, done, s, x))
    && (forall p {:trigger HasName(scope, p)} :: p in VarsOf(scope) ==> HasName(scope, p))
  }

  // Instructions go to the entry block, and all is right with what it stores and loads.
  ghost predicate InEntry(g: Gen, locals: set<string>, done: set<string>)
  {
    Ready(g) && g.insert == 0 && InsertOpen(g) && StoredFirst(Get(g.code, 0)) &&
      AllNamed(g.scope, locals, done, Get(g.code, 0))
  }

  lemma NamesMore(scope: Scopes, locals: set<string>, done: set<string>, s: seq<Instr>, s': seq<Instr>)
    requires AllNamed(scope, locals, done, s) && s <= s'
    ensures AllNamed(scope, locals, done, s')
  {
    forall x ensures NamedAt(scope, locals, done, s', x) {
      assert NamedAt(scope, locals, done, s, x);
      if VariableOf(scope, x).Reg? && x in done {
        StoredMore(s, s', VariableOf(scope, x).id, |s|, |s'|);
      }
    }
  }

  // An instruction other than a load of a variable not yet stored to.
  lemma EmitEntry(g: Gen, locals: set<string>, done: set<string>, i: Instr)
    requires InEntry(g, locals, done) && !i.Terminator()
    requires i.Load? && i.ptr.Reg? ==> StoredBy(Get(g.code, 0), i.ptr.id, |Get(g.code, 0)|)
    ensures InEntry(Emit(g, i), locals, done) && InEntry(EmitId(g, i), locals, done)
    ensures Get(Emit(g, i).code, 0) == Get(g.code, 0) + [i]
  {
    EmitStraight(g, i);
    StoredFirstMore(Get(g.code, 0), i);
    NamesMore(g.scope, locals, done, Get(g.code, 0), Get(g.code, 0) + [i]);
  }

  lemma AssignEntry(g: Gen, locals: set<string>, done: set<string>, x: string, v: Value)
    requires InEntry(g, locals, done)
    ensures InEntry(Emit(g, Instr.Store(v, VariableOf(g.scope, x))), locals, done + {x})
  {
    var i := Instr.Store(v, VariableOf(g.scope, x));
    EmitEntry(g, locals, done, i);
    var s := Get(Emit(g, i).code, 0);
    assert s[|s| - 1] == i;
    forall y ensures NamedAt(g.scope, locals, done + {x}, s, y) {
      assert NamedAt(g.scope, locals, done, s, y);
    }
  }

  lemma {:induction false} ExprEntry(e: Expr, g: Gen, locals: set<string>, done: set<string>)
    requires InEntry(g, locals, done) && ReadsDone(e, locals, done)
    ensures InEntry(GenExpr(e, g).0, locals, DoneAfter(e, done))
    decreases e
  {
    match e
    case Num(_) =>
    case Var(x) =>
      assert NamedAt(g.scope, locals, done, Get(g.code, 0), x);
      EmitEntry(g, locals, done, Load(g.nextId, VariableOf(g.scope, x)));
    case Assign(x, e1) =>
      ExprEntry(e1, g, locals, done);
      var (g1, v) := GenExpr(e1, g);
      AssignEntry(g1, locals, DoneAfter(e1, done), x, v);
    case Arith(op, l, r) =>
      ExprEntry(l, g, locals, done);
      var (g1, a) := GenExpr(l, g);
      ExprEntry(r, g1, locals, DoneAfter(l, done));
      var (g2, b) := GenExpr(r, g1);
      EmitEntry(g2, locals, DoneAfter(e, done), IArith(g2.nextId, op, a, b));
    case Compare(op, l, r) =>
      ExprEntry(l, g, locals, done);
      var (g1, a) := GenExpr(l, g);
      ExprEntry(r, g1, locals, DoneAfter(l, done));
      var (g2, b) := GenExpr(r, g1);
      CompareEntry(g2, locals, DoneAfter(e, done), op, a, b);
    case Call(f, args) =>
      AllEntry(args, g, locals, done);
      var (g1, vs) := GenAll(args, g);
      EmitEntry(g1, locals, DoneAfter(e, done), CallTo(g1.nextId, FunctionOf(g1.scope, f), vs));
  }

  lemma CompareEntry(g: Gen, locals: set<string>, done: set<string>, op: CmpOp, a: Value, b: Value)
    requires InEntry(g, locals, done)
    ensures
      var g1 := EmitId(g, ICmp(g.nextId, op, a, b));
      InEntry(EmitId(g1, Zext(g1.nextId, Reg(g.nextId))), locals, done)
  {
    var i := ICmp(g.nextId, op, a, b);
    EmitEntry(g, locals, done, i);
    EmitEntry(EmitId(g, i), locals, done, Zext(g.nextId + 1, Reg(g.nextId)));
  }

  lemma {:induction false} AllEntry(es: seq<Expr>, g: Gen, locals: set<string>, done: set<string>)
    requires InEntry(g, locals, done) && AllReadsDone(es, locals, done)
    ensures InEntry(GenAll(es, g).0, locals, AllDoneAfter(es, done))
    decreases es
  {
    if es != [] {
      ExprEntry(es[0], g, locals, done);
      AllEntry(es[1..], GenExpr(es[0], g).0, locals, DoneAfter(es[0], done));
    }
  }

  // ---- Parameters and declarations ----

  ghost function TopNames(scope: Scopes): set<string>
    requires scope != []
  {
    scope[|scope| - 1].Keys
  }

  // Only the innermost scope names variables.
  ghost predicate TopOnly(scope: Scopes)
  {
    scope != [] && forall x {:trigger VariableOf(scope, x)} :: VariableOf(scope, x).Reg? ==> x in TopNames(scope)
  }

  // A declaration names a new variable, and changes nothing else.
  lemma PushVariable(scope: Scopes, x: string, id: nat, y: string)
    requires scope != []
    ensures VariableOf(Push(scope, x, Reg(id)), y) ==
      if y == x && x !in TopNames(scope) then Reg(id) else VariableOf(scope, y)
    ensures TopNames(Push(scope, x, Reg(id))) == TopNames(scope) + {x}
  {
    var scope': Scopes := Push(scope, x, Reg(id));
    assert scope'[..|scope'| - 1] == scope[..|scope| - 1];
  }

  lemma PushHasName(scope: Scopes, x: string, id: nat, p: nat)
    requires TopOnly(scope) && p in VarsOf(Push(scope, x, Reg(id)))
    requires forall q {:trigger HasName(scope, q)} :: q in VarsOf(scope) ==> HasName(scope, q)
    ensures HasName(Push(scope, x, Reg(id)), p)
  {
    var scope': Scopes := Push(scope, x, Reg(id));
    var i, y :| 0 <= i < |scope'| && y in scope'[i] && scope'[i][y].Reg? && scope'[i][y].id == p;
    PushVariable(scope, x, id, x);
    if i < |scope| - 1 || y != x || x in TopNames(scope) {
      assert y in scope[i] && scope[i][y] == scope'[i][y];
      assert HasName(scope, p);
      var z :| VariableOf(scope, z) == Reg(p);
      PushVariable(scope, x, id, z);
      assert VariableOf(scope', z) == Reg(p);
    } else {
      assert VariableOf(scope', x) == Reg(p);
    }
  }

  // Binding a variable in the entry block: a new name, stored to if it is to be among those done.
  lemma PushEntry(g: Gen, locals: set<string>, done: set<string>, done': set<string>, x: string, id: nat)
    requires InEntry(g, locals, done) && TopOnly(g.scope) && x in locals && id < g.nextId
    requires done <= done' <= done + {x} && done <= TopNames(g.scope)
    requires x in done' && x !in done ==> x !in TopNames(g.scope) && StoredBy(Get(g.code, 0), id, |Get(g.code, 0)|)
    ensures
      var g' := g.(scope := Push(g.scope, x, Reg(id)));
      InEntry(g', locals, done') && TopOnly(g'.scope) && TopNames(g'.scope) == TopNames(g.scope) + {x}
  {
    var scope', s := Push(g.scope, x, Reg(id)), Get(g.code, 0);
    PushBelow(g.scope, x, Reg(id), g.nextId);
    PushVariable(g.scope, x, id, x);
    forall y ensures NamedAt(scope', locals, done', s, y) && (VariableOf(scope', y).Reg? ==> y in TopNames(scope')) {
      PushVariable(g.scope, x, id, y);
      assert NamedAt(g.scope, locals, done, s, y);
    }
    forall p | p in VarsOf(scope') ensures HasName(scope', p) {
      PushHasName(g.scope, x, id, p);
    }
  }

  lemma ParamEntry(x: string, i: nat, g: Gen, locals: set<string>)
    requires TopOnly(g.scope) && InEntry(g, locals, TopNames(g.scope)) && x in locals
    ensures
      var g' := GenParam(x, i, g);
      TopOnly(g'.scope) && InEntry(g', locals, TopNames(g'.scope)) && TopNames(g'.scope) == TopNames(g.scope) + {x}
  {
    var top, a, j := TopNames(g.scope), Alloca(g.nextId), Instr.Store(Param(i), Reg(g.nextId));
    EmitEntry(g, locals, top, a);
    var g1 := EmitId(g, a);
    EmitEntry(g1, locals, top, j);
    var g2 := Emit(g1, j);
    var s := Get(g2.code, 0);
    assert s[|s| - 1] == j;
    PushEntry(g2, locals, top, top + {x}, x, g.nextId);
  }

  lemma {:induction false} ParamsEntry(xs: seq<string>, i: nat, g: Gen, locals: set<string>)
    requires TopOnly(g.scope) && InEntry(g, locals, TopNames(g.scope)) && forall x :: x in xs ==> x in locals
    ensures
      var g' := GenParams(xs, i, g);
      TopOnly(g'.scope) && InEntry(g', locals, TopNames(g'.scope)) &&
        TopNames(g'.scope) == TopNames(g.scope) + Names(xs)
    decreases xs
  {
    if xs != [] {
      ParamEntry(xs[0], i, g, locals);
      ParamsEntry(xs[1..], i + 1, GenParam(xs[0], i, g), locals);
      assert Names(xs) == {xs[0]} + Names(xs[1..]);
    }
  }

  lemma {:induction false} DeclsEntry(xs: seq<string>, g: Gen, locals: set<string>, done: set<string>)
    requires TopOnly(g.scope) && InEntry(g, locals, done) && done <= TopNames(g.scope) && forall x :: x in xs ==>
      x in locals
    ensures InEntry(GenDecls(xs, g), locals, done)
    decreases xs
  {
    if xs != [] {
      EmitEntry(g, locals, done, Alloca(g.nextId));
      PushEntry(EmitId(g, Alloca(g.nextId)), locals, done, done, xs[0], g.nextId);
      DeclsEntry(xs[1..], GenDecl(xs[0], g), locals, done);
    }
  }

  lemma StartEntry(scope: Scopes, locals: set<string>)
    requires GlobalOnly(scope)
    ensures
      var g := Start(scope).(scope := scope + [map[]]);
      TopOnly(g.scope) && InEntry(g, locals, {}) && TopNames(g.scope) == {}
  {
    var g := Start(scope).(scope := scope + [map[]]);
    StartReady(scope);
    assert g.scope[..|g.scope| - 1] == scope;
    NoVariables(scope);
    forall x ensures !VariableOf(g.scope, x).Reg? {
      assert Find<Value>(g.scope, x) == Find<Value>(scope, x);
      VariableAmong(scope, x, {});
    }
    forall p ensures p !in VarsOf(g.scope) {
      forall i, x | 0 <= i < |g.scope| && x in g.scope[i] ensures !g.scope[i][x].Reg? {
        assert i < |scope| && g.scope[i] == scope[i] && FrameBelow(scope[i], 0);
      }
    }
  }

  lemma NoVariables(scope: Scopes)
    requires GlobalOnly(scope)
    ensures VarsOf(scope) == {}
  {
    forall i, x | 0 <= i < |scope| && x in scope[i] ensures !scope[i][x].Reg? {
      assert FrameBelow(scope[i], 0);
    }
  }

  // ---- Whole functions ----

  // Every variable accessed has been stored to in the entry block, and there before any load.
  ghost predicate AllStored(code: Code)
  {
    && StoredFirst(Get(code, 0))
    && forall b: Block, k: nat {:trigger Get(code, b)[k]} :: k < |Get(code, b)| ==> StoredInFirst(code, Get(code, b)[k])
  }

  ghost predicate StoredInFirst(code: Code, i: Instr)
  {
    PointerOf(i).Some? && PointerOf(i).value.Reg? ==> StoredBy(Get(code, 0), PointerOf(i).value.id, |Get(code, 0)|)
  }

  // Only variables in scope and variables stored to have been accessed.
  ghost predicate Accessed(g: Gen, stored: set<nat>)
  {
    && Among(g.code, VarsOf(g.scope) + stored)
    && forall p {:trigger p in stored} :: p in stored ==> StoredBy(Get(g.code, 0), p, |Get(g.code, 0)|)
  }

  // When all locals have been assigned to, the rest of the function may access them as it likes.
  lemma RestStored(ts: seq<Stmt>, g: Gen, locals: set<string>, done: set<string>, stored: set<nat>)
    requires InEntry(g, locals, done) && locals <= done && AllFlat(ts) && Accessed(g, stored)
    ensures AllStored(GenStmts(ts, g).code)
  {
    var vars, s, code := VarsOf(g.scope) + stored, Get(g.code, 0), GenStmts(ts, g).code;
    StmtsAmong(ts, g, vars);
    StmtsKeep(ts, g);
    assert s <= Get(code, 0);
    forall p | p in vars ensures StoredBy(s, p, |s|) {
      if p in VarsOf(g.scope) {
        assert HasName(g.scope, p);
        var x :| VariableOf(g.scope, x) == Reg(p);
        assert NamedAt(g.scope, locals, done, s, x);
      }
    }
    AmongStored(code, s, vars);
  }

  lemma AmongStored(code: Code, s: seq<Instr>, vars: set<nat>)
    requires Among(code, vars) && s <= Get(code, 0) && StoredFirst(s) && forall p {:trigger p in vars} :: p in vars ==>
      StoredBy(s, p, |s|)
    ensures AllStored(code)
  {
    var first := Get(code, 0);
    forall k | 0 <= k < |first| && first[k].Load? && first[k].ptr.Reg? ensures StoredBy(first, first[k].ptr.id, k) {
      assert PointerAmong(Get(code, 0)[k], vars);
      if k < |s| {
        assert s[k] == first[k];
        StoredMore(s, first, first[k].ptr.id, k, k);
      } else {
        StoredMore(s, first, first[k].ptr.id, |s|, k);
      }
    }
    forall b: Block, k: nat {:trigger Get(code, b)[k]} | k < |Get(code, b)| ensures StoredInFirst(code,
      Get(code, b)[k]) {
      var i := Get(code, b)[k];
      assert PointerAmong(i, vars);
      if PointerOf(i).Some? && PointerOf(i).value.Reg? {
        StoredMore(s, first, PointerOf(i).value.id, |s|, |first|);
      }
    }
  }

  lemma AccessedMore(g: Gen, g': Gen, stored: set<nat>)
    requires Accessed(g, stored) && g'.scope == g.scope && Among(g'.code, VarsOf(g.scope) + stored)
    requires Get(g.code, 0) <= Get(g'.code, 0)
    ensures Accessed(g', stored)
  {
    forall p | p in stored ensures StoredBy(Get(g'.code, 0), p, |Get(g'.code, 0)|) {
      StoredMore(Get(g.code, 0), Get(g'.code, 0), p, |Get(g.code, 0)|, |Get(g'.code, 0)|);
    }
  }

  lemma {:induction false} OpensStored(ts: seq<Stmt>, g: Gen, locals: set<string>, done: set<string>, stored: set<nat>)
    requires InEntry(g, locals, done) && Opens(ts, locals, done) && Accessed(g, stored)
    ensures AllStored(GenStmts(ts, g).code)
    decreases ts
  {
    if locals <= done {
      RestStored(ts, g, locals, done, stored);
    } else {
      var e, g1 := ts[0].e, GenStmt(ts[0], g);
      if e.Some? {
        ExprEntry(e.value, g, locals, done);
        ExprAmong(e.value, g, VarsOf(g.scope) + stored);
        ExprStraight(e.value, g);
        AccessedMore(g, g1, stored);
      }
      OpensStored(ts[1..], g1, locals, NextDone(e, done), stored);
    }
  }

  // Parameters are stored to as they are declared.
  lemma {:induction false} ParamsAccessed(xs: seq<string>, i: nat, g: Gen, stored: set<nat>) returns (stored': set<nat>)
    requires Ready(g) && g.scope != [] && Among(g.code, stored)
    requires forall p {:trigger p in stored} :: p in stored ==>
      StoredBy(Get(g.code, g.insert), p, |Get(g.code, g.insert)|)
    ensures
      var g' := GenParams(xs, i, g);
      && Among(g'.code, stored') && g'.insert == g.insert
      && forall p {:trigger p in stored'} :: p in stored' ==>
        StoredBy(Get(g'.code, g.insert), p, |Get(g'.code, g.insert)|)
    decreases xs
  {
    stored' := stored;
    if xs != [] {
      ParamAccessed(xs[0], i, g, stored);
      ParamDeclares(xs[0], i, g);
      stored' := ParamsAccessed(xs[1..], i + 1, GenParam(xs[0], i, g), stored + {g.nextId});
    }
  }

  lemma ParamAccessed(x: string, i: nat, g: Gen, stored: set<nat>)
    requires Ready(g) && g.scope != [] && Among(g.code, stored)
    requires forall p {:trigger p in stored} :: p in stored ==>
      StoredBy(Get(g.code, g.insert), p, |Get(g.code, g.insert)|)
    ensures
      var g' := GenParam(x, i, g);
      && Among(g'.code, stored + {g.nextId})
      && forall p {:trigger p in stored} :: p in stored + {g.nextId} ==>
        StoredBy(Get(g'.code, g.insert), p, |Get(g'.code, g.insert)|)
  {
    var a, j, vars := Alloca(g.nextId), Instr.Store(Param(i), Reg(g.nextId)), stored + {g.nextId};
    AmongMore(g.code, stored, vars);
    EmitAmong(g, a, vars);
    EmitAmong(EmitId(g, a), j, vars);
    var s, s' := Get(g.code, g.insert), Get(GenParam(x, i, g).code, g.insert);
    assert s' == s + [a] + [j] && s'[|s| + 1] == j;
    forall p | p in vars ensures StoredBy(s', p, |s'|) {
      if p in stored {
        StoredMore(s, s', p, |s|, |s'|);
      }
    }
  }

  lemma AmongMore(code: Code, vars: set<nat>, vars': set<nat>)
    requires Among(code, vars) && vars <= vars'
    ensures Among(code, vars')
  {
    forall b: Block, k: nat {:trigger Get(code, b)[k]} | k < |Get(code, b)| ensures PointerAmong(Get(code, b)[k],
      vars') {
      assert PointerAmong(Get(code, b)[k], vars);
    }
  }

  lemma {:induction false} DeclsAccessed(xs: seq<string>, g: Gen, vars: set<nat>)
    requires Ready(g) && g.scope != [] && Among(g.code, vars)
    ensures Among(GenDecls(xs, g).code, vars)
    decreases xs
  {
    if xs != [] {
      EmitAmong(g, Alloca(g.nextId), vars);
      DeclDeclares(xs[0], g);
      DeclsAccessed(xs[1..], GenDecl(xs[0], g), vars);
    }
  }

  lemma PrologueEntry(f: Function, scope: Scopes) returns (stored: set<nat>)
    requires GlobalOnly(scope)
    ensures InEntry(Prologue(f, scope), Names(f.params) + Names(f.decls), Names(f.params)) &&
      Accessed(Prologue(f, scope), stored)
  {
    var locals, g0 := Names(f.params) + Names(f.decls), Start(scope).(scope := scope + [map[]]);
    StartEntry(scope, locals);
    ParamsEntry(f.params, 0, g0, locals);
    var g1 := GenParams(f.params, 0, g0);
    assert TopNames(g1.scope) == Names(f.params);
    DeclsEntry(f.decls, g1, locals, Names(f.params));
    assert Among(g0.code, {}) by {
      assert g0.code == [[]];
    }
    stored := ParamsAccessed(f.params, 0, g0, {});
    DeclsAccessed(f.decls, g1, stored);
    AmongMore(Prologue(f, scope).code, stored, VarsOf(Prologue(f, scope).scope) + stored);
    DeclsDeclare(f.decls, g1);
    forall p | p in stored ensures StoredBy(Get(Prologue(f, scope).code, 0), p, |Get(Prologue(f, scope).code, 0)|) {
      assert Get(g1.code, 0) <= Get(Prologue(f, scope).code, 0);
      StoredMore(Get(g1.code, 0), Get(Prologue(f, scope).code, 0), p, |Get(g1.code, 0)|,
        |Get(Prologue(f, scope).code, 0)|);
    }
  }

  lemma FunctionStored(f: Function, scope: Scopes)
    requires GlobalOnly(scope) && AssignsFirst(f)
    ensures AllStored(GenFunction(f, scope).code)
  {
    var stored := PrologueEntry(f, scope);
    var g := Prologue(f, scope);
    OpensStored(f.body, g, Names(f.params) + Names(f.decls), Names(f.params), stored);
    var g1 := GenStmts(f.body, g);
    if InsertOpen(g1) {
      RetStored(g1, Ret(if f.void then None else Some(Const(0))));
    }
  }

  lemma RetStored(g: Gen, i: Instr)
    requires AllStored(g.code) && PointerOf(i).None?
    ensures AllStored(Emit(g, i).code)
  {
    var code, code' := g.code, Emit(g, i).code;
    var s, s' := Get(code, 0), Get(code', 0);
    assert s <= s';
    if g.insert == 0 && 0 < |g.code| {
      StoredFirstMore(s, i);
    }
    forall b: Block, k: nat {:trigger Get(code', b)[k]} | k < |Get(code', b)| ensures StoredInFirst(code',
      Get(code', b)[k]) {
      if k < |Get(code, b)| {
        assert Get(code', b)[k] == Get(code, b)[k];
        assert StoredInFirst(code, Get(code, b)[k]);
        var p := PointerOf(Get(code, b)[k]);
        if p.Some? && p.value.Reg? {
          StoredMore(s, s', p.value.id, |s|, |s'|);
        }
      }
    }
  }

  // ---- In the intermediate representation ----

  lemma StoredLowered(g: Gen, b: Block, p: nat, n: nat)
    requires Shape(g, {}) && b in g.order && StoredBy(Get(g.code, b), p, n)
    ensures b in FnOf(g).code && StoresIn(FnOf(g).code[b][..if n < |FnOf(g).code[b]| then n else |FnOf(g).code[b]|], p)
  {
    assert ShapeAt(g, {}, b);
    var s, c := Get(g.code, b), FnOf(g).code[b];
    var j :| 0 <= j < n && j < |s| && s[j].Store? && s[j].ptr == Reg(p);
    var m := if n < |c| then n else |c|;
    assert c[..m][j] == Lower(s[j], IdAt(g, b, j));
  }

  lemma EntryStoresOf(g: Gen)
    requires Shape(g, {}) && 0 in g.order && AllStored(g.code)
    ensures FnOf(g).g.Valid() && EntryStores(FnOf(g).g, FnOf(g).code)
  {
    GraphValid(g);
    var f := FnOf(g);
    forall b, k {:trigger StoredInEntry(f.g, f.code, b, k)} | b in f.code &&
      0 <= k < |f.code[b]| ensures StoredInEntry(f.g, f.code, b, k) {
      assert ShapeAt(g, {}, b);
      assert StoredInFirst(g.code, Get(g.code, b)[k]);
      if f.code[b][k].Load? || f.code[b][k].Store? {
        StoredLowered(g, 0, f.code[b][k].slot, |Get(g.code, 0)|);
        assert f.code[0][..|f.code[0]|] == f.code[0];
      }
    }
    forall k | 0 <= k < |f.code[0]| && f.code[0][k].Load? ensures StoresIn(f.code[0][..k], f.code[0][k].slot) {
      assert ShapeAt(g, {}, 0);
      assert Get(g.code, 0)[k].Load?;
      StoredLowered(g, 0, f.code[0][k].slot, k);
    }
  }

  // A function that assigns to its variables first meets the conditions on loads and edges.
  lemma AssignedFromSource(f: Function, scope: Scopes)
    requires GlobalOnly(scope) && AssignsFirst(f)
    ensures Shape(GenFunction(f, scope), {}) && GraphOf(GenFunction(f, scope)).Valid()
    ensures Assigned(GraphOf(GenFunction(f, scope)), FnOf(GenFunction(f, scope)).code)
  {
    var g := GenFunction(f, scope);
    FunctionShape(f, scope);
    EntryKept(f, scope);
    FunctionStored(f, scope);
    EntryStoresOf(g);
    EntryStoresSuffice(FnOf(g).g, FnOf(g).code);
  }
}
