// What is generated for each construct: the specification of the builder's visitors.
module Generation {
  import opened Graph
  import opened Cminus
  import opened Machine

  type Scopes = seq<map<string, Value>>

  // The function being built: the instructions and edges of the blocks created, the blocks in the
  // function's list, the block instructions are appended to, the first unused instruction number,
  // and the scopes.
  datatype Gen = Gen(code: Code, order: seq<Block>, preds: seq<seq<Block>>, succs: seq<seq<Block>>,
                     insert: Block, nextId: nat, scope: Scopes)

  function Append<T>(lists: seq<seq<T>>, b: nat, more: seq<T>): seq<seq<T>>
  {
    if b < |lists| then lists[b := lists[b] + more] else lists
  }

  function Emit(g: Gen, i: Instr): Gen
  {
    g.(code := Append(g.code, g.insert, [i]))
  }

  // Append an instruction that has a result.
  function EmitId(g: Gen, i: Instr): Gen
  {
    Emit(g, i).(nextId := g.nextId + 1)
  }

  // A new block, numbered |g.code|.
  function NewBlock(g: Gen): Gen
  {
    g.(code := g.code + [[]], order := g.order + [|g.code|], preds := g.preds + [[]], succs := g.succs + [[]])
  }

  function EmitBr(g: Gen, b: Block): Gen
  {
    Emit(g.(preds := Append(g.preds, b, [g.insert]), succs := Append(g.succs, g.insert, [b])), Br(b))
  }

  function EmitCondBr(g: Gen, v: Value, t: Block, f: Block): Gen
  {
    Emit(g.(preds := Append(Append(g.preds, t, [g.insert]), f, [g.insert]), succs := Append(g.succs, g.insert, [f, t])),
      CondBr(v, t, f))
  }

  function Remove(order: seq<Block>, b: Block): seq<Block>
  {
    if order == [] then []
    else
      var init, last := order[..|order| - 1], order[|order| - 1];
      Remove(init, b) + (if last == b then [] else [last])
  }

  // Take a block without edges out of the function.
  function Erase(g: Gen, b: Block): Gen
  {
    g.(order := Remove(g.order, b))
  }

  predicate Open(code: Code, b: Block)
  {
    Get(code, b) == [] || !Get(code, b)[|Get(code, b)| - 1].Terminator()
  }

  predicate InsertOpen(g: Gen)
  {
    Open(g.code, g.insert)
  }

  function BrIfOpen(g: Gen, b: Block): Gen
  {
    if InsertOpen(g) then EmitBr(g, b) else g
  }

  // ---- Expressions ----

  function VariableOf(scope: Scopes, x: string): Value
  {
    match Find<Value>(scope, x)
    case Some(v) => if v.Func? then GlobalVar(x) else v
    case None => GlobalVar(x)
  }

  function FunctionOf(scope: Scopes, f: string): string
  {
    match Find<Value>(scope, f)
    case Some(v) => if v.Func? then v.name else f
    case None => f
  }

  function GenExpr(e: Expr, g: Gen): (Gen, Value)
    decreases e
  {
    match e
    case Num(n) => (g, Const(n))
    case Var(x) => (EmitId(g, Load(g.nextId, VariableOf(g.scope, x))), Reg(g.nextId))
    case Assign(x, e1) =>
      var (g1, v) := GenExpr(e1, g);
      (Emit(g1, Instr.Store(v, VariableOf(g1.scope, x))), v)
    case Arith(op, l, r) =>
      var (g1, a) := GenExpr(l, g);
      var (g2, b) := GenExpr(r, g1);
      (EmitId(g2, IArith(g2.nextId, op, a, b)), Reg(g2.nextId))
    case Compare(op, l, r) =>
      var (g1, a) := GenExpr(l, g);
      var (g2, b) := GenExpr(r, g1);
      var g3 := EmitId(g2, ICmp(g2.nextId, op, a, b));
      (EmitId(g3, Zext(g3.nextId, Reg(g2.nextId))), Reg(g3.nextId))
    case Call(f, args) =>
      var (g1, vs) := GenAll(args, g);
      (EmitId(g1, CallTo(g1.nextId, FunctionOf(g1.scope, f), vs)), Reg(g1.nextId))
  }

  function GenAll(es: seq<Expr>, g: Gen): (Gen, seq<Value>)
    decreases es
  {
    if es == [] then (g, [])
    else
      var (g1, v) := GenExpr(es[0], g);
      var (g2, vs) := GenAll(es[1..], g1);
      (g2, [v] + vs)
  }

  // ---- Declarations and statements ----

  function GenDecl(x: string, g: Gen): Gen
    requires g.scope != []
  {
    var g1 := EmitId(g, Alloca(g.nextId));
    g1.(scope := Push(g1.scope, x, Reg(g.nextId)))
  }

  function GenDecls(xs: seq<string>, g: Gen): (g': Gen)
    requires g.scope != []
    ensures |g'.scope| == |g.scope|
    decreases xs
  {
    if xs == [] then g else GenDecls(xs[1..], GenDecl(xs[0], g))
  }

  // The test of a condition: a comparison with zero and a conditional branch.
  function GenTest(g: Gen, v: Value, t: Block, f: Block): Gen
  {
    EmitCondBr(EmitId(g, ICmp(g.nextId, Neq, v, Const(0))), Reg(g.nextId), t, f)
  }

  // The condition of an if: blocks for both branches and what follows, the first one open.
  function GenIfTest(c: Expr, hasElse: bool, g: Gen): Gen
  {
    var (g1, v) := GenExpr(c, g);
    var tb, fb, cb := |g1.code|, |g1.code| + 1, |g1.code| + 2;
    GenTest(NewBlock(NewBlock(NewBlock(g1))), v, tb, if hasElse then fb else cb).(insert := tb)
  }

  // A block for the condition of a loop.
  function GenWhileStart(g: Gen): Gen
  {
    BrIfOpen(NewBlock(g), |g.code|).(insert := |g.code|)
  }

  // The condition of a loop: blocks for the body and what follows, the first one open.
  function GenWhileTest(c: Expr, g: Gen): Gen
  {
    var (g1, v) := GenExpr(c, g);
    var tb, cb := |g1.code|, |g1.code| + 1;
    GenTest(NewBlock(NewBlock(g1)), v, tb, cb).(insert := tb)
  }

  function GenReturn(v: Option<Expr>, g: Gen): Gen
  {
    match v
    case None => Emit(g, Ret(None))
    case Some(e) =>
      var (g1, x) := GenExpr(e, g);
      Emit(g1, Ret(Some(x)))
  }

  function GenStmt(t: Stmt, g: Gen): Gen
    decreases t, 1
  {
    match t
    case ExprStmt(e) => if e.Some? then GenExpr(e.value, g).0 else g
    case Compound(decls, body) => GenCompound(decls, body, g)
    case If(c, a, b) => GenIf(c, a, b, g)
    case While(c, a) => GenWhile(c, a, g)
    case Return(v) => GenReturn(v, g)
  }

  function GenIf(c: Expr, a: Stmt, b: Option<Stmt>, g: Gen): Gen
    decreases If(c, a, b), 0
  {
    var h := GenIfTest(c, b.Some?, g);
    var fb, cb := h.insert + 1, h.insert + 2;
    GenElse(b, BrIfOpen(GenStmt(a, h), cb), fb, cb).(insert := cb)
  }

  function GenWhile(c: Expr, a: Stmt, g: Gen): Gen
    decreases While(c, a), 0
  {
    var h := GenWhileTest(c, GenWhileStart(g));
    BrIfOpen(GenStmt(a, h), |g.code|).(insert := h.insert + 1)
  }

  // The other branch of an if, or nothing, and then its block is taken out again.
  function GenElse(b: Option<Stmt>, g: Gen, fb: Block, cb: Block): Gen
    decreases b
  {
    if b.Some? then BrIfOpen(GenStmt(b.value, g.(insert := fb)), cb) else Erase(g, fb)
  }

  // Statements after one that ends the block are not generated.
  function GenStmts(ts: seq<Stmt>, g: Gen): Gen
    decreases ts, 0
  {
    if ts == [] then g
    else
      var g1 := GenStmt(ts[0], g);
      if InsertOpen(g1) then GenStmts(ts[1..], g1) else g1
  }

  // A block of statements in a scope of its own.
  function GenCompound(decls: seq<string>, body: seq<Stmt>, g: Gen): Gen
    decreases body, 1
  {
    GenStmts(body, GenDecls(decls, g.(scope := g.scope + [map[]]))).(scope := g.scope)
  }

  // ---- Functions ----

  // Parameters are stored in variables of the function's own scope.
  function GenParam(x: string, i: nat, g: Gen): Gen
    requires g.scope != []
  {
    var g1 := EmitId(g, Alloca(g.nextId));
    var g2 := Emit(g1, Instr.Store(Param(i), Reg(g.nextId)));
    g2.(scope := Push(g2.scope, x, Reg(g.nextId)))
  }

  function GenParams(xs: seq<string>, i: nat, g: Gen): (g': Gen)
    requires g.scope != []
    ensures |g'.scope| == |g.scope|
    decreases xs
  {
    if xs == [] then g else GenParams(xs[1..], i + 1, GenParam(xs[0], i, g))
  }

  // A function built from an empty list of blocks, in the global scope.
  function Start(scope: Scopes): Gen
  {
    NewBlock(Gen([], [], [], [], 0, 0, scope))
  }

  function GenFunction(f: Function, scope: Scopes): Gen
  {
    var g1 := GenParams(f.params, 0, Start(scope).(scope := scope + [map[]]));
    var g2 := GenStmts(f.body, GenDecls(f.decls, g1));
    var g3 := if InsertOpen(g2) then Emit(g2, Ret(if f.void then None else Some(Const(0)))) else g2;
    g3.(scope := scope)
  }
}
