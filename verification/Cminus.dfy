// The integer scalar part of the source language: syntax and meaning.
module Cminus {
  import opened Graph

  datatype ArithOp = Plus | Minus | Mul | Div
  datatype CmpOp = Lt | Le | Ge | Gt | Eq | Neq

  // Layers of the grammar that only pass a value on are left out.
  datatype Expr =
    | Num(n: int)
    | Var(x: string)
    | Assign(x: string, e: Expr)
    | Arith(aop: ArithOp, l: Expr, r: Expr)
    | Compare(cop: CmpOp, l: Expr, r: Expr)
    | Call(f: string, args: seq<Expr>)

  datatype Stmt =
    | ExprStmt(e: Option<Expr>)
    | Compound(decls: seq<string>, body: seq<Stmt>)
    | If(cond: Expr, then_: Stmt, else_: Option<Stmt>)
    | While(cond: Expr, loop: Stmt)
    | Return(e: Option<Expr>)

  datatype Function = Function(name: string, params: seq<string>, decls: seq<string>, body: seq<Stmt>, void: bool)

  // ---- Meaning ----

  datatype Loc = Local(n: int) | Global(x: string)

  datatype Event = Event(f: string, args: seq<int>)

  // Arithmetic, the answers of called functions and what they do to global variables, and what a
  // variable holds before it is assigned to.
  datatype World = World(arith: (ArithOp, int, int) -> int, answer: seq<Event> -> int,
                         after: (seq<Event>, map<string, int>) -> map<string, int>, undef: Loc -> int)

  // Worlds that differ only in what a function's own variables hold before they are assigned to.
  ghost predicate SameBut(w: World, w': World)
  {
    w' == w.(undef := w'.undef) && forall x :: w'.undef(Global(x)) == w.undef(Global(x))
  }

  datatype Store = Store(locals: map<int, int>, globals: map<string, int>, next: int, trace: seq<Event>)

  function Read(w: World, s: Store, l: Loc): int
  {
    match l
    case Local(n) => if n in s.locals then s.locals[n] else w.undef(l)
    case Global(x) => if x in s.globals then s.globals[x] else w.undef(l)
  }

  function Write(s: Store, l: Loc, v: int): Store
  {
    match l
    case Local(n) => s.(locals := s.locals[n := v])
    case Global(x) => s.(globals := s.globals[x := v])
  }

  function Test(op: CmpOp, a: int, b: int): bool
  {
    match op
    case Lt => a < b
    case Le => a <= b
    case Ge => a >= b
    case Gt => a > b
    case Eq => a == b
    case Neq => a != b
  }

  function Ask(w: World, f: string, args: seq<int>, s: Store): (int, Store)
  {
    var trace := s.trace + [Event(f, args)];
    (w.answer(trace), s.(trace := trace, globals := w.after(trace, s.globals)))
  }

  // What a name stands for: a variable at a place, or a function.
  datatype Binding = Variable(loc: Loc) | Callee(name: string)

  type Env = seq<map<string, Binding>>

  // The innermost binding of a name.
  function Find<T>(frames: seq<map<string, T>>, x: string): Option<T>
  {
    if frames == [] then None
    else if x in frames[|frames| - 1] then Some(frames[|frames| - 1][x])
    else Find(frames[..|frames| - 1], x)
  }

  // A second declaration of a name in the same frame does not replace the first.
  function Push<T>(frames: seq<map<string, T>>, x: string, v: T): seq<map<string, T>>
    requires frames != []
  {
    var top := frames[|frames| - 1];
    if x in top then frames else frames[|frames| - 1 := top[x := v]]
  }

  function PlaceOf(env: Env, x: string): Loc
  {
    match Find<Binding>(env, x)
    case Some(Variable(l)) => l
    case _ => Global(x)
  }

  function CalleeOf(env: Env, f: string): string
  {
    match Find<Binding>(env, f)
    case Some(Callee(g)) => g
    case _ => f
  }

  function Eval(w: World, env: Env, e: Expr, s: Store): (int, Store)
    decreases e
  {
    match e
    case Num(n) => (n, s)
    case Var(x) => (Read(w, s, PlaceOf(env, x)), s)
    case Assign(x, e1) =>
      var (v, s1) := Eval(w, env, e1, s);
      (v, Write(s1, PlaceOf(env, x), v))
    case Arith(op, l, r) =>
      var (a, s1) := Eval(w, env, l, s);
      var (b, s2) := Eval(w, env, r, s1);
      (w.arith(op, a, b), s2)
    case Compare(op, l, r) =>
      var (a, s1) := Eval(w, env, l, s);
      var (b, s2) := Eval(w, env, r, s1);
      (if Test(op, a, b) then 1 else 0, s2)
    case Call(f, args) =>
      var (vs, s1) := EvalAll(w, env, args, s);
      Ask(w, CalleeOf(env, f), vs, s1)
  }

  function EvalAll(w: World, env: Env, es: seq<Expr>, s: Store): (seq<int>, Store)
    decreases es
  {
    if es == [] then ([], s)
    else
      var (v, s1) := Eval(w, env, es[0], s);
      var (vs, s2) := EvalAll(w, env, es[1..], s1);
      ([v] + vs, s2)
  }

  // Every declaration makes a new place.
  function Declare(env: Env, x: string, s: Store): (Env, Store)
    requires env != []
  {
    (Push(env, x, Variable(Local(s.next))), s.(next := s.next + 1))
  }

  function DeclareAll(env: Env, xs: seq<string>, s: Store): (r: (Env, Store))
    requires env != []
    ensures r.0 != []
    decreases xs
  {
    if xs == [] then (env, s)
    else
      var (env1, s1) := Declare(env, xs[0], s);
      DeclareAll(env1, xs[1..], s1)
  }

  datatype Outcome = Normal(s: Store) | Returned(value: Option<int>, s: Store) | Timeout

  // Statements, with fuel for the rounds of loops.
  function Exec(w: World, env: Env, t: Stmt, s: Store, fuel: nat): Outcome
    decreases fuel, t
  {
    match t
    case ExprStmt(None) => Normal(s)
    case ExprStmt(Some(e)) => Normal(Eval(w, env, e, s).1)
    case Compound(decls, body) =>
      var (env1, s1) := DeclareAll(env + [map[]], decls, s);
      ExecAll(w, env1, body, s1, fuel)
    case If(c, a, b) =>
      var (v, s1) := Eval(w, env, c, s);
      if v != 0 then Exec(w, env, a, s1, fuel)
      else if b.Some? then Exec(w, env, b.value, s1, fuel)
      else Normal(s1)
    case While(c, a) =>
      if fuel == 0 then Timeout
      else
        var (v, s1) := Eval(w, env, c, s);
        if v == 0 then Normal(s1)
        else
          var r := Exec(w, env, a, s1, fuel);
          if r.Normal? then Exec(w, env, t, r.s, fuel - 1) else r
    case Return(None) => Returned(None, s)
    case Return(Some(e)) =>
      var (v, s1) := Eval(w, env, e, s);
      Returned(Some(v), s1)
  }

  function ExecAll(w: World, env: Env, ts: seq<Stmt>, s: Store, fuel: nat): Outcome
    decreases fuel, ts
  {
    if ts == [] then Normal(s)
    else
      var r := Exec(w, env, ts[0], s, fuel);
      if r.Normal? then ExecAll(w, env, ts[1..], r.s, fuel) else r
  }

  function BindParams(env: Env, params: seq<string>, args: seq<int>, s: Store): (r: (Env, Store))
    requires env != [] && |params| == |args|
    ensures r.0 != []
    decreases params
  {
    if params == [] then (env, s)
    else
      var (env1, s1) := Declare(env, params[0], s);
      BindParams(env1, params[1..], args[1..], Write(s1, Local(s.next), args[0]))
  }

  // A call of a function: parameters and local declarations share one frame, and falling off the
  // end of a function with a result returns 0.
  function CallFunction(w: World, env: Env, f: Function, args: seq<int>, s: Store, fuel: nat): Outcome
    requires |f.params| == |args|
  {
    var (env1, s1) := BindParams(env + [map[]], f.params, args, s);
    var (env2, s2) := DeclareAll(env1, f.decls, s1);
    var r := ExecAll(w, env2, f.body, s2, fuel);
    if r.Normal? then Returned(if f.void then None else Some(0), r.s) else r
  }
}
