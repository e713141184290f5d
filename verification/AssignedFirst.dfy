// Functions that assign to all their variables first, and that what these hold before does not matter.
module AssignedFirst {
  import opened Graph
  import opened Cminus

  // ---- The condition ----

  // The names assigned to once e has been evaluated.
  function DoneAfter(e: Expr, done: set<string>): (r: set<string>)
    ensures done <= r
    decreases e
  {
    match e
    case Assign(x, e1) => DoneAfter(e1, done) + {x}
    case Arith(_, l, r) => DoneAfter(r, DoneAfter(l, done))
    case Compare(_, l, r) => DoneAfter(r, DoneAfter(l, done))
    case Call(_, args) => AllDoneAfter(args, done)
    case _ => done
  }

  function AllDoneAfter(es: seq<Expr>, done: set<string>): (r: set<string>)
    ensures done <= r
    decreases es
  {
    if es == [] then done else AllDoneAfter(es[1..], DoneAfter(es[0], done))
  }

  // e reads a local variable only after assigning to it, those in done having been assigned to before.
  predicate ReadsDone(e: Expr, locals: set<string>, done: set<string>)
    decreases e
  {
    match e
    case Num(_) => true
    case Var(x) => x in locals ==> x in done
    case Assign(_, e1) => ReadsDone(e1, locals, done)
    case Arith(_, l, r) => ReadsDone(l, locals, done) && ReadsDone(r, locals, DoneAfter(l, done))
    case Compare(_, l, r) => ReadsDone(l, locals, done) && ReadsDone(r, locals, DoneAfter(l, done))
    case Call(_, args) => AllReadsDone(args, locals, done)
  }

  predicate AllReadsDone(es: seq<Expr>, locals: set<string>, done: set<string>)
    decreases es
  {
    es == [] || (ReadsDone(es[0], locals, done) && AllReadsDone(es[1..], locals, DoneAfter(es[0], done)))
  }

  // No declarations in inner blocks.
  predicate Flat(t: Stmt)
    decreases t
  {
    match t
    case Compound(decls, body) => decls == [] && AllFlat(body)
    case If(_, a, b) => Flat(a) && (b.Some? ==> Flat(b.value))
    case While(_, a) => Flat(a)
    case _ => true
  }

  predicate AllFlat(ts: seq<Stmt>)
    decreases ts
  {
    ts == [] || (Flat(ts[0]) && AllFlat(ts[1..]))
  }

  // Expression statements come first until all locals have been assigned to.
  predicate Opens(ts: seq<Stmt>, locals: set<string>, done: set<string>)
    decreases ts
  {
    if locals <= done then AllFlat(ts)
    else
      && ts != [] && ts[0].ExprStmt? && OpensWith(ts[0].e, locals, done)
      && Opens(ts[1..], locals, NextDone(ts[0].e, done))
  }

  predicate OpensWith(e: Option<Expr>, locals: set<string>, done: set<string>)
  {
    e.Some? ==> ReadsDone(e.value, locals, done)
  }

  function NextDone(e: Option<Expr>, done: set<string>): set<string>
  {
    if e.Some? then DoneAfter(e.value, done) else done
  }

  function Names(xs: seq<string>): set<string>
  {
    set x | x in xs
  }

  // Parameters and variables share a scope. Parameters have been assigned to by the call.
  predicate AssignsFirst(f: Function)
  {
    Opens(f.body, Names(f.params) + Names(f.decls), Names(f.params))
  }

  lemma {:induction false} EnoughDone(e: Expr, locals: set<string>, done: set<string>)
    requires locals <= done
    ensures ReadsDone(e, locals, done)
    decreases e
  {
    match e
    case Assign(_, e1) => EnoughDone(e1, locals, done);
    case Arith(_, l, r) =>
      EnoughDone(l, locals, done);
      EnoughDone(r, locals, DoneAfter(l, done));
    case Compare(_, l, r) =>
      EnoughDone(l, locals, done);
      EnoughDone(r, locals, DoneAfter(l, done));
    case Call(_, args) => AllEnoughDone(args, locals, done);
    case _ =>
  }

  lemma {:induction false} AllEnoughDone(es: seq<Expr>, locals: set<string>, done: set<string>)
    requires locals <= done
    ensures AllReadsDone(es, locals, done)
    decreases es
  {
    if es != [] {
      EnoughDone(es[0], locals, done);
      AllEnoughDone(es[1..], locals, DoneAfter(es[0], done));
    }
  }

  // ---- The source run ----

  // Places of the function are bound to locals, and those of the names in done hold something.
  ghost predicate KnownAt(env: Env, locals: set<string>, done: set<string>, s: Store, x: string)
  {
    PlaceOf(env, x).Local? ==> x in locals && (x in done ==> PlaceOf(env, x).n in s.locals)
  }

  ghost predicate Known(env: Env, locals: set<string>, done: set<string>, s: Store)
  {
    forall x {:trigger KnownAt(env, locals, done, s, x)} :: KnownAt(env, locals, done, s, x)
  }

  lemma {:induction false} EvalSame(w: World, w': World, env: Env, e: Expr, s: Store, locals: set<string>,
      done: set<string>)
    requires SameBut(w, w') && Known(env, locals, done, s) && ReadsDone(e, locals, done)
    ensures Eval(w', env, e, s) == Eval(w, env, e, s) && Known(env, locals, DoneAfter(e, done), Eval(w, env, e, s).1)
    decreases e
  {
    match e
    case Num(_) =>
    case Var(x) => assert KnownAt(env, locals, done, s, x);
    case Assign(x, e1) =>
      EvalSame(w, w', env, e1, s, locals, done);
      var (v, s1) := Eval(w, env, e1, s);
      WriteKnown(env, locals, DoneAfter(e1, done), s1, x, v);
    case Arith(_, l, r) =>
      EvalSame(w, w', env, l, s, locals, done);
      EvalSame(w, w', env, r, Eval(w, env, l, s).1, locals, DoneAfter(l, done));
    case Compare(_, l, r) =>
      EvalSame(w, w', env, l, s, locals, done);
      EvalSame(w, w', env, r, Eval(w, env, l, s).1, locals, DoneAfter(l, done));
    case Call(f, args) =>
      EvalAllSame(w, w', env, args, s, locals, done);
      var (vs, s1) := EvalAll(w, env, args, s);
      SameLocals(env, locals, DoneAfter(e, done), s1, Ask(w, CalleeOf(env, f), vs, s1).1);
  }

  lemma SameLocals(env: Env, locals: set<string>, done: set<string>, s: Store, s': Store)
    requires Known(env, locals, done, s) && s'.locals == s.locals
    ensures Known(env, locals, done, s')
  {
    forall x ensures KnownAt(env, locals, done, s', x) {
      assert KnownAt(env, locals, done, s, x);
    }
  }

  lemma WriteKnown(env: Env, locals: set<string>, done: set<string>, s: Store, x: string, v: int)
    requires Known(env, locals, done, s)
    ensures Known(env, locals, done + {x}, Write(s, PlaceOf(env, x), v))
  {
    forall y ensures KnownAt(env, locals, done + {x}, Write(s, PlaceOf(env, x), v), y) {
      assert KnownAt(env, locals, done, s, y);
    }
  }

  lemma {:induction false} EvalAllSame(w: World, w': World, env: Env, es: seq<Expr>, s: Store, locals: set<string>,
      done: set<string>)
    requires SameBut(w, w') && Known(env, locals, done, s) && AllReadsDone(es, locals, done)
    ensures EvalAll(w', env, es, s) == EvalAll(w, env, es, s)
    ensures Known(env, locals, AllDoneAfter(es, done), EvalAll(w, env, es, s).1)
    decreases es
  {
    if es != [] {
      EvalSame(w, w', env, es[0], s, locals, done);
      EvalAllSame(w, w', env, es[1..], Eval(w, env, es[0], s).1, locals, DoneAfter(es[0], done));
    }
  }

  lemma KnownLess(env: Env, locals: set<string>, done: set<string>, done': set<string>, s: Store)
    requires Known(env, locals, done, s) && done' <= done
    ensures Known(env, locals, done', s)
  {
    forall x ensures KnownAt(env, locals, done', s, x) {
      assert KnownAt(env, locals, done, s, x);
    }
  }

  // Once all locals hold something, everything is the same in both worlds.
  lemma EvalSettled(w: World, w': World, env: Env, e: Expr, s: Store, locals: set<string>)
    requires SameBut(w, w') && Known(env, locals, locals, s)
    ensures Eval(w', env, e, s) == Eval(w, env, e, s) && Known(env, locals, locals, Eval(w, env, e, s).1)
  {
    EnoughDone(e, locals, locals);
    EvalSame(w, w', env, e, s, locals, locals);
    KnownLess(env, locals, DoneAfter(e, locals), locals, Eval(w, env, e, s).1);
  }

  lemma EnterKnown(env: Env, locals: set<string>, done: set<string>, s: Store)
    requires Known(env, locals, done, s)
    ensures Known(env + [map[]], locals, done, s)
  {
    var inner: Env := env + [map[]];
    assert inner[..|inner| - 1] == env;
    forall x ensures KnownAt(inner, locals, done, s, x) {
      assert KnownAt(env, locals, done, s, x);
      assert Find<Binding>(inner, x) == Find<Binding>(env, x);
    }
  }

  // The store of an inner scope without declarations, seen from outside.
  lemma LeaveKnown(env: Env, locals: set<string>, done: set<string>, s: Store)
    requires Known(env + [map[]], locals, done, s)
    ensures Known(env, locals, done, s)
  {
    var inner: Env := env + [map[]];
    assert inner[..|inner| - 1] == env;
    forall x ensures KnownAt(env, locals, done, s, x) {
      assert KnownAt(inner, locals, done, s, x);
      assert Find<Binding>(inner, x) == Find<Binding>(env, x);
    }
  }

  ghost predicate SameOutcome(env: Env, locals: set<string>, r: Outcome, r': Outcome)
  {
    r' == r && (r.Normal? ==> Known(env, locals, locals, r.s))
  }

  lemma {:induction false} ExecSame(w: World, w': World, env: Env, t: Stmt, s: Store, fuel: nat, locals: set<string>)
    requires SameBut(w, w') && Known(env, locals, locals, s) && Flat(t)
    ensures SameOutcome(env, locals, Exec(w, env, t, s, fuel), Exec(w', env, t, s, fuel))
    decreases fuel, t, 1
  {
    match t
    case ExprStmt(None) =>
    case ExprStmt(Some(e)) => EvalSettled(w, w', env, e, s, locals);
    case Compound(_, body) =>
      EnterKnown(env, locals, locals, s);
      ExecAllSame(w, w', env + [map[]], body, s, fuel, locals);
      var r := ExecAll(w, env + [map[]], body, s, fuel);
      if r.Normal? {
        LeaveKnown(env, locals, locals, r.s);
      }
    case If(c, a, b) =>
      EvalSettled(w, w', env, c, s, locals);
      var (v, s1) := Eval(w, env, c, s);
      if v != 0 {
        ExecSame(w, w', env, a, s1, fuel, locals);
      } else if b.Some? {
        ExecSame(w, w', env, b.value, s1, fuel, locals);
      }
    case While(c, a) =>
      if fuel > 0 {
        LoopSame(w, w', env, c, a, s, fuel, locals);
      }
    case Return(None) =>
    case Return(Some(e)) => EvalSettled(w, w', env, e, s, locals);
  }

  lemma {:induction false} LoopSame(w: World, w': World, env: Env, c: Expr, a: Stmt, s: Store, fuel: nat,
      locals: set<string>)
    requires SameBut(w, w') && Known(env, locals, locals, s) && Flat(a) && fuel > 0
    ensures SameOutcome(env, locals, Exec(w, env, While(c, a), s, fuel), Exec(w', env, While(c, a), s, fuel))
    decreases fuel, While(c, a), 0
  {
    EvalSettled(w, w', env, c, s, locals);
    var (v, s1) := Eval(w, env, c, s);
    if v != 0 {
      ExecSame(w, w', env, a, s1, fuel, locals);
      var r := Exec(w, env, a, s1, fuel);
      if r.Normal? {
        ExecSame(w, w', env, While(c, a), r.s, fuel - 1, locals);
      }
    }
  }

  lemma {:induction false} ExecAllSame(w: World, w': World, env: Env, ts: seq<Stmt>, s: Store, fuel: nat,
      locals: set<string>)
    requires SameBut(w, w') && Known(env, locals, locals, s) && AllFlat(ts)
    ensures SameOutcome(env, locals, ExecAll(w, env, ts, s, fuel), ExecAll(w', env, ts, s, fuel))
    decreases fuel, ts
  {
    if ts != [] {
      ExecSame(w, w', env, ts[0], s, fuel, locals);
      var r := Exec(w, env, ts[0], s, fuel);
      if r.Normal? {
        ExecAllSame(w, w', env, ts[1..], r.s, fuel, locals);
      }
    }
  }

  // The statements of a function that assigns to its variables first.
  lemma {:induction false} OpensSame(w: World, w': World, env: Env, ts: seq<Stmt>, s: Store, fuel: nat,
      locals: set<string>, done: set<string>)
    requires SameBut(w, w') && Known(env, locals, done, s) && Opens(ts, locals, done)
    ensures ExecAll(w', env, ts, s, fuel) == ExecAll(w, env, ts, s, fuel)
    decreases ts
  {
    if locals <= done {
      KnownLess(env, locals, done, locals, s);
      ExecAllSame(w, w', env, ts, s, fuel, locals);
    } else {
      var e := ts[0].e;
      if e.Some? {
        EvalSame(w, w', env, e.value, s, locals, done);
      }
      OpensSame(w, w', env, ts[1..], if e.Some? then Eval(w, env, e.value, s).1
        else s, fuel, locals, NextDone(e, done));
    }
  }

  // ---- Calls ----

  ghost function Top(env: Env): set<string>
    requires env != []
  {
    env[|env| - 1].Keys
  }

  // A declaration binds a new name to a new place, and changes nothing else.
  lemma PushPlace(env: Env, x: string, n: int, y: string)
    requires env != []
    ensures PlaceOf(Push(env, x, Variable(Local(n))), y) == if y == x &&
      x !in Top(env) then Local(n) else PlaceOf(env, y)
    ensures Top(Push(env, x, Variable(Local(n)))) == Top(env) + {x}
  {
    var env' := Push(env, x, Variable(Local(n)));
    assert env'[..|env'| - 1] == env[..|env| - 1];
  }

  lemma DeclareKnown(env: Env, x: string, s: Store, locals: set<string>, done: set<string>)
    requires env != [] && Known(env, locals, done, s) && done <= Top(env) && x in locals
    ensures
      var (env', s') := Declare(env, x, s);
      env' != [] && Known(env', locals, done, s') && Top(env') == Top(env) + {x}
  {
    var (env', s') := Declare(env, x, s);
    PushPlace(env, x, s.next, x);
    forall y ensures KnownAt(env', locals, done, s', y) {
      PushPlace(env, x, s.next, y);
      assert KnownAt(env, locals, done, s, y);
    }
  }

  lemma {:induction false} DeclareAllKnown(env: Env, xs: seq<string>, s: Store, locals: set<string>, done: set<string>)
    requires env != [] && Known(env, locals, done, s) && done <= Top(env) && forall x :: x in xs ==> x in locals
    ensures Known(DeclareAll(env, xs, s).0, locals, done, DeclareAll(env, xs, s).1)
    decreases xs
  {
    if xs != [] {
      DeclareKnown(env, xs[0], s, locals, done);
      var (env1, s1) := Declare(env, xs[0], s);
      DeclareAllKnown(env1, xs[1..], s1, locals, done);
    }
  }

  // A parameter is assigned to as it is declared.
  lemma ParamKnown(env: Env, x: string, arg: int, s: Store, locals: set<string>)
    requires env != [] && Known(env, locals, Top(env), s) && x in locals
    ensures
      var (env', s') := Declare(env, x, s);
      env' != [] && Known(env', locals, Top(env'), Write(s', Local(s.next), arg)) && Top(env') == Top(env) + {x}
  {
    var (env', s') := Declare(env, x, s);
    var s2 := Write(s', Local(s.next), arg);
    PushPlace(env, x, s.next, x);
    forall y ensures KnownAt(env', locals, Top(env'), s2, y) {
      PushPlace(env, x, s.next, y);
      assert KnownAt(env, locals, Top(env), s, y);
    }
  }

  lemma {:induction false} ParamsKnown(env: Env, params: seq<string>, args: seq<int>, s: Store, locals: set<string>)
    requires env != [] && |params| == |args| && Known(env, locals, Top(env), s) && forall x :: x in params ==>
      x in locals
    ensures
      var (env', s') := BindParams(env, params, args, s);
      env' != [] && Known(env', locals, Top(env'), s') && Top(env') == Top(env) + Names(params)
    decreases params
  {
    if params != [] {
      ParamKnown(env, params[0], args[0], s, locals);
      var (env1, s1) := Declare(env, params[0], s);
      ParamsKnown(env1, params[1..], args[1..], Write(s1, Local(s.next), args[0]), locals);
      assert Names(params) == {params[0]} + Names(params[1..]);
    }
  }

  // Outside functions only global variables are bound.
  ghost predicate GlobalEnv(env: Env)
  {
    forall x {:trigger PlaceOf(env, x)} :: !PlaceOf(env, x).Local?
  }

  // A function that assigns to its variables first does the same whatever they hold before.
  lemma SameCall(w: World, w': World, env: Env, f: Function, args: seq<int>, s: Store, fuel: nat)
    requires SameBut(w, w') && GlobalEnv(env) && |args| == |f.params| && AssignsFirst(f)
    ensures CallFunction(w', env, f, args, s, fuel) == CallFunction(w, env, f, args, s, fuel)
  {
    var locals := Names(f.params) + Names(f.decls);
    var inner: Env := env + [map[]];
    assert Top(inner) == {};
    assert Known(env, locals, {}, s) by {
      forall x ensures KnownAt(env, locals, {}, s, x) {
      }
    }
    EnterKnown(env, locals, {}, s);
    ParamsKnown(inner, f.params, args, s, locals);
    var (env1, s1) := BindParams(inner, f.params, args, s);
    assert Top(env1) == Names(f.params);
    KnownLess(env1, locals, Top(env1), Names(f.params), s1);
    DeclareAllKnown(env1, f.decls, s1, locals, Names(f.params));
    var (env2, s2) := DeclareAll(env1, f.decls, s1);
    OpensSame(w, w', env2, f.body, s2, fuel, locals, Names(f.params));
  }

  // ---- Parameters ----

  // Later parameters neither rename nor overwrite what there was.
  lemma {:induction false} BindKeeps(w: World, env: Env, xs: seq<string>, args: seq<int>, s: Store, y: string, n: int)
    requires env != [] && |xs| == |args| && y !in xs && n < s.next
    ensures PlaceOf(BindParams(env, xs, args, s).0, y) == PlaceOf(env, y)
    ensures Read(w, BindParams(env, xs, args, s).1, Local(n)) == Read(w, s, Local(n))
    decreases xs
  {
    if xs != [] {
      var (env1, s1) := Declare(env, xs[0], s);
      PushPlace(env, xs[0], s.next, y);
      BindKeeps(w, env1, xs[1..], args[1..], Write(s1, Local(s.next), args[0]), y, n);
    }
  }

  // In the body of a function a parameter holds the argument in its position.
  lemma {:induction false} ParameterHolds(w: World, env: Env, xs: seq<string>, args: seq<int>, s: Store, k: nat)
    requires env != [] && |xs| == |args| && k < |xs| && xs[k] !in Top(env)
    requires forall j :: 0 <= j < |xs| && j != k ==> xs[j] != xs[k]
    ensures var (env1, s1) := BindParams(env, xs, args, s); Read(w, s1, PlaceOf(env1, xs[k])) == args[k]
    decreases xs
  {
    var (env1, s1) := Declare(env, xs[0], s);
    var s2 := Write(s1, Local(s.next), args[0]);
    PushPlace(env, xs[0], s.next, xs[k]);
    if k == 0 {
      BindKeeps(w, env1, xs[1..], args[1..], s2, xs[0], s.next);
    } else {
      ParameterHolds(w, env1, xs[1..], args[1..], s2, k - 1);
    }
  }
}
