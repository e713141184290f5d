// What the functions can do whose calls may be deleted, and which instructions the pass leaves.
module SafeFunctions {
  import opened Graph
  import opened DeadCode
  import opened Marking
  import opened Sweeping

  // ---- Which functions are safe ----

  // The instructions of f are neither calls nor stores.
  ghost predicate Harmless(code: Code, f: Function)
  {
    forall b, i {:trigger i in Get(code, b)} :: b in f.blocks && i in Get(code, b) ==> !i.kind.Call? && !i.kind.Store?
  }

  lemma SafeFunctionIff(code: Code, f: Function)
    ensures SafeFunction(code, f) <==>
      f.name !in {"main", "output", "outputFloat", "neg_idx_except", "input"} && Harmless(code, f)
  {
    if Harmless(code, f) {
      forall b | b in f.blocks ensures Quiet(Get(code, b)) {
      }
    }
    if SafeFunction(code, f) {
      forall b, i | b in f.blocks && i in Get(code, b) ensures !i.kind.Call? && !i.kind.Store? {
        assert Quiet(Get(code, b));
      }
    }
  }

  // ---- What a safe function does ----

  // The code of one function. Control does not leave it.
  function BodyOf(code: Code, f: Function): Code
  {
    map b | b in code && b in f.blocks :: code[b]
  }

  // Nothing has happened but decisions at branches.
  ghost predicate OnlyBranches(before: seq<Event>, after: seq<Event>)
  {
    before <= after && forall k :: |before| <= k < |after| ==> after[k].Branched?
  }

  ghost predicate Unnoticed(s: State, c: Config)
  {
    match c
    case At(_, s') => s'.mem == s.mem && OnlyBranches(s.trace, s'.trace)
    case Halted(_, trace) => OnlyBranches(s.trace, trace)
    case Stuck => true
  }

  lemma {:induction false} QuietExec(w: World, safe: set<string>, s: seq<Instr>, st: State)
    requires Quiet(s)
    ensures Exec(w, safe, s, st).mem == st.mem && Exec(w, safe, s, st).trace == st.trace
  {
    if s != [] {
      var init, last := s[..|s| - 1], s[|s| - 1];
      assert last in s && forall i :: i in init ==> i in s;
      QuietExec(w, safe, init, st);
    }
  }

  // However long a safe function runs, from whatever state, memory stays as it was and no call is made.
  lemma {:induction false} SafeUnnoticed(w: World, safe: set<string>, code: Code, f: Function, b: Block, s: State,
      n: nat)
    requires SafeFunction(code, f)
    ensures Unnoticed(s, Run(w, safe, BodyOf(code, f), At(b, s), n))
  {
    if n > 0 {
      SafeUnnoticed(w, safe, code, f, b, s, n - 1);
      var c := Run(w, safe, BodyOf(code, f), At(b, s), n - 1);
      if c.At? && c.b in BodyOf(code, f) {
        assert Quiet(Get(code, c.b));
        QuietExec(w, safe, code[c.b], c.s);
      }
    }
  }

  // The same place, registers and memory, or the same result.
  ghost predicate SameResult(c: Config, c': Config)
  {
    match (c, c')
    case (At(b, s), At(b', s')) => b == b' && s.regs == s'.regs && s.mem == s'.mem
    case (Halted(v, _), Halted(v', _)) => v == v'
    case (Stuck, Stuck) => true
    case _ => false
  }

  lemma {:induction false} QuietResult(w: World, safe: set<string>, s: seq<Instr>, st: State, st': State)
    requires Quiet(s) && st.regs == st'.regs && st.mem == st'.mem
    ensures Exec(w, safe, s, st).regs == Exec(w, safe, s, st').regs
  {
    if s != [] {
      var init, last := s[..|s| - 1], s[|s| - 1];
      assert last in s && forall i :: i in init ==> i in s;
      QuietResult(w, safe, init, st, st');
      QuietExec(w, safe, init, st);
      QuietExec(w, safe, init, st');
    }
  }

  // What it returns depends on its arguments and on memory, and on nothing that happened before.
  lemma {:induction false} SafeResult(w: World, safe: set<string>, code: Code, f: Function, b: Block, s: State,
      s': State, n: nat)
    requires SafeFunction(code, f) && s.regs == s'.regs && s.mem == s'.mem
    ensures SameResult(Run(w, safe, BodyOf(code, f), At(b, s), n), Run(w, safe, BodyOf(code, f), At(b, s'), n))
  {
    if n > 0 {
      SafeResult(w, safe, code, f, b, s, s', n - 1);
      var c, c' := Run(w, safe, BodyOf(code, f), At(b, s), n - 1), Run(w, safe, BodyOf(code, f), At(b, s'), n - 1);
      if c.At? && c.b in BodyOf(code, f) {
        assert Quiet(Get(code, c.b));
        QuietExec(w, safe, code[c.b], c.s);
        QuietExec(w, safe, code[c.b], c'.s);
        QuietResult(w, safe, code[c.b], c.s, c'.s);
      }
    }
  }

  // Some function of that name has neither calls nor stores.
  ghost predicate HarmlessOne(code: Code, funcs: seq<Function>, name: string)
  {
    exists f :: f in funcs && f.name == name && Harmless(code, f)
  }

  // Some function of that name never does anything that can be noticed but return a result.
  ghost predicate UnnoticedOne(code: Code, funcs: seq<Function>, name: string)
  {
    exists f :: f in funcs && f.name == name && NeverNoticed(code, f)
  }

  ghost predicate NeverNoticed(code: Code, f: Function)
  {
    forall w, safe, b, s, n: nat {:trigger Run(w, safe, BodyOf(code, f), At(b, s), n)} ::
      Unnoticed(s, Run(w, safe, BodyOf(code, f), At(b, s), n))
  }

  ghost predicate AllUnnoticed(code: Code, funcs: seq<Function>, names: set<string>)
  {
    forall name :: name in names ==> UnnoticedOne(code, funcs, name)
  }

  lemma SafeNamesIff(code: Code, funcs: seq<Function>)
    ensures {"main", "output", "outputFloat", "neg_idx_except", "input"} !! SafeNames(code, funcs)
    ensures forall f :: f in funcs && Harmless(code, f) ==>
      f.name in SafeNames(code, funcs) + {"main", "output", "outputFloat", "neg_idx_except", "input"}
    ensures forall name :: name in SafeNames(code, funcs) ==> HarmlessOne(code, funcs, name)
    ensures AllUnnoticed(code, funcs, SafeNames(code, funcs))
  {
    forall f ensures SafeFunction(code, f) <==>
      f.name !in {"main", "output", "outputFloat", "neg_idx_except", "input"} && Harmless(code, f) {
      SafeFunctionIff(code, f);
    }
    forall name | name in SafeNames(code, funcs)
      ensures HarmlessOne(code, funcs, name) && UnnoticedOne(code, funcs, name)
    {
      var f :| f in funcs && SafeFunction(code, f) && f.name == name;
      forall w, safe, b, s, n: nat ensures Unnoticed(s, Run(w, safe, BodyOf(code, f), At(b, s), n)) {
        SafeUnnoticed(w, safe, code, f, b, s, n);
      }
      assert NeverNoticed(code, f);
    }
  }

  // But it need not return: a function that only loops is safe, and calls of it are deleted.
  lemma SafeNeedNotReturn() returns (code: Code, f: Function)
    ensures SafeFunction(code, f) && f.blocks == [0] && Terminated(code)
    ensures forall w, safe, s, n {:trigger Run(w, safe, BodyOf(code, f), At(0, s), n)} ::
      Run(w, safe, BodyOf(code, f), At(0, s), n) == At(0, s)
  {
    code, f := map[0 := [Instr(0, Br, [Label(0)])]], Function("wait", {}, [0]);
    SafeFunctionIff(code, f);
    assert BodyOf(code, f) == code;
    forall w, safe, s, n ensures Run(w, safe, code, At(0, s), n) == At(0, s) {
      LoopStays(w, safe, code, s, n);
    }
  }

  lemma {:induction false} LoopStays(w: World, safe: set<string>, code: Code, s: State, n: nat)
    requires code == map[0 := [Instr(0, Br, [Label(0)])]]
    ensures Run(w, safe, code, At(0, s), n) == At(0, s)
  {
    if n > 0 {
      LoopStays(w, safe, code, s, n - 1);
      var here := code[0];
      assert Exec(w, safe, here[..0], s) == s;
      assert Exec(w, safe, here, s) == s;
      assert EnterPhis(w, here[..0], 0, s.regs) == s.regs;
      assert EnterPhis(w, here, 0, s.regs) == s.regs;
    }
  }

  // ---- What the pass leaves ----

  // A store, a conditional branch, a call of a function that is not safe, or a return of something else
  // than a parameter.
  ghost predicate Seen(safe: set<string>, params: set<nat>, i: Instr)
  {
    || i.kind == Store || i.kind == CondBr
    || (i.kind.Call? && !(i.ops != [] && i.ops[0].Func? && i.ops[0].name in safe))
    || (i.kind == Ret && i.ops != [] && !exists a :: a in params && i.ops[0] == Arg(a))
  }

  lemma SeenIff(safe: set<string>, params: set<nat>, i: Instr)
    ensures Seen(safe, params, i) <==> Root(safe, params, i)
  {
    if i.kind.Ret? && i.ops != [] {
      assert i.ops[0].Arg? ==> i.ops[0] == Arg(i.ops[0].i);
    }
  }

  // Some instruction whose effect can be seen needs v.
  ghost predicate SomeSeenNeeds(objects: Objects, funcs: seq<Function>, code: Code, safe: set<string>, v: Value)
  {
    exists f, b, i {:trigger SeenNeeds(objects, code, safe, f, b, i, v)} ::
      f in funcs && SeenNeeds(objects, code, safe, f, b, i, v)
  }

  ghost predicate SeenNeeds(objects: Objects, code: Code, safe: set<string>, f: Function, b: Block, i: Instr, v: Value)
  {
    b in f.blocks && i in Get(code, b) && Seen(safe, f.params, i) && Needs(objects, Inst(i.id), v)
  }

  lemma SeenNeedsIff(objects: Objects, funcs: seq<Function>, code: Code, safe: set<string>, v: Value)
    ensures NeededFrom(objects, AllRoots(safe, code, funcs), v) <==> SomeSeenNeeds(objects, funcs, code, safe, v)
  {
    if NeededFrom(objects, AllRoots(safe, code, funcs), v) {
      var id :| id in AllRoots(safe, code, funcs) && Needs(objects, Inst(id), v);
      var f, b, i := RootOf(funcs, code, safe, id);
      SeenIff(safe, f.params, i);
      assert SeenNeeds(objects, code, safe, f, b, i, v);
    }
    if SomeSeenNeeds(objects, funcs, code, safe, v) {
      var f, b, i :| f in funcs && SeenNeeds(objects, code, safe, f, b, i, v);
      SeenIff(safe, f.params, i);
      assert i.id in Roots(safe, code, f);
      assert i.id in AllRoots(safe, code, funcs);
    }
  }

  lemma RootOf(funcs: seq<Function>, code: Code, safe: set<string>, id: Id) returns (f: Function, b: Block, i: Instr)
    requires id in AllRoots(safe, code, funcs)
    ensures f in funcs && b in f.blocks && i in Get(code, b) && Root(safe, f.params, i) && i.id == id
  {
    f :| f in funcs && id in Roots(safe, code, f);
    b, i :| b in f.blocks && i in Get(code, b) && Root(safe, f.params, i) && i.id == id;
  }

  // What the pass leaves: terminators, stores and calls without result of functions that are not safe,
  // and what some instruction needs whose effect can be seen.
  ghost predicate Stays(objects: Objects, funcs: seq<Function>, code: Code, safe: set<string>, i: Instr)
  {
    || i.kind in {Store, Br, CondBr, Ret}
    || (i.kind == Call(true) && !(i.ops != [] && i.ops[0].Func? && i.ops[0].name in safe))
    || SomeSeenNeeds(objects, funcs, code, safe, Inst(i.id))
  }

  // Of code exactly what stays is left.
  ghost predicate LeavesNeeded(objects: Objects, funcs: seq<Function>, code: Code, safe: set<string>, code': Code)
  {
    forall b, i {:trigger i in Get(code', b)} ::
      i in Get(code', b) <==> i in Get(code, b) && Stays(objects, funcs, code, safe, i)
  }

  lemma StaysIff(objects: Objects, funcs: seq<Function>, code: Code, safe: set<string>, live: set<Value>, b: Block,
      i: Instr)
    requires Program(objects, funcs, code) && LiveExactly(objects, live, AllRoots(safe, code, funcs))
    ensures i in Get(KeepAll(code, Doomed(objects, safe, live)), b) <==>
      (i in Get(code, b) && Stays(objects, funcs, code, safe, i))
  {
    KeepIff(Get(code, b), Doomed(objects, safe, live), i);
    if i in Get(code, b) {
      MadeSo(objects, funcs, code, b, i);
      LiveIff(objects, live, AllRoots(safe, code, funcs), Inst(i.id));
      SeenNeedsIff(objects, funcs, code, safe, Inst(i.id));
    }
  }
}
