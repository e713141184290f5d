// Instructions with operand lists, their meaning, and why removing unused ones keeps it.
module DeadCode {
  import opened Graph

  type Id = nat  // an instruction, named by its identity; also the value it computes

  datatype Value =
    | Const(n: int)
    | Global(id: nat, init: Option<int>)
    | Arg(i: nat)
    | Label(b: Block)
    | Func(name: string)
    | Inst(id: Id)

  datatype Kind = Store | Load | Phi | Alloca | Op(code: nat) | Call(void: bool) | Br | CondBr | Ret

  datatype Instr = Instr(id: Id, kind: Kind, ops: seq<Value>)
  {
    predicate Terminator()
    {
      kind.Br? || kind.CondBr? || kind.Ret?
    }

    // The instruction has no result.
    predicate Void()
    {
      kind.Ret? || kind.Br? || kind.CondBr? || kind.Store? || (kind.Call? && kind.void)
    }

    // A call to one of the named functions.
    predicate Calls(names: set<string>)
    {
      kind.Call? && |ops| > 0 && ops[0].Func? && ops[0].name in names
    }

    // Nothing outside its own result depends on it, if the named functions have no effects.
    predicate Silent(safe: set<string>)
    {
      kind.Load? || kind.Phi? || kind.Alloca? || kind.Op? || Calls(safe)
    }

    ghost predicate Uses(v: Id)
    {
      Inst(v) in ops
    }
  }

  type Code = map<Block, seq<Instr>>

  // ---- Meaning ----

  datatype Event =
    | Stored(address: int, value: int)
    | Called(ops: seq<Value>, args: seq<int>)
    | Branched(taken: bool)

  // What the function cannot see: operations, addresses, arguments, the results of functions
  // without effects, and the answers and memory effects of all other functions.
  datatype World = World(
    compute: (nat, seq<int>) -> int, address: Value -> int, arg: nat -> int, initial: int -> int,
    pure: (seq<Value>, seq<int>, map<int, int>) -> int,
    answer: seq<Event> -> int, remember: (seq<Event>, map<int, int>) -> map<int, int>)

  datatype State = State(regs: map<Id, int>, mem: map<int, int>, trace: seq<Event>)

  function Eval(w: World, v: Value, regs: map<Id, int>): int
  {
    match v
    case Const(n) => n
    case Arg(i) => w.arg(i)
    case Inst(r) => if r in regs then regs[r] else 0
    case _ => w.address(v)
  }

  function EvalAll(w: World, vs: seq<Value>, regs: map<Id, int>): (r: seq<int>)
    ensures |r| == |vs|
    ensures forall i :: 0 <= i < |vs| ==> r[i] == Eval(w, vs[i], regs)
  {
    seq(|vs|, i requires 0 <= i < |vs| => Eval(w, vs[i], regs))
  }

  function Operand(w: World, vs: seq<Value>, i: nat, regs: map<Id, int>): int
  {
    if i < |vs| then Eval(w, vs[i], regs) else 0
  }

  function Exec1(w: World, safe: set<string>, i: Instr, s: State): State
  {
    match i.kind
    case Store =>
      var a := Operand(w, i.ops, 1, s.regs);
      var v := Operand(w, i.ops, 0, s.regs);
      State(s.regs, s.mem[a := v], s.trace + [Stored(a, v)])
    case Load =>
      var a := Operand(w, i.ops, 0, s.regs);
      s.(regs := s.regs[i.id := if a in s.mem then s.mem[a] else w.initial(a)])
    case Op(code) => s.(regs := s.regs[i.id := w.compute(code, EvalAll(w, i.ops, s.regs))])
    case Alloca => s.(regs := s.regs[i.id := w.address(Inst(i.id))])
    case Call(_) =>
      if i.Calls(safe) then
        s.(regs := s.regs[i.id := w.pure(i.ops[..1], EvalAll(w, i.ops, s.regs), s.mem)])
      else
        var trace := s.trace + [Called(if |i.ops| > 0 then i.ops[..1] else [], EvalAll(w, i.ops, s.regs))];
        State(s.regs[i.id := w.answer(trace)], w.remember(trace, s.mem), trace)
    case _ => s
  }

  function Exec(w: World, safe: set<string>, code: seq<Instr>, s: State): State
  {
    if code == [] then s else Exec1(w, safe, code[|code| - 1], Exec(w, safe, code[..|code| - 1], s))
  }

  // The value a phi takes when control arrives from p: operands alternate with blocks.
  function Incoming(w: World, ops: seq<Value>, p: Block, regs: map<Id, int>): int
  {
    if |ops| < 2 then 0
    else if ops[1] == Label(p) then Eval(w, ops[0], regs)
    else Incoming(w, ops[2..], p, regs)
  }

  // All phis of a block read the registers as they were before any of them is written.
  function EnterPhis(w: World, code: seq<Instr>, p: Block, before: map<Id, int>): map<Id, int>
  {
    if code == [] then before
    else
      var last := code[|code| - 1];
      var regs := EnterPhis(w, code[..|code| - 1], p, before);
      if last.kind.Phi? then regs[last.id := Incoming(w, last.ops, p, before)] else regs
  }

  datatype Config = At(b: Block, s: State) | Halted(value: Option<int>, trace: seq<Event>) | Stuck

  function Goto(w: World, code: Code, p: Block, target: Value, s: State): Config
  {
    if target.Label? && target.b in code then
      At(target.b, s.(regs := EnterPhis(w, code[target.b], p, s.regs)))
    else Stuck
  }

  function Leave(w: World, code: Code, b: Block, t: Instr, s: State): Config
  {
    match t.kind
    case Br => if |t.ops| == 1 then Goto(w, code, b, t.ops[0], s) else Stuck
    case CondBr =>
      if |t.ops| == 3 then
        var taken := Eval(w, t.ops[0], s.regs) != 0;
        Goto(w, code, b, if taken then t.ops[1] else t.ops[2], s.(trace := s.trace + [Branched(taken)]))
      else Stuck
    case Ret => Halted(if |t.ops| == 0 then None else Some(Eval(w, t.ops[0], s.regs)), s.trace)
    case _ => Stuck
  }

  function StepBlock(w: World, safe: set<string>, code: Code, c: Config): Config
  {
    if c.At? && c.b in code && |code[c.b]| > 0 then
      Leave(w, code, c.b, code[c.b][|code[c.b]| - 1], Exec(w, safe, code[c.b], c.s))
    else c
  }

  function Run(w: World, safe: set<string>, code: Code, c: Config, n: nat): Config
  {
    if n == 0 then c else StepBlock(w, safe, code, Run(w, safe, code, c, n - 1))
  }

  // ---- Removing instructions ----

  function Keep(code: seq<Instr>, gone: set<Id>): seq<Instr>
  {
    if code == [] then []
    else
      var last := code[|code| - 1];
      Keep(code[..|code| - 1], gone) + (if last.id in gone then [] else [last])
  }

  lemma {:induction false} KeepIff(code: seq<Instr>, gone: set<Id>, i: Instr)
    ensures i in Keep(code, gone) <==> i in code && i.id !in gone
  {
    if code != [] {
      var init, last := code[..|code| - 1], code[|code| - 1];
      assert code == init + [last];
      KeepIff(init, gone, i);
    }
  }

  lemma {:induction false} KeepKeep(code: seq<Instr>, a: set<Id>, b: set<Id>)
    ensures Keep(Keep(code, a), b) == Keep(code, a + b)
  {
    if code != [] {
      var init, last := code[..|code| - 1], code[|code| - 1];
      KeepKeep(init, a, b);
      if last.id !in a {
        var kept := Keep(init, a) + [last];
        assert kept[..|kept| - 1] == Keep(init, a);
      } else {
        assert Keep(code, a) == Keep(init, a);
      }
    }
  }

  lemma {:induction false} KeepSame(code: seq<Instr>, a: set<Id>, b: set<Id>)
    requires forall i :: i in code ==> (i.id in a <==> i.id in b)
    ensures Keep(code, a) == Keep(code, b)
  {
    if code != [] {
      var init, last := code[..|code| - 1], code[|code| - 1];
      assert forall i :: i in init ==> i in code;
      assert last in code;
      KeepSame(init, a, b);
    }
  }

  function KeepAll(code: Code, gone: set<Id>): Code
  {
    map b | b in code :: Keep(code[b], gone)
  }

  // What is removed is silent, and what stays does not use it.
  ghost predicate Removable(safe: set<string>, i: Instr, gone: set<Id>)
  {
    if i.id in gone then i.Silent(safe) && !i.Terminator() else forall v :: v in gone ==> !i.Uses(v)
  }

  ghost predicate AllRemovable(safe: set<string>, code: seq<Instr>, gone: set<Id>)
  {
    forall i {:trigger Removable(safe, i, gone)} :: i in code ==> Removable(safe, i, gone)
  }

  ghost predicate CodeRemovable(safe: set<string>, code: Code, gone: set<Id>)
  {
    forall b {:trigger AllRemovable(safe, Get(code, b), gone)} :: AllRemovable(safe, Get(code, b), gone)
  }

  function Get(code: Code, b: Block): seq<Instr>
  {
    if b in code then code[b] else []
  }

  // Registers agree except on removed results.
  ghost predicate SameRegs(r: map<Id, int>, r': map<Id, int>, gone: set<Id>)
  {
    forall v {:trigger v in r} {:trigger v in r'} :: v !in gone ==> (v in r <==> v in r') && (v in r ==> r[v] == r'[v])
  }

  ghost predicate SameState(s: State, s': State, gone: set<Id>)
  {
    s.mem == s'.mem && s.trace == s'.trace && SameRegs(s.regs, s'.regs, gone)
  }

  // Indistinguishable from outside: the same block, or the same returned value, with the same
  // stores, calls, and branch decisions so far and the same memory.
  ghost predicate Same(c: Config, c': Config, gone: set<Id>)
  {
    match (c, c')
    case (At(b, s), At(b', s')) => b == b' && SameState(s, s', gone)
    case _ => c == c'
  }

  lemma EvalSame(w: World, v: Value, r: map<Id, int>, r': map<Id, int>, gone: set<Id>)
    requires SameRegs(r, r', gone) && (v.Inst? ==> v.id !in gone)
    ensures Eval(w, v, r) == Eval(w, v, r')
  {
    if v.Inst? {
      assert v.id in r <==> v.id in r';
    }
  }

  lemma EvalAllSame(w: World, i: Instr, r: map<Id, int>, r': map<Id, int>, gone: set<Id>, safe: set<string>)
    requires SameRegs(r, r', gone) && i.id !in gone && Removable(safe, i, gone)
    ensures EvalAll(w, i.ops, r) == EvalAll(w, i.ops, r')
    ensures forall k: nat :: Operand(w, i.ops, k, r) == Operand(w, i.ops, k, r')
  {
    forall k | 0 <= k < |i.ops| ensures Eval(w, i.ops[k], r) == Eval(w, i.ops[k], r') {
      var v := i.ops[k];
      assert v.Inst? ==> i.Uses(v.id);
      EvalSame(w, v, r, r', gone);
    }
    assert EvalAll(w, i.ops, r) == EvalAll(w, i.ops, r');
  }

  lemma SetSame(r: map<Id, int>, r': map<Id, int>, gone: set<Id>, v: Id, x: int)
    requires SameRegs(r, r', gone)
    ensures SameRegs(r[v := x], r'[v := x], gone)
    ensures v in gone ==> SameRegs(r[v := x], r', gone)
  {
  }

  // An instruction that stays does the same; one that goes is not missed.
  lemma Exec1Same(w: World, safe: set<string>, i: Instr, s: State, s': State, gone: set<Id>)
    requires SameState(s, s', gone) && Removable(safe, i, gone)
    ensures i.id !in gone ==> SameState(Exec1(w, safe, i, s), Exec1(w, safe, i, s'), gone)
    ensures i.id in gone ==> SameState(Exec1(w, safe, i, s), s', gone)
  {
    forall x: int {:trigger s.regs[i.id := x]} ensures SameRegs(s.regs[i.id := x], s'.regs[i.id := x], gone)
      && (i.id in gone ==> SameRegs(s.regs[i.id := x], s'.regs, gone)) {
      SetSame(s.regs, s'.regs, gone, i.id, x);
    }
    if i.id !in gone {
      EvalAllSame(w, i, s.regs, s'.regs, gone, safe);
    }
  }

  lemma {:induction false} ExecSame(w: World, safe: set<string>, code: seq<Instr>, s: State, s': State, gone: set<Id>)
    requires SameState(s, s', gone) && AllRemovable(safe, code, gone)
    ensures SameState(Exec(w, safe, code, s), Exec(w, safe, Keep(code, gone), s'), gone)
  {
    if code != [] {
      var init, last := code[..|code| - 1], code[|code| - 1];
      forall i | i in init ensures Removable(safe, i, gone) {
        assert i in code;
      }
      ExecSame(w, safe, init, s, s', gone);
      assert Removable(safe, last, gone);
      Exec1Same(w, safe, last, Exec(w, safe, init, s), Exec(w, safe, Keep(init, gone), s'), gone);
      if last.id !in gone {
        var kept := Keep(init, gone) + [last];
        assert kept[..|kept| - 1] == Keep(init, gone);
      } else {
        assert Keep(code, gone) == Keep(init, gone);
      }
    }
  }

  lemma {:induction false} IncomingSame(w: World, ops: seq<Value>, p: Block, r: map<Id, int>, r': map<Id, int>,
      gone: set<Id>)
    requires SameRegs(r, r', gone) && forall v :: v in gone ==> Inst(v) !in ops
    ensures Incoming(w, ops, p, r) == Incoming(w, ops, p, r')
  {
    if |ops| >= 2 {
      assert ops[0].Inst? ==> ops[0] in ops;
      EvalSame(w, ops[0], r, r', gone);
      IncomingSame(w, ops[2..], p, r, r', gone);
    }
  }

  lemma {:induction false} EnterSame(w: World, safe: set<string>, code: seq<Instr>, p: Block, r: map<Id, int>,
      r': map<Id, int>, gone: set<Id>)
    requires SameRegs(r, r', gone) && AllRemovable(safe, code, gone)
    ensures SameRegs(EnterPhis(w, code, p, r), EnterPhis(w, Keep(code, gone), p, r'), gone)
  {
    if code != [] {
      var init, last := code[..|code| - 1], code[|code| - 1];
      forall i | i in init ensures Removable(safe, i, gone) {
        assert i in code;
      }
      EnterSame(w, safe, init, p, r, r', gone);
      assert Removable(safe, last, gone);
      var x := Incoming(w, last.ops, p, r);
      SetSame(EnterPhis(w, init, p, r), EnterPhis(w, Keep(init, gone), p, r'), gone, last.id, x);
      if last.id !in gone {
        var kept := Keep(init, gone) + [last];
        assert kept[..|kept| - 1] == Keep(init, gone);
        forall v | v in gone ensures Inst(v) !in last.ops {
          assert !last.Uses(v);
        }
        IncomingSame(w, last.ops, p, r, r', gone);
      } else {
        assert Keep(code, gone) == Keep(init, gone);
      }
    }
  }

  lemma GotoSame(w: World, safe: set<string>, code: Code, p: Block, target: Value, s: State, s': State, gone: set<Id>)
    requires SameState(s, s', gone) && CodeRemovable(safe, code, gone)
    ensures Same(Goto(w, code, p, target, s), Goto(w, KeepAll(code, gone), p, target, s'), gone)
  {
    if target.Label? && target.b in code {
      assert AllRemovable(safe, Get(code, target.b), gone);
      EnterSame(w, safe, code[target.b], p, s.regs, s'.regs, gone);
    }
  }

  lemma LeaveSame(w: World, safe: set<string>, code: Code, b: Block, t: Instr, s: State, s': State, gone: set<Id>)
    requires SameState(s, s', gone) && CodeRemovable(safe, code, gone) && Removable(safe, t, gone) && t.id !in gone
    ensures Same(Leave(w, code, b, t, s), Leave(w, KeepAll(code, gone), b, t, s'), gone)
  {
    forall k | 0 <= k < |t.ops| ensures Eval(w, t.ops[k], s.regs) == Eval(w, t.ops[k], s'.regs) {
      EvalAllSame(w, t, s.regs, s'.regs, gone, safe);
      assert Operand(w, t.ops, k, s.regs) == Operand(w, t.ops, k, s'.regs);
    }
    if t.kind.Br? && |t.ops| == 1 {
      GotoSame(w, safe, code, b, t.ops[0], s, s', gone);
    }
    if t.kind.CondBr? && |t.ops| == 3 {
      var taken := Eval(w, t.ops[0], s.regs) != 0;
      GotoSame(w, safe, code, b, if taken then t.ops[1] else t.ops[2],
        s.(trace := s.trace + [Branched(taken)]), s'.(trace := s'.trace + [Branched(taken)]), gone);
    }
  }

  // Every block ends in a terminator.
  ghost predicate Terminated(code: Code)
  {
    forall b {:trigger Get(code, b)} :: b in code ==>
      Get(code, b) != [] && Get(code, b)[|Get(code, b)| - 1].Terminator()
  }

  lemma StepSame(w: World, safe: set<string>, code: Code, c: Config, c': Config, gone: set<Id>)
    requires CodeRemovable(safe, code, gone) && Terminated(code) && Same(c, c', gone)
    ensures Same(StepBlock(w, safe, code, c), StepBlock(w, safe, KeepAll(code, gone), c'), gone)
  {
    if c.At? && c.b in code {
      var here := Get(code, c.b);
      var last := here[|here| - 1];
      assert AllRemovable(safe, here, gone);
      assert Removable(safe, last, gone);
      assert Keep(here, gone) == Keep(here[..|here| - 1], gone) + [last];
      ExecSame(w, safe, here, c.s, c'.s, gone);
      LeaveSame(w, safe, code, c.b, last, Exec(w, safe, here, c.s), Exec(w, safe, Keep(here, gone), c'.s), gone);
    }
  }

  // Removing silent instructions that nothing left uses cannot be noticed, however long the run.
  lemma {:induction false} RemovalKeepsBehaviour(w: World, safe: set<string>, code: Code, c: Config, gone: set<Id>,
      n: nat)
    requires CodeRemovable(safe, code, gone) && Terminated(code)
    ensures Same(Run(w, safe, code, c, n), Run(w, safe, KeepAll(code, gone), c, n), gone)
  {
    if n > 0 {
      RemovalKeepsBehaviour(w, safe, code, c, gone, n - 1);
      StepSame(w, safe, code, Run(w, safe, code, c, n - 1), Run(w, safe, KeepAll(code, gone), c, n - 1), gone);
    }
  }
}
