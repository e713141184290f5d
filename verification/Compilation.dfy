// A generated function means the same in the intermediate representation as its source, and still does
// when its variables have been turned into values.
module Compilation {
  import opened Graph
  import opened Cminus
  import opened Machine
  import opened Generation
  import opened ExprMeaning
  import opened FunctionMeaning
  import opened BlockShape
  import opened MadeBeforeUse
  import opened Lowering
  import opened Dominators
  import opened PlacedFunction
  import opened Mem2Reg
  import opened LiveBlocks
  import opened AssignedFirst
  import opened EntryAssigned
  import opened Programs
  import CminusfBuilder
  import IR

  // ---- The world of the intermediate representation ----

  // What a function shares with others: the global variables and the calls so far.
  datatype Outside = Outside(globals: map<string, int>, trace: seq<Cminus.Event>)

  function Happen(w: World, o: Outside, e: IR.Event): Outside
  {
    if e.op.code == CALL then
      var trace := o.trace + [Cminus.Event(e.op.name, e.args)];
      Outside(w.after(trace, o.globals), trace)
    else if e.op.code == WRITE && |e.args| == 1 then o.(globals := o.globals[e.op.name := e.args[0]])
    else o
  }

  // What has become of the outside after a history of events.
  function Replay(w: World, o: Outside, es: seq<IR.Event>): Outside
  {
    if es == [] then o else Happen(w, Replay(w, o, es[..|es| - 1]), es[|es| - 1])
  }

  function ReadGlobal(w: World, o: Outside, x: string): int
  {
    if x in o.globals then o.globals[x] else w.undef(Global(x))
  }

  function Answer(w: World, o: Outside, es: seq<IR.Event>): int
  {
    if es == [] then 0
    else
      var e, before := es[|es| - 1], Replay(w, o, es[..|es| - 1]);
      if e.op.code == CALL then w.answer(Happen(w, before, e).trace)
      else if e.op.code == READ then ReadGlobal(w, before, e.op.name)
      else 0
  }

  function Computed(w: World, op: IR.Op, vs: seq<int>): int
  {
    if |vs| == 2 then
      match op.code
      case 0 => w.arith(Plus, vs[0], vs[1])
      case 1 => w.arith(Minus, vs[0], vs[1])
      case 2 => w.arith(Mul, vs[0], vs[1])
      case 3 => w.arith(Div, vs[0], vs[1])
      case 4 => Bit(vs[0] < vs[1])
      case 5 => Bit(vs[0] <= vs[1])
      case 6 => Bit(vs[0] >= vs[1])
      case 7 => Bit(vs[0] > vs[1])
      case 8 => Bit(vs[0] == vs[1])
      case _ => Bit(vs[0] != vs[1])
    else if |vs| == 1 then vs[0]
    else 0
  }

  function Bit(b: bool): int
  {
    if b then 1 else 0
  }

  // undef is what slots hold that nothing has been stored to, and what an incomplete phi yields.
  function WorldOf(w: World, args: seq<int>, o: Outside, undef: nat -> int): IR.World
  {
    IR.World(
      (op, vs) => Computed(w, op, vs), es => Answer(w, o, es), v => 0,
      (i: nat) => if i < |args| then args[i] else 0, undef)
  }

  // ---- Running side by side ----

  // v computes and answers as w does.
  ghost predicate Tied(w: World, args: seq<int>, o: Outside, v: IR.World)
  {
    && (forall op, vs {:trigger Computed(w, op, vs)} :: v.compute(op, vs) == Computed(w, op, vs))
    && (forall es {:trigger Answer(w, o, es)} :: v.answer(es) == Answer(w, o, es))
    && forall i: nat :: v.arg(i) == if i < |args| then args[i] else 0
  }

  // An activation of a generated function, and its form in the intermediate representation.
  datatype Setting = Setting(w: World, m: Machine, g: Gen, avail: Avail, start: Outside, v: IR.World, n: IR.Fn)
  {
    ghost predicate Valid()
    {
      && SameBut(w, m.w) && Shape(g, {}) && Sound(g.code, g.nextId, avail) && m.code == g.code && 0 in g.order &&
        avail != [] && avail[0] == {}
      && n == FnOf(g) && Tied(w, m.args, start, v)
    }
  }

  ghost predicate SameValue(x: Setting, regs: Regs, st: IR.State, r: nat)
  {
    r < x.g.nextId && !IsAlloca(x.g.code, r) ==> Val(x.m.args, Reg(r), regs) == IR.Reg0(st.regs, r)
  }

  // The variable's place holds what its slot holds.
  ghost predicate SameVariable(x: Setting, regs: Regs, s: Cminus.Store, st: IR.State, p: nat)
  {
    IsAlloca(x.g.code, p) && p in regs ==> regs[p] < s.next && Read(x.m.w, s, Local(regs[p])) == IR.Mem0(x.v, st.mem, p)
  }

  ghost predicate Apart(x: Setting, regs: Regs, p: nat, q: nat)
  {
    IsAlloca(x.g.code, p) && IsAlloca(x.g.code, q) && p in regs && q in regs && p != q ==> regs[p] != regs[q]
  }

  ghost predicate Made(x: Setting, b: Block, k: nat, regs: Regs, p: nat)
  {
    PointerHere(Entered(x.avail, b), Get(x.g.code, b), Reg(p), k) ==> p in regs
  }

  ghost predicate Fresh(s: Cminus.Store)
  {
    forall n {:trigger n in s.locals} :: n in s.locals ==> n < s.next
  }

  // The machine before the k-th instruction of b, and the state of the intermediate representation.
  ghost predicate Same(x: Setting, b: Block, k: nat, regs: Regs, s: Cminus.Store, st: IR.State)
  {
    && (forall r {:trigger SameValue(x, regs, st, r)} :: SameValue(x, regs, st, r))
    && (forall p {:trigger SameVariable(x, regs, s, st, p)} :: SameVariable(x, regs, s, st, p))
    && (forall p, q {:trigger Apart(x, regs, p, q)} :: Apart(x, regs, p, q))
    && (forall p {:trigger Made(x, b, k, regs, p)} :: Made(x, b, k, regs, p))
    && Fresh(s) && Replay(x.w, x.start, st.trace) == Outside(s.globals, s.trace)
  }

  lemma ValueSame(x: Setting, b: Block, k: nat, regs: Regs, s: Cminus.Store, st: IR.State, v: Value)
    requires x.Valid() && Same(x, b, k, regs, s, st) && ValueHere(Get(x.g.code, b), v, k)
    ensures Val(x.m.args, v, regs) == IR.Eval(x.v, ToOperand(v), st.regs)
  {
    if v.Reg? {
      var c := Get(x.g.code, b);
      var j :| 0 <= j < k && j < |c| && Makes(c[j]) == Some(v.id) && !c[j].Alloca?;
      assert PlaceOk(x.g.code, x.avail, x.g.nextId, b, j);
      NotAlloca(x, b, j);
      assert SameValue(x, regs, st, v.id);
    }
  }

  // What another instruction makes is no variable.
  lemma NotAlloca(x: Setting, b: Block, j: nat)
    requires x.Valid() && j < |Get(x.g.code, b)| && !Get(x.g.code, b)[j].Alloca? && Makes(Get(x.g.code, b)[j]).Some?
    ensures !IsAlloca(x.g.code, Makes(Get(x.g.code, b)[j]).value)
  {
    var r := Makes(Get(x.g.code, b)[j]).value;
    if IsAlloca(x.g.code, r) {
      var c: Block, k: nat :| k < |Get(x.g.code, c)| && Get(x.g.code, c)[k] == Alloca(r);
      assert SameMade(x.g.code, b, j, c, k);
    }
  }

  ghost predicate AllHere(c: seq<Instr>, vs: seq<Value>, k: nat)
  {
    forall i {:trigger vs[i]} :: 0 <= i < |vs| ==> ValueHere(c, vs[i], k)
  }

  lemma {:induction false} ValsAt(args: seq<int>, vs: seq<Value>, regs: Regs)
    ensures |Vals(args, vs, regs)| == |vs| && forall i :: 0 <= i < |vs| ==>
      Vals(args, vs, regs)[i] == Val(args, vs[i], regs)
    decreases vs
  {
    if vs != [] {
      ValsAt(args, vs[1..], regs);
      forall i | 0 < i < |vs| ensures Vals(args, vs, regs)[i] == Val(args, vs[i], regs) {
        assert vs[1..][i - 1] == vs[i];
      }
    }
  }

  lemma ValuesSame(x: Setting, b: Block, k: nat, regs: Regs, s: Cminus.Store, st: IR.State, vs: seq<Value>)
    requires x.Valid() && Same(x, b, k, regs, s, st) && AllHere(Get(x.g.code, b), vs, k)
    ensures Vals(x.m.args, vs, regs) == IR.EvalAll(x.v, ToOperands(vs), st.regs)
  {
    ValsAt(x.m.args, vs, regs);
    forall i | 0 <= i < |vs| ensures Vals(x.m.args, vs, regs)[i] == IR.EvalAll(x.v, ToOperands(vs), st.regs)[i] {
      ValueSame(x, b, k, regs, s, st, vs[i]);
    }
  }

  // ---- One instruction ----

  ghost predicate Inside(x: Setting, b: Block, k: nat)
  {
    k < |Get(x.g.code, b)| && !Get(x.g.code, b)[k].Terminator()
  }

  lemma MadeLater(x: Setting, b: Block, k: nat, regs: Regs, regs': Regs, p: nat)
    requires Inside(x, b, k) && Made(x, b, k, regs, p) && regs.Keys <= regs'.Keys
    requires Get(x.g.code, b)[k].Alloca? ==> Get(x.g.code, b)[k].id in regs'
    ensures Made(x, b, k + 1, regs', p)
  {
    var c := Get(x.g.code, b);
    if PointerHere(Entered(x.avail, b), c, Reg(p), k + 1) && p !in Entered(x.avail, b) {
      var j :| 0 <= j < k + 1 && j < |c| && c[j] == Alloca(p);
    }
  }

  // A new place holds what the slot held before.
  lemma AllocaSame(x: Setting, b: Block, k: nat, regs: Regs, s: Cminus.Store, st: IR.State)
    requires x.Valid() && Inside(x, b, k) && Same(x, b, k, regs, s, st) && Get(x.g.code, b)[k].Alloca?
    requires x.m.w.undef(Local(s.next)) == IR.Mem0(x.v, st.mem, Get(x.g.code, b)[k].id)
    ensures Same(x, b, k + 1, regs[Get(x.g.code, b)[k].id := s.next], s.(next := s.next + 1), st)
  {
    var id := Get(x.g.code, b)[k].id;
    var regs', s' := regs[id := s.next], s.(next := s.next + 1);
    assert IsAlloca(x.g.code, id);
    forall r ensures SameValue(x, regs', st, r) {
      assert SameValue(x, regs, st, r);
    }
    forall p ensures SameVariable(x, regs', s', st, p) {
      assert SameVariable(x, regs, s, st, p);
    }
    forall p, q ensures Apart(x, regs', p, q) {
      assert Apart(x, regs, p, q) && SameVariable(x, regs, s, st, p) && SameVariable(x, regs, s, st, q);
    }
    forall p {:trigger Made(x, b, k + 1, regs', p)} ensures Made(x, b, k + 1, regs', p) {
      assert Made(x, b, k, regs, p);
      MadeLater(x, b, k, regs, regs', p);
    }
  }

  lemma StoreSame(x: Setting, b: Block, k: nat, regs: Regs, s: Cminus.Store, st: IR.State, p: nat, n: int)
    requires x.Valid() && Inside(x, b, k) && Same(x, b, k, regs, s, st) && IsAlloca(x.g.code, p) && p in regs &&
      !Get(x.g.code, b)[k].Alloca?
    ensures Same(x, b, k + 1, regs, Write(s, Local(regs[p]), n), st.(mem := st.mem[p := n]))
  {
    var s', st' := Write(s, Local(regs[p]), n), st.(mem := st.mem[p := n]);
    assert SameVariable(x, regs, s, st, p);
    forall r ensures SameValue(x, regs, st', r) {
      assert SameValue(x, regs, st, r);
    }
    forall q ensures SameVariable(x, regs, s', st', q) {
      assert SameVariable(x, regs, s, st, q) && Apart(x, regs, p, q);
    }
    forall q {:trigger Made(x, b, k + 1, regs, q)} ensures Made(x, b, k + 1, regs, q) {
      assert Made(x, b, k, regs, q);
      MadeLater(x, b, k, regs, regs, q);
    }
  }

  // A value is made on both sides, or a number that no operand names is used up.
  ghost predicate SetBoth(x: Setting, b: Block, k: nat, regs: Regs, st: IR.State, regs': Regs, st': IR.State, n: int)
    requires Inside(x, b, k)
  {
    var id := IdAt(x.g, b, k);
    && st'.regs == st.regs[id := n] && st'.mem == st.mem
    && regs' == if Makes(Get(x.g.code, b)[k]).Some? then regs[id := n] else regs
  }

  lemma SetSame(x: Setting, b: Block, k: nat, regs: Regs, s: Cminus.Store, st: IR.State, regs': Regs, s': Cminus.Store,
      st': IR.State, n: int)
    requires x.Valid() && Inside(x, b, k) && Same(x, b, k, regs, s, st) && !Get(x.g.code, b)[k].Alloca?
    requires SetBoth(x, b, k, regs, st, regs', st', n) && s'.locals == s.locals && s'.next == s.next
    requires Replay(x.w, x.start, st'.trace) == Outside(s'.globals, s'.trace)
    ensures Same(x, b, k + 1, regs', s', st')
  {
    var i := Get(x.g.code, b)[k];
    if Makes(i).Some? {
      NotAlloca(x, b, k);
    }
    forall r ensures SameValue(x, regs', st', r) {
      assert SameValue(x, regs, st, r);
    }
    forall p ensures SameVariable(x, regs', s', st', p) {
      assert SameVariable(x, regs, s, st, p);
    }
    forall p, q ensures Apart(x, regs', p, q) {
      assert Apart(x, regs, p, q);
    }
    forall p {:trigger Made(x, b, k + 1, regs', p)} ensures Made(x, b, k + 1, regs', p) {
      assert Made(x, b, k, regs, p);
      MadeLater(x, b, k, regs, regs', p);
    }
  }

  // The two sides of one instruction.
  function Moved(x: Setting, b: Block, k: nat, regs: Regs, s: Cminus.Store): Config
  {
    Step(x.m, Config.At(b, k, regs, s))
  }

  ghost function Lowered(x: Setting, b: Block, k: nat): IR.Instr
    requires Inside(x, b, k)
  {
    Lower(Get(x.g.code, b)[k], IdAt(x.g, b, k))
  }

  // The machine has gone on to the next instruction, and the states are the same again.
  ghost predicate SameNext(x: Setting, b: Block, k: nat, c: Config, st: IR.State)
  {
    c.At? && c.b == b && c.k == k + 1 && Same(x, b, k + 1, c.regs, c.s, st)
  }

  lemma ComputedIs(w: World, op: ArithOp, cmp: CmpOp, a: int, b: int)
    ensures Computed(w, IR.Op(ArithCode(op), ""), [a, b]) == w.arith(op, a, b)
    ensures Computed(w, IR.Op(CmpCode(cmp), ""), [a, b]) == if Test(cmp, a, b) then 1 else 0
  {
  }

  lemma BinarySame(x: Setting, b: Block, k: nat, regs: Regs, s: Cminus.Store, st: IR.State)
    requires x.Valid() && Inside(x, b, k) && Same(x, b, k, regs, s, st)
    requires Get(x.g.code, b)[k].IArith? || Get(x.g.code, b)[k].ICmp?
    ensures SameNext(x, b, k, Moved(x, b, k, regs, s), IR.Exec1(x.v, Lowered(x, b, k), st))
  {
    var i := Get(x.g.code, b)[k];
    assert PlaceOk(x.g.code, x.avail, x.g.nextId, b, k);
    assert i.a in ValuesOf(i) && i.b in ValuesOf(i);
    ValueSame(x, b, k, regs, s, st, i.a);
    ValueSame(x, b, k, regs, s, st, i.b);
    var vs := [Val(x.m.args, i.a, regs), Val(x.m.args, i.b, regs)];
    assert IR.EvalAll(x.v, [ToOperand(i.a), ToOperand(i.b)], st.regs) == vs;
    var n := Computed(x.w, Lowered(x, b, k).op, vs);
    ComputedIs(x.w, if i.IArith? then i.aop else Plus, if i.ICmp? then i.cop else Eq, vs[0], vs[1]);
    SetSame(x, b, k, regs, s, st, regs[i.id := n], s, st.(regs := st.regs[i.id := n]), n);
  }

  lemma WidenSame(x: Setting, b: Block, k: nat, regs: Regs, s: Cminus.Store, st: IR.State)
    requires x.Valid() && Inside(x, b, k) && Same(x, b, k, regs, s, st) && Get(x.g.code, b)[k].Zext?
    ensures SameNext(x, b, k, Moved(x, b, k, regs, s), IR.Exec1(x.v, Lowered(x, b, k), st))
  {
    var i := Get(x.g.code, b)[k];
    assert PlaceOk(x.g.code, x.avail, x.g.nextId, b, k);
    assert i.a in ValuesOf(i);
    ValueSame(x, b, k, regs, s, st, i.a);
    var n := Val(x.m.args, i.a, regs);
    assert IR.EvalAll(x.v, [ToOperand(i.a)], st.regs) == [n];
    assert Computed(x.w, Lowered(x, b, k).op, [n]) == n;
    SetSame(x, b, k, regs, s, st, regs[i.id := n], s, st.(regs := st.regs[i.id := n]), n);
  }

  lemma ReplayMore(w: World, o: Outside, es: seq<IR.Event>, e: IR.Event)
    ensures Replay(w, o, es + [e]) == Happen(w, Replay(w, o, es), e)
  {
    assert (es + [e])[..|es|] == es;
  }

  lemma CallReplayed(w: World, o: Outside, es: seq<IR.Event>, f: string, vs: seq<int>, s: Cminus.Store)
    requires Replay(w, o, es) == Outside(s.globals, s.trace)
    ensures
      var es' := es + [IR.Event(IR.Op(CALL, f), vs)];
      var (v, s') := Ask(w, f, vs, s);
      Replay(w, o, es') == Outside(s'.globals, s'.trace) && Answer(w, o, es') == v
  {
    var e := IR.Event(IR.Op(CALL, f), vs);
    ReplayMore(w, o, es, e);
    assert (es + [e])[..|es|] == es;
  }

  lemma ArgsSame(x: Setting, b: Block, k: nat, regs: Regs, s: Cminus.Store, st: IR.State)
    requires x.Valid() && Inside(x, b, k) && Same(x, b, k, regs, s, st) && Get(x.g.code, b)[k].CallTo?
    ensures Vals(x.m.args, Get(x.g.code, b)[k].args, regs) ==
      IR.EvalAll(x.v, ToOperands(Get(x.g.code, b)[k].args), st.regs)
  {
    var i := Get(x.g.code, b)[k];
    assert PlaceOk(x.g.code, x.avail, x.g.nextId, b, k);
    forall j | 0 <= j < |i.args| ensures ValueHere(Get(x.g.code, b), i.args[j], k) {
      assert i.args[j] in ValuesOf(i);
    }
    ValuesSame(x, b, k, regs, s, st, i.args);
  }

  lemma CallSame(x: Setting, b: Block, k: nat, regs: Regs, s: Cminus.Store, st: IR.State)
    requires x.Valid() && Inside(x, b, k) && Same(x, b, k, regs, s, st) && Get(x.g.code, b)[k].CallTo?
    ensures SameNext(x, b, k, Moved(x, b, k, regs, s), IR.Exec1(x.v, Lowered(x, b, k), st))
  {
    var i := Get(x.g.code, b)[k];
    ArgsSame(x, b, k, regs, s, st);
    var vs := Vals(x.m.args, i.args, regs);
    CallReplayed(x.w, x.start, st.trace, i.f, vs, s);
    var (v, s') := Ask(x.w, i.f, vs, s);
    var es := st.trace + [IR.Event(IR.Op(CALL, i.f), vs)];
    assert x.v.answer(es) == Answer(x.w, x.start, es) == v;
    SetSame(x, b, k, regs, s, st, regs[i.id := v], s', IR.State(st.regs[i.id := v], st.mem, es), v);
  }

  lemma PointerSame(x: Setting, b: Block, k: nat, regs: Regs, s: Cminus.Store, st: IR.State, p: Value)
    requires x.Valid() && Inside(x, b, k) && Same(x, b, k, regs, s, st) && PointerOf(Get(x.g.code, b)[k]) == Some(p)
    ensures p.GlobalVar? || (p.Reg? && p.id in regs && IsAlloca(x.g.code, p.id) && SameVariable(x, regs, s, st, p.id))
  {
    assert PlaceOk(x.g.code, x.avail, x.g.nextId, b, k);
    if p.Reg? {
      assert Made(x, b, k, regs, p.id);
    }
  }

  lemma ReadReplayed(w: World, o: Outside, es: seq<IR.Event>, x: string)
    ensures
      var es' := es + [IR.Event(IR.Op(READ, x), [])];
      Replay(w, o, es') == Replay(w, o, es) && Answer(w, o, es') == ReadGlobal(w, Replay(w, o, es), x)
  {
    var e := IR.Event(IR.Op(READ, x), []);
    ReplayMore(w, o, es, e);
    assert (es + [e])[..|es|] == es;
  }

  lemma LoadGlobalSame(x: Setting, b: Block, k: nat, regs: Regs, s: Cminus.Store, st: IR.State, name: string)
    requires x.Valid() && Inside(x, b, k) && Same(x, b, k, regs, s, st)
    requires Get(x.g.code, b)[k].Load? && Get(x.g.code, b)[k].ptr == GlobalVar(name)
    ensures SameNext(x, b, k, Moved(x, b, k, regs, s), IR.Exec1(x.v, Lowered(x, b, k), st))
  {
    var i := Get(x.g.code, b)[k];
    ReadReplayed(x.w, x.start, st.trace, name);
    var n, es := Read(x.m.w, s, Global(name)), st.trace + [IR.Event(IR.Op(READ, name), [])];
    assert x.v.answer(es) == Answer(x.w, x.start, es) == n;
    SetSame(x, b, k, regs, s, st, regs[i.id := n], s, IR.State(st.regs[i.id := n], st.mem, es), n);
  }

  lemma LoadSame(x: Setting, b: Block, k: nat, regs: Regs, s: Cminus.Store, st: IR.State)
    requires x.Valid() && Inside(x, b, k) && Same(x, b, k, regs, s, st) && Get(x.g.code, b)[k].Load?
    ensures SameNext(x, b, k, Moved(x, b, k, regs, s), IR.Exec1(x.v, Lowered(x, b, k), st))
  {
    var i := Get(x.g.code, b)[k];
    PointerSame(x, b, k, regs, s, st, i.ptr);
    if i.ptr.GlobalVar? {
      LoadGlobalSame(x, b, k, regs, s, st, i.ptr.name);
    } else {
      var n := Read(x.m.w, s, Local(regs[i.ptr.id]));
      SetSame(x, b, k, regs, s, st, regs[i.id := n], s, st.(regs := st.regs[i.id := n]), n);
    }
  }

  lemma WriteReplayed(w: World, o: Outside, es: seq<IR.Event>, x: string, n: int)
    ensures
      var es' := es + [IR.Event(IR.Op(WRITE, x), [n])];
      var before := Replay(w, o, es);
      Replay(w, o, es') == before.(globals := before.globals[x := n]) && Answer(w, o, es') == 0
  {
    var e := IR.Event(IR.Op(WRITE, x), [n]);
    ReplayMore(w, o, es, e);
  }

  lemma WriteGlobalSame(x: Setting, b: Block, k: nat, regs: Regs, s: Cminus.Store, st: IR.State, name: string)
    requires x.Valid() && Inside(x, b, k) && Same(x, b, k, regs, s, st)
    requires Get(x.g.code, b)[k].Store? && Get(x.g.code, b)[k].ptr == GlobalVar(name)
    requires Val(x.m.args, Get(x.g.code, b)[k].v, regs) == IR.Eval(x.v, ToOperand(Get(x.g.code, b)[k].v), st.regs)
    ensures SameNext(x, b, k, Moved(x, b, k, regs, s), IR.Exec1(x.v, Lowered(x, b, k), st))
  {
    var i, id := Get(x.g.code, b)[k], IdAt(x.g, b, k);
    var n := Val(x.m.args, i.v, regs);
    WriteReplayed(x.w, x.start, st.trace, name, n);
    var es := st.trace + [IR.Event(IR.Op(WRITE, name), [n])];
    assert IR.EvalAll(x.v, [ToOperand(i.v)], st.regs) == [n];
    assert x.v.answer(es) == Answer(x.w, x.start, es) == 0;
    SetSame(x, b, k, regs, s, st, regs, Write(s, Global(name), n), IR.State(st.regs[id := 0], st.mem, es), 0);
  }

  lemma WriteSame(x: Setting, b: Block, k: nat, regs: Regs, s: Cminus.Store, st: IR.State)
    requires x.Valid() && Inside(x, b, k) && Same(x, b, k, regs, s, st) && Get(x.g.code, b)[k].Store?
    ensures SameNext(x, b, k, Moved(x, b, k, regs, s), IR.Exec1(x.v, Lowered(x, b, k), st))
  {
    var i := Get(x.g.code, b)[k];
    PointerSame(x, b, k, regs, s, st, i.ptr);
    assert PlaceOk(x.g.code, x.avail, x.g.nextId, b, k);
    assert i.v in ValuesOf(i);
    ValueSame(x, b, k, regs, s, st, i.v);
    if i.ptr.Reg? {
      StoreSame(x, b, k, regs, s, st, i.ptr.id, Val(x.m.args, i.v, regs));
    } else {
      WriteGlobalSame(x, b, k, regs, s, st, i.ptr.name);
    }
  }

  // What a new variable's place holds is what its slot holds.
  ghost predicate Fills(x: Setting, b: Block, k: nat, s: Cminus.Store, st: IR.State)
    requires Inside(x, b, k)
  {
    Get(x.g.code, b)[k].Alloca? ==> x.m.w.undef(Local(s.next)) == IR.Mem0(x.v, st.mem, Get(x.g.code, b)[k].id)
  }

  lemma StepSame(x: Setting, b: Block, k: nat, regs: Regs, s: Cminus.Store, st: IR.State)
    requires x.Valid() && Inside(x, b, k) && Same(x, b, k, regs, s, st) && Fills(x, b, k, s, st)
    ensures SameNext(x, b, k, Moved(x, b, k, regs, s), IR.Exec1(x.v, Lowered(x, b, k), st))
    ensures Moved(x, b, k, regs, s).s.next == if Get(x.g.code, b)[k].Alloca? then s.next + 1 else s.next
  {
    match Get(x.g.code, b)[k]
    case Alloca(_) => AllocaSame(x, b, k, regs, s, st);
    case Load(_, _) => LoadSame(x, b, k, regs, s, st);
    case Store(_, _) => WriteSame(x, b, k, regs, s, st);
    case CallTo(_, _, _) => CallSame(x, b, k, regs, s, st);
    case Zext(_, _) => WidenSame(x, b, k, regs, s, st);
    case _ => BinarySame(x, b, k, regs, s, st);
  }

  // ---- One block ----

  // What the slots hold when control passes the declarations of a block.
  function Marks(w: IR.World, code: seq<IR.Instr>, st: IR.State): seq<int>
  {
    if code == [] then []
    else
      var init, last := code[..|code| - 1], code[|code| - 1];
      Marks(w, init, st) + if last.Alloca? then [IR.Mem0(w, IR.Exec(w, init, st).mem, last.slot)] else []
  }

  lemma MarksNext(w: IR.World, code: seq<IR.Instr>, st: IR.State, j: nat)
    requires j < |code|
    ensures Marks(w, code[..j + 1], st) ==
      Marks(w, code[..j], st) +
        if code[j].Alloca? then [IR.Mem0(w, IR.Exec(w, code[..j], st).mem, code[j].slot)] else []
    ensures IR.Exec(w, code[..j + 1], st) == IR.Exec1(w, code[j], IR.Exec(w, code[..j], st))
  {
    assert code[..j + 1][..j] == code[..j];
  }

  lemma {:induction false} MarksPrefix(w: IR.World, code: seq<IR.Instr>, st: IR.State, j: nat)
    requires j <= |code|
    ensures Marks(w, code[..j], st) <= Marks(w, code, st)
    decreases |code| - j
  {
    if j < |code| {
      MarksNext(w, code, st, j);
      MarksPrefix(w, code, st, j + 1);
    } else {
      assert code[..j] == code;
    }
  }

  // The places made next hold these contents.
  ghost predicate Ahead(x: Setting, next: int, contents: seq<int>)
  {
    forall q {:trigger contents[q]} :: 0 <= q < |contents| ==> x.m.w.undef(Local(next + q)) == contents[q]
  }

  lemma InsideAt(x: Setting, b: Block, k: nat)
    requires x.Valid() && b in x.g.order && k + 1 < |Get(x.g.code, b)|
    ensures Inside(x, b, k)
  {
    assert ShapeAt(x.g, {}, b);
    assert !Get(x.g.code, b)[k].Terminator();
  }

  ghost function CodeOf(x: Setting, b: Block): (c: seq<IR.Instr>)
    requires x.Valid() && b in x.g.order
    ensures b in x.n.code && c == x.n.code[b] && |c| == |Get(x.g.code, b)| - 1
  {
    assert ShapeAt(x.g, {}, b);
    LowerBlock(x.g, b)
  }

  lemma CodeAt(x: Setting, b: Block, k: nat)
    requires x.Valid() && b in x.g.order && k < |CodeOf(x, b)|
    ensures Inside(x, b, k) && CodeOf(x, b)[k] == Lowered(x, b, k)
  {
    InsideAt(x, b, k);
  }

  // The machine has come to the k-th instruction of b, the intermediate representation to its part.
  ghost predicate Midway(x: Setting, b: Block, k: nat, c: Config, s: Cminus.Store, st: IR.State)
    requires x.Valid() && b in x.g.order && k <= |CodeOf(x, b)|
  {
    && c.At? && c.b == b && c.k == k && Same(x, b, k, c.regs, c.s, IR.Exec(x.v, CodeOf(x, b)[..k], st))
    && c.s.next == s.next + |Marks(x.v, CodeOf(x, b)[..k], st)|
  }

  lemma NextSame(x: Setting, b: Block, k: nat, c: Config, s: Cminus.Store, st: IR.State)
    requires x.Valid() && b in x.g.order && k < |CodeOf(x, b)| && Midway(x, b, k, c, s, st)
    requires Ahead(x, s.next, Marks(x.v, CodeOf(x, b), st))
    ensures Midway(x, b, k + 1, Step(x.m, c), s, st)
  {
    var code, st1 := CodeOf(x, b), IR.Exec(x.v, CodeOf(x, b)[..k], st);
    MarksNext(x.v, code, st, k);
    MarksPrefix(x.v, code, st, k + 1);
    CodeAt(x, b, k);
    var marks, n := Marks(x.v, code, st), |Marks(x.v, code[..k], st)|;
    assert code[k].Alloca? ==> n < |marks| && marks[n] == Marks(x.v, code[..k + 1], st)[n];
    assert Fills(x, b, k, c.s, st1);
    StepSame(x, b, k, c.regs, c.s, st1);
  }

  lemma RunNext(m: Machine, c: Config, n: nat)
    ensures Run(m, c, n + 1) == Step(m, Run(m, c, n))
  {
    RunSplit(m, c, n, 1);
    assert Run(m, Run(m, c, n), 1) == Run(m, Step(m, Run(m, c, n)), 0);
  }

  lemma {:induction false} BlockSame(x: Setting, b: Block, regs: Regs, s: Cminus.Store, st: IR.State, k: nat)
      returns (c: Config)
    requires x.Valid() && b in x.g.order && Same(x, b, 0, regs, s, st) && k <= |CodeOf(x, b)|
    requires Ahead(x, s.next, Marks(x.v, CodeOf(x, b), st))
    ensures c == Run(x.m, Config.At(b, 0, regs, s), k) && Midway(x, b, k, c, s, st)
    decreases k
  {
    if k == 0 {
      c := Config.At(b, 0, regs, s);
    } else {
      var c0 := BlockSame(x, b, regs, s, st, k - 1);
      NextSame(x, b, k - 1, c0, s, st);
      RunNext(x.m, Config.At(b, 0, regs, s), k - 1);
      c := Step(x.m, c0);
    }
  }

  // ---- Leaving a block ----

  ghost predicate Corresponds(x: Setting, c: Config, d: IR.Config)
  {
    match (c, d)
    case (At(b, k, regs, s), At(b', st)) => b' == b && k == 0 && b in x.g.order && Same(x, b, 0, regs, s, st)
    case (Halted(v, s), Halted(v', es)) => v' == v && Replay(x.w, x.start, es) == Outside(s.globals, s.trace)
    case _ => false
  }

  lemma {:induction false} NoPhisEnter(w: IR.World, code: seq<IR.Instr>, p: Block, regs: map<nat, int>)
    requires forall k :: 0 <= k < |code| ==> !code[k].Phi?
    ensures IR.EnterPhis(w, code, p, regs) == regs
    decreases code
  {
    if code != [] {
      NoPhisEnter(w, code[..|code| - 1], p, regs);
    }
  }

  lemma GotoPlain(x: Setting, b: Block, st: IR.State, c: Block)
    requires x.Valid() && c in x.g.order
    ensures IR.Goto(x.v, x.n, b, c, st) == IR.At(c, st)
  {
    NoPhisEnter(x.v, CodeOf(x, c), b, st.regs);
  }

  // The last instruction of a block.
  ghost function LastOf(x: Setting, b: Block): (i: Instr)
    requires x.Valid() && b in x.g.order
    ensures |Get(x.g.code, b)| == |CodeOf(x, b)| + 1 && i == Get(x.g.code, b)[|CodeOf(x, b)|] && i.Terminator()
    ensures b in x.n.term && x.n.term[b] == LowerTerm(i)
    ensures forall c :: c in Targets(i) ==> c in x.g.order
  {
    assert ShapeAt(x.g, {}, b);
    assert forall c :: c in Targets(Get(x.g.code, b)[|CodeOf(x, b)|]) ==> c in x.g.order by {
      forall c | c in Targets(Get(x.g.code, b)[|CodeOf(x, b)|]) ensures c in x.g.order {
        EdgesInside(x.g, b, c);
      }
    }
    Get(x.g.code, b)[|CodeOf(x, b)|]
  }

  lemma JumpSame(x: Setting, b: Block, k: nat, regs: Regs, s: Cminus.Store, st: IR.State, c: Block)
    requires x.Valid() && b in x.g.order && k == |CodeOf(x, b)| && Same(x, b, k, regs, s, st) &&
      c in Targets(LastOf(x, b))
    ensures Same(x, c, 0, regs, s, st)
  {
    assert PlaceOk(x.g.code, x.avail, x.g.nextId, b, k);
    assert JumpOk(x.avail, Entered(x.avail, b), Get(x.g.code, b), c, k);
    forall p {:trigger Made(x, c, 0, regs, p)} ensures Made(x, c, 0, regs, p) {
      assert Made(x, b, k, regs, p);
    }
  }

  lemma GotoSame(x: Setting, b: Block, k: nat, regs: Regs, s: Cminus.Store, st: IR.State, c: Block)
    requires x.Valid() && b in x.g.order && k == |CodeOf(x, b)| && Same(x, b, k, regs, s, st) &&
      c in Targets(LastOf(x, b))
    ensures Corresponds(x, Config.At(c, 0, regs, s), IR.Goto(x.v, x.n, b, c, st))
  {
    JumpSame(x, b, k, regs, s, st, c);
    GotoPlain(x, b, st, c);
  }

  lemma LastValueSame(x: Setting, b: Block, k: nat, regs: Regs, s: Cminus.Store, st: IR.State, v: Value)
    requires x.Valid() && b in x.g.order && k == |CodeOf(x, b)| && Same(x, b, k, regs, s, st) &&
      v in ValuesOf(LastOf(x, b))
    ensures Val(x.m.args, v, regs) == IR.Eval(x.v, ToOperand(v), st.regs)
  {
    assert PlaceOk(x.g.code, x.avail, x.g.nextId, b, k);
    ValueSame(x, b, k, regs, s, st, v);
  }

  lemma CondBrSame(x: Setting, b: Block, k: nat, regs: Regs, s: Cminus.Store, st: IR.State, v: Value, t: Block,
      f: Block)
    requires x.Valid() && b in x.g.order && k == |CodeOf(x, b)| && Same(x, b, k, regs, s, st) &&
      LastOf(x, b) == CondBr(v, t, f)
    ensures b in x.n.term && Corresponds(x, Moved(x, b, k, regs, s), IR.Leave(x.v, x.n, b, st)) &&
      Moved(x, b, k, regs, s).s == s
  {
    LastValueSame(x, b, k, regs, s, st, v);
    GotoSame(x, b, k, regs, s, st, if Val(x.m.args, v, regs) != 0 then t else f);
  }

  lemma LeaveSame(x: Setting, b: Block, k: nat, regs: Regs, s: Cminus.Store, st: IR.State)
    requires x.Valid() && b in x.g.order && k == |CodeOf(x, b)| && Same(x, b, k, regs, s, st)
    ensures b in x.n.term && Corresponds(x, Moved(x, b, k, regs, s), IR.Leave(x.v, x.n, b, st))
    ensures Moved(x, b, k, regs, s).At? ==> Moved(x, b, k, regs, s).s == s
  {
    match LastOf(x, b)
    case CondBr(v, t, f) =>
      CondBrSame(x, b, k, regs, s, st, v, t, f);
    case Br(t) =>
      GotoSame(x, b, k, regs, s, st, t);
    case Ret(Some(v)) =>
      LastValueSame(x, b, k, regs, s, st, v);
    case Ret(None) =>
  }

  // ---- Whole runs ----

  const EMPTY: IR.State := IR.State(map[], map[], [])

  // What the slots hold when control passes declarations, over the first n blocks of a run.
  ghost function Log(v: IR.World, f: IR.Fn, n: nat): seq<int>
  {
    if n == 0 then [] else Log(v, f, n - 1) + MarksOf(v, f, IR.Run(v, f, IR.At(f.g.entry, EMPTY), n - 1))
  }

  ghost function MarksOf(v: IR.World, f: IR.Fn, d: IR.Config): seq<int>
  {
    if d.At? && d.b in f.code && d.b in f.term then Marks(v, f.code[d.b], d.s) else []
  }

  lemma {:induction false} LogMore(w: IR.World, f: IR.Fn, n: nat, k: nat)
    requires n <= k
    ensures Log(w, f, n) <= Log(w, f, k)
    decreases k
  {
    if n < k {
      LogMore(w, f, n, k - 1);
    }
  }

  // What the q-th place made in a run holds before it is assigned to.
  ghost function Contents(w: IR.World, f: IR.Fn, q: nat): int
  {
    if exists n: nat :: q < |Log(w, f, n)| then
      var n: nat :| q < |Log(w, f, n)|;
      Log(w, f, n)[q]
    else 0
  }

  lemma ContentsAt(w: IR.World, f: IR.Fn, n: nat, q: nat)
    requires q < |Log(w, f, n)|
    ensures Contents(w, f, q) == Log(w, f, n)[q]
  {
    var k: nat :| q < |Log(w, f, k)| && Contents(w, f, q) == Log(w, f, k)[q];
    LogMore(w, f, if k < n then k else n, if k < n then n else k);
  }

  // All places that a run makes hold what its slots hold.
  ghost predicate Foreseen(x: Setting, n: IR.Fn, next: int)
  {
    forall i {:trigger Log(x.v, n, i)} :: Ahead(x, next, Log(x.v, n, i))
  }

  ghost predicate Begins(x: Setting, s: Cminus.Store)
  {
    x.Valid() && x.start == Outside(s.globals, s.trace) && Fresh(s) && Foreseen(x, x.n, s.next)
  }

  lemma EntrySame(x: Setting, s: Cminus.Store)
    requires Begins(x, s)
    ensures Same(x, 0, 0, map[], s, EMPTY)
  {
  }

  // After n blocks of the intermediate representation and k steps of the machine both have come to the
  // same block, and as many places have been made as declarations passed.
  ghost predicate Abreast(x: Setting, next: int, log: seq<int>, n: nat, k: nat, c: Config, d: IR.Config)
  {
    Corresponds(x, c, d) && (c.At? ==> n <= k && c.s.next == next + |log|)
  }

  lemma BlockRuns(x: Setting, b: Block, regs: Regs, s: Cminus.Store, st: IR.State) returns (c: Config)
    requires x.Valid() && b in x.g.order && Same(x, b, 0, regs, s, st) && Ahead(x, s.next, Marks(x.v, CodeOf(x, b), st))
    ensures c == Run(x.m, Config.At(b, 0, regs, s), |CodeOf(x, b)| + 1)
    ensures b in x.n.term && Corresponds(x, c, IR.Leave(x.v, x.n, b, IR.Exec(x.v, CodeOf(x, b), st)))
    ensures c.At? ==> c.s.next == s.next + |Marks(x.v, CodeOf(x, b), st)|
  {
    var code := CodeOf(x, b);
    var c1 := BlockSame(x, b, regs, s, st, |code|);
    assert code[..|code|] == code;
    LeaveSame(x, b, |code|, c1.regs, c1.s, IR.Exec(x.v, code, st));
    RunNext(x.m, Config.At(b, 0, regs, s), |code|);
    c := Step(x.m, c1);
  }

  lemma RunOn(m: Machine, start: Config, k: nat, c: Config, l: nat, c': Config)
    requires c == Run(m, start, k) && c' == Run(m, c, l)
    ensures c' == Run(m, start, k + l)
  {
    RunSplit(m, start, k, l);
  }

  lemma BlockAbreast(x: Setting, start: Config, next: int, log: seq<int>, n: nat, k: nat, c: Config, d: IR.Config)
      returns (k1: nat, c1: Config)
    requires x.Valid() && Abreast(x, next, log, n, k, c, d) && c.At? && Ahead(x, next + |log|, MarksOf(x.v, x.n, d))
    requires c == Run(x.m, start, k)
    ensures c1 == Run(x.m, start, k1)
    ensures Abreast(x, next, log + MarksOf(x.v, x.n, d), n + 1, k1, c1, IR.StepBlock(x.v, x.n, d))
  {
    var code := CodeOf(x, c.b);
    assert c.b in x.n.term;
    c1 := BlockRuns(x, c.b, c.regs, c.s, d.s);
    k1 := k + (|code| + 1);
    RunOn(x.m, start, k, c, |code| + 1, c1);
  }

  lemma AheadLater(x: Setting, next: int, a: seq<int>, b: seq<int>)
    requires Ahead(x, next, a + b)
    ensures Ahead(x, next + |a|, b)
  {
    forall q | 0 <= q < |b| ensures x.m.w.undef(Local(next + |a| + q)) == b[q] {
      assert (a + b)[|a| + q] == b[q];
    }
  }

  lemma LogNext(v: IR.World, f: IR.Fn, n: nat, d: IR.Config)
    requires d == IR.Run(v, f, IR.At(f.g.entry, EMPTY), n)
    ensures Log(v, f, n + 1) == Log(v, f, n) + MarksOf(v, f, d)
    ensures IR.Run(v, f, IR.At(f.g.entry, EMPTY), n + 1) == IR.StepBlock(v, f, d)
  {
  }

  // What has stopped stays.
  lemma StoppedAbreast(x: Setting, next: int, log: seq<int>, n: nat, k: nat, c: Config, d: IR.Config)
    requires Abreast(x, next, log, n, k, c, d) && !c.At?
    ensures Abreast(x, next, log + MarksOf(x.v, x.n, d), n + 1, k, c, IR.StepBlock(x.v, x.n, d))
  {
    assert !d.At?;
  }

  lemma NextAbreast(x: Setting, s: Cminus.Store, log: seq<int>, n: nat, k: nat, c: Config, d: IR.Config)
      returns (k': nat, c': Config)
    requires x.Valid() && c == Run(x.m, Entry(s), k) && Abreast(x, s.next, log, n, k, c, d)
    requires Ahead(x, s.next, log + MarksOf(x.v, x.n, d))
    ensures c' == Run(x.m, Entry(s), k')
    ensures Abreast(x, s.next, log + MarksOf(x.v, x.n, d), n + 1, k', c', IR.StepBlock(x.v, x.n, d))
  {
    if c.At? {
      AheadLater(x, s.next, log, MarksOf(x.v, x.n, d));
      k', c' := BlockAbreast(x, Entry(s), s.next, log, n, k, c, d);
    } else {
      k', c' := k, c;
      StoppedAbreast(x, s.next, log, n, k, c, d);
    }
  }

  lemma {:induction false} RunSame(x: Setting, s: Cminus.Store, n: nat) returns (k: nat, c: Config)
    requires Begins(x, s)
    ensures c == Run(x.m, Entry(s), k)
    ensures Abreast(x, s.next, Log(x.v, x.n, n), n, k, c, IR.Run(x.v, x.n, IR.At(x.n.g.entry, EMPTY), n))
    decreases n
  {
    if n == 0 {
      k, c := 0, Entry(s);
      EntrySame(x, s);
    } else {
      k, c := RunSame(x, s, n - 1);
      var d := IR.Run(x.v, x.n, IR.At(x.n.g.entry, EMPTY), n - 1);
      LogNext(x.v, x.n, n - 1, d);
      assert Ahead(x, s.next, Log(x.v, x.n, n));
      k, c := NextAbreast(x, s, Log(x.v, x.n, n - 1), n - 1, k, c, d);
    }
  }

  // ---- Source and compiled function ----

  ghost predicate Stops(w: IR.World, f: IR.Fn)
  {
    exists n: nat :: IR.Run(w, f, IR.At(f.g.entry, EMPTY), n).Halted?
  }

  ghost predicate SameEnd(w: World, o: Outside, d: IR.Config, r: Outcome)
  {
    d.Halted? && r.Returned? ==> d.value == r.value && Replay(w, o, d.trace) == Outside(r.s.globals, r.s.trace)
  }

  // The function in the intermediate representation, in a world w, ends exactly when the source does in
  // the world w', and then with the same value, the same calls made and the same global variables.
  ghost predicate Behaves(n: IR.Fn, undef: nat -> int, f: Function, w: World, w': World, env: Env, args: seq<int>,
      s: Cminus.Store)
    requires |args| == |f.params|
  {
    var o := Outside(s.globals, s.trace);
    var v := WorldOf(w, args, o, undef);
    && (Stops(v, n) <==> Ends(w', env, f, args, s))
    && forall i, fuel {:trigger IR.Run(v, n, IR.At(n.g.entry, EMPTY), i), CallFunction(w', env, f, args, s, fuel)} ::
      SameEnd(w, o, IR.Run(v, n, IR.At(n.g.entry, EMPTY), i), CallFunction(w', env, f, args, s, fuel))
  }

  // A call in which names mean the same to the generator and the source, from a store in which no
  // place is in use that has not been made.
  ghost predicate Callable(f: Function, scope: Scopes, env: Env, args: seq<int>, s: Cminus.Store)
  {
    Matches(scope, env, map[]) && |args| == |f.params| && Fresh(s)
  }

  // The world of the source: its own variables hold at first what their slots hold.
  ghost function Filled(w: World, v: IR.World, n: IR.Fn, next: int): (w': World)
    ensures SameBut(w, w')
  {
    w.(undef := (l: Loc) => if l.Local? && l.n >= next then Contents(v, n, l.n - next) else w.undef(l))
  }

  lemma FilledAhead(x: Setting, s: Cminus.Store)
    requires x.Valid() && x.start == Outside(s.globals, s.trace) && Fresh(s) && x.m.w == Filled(x.w, x.v, x.n, s.next)
    ensures Begins(x, s)
  {
    var v, n := x.v, x.n;
    forall i {:trigger Log(v, n, i)} ensures Ahead(x, s.next, Log(v, n, i)) {
      forall q | 0 <= q < |Log(v, n, i)| ensures x.m.w.undef(Local(s.next + q)) == Log(v, n, i)[q] {
        ContentsAt(v, n, i, q);
      }
    }
  }

  // Whoever has halted has done so with the same result.
  lemma EndsAlike(x: Setting, s: Cminus.Store, f: Function, scope: Scopes, env: Env, i: nat, fuel: nat)
    requires Begins(x, s) && x.m.code == GenFunction(f, scope).code && GlobalOnly(scope) &&
      Callable(f, scope, env, x.m.args, s)
    ensures SameEnd(x.w, x.start, IR.Run(x.v, x.n, IR.At(0, EMPTY), i), CallFunction(x.m.w, env, f, x.m.args, s, fuel))
  {
    var d, r := IR.Run(x.v, x.n, IR.At(0, EMPTY), i), CallFunction(x.m.w, env, f, x.m.args, s, fuel);
    if d.Halted? && r.Returned? {
      var k, c := RunSame(x, s, i);
      SameResult(x.m, f, scope, env, s, k, fuel);
    }
  }

  lemma StopsIff(x: Setting, s: Cminus.Store)
    requires Begins(x, s)
    ensures Stops(x.v, x.n) <==> Halts(x.m, Entry(s))
  {
    if Stops(x.v, x.n) {
      var i: nat :| IR.Run(x.v, x.n, IR.At(0, EMPTY), i).Halted?;
      var k, c := RunSame(x, s, i);
      assert Run(x.m, Entry(s), k).Halted?;
    }
    if Halts(x.m, Entry(s)) {
      var i: nat :| Run(x.m, Entry(s), i).Halted?;
      var k, c := RunSame(x, s, i + 1);
      if c.At? {
        HaltedOnce(x.m, Entry(s), i, k);
      }
      assert IR.Run(x.v, x.n, IR.At(0, EMPTY), i + 1).Halted?;
    }
  }

  // A generated function behaves as its source in a world that differs only in what the function's own
  // variables hold before they are assigned to.
  lemma GeneratedBehaves(f: Function, scope: Scopes, env: Env, args: seq<int>, s: Cminus.Store, w: World,
      undef: nat -> int) returns (w': World)
    requires GlobalNames(scope) && Callable(f, scope, env, args, s)
    ensures Shape(GenFunction(f, scope), {}) && SameBut(w, w') &&
      Behaves(FnOf(GenFunction(f, scope)), undef, f, w, w', env, args, s)
  {
    var g := GenFunction(f, scope);
    GeneratedIsInput(f, scope);
    EntryKept(f, scope);
    var avail := FunctionSound(f, scope);
    var o := Outside(s.globals, s.trace);
    w' := Filled(w, WorldOf(w, args, o, undef), FnOf(g), s.next);
    var x := Setting(w, Machine(w', args, g.code), g, avail, o, WorldOf(w, args, o, undef), FnOf(g));
    FilledAhead(x, s);
    StopsIff(x, s);
    HaltsIff(x.m, f, scope, env, s);
    forall i, fuel {:trigger IR.Run(x.v, x.n, IR.At(0, EMPTY), i), CallFunction(w', env, f, args, s, fuel)}
      ensures SameEnd(w, o, IR.Run(x.v, x.n, IR.At(0, EMPTY), i), CallFunction(w', env, f, args, s, fuel))
    {
      EndsAlike(x, s, f, scope, env, i, fuel);
    }
  }

  // ---- The compiler ----

  ghost predicate BehavesInSome(n: IR.Fn, undef: nat -> int, f: Function, w: World, env: Env, args: seq<int>,
      s: Cminus.Store)
    requires |args| == |f.params|
  {
    exists w' :: SameBut(w, w') && Behaves(n, undef, f, w, w', env, args, s)
  }

  // Every call of the compiled function behaves as a call of the source, whatever incomplete phis yield,
  // if the variables that the source has not assigned to hold suitable values.
  ghost predicate Implements(n: IR.Fn, f: Function, scope: Scopes)
  {
    forall env, args, s, w, undef :: Callable(f, scope, env, args, s) ==> BehavesInSome(n, undef, f, w, env, args, s)
  }

  ghost predicate Alike(n: IR.Fn, n': IR.Fn)
  {
    n.g == n'.g && forall v: IR.World, i: nat ::
      IR.SameOutside(IR.Run(v, n, IR.At(n.g.entry, EMPTY), i), IR.Run(v, n', IR.At(n.g.entry, EMPTY), i))
  }

  lemma BehavesAlike(n: IR.Fn, n': IR.Fn, undef: nat -> int, f: Function, w: World, w': World, env: Env, args: seq<int>,
      s: Cminus.Store)
    requires Alike(n, n') && |args| == |f.params| && Behaves(n, undef, f, w, w', env, args, s)
    ensures Behaves(n', undef, f, w, w', env, args, s)
  {
    var o := Outside(s.globals, s.trace);
    var v, c := WorldOf(w, args, o, undef), IR.At(n.g.entry, EMPTY);
    forall i ensures IR.SameOutside(IR.Run(v, n, c, i), IR.Run(v, n', c, i)) {
    }
    assert Stops(v, n) <==> Stops(v, n') by {
      if Stops(v, n) {
        var i: nat :| IR.Run(v, n, c, i).Halted?;
        assert IR.Run(v, n', c, i).Halted?;
      }
      if Stops(v, n') {
        var i: nat :| IR.Run(v, n', c, i).Halted?;
        assert IR.Run(v, n, c, i).Halted?;
      }
    }
    forall i, fuel {:trigger IR.Run(v, n', c, i), CallFunction(w', env, f, args, s, fuel)}
      ensures SameEnd(w, o, IR.Run(v, n', c, i), CallFunction(w', env, f, args, s, fuel))
    {
      assert SameEnd(w, o, IR.Run(v, n, c, i), CallFunction(w', env, f, args, s, fuel));
    }
  }

  lemma CompiledImplements(n: IR.Fn, f: Function, scope: Scopes)
    requires GlobalNames(scope) && Shape(GenFunction(f, scope), {}) && Alike(FnOf(GenFunction(f, scope)), n)
    ensures Implements(n, f, scope)
  {
    forall env, args, s, w, undef | Callable(f, scope, env, args, s)
      ensures BehavesInSome(n, undef, f, w, env, args, s)
    {
      var w' := GeneratedBehaves(f, scope, env, args, s, w, undef);
      BehavesAlike(FnOf(GenFunction(f, scope)), n, undef, f, w, w', env, args, s);
    }
  }

  // What has been built for a function of a program can be compiled, and its calls are those in which
  // names mean what the declarations up to it say.
  lemma BuiltCallable(ds: seq<Decl>, g: Gen, args: seq<int>, s: Cminus.Store)
    requires CminusfBuilder.Built(ds, g) && |args| == |ds[|ds| - 1].f.params| && Fresh(s)
    ensures GlobalNames(g.scope) && Callable(ds[|ds| - 1].f, g.scope, [TopLevel(ds)], args, s)
  {
    forall i | 0 <= i < |g.scope| ensures FrameNames(g.scope[i]) {
      assert FrameMatches(g.scope, [TopLevel(ds)], map[], i);
      forall x | x in g.scope[i] ensures g.scope[i][x].Func? || g.scope[i][x].GlobalVar? || g.scope[i][x].Reg? {
        assert BindsAt(g.scope[i], [TopLevel(ds)][i], map[], x);
      }
    }
  }

  // Turning the variables of a generated function into values leaves a function that implements the source.
  method Optimise(pass: Mem2RegPass, ghost f: Function, ghost scope: Scopes)
    requires GlobalNames(scope) && Shape(GenFunction(f, scope), {})
    requires pass.Current() == FnOf(GenFunction(f, scope)) && pass.nextId == NextOf(GenFunction(f, scope))
    requires pass.g.Valid() && MergesReachable(pass.g) && Assigned(pass.g, pass.code)
    modifies pass
    ensures Implements(pass.Current(), f, scope)
  {
    ghost var n := pass.Current();
    GeneratedIsInput(f, scope);
    pass.Run(n);
    CompiledImplements(pass.Current(), f, scope);
  }

  ghost predicate Gives(r: Outcome, value: Option<int>, o: Outside)
  {
    r.Returned? && r.value == value && Outside(r.s.globals, r.s.trace) == o
  }

  ghost predicate Yields(f: Function, w: World, env: Env, args: seq<int>, s: Cminus.Store, value: Option<int>,
      o: Outside)
    requires |args| == |f.params|
  {
    exists fuel: nat :: Gives(CallFunction(w, env, f, args, s, fuel), value, o)
  }

  // If the result of the source does not depend on what unassigned variables hold, the compiled function
  // ends with that result.
  lemma DefinedResult(n: IR.Fn, f: Function, scope: Scopes, env: Env, args: seq<int>, s: Cminus.Store, w: World,
      undef: nat -> int, value: Option<int>, o: Outside)
    returns (i: nat)
    requires Implements(n, f, scope) && Callable(f, scope, env, args, s)
    requires forall w' :: SameBut(w, w') ==> Yields(f, w', env, args, s, value, o)
    ensures
      var start := Outside(s.globals, s.trace);
      var d := IR.Run(WorldOf(w, args, start, undef), n, IR.At(n.g.entry, EMPTY), i);
      d.Halted? && d.value == value && Replay(w, start, d.trace) == o
  {
    assert BehavesInSome(n, undef, f, w, env, args, s);
    var w' :| SameBut(w, w') && Behaves(n, undef, f, w, w', env, args, s);
    assert Yields(f, w', env, args, s, value, o);
    var fuel: nat :| Gives(CallFunction(w', env, f, args, s, fuel), value, o);
    var start := Outside(s.globals, s.trace);
    i :| IR.Run(WorldOf(w, args, start, undef), n, IR.At(n.g.entry, EMPTY), i).Halted?;
    assert SameEnd(w, start, IR.Run(WorldOf(w, args, start, undef), n, IR.At(n.g.entry, EMPTY), i),
      CallFunction(w', env, f, args, s, fuel));
  }

  // ---- Conditions on the source ----

  // Every call of the compiled function behaves as the call of the source.
  ghost predicate ImplementsExactly(n: IR.Fn, f: Function, scope: Scopes)
  {
    forall env, args, s, w, undef :: Callable(f, scope, env, args, s) ==> Behaves(n, undef, f, w, w, env, args, s)
  }

  lemma OutsideIsGlobal(scope: Scopes, env: Env)
    requires Matches(scope, env, map[])
    ensures GlobalEnv(env)
  {
    forall x ensures !Cminus.PlaceOf(env, x).Local? {
      FindMatches(scope, env, map[], x);
    }
  }

  lemma BehavesExactly(n: IR.Fn, undef: nat -> int, f: Function, w: World, w': World, env: Env, args: seq<int>,
      s: Cminus.Store)
    requires |args| == |f.params| && Behaves(n, undef, f, w, w', env, args, s) && SameBut(w, w')
    requires AssignsFirst(f) && GlobalEnv(env)
    ensures Behaves(n, undef, f, w, w, env, args, s)
  {
    var o := Outside(s.globals, s.trace);
    var v, c := WorldOf(w, args, o, undef), IR.At(n.g.entry, EMPTY);
    forall fuel: nat ensures CallFunction(w', env, f, args, s, fuel) == CallFunction(w, env, f, args, s, fuel) {
      SameCall(w, w', env, f, args, s, fuel);
    }
    forall i, fuel {:trigger IR.Run(v, n, c, i), CallFunction(w, env, f, args, s, fuel)}
      ensures SameEnd(w, o, IR.Run(v, n, c, i), CallFunction(w, env, f, args, s, fuel))
    {
      assert SameEnd(w, o, IR.Run(v, n, c, i), CallFunction(w', env, f, args, s, fuel));
    }
  }

  lemma AssignedFirstExactly(n: IR.Fn, f: Function, scope: Scopes)
    requires Implements(n, f, scope) && AssignsFirst(f)
    ensures ImplementsExactly(n, f, scope)
  {
    forall env, args, s, w, undef | Callable(f, scope, env, args, s) ensures Behaves(n, undef, f, w, w, env, args, s) {
      assert BehavesInSome(n, undef, f, w, env, args, s);
      var w' :| SameBut(w, w') && Behaves(n, undef, f, w, w', env, args, s);
      OutsideIsGlobal(scope, env);
      BehavesExactly(n, undef, f, w, w', env, args, s);
    }
  }

  // If the source assigns to its variables first, and no branch and no body ends where control cannot come
  // before a place where it can, the compiled function does exactly what the source does.
  method Compile(pass: Mem2RegPass, ghost f: Function, ghost scope: Scopes)
    requires GlobalNames(scope) && AssignsFirst(f) && MeetsAll(f.body, true) && Shape(GenFunction(f, scope), {})
    requires pass.Current() == FnOf(GenFunction(f, scope)) && pass.nextId == NextOf(GenFunction(f, scope))
    modifies pass
    ensures ImplementsExactly(pass.Current(), f, scope)
  {
    MergesReachableIff(f, scope);
    AssignedFromSource(f, scope);
    Optimise(pass, f, scope);
    AssignedFirstExactly(pass.Current(), f, scope);
  }
}
