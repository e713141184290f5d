// The intermediate representation and its meaning.
module IR {
  import opened Graph

  type Reg = nat   // an instruction, named by its identity; also the value it computes
  type Slot = nat  // an alloca, named by the address it yields

  datatype Operand = Const(n: int) | Arg(i: nat) | Address(slot: Slot) | Result(id: Reg)

  // What an instruction does: its operation code and the function or global variable it names.
  datatype Op = Op(code: nat, name: string)

  // Load and Store access an alloca directly. Accesses through a global variable or an element
  // address, and calls, are Effects: they may read and change everything outside the slots.
  datatype Instr =
    | Alloca(id: Reg, slot: Slot, scalar: bool)
    | Load(id: Reg, slot: Slot)
    | Store(id: Reg, value: Operand, slot: Slot)
    | Phi(id: Reg, slot: Slot, ins: seq<(Operand, Block)>)
    | Compute(id: Reg, op: Op, args: seq<Operand>)
    | Effect(id: Reg, op: Op, args: seq<Operand>)

  datatype Term = Br(target: Block) | CondBr(cond: Operand, ifTrue: Block, ifFalse: Block) | Ret(value: Option<Operand>)

  datatype Fn = Fn(g: Cfg, code: map<Block, seq<Instr>>, term: map<Block, Term>)
  {
    // Every block has code and a terminator, and the successor lists are those that
    // creating the terminator recorded.
    ghost predicate Valid()
    {
      && g.Valid()
      && code.Keys == g.blocks && term.Keys == g.blocks
      && forall b {:trigger SuccessorsRecorded(b)} :: b in g.blocks ==> SuccessorsRecorded(b)
    }

    ghost predicate SuccessorsRecorded(b: Block)
      requires b in g.succ && b in term
    {
      g.succ[b] == Targets(term[b])
    }
  }

  function Targets(t: Term): seq<Block>
  {
    match t
    case Br(b) => [b]
    case CondBr(_, b, c) => [c, b]
    case Ret(_) => []
  }

  // ---- Meaning ----

  datatype Event = Event(op: Op, args: seq<int>)

  // What the function cannot see: the machine operations, the answer of the outside world
  // to the latest of a history of events, addresses, arguments, and what reading a slot
  // yields that nothing has been stored to.
  datatype World = World(compute: (Op, seq<int>) -> int, answer: seq<Event> -> int, address: Slot -> int,
    arg: nat -> int, undef: Slot -> int)

  datatype State = State(regs: map<Reg, int>, mem: map<Slot, int>, trace: seq<Event>)

  function Reg0(regs: map<Reg, int>, r: Reg): int
  {
    if r in regs then regs[r] else 0
  }

  function Mem0(w: World, mem: map<Slot, int>, v: Slot): int
  {
    if v in mem then mem[v] else w.undef(v)
  }

  function Eval(w: World, o: Operand, regs: map<Reg, int>): int
  {
    match o
    case Const(n) => n
    case Arg(i) => w.arg(i)
    case Address(v) => w.address(v)
    case Result(r) => Reg0(regs, r)
  }

  function EvalAll(w: World, os: seq<Operand>, regs: map<Reg, int>): (vs: seq<int>)
    ensures |vs| == |os|
    ensures forall i :: 0 <= i < |os| ==> vs[i] == Eval(w, os[i], regs)
  {
    seq(|os|, i requires 0 <= i < |os| => Eval(w, os[i], regs))
  }

  // One instruction inside a block. A phi has its effect on entry to the block.
  function Exec1(w: World, i: Instr, s: State): State
  {
    match i
    case Alloca(_, _, _) => s
    case Phi(_, _, _) => s
    case Load(id, v) => s.(regs := s.regs[id := Mem0(w, s.mem, v)])
    case Store(_, o, v) => s.(mem := s.mem[v := Eval(w, o, s.regs)])
    case Compute(id, op, args) => s.(regs := s.regs[id := w.compute(op, EvalAll(w, args, s.regs))])
    case Effect(id, op, args) =>
      var trace := s.trace + [Event(op, EvalAll(w, args, s.regs))];
      State(s.regs[id := w.answer(trace)], s.mem, trace)
  }

  function Exec(w: World, code: seq<Instr>, s: State): State
  {
    if code == [] then s else Exec1(w, code[|code| - 1], Exec(w, code[..|code| - 1], s))
  }

  // The operand a phi takes when control arrives from p.
  function Incoming(ins: seq<(Operand, Block)>, p: Block): Option<Operand>
  {
    if ins == [] then None
    else if ins[0].1 == p then Some(ins[0].0)
    else Incoming(ins[1..], p)
  }

  // All phis of a block read the registers as they were before any of them is written. A phi
  // without a pair for the block control comes from is undefined.
  function EnterPhis(w: World, code: seq<Instr>, p: Block, before: map<Reg, int>): map<Reg, int>
  {
    if code == [] then before
    else
      var last := code[|code| - 1];
      var regs := EnterPhis(w, code[..|code| - 1], p, before);
      if last.Phi? then
        var o := Incoming(last.ins, p);
        regs[last.id := if o.Some? then Eval(w, o.value, before) else w.undef(last.slot)]
      else regs
  }

  datatype Config = At(b: Block, s: State) | Halted(value: Option<int>, trace: seq<Event>)

  function Goto(w: World, f: Fn, p: Block, b: Block, s: State): Config
  {
    At(b, if b in f.code then s.(regs := EnterPhis(w, f.code[b], p, s.regs)) else s)
  }

  function Leave(w: World, f: Fn, b: Block, s: State): Config
    requires b in f.term
  {
    match f.term[b]
    case Br(c) => Goto(w, f, b, c, s)
    case CondBr(o, c, d) => Goto(w, f, b, if Eval(w, o, s.regs) != 0 then c else d, s)
    case Ret(None) => Halted(None, s.trace)
    case Ret(Some(o)) => Halted(Some(Eval(w, o, s.regs)), s.trace)
  }

  // One block: its instructions, then its terminator.
  function StepBlock(w: World, f: Fn, c: Config): Config
  {
    if c.At? && c.b in f.code && c.b in f.term then Leave(w, f, c.b, Exec(w, f.code[c.b], c.s)) else c
  }

  function Run(w: World, f: Fn, c: Config, n: nat): Config
  {
    if n == 0 then c else StepBlock(w, f, Run(w, f, c, n - 1))
  }

  // Indistinguishable from outside: the same block, the same calls and memory accesses
  // with the same arguments so far, and the same returned value.
  predicate SameOutside(c: Config, d: Config)
  {
    match (c, d)
    case (At(b, s), At(b', s')) => b == b' && s.trace == s'.trace
    case (Halted(v, t), Halted(v', t')) => v == v' && t == t'
    case _ => false
  }
}
