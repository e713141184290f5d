// The code the generator emits, and how it runs: one instruction at a time.
module Machine {
  import opened Graph
  import opened Cminus

  datatype Value = Const(n: int) | Reg(id: nat) | GlobalVar(name: string) | Param(i: nat) | Func(name: string)

  datatype Instr =
    | Alloca(id: nat)
    | Load(id: nat, ptr: Value)
    | Store(v: Value, ptr: Value)
    | IArith(id: nat, aop: ArithOp, a: Value, b: Value)
    | ICmp(id: nat, cop: CmpOp, a: Value, b: Value)
    | Zext(id: nat, a: Value)
    | CallTo(id: nat, f: string, args: seq<Value>)
    | Br(target: Block)
    | CondBr(cond: Value, ifTrue: Block, ifFalse: Block)
    | Ret(value: Option<Value>)
  {
    predicate Terminator()
    {
      Br? || CondBr? || Ret?
    }
  }

  // The instruction lists of the blocks, which are numbered in the order they are created in.
  type Code = seq<seq<Instr>>

  function Get(code: Code, b: Block): seq<Instr>
  {
    if b < |code| then code[b] else []
  }

  // An activation: the world, the arguments, and the code.
  datatype Machine = Machine(w: World, args: seq<int>, code: Code)

  type Regs = map<nat, int>

  datatype Config = At(b: Block, k: nat, regs: Regs, s: Cminus.Store) | Halted(value: Option<int>,
    s: Cminus.Store) | Stuck

  function Val(args: seq<int>, v: Value, regs: Regs): int
  {
    match v
    case Const(n) => n
    case Reg(id) => if id in regs then regs[id] else 0
    case Param(i) => if i < |args| then args[i] else 0
    case _ => 0
  }

  function Vals(args: seq<int>, vs: seq<Value>, regs: Regs): seq<int>
  {
    if vs == [] then [] else [Val(args, vs[0], regs)] + Vals(args, vs[1..], regs)
  }

  function Place(args: seq<int>, v: Value, regs: Regs): Loc
  {
    if v.GlobalVar? then Global(v.name) else Local(Val(args, v, regs))
  }

  function Step(m: Machine, c: Config): Config
  {
    if c.At? && c.k < |Get(m.code, c.b)| then
      var regs, s := c.regs, c.s;
      match Get(m.code, c.b)[c.k]
      case Alloca(id) => At(c.b, c.k + 1, regs[id := s.next], s.(next := s.next + 1))
      case Load(id, p) => At(c.b, c.k + 1, regs[id := Read(m.w, s, Place(m.args, p, regs))], s)
      case Store(v, p) => At(c.b, c.k + 1, regs, Write(s, Place(m.args, p, regs), Val(m.args, v, regs)))
      case IArith(id, op, a, b) => At(c.b, c.k + 1,
        regs[id := m.w.arith(op, Val(m.args, a, regs), Val(m.args, b, regs))], s)
      case ICmp(id, op, a, b) => At(c.b, c.k + 1,
        regs[id := if Test(op, Val(m.args, a, regs), Val(m.args, b, regs)) then 1 else 0], s)
      case Zext(id, a) => At(c.b, c.k + 1, regs[id := Val(m.args, a, regs)], s)
      case CallTo(id, f, vs) =>
        var (v, s1) := Ask(m.w, f, Vals(m.args, vs, regs), s);
        At(c.b, c.k + 1, regs[id := v], s1)
      case Br(t) => At(t, 0, regs, s)
      case CondBr(v, t, f) => At(if Val(m.args, v, regs) != 0 then t else f, 0, regs, s)
      case Ret(None) => Halted(None, s)
      case Ret(Some(v)) => Halted(Some(Val(m.args, v, regs)), s)
    else if c.At? then Stuck
    else c
  }

  function Run(m: Machine, c: Config, n: nat): Config
    decreases n
  {
    if n == 0 then c else Run(m, Step(m, c), n - 1)
  }

  ghost predicate Reaches(m: Machine, c: Config, d: Config)
  {
    exists n: nat :: Run(m, c, n) == d
  }

  // After at least n steps the machine is still running.
  ghost predicate StillRunning(m: Machine, c: Config, n: nat)
  {
    exists k: nat :: k >= n && Run(m, c, k).At?
  }

  lemma {:induction false} RunSplit(m: Machine, c: Config, i: nat, j: nat)
    ensures Run(m, c, i + j) == Run(m, Run(m, c, i), j)
    decreases i
  {
    if i > 0 {
      RunSplit(m, Step(m, c), i - 1, j);
    }
  }

  lemma ReachesSelf(m: Machine, c: Config)
    ensures Reaches(m, c, c)
  {
    assert Run(m, c, 0) == c;
  }

  lemma ReachesStep(m: Machine, c: Config)
    ensures Reaches(m, c, Step(m, c))
  {
    assert Run(m, c, 1) == Run(m, Step(m, c), 0);
  }

  lemma ReachesTrans(m: Machine, c: Config, d: Config, e: Config)
    requires Reaches(m, c, d) && Reaches(m, d, e)
    ensures Reaches(m, c, e)
  {
    var i: nat :| Run(m, c, i) == d;
    var j: nat :| Run(m, d, j) == e;
    RunSplit(m, c, i, j);
  }

  // Running on from a configuration that is reached.
  lemma StillAfter(m: Machine, c: Config, d: Config, n: nat)
    requires Reaches(m, c, d) && StillRunning(m, d, n)
    ensures StillRunning(m, c, n)
  {
    var i: nat :| Run(m, c, i) == d;
    var k: nat :| k >= n && Run(m, d, k).At?;
    RunSplit(m, c, i, k);
    assert i + k >= n && Run(m, c, i + k).At?;
  }

  lemma StillAfterStep(m: Machine, c: Config, n: nat)
    requires StillRunning(m, Step(m, c), n)
    ensures StillRunning(m, c, n + 1)
  {
    var k: nat :| k >= n && Run(m, Step(m, c), k).At?;
    assert Run(m, c, k + 1) == Run(m, Step(m, c), k);
  }

  // A machine that has stopped stays stopped, so it cannot also be running later.
  lemma {:induction false} StoppedStays(m: Machine, c: Config, n: nat)
    requires !c.At?
    ensures Run(m, c, n) == c
  {
    if n > 0 {
      StoppedStays(m, c, n - 1);
    }
  }
}
