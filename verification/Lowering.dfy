// A generated function in the intermediate representation that the optimisations work on, and that it
// meets what they ask of their input.
module Lowering {
  import opened Graph
  import opened Cminus
  import opened Machine
  import opened Generation
  import opened Framing
  import opened FunctionMeaning
  import opened BlockShape
  import opened MadeBeforeUse
  import IR
  import opened PhiPlacement
  import opened PlacedFunction

  // ---- Instructions ----

  function ToOperand(v: Value): IR.Operand
  {
    match v
    case Const(n) => IR.Const(n)
    case Reg(id) => IR.Result(id)
    case Param(i) => IR.Arg(i)
    case _ => IR.Const(0)
  }

  function ToOperands(vs: seq<Value>): (os: seq<IR.Operand>)
    ensures |os| == |vs| && forall i :: 0 <= i < |vs| ==> os[i] == ToOperand(vs[i])
  {
    seq(|vs|, i requires 0 <= i < |vs| => ToOperand(vs[i]))
  }

  function ArithCode(op: ArithOp): nat
  {
    match op
    case Plus => 0
    case Minus => 1
    case Mul => 2
    case Div => 3
  }

  function CmpCode(op: CmpOp): nat
  {
    match op
    case Lt => 4
    case Le => 5
    case Ge => 6
    case Gt => 7
    case Eq => 8
    case Neq => 9
  }

  const WIDEN := 10
  const READ := 11
  const WRITE := 12
  const CALL := 13

  // An access through an alloca is a slot access, one through a global variable an effect.
  function Lower(i: Instr, id: nat): IR.Instr
    requires !i.Terminator()
  {
    match i
    case Alloca(r) => IR.Alloca(id, r, true)
    case Load(_, Reg(p)) => IR.Load(id, p)
    case Load(_, p) => IR.Effect(id, IR.Op(READ, NameOf(p)), [])
    case Store(v, Reg(p)) => IR.Store(id, ToOperand(v), p)
    case Store(v, p) => IR.Effect(id, IR.Op(WRITE, NameOf(p)), [ToOperand(v)])
    case IArith(_, op, a, b) => IR.Compute(id, IR.Op(ArithCode(op), ""), [ToOperand(a), ToOperand(b)])
    case ICmp(_, op, a, b) => IR.Compute(id, IR.Op(CmpCode(op), ""), [ToOperand(a), ToOperand(b)])
    case Zext(_, a) => IR.Compute(id, IR.Op(WIDEN, ""), [ToOperand(a)])
    case CallTo(_, f, args) => IR.Effect(id, IR.Op(CALL, f), ToOperands(args))
  }

  function NameOf(p: Value): string
  {
    if p.GlobalVar? then p.name else ""
  }

  function LowerTerm(i: Instr): IR.Term
    requires i.Terminator()
  {
    match i
    case Br(b) => IR.Br(b)
    case CondBr(v, t, f) => IR.CondBr(ToOperand(v), t, f)
    case Ret(None) => IR.Ret(None)
    case Ret(Some(v)) => IR.Ret(Some(ToOperand(v)))
  }

  // ---- Functions ----

  // The instructions in the blocks before b.
  function Offset(code: Code, b: Block): nat
  {
    if b == 0 then 0 else Offset(code, b - 1) + |Get(code, b - 1)|
  }

  lemma {:induction false} OffsetMore(code: Code, b: Block, c: Block)
    requires b < c
    ensures Offset(code, b) + |Get(code, b)| <= Offset(code, c)
    decreases c
  {
    if b < c - 1 {
      OffsetMore(code, b, c - 1);
    }
  }

  // Instructions that make no value are numbered after all that do.
  function IdAt(g: Gen, b: Block, k: nat): nat
    requires k < |Get(g.code, b)|
  {
    var r := Makes(Get(g.code, b)[k]);
    if r.Some? then r.value else g.nextId + Offset(g.code, b) + k
  }

  ghost function LowerBlock(g: Gen, b: Block): (s: seq<IR.Instr>)
    requires Closed(g, b)
    ensures |s| == |Get(g.code, b)| - 1
    ensures forall k :: 0 <= k < |s| ==> s[k] == Lower(Get(g.code, b)[k], IdAt(g, b, k))
  {
    var s := Get(g.code, b);
    seq(|s| - 1, k requires 0 <= k < |s| - 1 => Lower(s[k], IdAt(g, b, k)))
  }

  ghost function GraphOf(g: Gen): Cfg
  {
    var blocks := set b | b in g.order;
    Cfg(blocks, 0, map b | b in blocks :: ListAt(g.succs, b), map b | b in blocks :: ListAt(g.preds, b))
  }

  ghost function FnOf(g: Gen): IR.Fn
    requires Shape(g, {})
  {
    assert forall b :: b in g.order ==> ShapeAt(g, {}, b);
    IR.Fn(GraphOf(g), map b | b in g.order :: LowerBlock(g, b), map b | b in g.order ::
      LowerTerm(Get(g.code, b)[|Get(g.code, b)| - 1]))
  }

  ghost function NextOf(g: Gen): nat
  {
    g.nextId + Offset(g.code, |g.code|)
  }

  // ---- The flow graph ----

  lemma GraphValid(g: Gen)
    requires Shape(g, {}) && 0 in g.order
    ensures GraphOf(g).Valid()
  {
    var c := GraphOf(g);
    forall a, b {:trigger b in c.succ[a]} | a in c.blocks && b in c.succ[a] ensures b in c.blocks && a in c.pred[b] {
      EdgesInside(g, a, b);
    }
    forall a, b {:trigger a in c.pred[b]} | b in c.blocks && a in c.pred[b] ensures a in c.blocks && b in c.succ[a] {
      assert Mirrored(g, a, b);
      assert a in multiset(ListAt(g.preds, b));
      assert b in multiset(ListAt(g.succs, a));
      EdgesInside(g, a, b);
    }
  }

  lemma FnValid(g: Gen)
    requires Shape(g, {}) && 0 in g.order
    ensures FnOf(g).Valid()
  {
    GraphValid(g);
    var f := FnOf(g);
    forall b {:trigger f.SuccessorsRecorded(b)} | b in f.g.blocks ensures f.SuccessorsRecorded(b) {
      assert ShapeAt(g, {}, b);
    }
  }

  // Nothing jumps to the entry of a generated function.
  lemma EntryKept(f: Function, scope: Scopes)
    requires GlobalOnly(scope)
    ensures 0 in GenFunction(f, scope).order && ListAt(GenFunction(f, scope).preds, 0) == []
  {
    var g0 := Start(scope).(scope := scope + [map[]]);
    StartReady(scope);
    ParamsDeclare(f.params, 0, g0);
    DeclsDeclare(f.decls, GenParams(f.params, 0, g0));
    var g1 := Prologue(f, scope);
    PrologueShape(f, scope);
    StmtsShape(f.body, g1, {});
    var g2 := GenStmts(f.body, g1);
    assert g1.order == [0] && g1.preds == [[]];
    assert 0 in g1.order && ListAt(g2.preds, 0) == ListAt(g1.preds, 0);
  }

  // It is the first of the function's blocks.
  lemma EntryFirst(f: Function, scope: Scopes)
    requires GlobalOnly(scope)
    ensures GenFunction(f, scope).order != [] && GenFunction(f, scope).order[0] == 0
  {
    EntryKept(f, scope);
    FunctionShape(f, scope);
    var order := GenFunction(f, scope).order;
    var i :| 0 <= i < |order| && order[i] == 0;
  }

  // ---- Identities ----

  lemma IdsDistinct(g: Gen, avail: Avail, b: Block, k: nat, c: Block, j: nat)
    requires Sound(g.code, g.nextId, avail) && k < |Get(g.code, b)| && j < |Get(g.code, c)| &&
      IdAt(g, b, k) == IdAt(g, c, j)
    ensures b == c && k == j
  {
    assert PlaceOk(g.code, avail, g.nextId, b, k) && PlaceOk(g.code, avail, g.nextId, c, j);
    if Makes(Get(g.code, b)[k]).Some? {
      assert SameMade(g.code, b, k, c, j);
    } else if b < c {
      OffsetMore(g.code, b, c);
    } else if c < b {
      OffsetMore(g.code, c, b);
    }
  }

  lemma IdBelow(g: Gen, avail: Avail, b: Block, k: nat)
    requires Sound(g.code, g.nextId, avail) && k < |Get(g.code, b)|
    ensures IdAt(g, b, k) < NextOf(g)
  {
    assert PlaceOk(g.code, avail, g.nextId, b, k);
    OffsetMore(g.code, b, |g.code|);
  }

  lemma IdentitiesOf(g: Gen, avail: Avail)
    requires Shape(g, {}) && Sound(g.code, g.nextId, avail)
    ensures Identities(FnOf(g).code, NextOf(g))
  {
    var code := FnOf(g).code;
    forall b: Block, k: nat, c: Block, j: nat | SameIdentity(code, b, k, c, j) ensures b == c && k == j {
      assert ShapeAt(g, {}, b) && ShapeAt(g, {}, c);
      IdsDistinct(g, avail, b, k, c, j);
    }
    forall b, k {:trigger code[b][k]} | b in code && 0 <= k < |code[b]| ensures code[b][k].id < NextOf(g) {
      assert ShapeAt(g, {}, b);
      IdBelow(g, avail, b, k);
    }
  }

  // ---- Uses ----

  lemma UsesLowered(i: Instr, id: nat, o: IR.Operand)
    requires !i.Terminator() && o in Ssa.Uses(Lower(i, id)) && o.Result?
    ensures Reg(o.id) in ValuesOf(i)
  {
    match i
    case CallTo(_, _, args) =>
      var k :| 0 <= k < |args| && ToOperands(args)[k] == o;
      assert args[k] in args;
    case _ =>
  }

  lemma TermUsesLowered(i: Instr, o: IR.Operand)
    requires i.Terminator() && o in Ssa.TermUses(LowerTerm(i)) && o.Result?
    ensures Reg(o.id) in ValuesOf(i)
  {
  }

  // The instruction that makes a value comes earlier in the block.
  lemma MadeEarlier(g: Gen, avail: Avail, r: nat, b: Block, k: nat) returns (j: nat)
    requires Sound(g.code, g.nextId, avail) && k < |Get(g.code, b)| && Reg(r) in ValuesOf(Get(g.code, b)[k])
    ensures j < k && !Get(g.code, b)[j].Alloca? && Makes(Get(g.code, b)[j]).Some? && IdAt(g, b, j) == r
  {
    var s := Get(g.code, b);
    assert PlaceOk(g.code, avail, g.nextId, b, k);
    assert ValueHere(s, Reg(r), k);
    j :| 0 <= j < k && j < |s| && Makes(s[j]) == Some(r) && !s[j].Alloca?;
  }

  lemma MadeLowered(i: Instr, id: nat)
    requires Makes(i).Some? && !i.Alloca?
    ensures var i' := Lower(i, id); i'.id == id && (i'.Load? || i'.Compute? || i'.Effect?)
  {
  }

  lemma UseFound(g: Gen, avail: Avail, r: nat, b: Block, k: nat)
    requires Shape(g, {}) && Sound(g.code, g.nextId, avail) && b in g.order && k < |Get(g.code, b)| &&
      Reg(r) in ValuesOf(Get(g.code, b)[k])
    ensures UseDominated(FnOf(g), PlaceMap(FnOf(g).code), IR.Result(r), b, k)
  {
    var f := FnOf(g);
    var j := MadeEarlier(g, avail, r, b, k);
    assert ShapeAt(g, {}, b);
    MadeLowered(Get(g.code, b)[j], r);
    IdentitiesOf(g, avail);
    PlaceMapAt(f, NextOf(g), b, j);
  }

  lemma UsesFound(g: Gen, avail: Avail, b: Block, k: nat)
    requires Shape(g, {}) && Sound(g.code, g.nextId, avail) && b in g.order && b in FnOf(g).code &&
      k <= |FnOf(g).code[b]|
    ensures UsesDominated(FnOf(g), PlaceMap(FnOf(g).code), b, k)
  {
    var f, s := FnOf(g), Get(g.code, b);
    assert ShapeAt(g, {}, b);
    forall o | o in (if k < |f.code[b]| then Ssa.Uses(f.code[b][k]) else Ssa.TermUses(f.term[b]))
      ensures UseDominated(f, PlaceMap(f.code), o, b, k)
    {
      if o.Result? {
        if k < |f.code[b]| {
          UsesLowered(s[k], IdAt(g, b, k), o);
        } else {
          TermUsesLowered(s[k], o);
        }
        UseFound(g, avail, o.id, b, k);
      }
    }
  }

  lemma PlainCode(g: Gen)
    requires Shape(g, {})
    ensures AddressesNotStored(FnOf(g).code)
    ensures forall b, k {:trigger FnOf(g).code[b][k]} :: b in FnOf(g).code && 0 <= k < |FnOf(g).code[b]| ==>
      !FnOf(g).code[b][k].Phi?
  {
    var code: map<Block, seq<IR.Instr>> := FnOf(g).code;
    forall b: Block, k: nat {:trigger code[b][k]} | b in code && k < |code[b]|
      ensures !code[b][k].Phi? && (code[b][k].Store? ==> !code[b][k].value.Address?)
    {
      assert ShapeAt(g, {}, b);
    }
  }

  lemma InputOf(g: Gen, avail: Avail)
    requires Shape(g, {}) && Sound(g.code, g.nextId, avail) && 0 in g.order && ListAt(g.preds, 0) == []
    ensures Input(FnOf(g), NextOf(g))
  {
    FnValid(g);
    IdentitiesOf(g, avail);
    PlainCode(g);
    var n := FnOf(g);
    forall b, k {:trigger UsesDominated(n, PlaceMap(n.code), b, k)} | b in n.code && n.g.Reachable(b) &&
      0 <= k <= |n.code[b]|
      ensures UsesDominated(n, PlaceMap(n.code), b, k)
    {
      UsesFound(g, avail, b, k);
    }
  }

  // What the generator delivers is what the conversion to single assignment form asks for.
  lemma GeneratedIsInput(f: Function, scope: Scopes)
    requires GlobalNames(scope)
    ensures Shape(GenFunction(f, scope), {}) && Input(FnOf(GenFunction(f, scope)), NextOf(GenFunction(f, scope)))
  {
    FunctionShape(f, scope);
    EntryKept(f, scope);
    var avail := FunctionSound(f, scope);
    InputOf(GenFunction(f, scope), avail);
  }
}
