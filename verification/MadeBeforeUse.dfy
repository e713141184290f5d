// In generated code every value is used in the block that makes it, after it has been made, and every
// variable where control has passed its declaration.
module MadeBeforeUse {
  import opened Graph
  import opened Cminus
  import opened Machine
  import opened Generation
  import opened Framing
  import opened FunctionMeaning
  import opened BlockShape

  // ---- Values and addresses in the generated code ----

  // The number of the value an instruction makes.
  function Makes(i: Instr): Option<nat>
  {
    match i
    case Alloca(id) => Some(id)
    case Load(id, _) => Some(id)
    case IArith(id, _, _, _) => Some(id)
    case ICmp(id, _, _, _) => Some(id)
    case Zext(id, _) => Some(id)
    case CallTo(id, _, _) => Some(id)
    case _ => None
  }

  // The operands whose values are used.
  function ValuesOf(i: Instr): seq<Value>
  {
    match i
    case Store(v, _) => [v]
    case IArith(_, _, a, b) => [a, b]
    case ICmp(_, _, a, b) => [a, b]
    case Zext(_, a) => [a]
    case CallTo(_, _, args) => args
    case CondBr(v, _, _) => [v]
    case Ret(Some(v)) => [v]
    case _ => []
  }

  function PointerOf(i: Instr): Option<Value>
  {
    match i
    case Load(_, p) => Some(p)
    case Store(_, p) => Some(p)
    case _ => None
  }

  // One of the first k instructions makes the value with this number.
  ghost predicate MadeHere(s: seq<Instr>, id: nat, k: nat)
  {
    exists j :: 0 <= j < k && j < |s| && Makes(s[j]) == Some(id) && !s[j].Alloca?
  }

  ghost predicate AllocaHere(s: seq<Instr>, id: nat, k: nat)
  {
    exists j :: 0 <= j < k && j < |s| && s[j] == Alloca(id)
  }

  ghost predicate ValueHere(s: seq<Instr>, v: Value, k: nat)
  {
    match v
    case Const(_) => true
    case Param(_) => true
    case Reg(id) => MadeHere(s, id, k)
    case _ => false
  }

  // Variables of the block or made before control enters it.
  ghost predicate PointerHere(entered: set<nat>, s: seq<Instr>, v: Value, k: nat)
  {
    match v
    case GlobalVar(_) => true
    case Reg(id) => id in entered || AllocaHere(s, id, k)
    case _ => false
  }

  ghost predicate IsAlloca(code: Code, id: nat)
  {
    exists b: Block, k: nat :: k < |Get(code, b)| && Get(code, b)[k] == Alloca(id)
  }

  // The variables that have been made whenever control enters a block.
  type Avail = seq<set<nat>>

  ghost function Entered(avail: Avail, b: Block): set<nat>
  {
    if b < |avail| then avail[b] else {}
  }

  // All variables made whenever control enters c have been made after k instructions of s.
  ghost predicate JumpOk(avail: Avail, entered: set<nat>, s: seq<Instr>, c: Block, k: nat)
  {
    c < |avail| && forall p: nat {:trigger p in avail[c]} :: p in avail[c] ==> PointerHere(entered, s, Reg(p), k)
  }

  ghost predicate InstrOk(avail: Avail, entered: set<nat>, s: seq<Instr>, i: Instr, k: nat)
  {
    && (forall v {:trigger v in ValuesOf(i)} :: v in ValuesOf(i) ==> ValueHere(s, v, k))
    && (PointerOf(i).Some? ==> PointerHere(entered, s, PointerOf(i).value, k))
    && (forall c {:trigger c in Targets(i)} :: c in Targets(i) ==> JumpOk(avail, entered, s, c, k))
  }

  ghost predicate PlaceOk(code: Code, avail: Avail, next: nat, b: Block, k: nat)
    requires k < |Get(code, b)|
  {
    && InstrOk(avail, Entered(avail, b), Get(code, b), Get(code, b)[k], k)
    && (Makes(Get(code, b)[k]).Some? ==> Makes(Get(code, b)[k]).value < next)
  }

  ghost predicate SameMade(code: Code, b: Block, k: nat, c: Block, j: nat)
  {
    k < |Get(code, b)| && j < |Get(code, c)| && Makes(Get(code, b)[k]).Some? &&
      Makes(Get(code, b)[k]) == Makes(Get(code, c)[j])
  }

  ghost predicate Sound(code: Code, next: nat, avail: Avail)
  {
    && |avail| == |code|
    && (forall b: Block, k: nat {:trigger PlaceOk(code, avail, next, b, k)} :: k < |Get(code, b)| ==>
      PlaceOk(code, avail, next, b, k))
    && (forall b: Block, k: nat, c: Block, j: nat {:trigger SameMade(code, b, k, c, j)} ::
      SameMade(code, b, k, c, j) ==> b == c && k == j)
    && (forall b: Block, p: nat {:trigger p in Entered(avail, b)} :: p in Entered(avail, b) ==> IsAlloca(code, p))
  }

  // ---- Emitting one more instruction ----

  lemma ValueMore(s: seq<Instr>, s': seq<Instr>, v: Value, k: nat, k': nat)
    requires ValueHere(s, v, k) && s <= s' && k <= k'
    ensures ValueHere(s', v, k')
  {
    if v.Reg? {
      var j :| 0 <= j < k && j < |s| && Makes(s[j]) == Some(v.id) && !s[j].Alloca?;
      assert s'[j] == s[j];
    }
  }

  lemma PointerMore(entered: set<nat>, s: seq<Instr>, s': seq<Instr>, v: Value, k: nat, k': nat)
    requires PointerHere(entered, s, v, k) && s <= s' && k <= k'
    ensures PointerHere(entered, s', v, k')
  {
    if v.Reg? && v.id !in entered {
      var j :| 0 <= j < k && j < |s| && s[j] == Alloca(v.id);
      assert s'[j] == s[j];
    }
  }

  // What an instruction needs stays there when blocks grow and are added.
  lemma InstrMore(avail: Avail, avail': Avail, entered: set<nat>, s: seq<Instr>, s': seq<Instr>, i: Instr, k: nat)
    requires InstrOk(avail, entered, s, i, k) && avail <= avail' && s <= s'
    ensures InstrOk(avail', entered, s', i, k)
  {
    forall v | v in ValuesOf(i) ensures ValueHere(s', v, k) {
      ValueMore(s, s', v, k, k);
    }
    if PointerOf(i).Some? {
      PointerMore(entered, s, s', PointerOf(i).value, k, k);
    }
    forall c | c in Targets(i) ensures JumpOk(avail', entered, s', c, k) {
      assert JumpOk(avail, entered, s, c, k);
      forall p: nat | p in avail'[c] ensures PointerHere(entered, s', Reg(p), k) {
        assert p in avail[c];
        PointerMore(entered, s, s', Reg(p), k, k);
      }
    }
  }

  lemma AllocaStays(code: Code, code': Code, p: nat)
    requires Extends(code, code') && IsAlloca(code, p)
    ensures IsAlloca(code', p)
  {
    var b: Block, k: nat :| k < |Get(code, b)| && Get(code, b)[k] == Alloca(p);
    assert Get(code, b) <= Get(code', b);
    assert Get(code', b)[k] == Alloca(p);
  }

  // The instruction can be appended to the block: what it needs is there, and it makes the next value.
  ghost predicate Appendable(g: Gen, avail: Avail, i: Instr, next': nat)
  {
    && g.insert < |g.code| && InstrOk(avail, Entered(avail, g.insert), Get(g.code, g.insert), i,
      |Get(g.code, g.insert)|)
    && next' == (if Makes(i).Some? then g.nextId + 1 else g.nextId) && (Makes(i).Some? ==> Makes(i).value == g.nextId)
  }

  lemma EmitSound(g: Gen, avail: Avail, i: Instr, next': nat)
    requires Sound(g.code, g.nextId, avail) && Appendable(g, avail, i, next')
    ensures Sound(Emit(g, i).code, next', avail) && Extends(g.code, Emit(g, i).code)
  {
    var code' := Emit(g, i).code;
    forall b ensures Get(g.code, b) <= Get(code', b) &&
      Get(code', b) == if b == g.insert then Get(g.code, b) + [i] else Get(g.code, b) {
    }
    forall b: Block, k: nat | k < |Get(code', b)| ensures PlaceOk(code', avail, next', b, k) {
      EmitPlace(g, avail, i, next', b, k);
    }
    forall b: Block, k: nat, c: Block, j: nat | SameMade(code', b, k, c, j) ensures b == c && k == j {
      assert k < |Get(g.code, b)| ==> PlaceOk(g.code, avail, g.nextId, b, k);
      assert j < |Get(g.code, c)| ==> PlaceOk(g.code, avail, g.nextId, c, j);
      assert k < |Get(g.code, b)| && j < |Get(g.code, c)| ==> SameMade(g.code, b, k, c, j);
    }
    forall b: Block, p: nat | p in Entered(avail, b) ensures IsAlloca(code', p) {
      AllocaStays(g.code, code', p);
    }
  }

  lemma EmitPlace(g: Gen, avail: Avail, i: Instr, next': nat, b: Block, k: nat)
    requires Sound(g.code, g.nextId, avail) && Appendable(g, avail, i, next') && k < |Get(Emit(g, i).code, b)|
    ensures PlaceOk(Emit(g, i).code, avail, next', b, k)
  {
    var s, s' := Get(g.code, b), Get(Emit(g, i).code, b);
    assert s <= s';
    if k < |s| {
      assert PlaceOk(g.code, avail, g.nextId, b, k);
      InstrMore(avail, avail, Entered(avail, b), s, s', s[k], k);
    } else {
      InstrMore(avail, avail, Entered(avail, b), s, s', i, k);
    }
  }

  // A new block, which control enters only where these variables have been made.
  lemma NewBlockSound(g: Gen, avail: Avail, vars: set<nat>)
    requires Sound(g.code, g.nextId, avail) && forall p: nat {:trigger p in vars} :: p in vars ==> IsAlloca(g.code, p)
    ensures Sound(NewBlock(g).code, g.nextId, avail + [vars]) && Extends(g.code, NewBlock(g).code)
  {
    var code', avail' := NewBlock(g).code, avail + [vars];
    forall b ensures Get(code', b) == Get(g.code, b) {
    }
    forall b: Block, k: nat | k < |Get(code', b)| ensures PlaceOk(code', avail', g.nextId, b, k) {
      assert PlaceOk(g.code, avail, g.nextId, b, k);
      InstrMore(avail, avail', Entered(avail, b), Get(g.code, b), Get(g.code, b), Get(g.code, b)[k], k);
    }
    forall b: Block, k: nat, c: Block, j: nat | SameMade(code', b, k, c, j) ensures b == c && k == j {
      assert SameMade(g.code, b, k, c, j);
    }
    forall b: Block, p: nat | p in Entered(avail', b) ensures IsAlloca(code', p) {
      assert p in Entered(avail, b) || p in vars;
      AllocaStays(g.code, code', p);
    }
  }

  // ---- Scopes ----

  // A scope holds functions, global variables, and variables that have been made.
  ghost predicate NameOk(entered: set<nat>, s: seq<Instr>, v: Value)
  {
    v.Func? || PointerHere(entered, s, v, |s|)
  }

  ghost predicate FrameOk(f: map<string, Value>, entered: set<nat>, s: seq<Instr>)
  {
    forall x {:trigger f[x]} :: x in f ==> NameOk(entered, s, f[x])
  }

  ghost predicate ScopeOk(scope: Scopes, entered: set<nat>, s: seq<Instr>)
  {
    forall i {:trigger scope[i]} :: 0 <= i < |scope| ==> FrameOk(scope[i], entered, s)
  }

  lemma ScopeMore(scope: Scopes, entered: set<nat>, s: seq<Instr>, s': seq<Instr>)
    requires ScopeOk(scope, entered, s) && s <= s'
    ensures ScopeOk(scope, entered, s')
  {
    forall i | 0 <= i < |scope| ensures FrameOk(scope[i], entered, s') {
      assert FrameOk(scope[i], entered, s);
      forall x | x in scope[i] ensures NameOk(entered, s', scope[i][x]) {
        if !scope[i][x].Func? {
          PointerMore(entered, s, s', scope[i][x], |s|, |s'|);
        }
      }
    }
  }

  lemma {:induction false} FindOk(scope: Scopes, entered: set<nat>, s: seq<Instr>, x: string)
    requires ScopeOk(scope, entered, s)
    ensures Find<Value>(scope, x).Some? ==> NameOk(entered, s, Find<Value>(scope, x).value)
    decreases |scope|
  {
    if scope != [] {
      var n := |scope| - 1;
      assert FrameOk(scope[n], entered, s);
      forall i | 0 <= i < n ensures FrameOk(scope[..n][i], entered, s) {
        assert FrameOk(scope[i], entered, s);
      }
      FindOk(scope[..n], entered, s, x);
    }
  }

  lemma VariableOk(scope: Scopes, entered: set<nat>, s: seq<Instr>, x: string)
    requires ScopeOk(scope, entered, s)
    ensures PointerHere(entered, s, VariableOf(scope, x), |s|)
  {
    FindOk(scope, entered, s, x);
  }

  // The numbers of the variables in scope.
  ghost function VarsOf(scope: Scopes): set<nat>
  {
    set i, x | 0 <= i < |scope| && x in scope[i] && scope[i][x].Reg? :: scope[i][x].id
  }

  lemma VarsHere(scope: Scopes, entered: set<nat>, s: seq<Instr>, p: nat)
    requires ScopeOk(scope, entered, s) && p in VarsOf(scope)
    ensures PointerHere(entered, s, Reg(p), |s|)
  {
    var i, x :| 0 <= i < |scope| && x in scope[i] && scope[i][x].Reg? && scope[i][x].id == p;
    assert FrameOk(scope[i], entered, s);
  }

  // Scopes hold nothing else.
  ghost predicate FrameNames(f: map<string, Value>)
  {
    forall x {:trigger f[x]} :: x in f ==> f[x].Func? || f[x].GlobalVar? || f[x].Reg?
  }

  ghost predicate ScopeNames(scope: Scopes)
  {
    forall i {:trigger scope[i]} :: 0 <= i < |scope| ==> FrameNames(scope[i])
  }

  lemma NamesOf(scope: Scopes, entered: set<nat>, s: seq<Instr>)
    requires ScopeOk(scope, entered, s)
    ensures ScopeNames(scope)
  {
    forall i | 0 <= i < |scope| ensures FrameNames(scope[i]) {
      assert FrameOk(scope[i], entered, s);
    }
  }

  // In a block that control enters where the variables in scope have been made, the scope is right.
  lemma ScopeEnters(scope: Scopes, entered: set<nat>, s: seq<Instr>)
    requires ScopeNames(scope) && VarsOf(scope) <= entered
    ensures ScopeOk(scope, entered, s)
  {
    forall i | 0 <= i < |scope| ensures FrameOk(scope[i], entered, s) {
      assert FrameNames(scope[i]);
      forall x | x in scope[i] ensures NameOk(entered, s, scope[i][x]) {
        assert scope[i][x].Reg? ==> scope[i][x].id in VarsOf(scope);
      }
    }
  }

  // ---- The state of the generator ----

  ghost function Here(g: Gen): seq<Instr>
  {
    Get(g.code, g.insert)
  }

  // Everything generated is right, and so are the scopes for what is generated next.
  ghost predicate Right(g: Gen, avail: Avail)
  {
    Ready(g) && Sound(g.code, g.nextId, avail) && ScopeOk(g.scope, Entered(avail, g.insert), Here(g))
  }

  // The variables in scope exist.
  lemma VarsAllocated(g: Gen, avail: Avail, p: nat)
    requires Right(g, avail) && p in VarsOf(g.scope)
    ensures IsAlloca(g.code, p)
  {
    VarsHere(g.scope, Entered(avail, g.insert), Here(g), p);
    if p !in Entered(avail, g.insert) {
      var j :| 0 <= j < |Here(g)| && Here(g)[j] == Alloca(p);
    }
  }

  lemma JumpFits(g: Gen, avail: Avail, c: Block)
    requires Right(g, avail) && c < |avail| && avail[c] == VarsOf(g.scope)
    ensures JumpOk(avail, Entered(avail, g.insert), Here(g), c, |Here(g)|)
  {
    forall p: nat | p in avail[c] ensures PointerHere(Entered(avail, g.insert), Here(g), Reg(p), |Here(g)|) {
      VarsHere(g.scope, Entered(avail, g.insert), Here(g), p);
    }
  }

  lemma EmitRight(g: Gen, avail: Avail, i: Instr)
    requires Right(g, avail) && Appendable(g, avail, i, g.nextId)
    ensures Right(Emit(g, i), avail) && Here(Emit(g, i)) == Here(g) + [i]
  {
    EmitSound(g, avail, i, g.nextId);
    EmitStraight(g, i);
    ScopeMore(g.scope, Entered(avail, g.insert), Here(g), Here(Emit(g, i)));
  }

  lemma EmitIdRight(g: Gen, avail: Avail, i: Instr)
    requires Right(g, avail) && Appendable(g, avail, i, g.nextId + 1)
    ensures Right(EmitId(g, i), avail) && Here(EmitId(g, i)) == Here(g) + [i]
    ensures !i.Alloca? ==> ValueHere(Here(EmitId(g, i)), Reg(g.nextId), |Here(g)| + 1)
  {
    EmitSound(g, avail, i, g.nextId + 1);
    EmitStraight(g, i);
    ScopeMore(g.scope, Entered(avail, g.insert), Here(g), Here(EmitId(g, i)));
    assert Here(EmitId(g, i))[|Here(g)|] == i;
  }

  // ---- Expressions ----

  // A comparison and the widening of its result.
  lemma CompareRight(op: CmpOp, a: Value, b: Value, g: Gen, avail: Avail)
    requires Right(g, avail) && ValueHere(Here(g), a, |Here(g)|) && ValueHere(Here(g), b, |Here(g)|)
    ensures
      var g1 := EmitId(g, ICmp(g.nextId, op, a, b));
      var g2 := EmitId(g1, Zext(g1.nextId, Reg(g.nextId)));
      Right(g2, avail) && ValueHere(Here(g2), Reg(g1.nextId), |Here(g2)|)
  {
    var i := ICmp(g.nextId, op, a, b);
    EmitIdRight(g, avail, i);
    var g1 := EmitId(g, i);
    EmitIdRight(g1, avail, Zext(g1.nextId, Reg(g.nextId)));
  }

  lemma {:induction false} ExprRight(e: Expr, g: Gen, avail: Avail)
    requires Right(g, avail)
    ensures Right(GenExpr(e, g).0, avail) && ValueHere(Here(GenExpr(e, g).0), GenExpr(e, g).1, |Here(GenExpr(e, g).0)|)
    decreases e
  {
    match e
    case Num(n) =>
    case Var(x) =>
      VariableOk(g.scope, Entered(avail, g.insert), Here(g), x);
      EmitIdRight(g, avail, Load(g.nextId, VariableOf(g.scope, x)));
    case Assign(x, e1) =>
      ExprRight(e1, g, avail);
      var (g1, v) := GenExpr(e1, g);
      VariableOk(g1.scope, Entered(avail, g1.insert), Here(g1), x);
      EmitRight(g1, avail, Instr.Store(v, VariableOf(g1.scope, x)));
      ValueMore(Here(g1), Here(GenExpr(e, g).0), v, |Here(g1)|, |Here(g1)| + 1);
    case Arith(op, l, r) =>
      var (g1, a) := GenExpr(l, g);
      var (g2, b) := GenExpr(r, g1);
      ExprRight(l, g, avail);
      ExprRight(r, g1, avail);
      StaysHere(r, g1, a);
      EmitIdRight(g2, avail, IArith(g2.nextId, op, a, b));
    case Compare(op, l, r) =>
      var (g1, a) := GenExpr(l, g);
      var (g2, b) := GenExpr(r, g1);
      ExprRight(l, g, avail);
      ExprRight(r, g1, avail);
      StaysHere(r, g1, a);
      CompareRight(op, a, b, g2, avail);
    case Call(f, args) =>
      AllRight(args, g, avail);
      var (g1, vs) := GenAll(args, g);
      EmitIdRight(g1, avail, CallTo(g1.nextId, FunctionOf(g1.scope, f), vs));
  }

  // A value made before an expression is still there after it.
  lemma {:induction false} StaysHere(e: Expr, g: Gen, v: Value)
    requires Ready(g) && ValueHere(Here(g), v, |Here(g)|)
    ensures ValueHere(Here(GenExpr(e, g).0), v, |Here(GenExpr(e, g).0)|)
  {
    ExprStraight(e, g);
    var g' := GenExpr(e, g).0;
    assert Here(g) <= Here(g');
    ValueMore(Here(g), Here(g'), v, |Here(g)|, |Here(g')|);
  }

  ghost predicate ValuesHere(s: seq<Instr>, vs: seq<Value>)
  {
    forall v {:trigger v in vs} :: v in vs ==> ValueHere(s, v, |s|)
  }

  lemma {:induction false} AllRight(es: seq<Expr>, g: Gen, avail: Avail)
    requires Right(g, avail)
    ensures Right(GenAll(es, g).0, avail) && ValuesHere(Here(GenAll(es, g).0), GenAll(es, g).1)
    decreases es
  {
    if es != [] {
      ExprRight(es[0], g, avail);
      var (g1, v) := GenExpr(es[0], g);
      AllRight(es[1..], g1, avail);
      ExprStraight(es[0], g);
      AllStraight(es[1..], g1);
      var (g2, vs) := GenAll(es[1..], g1);
      assert Here(g1) <= Here(g2);
      ValueMore(Here(g1), Here(g2), v, |Here(g1)|, |Here(g2)|);
    }
  }

  // ---- Statements ----

  lemma DeclRight(x: string, g: Gen, avail: Avail)
    requires Right(g, avail) && g.scope != []
    ensures Right(GenDecl(x, g), avail)
  {
    var i := Alloca(g.nextId);
    EmitIdRight(g, avail, i);
    assert Here(EmitId(g, i))[|Here(g)|] == i;
    DeclDeclares(x, g);
    PushOk(EmitId(g, i), avail, x, g.nextId);
  }

  // A variable just made is bound.
  lemma PushOk(g: Gen, avail: Avail, x: string, id: nat)
    requires ScopeOk(g.scope, Entered(avail, g.insert), Here(g)) && g.scope != [] && AllocaHere(Here(g), id, |Here(g)|)
    ensures ScopeOk(Push(g.scope, x, Reg(id)), Entered(avail, g.insert), Here(g))
  {
    var scope' := Push(g.scope, x, Reg(id));
    forall i | 0 <= i < |scope'| ensures FrameOk(scope'[i], Entered(avail, g.insert), Here(g)) {
      assert FrameOk(g.scope[i], Entered(avail, g.insert), Here(g));
    }
  }

  lemma {:induction false} DeclsRight(xs: seq<string>, g: Gen, avail: Avail)
    requires Right(g, avail) && g.scope != []
    ensures Right(GenDecls(xs, g), avail)
    decreases xs
  {
    if xs != [] {
      DeclRight(xs[0], g, avail);
      DeclsRight(xs[1..], GenDecl(xs[0], g), avail);
    }
  }

  // Blocks are only added, each for the variables in scope.
  lemma NewBlockRight(g: Gen, avail: Avail)
    requires Right(g, avail)
    ensures Right(NewBlock(g), avail + [VarsOf(g.scope)])
  {
    forall p: nat | p in VarsOf(g.scope) ensures IsAlloca(g.code, p) {
      VarsAllocated(g, avail, p);
    }
    NewBlockSound(g, avail, VarsOf(g.scope));
    BlockFrames(g);
    assert Here(NewBlock(g)) == Here(g);
  }

  // Everything generated is right when generation leaves a block for another.
  ghost predicate Left(g: Gen, avail: Avail)
  {
    Sound(g.code, g.nextId, avail) && ScopeBelow(g.scope, g.nextId) && ScopeNames(g.scope)
  }

  lemma BrRight(g: Gen, avail: Avail, c: Block)
    requires Right(g, avail) && c < |avail| && avail[c] == VarsOf(g.scope)
    ensures Left(BrIfOpen(g, c), avail)
  {
    NamesOf(g.scope, Entered(avail, g.insert), Here(g));
    if InsertOpen(g) {
      JumpFits(g, avail, c);
      EmitRight(g, avail, Br(c));
      assert EmitBr(g, c).code == Emit(g, Br(c)).code;
    }
  }

  // Generation moves to a block made for the same scope.
  lemma MoveRight(g: Gen, avail: Avail, c: Block)
    requires Left(g, avail) && c < |avail| && avail[c] == VarsOf(g.scope)
    ensures Right(g.(insert := c), avail)
  {
    ScopeEnters(g.scope, Entered(avail, c), Get(g.code, c));
  }

  lemma TestRight(g: Gen, avail: Avail, v: Value, t: Block, f: Block)
    requires Right(g, avail) && ValueHere(Here(g), v, |Here(g)|)
    requires t < |avail| && f < |avail| && avail[t] == VarsOf(g.scope) && avail[f] == VarsOf(g.scope)
    ensures Right(GenTest(g, v, t, f).(insert := t), avail)
  {
    var i := ICmp(g.nextId, Neq, v, Const(0));
    EmitIdRight(g, avail, i);
    var g1 := EmitId(g, i);
    JumpFits(g1, avail, t);
    JumpFits(g1, avail, f);
    var j := CondBr(Reg(g.nextId), t, f);
    EmitRight(g1, avail, j);
    var g2 := GenTest(g, v, t, f);
    assert g2.code == Emit(g1, j).code;
    NamesOf(g.scope, Entered(avail, g.insert), Here(g));
    MoveRight(g2, avail, t);
  }

  // Generating more keeps what there is right.
  ghost predicate Grows(g: Gen, avail: Avail, g': Gen, avail': Avail)
  {
    avail <= avail' && Right(g', avail') && g'.scope == g.scope
  }

  lemma {:induction false} StmtRight(t: Stmt, g: Gen, avail: Avail) returns (avail': Avail)
    requires Right(g, avail)
    ensures Grows(g, avail, GenStmt(t, g), avail')
    decreases t, 1
  {
    avail' := avail;
    match t
    case ExprStmt(None) =>
    case ExprStmt(Some(e)) =>
      ExprRight(e, g, avail);
      ExprStraight(e, g);
    case Compound(decls, body) =>
      avail' := CompoundRight(decls, body, g, avail);
    case If(c, a, b) =>
      avail' := IfRight(c, a, b, g, avail);
    case While(c, a) =>
      avail' := WhileRight(c, a, g, avail);
    case Return(None) =>
      EmitRight(g, avail, Ret(None));
    case Return(Some(e)) =>
      ExprRight(e, g, avail);
      ExprStraight(e, g);
      var (g1, v) := GenExpr(e, g);
      EmitRight(g1, avail, Ret(Some(v)));
  }

  lemma {:induction false} StmtsRight(ts: seq<Stmt>, g: Gen, avail: Avail) returns (avail': Avail)
    requires Right(g, avail)
    ensures Grows(g, avail, GenStmts(ts, g), avail')
    decreases ts, 0
  {
    avail' := avail;
    if ts != [] {
      var g1 := GenStmt(ts[0], g);
      avail' := StmtRight(ts[0], g, avail);
      if InsertOpen(g1) {
        avail' := StmtsRight(ts[1..], g1, avail');
      }
    }
  }

  // A scope is entered and left again.
  lemma {:induction false} CompoundRight(decls: seq<string>, body: seq<Stmt>, g: Gen, avail: Avail)
      returns (avail': Avail)
    requires Right(g, avail)
    ensures Grows(g, avail, GenCompound(decls, body, g), avail')
    decreases body, 1
  {
    var g0 := g.(scope := g.scope + [map[]]);
    EnterRight(g, avail);
    DeclsRight(decls, g0, avail);
    DeclsInner(decls, g0);
    var g1 := GenDecls(decls, g0);
    avail' := StmtsRight(body, g1, avail);
    var g2 := GenStmts(body, g1);
    assert g2.scope[..|g.scope|] == g.scope;
    LeaveRight(g2, avail', |g.scope|);
  }

  lemma EnterRight(g: Gen, avail: Avail)
    requires Right(g, avail)
    ensures Right(g.(scope := g.scope + [map[]]), avail)
  {
    EnterReady(g);
    var scope := g.scope + [map[]];
    forall i | 0 <= i < |scope| ensures FrameOk(scope[i], Entered(avail, g.insert), Here(g)) {
      assert i < |g.scope| ==> FrameOk(g.scope[i], Entered(avail, g.insert), Here(g));
    }
  }

  lemma LeaveRight(g: Gen, avail: Avail, n: nat)
    requires Right(g, avail) && n <= |g.scope|
    ensures Right(g.(scope := g.scope[..n]), avail)
  {
    var scope := g.scope[..n];
    forall i | 0 <= i < |scope| ensures FrameOk(scope[i], Entered(avail, g.insert), Here(g)) &&
      FrameBelow(scope[i], g.nextId) {
      assert FrameOk(g.scope[i], Entered(avail, g.insert), Here(g)) && FrameBelow(g.scope[i], g.nextId);
    }
  }

  // A branch with the jump behind it.
  lemma {:induction false} BranchRight(a: Stmt, h: Gen, avail: Avail, c: Block) returns (avail': Avail)
    requires Right(h, avail) && c < |avail| && avail[c] == VarsOf(h.scope)
    ensures avail <= avail' && Left(BrIfOpen(GenStmt(a, h), c), avail') && BrIfOpen(GenStmt(a, h), c).scope == h.scope
    decreases a, 2
  {
    avail' := StmtRight(a, h, avail);
    BrRight(GenStmt(a, h), avail', c);
  }

  lemma ThreeRight(g: Gen, avail: Avail)
    requires Right(g, avail)
    ensures
      var vars, g' := VarsOf(g.scope), NewBlock(NewBlock(NewBlock(g)));
      Right(g', avail + [vars, vars, vars]) && Here(g') == Here(g)
  {
    var vars := VarsOf(g.scope);
    NewBlockRight(g, avail);
    NewBlockRight(NewBlock(g), avail + [vars]);
    NewBlockRight(NewBlock(NewBlock(g)), avail + [vars] + [vars]);
    assert avail + [vars] + [vars] + [vars] == avail + [vars, vars, vars];
  }

  lemma IfTestRight(c: Expr, hasElse: bool, g: Gen, avail: Avail) returns (avail': Avail)
    requires Right(g, avail)
    ensures
      var h := GenIfTest(c, hasElse, g);
      && Grows(g, avail, h, avail') && h.insert + 2 < |avail'|
      && avail'[h.insert + 1] == VarsOf(g.scope) && avail'[h.insert + 2] == VarsOf(g.scope)
  {
    ExprRight(c, g, avail);
    ExprStraight(c, g);
    var (g1, v) := GenExpr(c, g);
    var vars, n := VarsOf(g.scope), |g1.code|;
    ThreeRight(g1, avail);
    avail' := avail + [vars, vars, vars];
    TestRight(NewBlock(NewBlock(NewBlock(g1))), avail', v, n, if hasElse then n + 1 else n + 2);
    IfTestIs(c, hasElse, g, g1, v, n);
  }

  lemma {:induction false} IfRight(c: Expr, a: Stmt, b: Option<Stmt>, g: Gen, avail: Avail) returns (avail': Avail)
    requires Right(g, avail)
    ensures Grows(g, avail, GenStmt(If(c, a, b), g), avail')
    decreases If(c, a, b), 0
  {
    var h := GenIfTest(c, b.Some?, g);
    var fb, cb := h.insert + 1, h.insert + 2;
    var avail1 := IfTestRight(c, b.Some?, g, avail);
    var avail2 := BranchRight(a, h, avail1, cb);
    avail' := ElseRight(b, BrIfOpen(GenStmt(a, h), cb), avail2, fb, cb);
    IfIs(c, a, b, g, h);
  }

  // The other branch, or none, and then generation moves behind the selection.
  lemma {:induction false} ElseRight(b: Option<Stmt>, g: Gen, avail: Avail, fb: Block, cb: Block)
      returns (avail': Avail)
    requires Left(g, avail) && fb < |avail| && cb < |avail| && avail[fb] == VarsOf(g.scope) &&
      avail[cb] == VarsOf(g.scope)
    ensures Grows(g, avail, GenElse(b, g, fb, cb).(insert := cb), avail')
    decreases b
  {
    avail' := avail;
    if b.Some? {
      MoveRight(g, avail, fb);
      avail' := BranchRight(b.value, g.(insert := fb), avail, cb);
    }
    MoveRight(GenElse(b, g, fb, cb), avail', cb);
  }

  lemma WhileStartRight(g: Gen, avail: Avail)
    requires Right(g, avail)
    ensures Grows(g, avail, GenWhileStart(g), avail + [VarsOf(g.scope)])
  {
    var avail' := avail + [VarsOf(g.scope)];
    NewBlockRight(g, avail);
    BrRight(NewBlock(g), avail', |g.code|);
    MoveRight(BrIfOpen(NewBlock(g), |g.code|), avail', |g.code|);
  }

  lemma WhileTestRight(c: Expr, g: Gen, avail: Avail) returns (avail': Avail)
    requires Right(g, avail)
    ensures
      var h := GenWhileTest(c, g);
      Grows(g, avail, h, avail') && h.insert + 1 < |avail'| && avail'[h.insert + 1] == VarsOf(g.scope)
  {
    ExprRight(c, g, avail);
    ExprStraight(c, g);
    var (g1, v) := GenExpr(c, g);
    var vars := VarsOf(g.scope);
    NewBlockRight(g1, avail);
    NewBlockRight(NewBlock(g1), avail + [vars]);
    var g2 := NewBlock(NewBlock(g1));
    avail' := avail + [vars] + [vars];
    assert Here(g2) == Here(g1);
    TestRight(g2, avail', v, |g1.code|, |g1.code| + 1);
  }

  // The blocks of a loop: its condition, its body, and what follows.
  lemma WhileBlocksRight(c: Expr, g: Gen, avail: Avail) returns (avail': Avail)
    requires Right(g, avail)
    ensures
      var h := GenWhileTest(c, GenWhileStart(g));
      && Grows(g, avail, h, avail') && |g.code| < |avail'| && h.insert + 1 < |avail'|
      && avail'[|g.code|] == VarsOf(g.scope) && avail'[h.insert + 1] == VarsOf(g.scope)
  {
    var avail1 := avail + [VarsOf(g.scope)];
    WhileStartRight(g, avail);
    avail' := WhileTestRight(c, GenWhileStart(g), avail1);
    assert avail'[|g.code|] == avail1[|g.code|];
  }

  // The body with the jump back, and then generation moves behind the loop.
  lemma {:induction false} LoopRight(a: Stmt, h: Gen, avail: Avail, back: Block, after: Block) returns (avail': Avail)
    requires Right(h, avail) && back < |avail| && after < |avail| && avail[back] == VarsOf(h.scope) &&
      avail[after] == VarsOf(h.scope)
    ensures Grows(h, avail, BrIfOpen(GenStmt(a, h), back).(insert := after), avail')
    decreases a, 3
  {
    avail' := BranchRight(a, h, avail, back);
    MoveRight(BrIfOpen(GenStmt(a, h), back), avail', after);
  }

  lemma {:induction false} WhileRight(c: Expr, a: Stmt, g: Gen, avail: Avail) returns (avail': Avail)
    requires Right(g, avail)
    ensures Grows(g, avail, GenStmt(While(c, a), g), avail')
    decreases While(c, a), 0
  {
    var h := GenWhileTest(c, GenWhileStart(g));
    var avail1 := WhileBlocksRight(c, g, avail);
    avail' := LoopRight(a, h, avail1, |g.code|, h.insert + 1);
    WhileIs(c, a, g, h);
  }

  // ---- Functions ----

  // A parameter is stored in its variable at once.
  lemma ParamRight(x: string, i: nat, g: Gen, avail: Avail)
    requires Right(g, avail) && g.scope != []
    ensures Right(GenParam(x, i, g), avail)
  {
    var a, j := Alloca(g.nextId), Instr.Store(Param(i), Reg(g.nextId));
    EmitIdRight(g, avail, a);
    var g1 := EmitId(g, a);
    assert Here(g1)[|Here(g)|] == a;
    EmitRight(g1, avail, j);
    assert Here(Emit(g1, j))[|Here(g)|] == a;
    ParamDeclares(x, i, g);
    PushOk(Emit(g1, j), avail, x, g.nextId);
  }

  lemma {:induction false} ParamsRight(xs: seq<string>, i: nat, g: Gen, avail: Avail)
    requires Right(g, avail) && g.scope != []
    ensures Right(GenParams(xs, i, g), avail)
    decreases xs
  {
    if xs != [] {
      ParamRight(xs[0], i, g, avail);
      ParamsRight(xs[1..], i + 1, GenParam(xs[0], i, g), avail);
    }
  }

  // Functions and global variables only.
  ghost predicate GlobalNames(scope: Scopes)
  {
    ScopeNames(scope) && GlobalOnly(scope)
  }

  lemma StartRight(scope: Scopes)
    requires GlobalNames(scope)
    ensures Right(Start(scope).(scope := scope + [map[]]), [{}])
  {
    var g := Start(scope);
    EnterReady(g);
    assert g.code == [[]];
    assert VarsOf(scope) == {} by {
      forall i, x | 0 <= i < |scope| && x in scope[i] ensures !scope[i][x].Reg? {
        assert FrameBelow(scope[i], 0);
      }
    }
    ScopeEnters(scope, {}, []);
    EnterRight(g, [{}]);
  }

  // In every generated function values are used where they have been made, and variables where
  // control has passed their declaration.
  lemma FunctionSound(f: Function, scope: Scopes) returns (avail: Avail)
    requires GlobalNames(scope)
    ensures Sound(GenFunction(f, scope).code, GenFunction(f, scope).nextId, avail) && avail != [] && avail[0] == {}
  {
    var g0 := Start(scope).(scope := scope + [map[]]);
    StartRight(scope);
    ParamsRight(f.params, 0, g0, [{}]);
    var g1 := GenParams(f.params, 0, g0);
    DeclsRight(f.decls, g1, [{}]);
    avail := StmtsRight(f.body, GenDecls(f.decls, g1), [{}]);
    var g2 := GenStmts(f.body, GenDecls(f.decls, g1));
    var i := Ret(if f.void then None else Some(Const(0)));
    if InsertOpen(g2) {
      EmitRight(g2, avail, i);
    }
  }
}
