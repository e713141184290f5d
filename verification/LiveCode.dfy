// Liveness of a function's code: what the collection phase gathers from the instructions, and when
// the analysis agrees with what later instructions really need.
module LiveCode {
  import opened Graph
  import opened LiveFlow

  datatype Value = Const(n: int) | Var(id: Id) | Label(b: Block) | Func(name: string)

  datatype Kind = Phi | Binary | Load | Call | Gep | Alloca | Other

  datatype Instr = Instr(id: Id, kind: Kind, ops: seq<Value>)

  type Code = map<Block, seq<Instr>>

  function Get(code: Code, b: Block): seq<Instr>
  {
    if b in code then code[b] else []
  }

  // ---- What is gathered ----

  // The instructions recorded as definitions: comparisons and conversions are not among them.
  predicate Defines(i: Instr)
  {
    !i.kind.Other?
  }

  function Ids(s: seq<Instr>): set<Id>
  {
    set i | i in s :: i.id
  }

  function Defs(s: seq<Instr>): set<Id>
  {
    set i | i in s && Defines(i) :: i.id
  }

  ghost predicate Produces(i: Instr, v: Id)
  {
    i.id == v && i.kind in {Phi, Binary, Load, Call, Gep, Alloca}
  }

  // A value is a definition of the code exactly if a phi, an arithmetic instruction, a load, a call, an
  // element address or an alloca of it makes the value.
  lemma DefsIff(s: seq<Instr>, v: Id)
    ensures v in Defs(s) <==> exists k {:trigger s[k]} :: 0 <= k < |s| && Produces(s[k], v)
  {
    if v in Defs(s) {
      var i :| i in s && Defines(i) && i.id == v;
      var k :| 0 <= k < |s| && s[k] == i;
    }
  }

  // Named operands not among the values seen before.
  function OpsUse(ops: seq<Value>, seen: set<Id>): set<Id>
  {
    set o | o in ops && o.Var? && o.id !in seen :: o.id
  }

  function Use(s: seq<Instr>): set<Id>
  {
    if s == [] then {} else Use(s[..|s| - 1]) + OpsUse(s[|s| - 1].ops, Ids(s[..|s| - 1]))
  }

  function PhiUse(s: seq<Instr>): set<Id>
  {
    if s == [] then {}
    else
      var init, last := s[..|s| - 1], s[|s| - 1];
      if last.kind.Phi? then PhiUse(init) + OpsUse(last.ops, Ids(init)) else PhiUse(init) - OpsUse(last.ops, Ids(init))
  }

  // The named operands of a phi that stand before the given block.
  function OpsFrom(ops: seq<Value>, seen: set<Id>, p: Block): set<Id>
  {
    OpsFromUpTo(ops, seen, p, |ops|)
  }

  function OpsFromUpTo(ops: seq<Value>, seen: set<Id>, p: Block, n: nat): set<Id>
    requires n <= |ops|
  {
    set i | 0 <= i < n && i < |ops| - 1 && ops[i].Var? && ops[i].id !in seen && ops[i + 1] == Label(p) :: ops[i].id
  }

  function PhiFrom(s: seq<Instr>, p: Block): set<Id>
  {
    if s == [] then {}
    else
      var init, last := s[..|s| - 1], s[|s| - 1];
      PhiFrom(init, p) + (if last.kind.Phi? then OpsFrom(last.ops, Ids(init), p) else {})
  }

  ghost function PhiOut(g: Cfg, code: Code, p: Block): set<Id>
    requires g.Valid() && p in g.blocks
  {
    set s, v | s in g.succ[p] && v in PhiFrom(Get(code, s), p) :: v
  }

  ghost function FlowOf(g: Cfg, code: Code): Flow
    requires g.Valid()
  {
    Flow(g.blocks, g.succ, map b | b in g.blocks :: Use(Get(code, b)), map b | b in g.blocks :: Defs(Get(code, b)),
         map b | b in g.blocks :: PhiUse(Get(code, b)), map b | b in g.blocks :: PhiOut(g, code, b))
  }

  // In a phi every named operand stands before its block.
  ghost predicate Paired(s: seq<Instr>)
  {
    forall k, i {:trigger s[k].ops[i]} :: 0 <= k < |s| && s[k].kind.Phi? && 0 <= i < |s[k].ops| && s[k].ops[i].Var? ==>
      i + 1 < |s[k].ops| && s[k].ops[i + 1].Label?
  }

  lemma OpsUseNext(ops: seq<Value>, seen: set<Id>, n: nat)
    requires n < |ops|
    ensures OpsUse(ops[..n + 1], seen) == OpsUse(ops[..n], seen) +
      (if ops[n].Var? && ops[n].id !in seen then {ops[n].id} else {})
  {
    assert ops[..n + 1] == ops[..n] + [ops[n]];
  }

  lemma OpsFromNext(ops: seq<Value>, seen: set<Id>, p: Block, n: nat)
    requires n < |ops|
    ensures OpsFromUpTo(ops, seen, p, n + 1) == OpsFromUpTo(ops, seen, p, n) +
      (if ops[n].Var? && ops[n].id !in seen && n + 1 < |ops| && ops[n + 1] == Label(p) then {ops[n].id} else {})
  {
  }

  // What the first n operands of an instruction of bb add for the phis of bb, predecessor by predecessor.
  ghost function FromUpTo(g: Cfg, bb: Block, instr: Instr, seen: set<Id>, n: nat, p: Block): set<Id>
    requires bb in g.pred && n <= |instr.ops|
  {
    if instr.kind.Phi? && p in g.pred[bb] then OpsFromUpTo(instr.ops, seen, p, n) else {}
  }

  ghost predicate PhiOutGrew(g: Cfg, before: map<Block, set<Id>>, after: map<Block, set<Id>>, bb: Block, instr: Instr,
      seen: set<Id>, n: nat)
    requires bb in g.pred && n <= |instr.ops|
  {
    after.Keys == before.Keys && forall p {:trigger At(after, p)} :: p in after ==>
      At(after, p) == At(before, p) + FromUpTo(g, bb, instr, seen, n, p)
  }

  // The predecessor that operand n of a phi of bb is for, if the operand is a value not seen before.
  function ReadsFrom(g: Cfg, bb: Block, instr: Instr, seen: set<Id>, n: nat): Option<Block>
    requires bb in g.pred && n < |instr.ops|
  {
    if instr.kind.Phi? && instr.ops[n].Var? && instr.ops[n].id !in seen && n + 1 < |instr.ops| &&
      instr.ops[n + 1].Label? && instr.ops[n + 1].b in g.pred[bb]
    then Some(instr.ops[n + 1].b) else None
  }

  lemma FromNext(g: Cfg, bb: Block, instr: Instr, seen: set<Id>, n: nat, p: Block)
    requires bb in g.pred && n < |instr.ops|
    ensures FromUpTo(g, bb, instr, seen, n + 1, p) ==
      FromUpTo(g, bb, instr, seen, n, p) + (if ReadsFrom(g, bb, instr, seen, n) == Some(p) then {instr.ops[n].id}
        else {})
  {
    OpsFromNext(instr.ops, seen, p, n);
  }

  lemma PhiOutSame(g: Cfg, before: map<Block, set<Id>>, after: map<Block, set<Id>>, bb: Block, instr: Instr,
      seen: set<Id>, n: nat)
    requires bb in g.pred && n < |instr.ops| && PhiOutGrew(g, before, after, bb, instr, seen, n)
    requires ReadsFrom(g, bb, instr, seen, n) == None
    ensures PhiOutGrew(g, before, after, bb, instr, seen, n + 1)
  {
    forall p | p in after ensures At(after, p) == At(before, p) + FromUpTo(g, bb, instr, seen, n + 1, p) {
      FromNext(g, bb, instr, seen, n, p);
    }
  }

  lemma PhiOutAdds(g: Cfg, before: map<Block, set<Id>>, after: map<Block, set<Id>>, bb: Block, instr: Instr,
      seen: set<Id>, n: nat, l: Block)
    requires bb in g.pred && n < |instr.ops| && PhiOutGrew(g, before, after, bb, instr, seen, n)
    requires ReadsFrom(g, bb, instr, seen, n) == Some(l) && l in after && instr.ops[n].Var?
    ensures PhiOutGrew(g, before, after[l := after[l] + {instr.ops[n].id}], bb, instr, seen, n + 1)
  {
    var after' := after[l := after[l] + {instr.ops[n].id}];
    forall p | p in after' ensures At(after', p) == At(before, p) + FromUpTo(g, bb, instr, seen, n + 1, p) {
      FromNext(g, bb, instr, seen, n, p);
      assert At(after, p) == At(before, p) + FromUpTo(g, bb, instr, seen, n, p);
    }
  }

  // ---- What it means ----

  // Operand i of instruction k reads the value v from outside the block.
  ghost predicate Exposed(s: seq<Instr>, k: nat, i: nat, v: Id)
  {
    k < |s| && i < |s[k].ops| && s[k].ops[i] == Var(v) && v !in Ids(s[..k])
  }

  ghost predicate Read(s: seq<Instr>, v: Id)
  {
    exists k: nat, i: nat :: Exposed(s, k, i, v)
  }

  ghost predicate ReadAt(s: seq<Instr>, k: nat, v: Id)
  {
    exists i: nat :: Exposed(s, k, i, v)
  }

  // ... by an instruction that is no phi.
  ghost predicate Body(s: seq<Instr>, v: Id)
  {
    exists k: nat, i: nat :: Exposed(s, k, i, v) && !s[k].kind.Phi?
  }

  ghost predicate PhiReadAt(s: seq<Instr>, k: nat, p: Block, v: Id)
    requires k < |s|
  {
    exists i: nat :: Exposed(s, k, i, v) && FeedsAt(s, k, i, p)
  }

  // ... by a phi, when control comes from p.
  ghost predicate Feeds(s: seq<Instr>, p: Block, v: Id)
  {
    exists k: nat, i: nat :: Exposed(s, k, i, v) && FeedsAt(s, k, i, p)
  }

  ghost predicate FeedsAt(s: seq<Instr>, k: nat, i: nat, p: Block)
    requires k < |s|
  {
    s[k].kind.Phi? && i + 1 < |s[k].ops| && s[k].ops[i + 1] == Label(p)
  }

  ghost predicate PhisFirst(s: seq<Instr>)
  {
    forall k {:trigger s[k]} :: 0 <= k < |s| && s[k].kind.Phi? ==> forall j {:trigger s[j]} :: 0 <= j < k ==>
      s[j].kind.Phi?
  }

  // An instruction of the block without its last one is exposed as in the whole block.
  lemma ExposedInit(s: seq<Instr>, k: nat, i: nat, v: Id)
    requires s != []
    ensures k < |s| - 1 ==> (Exposed(s, k, i, v) <==> Exposed(s[..|s| - 1], k, i, v))
  {
    if k < |s| - 1 {
      assert s[..|s| - 1][..k] == s[..k];
    }
  }

  lemma OpsUseIff(s: seq<Instr>, v: Id)
    requires s != []
    ensures v in OpsUse(s[|s| - 1].ops, Ids(s[..|s| - 1])) <==> ReadAt(s, |s| - 1, v)
  {
    var ops := s[|s| - 1].ops;
    if v in OpsUse(ops, Ids(s[..|s| - 1])) {
      assert Var(v) in ops;
      var i: nat :| i < |ops| && ops[i] == Var(v);
      assert Exposed(s, |s| - 1, i, v);
    }
  }

  lemma {:induction false} UseIff(s: seq<Instr>, v: Id)
    ensures v in Use(s) <==> Read(s, v)
  {
    if s != [] {
      var init := s[..|s| - 1];
      UseIff(init, v);
      OpsUseIff(s, v);
      if Read(init, v) {
        var k: nat, i: nat :| Exposed(init, k, i, v);
        ExposedInit(s, k, i, v);
      }
      if k: nat, i: nat :| Exposed(s, k, i, v) {
        ExposedInit(s, k, i, v);
      }
    }
  }

  lemma {:induction false} BodySplit(s: seq<Instr>, v: Id)
    requires s != []
    ensures Body(s, v) <==> Body(s[..|s| - 1], v) || (!s[|s| - 1].kind.Phi? && ReadAt(s, |s| - 1, v))
  {
    var init := s[..|s| - 1];
    if Body(init, v) {
      var k: nat, i: nat :| Exposed(init, k, i, v) && !init[k].kind.Phi?;
      ExposedInit(s, k, i, v);
    }
    if k: nat, i: nat :| Exposed(s, k, i, v) && !s[k].kind.Phi? {
      ExposedInit(s, k, i, v);
    }
  }

  lemma PhisOnly(s: seq<Instr>, v: Id)
    requires PhisFirst(s) && s != [] && s[|s| - 1].kind.Phi?
    ensures !Body(s[..|s| - 1], v)
  {
    var init := s[..|s| - 1];
    forall k | 0 <= k < |init| ensures init[k].kind.Phi? {
      assert s[k].kind.Phi?;
    }
  }

  // With phis first, a phi use is a use by no other instruction.
  lemma {:induction false} PhiUseIff(s: seq<Instr>, v: Id)
    requires PhisFirst(s)
    ensures v in PhiUse(s) <==> v in Use(s) && !Body(s, v)
  {
    if s != [] {
      var init, last := s[..|s| - 1], s[|s| - 1];
      PhiUseIff(init, v);
      OpsUseIff(s, v);
      BodySplit(s, v);
      if last.kind.Phi? {
        PhisOnly(s, v);
      }
    }
  }

  lemma OpsFromIff(s: seq<Instr>, p: Block, v: Id)
    requires s != [] && s[|s| - 1].kind.Phi?
    ensures v in OpsFrom(s[|s| - 1].ops, Ids(s[..|s| - 1]), p) <==> PhiReadAt(s, |s| - 1, p, v)
  {
    var ops := s[|s| - 1].ops;
    if v in OpsFrom(ops, Ids(s[..|s| - 1]), p) {
      var i: nat :| i < |ops| - 1 && ops[i].Var? && ops[i + 1] == Label(p) && ops[i].id == v;
      assert Exposed(s, |s| - 1, i, v) && FeedsAt(s, |s| - 1, i, p);
    }
    if PhiReadAt(s, |s| - 1, p, v) {
      var i: nat :| Exposed(s, |s| - 1, i, v) && FeedsAt(s, |s| - 1, i, p);
      assert ops[i].id == v;
    }
  }

  lemma {:induction false} PhiFromIff(s: seq<Instr>, p: Block, v: Id)
    ensures v in PhiFrom(s, p) <==> Feeds(s, p, v)
  {
    if s != [] {
      var init, last := s[..|s| - 1], s[|s| - 1];
      PhiFromIff(init, p, v);
      if last.kind.Phi? {
        OpsFromIff(s, p, v);
      }
      if Feeds(init, p, v) {
        var k: nat, i: nat :| Exposed(init, k, i, v) && FeedsAt(init, k, i, p);
        ExposedInit(s, k, i, v);
        assert FeedsAt(s, k, i, p);
      }
      if k: nat, i: nat :| Exposed(s, k, i, v) && FeedsAt(s, k, i, p) {
        ExposedInit(s, k, i, v);
        if k < |s| - 1 {
          assert FeedsAt(init, k, i, p);
        }
      }
    }
  }

  // ---- What is really needed across an edge ----

  // v is not made strictly between the first and the last block of p.
  ghost predicate Through(g: Cfg, code: Code, p: seq<Block>, v: Id, i: nat)
    requires i + 1 < |p|
  {
    g.Edge(p[i], p[i + 1]) && (i > 0 ==> v !in Ids(Get(code, p[i])))
  }

  // Along p, from its first edge on, v reaches a phi that reads it on entry or another reader.
  ghost predicate NeedPath(g: Cfg, code: Code, p: seq<Block>, v: Id)
  {
    && |p| > 1 && (forall i :: 0 <= i < |p| - 1 ==> Through(g, code, p, v, i))
    && (Feeds(Get(code, p[|p| - 1]), p[|p| - 2], v) || Body(Get(code, p[|p| - 1]), v))
  }

  // A later instruction can read v when control goes from a to b.
  ghost predicate Needed(g: Cfg, code: Code, a: Block, b: Block, v: Id)
  {
    exists p :: NeedPath(g, code, p, v) && p[0] == a && p[1] == b
  }

  lemma NeededAt(g: Cfg, code: Code, a: Block, b: Block, v: Id)
    requires g.Edge(a, b) && (Feeds(Get(code, b), a, v) || Body(Get(code, b), v))
    ensures Needed(g, code, a, b, v)
  {
    var p := [a, b];
    forall i | 0 <= i < |p| - 1 ensures Through(g, code, p, v, i) {
    }
    assert NeedPath(g, code, p, v) && p[0] == a && p[1] == b;
  }

  lemma NeededBefore(g: Cfg, code: Code, a: Block, b: Block, c: Block, v: Id)
    requires g.Edge(a, b) && v !in Ids(Get(code, b)) && Needed(g, code, b, c, v)
    ensures Needed(g, code, a, b, v)
  {
    var p :| NeedPath(g, code, p, v) && p[0] == b && p[1] == c;
    var q := [a] + p;
    forall i | 0 <= i < |q| - 1 ensures Through(g, code, q, v, i) {
      if i > 0 {
        assert Through(g, code, p, v, i - 1);
      }
    }
    assert NeedPath(g, code, q, v) && q[0] == a && q[1] == b;
  }

  lemma NeededSplit(g: Cfg, code: Code, p: seq<Block>, v: Id)
    requires NeedPath(g, code, p, v) && |p| > 2
    ensures g.Edge(p[0], p[1]) && v !in Ids(Get(code, p[1])) && NeedPath(g, code, p[1..], v)
  {
    assert Through(g, code, p, v, 0) && Through(g, code, p, v, 1);
    var q := p[1..];
    forall i | 0 <= i < |q| - 1 ensures Through(g, code, q, v, i) {
      assert Through(g, code, p, v, i + 1);
    }
  }

  // ---- What the analysis says, and what is needed ----

  ghost predicate Shaped(g: Cfg, code: Code)
  {
    g.Valid() && forall b {:trigger Get(code, b)} :: PhisFirst(Get(code, b))
  }

  lemma FlowAt(g: Cfg, code: Code, b: Block, v: Id)
    requires Shaped(g, code) && b in g.blocks
    ensures v in At(FlowOf(g, code).use, b) <==> Read(Get(code, b), v)
    ensures v in At(FlowOf(g, code).phiUse, b) <==> Read(Get(code, b), v) && !Body(Get(code, b), v)
    ensures At(FlowOf(g, code).def, b) == Defs(Get(code, b))
    ensures Body(Get(code, b), v) ==> Read(Get(code, b), v)
  {
    UseIff(Get(code, b), v);
    PhiUseIff(Get(code, b), v);
    if Body(Get(code, b), v) {
      var k: nat, i: nat :| Exposed(Get(code, b), k, i, v) && !Get(code, b)[k].kind.Phi?;
    }
  }

  lemma PhiOutIff(g: Cfg, code: Code, a: Block, v: Id)
    requires Shaped(g, code) && a in g.blocks
    ensures v in At(FlowOf(g, code).phiOut, a) <==> exists s :: s in g.succ[a] && Feeds(Get(code, s), a, v)
  {
    forall s ensures v in PhiFrom(Get(code, s), a) <==> Feeds(Get(code, s), a, v) {
      PhiFromIff(Get(code, s), a, v);
    }
  }

  // v leaves the end of a over the edge to b, as the analysis sees it.
  ghost predicate Crosses(f: Flow, a: Block, b: Block, v: Id)
  {
    f.Edge(a, b) && Live(f, b, v) && f.Passes(a, b, v)
  }

  ghost predicate LeavesLive(f: Flow, a: Block, v: Id)
  {
    exists b :: Crosses(f, a, b, v)
  }

  ghost predicate NeededAfter(g: Cfg, code: Code, a: Block, v: Id)
  {
    exists b :: Needed(g, code, a, b, v)
  }

  // Every edge lets pass what is needed across it.
  ghost predicate EdgesKeep(g: Cfg, code: Code)
    requires g.Valid()
  {
    forall a, b, v {:trigger Needed(g, code, a, b, v)} :: a in g.blocks && Needed(g, code, a, b, v) ==>
      Crosses(FlowOf(g, code), a, b, v)
  }

  // Only phis of b read v, and no phi of a successor of a takes it from a.
  ghost predicate OnlyOtherPhis(g: Cfg, code: Code, a: Block, b: Block, v: Id)
  {
    && g.Edge(a, b) && Read(Get(code, b), v) && !Body(Get(code, b), v)
    && forall s :: g.Edge(a, s) ==> !Feeds(Get(code, s), a, v)
  }

  // No value is needed after a block without being made there, if only phis of the block read
  // it and an edge into the block comes from where none of them takes it.
  ghost predicate NoneThroughPhis(g: Cfg, code: Code)
  {
    forall a, b, v {:trigger OnlyOtherPhis(g, code, a, b, v)} ::
      a in g.blocks && OnlyOtherPhis(g, code, a, b, v) ==> v in Ids(Get(code, b)) || !NeededAfter(g, code, b, v)
  }

  // These are the values the filter stops.
  lemma PassesIff(g: Cfg, code: Code, a: Block, b: Block, v: Id)
    requires Shaped(g, code) && a in g.blocks && g.Edge(a, b)
    ensures FlowOf(g, code).Passes(a, b, v) <==> !OnlyOtherPhis(g, code, a, b, v)
  {
    FlowAt(g, code, b, v);
    PhiOutIff(g, code, a, v);
  }

  // A value made in b by one of these is live at the start of b only if b reads it before making it.
  lemma MadeNotLive(g: Cfg, code: Code, b: Block, k: nat, v: Id)
    requires Shaped(g, code) && b in g.blocks && k < |Get(code, b)| && Produces(Get(code, b)[k], v)
    ensures Live(FlowOf(g, code), b, v) <==> Read(Get(code, b), v)
  {
    var f := FlowOf(g, code);
    DefsIff(Get(code, b), v);
    FlowAt(g, code, b, v);
    if Live(f, b, v) {
      var p :| LivePath(f, p, b, v);
      if |p| > 1 {
        LiveSplit(f, p, b, v);
      }
    }
    if Read(Get(code, b), v) {
      LiveHere(f, b, v);
    }
  }

  // A value that b itself reads on arrival from a crosses the edge between them.
  lemma ReadCrosses(g: Cfg, code: Code, a: Block, b: Block, v: Id)
    requires Shaped(g, code) && a in g.blocks && g.Edge(a, b) && (Feeds(Get(code, b), a, v) || Body(Get(code, b), v))
    ensures Crosses(FlowOf(g, code), a, b, v)
  {
    PassesIff(g, code, a, b, v);
    FlowAt(g, code, b, v);
    if Feeds(Get(code, b), a, v) {
      var k: nat, i: nat :| Exposed(Get(code, b), k, i, v) && FeedsAt(Get(code, b), k, i, a);
    }
    LiveHere(FlowOf(g, code), b, v);
  }

  // A value that is live after b and not defined there crosses every edge into b, unless only
  // phis read it.
  lemma LiveCrosses(g: Cfg, code: Code, a: Block, b: Block, c: Block, v: Id)
    requires Shaped(g, code) && a in g.blocks && g.Edge(a, b) && v !in Defs(Get(code, b))
    requires Crosses(FlowOf(g, code), b, c, v) && !OnlyOtherPhis(g, code, a, b, v)
    ensures Crosses(FlowOf(g, code), a, b, v)
  {
    PassesIff(g, code, a, b, v);
    FlowAt(g, code, b, v);
    LiveBefore(FlowOf(g, code), b, c, v);
  }

  lemma {:induction false} NeedPathCrosses(g: Cfg, code: Code, p: seq<Block>, v: Id)
    requires Shaped(g, code) && NoneThroughPhis(g, code) && NeedPath(g, code, p, v) && p[0] in g.blocks
    ensures Crosses(FlowOf(g, code), p[0], p[1], v)
    decreases |p|
  {
    assert Through(g, code, p, v, 0);
    var a, b := p[0], p[1];
    assert b in g.succ[a] && b in g.blocks;
    if |p| > 2 {
      NeededSplit(g, code, p, v);
      NeedPathCrosses(g, code, p[1..], v);
      assert Needed(g, code, b, p[2], v);
      LiveCrosses(g, code, a, b, p[2], v);
    } else {
      ReadCrosses(g, code, a, b, v);
    }
  }

  // The analysis misses nothing exactly when no value passes through a block whose phis use it.
  lemma EdgesKeepIff(g: Cfg, code: Code)
    requires Shaped(g, code)
    ensures EdgesKeep(g, code) <==> NoneThroughPhis(g, code)
  {
    var f := FlowOf(g, code);
    if NoneThroughPhis(g, code) {
      forall a, b, v | a in g.blocks && Needed(g, code, a, b, v) ensures Crosses(f, a, b, v) {
        var p :| NeedPath(g, code, p, v) && p[0] == a && p[1] == b;
        NeedPathCrosses(g, code, p, v);
      }
    }
    if EdgesKeep(g, code) {
      forall a, b, v | a in g.blocks && OnlyOtherPhis(g, code, a, b, v) && NeededAfter(g, code, b, v)
        ensures v in Ids(Get(code, b))
      {
        PassesIff(g, code, a, b, v);
        var d :| Needed(g, code, b, d, v);
        if v !in Ids(Get(code, b)) {
          NeededBefore(g, code, a, b, d, v);
        }
      }
    }
  }

  // ---- What the analysis reports, and is not needed ----

  // What the analysis lets leave a block is needed after it.
  ghost predicate NothingExtra(g: Cfg, code: Code)
    requires g.Valid()
  {
    forall a, b, v {:trigger Crosses(FlowOf(g, code), a, b, v)} ::
      Crosses(FlowOf(g, code), a, b, v) ==> NeededAfter(g, code, a, v)
  }

  // The code makes v, and by nothing but comparisons and conversions.
  ghost predicate Compared(s: seq<Instr>, v: Id)
  {
    (exists k {:trigger s[k]} :: 0 <= k < |s| && s[k].id == v) &&
    forall k {:trigger s[k]} :: 0 <= k < |s| && s[k].id == v ==> s[k].kind.Other?
  }

  lemma ComparedIff(s: seq<Instr>, v: Id)
    ensures Compared(s, v) <==> v in Ids(s) && v !in Defs(s)
  {
    DefsIff(s, v);
    if v in Ids(s) {
      var i :| i in s && i.id == v;
      var k :| 0 <= k < |s| && s[k] == i;
    }
  }

  // A comparison or conversion v of b that is needed after b: on the edge from a the filter stops v,
  // or it is needed after a as well.
  ghost predicate MadeThere(g: Cfg, code: Code, a: Block, b: Block, v: Id)
  {
    Compared(Get(code, b), v) && NeededAfter(g, code, b, v) ==>
      OnlyOtherPhis(g, code, a, b, v) || NeededAfter(g, code, a, v)
  }

  ghost predicate NoneBeforeMade(g: Cfg, code: Code)
  {
    forall a, b, v {:trigger MadeThere(g, code, a, b, v)} ::
      a in g.blocks && g.Edge(a, b) ==> MadeThere(g, code, a, b, v)
  }

  lemma {:induction false} LivePathNeeded(g: Cfg, code: Code, a: Block, p: seq<Block>, b: Block, v: Id)
    requires Shaped(g, code) && NoneBeforeMade(g, code) && a in g.blocks
    requires FlowOf(g, code).Edge(a, b) && FlowOf(g, code).Passes(a, b, v) && LivePath(FlowOf(g, code), p, b, v)
    ensures NeededAfter(g, code, a, v)
    decreases |p|
  {
    var f := FlowOf(g, code);
    assert g.Edge(a, b);
    FlowAt(g, code, b, v);
    if |p| > 1 {
      LiveSplit(f, p, b, v);
      LivePathNeeded(g, code, b, p[1..], p[1], v);
      if v in Ids(Get(code, b)) {
        PassesIff(g, code, a, b, v);
        ComparedIff(Get(code, b), v);
        assert MadeThere(g, code, a, b, v);
      } else {
        var c :| Needed(g, code, b, c, v);
        NeededBefore(g, code, a, b, c, v);
      }
    } else if Body(Get(code, b), v) {
      NeededAt(g, code, a, b, v);
    } else {
      PhiOutIff(g, code, a, v);
      var s :| s in g.succ[a] && Feeds(Get(code, s), a, v);
      NeededAt(g, code, a, s, v);
    }
  }

  lemma NothingExtraIf(g: Cfg, code: Code)
    requires Shaped(g, code) && NoneBeforeMade(g, code)
    ensures NothingExtra(g, code)
  {
    var f := FlowOf(g, code);
    forall a, b, v | Crosses(f, a, b, v) ensures NeededAfter(g, code, a, v) {
      var p :| LivePath(f, p, b, v);
      LivePathNeeded(g, code, a, p, b, v);
    }
  }

  // Comparisons and conversions are not recorded as definitions, so what the analysis reports at
  // the end of a block need not be needed there. Where nothing is lost, it always is exactly if no
  // such value is needed after its own block only.
  lemma NothingExtraIff(g: Cfg, code: Code)
    requires Shaped(g, code) && NoneThroughPhis(g, code)
    ensures NothingExtra(g, code) <==> NoneBeforeMade(g, code)
  {
    if NoneBeforeMade(g, code) {
      NothingExtraIf(g, code);
    }
    if NothingExtra(g, code) {
      EdgesKeepIff(g, code);
      forall a, b, v | a in g.blocks && g.Edge(a, b) ensures MadeThere(g, code, a, b, v) {
        ComparedIff(Get(code, b), v);
        if v !in Defs(Get(code, b)) && NeededAfter(g, code, b, v) && !OnlyOtherPhis(g, code, a, b, v) {
          var c :| Needed(g, code, b, c, v);
          LiveCrosses(g, code, a, b, c, v);
        }
      }
    }
  }

  // What is reported at the end of a block is what is needed after it, edge by edge nothing is lost,
  // exactly under the two conditions on the code.
  lemma ReportIff(g: Cfg, code: Code)
    requires Shaped(g, code)
    ensures EdgesKeep(g, code) && NothingExtra(g, code) <==> NoneThroughPhis(g, code) && NoneBeforeMade(g, code)
    ensures EdgesKeep(g, code) && NothingExtra(g, code) ==>
      forall a, v :: a in g.blocks ==> (LeavesLive(FlowOf(g, code), a, v) <==> NeededAfter(g, code, a, v))
  {
    EdgesKeepIff(g, code);
    if NoneThroughPhis(g, code) {
      NothingExtraIff(g, code);
    }
    if EdgesKeep(g, code) && NothingExtra(g, code) {
      forall a, v | a in g.blocks ensures LeavesLive(FlowOf(g, code), a, v) <==> NeededAfter(g, code, a, v) {
        if LeavesLive(FlowOf(g, code), a, v) {
          var b :| Crosses(FlowOf(g, code), a, b, v);
        }
        if NeededAfter(g, code, a, v) {
          var b :| Needed(g, code, a, b, v);
        }
      }
    }
  }

  // A phi that reads v when control comes from another block, and a constant when it comes from a.
  lemma PhiForOther(s: seq<Instr>, id: Id, other: Block, o: int, a: Block, v: Id)
    requires s == [Instr(id, Phi, [Var(v), Label(other), Const(o), Label(a)])] && a != other
    ensures Read(s, v) && !Body(s, v) && !Feeds(s, a, v)
  {
    assert Exposed(s, 0, 0, v);
    forall k: nat, i: nat | Exposed(s, k, i, v) ensures !FeedsAt(s, k, i, a) {
      assert i == 0;
    }
  }

  lemma ReaderReads(s: seq<Instr>, id: Id, v: Id)
    requires s == [Instr(id, Other, [Var(v)])]
    ensures Body(s, v)
  {
    assert Exposed(s, 0, 0, v);
  }

  // A block m whose phis read v but not from a, and a reader of v after it.
  ghost predicate ThroughPhis(g: Cfg, code: Code, a: Block, m: Block, r: Block, v: Id)
    requires g.Valid() && a in g.blocks
  {
    && g.succ[a] == [m] && g.Edge(m, r)
    && Read(Get(code, m), v) && !Body(Get(code, m), v) && !Feeds(Get(code, m), a, v)
    && v !in Ids(Get(code, m)) && Body(Get(code, r), v)
  }

  lemma NeededThroughPhis(g: Cfg, code: Code, a: Block, m: Block, r: Block, v: Id)
    requires g.Valid() && a in g.blocks && ThroughPhis(g, code, a, m, r, v)
    ensures g.Edge(a, m) && Needed(g, code, a, m, v) && OnlyOtherPhis(g, code, a, m, v)
  {
    NeededAt(g, code, m, r, v);
    assert m in g.succ[a];
    NeededBefore(g, code, a, m, r, v);
  }

  lemma StoppedAtPhis(f: Flow, a: Block, m: Block, v: Id)
    requires a in f.succ && f.succ[a] == [m] && !f.Passes(a, m, v)
    ensures !LeavesLive(f, a, v)
  {
    forall b ensures !Crosses(f, a, b, v) {
    }
  }

  lemma PhiThenReaderLoses(g: Cfg, code: Code, a: Block, m: Block, r: Block, v: Id)
    requires Shaped(g, code) && a in g.blocks && ThroughPhis(g, code, a, m, r, v)
    ensures Needed(g, code, a, m, v) && !LeavesLive(FlowOf(g, code), a, v) && !EdgesKeep(g, code)
  {
    NeededThroughPhis(g, code, a, m, r, v);
    PassesIff(g, code, a, m, v);
    StoppedAtPhis(FlowOf(g, code), a, m, v);
    assert !Crosses(FlowOf(g, code), a, m, v);
  }

  // The condition is needed. Block 0 defines value 10 and leads to blocks 1 and 2, which both lead
  // to block 3. Its phi takes value 10 from block 1 and a constant from block 2, and block 4 reads
  // value 10. The analysis does not report it live at the end of block 2.
  lemma ValueLostThroughPhi() returns (g: Cfg, code: Code)
    ensures Shaped(g, code) && (forall b :: b in g.blocks ==> g.Reachable(b)) && 10 in Defs(Get(code, g.entry))
    ensures Needed(g, code, 2, 3, 10) && !LeavesLive(FlowOf(g, code), 2, 10) && !EdgesKeep(g, code)
  {
    g := Cfg({0, 1, 2, 3, 4}, 0, map[0 := [1, 2], 1 := [3], 2 := [3], 3 := [4], 4 := []],
      map[0 := [], 1 := [0], 2 := [0], 3 := [1, 2], 4 := [3]]);
    DiamondReachable(g);
    code := DiamondCode(g);
    PhiThenReaderLoses(g, code, 2, 3, 4, 10);
  }

  lemma DiamondCode(g: Cfg) returns (code: Code)
    requires g.Valid() && 2 in g.blocks && g.succ[2] == [3] && g.Edge(3, 4)
    ensures Shaped(g, code) && ThroughPhis(g, code, 2, 3, 4, 10) && 10 in Defs(Get(code, 0))
  {
    var def, phi, use := Instr(10, Binary, []), Instr(11, Phi, [Var(10), Label(1), Const(0), Label(2)]),
      Instr(12, Other, [Var(10)]);
    code := map[0 := [def], 3 := [phi], 4 := [use]];
    PhiForOther(Get(code, 3), 11, 1, 0, 2, 10);
    ReaderReads(Get(code, 4), 12, 10);
  }

  lemma DiamondReachable(g: Cfg)
    requires g.Valid() && g.entry == 0 && g.blocks == {0, 1, 2, 3, 4}
    requires g.succ[0] == [1, 2] && g.succ[1] == [3] && g.succ[2] == [3] && g.succ[3] == [4]
    ensures forall b :: b in g.blocks ==> g.Reachable(b)
  {
    g.ReachesSelf(0);
    assert g.Edge(0, 1) && g.Edge(0, 2) && g.Edge(1, 3) && g.Edge(3, 4);
    g.ReachableStep(0, 1);
    g.ReachableStep(0, 2);
    g.ReachableStep(1, 3);
    g.ReachableStep(3, 4);
  }

  // A loop after whose head nothing needs value 11, which the body makes for the phi of the head. As
  // it is a conversion, the analysis reports it live at the end of the head all the same, although it
  // loses nothing.
  lemma ReportedBeforeMade() returns (g: Cfg, code: Code)
    ensures Shaped(g, code) && (forall b :: b in g.blocks ==> g.Reachable(b)) && EdgesKeep(g, code)
    ensures LeavesLive(FlowOf(g, code), 1, 11) && !NeededAfter(g, code, 1, 11) && !NothingExtra(g, code)
  {
    g := Cfg({0, 1, 2, 3}, 0, map[0 := [1], 1 := [3, 2], 2 := [1], 3 := []],
      map[0 := [], 1 := [0, 2], 2 := [1], 3 := [1]]);
    LoopReachable(g);
    code := LoopCode(g);
    NotNeededBefore(g, code);
    LoopKeeps(g, code);
    LoopReports(g, code);
  }

  // while (v20) { v10 = v21 < v22; } return v10;
  ghost predicate IsLoop(g: Cfg, code: Code)
  {
    && Shaped(g, code) && g.blocks == {0, 1, 2, 3} && g.succ[0] == [1] && g.succ[1] == [3, 2] && g.succ[2] == [1] &&
      g.succ[3] == []
    && code == map[
      1 := [Instr(10, Phi, [Const(0), Label(0), Var(11), Label(2)]), Instr(13, Other, [Var(20), Const(0)])],
      2 := [Instr(12, Other, [Var(21), Var(22)]), Instr(11, Other, [Var(12)])],
      3 := [Instr(14, Other, [Var(10)])]]
  }

  lemma LoopCode(g: Cfg) returns (code: Code)
    requires g.Valid() && g.blocks == {0, 1, 2, 3} && g.succ[0] == [1] && g.succ[1] == [3, 2] && g.succ[2] == [1] &&
      g.succ[3] == []
    ensures IsLoop(g, code)
  {
    code := map[
      1 := [Instr(10, Phi, [Const(0), Label(0), Var(11), Label(2)]), Instr(13, Other, [Var(20), Const(0)])],
      2 := [Instr(12, Other, [Var(21), Var(22)]), Instr(11, Other, [Var(12)])],
      3 := [Instr(14, Other, [Var(10)])]];
  }

  // Who reads and makes what in the loop.
  lemma LoopReads(g: Cfg, code: Code, b: Block, p: Block, v: Id)
    requires IsLoop(g, code)
    ensures Feeds(Get(code, b), p, v) <==> b == 1 && p == 2 && v == 11
    ensures Read(Get(code, b), 11) <==> b == 1
    ensures !Body(Get(code, b), 11)
    ensures Read(Get(code, b), v) && !Body(Get(code, b), v) ==> b == 1 && v == 11
    ensures 11 in Ids(Get(code, b)) <==> b == 2
    ensures Defs(Get(code, 2)) == {}
  {
    var s := Get(code, b);
    if b == 1 {
      assert Exposed(s, 0, 2, 11);
      assert FeedsAt(s, 0, 2, 2);
    }
    forall k: nat, i: nat | Exposed(s, k, i, v)
      ensures (FeedsAt(s, k, i, p) ==> b == 1 && p == 2 && v == 11) && (s[k].kind.Phi? ==> b == 1 && v == 11)
    {
    }
    forall k: nat, i: nat | Exposed(s, k, i, 11) ensures b == 1 && s[k].kind.Phi? {
    }
  }

  lemma NotNeededBefore(g: Cfg, code: Code)
    requires IsLoop(g, code)
    ensures !NeededAfter(g, code, 1, 11)
  {
    forall b ensures !Needed(g, code, 1, b, 11) {
      if p :| NeedPath(g, code, p, 11) && p[0] == 1 && p[1] == b {
        assert Through(g, code, p, 11, 0);
        LoopReads(g, code, b, 1, 11);
        if |p| > 2 {
          NeededSplit(g, code, p, 11);
          assert Through(g, code, p[1..], 11, 0);
        }
      }
    }
  }

  lemma LoopKeeps(g: Cfg, code: Code)
    requires IsLoop(g, code) && !NeededAfter(g, code, 1, 11)
    ensures EdgesKeep(g, code)
  {
    forall a, b, v | a in g.blocks && OnlyOtherPhis(g, code, a, b, v)
      ensures v in Ids(Get(code, b)) || !NeededAfter(g, code, b, v)
    {
      LoopReads(g, code, b, a, v);
    }
    EdgesKeepIff(g, code);
  }

  lemma LoopReports(g: Cfg, code: Code)
    requires IsLoop(g, code)
    ensures LeavesLive(FlowOf(g, code), 1, 11)
  {
    assert g.Edge(1, 2) && g.Edge(2, 1);
    LoopReads(g, code, 1, 2, 11);
    LoopReads(g, code, 2, 1, 11);
    ReadCrosses(g, code, 2, 1, 11);
    LiveCrosses(g, code, 1, 2, 1, 11);
  }

  lemma LoopReachable(g: Cfg)
    requires g.Valid() && g.entry == 0 && g.blocks == {0, 1, 2, 3} && g.succ[0] == [1] && g.succ[1] == [3, 2]
    ensures forall b :: b in g.blocks ==> g.Reachable(b)
  {
    g.ReachesSelf(0);
    assert g.Edge(0, 1) && g.Edge(1, 2) && g.Edge(1, 3);
    g.ReachableStep(0, 1);
    g.ReachableStep(1, 2);
    g.ReachableStep(1, 3);
  }

  // ---- Collecting block by block ----

  ghost function FromPred(g: Cfg, bb: Block, s: seq<Instr>, p: Block): set<Id>
    requires bb in g.pred
  {
    if p in g.pred[bb] then PhiFrom(s, p) else {}
  }

  // The phis of bb in s have been taken into account for all predecessors of bb.
  ghost predicate PhiOutBlock(g: Cfg, before: map<Block, set<Id>>, after: map<Block, set<Id>>, bb: Block, s: seq<Instr>)
    requires bb in g.pred
  {
    after.Keys == before.Keys && forall p {:trigger At(after, p)} :: p in after ==>
      At(after, p) == At(before, p) + FromPred(g, bb, s, p)
  }

  lemma PhiOutInstr(g: Cfg, before: map<Block, set<Id>>, mid: map<Block, set<Id>>, after: map<Block, set<Id>>,
      bb: Block, s: seq<Instr>, k: nat)
    requires bb in g.pred && k < |s| && PhiOutBlock(g, before, mid, bb, s[..k])
    requires PhiOutGrew(g, mid, after, bb, s[k], Ids(s[..k]), |s[k].ops|)
    ensures PhiOutBlock(g, before, after, bb, s[..k + 1])
  {
    var t := s[..k + 1];
    assert t[..|t| - 1] == s[..k] && t[|t| - 1] == s[k];
    forall p | p in after ensures At(after, p) == At(before, p) + FromPred(g, bb, t, p) {
      assert At(mid, p) == At(before, p) + FromPred(g, bb, s[..k], p);
      assert At(after, p) == At(mid, p) + FromUpTo(g, bb, s[k], Ids(s[..k]), |s[k].ops|, p);
    }
  }

  lemma CollectNext(s: seq<Instr>, k: nat)
    requires k < |s|
    ensures Use(s[..k + 1]) == Use(s[..k]) + OpsUse(s[k].ops, Ids(s[..k]))
    ensures PhiUse(s[..k + 1]) == if s[k].kind.Phi? then PhiUse(s[..k]) + OpsUse(s[k].ops, Ids(s[..k]))
      else PhiUse(s[..k]) - OpsUse(s[k].ops, Ids(s[..k]))
    ensures Ids(s[..k + 1]) == Ids(s[..k]) + {s[k].id}
    ensures Defs(s[..k + 1]) == Defs(s[..k]) + (if Defines(s[k]) then {s[k].id} else {})
  {
    var t := s[..k + 1];
    assert t[..|t| - 1] == s[..k] && t[|t| - 1] == s[k];
    assert t == s[..k] + [s[k]];
  }

  // The values that phis of the successors in done take from p.
  ghost function PhiOutOf(g: Cfg, code: Code, p: Block, done: set<Block>): set<Id>
    requires g.Valid() && p in g.blocks
  {
    set s, v | s in g.succ[p] && s in done && v in PhiFrom(Get(code, s), p) :: v
  }

  ghost predicate PhiOutDone(g: Cfg, code: Code, phiOut: map<Block, set<Id>>, done: set<Block>)
    requires g.Valid()
  {
    phiOut.Keys == g.blocks && forall p {:trigger At(phiOut, p)} :: p in g.blocks ==>
      At(phiOut, p) == PhiOutOf(g, code, p, done)
  }

  lemma PhiOutDoneNext(g: Cfg, code: Code, before: map<Block, set<Id>>, after: map<Block, set<Id>>, done: set<Block>,
      bb: Block)
    requires g.Valid() && bb in g.blocks && PhiOutDone(g, code, before, done) &&
      PhiOutBlock(g, before, after, bb, Get(code, bb))
    ensures PhiOutDone(g, code, after, done + {bb})
  {
    forall p | p in g.blocks ensures At(after, p) == PhiOutOf(g, code, p, done + {bb}) {
      assert At(after, p) == At(before, p) + FromPred(g, bb, Get(code, bb), p);
      assert At(before, p) == PhiOutOf(g, code, p, done);
      assert p in g.pred[bb] <==> bb in g.succ[p];
    }
  }

  // What is collected for b: its sets if it is in done, nothing otherwise.
  ghost predicate BlockDone(code: Code, use: map<Block, set<Id>>, phiUse: map<Block, set<Id>>, def: map<Block, set<Id>>,
      done: set<Block>, b: Block)
  {
    && At(use, b) == (if b in done then Use(Get(code, b)) else {})
    && At(phiUse, b) == (if b in done then PhiUse(Get(code, b)) else {})
    && At(def, b) == (if b in done then Defs(Get(code, b)) else {})
  }

  ghost predicate BlocksDone(g: Cfg, code: Code, use: map<Block, set<Id>>, phiUse: map<Block, set<Id>>,
      def: map<Block, set<Id>>, done: set<Block>)
  {
    && use.Keys == g.blocks && phiUse.Keys == g.blocks && def.Keys == g.blocks
    && (forall b {:trigger BlockDone(code, use, phiUse, def, done, b)} :: b in g.blocks ==>
      BlockDone(code, use, phiUse, def, done, b))
  }

  lemma NothingDone(g: Cfg, code: Code)
    requires g.Valid()
    ensures BlocksDone(g, code, Empty(g), Empty(g), Empty(g), {}) && PhiOutDone(g, code, Empty(g), {})
  {
  }

  lemma OneMoreDone(g: Cfg, code: Code, use: map<Block, set<Id>>, phiUse: map<Block, set<Id>>, def: map<Block, set<Id>>,
      done: set<Block>, bb: Block)
    requires bb in g.blocks && BlocksDone(g, code, use, phiUse, def, done)
    ensures BlocksDone(g, code, use[bb := Use(Get(code, bb))], phiUse[bb := PhiUse(Get(code, bb))],
      def[bb := Defs(Get(code, bb))], done + {bb})
  {
    forall b | b in g.blocks
      ensures BlockDone(code, use[bb := Use(Get(code, bb))], phiUse[bb := PhiUse(Get(code, bb))],
        def[bb := Defs(Get(code, bb))], done + {bb}, b)
    {
      assert BlockDone(code, use, phiUse, def, done, b);
      BlockDoneNext(code, use, phiUse, def, done, bb, b);
    }
  }

  lemma BlockDoneNext(code: Code, use: map<Block, set<Id>>, phiUse: map<Block, set<Id>>, def: map<Block, set<Id>>,
      done: set<Block>, bb: Block, b: Block)
    requires BlockDone(code, use, phiUse, def, done, b)
    ensures BlockDone(code, use[bb := Use(Get(code, bb))], phiUse[bb := PhiUse(Get(code, bb))],
      def[bb := Defs(Get(code, bb))], done + {bb}, b)
  {
  }

  lemma AllDone(g: Cfg, code: Code, use: map<Block, set<Id>>, phiUse: map<Block, set<Id>>, def: map<Block, set<Id>>,
      phiOut: map<Block, set<Id>>, done: set<Block>)
    requires g.Valid() && g.blocks <= done && BlocksDone(g, code, use, phiUse, def, done) &&
      PhiOutDone(g, code, phiOut, done)
    ensures Flow(g.blocks, g.succ, use, def, phiUse, phiOut) == FlowOf(g, code)
  {
    var f := FlowOf(g, code);
    forall b | b in g.blocks ensures use[b] == f.use[b] && phiUse[b] == f.phiUse[b] && def[b] == f.def[b] {
      assert BlockDone(code, use, phiUse, def, done, b);
    }
    forall p | p in g.blocks ensures phiOut[p] == PhiOut(g, code, p) {
      assert At(phiOut, p) == PhiOutOf(g, code, p, done);
      forall s | s in g.succ[p] ensures s in done {
        assert s in g.blocks;
      }
    }
  }

  lemma NotDoneYet(g: Cfg, code: Code, use: map<Block, set<Id>>, phiUse: map<Block, set<Id>>, def: map<Block, set<Id>>,
      done: set<Block>, b: Block)
    requires BlocksDone(g, code, use, phiUse, def, done) && b in g.blocks && b !in done
    ensures use[b] == {} && phiUse[b] == {} && def[b] == {}
  {
    assert BlockDone(code, use, phiUse, def, done, b);
  }

  // The order lists the blocks of the function once each, and phi operands come in pairs.
  ghost predicate Ordered(g: Cfg, code: Code, order: seq<Block>)
  {
    && g.Valid() && (forall b {:trigger b in order} :: b in order <==> b in g.blocks)
    && (forall i: nat, j: nat {:trigger OrderAt(order, i), OrderAt(order, j)} :: i < j < |order| ==>
      OrderAt(order, i) != OrderAt(order, j))
    && (forall b {:trigger Get(code, b)} :: Paired(Get(code, b)))
  }

  ghost function OrderAt(order: seq<Block>, i: nat): Block
  {
    if i < |order| then order[i] else 0
  }

  ghost function Listed(order: seq<Block>): set<Block>
  {
    set b | b in order
  }

  ghost function Empty(g: Cfg): map<Block, set<Id>>
  {
    map b | b in g.blocks :: {}
  }

  lemma NotBefore(g: Cfg, code: Code, order: seq<Block>, k: nat)
    requires Ordered(g, code, order) && k < |order|
    ensures order[k] in g.blocks && order[k] !in order[..k]
    ensures Listed(order[..k + 1]) == Listed(order[..k]) + {order[k]}
  {
    assert order[k] in order;
    forall i: nat | i < k ensures order[i] != order[k] {
      assert OrderAt(order, i) != OrderAt(order, k);
    }
    assert order[..k + 1] == order[..k] + [order[k]];
  }
}
