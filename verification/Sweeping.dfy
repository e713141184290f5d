// What is deleted: everything without an effect that nothing with an effect depends on.
module Sweeping {
  import opened Graph
  import opened DeadCode
  import opened Marking

  datatype Function = Function(name: string, params: set<nat>, blocks: seq<Block>)

  // Never deleted for being unused.
  predicate Vital(i: Instr)
  {
    i.Terminator() || i.kind.Call? || i.kind.Store?
  }

  // The use list of v is empty.
  predicate Unused(code: Code, v: Id)
  {
    forall b :: b in code ==> forall i :: i in code[b] ==> Inst(v) !in i.ops
  }

  // The first sweep deletes i.
  predicate Useless(code: Code, i: Instr)
  {
    !Vital(i) && Unused(code, i.id)
  }

  // What the first sweep deletes of a block, and what it remembers.
  ghost function UselessIn(code: Code, s: seq<Instr>): set<Id>
  {
    set i | i in s && Useless(code, i) :: i.id
  }

  ghost function RememberedIn(code: Code, s: seq<Instr>): set<Id>
  {
    set i | i in s && !Useless(code, i) && !i.Void() :: i.id
  }

  lemma CollectNext(code: Code, s: seq<Instr>, k: nat)
    requires k < |s|
    ensures UselessIn(code, s[..k + 1]) == UselessIn(code, s[..k]) + (if Useless(code, s[k]) then {s[k].id} else {})
    ensures RememberedIn(code, s[..k + 1]) == RememberedIn(code, s[..k]) +
      (if Useless(code, s[k]) || s[k].Void() then {} else {s[k].id})
  {
    assert s[..k + 1] == s[..k] + [s[k]];
    forall i ensures i in s[..k + 1] <==> i in s[..k] || i == s[k] {
    }
  }

  // One block of the first sweep. What it deletes may leave instructions of other blocks unused.
  ghost function SweepBlock(code: Code, b: Block): Code
  {
    if b in code then code[b := Keep(code[b], UselessIn(code, code[b]))] else code
  }

  ghost function SweepBlocks(code: Code, bs: seq<Block>): Code
  {
    if bs == [] then code else SweepBlock(SweepBlocks(code, bs[..|bs| - 1]), bs[|bs| - 1])
  }

  ghost function SweepFunctions(code: Code, funcs: seq<Function>): Code
  {
    if funcs == [] then code else SweepBlocks(SweepFunctions(code, funcs[..|funcs| - 1]), funcs[|funcs| - 1].blocks)
  }

  // An instruction whose effect can be seen, given its function's parameters.
  predicate Root(safe: set<string>, params: set<nat>, i: Instr)
  {
    || (i.kind.Call? && !i.Calls(safe))
    || (i.kind.Ret? && |i.ops| > 0 && !(i.ops[0].Arg? && i.ops[0].i in params))
    || i.kind.CondBr? || i.kind.Store?
  }

  // ---- The program the pass is given ----

  ghost predicate WellMade(objects: Objects, i: Instr)
  {
    && i.id in objects && objects[i.id] == i
    && (i.kind.Call? ==> |i.ops| > 0 && i.ops[0].Func?)
    && (i.kind.Ret? ==> |i.ops| <= 1)
    && (i.kind.Br? ==> forall o :: o in i.ops ==> o.Label?)
  }

  ghost predicate BlockWellMade(objects: Objects, s: seq<Instr>)
  {
    forall i {:trigger WellMade(objects, i)} :: i in s ==> WellMade(objects, i)
  }

  // The instructions of a function.
  ghost function Own(code: Code, f: Function): set<Id>
  {
    set b, i | b in f.blocks && i in Get(code, b) :: i.id
  }

  ghost predicate FunctionWellMade(objects: Objects, code: Code, f: Function)
  {
    Owns(objects, Own(code, f), f.params) && forall b {:trigger b in f.blocks} :: b in f.blocks ==> b in code
  }

  // An instruction is one object, in one block; blocks end in terminators; and a function uses
  // only its own arguments and instructions.
  ghost predicate Program(objects: Objects, funcs: seq<Function>, code: Code)
  {
    && Terminated(code)
    && (forall b {:trigger BlockWellMade(objects, Get(code, b))} :: BlockWellMade(objects, Get(code, b)))
    && (forall b, c, i {:trigger i in Get(code, b), i in Get(code, c)} :: i in Get(code, b) && i in Get(code, c) ==>
      b == c)
    && (forall f {:trigger FunctionWellMade(objects, code, f)} :: f in funcs ==> FunctionWellMade(objects, code, f))
    && (forall b {:trigger b in code} :: b in code ==> exists f :: f in funcs && b in f.blocks)
  }

  lemma MadeSo(objects: Objects, funcs: seq<Function>, code: Code, b: Block, i: Instr)
    requires Program(objects, funcs, code) && i in Get(code, b)
    ensures WellMade(objects, i)
  {
    assert BlockWellMade(objects, Get(code, b));
  }

  // ---- The first sweep ----

  // The instructions in gone, none of them vital, have been removed and nothing uses them.
  ghost predicate Swept(objects: Objects, before: Code, code: Code, gone: set<Id>)
  {
    && code == KeepAll(before, gone)
    && (forall v {:trigger Unused(code, v)} :: v in gone ==> Unused(code, v))
    && (forall v {:trigger v in gone} :: v in gone ==> v in objects && !Vital(objects[v]))
  }

  // What is left of a block, instruction by instruction.
  lemma SweptIff(objects: Objects, before: Code, code: Code, gone: set<Id>, b: Block, i: Instr)
    requires Swept(objects, before, code, gone)
    ensures i in Get(code, b) <==> i in Get(before, b) && i.id !in gone
  {
    if b in before {
      KeepIff(before[b], gone, i);
    }
  }

  lemma SweptNothing(objects: Objects, code: Code)
    ensures Swept(objects, code, code, {})
  {
    forall b | b in code ensures Keep(code[b], {}) == code[b] {
      KeepNothing(code[b]);
    }
    assert KeepAll(code, {}) == code;
  }

  lemma {:induction false} KeepNothing(s: seq<Instr>)
    ensures Keep(s, {}) == s
  {
    if s != [] {
      var init, last := s[..|s| - 1], s[|s| - 1];
      KeepNothing(init);
      assert s == init + [last];
    }
  }

  // The instructions w of block bb can be deleted together.
  ghost predicate Deletable(objects: Objects, code: Code, bb: Block, w: set<Id>)
  {
    forall v {:trigger v in w} :: v in w ==>
      v in objects && objects[v] in Get(code, bb) && !Vital(objects[v]) && Unused(code, v)
  }

  lemma SweptOtherBlock(objects: Objects, funcs: seq<Function>, before: Code, code: Code, gone: set<Id>, bb: Block,
      w: set<Id>, b: Block)
    requires Program(objects, funcs, before) && Swept(objects, before, code, gone)
    requires Deletable(objects, code, bb, w) && b in before && b != bb
    ensures Keep(before[b], gone) == Keep(before[b], gone + w)
  {
    forall i | i in Get(before, b) ensures i.id !in w {
      MadeSo(objects, funcs, before, b, i);
      SweptIff(objects, before, code, gone, bb, i);
    }
    KeepSame(before[b], gone, gone + w);
  }

  lemma UnusedStays(code: Code, bb: Block, w: set<Id>, v: Id)
    requires Unused(code, v) && bb in code
    ensures Unused(code[bb := Keep(code[bb], w)], v)
  {
    forall i | i in Keep(code[bb], w) ensures Inst(v) !in i.ops {
      KeepIff(code[bb], w, i);
    }
  }

  lemma SweptBlock(objects: Objects, funcs: seq<Function>, before: Code, code: Code, gone: set<Id>, bb: Block,
      w: set<Id>)
    requires Program(objects, funcs, before) && Swept(objects, before, code, gone)
    requires bb in code && Deletable(objects, code, bb, w)
    ensures Swept(objects, before, code[bb := Keep(code[bb], w)], gone + w)
  {
    var code' := code[bb := Keep(code[bb], w)];
    forall b | b in before ensures code'[b] == Keep(before[b], gone + w) {
      if b == bb {
        KeepKeep(before[b], gone, w);
      } else {
        SweptOtherBlock(objects, funcs, before, code, gone, bb, w, b);
      }
    }
    assert code' == KeepAll(before, gone + w);
    forall v | v in gone + w ensures Unused(code', v) {
      assert v in w ==> Unused(code, v);
      UnusedStays(code, bb, w, v);
    }
  }

  // ---- What stays ----

  // The marked instructions of a block, and of a function.
  ghost function RootsIn(safe: set<string>, params: set<nat>, s: seq<Instr>): set<Id>
  {
    set i | i in s && Root(safe, params, i) :: i.id
  }

  lemma RootsNext(safe: set<string>, params: set<nat>, s: seq<Instr>, k: nat)
    requires k < |s|
    ensures RootsIn(safe, params, s[..k + 1]) == RootsIn(safe, params, s[..k]) + RootsIn(safe, params, [s[k]])
    ensures SafeCalls(safe, s[..k + 1]) == SafeCalls(safe, s[..k]) + SafeCalls(safe, [s[k]])
  {
    assert s[..k + 1] == s[..k] + [s[k]];
  }

  // The marks wanted after one more instruction.
  lemma RootsStep(safe: set<string>, params: set<nat>, s: seq<Instr>, k: nat, from: set<Id>)
    requires k < |s|
    ensures from + RootsIn(safe, params, s[..k + 1])
      == if Root(safe, params, s[k]) then from + RootsIn(safe, params, s[..k]) + {s[k].id}
        else from + RootsIn(safe, params, s[..k])
  {
    assert s[..k + 1] == s[..k] + [s[k]];
    RootsNext(safe, params, s, k);
    assert RootsIn(safe, params, [s[k]]) == if Root(safe, params, s[k]) then {s[k].id} else {} by {
      assert s[k] in [s[k]];
    }
  }

  ghost function Roots(safe: set<string>, code: Code, f: Function): set<Id>
  {
    set b, i | b in f.blocks && i in Get(code, b) && Root(safe, f.params, i) :: i.id
  }

  ghost function AllRoots(safe: set<string>, code: Code, funcs: seq<Function>): set<Id>
  {
    set f, id | f in funcs && id in Roots(safe, code, f) :: id
  }

  // Exactly what the instructions in from depend on.
  ghost predicate LiveExactly(objects: Objects, live: set<Value>, from: set<Id>)
  {
    && ClosedUpTo(objects, live, [])
    && (forall id {:trigger id in from} :: id in from ==> Inst(id) in live)
    && (forall v {:trigger NeededFrom(objects, from, v)} :: v in live ==> NeededFrom(objects, from, v))
  }

  ghost predicate NeededFrom(objects: Objects, from: set<Id>, v: Value)
  {
    exists id :: id in from && Needs(objects, Inst(id), v)
  }

  lemma LiveIff(objects: Objects, live: set<Value>, from: set<Id>, v: Value)
    requires LiveExactly(objects, live, from)
    ensures v in live <==> NeededFrom(objects, from, v)
  {
    if NeededFrom(objects, from, v) {
      var id :| id in from && Needs(objects, Inst(id), v);
      ClosedNeeds(objects, live, Inst(id), v);
    }
  }

  lemma LiveAdd(objects: Objects, live: set<Value>, from: set<Id>, id: Id, live': set<Value>)
    requires LiveExactly(objects, live, from) && ClosedUpTo(objects, live', [])
    requires AddedNeeds(objects, live, id, live')
    ensures LiveExactly(objects, live', from + {id})
  {
    NeedsSelf(objects, Inst(id));
    forall r | r in from + {id} ensures Inst(r) in live' {
      var needed := Needs(objects, Inst(id), Inst(r));
    }
    forall v | v in live' ensures NeededFrom(objects, from + {id}, v) {
      var needed := Needs(objects, Inst(id), v);
      if v in live {
        assert NeededFrom(objects, from, v);
        var r :| r in from && Needs(objects, Inst(r), v);
        assert r in from + {id};
      } else {
        assert id in from + {id};
      }
    }
  }

  // No result and no effect that can be ignored.
  predicate Pinned(safe: set<string>, i: Instr)
  {
    i.Void() && !i.Calls(safe)
  }

  // The instructions that the whole pass removes.
  ghost function Doomed(objects: Objects, safe: set<string>, live: set<Value>): set<Id>
  {
    set id | id in objects && !Pinned(safe, objects[id]) && Inst(id) !in live
  }

  ghost predicate Present(code: Code, v: Value)
  {
    v.Inst? ==> exists b, i :: i in Get(code, b) && i.id == v.id
  }

  lemma PresentBefore(objects: Objects, funcs: seq<Function>, code: Code, b: Block, i: Instr, o: Value)
    requires Program(objects, funcs, code) && i in Get(code, b) && o in i.ops
    ensures Present(code, o)
  {
    MadeSo(objects, funcs, code, b, i);
    var f :| f in funcs && b in f.blocks;
    assert FunctionWellMade(objects, code, f);
    assert i.id in Own(code, f);
    assert OperandsOwned(objects, Own(code, f), f.params, i.id);
    assert ValueOwned(Own(code, f), f.params, o);
  }

  // What a present instruction depends on is present after the first sweep.
  lemma PresentStep(objects: Objects, funcs: seq<Function>, before: Code, code: Code, gone: set<Id>, a: Value, c: Value)
    requires Program(objects, funcs, before) && Swept(objects, before, code, gone)
    requires Present(code, a) && Dep(objects, a, c)
    ensures Present(code, c)
  {
    if a.Inst? && c.Inst? {
      var b, i :| i in Get(code, b) && i.id == a.id;
      SweptIff(objects, before, code, gone, b, i);
      MadeSo(objects, funcs, before, b, i);
      PresentBefore(objects, funcs, before, b, i, c);
      var b', j :| j in Get(before, b') && j.id == c.id;
      assert c.id in gone ==> Unused(code, c.id);
      SweptIff(objects, before, code, gone, b', j);
    }
  }

  lemma PresentNeeds(objects: Objects, funcs: seq<Function>, before: Code, code: Code, gone: set<Id>, a: Value,
      c: Value)
    requires Program(objects, funcs, before) && Swept(objects, before, code, gone)
    requires Present(code, a) && Needs(objects, a, c)
    ensures Present(code, c)
  {
    var p :| DepPath(objects, p, a, c);
    var k := 0;
    while k < |p| - 1
      invariant 0 <= k < |p| && Present(code, p[k])
    {
      assert DepAt(objects, p, k);
      PresentStep(objects, funcs, before, code, gone, p[k], p[k + 1]);
      k := k + 1;
    }
  }

  lemma RootsKept(objects: Objects, funcs: seq<Function>, before: Code, code: Code, gone: set<Id>, safe: set<string>,
      f: Function)
    requires Program(objects, funcs, before) && Swept(objects, before, code, gone)
    ensures Roots(safe, code, f) == Roots(safe, before, f)
  {
    forall b, i ensures i in Get(code, b) && Root(safe, f.params, i) <==>
      i in Get(before, b) && Root(safe, f.params, i) {
      SweptIff(objects, before, code, gone, b, i);
      if i in Get(before, b) {
        MadeSo(objects, funcs, before, b, i);
      }
    }
  }

  // Nothing removed by the first sweep is needed.
  lemma GoneNotLive(objects: Objects, funcs: seq<Function>, before: Code, code: Code, gone: set<Id>, from: set<Id>,
      live: set<Value>, id: Id)
    requires Program(objects, funcs, before) && Swept(objects, before, code, gone)
    requires LiveExactly(objects, live, from) && forall r :: r in from ==> Present(code, Inst(r))
    requires id in gone
    ensures Inst(id) !in live
  {
    if Inst(id) in live {
      assert NeededFrom(objects, from, Inst(id));
      var r :| r in from && Needs(objects, Inst(r), Inst(id));
      PresentNeeds(objects, funcs, before, code, gone, Inst(r), Inst(id));
      var b, i :| i in Get(code, b) && i.id == id;
      SweptIff(objects, before, code, gone, b, i);
    }
  }

  // ---- Nothing observable is removed ----

  lemma RootLive(objects: Objects, funcs: seq<Function>, code: Code, safe: set<string>, live: set<Value>, f: Function,
      b: Block, i: Instr)
    requires f in funcs && b in f.blocks && i in Get(code, b) && Root(safe, f.params, i)
    requires LiveExactly(objects, live, AllRoots(safe, code, funcs))
    ensures Inst(i.id) in live
  {
    assert i.id in Roots(safe, code, f);
    assert i.id in AllRoots(safe, code, funcs);
  }

  // What stays uses nothing doomed: it is live, or its operands are arguments or blocks.
  lemma StayingUses(objects: Objects, safe: set<string>, live: set<Value>, params: set<nat>, i: Instr, v: Id)
    requires WellMade(objects, i) && ClosedUpTo(objects, live, []) && Inst(v) in i.ops
    requires Root(safe, params, i) ==> Inst(i.id) in live
    requires Pinned(safe, i) || Inst(i.id) in live
    ensures Inst(v) in live
  {
    assert Dep(objects, Inst(i.id), Inst(v));
  }

  lemma DoomedRemovable(objects: Objects, funcs: seq<Function>, code: Code, safe: set<string>, live: set<Value>,
      f: Function, b: Block, i: Instr)
    requires Program(objects, funcs, code) && f in funcs && b in f.blocks && i in Get(code, b)
    requires LiveExactly(objects, live, AllRoots(safe, code, funcs))
    ensures Removable(safe, i, Doomed(objects, safe, live))
  {
    MadeSo(objects, funcs, code, b, i);
    if Root(safe, f.params, i) {
      RootLive(objects, funcs, code, safe, live, f, b, i);
    }
    if i.id !in Doomed(objects, safe, live) {
      forall v | i.Uses(v) ensures v !in Doomed(objects, safe, live) {
        StayingUses(objects, safe, live, f.params, i, v);
      }
    }
  }

  // Deleting all that is doomed leaves no use of a deleted instruction, and removes no effect.
  lemma AllDoomedRemovable(objects: Objects, funcs: seq<Function>, code: Code, safe: set<string>, live: set<Value>)
    requires Program(objects, funcs, code) && LiveExactly(objects, live, AllRoots(safe, code, funcs))
    ensures CodeRemovable(safe, code, Doomed(objects, safe, live))
  {
    forall b ensures AllRemovable(safe, Get(code, b), Doomed(objects, safe, live)) {
      forall i | i in Get(code, b) ensures Removable(safe, i, Doomed(objects, safe, live)) {
        var f :| f in funcs && b in f.blocks;
        DoomedRemovable(objects, funcs, code, safe, live, f, b, i);
      }
    }
  }

  // ---- Safe functions ----

  // Library functions with effects that their empty bodies do not show.
  const UNSAFE_NAMES: set<string> := {"output", "outputFloat", "neg_idx_except", "input"}

  predicate Quiet(s: seq<Instr>)
  {
    forall i :: i in s ==> !i.kind.Call? && !i.kind.Store?
  }

  // A function with neither calls nor stores, other than main and the library's.
  ghost predicate SafeFunction(code: Code, f: Function)
  {
    && f.name != "main" && f.name !in UNSAFE_NAMES
    && forall b {:trigger Get(code, b)} :: b in f.blocks ==> Quiet(Get(code, b))
  }

  ghost function SafeNames(code: Code, funcs: seq<Function>): set<string>
  {
    set f | f in funcs && SafeFunction(code, f) :: f.name
  }

  // The first sweep does not make a function safe.
  lemma SafeKept(objects: Objects, funcs: seq<Function>, before: Code, code: Code, gone: set<Id>, f: Function)
    requires Program(objects, funcs, before) && Swept(objects, before, code, gone)
    ensures SafeFunction(code, f) <==> SafeFunction(before, f)
  {
    forall b ensures Quiet(Get(code, b)) <==> Quiet(Get(before, b)) {
      forall i ensures i in Get(code, b) && Vital(i) <==> i in Get(before, b) && Vital(i) {
        SweptIff(objects, before, code, gone, b, i);
        if i in Get(before, b) {
          MadeSo(objects, funcs, before, b, i);
        }
      }
    }
  }

  lemma SafeNamesKept(objects: Objects, funcs: seq<Function>, before: Code, code: Code, gone: set<Id>)
    requires Program(objects, funcs, before) && Swept(objects, before, code, gone)
    ensures SafeNames(code, funcs) == SafeNames(before, funcs)
  {
    forall f ensures SafeFunction(code, f) <==> SafeFunction(before, f) {
      SafeKept(objects, funcs, before, code, gone, f);
    }
  }

  lemma AllRootsKept(objects: Objects, funcs: seq<Function>, before: Code, code: Code, gone: set<Id>, safe: set<string>)
    requires Program(objects, funcs, before) && Swept(objects, before, code, gone)
    ensures AllRoots(safe, code, funcs) == AllRoots(safe, before, funcs)
    ensures forall id :: id in AllRoots(safe, code, funcs) ==> Present(code, Inst(id))
  {
    forall f ensures Roots(safe, code, f) == Roots(safe, before, f) {
      RootsKept(objects, funcs, before, code, gone, safe, f);
    }
  }

  // ---- The second sweep ----

  ghost function Ids(s: seq<Id>): set<Id>
  {
    set id | id in s
  }

  lemma IdsNext(s: seq<Id>, k: nat)
    requires k < |s|
    ensures Ids(s[..k + 1]) == Ids(s[..k]) + {s[k]}
  {
    assert s[..k + 1] == s[..k] + [s[k]];
  }

  ghost function DeadAt(dead: map<Block, set<Id>>, b: Block): set<Id>
  {
    if b in dead then dead[b] else {}
  }

  // Only instructions with a result are remembered.
  ghost predicate DeadTyped(objects: Objects, dead: map<Block, set<Id>>)
  {
    forall b, id {:trigger id in DeadAt(dead, b)} :: id in DeadAt(dead, b) ==> id in objects && !objects[id].Void()
  }

  // The instructions of b that may be deleted are exactly those with a result.
  ghost predicate DeadNonVoid(code: Code, dead: map<Block, set<Id>>, b: Block)
  {
    forall i {:trigger i in Get(code, b)} :: i in Get(code, b) ==> (i.id in DeadAt(dead, b) <==> !i.Void())
  }

  lemma RememberedTyped(objects: Objects, code: Code, s: seq<Instr>, dead: map<Block, set<Id>>, b: Block)
    requires BlockWellMade(objects, s) && DeadTyped(objects, dead)
    ensures DeadTyped(objects, dead[b := DeadAt(dead, b) + RememberedIn(code, s)])
  {
    var dead' := dead[b := DeadAt(dead, b) + RememberedIn(code, s)];
    forall c, id | id in DeadAt(dead', c) ensures id in objects && !objects[id].Void() {
      if id in DeadAt(dead, c) {
        assert id in objects;
      } else {
        var i :| i in s && !i.Void() && i.id == id;
        assert WellMade(objects, i);
      }
    }
  }

  lemma UselessDeletable(objects: Objects, code: Code, b: Block)
    requires b in code && BlockWellMade(objects, code[b])
    ensures Deletable(objects, code, b, UselessIn(code, code[b]))
  {
    forall v | v in UselessIn(code, code[b]) ensures v in objects && objects[v] in code[b] && !Vital(objects[v]) &&
      Unused(code, v) {
      var i :| i in code[b] && Useless(code, i) && i.id == v;
      assert WellMade(objects, i);
    }
  }

  // What is left of a block after the sweep is remembered exactly if it has a result.
  lemma RememberedNonVoid(objects: Objects, code: Code, dead: map<Block, set<Id>>, b: Block)
    requires b in code && BlockWellMade(objects, code[b]) && DeadTyped(objects, dead)
    ensures DeadNonVoid(SweepBlock(code, b), dead[b := DeadAt(dead, b) + RememberedIn(code, code[b])], b)
  {
    var w := UselessIn(code, code[b]);
    var dead' := dead[b := DeadAt(dead, b) + RememberedIn(code, code[b])];
    forall i | i in Get(SweepBlock(code, b), b) ensures i.id in DeadAt(dead', b) <==> !i.Void() {
      KeepIff(code[b], w, i);
      assert WellMade(objects, i);
      RememberedTyped(objects, code, code[b], dead, b);
      assert i.id in DeadAt(dead', b) ==> !objects[i.id].Void();
      assert i in code[b] && i.id !in w ==> !Useless(code, i);
    }
  }

  ghost predicate AllNonVoid(code: Code, dead: map<Block, set<Id>>, done: set<Block>)
  {
    forall b {:trigger DeadNonVoid(code, dead, b)} :: b in done ==> DeadNonVoid(code, dead, b)
  }

  // Sweeping b leaves the other blocks as they are.
  ghost predicate OthersNonVoid(code: Code, dead: map<Block, set<Id>>, code': Code, dead': map<Block, set<Id>>,
      b: Block)
  {
    forall c {:trigger DeadNonVoid(code', dead', c)} :: c != b && DeadNonVoid(code, dead, c) ==>
      DeadNonVoid(code', dead', c)
  }

  lemma NonVoidNext(code: Code, dead: map<Block, set<Id>>, code': Code, dead': map<Block, set<Id>>, done: set<Block>,
      b: Block)
    requires AllNonVoid(code, dead, done) && DeadNonVoid(code', dead', b) && OthersNonVoid(code, dead, code', dead', b)
    ensures AllNonVoid(code', dead', done + {b})
  {
  }

  lemma SweepNext(code: Code, bs: seq<Block>, k: nat)
    requires k < |bs|
    ensures SweepBlocks(code, bs[..k + 1]) == SweepBlock(SweepBlocks(code, bs[..k]), bs[k])
  {
    assert bs[..k + 1][..k] == bs[..k];
  }

  ghost predicate BlocksIn(f: Function, done: set<Block>)
  {
    forall b {:trigger b in f.blocks} :: b in f.blocks ==> b in done
  }

  // ... and the calls of safe functions.
  ghost predicate DeadUnpinned(safe: set<string>, code: Code, dead: map<Block, set<Id>>, b: Block)
  {
    forall i {:trigger i in Get(code, b)} :: i in Get(code, b) ==> (i.id in DeadAt(dead, b) <==> !Pinned(safe, i))
  }

  ghost function SafeCalls(safe: set<string>, s: seq<Instr>): set<Id>
  {
    set i | i in s && i.Calls(safe) :: i.id
  }

  // Remembering the safe calls of a block completes what may be deleted of it.
  lemma SafeCallsComplete(objects: Objects, safe: set<string>, code: Code, dead: map<Block, set<Id>>,
      dead': map<Block, set<Id>>, b: Block)
    requires BlockWellMade(objects, Get(code, b)) && (DeadNonVoid(code, dead, b) || DeadUnpinned(safe, code, dead, b))
    requires DeadAt(dead', b) == DeadAt(dead, b) + SafeCalls(safe, Get(code, b))
    ensures DeadUnpinned(safe, code, dead', b)
  {
    forall i | i in Get(code, b) ensures i.id in DeadAt(dead', b) <==> !Pinned(safe, i) {
      assert WellMade(objects, i);
      forall j | j in Get(code, b) && j.id == i.id ensures j == i {
        assert WellMade(objects, j);
      }
    }
  }

  ghost function Unlive(dead: set<Id>, live: set<Value>): set<Id>
  {
    set id | id in dead && Inst(id) !in live
  }

  // Both sweeps together delete exactly what is doomed.
  lemma TwoSweeps(objects: Objects, funcs: seq<Function>, before: Code, code: Code, gone: set<Id>, safe: set<string>,
      live: set<Value>, dead: map<Block, set<Id>>, b: Block)
    requires Program(objects, funcs, before) && Swept(objects, before, code, gone)
    requires LiveExactly(objects, live, AllRoots(safe, code, funcs)) && DeadUnpinned(safe, code, dead, b) && b in before
    ensures Keep(Get(code, b), Unlive(DeadAt(dead, b), live)) == Keep(before[b], Doomed(objects, safe, live))
  {
    var un := Unlive(DeadAt(dead, b), live);
    AllRootsKept(objects, funcs, before, code, gone, safe);
    KeepKeep(before[b], gone, un);
    forall i | i in before[b] ensures i.id in gone + un <==> i.id in Doomed(objects, safe, live) {
      assert i in Get(before, b);
      MadeSo(objects, funcs, before, b, i);
      SweptIff(objects, before, code, gone, b, i);
      if i.id in gone {
        GoneNotLive(objects, funcs, before, code, gone, AllRoots(safe, code, funcs), live, i.id);
      }
    }
    KeepSame(before[b], gone + un, Doomed(objects, safe, live));
  }

  // What an observer sees of any run is the same.
  ghost predicate KeepsBehaviour(safe: set<string>, code: Code, code': Code, gone: set<Id>)
  {
    forall w, c, n: nat {:trigger DeadCode.Run(w, safe, code, c, n)} ::
      Same(DeadCode.Run(w, safe, code, c, n), DeadCode.Run(w, safe, code', c, n), gone)
  }

  lemma DoomedKeepsBehaviour(objects: Objects, funcs: seq<Function>, code: Code, safe: set<string>, live: set<Value>)
    requires Program(objects, funcs, code) && LiveExactly(objects, live, AllRoots(safe, code, funcs))
    ensures KeepsBehaviour(safe, code, KeepAll(code, Doomed(objects, safe, live)), Doomed(objects, safe, live))
  {
    AllDoomedRemovable(objects, funcs, code, safe, live);
    forall w, c, n: nat ensures Same(DeadCode.Run(w, safe, code, c, n),
      DeadCode.Run(w, safe, KeepAll(code, Doomed(objects, safe, live)), c, n), Doomed(objects, safe, live)) {
      RemovalKeepsBehaviour(w, safe, code, c, Doomed(objects, safe, live), n);
    }
  }

  // No instruction left uses a deleted one.
  ghost predicate NoDangling(code: Code, gone: set<Id>)
  {
    forall b, i, v :: i in Get(code, b) && v in gone ==> !i.Uses(v)
  }

  lemma DoomedNoDangling(objects: Objects, funcs: seq<Function>, code: Code, safe: set<string>, live: set<Value>)
    requires Program(objects, funcs, code) && LiveExactly(objects, live, AllRoots(safe, code, funcs))
    ensures NoDangling(KeepAll(code, Doomed(objects, safe, live)), Doomed(objects, safe, live))
  {
    var gone := Doomed(objects, safe, live);
    AllDoomedRemovable(objects, funcs, code, safe, live);
    forall b, i, v | i in Get(KeepAll(code, gone), b) && v in gone ensures !i.Uses(v) {
      KeepIff(Get(code, b), gone, i);
      assert AllRemovable(safe, Get(code, b), gone);
      assert Removable(safe, i, gone);
    }
  }

  // ---- Marking function by function ----

  // The blocks in done have been marked; the others are as the first sweep left them.
  ghost predicate MarkedSoFar(safe: set<string>, code: Code, dead: map<Block, set<Id>>, done: set<Block>)
  {
    && (forall b {:trigger DeadUnpinned(safe, code, dead, b)} :: b in done ==> DeadUnpinned(safe, code, dead, b))
    && (forall b {:trigger DeadNonVoid(code, dead, b)} :: b in code.Keys - done ==> DeadNonVoid(code, dead, b))
  }

  lemma MarkedOneMore(objects: Objects, safe: set<string>, code: Code, dead: map<Block, set<Id>>,
      dead': map<Block, set<Id>>, done: set<Block>, bb: Block)
    requires MarkedSoFar(safe, code, dead, done) && bb in code && BlockWellMade(objects, Get(code, bb))
    requires DeadAt(dead', bb) == DeadAt(dead, bb) + SafeCalls(safe, Get(code, bb))
    requires forall b {:trigger DeadAt(dead', b)} :: b != bb ==> DeadAt(dead', b) == DeadAt(dead, b)
    ensures MarkedSoFar(safe, code, dead', done + {bb})
  {
    assert DeadUnpinned(safe, code, dead, bb) || DeadNonVoid(code, dead, bb);
    SafeCallsComplete(objects, safe, code, dead, dead', bb);
    forall b | b in done + {bb} ensures DeadUnpinned(safe, code, dead', b) {
      if b != bb {
        assert DeadUnpinned(safe, code, dead, b) && DeadAt(dead', b) == DeadAt(dead, b);
      }
    }
    forall b | b in code.Keys - (done + {bb}) ensures DeadNonVoid(code, dead', b) {
      assert DeadNonVoid(code, dead, b) && DeadAt(dead', b) == DeadAt(dead, b);
    }
  }

  // A block left by the first sweep consists of instructions of its function.
  lemma OwnBlock(objects: Objects, funcs: seq<Function>, before: Code, code: Code, gone: set<Id>, f: Function, b: Block)
    requires Program(objects, funcs, before) && Swept(objects, before, code, gone) && f in funcs && b in f.blocks
    ensures b in code && BlockWellMade(objects, code[b])
    ensures forall i {:trigger i in code[b]} :: i in code[b] ==> i.id in Own(before, f)
  {
    assert FunctionWellMade(objects, before, f);
    forall i | i in Get(code, b) ensures WellMade(objects, i) && i.id in Own(before, f) {
      SweptIff(objects, before, code, gone, b, i);
      MadeSo(objects, funcs, before, b, i);
    }
  }

  lemma AllBlocksIn(objects: Objects, funcs: seq<Function>, code: Code, done: set<Block>)
    requires Program(objects, funcs, code) && forall f {:trigger BlocksIn(f, done)} :: f in funcs ==> BlocksIn(f, done)
    ensures code.Keys <= done
  {
    forall b | b in code ensures b in done {
      var f :| f in funcs && b in f.blocks;
      assert BlocksIn(f, done);
    }
  }

  lemma BlocksPresent(objects: Objects, funcs: seq<Function>, before: Code, code: Code)
    requires Program(objects, funcs, before) && code.Keys == before.Keys
    ensures forall f, b :: f in funcs && b in f.blocks ==> b in code
  {
    forall f, b | f in funcs && b in f.blocks ensures b in code {
      assert FunctionWellMade(objects, before, f);
    }
  }

  lemma RootsUpToAll(safe: set<string>, code: Code, f: Function)
    ensures RootsUpTo(safe, code, f, |f.blocks|) == Roots(safe, code, f)
  {
    assert f.blocks[..|f.blocks|] == f.blocks;
  }

  ghost function RootsUpTo(safe: set<string>, code: Code, f: Function, k: nat): set<Id>
    requires k <= |f.blocks|
  {
    set b, i | b in f.blocks[..k] && i in Get(code, b) && Root(safe, f.params, i) :: i.id
  }

  lemma RootsUpToNext(safe: set<string>, code: Code, f: Function, k: nat)
    requires k < |f.blocks|
    ensures RootsUpTo(safe, code, f, k + 1) == RootsUpTo(safe, code, f, k) +
      RootsIn(safe, f.params, Get(code, f.blocks[k]))
  {
    assert f.blocks[..k + 1] == f.blocks[..k] + [f.blocks[k]];
  }

  lemma AllRootsNext(safe: set<string>, code: Code, funcs: seq<Function>, k: nat)
    requires k < |funcs|
    ensures AllRoots(safe, code, funcs[..k + 1]) == AllRoots(safe, code, funcs[..k]) + Roots(safe, code, funcs[k])
  {
    assert funcs[..k + 1] == funcs[..k] + [funcs[k]];
  }

  // ---- The second sweep, block by block ----

  ghost predicate Finished(code: Code, code': Code, dead: map<Block, set<Id>>, live: set<Value>, b: Block)
  {
    Get(code', b) == Keep(Get(code, b), Unlive(DeadAt(dead, b), live))
  }

  // The blocks in done have been swept; the others are untouched.
  ghost predicate FinishedSoFar(code: Code, code': Code, dead: map<Block, set<Id>>, live: set<Value>, done: set<Block>)
  {
    && code'.Keys == code.Keys
    && (forall b {:trigger Finished(code, code', dead, live, b)} :: b in done ==> Finished(code, code', dead, live, b))
    && (forall b {:trigger Get(code', b)} :: b !in done ==> Get(code', b) == Get(code, b))
  }

  lemma FinishedOneMore(code: Code, code': Code, dead: map<Block, set<Id>>, live: set<Value>, done: set<Block>,
      bb: Block)
    requires FinishedSoFar(code, code', dead, live, done) && bb in code'
    ensures FinishedSoFar(code, code'[bb := Keep(code'[bb], Unlive(DeadAt(dead, bb), live))], dead, live, done + {bb})
  {
    var un := Unlive(DeadAt(dead, bb), live);
    var code'' := code'[bb := Keep(code'[bb], un)];
    if bb in done {
      assert Finished(code, code', dead, live, bb);
      KeepKeep(Get(code, bb), un, un);
      assert un + un == un;
    }
    forall b | b !in done + {bb} ensures Get(code'', b) == Get(code, b) {
      assert Get(code', b) == Get(code, b);
    }
    forall b | b in done + {bb} ensures Finished(code, code'', dead, live, b) {
      assert b in done ==> Finished(code, code', dead, live, b);
      assert b !in done ==> Get(code', b) == Get(code, b);
    }
  }

  // When every block has been swept, exactly the doomed instructions are gone.
  lemma FinishedAll(objects: Objects, funcs: seq<Function>, before: Code, code: Code, gone: set<Id>, code': Code,
      safe: set<string>, live: set<Value>, dead: map<Block, set<Id>>, done: set<Block>)
    requires Program(objects, funcs, before) && Swept(objects, before, code, gone)
    requires LiveExactly(objects, live, AllRoots(safe, code, funcs)) && MarkedSoFar(safe, code, dead, code.Keys)
    requires FinishedSoFar(code, code', dead, live, done) && code.Keys <= done
    ensures code' == KeepAll(before, Doomed(objects, safe, live))
  {
    forall b | b in before ensures code'[b] == Keep(before[b], Doomed(objects, safe, live)) {
      assert b in code && Finished(code, code', dead, live, b) && DeadUnpinned(safe, code, dead, b);
      TwoSweeps(objects, funcs, before, code, gone, safe, live, dead, b);
    }
  }
}
