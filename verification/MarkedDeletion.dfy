// Deletion of marked dead code, as the pass does it: one sweep over unused instructions, marking
// from the instructions with effects, and a second sweep over everything unmarked.
module MarkedDeletion {
  import opened Graph
  import opened DeadCode
  import opened Marking
  import opened Sweeping
  import opened SafeFunctions

  // What is left after both sweeps.
  lemma PassDone(objects: Objects, funcs: seq<Function>, before: Code, safe: set<string>, live: set<Value>)
    requires Program(objects, funcs, before) && LiveExactly(objects, live, AllRoots(safe, before, funcs))
    ensures var gone := Doomed(objects, safe, live);
      && NoDangling(KeepAll(before, gone), gone) && KeepsBehaviour(safe, before, KeepAll(before, gone), gone)
      && LeavesNeeded(objects, funcs, before, safe, KeepAll(before, gone))
    ensures forall v :: v in live <==> NeededFrom(objects, AllRoots(safe, before, funcs), v)
  {
    DoomedKeepsBehaviour(objects, funcs, before, safe, live);
    DoomedNoDangling(objects, funcs, before, safe, live);
    forall b, i ensures i in Get(KeepAll(before, Doomed(objects, safe, live)), b) <==>
      i in Get(before, b) && Stays(objects, funcs, before, safe, i) {
      StaysIff(objects, funcs, before, safe, live, b, i);
    }
    forall v ensures v in live <==> NeededFrom(objects, AllRoots(safe, before, funcs), v) {
      LiveIff(objects, live, AllRoots(safe, before, funcs), v);
    }
  }

  class MarkedCodeDeletionPass {
    const objects: Objects
    const funcs: seq<Function>
    var code: Code
    var deadInstr: map<Block, set<Id>>
    var liveInstr: set<Value>
    var safeFunc: set<string>
    var args: set<nat>

    constructor (objects: Objects, funcs: seq<Function>, code: Code)
      ensures this.objects == objects && this.funcs == funcs && this.code == code
      ensures deadInstr == map[] && liveInstr == {} && safeFunc == {}
    {
      this.objects, this.funcs, this.code := objects, funcs, code;
      deadInstr, liveInstr, safeFunc, args := map[], {}, {}, {};
    }

    // Mark everything the instruction id depends on.
    method FindAllDep(id: Id, ghost own: set<Id>)
      requires Owns(objects, own, args) && id in own && ClosedUpTo(objects, liveInstr, [])
      modifies this`liveInstr
      ensures ClosedUpTo(objects, liveInstr, [])
      ensures AddedNeeds(objects, old(liveInstr), id, liveInstr)
    {
      MarksStart(objects, own, args, id, liveInstr);
      liveInstr := liveInstr + {Inst(id)};
      var wait := Queue([], {}, objects[id].ops);
      while wait != []
        invariant Marks(objects, own, args, Inst(id), old(liveInstr), liveInstr, wait)
        decreases Unmarked(own, liveInstr), Again(liveInstr, wait), Others(wait)
      {
        assert wait[|wait| - 1] in wait;
        MarksNext(objects, own, args, Inst(id), old(liveInstr), liveInstr, wait);
        RoundProgress(objects, own, liveInstr, args, wait);
        var check := wait[|wait| - 1];
        wait := wait[..|wait| - 1];
        liveInstr := liveInstr + {check};
        wait := Queue(wait, liveInstr, Operands(objects, check));
      }
      forall v ensures v in liveInstr <==> v in old(liveInstr) || Needs(objects, Inst(id), v) {
        MarksDone(objects, own, args, Inst(id), old(liveInstr), liveInstr, v);
      }
    }

    // Push the operands that are to be looked at.
    method Queue(wait: seq<Value>, live: set<Value>, ops: seq<Value>) returns (r: seq<Value>)
      ensures r == wait + Filter(live, args, ops)
    {
      r := wait;
      for k := 0 to |ops|
        invariant r == wait + Filter(live, args, ops[..k])
      {
        assert ops[..k + 1][..k] == ops[..k];
        if Queued(live, args, ops[k]) {
          r := r + [ops[k]];
        }
      }
      assert ops[..|ops|] == ops;
    }

    // The values that must stay are marked, and exactly those.
    ghost predicate Marked(from: set<Id>)
      reads this`liveInstr
    {
      LiveExactly(objects, liveInstr, from)
    }

    // Take an instruction out of its block.
    method DeleteInstr(bb: Block, id: Id)
      requires bb in code
      modifies this`code
      ensures code == old(code)[bb := Keep(old(code)[bb], {id})]
    {
      code := code[bb := Keep(code[bb], {id})];
    }

    // Find the unused instructions of a block; all others with a result may turn out dead later.
    method CollectUnused(bb: Block) returns (waitDelete: seq<Id>)
      requires bb in code && BlockWellMade(objects, code[bb]) && DeadTyped(objects, deadInstr)
      modifies this`deadInstr
      ensures Ids(waitDelete) == UselessIn(code, code[bb])
      ensures deadInstr == old(deadInstr)[bb := DeadAt(old(deadInstr), bb) + RememberedIn(code, code[bb])]
      ensures DeadTyped(objects, deadInstr)
    {
      var dead := if bb in deadInstr then deadInstr[bb] else {};
      assert dead == DeadAt(deadInstr, bb);
      waitDelete := [];
      var s := code[bb];
      for k := 0 to |s|
        invariant deadInstr == old(deadInstr) && dead == DeadAt(deadInstr, bb) + RememberedIn(code, s[..k])
        invariant Ids(waitDelete) == UselessIn(code, s[..k])
      {
        var i := s[k];
        CollectNext(code, s, k);
        if !Vital(i) && Unused(code, i.id) {
          waitDelete := waitDelete + [i.id];
          assert Ids(waitDelete) == UselessIn(code, s[..k]) + {i.id};
        } else if !i.Void() {
          dead := dead + {i.id};
        }
      }
      assert s[..|s|] == s;
      RememberedTyped(objects, code, s, deadInstr, bb);
      deadInstr := deadInstr[bb := dead];
    }

    method DeleteAll(bb: Block, waitDelete: seq<Id>)
      requires bb in code
      modifies this`code
      ensures code == old(code)[bb := Keep(old(code)[bb], Ids(waitDelete))]
    {
      KeepNothing(code[bb]);
      assert Ids(waitDelete[..0]) == {};
      for k := 0 to |waitDelete|
        invariant bb in code && code[bb] == Keep(old(code)[bb], Ids(waitDelete[..k]))
        invariant code == old(code)[bb := code[bb]]
      {
        KeepKeep(old(code)[bb], Ids(waitDelete[..k]), {waitDelete[k]});
        IdsNext(waitDelete, k);
        DeleteInstr(bb, waitDelete[k]);
      }
      assert waitDelete[..|waitDelete|] == waitDelete;
    }

    // The unused instructions of a block go; the others with a result are remembered.
    method DeleteUnused(bb: Block, ghost before: Code, ghost gone: set<Id>) returns (ghost gone': set<Id>)
      requires Program(objects, funcs, before) && Swept(objects, before, code, gone) && bb in code
      requires DeadTyped(objects, deadInstr)
      modifies this`code, this`deadInstr
      ensures code == SweepBlock(old(code), bb) && Swept(objects, before, code, gone')
      ensures DeadTyped(objects, deadInstr) && DeadNonVoid(code, deadInstr, bb)
      ensures OthersNonVoid(old(code), old(deadInstr), code, deadInstr, bb)
    {
      ghost var code0 := code;
      forall i | i in Get(code, bb) ensures WellMade(objects, i) {
        SweptIff(objects, before, code, gone, bb, i);
        MadeSo(objects, funcs, before, bb, i);
      }
      var waitDelete := CollectUnused(bb);
      gone' := gone + Ids(waitDelete);
      UselessDeletable(objects, code, bb);
      SweptBlock(objects, funcs, before, code, gone, bb, Ids(waitDelete));
      DeleteAll(bb, waitDelete);
      RememberedNonVoid(objects, code0, old(deadInstr), bb);
      forall b | b != bb && DeadNonVoid(code0, old(deadInstr), b) ensures DeadNonVoid(code, deadInstr, b) {
        assert DeadAt(deadInstr, b) == DeadAt(old(deadInstr), b) && Get(code, b) == Get(code0, b);
      }
    }

    method SweepFunction(f: Function, ghost before: Code, ghost gone: set<Id>, ghost done: set<Block>)
        returns (ghost gone': set<Id>, ghost done': set<Block>)
      requires Program(objects, funcs, before) && Swept(objects, before, code, gone) && f in funcs
      requires DeadTyped(objects, deadInstr) && AllNonVoid(code, deadInstr, done)
      modifies this`code, this`deadInstr
      ensures code == SweepBlocks(old(code), f.blocks) && Swept(objects, before, code, gone')
      ensures DeadTyped(objects, deadInstr) && AllNonVoid(code, deadInstr, done') && done <= done' && BlocksIn(f, done')
    {
      gone', done' := gone, done;
      assert FunctionWellMade(objects, before, f);
      for k := 0 to |f.blocks|
        invariant code == SweepBlocks(old(code), f.blocks[..k])
        invariant Swept(objects, before, code, gone') && DeadTyped(objects, deadInstr)
        invariant AllNonVoid(code, deadInstr, done') && done <= done'
        invariant forall j {:trigger f.blocks[j]} :: 0 <= j < k ==> f.blocks[j] in done'
      {
        assert f.blocks[k] in f.blocks;
        SweepNext(old(code), f.blocks, k);
        ghost var code0, dead0 := code, deadInstr;
        gone' := DeleteUnused(f.blocks[k], before, gone');
        NonVoidNext(code0, dead0, code, deadInstr, done', f.blocks[k]);
        done' := done' + {f.blocks[k]};
      }
      assert f.blocks[..|f.blocks|] == f.blocks;
    }

    // The first sweep, over all functions.
    method DeleteNoUseInst() returns (ghost gone: set<Id>)
      requires Program(objects, funcs, code) && deadInstr == map[]
      modifies this`code, this`deadInstr
      ensures code == SweepFunctions(old(code), funcs) && Swept(objects, old(code), code, gone)
      ensures AllNonVoid(code, deadInstr, code.Keys)
    {
      ghost var before := code;
      ghost var done: set<Block> := {};
      gone := {};
      SweptNothing(objects, code);
      for f := 0 to |funcs|
        invariant code == SweepFunctions(before, funcs[..f])
        invariant Swept(objects, before, code, gone) && DeadTyped(objects, deadInstr)
        invariant AllNonVoid(code, deadInstr, done)
        invariant forall g {:trigger funcs[g]} :: 0 <= g < f ==> BlocksIn(funcs[g], done)
      {
        assert funcs[..f + 1][..f] == funcs[..f];
        gone, done := SweepFunction(funcs[f], before, gone, done);
      }
      assert funcs[..|funcs|] == funcs;
      forall b | b in code ensures b in done {
        assert b in before;
        var f :| f in funcs && b in f.blocks;
      }
    }

    // Find the functions without calls and stores. Whatever they do, only their result can be noticed.
    method MarkSafeFunc()
      modifies this`safeFunc
      ensures safeFunc == SafeNames(code, funcs)
      ensures {"main", "output", "outputFloat", "neg_idx_except", "input"} !! safeFunc
      ensures forall f :: f in funcs && Harmless(code, f) ==>
        f.name in safeFunc + {"main", "output", "outputFloat", "neg_idx_except", "input"}
      ensures forall name :: name in safeFunc ==> HarmlessOne(code, funcs, name)
      ensures AllUnnoticed(code, funcs, safeFunc)
    {
      safeFunc := {};
      for f := 0 to |funcs|
        invariant safeFunc == SafeNames(code, funcs[..f])
      {
        var safe := true;
        var blocks := funcs[f].blocks;
        for k := 0 to |blocks|
          invariant safe <==> forall j {:trigger blocks[j]} :: 0 <= j < k ==> Quiet(Get(code, blocks[j]))
        {
          if !Quiet(Get(code, blocks[k])) {
            safe := false;
          }
        }
        if funcs[f].name == "main" || funcs[f].name in UNSAFE_NAMES {
          safe := false;
        }
        assert safe <==> SafeFunction(code, funcs[f]);
        assert funcs[..f + 1] == funcs[..f] + [funcs[f]];
        if safe {
          safeFunc := safeFunc + {funcs[f].name};
        }
        assert safeFunc == SafeNames(code, funcs[..f + 1]);
      }
      assert funcs[..|funcs|] == funcs;
      SafeNamesIff(code, funcs);
    }

    // One instruction: a safe call may be deleted; one with an effect keeps all it depends on.
    method MarkInstr(bb: Block, i: Instr, ghost own: set<Id>, ghost from: set<Id>)
      requires Owns(objects, own, args) && i.id in own && WellMade(objects, i) && Marked(from)
      modifies this`liveInstr, this`deadInstr
      ensures Marked(if Root(safeFunc, args, i) then from + {i.id} else from)
      ensures DeadAt(deadInstr, bb) == DeadAt(old(deadInstr), bb) + SafeCalls(safeFunc, [i])
      ensures forall b {:trigger DeadAt(deadInstr, b)} :: b != bb ==> DeadAt(deadInstr, b) == DeadAt(old(deadInstr), b)
    {
      if i.kind.Call? && i.Calls(safeFunc) {
        var dead := if bb in deadInstr then deadInstr[bb] else {};
        deadInstr := deadInstr[bb := dead + {i.id}];
      } else if i.kind.Call? || (i.kind.Ret? && |i.ops| != 0 && !(i.ops[0].Arg? && i.ops[0].i in args)) ||
        i.kind.CondBr? || i.kind.Store? {
        ghost var live := liveInstr;
        FindAllDep(i.id, own);
        LiveAdd(objects, live, from, i.id, liveInstr);
      }
    }

    method MarkBlock(bb: Block, ghost own: set<Id>, ghost from: set<Id>)
      requires bb in code && BlockWellMade(objects, code[bb]) && Owns(objects, own, args) && Marked(from)
      requires forall i {:trigger i in code[bb]} :: i in code[bb] ==> i.id in own
      modifies this`liveInstr, this`deadInstr
      ensures Marked(from + RootsIn(safeFunc, args, code[bb]))
      ensures DeadAt(deadInstr, bb) == DeadAt(old(deadInstr), bb) + SafeCalls(safeFunc, code[bb])
      ensures forall b {:trigger DeadAt(deadInstr, b)} :: b != bb ==> DeadAt(deadInstr, b) == DeadAt(old(deadInstr), b)
    {
      var s := code[bb];
      assert from + RootsIn(safeFunc, args, s[..0]) == from;
      for k := 0 to |s|
        invariant Marked(from + RootsIn(safeFunc, args, s[..k]))
        invariant DeadAt(deadInstr, bb) == DeadAt(old(deadInstr), bb) + SafeCalls(safeFunc, s[..k])
        invariant forall b {:trigger DeadAt(deadInstr, b)} :: b != bb ==>
          DeadAt(deadInstr, b) == DeadAt(old(deadInstr), b)
      {
        assert s[k] in code[bb] && WellMade(objects, s[k]);
        MarkInstr(bb, s[k], own, from + RootsIn(safeFunc, args, s[..k]));
        RootsNext(safeFunc, args, s, k);
        RootsStep(safeFunc, args, s, k, from);
      }
      assert s[..|s|] == s;
    }

    // Mark all instructions of f that have an effect.
    method MarkUseInstr(f: Function, ghost before: Code, ghost gone: set<Id>, ghost from: set<Id>,
        ghost done: set<Block>) returns (ghost done': set<Block>)
      requires Program(objects, funcs, before) && Swept(objects, before, code, gone) && f in funcs
      requires Marked(from) && MarkedSoFar(safeFunc, code, deadInstr, done)
      modifies this`args, this`liveInstr, this`deadInstr
      ensures Marked(from + Roots(safeFunc, code, f)) && MarkedSoFar(safeFunc, code, deadInstr, done')
      ensures done <= done' && BlocksIn(f, done')
    {
      args := f.params;
      done' := done;
      assert FunctionWellMade(objects, before, f);
      assert from + RootsUpTo(safeFunc, code, f, 0) == from;
      for k := 0 to |f.blocks|
        invariant Marked(from + RootsUpTo(safeFunc, code, f, k)) && MarkedSoFar(safeFunc, code, deadInstr, done')
        invariant done <= done' && args == f.params
        invariant forall j {:trigger f.blocks[j]} :: 0 <= j < k ==> f.blocks[j] in done'
      {
        var bb := f.blocks[k];
        OwnBlock(objects, funcs, before, code, gone, f, bb);
        ghost var dead := deadInstr;
        MarkBlock(bb, Own(before, f), from + RootsUpTo(safeFunc, code, f, k));
        MarkedOneMore(objects, safeFunc, code, dead, deadInstr, done', bb);
        done' := done' + {bb};
        RootsUpToNext(safeFunc, code, f, k);
        assert from + RootsUpTo(safeFunc, code, f, k + 1) == from + RootsUpTo(safeFunc, code, f, k) +
          RootsIn(safeFunc, args, code[bb]);
      }
      RootsUpToAll(safeFunc, code, f);
    }

    method MarkAll(ghost before: Code, ghost gone: set<Id>)
      requires Program(objects, funcs, before) && Swept(objects, before, code, gone)
      requires liveInstr == {} && AllNonVoid(code, deadInstr, code.Keys)
      modifies this`args, this`liveInstr, this`deadInstr
      ensures Marked(AllRoots(safeFunc, code, funcs)) && MarkedSoFar(safeFunc, code, deadInstr, code.Keys)
    {
      ghost var done: set<Block> := {};
      assert AllRoots(safeFunc, code, funcs[..0]) == {};
      for k := 0 to |funcs|
        invariant Marked(AllRoots(safeFunc, code, funcs[..k])) && MarkedSoFar(safeFunc, code, deadInstr, done)
        invariant forall g {:trigger funcs[g]} :: 0 <= g < k ==> BlocksIn(funcs[g], done)
      {
        done := MarkUseInstr(funcs[k], before, gone, AllRoots(safeFunc, code, funcs[..k]), done);
        AllRootsNext(safeFunc, code, funcs, k);
      }
      assert funcs[..|funcs|] == funcs;
      AllBlocksIn(objects, funcs, before, done);
    }

    // Delete from a block what may be deleted and is not marked.
    method DeleteUnmarked(bb: Block)
      requires bb in code
      modifies this`code
      ensures code == old(code)[bb := Keep(old(code)[bb], Unlive(DeadAt(deadInstr, bb), liveInstr))]
    {
      KeepNothing(code[bb]);
      var dead := if bb in deadInstr then deadInstr[bb] else {};
      var todo := dead;
      assert Unlive(dead - todo, liveInstr) == {};
      while todo != {}
        invariant todo <= dead && bb in code && code == old(code)[bb := code[bb]]
        invariant code[bb] == Keep(old(code)[bb], Unlive(dead - todo, liveInstr))
      {
        var id :| id in todo;
        ghost var un := Unlive(dead - todo, liveInstr);
        todo := todo - {id};
        assert Unlive(dead - todo, liveInstr) == if Inst(id) in liveInstr then un else un + {id};
        KeepKeep(old(code)[bb], un, {id});
        if Inst(id) !in liveInstr {
          DeleteInstr(bb, id);
        }
      }
      assert dead - todo == dead;
    }

    method DeleteAllUnmarked()
      requires forall f, b :: f in funcs && b in f.blocks ==> b in code
      modifies this`code
      ensures exists done ::
        FinishedSoFar(old(code), code, deadInstr, liveInstr, done) &&
        forall f {:trigger BlocksIn(f, done)} :: f in funcs ==> BlocksIn(f, done)
    {
      ghost var code0 := code;
      ghost var done: set<Block> := {};
      for f := 0 to |funcs|
        invariant FinishedSoFar(code0, code, deadInstr, liveInstr, done)
        invariant forall g {:trigger funcs[g]} :: 0 <= g < f ==> BlocksIn(funcs[g], done)
      {
        var blocks := funcs[f].blocks;
        ghost var done0 := done;
        for k := 0 to |blocks|
          invariant FinishedSoFar(code0, code, deadInstr, liveInstr, done) && done0 <= done
          invariant forall j {:trigger blocks[j]} :: 0 <= j < k ==> blocks[j] in done
        {
          assert blocks[k] in funcs[f].blocks;
          FinishedOneMore(code0, code, deadInstr, liveInstr, done, blocks[k]);
          DeleteUnmarked(blocks[k]);
          done := done + {blocks[k]};
        }
      }
    }

    // Sweep, mark, and sweep again.
    method SweepMarkSweep()
      requires Program(objects, funcs, code) && deadInstr == map[] && liveInstr == {}
      modifies this
      ensures safeFunc == SafeNames(old(code), funcs)
      ensures LiveExactly(objects, liveInstr, AllRoots(safeFunc, old(code), funcs))
      ensures code == KeepAll(old(code), Doomed(objects, safeFunc, liveInstr))
    {
      ghost var before := code;
      ghost var gone := DeleteNoUseInst();
      MarkSafeFunc();
      SafeNamesKept(objects, funcs, before, code, gone);
      MarkAll(before, gone);
      AllRootsKept(objects, funcs, before, code, gone, safeFunc);
      ghost var code1 := code;
      BlocksPresent(objects, funcs, before, code);
      DeleteAllUnmarked();
      ghost var done :| FinishedSoFar(code1, code, deadInstr, liveInstr, done) &&
        forall f {:trigger BlocksIn(f, done)} :: f in funcs ==> BlocksIn(f, done);
      AllBlocksIn(objects, funcs, before, done);
      FinishedAll(objects, funcs, before, code1, gone, code, safeFunc, liveInstr, deadInstr, done);
    }

    // The whole pass deletes exactly the instructions that have no effect and that no instruction
    // with an effect depends on. What is left behaves the same.
    method Run()
      requires Program(objects, funcs, code) && deadInstr == map[] && liveInstr == {}
      modifies this
      ensures safeFunc == SafeNames(old(code), funcs)
      ensures {"main", "output", "outputFloat", "neg_idx_except", "input"} !! safeFunc
      ensures AllUnnoticed(old(code), funcs, safeFunc)
      ensures LeavesNeeded(objects, funcs, old(code), safeFunc, code)
      ensures forall v :: v in liveInstr <==> NeededFrom(objects, AllRoots(safeFunc, old(code), funcs), v)
      ensures code == KeepAll(old(code), Doomed(objects, safeFunc, liveInstr))
      ensures NoDangling(code, Doomed(objects, safeFunc, liveInstr))
      ensures KeepsBehaviour(safeFunc, old(code), code, Doomed(objects, safeFunc, liveInstr))
    {
      ghost var before := code;
      SweepMarkSweep();
      SafeNamesIff(before, funcs);
      PassDone(objects, funcs, before, safeFunc, liveInstr);
    }
  }
}
