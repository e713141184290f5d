// The liveness pass: collection of uses and definitions, and sweeps in place until nothing changes.
module Liveness {
  import opened Graph
  import opened LiveFlow
  import opened LiveCode

  class ActiveVarsPass {
    const g: Cfg
    const code: Code
    const order: seq<Block>
    var defB: map<Block, set<Id>>
    var useB: map<Block, set<Id>>
    var phiUseB: map<Block, set<Id>>
    var phiOutB: map<Block, set<Id>>
    var liveIn: map<Block, set<Id>>
    var liveOut: map<Block, set<Id>>

    constructor (g: Cfg, code: Code, order: seq<Block>)
      ensures this.g == g && this.code == code && this.order == order
    {
      this.g, this.code, this.order := g, code, order;
      defB, useB, phiUseB, phiOutB, liveIn, liveOut := map[], map[], map[], map[], map[], map[];
    }

    function Flow(): Flow
      reads this`defB, this`useB, this`phiUseB, this`phiOutB
    {
      LiveFlow.Flow(g.blocks, g.succ, useB, defB, phiUseB, phiOutB)
    }

    // What reaches the end of bb from its successors, with nothing yet at its own start.
    method ComputeOut(bb: Block) returns (out: set<Id>)
      requires g.Valid() && bb in g.blocks && At(liveIn, bb) == {}
      ensures forall v {:trigger FlowsOut(Flow(), liveIn, bb, v)} :: v in out <==> FlowsOut(Flow(), liveIn, bb, v)
    {
      ghost var f := Flow();
      out := {};
      var succs := g.succ[bb];
      for k := 0 to |succs|
        invariant forall v {:trigger v in out} :: v in out <==>
          exists j {:trigger succs[j]} :: 0 <= j < k && EdgeLive(f, liveIn, bb, succs[j], v)
      {
        var add := PassingFrom(bb, succs[k]);
        forall v ensures v in add <==> EdgeLive(f, liveIn, bb, succs[k], v) {
        }
        out := out + add;
      }
      forall v ensures v in out <==> FlowsOut(f, liveIn, bb, v) {
        if s :| s != bb && f.Edge(bb, s) && v in At(liveIn, s) && f.Passes(bb, s, v) {
          assert s in succs;
          assert EdgeLive(f, liveIn, bb, s, v);
        }
      }
    }

    // The values live at the start of succ that the phi filter lets pass on the edge from bb.
    method PassingFrom(bb: Block, succ: Block) returns (add: set<Id>)
      ensures add == set v | v in At(liveIn, succ) && Flow().Passes(bb, succ, v)
    {
      add := {};
      var todo := At(liveIn, succ);
      while todo != {}
        invariant todo <= At(liveIn, succ)
        invariant add == set v | v in At(liveIn, succ) - todo && Flow().Passes(bb, succ, v)
      {
        var oper :| oper in todo;
        todo := todo - {oper};
        if !(oper in At(phiUseB, succ) && oper !in At(phiOutB, bb)) {
          add := add + {oper};
        }
      }
    }

    // One operand of an instruction, given the values seen before it in its block.
    method CollectOperand(bb: Block, instr: Instr, seen: set<Id>, i: nat, ghost before: map<Block, set<Id>>)
      requires g.Valid() && bb in g.blocks && bb in useB && bb in phiUseB && before.Keys == g.blocks
      requires i < |instr.ops| && (instr.kind.Phi? ==> Paired([instr]))
      requires PhiOutGrew(g, before, phiOutB, bb, instr, seen, i)
      modifies this`useB, this`phiUseB, this`phiOutB
      ensures PhiOutGrew(g, before, phiOutB, bb, instr, seen, i + 1)
      ensures
        var used := if instr.ops[i].Var? && instr.ops[i].id !in seen then {instr.ops[i].id} else {};
        && useB == old(useB)[bb := old(useB[bb]) + used]
        && phiUseB == old(phiUseB)[bb := if instr.kind.Phi? then old(phiUseB[bb]) + used else old(phiUseB[bb]) - used]
    {
      ghost var from := ReadsFrom(g, bb, instr, seen, i);
      if from.Some? {
        PhiOutAdds(g, before, phiOutB, bb, instr, seen, i, from.value);
      } else {
        PhiOutSame(g, before, phiOutB, bb, instr, seen, i);
      }
      if instr.ops[i].Var? && instr.ops[i].id !in seen {
        var oper := instr.ops[i].id;
        useB := useB[bb := useB[bb] + {oper}];
        if instr.kind.Phi? {
          assert [instr][0].ops[i].Var?;
          phiUseB := phiUseB[bb := phiUseB[bb] + {oper}];
          var oriBB := instr.ops[i + 1].b;
          if oriBB in g.pred[bb] {
            phiOutB := phiOutB[oriBB := phiOutB[oriBB] + {oper}];
          }
        } else if oper in phiUseB[bb] {
          phiUseB := phiUseB[bb := phiUseB[bb] - {oper}];
        } else {
          assert phiUseB[bb] - {oper} == phiUseB[bb];
        }
      } else {
        assert useB[bb] + {} == useB[bb] && phiUseB[bb] + {} == phiUseB[bb] && phiUseB[bb] - {} == phiUseB[bb];
      }
    }

    // All operands of one instruction.
    method CollectOperands(bb: Block, instr: Instr, seen: set<Id>)
      requires g.Valid() && bb in g.blocks && bb in useB && bb in phiUseB && phiOutB.Keys == g.blocks
      requires instr.kind.Phi? ==> Paired([instr])
      modifies this`useB, this`phiUseB, this`phiOutB
      ensures useB == old(useB)[bb := old(useB[bb]) + OpsUse(instr.ops, seen)]
      ensures phiUseB == old(phiUseB)[bb := if instr.kind.Phi? then old(phiUseB[bb]) + OpsUse(instr.ops, seen)
        else old(phiUseB[bb]) - OpsUse(instr.ops, seen)]
      ensures PhiOutGrew(g, old(phiOutB), phiOutB, bb, instr, seen, |instr.ops|)
    {
      var ops := instr.ops;
      ghost var before := phiOutB;
      for i := 0 to |ops|
        invariant bb in useB && useB == old(useB)[bb := useB[bb]] && useB[bb] == old(useB[bb]) + OpsUse(ops[..i], seen)
        invariant bb in phiUseB && phiUseB == old(phiUseB)[bb := phiUseB[bb]]
        invariant phiUseB[bb] == if instr.kind.Phi? then old(phiUseB[bb]) + OpsUse(ops[..i], seen)
          else old(phiUseB[bb]) - OpsUse(ops[..i], seen)
        invariant PhiOutGrew(g, before, phiOutB, bb, instr, seen, i)
      {
        OpsUseNext(ops, seen, i);
        CollectOperand(bb, instr, seen, i, before);
      }
      assert ops[..|ops|] == ops;
    }

    // Instruction k of a block, after those before it.
    method CollectInstr(bb: Block, s: seq<Instr>, k: nat, tmpDef0: set<Id>) returns (tmpDef: set<Id>)
      requires g.Valid() && bb in g.blocks && k < |s| && phiOutB.Keys == g.blocks && tmpDef0 == Ids(s[..k])
      requires s[k].kind.Phi? ==> Paired([s[k]])
      requires bb in useB && useB[bb] == Use(s[..k]) && bb in phiUseB && phiUseB[bb] == PhiUse(s[..k]) && bb in defB &&
        defB[bb] == Defs(s[..k])
      modifies this`useB, this`phiUseB, this`defB, this`phiOutB
      ensures tmpDef == Ids(s[..k + 1]) && PhiOutGrew(g, old(phiOutB), phiOutB, bb, s[k], Ids(s[..k]), |s[k].ops|)
      ensures useB == old(useB)[bb := Use(s[..k + 1])] && phiUseB == old(phiUseB)[bb := PhiUse(s[..k + 1])]
      ensures defB == old(defB)[bb := Defs(s[..k + 1])]
      ensures defB[bb] == old(defB[bb]) +
        (if s[k].kind in {Phi, Binary, Load, Call, Gep, Alloca} then {s[k].id} else {})
    {
      CollectNext(s, k);
      CollectOperands(bb, s[k], tmpDef0);
      if Defines(s[k]) {
        defB := defB[bb := defB[bb] + {s[k].id}];
      }
      assert Defs(s[..k]) + {} == Defs(s[..k]) && defB == old(defB)[bb := defB[bb]];
      tmpDef := tmpDef0 + {s[k].id};
    }

    // All instructions of one block.
    method CollectBlock(bb: Block)
      requires g.Valid() && bb in g.blocks && Paired(Get(code, bb))
      requires bb in useB && bb in phiUseB && bb in defB && useB[bb] == {} && phiUseB[bb] == {} && defB[bb] == {}
      requires phiOutB.Keys == g.blocks
      modifies this`useB, this`phiUseB, this`defB, this`phiOutB
      ensures useB == old(useB)[bb := Use(Get(code, bb))] && phiUseB == old(phiUseB)[bb := PhiUse(Get(code, bb))]
      ensures defB == old(defB)[bb := Defs(Get(code, bb))] && PhiOutBlock(g, old(phiOutB), phiOutB, bb, Get(code, bb))
    {
      var s := Get(code, bb);
      var tmpDef: set<Id> := {};
      for k := 0 to |s|
        invariant tmpDef == Ids(s[..k])
        invariant bb in useB && useB == old(useB)[bb := useB[bb]] && useB[bb] == Use(s[..k])
        invariant bb in phiUseB && phiUseB == old(phiUseB)[bb := phiUseB[bb]] && phiUseB[bb] == PhiUse(s[..k])
        invariant bb in defB && defB == old(defB)[bb := defB[bb]] && defB[bb] == Defs(s[..k])
        invariant phiOutB.Keys == g.blocks && PhiOutBlock(g, old(phiOutB), phiOutB, bb, s[..k])
      {
        ghost var mid := phiOutB;
        PairedOne(s, k);
        tmpDef := CollectInstr(bb, s, k, tmpDef);
        PhiOutInstr(g, old(phiOutB), mid, phiOutB, bb, s, k);
      }
      assert s[..|s|] == s;
    }

    lemma PairedOne(s: seq<Instr>, k: nat)
      requires Paired(s) && k < |s|
      ensures Paired([s[k]])
    {
      forall i | s[k].kind.Phi? && 0 <= i < |s[k].ops| && s[k].ops[i].Var? ensures i + 1 < |s[k].ops| &&
        s[k].ops[i + 1].Label? {
      }
    }

    // The blocks in done have been collected.
    ghost predicate Collected(done: set<Block>)
      requires g.Valid()
      reads this`useB, this`phiUseB, this`defB, this`phiOutB
    {
      BlocksDone(g, code, useB, phiUseB, defB, done) && PhiOutDone(g, code, phiOutB, done)
    }

    method CollectNextBlock(bb: Block, ghost done: set<Block>)
      requires g.Valid() && bb in g.blocks && bb !in done && Paired(Get(code, bb)) && Collected(done)
      modifies this`useB, this`phiUseB, this`defB, this`phiOutB
      ensures Collected(done + {bb})
    {
      NotDoneYet(g, code, useB, phiUseB, defB, done, bb);
      ghost var use, phiUse, def, phiOut := useB, phiUseB, defB, phiOutB;
      CollectBlock(bb);
      OneMoreDone(g, code, use, phiUse, def, done, bb);
      PhiOutDoneNext(g, code, phiOut, phiOutB, done, bb);
    }

    method CollectAll()
      requires Ordered(g, code, order)
      modifies this`useB, this`phiUseB, this`defB, this`phiOutB
      ensures Flow() == FlowOf(g, code)
    {
      useB, phiUseB := map b | b in g.blocks :: {}, map b | b in g.blocks :: {};
      defB, phiOutB := map b | b in g.blocks :: {}, map b | b in g.blocks :: {};
      NothingDone(g, code);
      for k := 0 to |order|
        invariant Collected(Listed(order[..k]))
      {
        NotBefore(g, code, order, k);
        assert Paired(Get(code, order[k]));
        CollectNextBlock(order[k], Listed(order[..k]));
      }
      assert order[..|order|] == order;
      AllDone(g, code, useB, phiUseB, defB, phiOutB, Listed(order));
    }

    ghost predicate Sweeping()
      reads this
    {
      Flow().Valid() && g.Valid() && liveIn.Keys == g.blocks && Sound(Flow(), liveIn) && Growing(Flow(), liveIn)
    }

    // Compute both sets of one block again.
    method Recompute(bb: Block) returns (change: bool)
      requires Sweeping() && bb in g.blocks
      modifies this`liveIn, this`liveOut
      ensures Sweeping()
      ensures change ==> Missing(Flow(), liveIn) < Missing(Flow(), old(liveIn))
      ensures !change ==> liveIn == old(liveIn) && Stable(Flow(), liveIn, bb) && OutExact(Flow(), liveIn, liveOut, bb)
      ensures forall b {:trigger At(liveOut, b)} :: b != bb ==> At(liveOut, b) == At(old(liveOut), b)
    {
      ghost var f := Flow();
      ghost var before := liveIn;
      var tmpIn := liveIn[bb];
      liveIn := liveIn[bb := {}];
      var out := ComputeOut(bb);
      assert f == Flow() && liveIn == before[bb := {}];
      forall v ensures v in out <==> FlowsOut(f, before, bb, v) {
        ClearedSame(f, before, bb, v);
        assert v in out <==> FlowsOut(f, liveIn, bb, v);
      }
      liveOut := liveOut[bb := out];
      var now := At(useB, bb) + (out - At(defB, bb));
      SweepKeeps(f, before, bb, now);
      MissingShrinks(f, before, bb, now);
      liveIn := liveIn[bb := now];
      assert liveIn == before[bb := now];
      change := now != tmpIn;
    }

    // The sets of these blocks would not change, and their ends are up to date.
    ghost predicate Settled(b: Block)
      reads this
    {
      Stable(Flow(), liveIn, b) && OutExact(Flow(), liveIn, liveOut, b)
    }

    // One sweep over all blocks, each block seeing what the sweep has already changed.
    method Sweep() returns (change: bool)
      requires Sweeping() && Ordered(g, code, order)
      modifies this`liveIn, this`liveOut
      ensures Sweeping()
      ensures change ==> Missing(Flow(), liveIn) < Missing(Flow(), old(liveIn))
      ensures !change ==> liveIn == old(liveIn) && forall b {:trigger Settled(b)} :: b in g.blocks ==> Settled(b)
    {
      change := false;
      for k := 0 to |order|
        invariant Sweeping() && Missing(Flow(), liveIn) <= Missing(Flow(), old(liveIn))
        invariant change ==> Missing(Flow(), liveIn) < Missing(Flow(), old(liveIn))
        invariant !change ==> liveIn == old(liveIn) && forall b {:trigger Settled(b)} :: b in order[..k] ==> Settled(b)
      {
        assert order[k] in order;
        ghost var f, liveIn0, liveOut0 := Flow(), liveIn, liveOut;
        forall b | !change && b in order[..k] ensures Stable(f, liveIn0, b) && OutExact(f, liveIn0, liveOut0, b) {
          assert Settled(b);
        }
        var changed := Recompute(order[k]);
        if changed {
          change := true;
        }
        assert order[..k + 1] == order[..k] + [order[k]];
        forall b | !change && b in order[..k + 1] ensures Settled(b) {
          if b != order[k] {
            assert At(liveOut, b) == At(liveOut0, b);
          }
        }
      }
      assert order[..|order|] == order;
    }

    // Sweep until nothing changes.
    method SweepAll()
      requires Sweeping() && Ordered(g, code, order)
      modifies this`liveIn, this`liveOut
      ensures Sweeping()
      ensures forall b {:trigger Settled(b)} :: b in g.blocks ==> Settled(b)
    {
      var change := true;
      while change
        invariant Sweeping()
        invariant !change ==> forall b {:trigger Settled(b)} :: b in g.blocks ==> Settled(b)
        decreases Missing(Flow(), liveIn), change
      {
        change := Sweep();
      }
    }

    lemma SettledExact()
      requires Sweeping() && forall b {:trigger Settled(b)} :: b in g.blocks ==> Settled(b)
      ensures LiveExactly(Flow(), liveIn) && Solves(Flow(), liveIn)
      ensures forall b, v {:trigger LeavesLiveElsewhere(Flow(), b, v)} :: b in g.blocks ==>
        (v in At(liveOut, b) <==> LeavesLiveElsewhere(Flow(), b, v))
    {
      forall b | b in g.blocks ensures Stable(Flow(), liveIn, b) {
        assert Settled(b);
      }
      StableExact(Flow(), liveIn);
      LiveSolves(Flow(), liveIn);
      forall b, v | b in g.blocks ensures v in At(liveOut, b) <==> LeavesLiveElsewhere(Flow(), b, v) {
        assert Settled(b);
        OutIff(Flow(), liveIn, liveOut, b, v);
      }
    }

    method StartSweeping()
      requires g.Valid() && Flow() == FlowOf(g, code)
      modifies this`liveIn, this`liveOut
      ensures Sweeping()
    {
      liveIn, liveOut := map b | b in g.blocks :: {}, map[];
      forall b, v ensures v !in At(liveIn, b) {
      }
      forall a, b | Flow().Edge(a, b) ensures a in g.blocks && b in g.blocks {
      }
    }

    // At every block exactly the values are live that some path uses before defining, on edges that
    // the phi filter lets them pass: the least solution of the equations.
    method Run()
      requires Ordered(g, code, order)
      modifies this
      ensures Flow() == FlowOf(g, code)
      ensures LiveExactly(Flow(), liveIn) && Solves(Flow(), liveIn)
      ensures forall b, v {:trigger LeavesLiveElsewhere(Flow(), b, v)} :: b in g.blocks ==>
        (v in At(liveOut, b) <==> LeavesLiveElsewhere(Flow(), b, v))
    {
      CollectAll();
      StartSweeping();
      SweepAll();
      SettledExact();
    }
  }
}
