// Renaming slots into values preserves the behaviour of a function.
module RenameMeaning {
  import opened Graph
  import opened DomTree
  import opened IR
  import opened Ssa

  // What the renaming leaves out: accesses to slots, and the slots themselves.
  predicate Dropped(i: Instr)
  {
    i.Load? || i.Store? || (i.Alloca? && i.scalar)
  }

  ghost function SubAll(f: Fn, t: Tree, at: map<Reg, Place>, os: seq<Operand>): (r: seq<Operand>)
    requires Wf(f, t, at)
    ensures |r| == |os| && forall i :: 0 <= i < |os| ==> r[i] == Sub(f, t, at, os[i])
  {
    seq(|os|, i requires 0 <= i < |os| => Sub(f, t, at, os[i]))
  }

  ghost function SubTerm(f: Fn, t: Tree, at: map<Reg, Place>, x: Term): Term
    requires Wf(f, t, at)
  {
    match x
    case CondBr(o, c, d) => CondBr(Sub(f, t, at, o), c, d)
    case Ret(Some(o)) => Ret(Some(Sub(f, t, at, o)))
    case _ => x
  }

  // The phi takes, from every reachable predecessor, what its slot holds there.
  ghost predicate Fed(f: Fn, t: Tree, at: map<Reg, Place>, p: Block, b: Block, v: Slot, ins: seq<(Operand, Block)>)
    requires Wf(f, t, at)
  {
    p in t.up && f.g.Edge(p, b) ==> Incoming(ins, p) == ValOut(f, t, at, p, v)
  }

  ghost predicate MatchInstr(f: Fn, t: Tree, at: map<Reg, Place>, b: Block, i: Instr, i': Instr)
    requires Wf(f, t, at)
  {
    match i
    case Compute(id, op, args) => i' == Compute(id, op, SubAll(f, t, at, args))
    case Effect(id, op, args) => i' == Effect(id, op, SubAll(f, t, at, args))
    case Phi(id, v, _) => i'.Phi? && i'.id == id && i'.slot == v && forall p :: Fed(f, t, at, p, b, v, i'.ins)
    case _ => i' == i
  }

  // `out` is the renamed form of the first k instructions of b.
  ghost predicate Rendered(f: Fn, t: Tree, at: map<Reg, Place>, b: Block, k: nat, out: seq<Instr>)
    requires Wf(f, t, at) && b in f.code && k <= |f.code[b]|
  {
    if k == 0 then out == []
    else
      var i := f.code[b][k - 1];
      if Dropped(i) then Rendered(f, t, at, b, k - 1, out)
      else out != [] && MatchInstr(f, t, at, b, i, out[|out| - 1]) && Rendered(f, t, at, b, k - 1, out[..|out| - 1])
  }

  ghost predicate BlockRenamed(f: Fn, t: Tree, at: map<Reg, Place>, f': Fn, b: Block)
    requires Wf(f, t, at) && b in t.up
  {
    && b in f'.code && b in f'.term
    && Rendered(f, t, at, b, |f.code[b]|, f'.code[b])
    && f'.term[b] == SubTerm(f, t, at, f.term[b])
  }

  ghost predicate Renamed(f: Fn, t: Tree, at: map<Reg, Place>, f': Fn)
    requires Wf(f, t, at)
  {
    forall b {:trigger BlockRenamed(f, t, at, f', b)} :: b in t.up ==> BlockRenamed(f, t, at, f', b)
  }

  // f is the original with phis put at the beginning of its blocks.
  ghost predicate BlockPlaced(f0: Fn, f: Fn, b: Block)
    requires b in f.code
  {
    && b in f0.code && b in f0.term && b in f.term && f.term[b] == f0.term[b]
    && |f0.code[b]| <= |f.code[b]|
    && f.code[b][|f.code[b]| - |f0.code[b]|..] == f0.code[b]
    && (forall k :: 0 <= k < |f.code[b]| - |f0.code[b]| ==> f.code[b][k].Phi?)
    && (forall k :: 0 <= k < |f0.code[b]| ==> !f0.code[b][k].Phi?)
  }

  ghost predicate PhisPlaced(f0: Fn, f: Fn)
  {
    f0.g == f.g && forall b {:trigger BlockPlaced(f0, f, b)} :: b in f.code ==> BlockPlaced(f0, f, b)
  }

  ghost function PhiCount(f0: Fn, f: Fn, b: Block): nat
    requires b in f.code && BlockPlaced(f0, f, b)
  {
    |f.code[b]| - |f0.code[b]|
  }

  // ---- The states of the two functions at corresponding places ----

  ghost predicate RegAgrees(w: World, f: Fn, t: Tree, at: map<Reg, Place>, q: Place, s: State, s': State, r: Reg)
    requires Wf(f, t, at)
  {
    Usable(f, t, at, Result(r), q) ==> Reg0(s.regs, r) == Eval(w, Sub(f, t, at, Result(r)), s'.regs)
  }

  // The number an operand for slot v stands for, where no operand means undefined.
  function ValueOf(w: World, x: Option<Operand>, v: Slot, regs: map<Reg, int>): int
  {
    if x.Some? then Eval(w, x.value, regs) else w.undef(v)
  }

  ghost predicate SlotAgrees(w: World, f: Fn, t: Tree, at: map<Reg, Place>, b: Block, k: nat, s: State, s': State,
      v: Slot)
    requires Wf(f, t, at) && b in t.up && k <= |f.code[b]|
  {
    Mem0(w, s.mem, v) == ValueOf(w, Val(f, t, at, b, k, v), v, s'.regs)
  }

  ghost predicate AllRegsAgree(w: World, f: Fn, t: Tree, at: map<Reg, Place>, q: Place, s: State, s': State)
    requires Wf(f, t, at)
  {
    forall r :: RegAgrees(w, f, t, at, q, s, s', r)
  }

  ghost predicate AllSlotsAgree(w: World, f: Fn, t: Tree, at: map<Reg, Place>, b: Block, k: nat, s: State, s': State)
    requires Wf(f, t, at) && b in t.up && k <= |f.code[b]|
  {
    forall v :: SlotAgrees(w, f, t, at, b, k, s, s', v)
  }

  ghost predicate Sim(w: World, f: Fn, t: Tree, at: map<Reg, Place>, b: Block, k: nat, s: State, s': State)
    requires Wf(f, t, at) && b in t.up && k <= |f.code[b]|
  {
    s.trace == s'.trace && AllRegsAgree(w, f, t, at, Place(b, k), s, s') && AllSlotsAgree(w, f, t, at, b, k, s, s')
  }

  lemma OperandAgrees(w: World, f: Fn, t: Tree, at: map<Reg, Place>, b: Block, k: nat, s: State, s': State, o: Operand)
    requires Wf(f, t, at) && b in t.up && k <= |f.code[b]| && Sim(w, f, t, at, b, k, s, s')
    requires Usable(f, t, at, o, Place(b, k))
    ensures Eval(w, o, s.regs) == Eval(w, Sub(f, t, at, o), s'.regs)
  {
    if o.Result? {
      assert RegAgrees(w, f, t, at, Place(b, k), s, s', o.id);
    }
  }

  lemma OperandsAgree(w: World, f: Fn, t: Tree, at: map<Reg, Place>, b: Block, k: nat, s: State, s': State,
      os: seq<Operand>)
    requires Wf(f, t, at) && b in t.up && k <= |f.code[b]| && Sim(w, f, t, at, b, k, s, s')
    requires forall o :: o in os ==> Usable(f, t, at, o, Place(b, k))
    ensures EvalAll(w, os, s.regs) == EvalAll(w, SubAll(f, t, at, os), s'.regs)
  {
    forall i | 0 <= i < |os| ensures Eval(w, os[i], s.regs) == Eval(w, SubAll(f, t, at, os)[i], s'.regs) {
      OperandAgrees(w, f, t, at, b, k, s, s', os[i]);
    }
  }

  // The renamed value of a usable register is available where the register is.
  lemma SubAvailable(f: Fn, t: Tree, at: map<Reg, Place>, r: Reg, q: Place)
    requires Wf(f, t, at) && AllDefined(f, t, at) && q.b in t.up && q.k <= |f.code[q.b]|
    requires Usable(f, t, at, Result(r), q)
    ensures Available(f, t, at, Sub(f, t, at, Result(r)), q)
  {
    ResAvailable(f, t, at, q.b, q.k, Result(r));
  }

  // Writing the register of the k-th instruction does not disturb what is available before it.
  lemma NotAvailableYet(f: Fn, t: Tree, at: map<Reg, Place>, b: Block, k: nat, o: Operand)
    requires Wf(f, t, at) && b in t.up && k < |f.code[b]|
    requires Available(f, t, at, o, Place(b, k)) || Usable(f, t, at, o, Place(b, k))
    ensures o != Result(f.code[b][k].id)
  {
    assert PlacedAt(f, at, b, k);
  }

  // What is usable after the k-th instruction was usable before it, or is its result.
  lemma UsableStep(f: Fn, t: Tree, at: map<Reg, Place>, b: Block, k: nat, r: Reg)
    requires Wf(f, t, at) && b in t.up && k < |f.code[b]|
    requires Usable(f, t, at, Result(r), Place(b, k + 1))
    ensures r != f.code[b][k].id ==> Usable(f, t, at, Result(r), Place(b, k))
    ensures r == f.code[b][k].id ==> at[r] == Place(b, k)
  {
    assert PlacedAt(f, at, b, k);
  }

  // The registers that agree keep agreeing when both sides write x to the register of the
  // k-th instruction (`both`), or only the original does and the renamed form knows its value.
  lemma RegistersStep(w: World, f: Fn, t: Tree, at: map<Reg, Place>, b: Block, k: nat, s: State, s': State, s1: State,
      s1': State, x: int, both: bool)
    requires Wf(f, t, at) && AllDefined(f, t, at) && b in t.up && k < |f.code[b]| && Sim(w, f, t, at, b, k, s, s')
    requires s1.regs == s.regs[f.code[b][k].id := x]
    requires if both then s1'.regs == s'.regs[f.code[b][k].id := x] &&
      Sub(f, t, at, Result(f.code[b][k].id)) == Result(f.code[b][k].id)
             else s1'.regs == s'.regs && x == Eval(w, Sub(f, t, at, Result(f.code[b][k].id)), s'.regs)
    ensures AllRegsAgree(w, f, t, at, Place(b, k + 1), s1, s1')
  {
    var q := Place(b, k + 1);
    forall r ensures RegAgrees(w, f, t, at, q, s1, s1', r) {
      if Usable(f, t, at, Result(r), Place(b, k + 1)) {
        UsableStep(f, t, at, b, k, r);
        if r != f.code[b][k].id {
          assert RegAgrees(w, f, t, at, Place(b, k), s, s', r);
          SubAvailable(f, t, at, r, Place(b, k));
          NotAvailableYet(f, t, at, b, k, Sub(f, t, at, Result(r)));
        }
      }
    }
  }

  lemma RegistersKept(w: World, f: Fn, t: Tree, at: map<Reg, Place>, b: Block, k: nat, s: State, s': State, s1: State)
    requires Wf(f, t, at) && b in t.up && k < |f.code[b]| && Sim(w, f, t, at, b, k, s, s')
    requires s1.regs == s.regs && (f.code[b][k].Store? || f.code[b][k].Alloca?)
    ensures AllRegsAgree(w, f, t, at, Place(b, k + 1), s1, s')
  {
    var q := Place(b, k + 1);
    forall r ensures RegAgrees(w, f, t, at, q, s1, s', r) {
      if Usable(f, t, at, Result(r), Place(b, k + 1)) {
        UsableStep(f, t, at, b, k, r);
        assert RegAgrees(w, f, t, at, Place(b, k), s, s', r);
      }
    }
  }

  // Slots keep agreeing over an instruction that does not decide them.
  lemma SlotKept(w: World, f: Fn, t: Tree, at: map<Reg, Place>, b: Block, k: nat, s: State, s': State, s1: State,
      s1': State, v: Slot)
    requires Wf(f, t, at) && AllDefined(f, t, at) && b in t.up && k < |f.code[b]| && Sim(w, f, t, at, b, k, s, s')
    requires !Defines(f.code[b][k], v) && Mem0(w, s1.mem, v) == Mem0(w, s.mem, v)
    requires forall r :: r != f.code[b][k].id ==> Reg0(s1'.regs, r) == Reg0(s'.regs, r)
    ensures SlotAgrees(w, f, t, at, b, k + 1, s1, s1', v)
  {
    assert SlotAgrees(w, f, t, at, b, k, s, s', v);
    ValAvailable(f, t, at, b, k, v);
    var x := Val(f, t, at, b, k, v);
    if x.Some? {
      NotAvailableYet(f, t, at, b, k, x.value);
    }
  }

  // The renamed form of one instruction: nothing, or one instruction.
  lemma SimStep(w: World, f: Fn, t: Tree, at: map<Reg, Place>, b: Block, k: nat, s: State, s': State, i': Instr)
    requires Wf(f, t, at) && AllDefined(f, t, at) && b in t.up && k < |f.code[b]| && Sim(w, f, t, at, b, k, s, s')
    requires !f.code[b][k].Phi?
    requires !Dropped(f.code[b][k]) ==> MatchInstr(f, t, at, b, f.code[b][k], i')
    ensures Sim(w, f, t, at, b, k + 1, Exec1(w, f.code[b][k], s), if Dropped(f.code[b][k]) then s'
      else Exec1(w, i', s'))
  {
    var i := f.code[b][k];
    var s1 := Exec1(w, i, s);
    var s1' := if Dropped(i) then s' else Exec1(w, i', s');
    assert PlacedAt(f, at, b, k) && UsesDefined(f, t, at, b, k);
    match i
    case Alloca(_, _, _) =>
      RegistersKept(w, f, t, at, b, k, s, s', s1);
      SlotsKept(w, f, t, at, b, k, s, s', s1, s1');
    case Load(id, v) =>
      assert LoadDefined(f, t, at, b, k) && SlotAgrees(w, f, t, at, b, k, s, s', v);
      RegistersStep(w, f, t, at, b, k, s, s', s1, s1', Mem0(w, s.mem, v), false);
      SlotsKept(w, f, t, at, b, k, s, s', s1, s1');
    case Store(_, o, v) =>
      SimStore(w, f, t, at, b, k, s, s');
    case Compute(id, op, args) =>
      OperandsAgree(w, f, t, at, b, k, s, s', args);
      RegistersStep(w, f, t, at, b, k, s, s', s1, s1', s1.regs[id], true);
      SlotsKept(w, f, t, at, b, k, s, s', s1, s1');
    case Effect(id, op, args) =>
      OperandsAgree(w, f, t, at, b, k, s, s', args);
      RegistersStep(w, f, t, at, b, k, s, s', s1, s1', s1.regs[id], true);
      SlotsKept(w, f, t, at, b, k, s, s', s1, s1');
  }

  lemma SlotsKept(w: World, f: Fn, t: Tree, at: map<Reg, Place>, b: Block, k: nat, s: State, s': State, s1: State,
      s1': State)
    requires Wf(f, t, at) && AllDefined(f, t, at) && b in t.up && k < |f.code[b]| && Sim(w, f, t, at, b, k, s, s')
    requires !f.code[b][k].Store? && !f.code[b][k].Phi? && s1.mem == s.mem
    requires forall r :: r != f.code[b][k].id ==> Reg0(s1'.regs, r) == Reg0(s'.regs, r)
    ensures AllSlotsAgree(w, f, t, at, b, k + 1, s1, s1')
  {
    var k1 := k + 1;
    forall v ensures SlotAgrees(w, f, t, at, b, k1, s1, s1', v) {
      SlotKept(w, f, t, at, b, k, s, s', s1, s1', v);
    }
  }

  lemma SimStore(w: World, f: Fn, t: Tree, at: map<Reg, Place>, b: Block, k: nat, s: State, s': State)
    requires Wf(f, t, at) && AllDefined(f, t, at) && b in t.up && k < |f.code[b]| && Sim(w, f, t, at, b, k, s, s')
    requires f.code[b][k].Store?
    ensures Sim(w, f, t, at, b, k + 1, Exec1(w, f.code[b][k], s), s')
  {
    var i := f.code[b][k];
    var s1 := Exec1(w, i, s);
    assert UsesDefined(f, t, at, b, k) && i.value in Uses(i);
    RegistersKept(w, f, t, at, b, k, s, s', s1);
    var k1 := k + 1;
    forall v ensures SlotAgrees(w, f, t, at, b, k1, s1, s', v) {
      if v == i.slot {
        OperandAgrees(w, f, t, at, b, k, s, s', i.value);
        ResAvailable(f, t, at, b, k, i.value);
      } else {
        SlotKept(w, f, t, at, b, k, s, s', s1, s', v);
      }
    }
  }

  // ---- Whole blocks ----

  lemma {:induction false} ExecPhis(w: World, code: seq<Instr>, s: State)
    requires forall k :: 0 <= k < |code| ==> code[k].Phi?
    ensures Exec(w, code, s) == s
  {
    if code != [] {
      ExecPhis(w, code[..|code| - 1], s);
    }
  }

  lemma {:induction false} ExecAppend(w: World, c: seq<Instr>, d: seq<Instr>, s: State)
    ensures Exec(w, c + d, s) == Exec(w, d, Exec(w, c, s))
  {
    if d == [] {
      assert c + d == c;
    } else {
      assert (c + d)[..|c + d| - 1] == c + d[..|d| - 1];
      ExecAppend(w, c, d[..|d| - 1], s);
    }
  }

  lemma {:induction false} RenderedPhis(f: Fn, t: Tree, at: map<Reg, Place>, b: Block, k: nat, out: seq<Instr>)
    requires Wf(f, t, at) && b in f.code && k <= |f.code[b]| && Rendered(f, t, at, b, k, out)
    requires forall j :: 0 <= j < k ==> f.code[b][j].Phi?
    ensures forall j :: 0 <= j < |out| ==> out[j].Phi?
  {
    if k > 0 {
      var init := out[..|out| - 1];
      RenderedPhis(f, t, at, b, k - 1, init);
      forall j | 0 <= j < |out| ensures out[j].Phi? {
        assert j < |init| ==> init[j] == out[j];
      }
    }
  }

  // After its m phis, a block keeps the two functions in step.
  lemma {:induction false} SimBlock(w: World, f: Fn, t: Tree, at: map<Reg, Place>, b: Block, m: nat, k: nat, s: State,
      s': State, out: seq<Instr>)
    requires Wf(f, t, at) && AllDefined(f, t, at) && b in t.up && m <= k <= |f.code[b]|
    requires forall j :: 0 <= j < m ==> f.code[b][j].Phi?
    requires forall j :: m <= j < k ==> !f.code[b][j].Phi?
    requires Rendered(f, t, at, b, k, out) && Sim(w, f, t, at, b, m, s, s')
    ensures Sim(w, f, t, at, b, k, Exec(w, f.code[b][..k], s), Exec(w, out, s'))
    decreases k
  {
    if k == m {
      ExecPhis(w, f.code[b][..k], s);
      RenderedPhis(f, t, at, b, k, out);
      ExecPhis(w, out, s');
    } else {
      var i := f.code[b][k - 1];
      var out0 := if Dropped(i) then out else out[..|out| - 1];
      SimBlock(w, f, t, at, b, m, k - 1, s, s', out0);
      assert f.code[b][..k][..k - 1] == f.code[b][..k - 1];
      SimStep(w, f, t, at, b, k - 1, Exec(w, f.code[b][..k - 1], s), Exec(w, out0, s'), if Dropped(i) then i
        else out[|out| - 1]);
    }
  }

  // The j-th instruction of b, a phi, has received what its slot held at the end of p.
  ghost predicate PhiEntered(w: World, f: Fn, t: Tree, at: map<Reg, Place>, p: Block, b: Block, j: nat,
      before: map<Reg, int>, after: map<Reg, int>)
    requires Wf(f, t, at) && p in t.up && b in f.code && j < |f.code[b]| && f.code[b][j].Phi?
  {
    var v := f.code[b][j].slot;
    Reg0(after, f.code[b][j].id) == ValueOf(w, ValOut(f, t, at, p, v), v, before)
  }

  ghost predicate IsPhiOf(f: Fn, b: Block, k: nat, r: Reg)
    requires b in f.code && k <= |f.code[b]|
  {
    exists j :: 0 <= j < k && f.code[b][j].Phi? && r == f.code[b][j].id
  }

  // Entering a block writes its phis and nothing else.
  lemma {:induction false} PhisWritten(w: World, f: Fn, t: Tree, at: map<Reg, Place>, p: Block, b: Block, k: nat,
      out: seq<Instr>, regs: map<Reg, int>)
    requires Wf(f, t, at) && AllDefined(f, t, at) && p in t.up && f.g.Edge(p, b) && b in f.code
    requires k <= |f.code[b]| && Rendered(f, t, at, b, k, out)
    ensures forall j :: 0 <= j < k && f.code[b][j].Phi? ==>
      PhiEntered(w, f, t, at, p, b, j, regs, EnterPhis(w, out, p, regs))
    ensures forall r :: !IsPhiOf(f, b, k, r) ==> Reg0(EnterPhis(w, out, p, regs), r) == Reg0(regs, r)
  {
    if k > 0 {
      var i := f.code[b][k - 1];
      var out0 := if Dropped(i) then out else out[..|out| - 1];
      PhisWritten(w, f, t, at, p, b, k - 1, out0, regs);
      if i.Phi? {
        var i' := out[|out| - 1];
        assert Fed(f, t, at, p, b, i.slot, i'.ins);
        assert PlacedAt(f, at, b, k - 1);
        forall j | 0 <= j < k - 1 ensures f.code[b][j].id != i.id {
          assert PlacedAt(f, at, b, j);
        }
        assert forall r :: !IsPhiOf(f, b, k, r) ==> r != i.id && !IsPhiOf(f, b, k - 1, r);
      }
    }
  }

  lemma {:induction false} ValOfPhi(f: Fn, t: Tree, at: map<Reg, Place>, b: Block, j: nat, m: nat)
    requires Wf(f, t, at) && b in t.up && j < m <= |f.code[b]|
    requires forall i :: 0 <= i < m ==> f.code[b][i].Phi?
    ensures Val(f, t, at, b, m, f.code[b][j].slot) == Some(Result(f.code[b][j].id))
  {
    if j < m - 1 {
      assert PhisFirst(f.code[b]);
      ValOfPhi(f, t, at, b, j, m - 1);
    }
  }

  // The values an operand from above b had are not touched by the phis of b.
  lemma UntouchedByPhis(w: World, f: Fn, t: Tree, at: map<Reg, Place>, b: Block, o: Operand, before: map<Reg, int>,
      after: map<Reg, int>)
    requires Wf(f, t, at) && b in t.up
    requires forall r :: !IsPhiOf(f, b, |f.code[b]|, r) ==> Reg0(after, r) == Reg0(before, r)
    requires o.Result? ==> Located(f, at, o.id) && at[o.id].b != b
    ensures Eval(w, o, after) == Eval(w, o, before)
  {
    if o.Result? && IsPhiOf(f, b, |f.code[b]|, o.id) {
      var j :| 0 <= j < |f.code[b]| && f.code[b][j].Phi? && o.id == f.code[b][j].id;
      assert PlacedAt(f, at, b, j);
    }
  }

  // What b can use at its beginning comes from above it, and so was available at the end of p.
  lemma UsableFromAbove(f: Fn, t: Tree, at: map<Reg, Place>, p: Block, b: Block, m: nat, r: Reg)
    requires Wf(f, t, at) && AllDefined(f, t, at) && p in t.up && f.g.Edge(p, b) && b in t.up && b != t.root &&
      m <= |f.code[b]|
    requires forall i :: 0 <= i < m ==> f.code[b][i].Phi?
    requires Usable(f, t, at, Result(r), Place(b, m))
    ensures Usable(f, t, at, Result(r), Place(p, |f.code[p]|))
    ensures var o := Sub(f, t, at, Result(r)); o.Result? ==> Located(f, at, o.id) && at[o.id].b != b
  {
    var q := at[r];
    var u := t.Up(b);
    t.AncAbove(b, q.b);
    assert f.g.Reachable(p);
    ParentAbovePredecessor(f.g, t, p, b);
    t.AncTrans(p, u);
    assert Usable(f, t, at, Result(r), Place(u, |f.code[u]|));
    SubAvailable(f, t, at, r, Place(u, |f.code[u]|));
    AvailableAcross(f, t, at, Sub(f, t, at, Result(r)), b);
  }

  ghost predicate PhiPrefix(f: Fn, b: Block, m: nat)
    requires b in f.code
  {
    m <= |f.code[b]|
    && (forall i :: 0 <= i < m ==> f.code[b][i].Phi?)
    && (forall i :: m <= i < |f.code[b]| ==> !f.code[b][i].Phi?)
  }

  lemma EnterSlot(w: World, f: Fn, t: Tree, at: map<Reg, Place>, p: Block, b: Block, m: nat, s: State, s': State,
      s1': State, v: Slot)
    requires Wf(f, t, at) && AllDefined(f, t, at) && PhiClosed(f, t)
    requires p in t.up && f.g.Edge(p, b) && b in t.up && b != t.root && PhiPrefix(f, b, m)
    requires Sim(w, f, t, at, p, |f.code[p]|, s, s')
    requires forall j :: 0 <= j < m ==> PhiEntered(w, f, t, at, p, b, j, s'.regs, s1'.regs)
    requires forall r :: !IsPhiOf(f, b, |f.code[b]|, r) ==> Reg0(s1'.regs, r) == Reg0(s'.regs, r)
    ensures SlotAgrees(w, f, t, at, b, m, s, s1', v)
  {
    var end := |f.code[p]|;
    assert SlotAgrees(w, f, t, at, p, end, s, s', v);
    if HasPhi(f, b, v) {
      var j :| 0 <= j < |f.code[b]| && f.code[b][j].Phi? && f.code[b][j].slot == v;
      ValOfPhi(f, t, at, b, j, m);
      assert PhiEntered(w, f, t, at, p, b, j, s'.regs, s1'.regs);
    } else {
      ValUnchanged(f, t, at, b, m, v);
      ValAcrossEdge(f, t, at, p, b, v);
      var x := Val(f, t, at, b, 0, v);
      if x.Some? {
        ValAvailable(f, t, at, t.Up(b), |f.code[t.Up(b)]|, v);
        AvailableAcross(f, t, at, x.value, b);
        UntouchedByPhis(w, f, t, at, b, x.value, s'.regs, s1'.regs);
      }
    }
  }

  // Taking an edge keeps the functions in step.
  lemma SimEnter(w: World, f: Fn, t: Tree, at: map<Reg, Place>, p: Block, b: Block, m: nat, s: State, s': State,
      out: seq<Instr>)
    returns (s1': State)
    requires Wf(f, t, at) && AllDefined(f, t, at) && PhiClosed(f, t)
    requires p in t.up && f.g.Edge(p, b) && b in f.code && PhiPrefix(f, b, m)
    requires Sim(w, f, t, at, p, |f.code[p]|, s, s')
    requires Rendered(f, t, at, b, |f.code[b]|, out)
    ensures s1' == s'.(regs := EnterPhis(w, out, p, s'.regs))
    ensures b in t.up && Sim(w, f, t, at, b, m, s, s1')
  {
    assert f.g.Reachable(p);
    ParentAbovePredecessor(f.g, t, p, b);
    assert p in f.g.pred[b];
    s1' := s'.(regs := EnterPhis(w, out, p, s'.regs));
    PhisWritten(w, f, t, at, p, b, |f.code[b]|, out, s'.regs);
    var q := Place(b, m);
    forall r ensures RegAgrees(w, f, t, at, q, s, s1', r) {
      if Usable(f, t, at, Result(r), q) {
        UsableFromAbove(f, t, at, p, b, m, r);
        assert RegAgrees(w, f, t, at, Place(p, |f.code[p]|), s, s', r);
        UntouchedByPhis(w, f, t, at, b, Sub(f, t, at, Result(r)), s'.regs, s1'.regs);
      }
    }
    forall v ensures SlotAgrees(w, f, t, at, b, m, s, s1', v) {
      EnterSlot(w, f, t, at, p, b, m, s, s', s1', v);
    }
  }

  // ---- Whole runs ----

  lemma {:induction false} NoPhisToEnter(w: World, code: seq<Instr>, p: Block, regs: map<Reg, int>)
    requires forall k :: 0 <= k < |code| ==> !code[k].Phi?
    ensures EnterPhis(w, code, p, regs) == regs
  {
    if code != [] {
      NoPhisToEnter(w, code[..|code| - 1], p, regs);
    }
  }

  lemma PlacedPrefix(f0: Fn, f: Fn, b: Block)
    requires PhisPlaced(f0, f) && b in f.code
    ensures BlockPlaced(f0, f, b) && PhiPrefix(f, b, PhiCount(f0, f, b))
    ensures f.code[b] == f.code[b][..PhiCount(f0, f, b)] + f0.code[b]
  {
    assert BlockPlaced(f0, f, b);
    var m := PhiCount(f0, f, b);
    forall i | m <= i < |f.code[b]| ensures !f.code[b][i].Phi? {
      assert f.code[b][i] == f0.code[b][i - m];
    }
  }

  // What the renaming needs to know about the function with its phis placed.
  ghost predicate Ready(f0: Fn, f: Fn, t: Tree, at: map<Reg, Place>)
  {
    && Wf(f, t, at) && AllDefined(f, t, at) && PhiClosed(f, t) && PhisPlaced(f0, f)
    && forall v :: !HasPhi(f, f.g.entry, v)
  }

  ghost predicate InStep(w: World, f0: Fn, f: Fn, t: Tree, at: map<Reg, Place>, c: Config, d: Config)
    requires Ready(f0, f, t, at)
  {
    match (c, d)
    case (At(b, s), At(b', s')) =>
      b == b' && b in t.up && BlockPlaced(f0, f, b) && Sim(w, f, t, at, b, PhiCount(f0, f, b), s, s')
    case (Halted(v, tr), Halted(v', tr')) => v == v' && tr == tr'
    case _ => false
  }

  lemma InStepGoto(w: World, f0: Fn, f: Fn, t: Tree, at: map<Reg, Place>, f': Fn, p: Block, b: Block, s: State,
      s': State)
    requires Ready(f0, f, t, at) && Renamed(f, t, at, f')
    requires p in t.up && f.g.Edge(p, b) && Sim(w, f, t, at, p, |f.code[p]|, s, s')
    ensures InStep(w, f0, f, t, at, Goto(w, f0, p, b, s), Goto(w, f', p, b, s'))
  {
    assert f.g.Reachable(p);
    ParentAbovePredecessor(f.g, t, p, b);
    PlacedPrefix(f0, f, b);
    NoPhisToEnter(w, f0.code[b], p, s.regs);
    assert BlockRenamed(f, t, at, f', b);
    var s1' := SimEnter(w, f, t, at, p, b, PhiCount(f0, f, b), s, s', f'.code[b]);
  }

  lemma InStepLeave(w: World, f0: Fn, f: Fn, t: Tree, at: map<Reg, Place>, f': Fn, b: Block, s: State, s': State)
    requires Ready(f0, f, t, at) && Renamed(f, t, at, f')
    requires b in t.up && b in f0.term && f0.term[b] == f.term[b] && b in f'.term &&
      f'.term[b] == SubTerm(f, t, at, f.term[b])
    requires Sim(w, f, t, at, b, |f.code[b]|, s, s')
    ensures InStep(w, f0, f, t, at, Leave(w, f0, b, s), Leave(w, f', b, s'))
  {
    var end := |f.code[b]|;
    assert UsesDefined(f, t, at, b, end);
    assert f.SuccessorsRecorded(b);
    match f.term[b]
    case Br(c) =>
      assert f.g.Edge(b, c);
      InStepGoto(w, f0, f, t, at, f', b, c, s, s');
    case CondBr(o, c, d) =>
      assert f.g.Edge(b, c) && f.g.Edge(b, d) && o in TermUses(f.term[b]);
      OperandAgrees(w, f, t, at, b, end, s, s', o);
      InStepGoto(w, f0, f, t, at, f', b, c, s, s');
      InStepGoto(w, f0, f, t, at, f', b, d, s, s');
    case Ret(None) =>
    case Ret(Some(o)) =>
      assert o in TermUses(f.term[b]);
      OperandAgrees(w, f, t, at, b, end, s, s', o);
  }

  lemma InStepBlock(w: World, f0: Fn, f: Fn, t: Tree, at: map<Reg, Place>, f': Fn, c: Config, d: Config)
    requires Ready(f0, f, t, at) && Renamed(f, t, at, f') && InStep(w, f0, f, t, at, c, d)
    ensures InStep(w, f0, f, t, at, StepBlock(w, f0, c), StepBlock(w, f', d))
  {
    if c.At? {
      var b, end := c.b, |f.code[c.b]|;
      PlacedPrefix(f0, f, b);
      assert BlockRenamed(f, t, at, f', b);
      var m := PhiCount(f0, f, b);
      ExecAppend(w, f.code[b][..m], f0.code[b], c.s);
      ExecPhis(w, f.code[b][..m], c.s);
      assert f.code[b][..end] == f.code[b];
      SimBlock(w, f, t, at, b, m, end, c.s, d.s, f'.code[b]);
      InStepLeave(w, f0, f, t, at, f', b, Exec(w, f0.code[b], c.s), Exec(w, f'.code[b], d.s));
    }
  }

  lemma {:induction false} InStepRun(w: World, f0: Fn, f: Fn, t: Tree, at: map<Reg, Place>, f': Fn, c: Config,
      d: Config, n: nat)
    requires Ready(f0, f, t, at) && Renamed(f, t, at, f') && InStep(w, f0, f, t, at, c, d)
    ensures InStep(w, f0, f, t, at, Run(w, f0, c, n), Run(w, f', d, n))
  {
    if n > 0 {
      InStepRun(w, f0, f, t, at, f', c, d, n - 1);
      InStepBlock(w, f0, f, t, at, f', Run(w, f0, c, n - 1), Run(w, f', d, n - 1));
    }
  }

  // Before the first instruction nothing is usable and no slot is known.
  lemma EntrySim(w: World, f: Fn, t: Tree, at: map<Reg, Place>, s: State, s': State)
    requires Wf(f, t, at) && s.trace == s'.trace && s.mem == map[]
    ensures t.root in t.up && Sim(w, f, t, at, t.root, 0, s, s')
  {
    var q := Place(t.root, 0);
    assert t.Anc(t.root) == {t.root};
    forall r ensures RegAgrees(w, f, t, at, q, s, s', r) {
      assert !Usable(f, t, at, Result(r), q);
    }
    forall v ensures SlotAgrees(w, f, t, at, t.root, 0, s, s', v) {
      assert Val(f, t, at, t.root, 0, v) == None;
    }
  }

  lemma NoEntryPhis(f0: Fn, f: Fn, t: Tree, at: map<Reg, Place>)
    requires Ready(f0, f, t, at)
    ensures f.g.entry in f.code && BlockPlaced(f0, f, f.g.entry) && PhiCount(f0, f, f.g.entry) == 0
  {
    var b := f.g.entry;
    assert BlockPlaced(f0, f, b);
    if PhiCount(f0, f, b) > 0 {
      assert HasPhi(f, b, f.code[b][0].slot);
    }
  }

  // Renaming preserves behaviour: in every world, from every initial contents of the registers,
  // after every number of blocks, the original function, which starts with all slots undefined,
  // and the renamed one are in the same block, have caused the same events, and have returned
  // the same value.
  lemma RenamingPreservesMeaning(w: World, f0: Fn, f: Fn, t: Tree, at: map<Reg, Place>, f': Fn, s: State, s': State,
      n: nat)
    requires Ready(f0, f, t, at) && Renamed(f, t, at, f') && s.trace == s'.trace && s.mem == map[]
    ensures SameOutside(Run(w, f0, At(f.g.entry, s), n), Run(w, f', At(f.g.entry, s'), n))
  {
    NoEntryPhis(f0, f, t, at);
    EntrySim(w, f, t, at, s, s');
    InStepRun(w, f0, f, t, at, f', At(f.g.entry, s), At(f.g.entry, s'), n);
  }
}
