// What a function in which phis have been placed means for every slot at every place, and why
// replacing slots by those values preserves the behaviour of the function.
module Ssa {
  import opened Graph
  import opened DomTree
  import opened IR

  // Before the k-th instruction of b, or before the terminator.
  datatype Place = Place(b: Block, k: nat)

  // p is executed before every execution of q reaches q.
  ghost predicate Before(t: Tree, p: Place, q: Place)
    requires t.Valid()
  {
    q.b in t.up && if p.b == q.b then p.k < q.k else p.b in t.Anc(q.b)
  }

  lemma BeforeTrans(t: Tree, p: Place, q: Place, r: Place)
    requires t.Valid() && Before(t, p, q) && Before(t, q, r)
    ensures Before(t, p, r)
  {
    if q.b != r.b {
      t.AncAbove(r.b, q.b);
      t.AncTrans(r.b, q.b);
    }
    if p.b != q.b {
      t.AncAbove(q.b, p.b);
    }
  }

  ghost predicate Located(f: Fn, at: map<Reg, Place>, r: Reg)
  {
    r in at && at[r].b in f.code && at[r].k < |f.code[at[r].b]| && f.code[at[r].b][at[r].k].id == r
  }

  // Only loads, computations and effects yield a value that the original code uses.
  ghost predicate Usable(f: Fn, t: Tree, at: map<Reg, Place>, o: Operand, q: Place)
    requires t.Valid()
  {
    o.Result? ==>
      && Located(f, at, o.id) && Before(t, at[o.id], q)
      && var i := f.code[at[o.id].b][at[o.id].k]; i.Load? || i.Compute? || i.Effect?
  }

  function Uses(i: Instr): seq<Operand>
  {
    match i
    case Store(_, o, _) => [o]
    case Compute(_, _, args) => args
    case Effect(_, _, args) => args
    case _ => []
  }

  function TermUses(x: Term): seq<Operand>
  {
    match x
    case CondBr(o, _, _) => [o]
    case Ret(Some(o)) => [o]
    case _ => []
  }

  // The operands at one place are defined on the way there, in the single-assignment sense.
  ghost predicate UsesDefined(f: Fn, t: Tree, at: map<Reg, Place>, b: Block, k: nat)
    requires t.Valid() && b in f.code && b in f.term && k <= |f.code[b]|
  {
    forall o :: o in (if k < |f.code[b]| then Uses(f.code[b][k]) else TermUses(f.term[b])) ==>
      Usable(f, t, at, o, Place(b, k))
  }

  ghost predicate PlacedAt(f: Fn, at: map<Reg, Place>, b: Block, k: nat)
    requires b in f.code && k < |f.code[b]|
  {
    f.code[b][k].id in at && at[f.code[b][k].id] == Place(b, k)
  }

  // Phis come first and there is at most one for a slot.
  ghost predicate PhisFirst(code: seq<Instr>)
  {
    forall i, j :: 0 <= i < j < |code| && code[j].Phi? ==> code[i].Phi? && code[i].slot != code[j].slot
  }

  ghost predicate Wf(f: Fn, t: Tree, at: map<Reg, Place>)
  {
    && f.Valid() && IsDomTree(f.g, t) && f.g.pred[f.g.entry] == []
    && t.up.Keys <= f.code.Keys && t.up.Keys <= f.term.Keys
    && (forall r {:trigger Located(f, at, r)} :: r in at ==> Located(f, at, r))
    && (forall b, k {:trigger PlacedAt(f, at, b, k)} :: b in f.code && 0 <= k < |f.code[b]| ==> PlacedAt(f, at, b, k))
    && (forall b {:trigger PhisFirst(f.code[b])} :: b in f.code ==> PhisFirst(f.code[b]))
    && (forall b, k {:trigger UsesDefined(f, t, at, b, k)} :: b in t.up && 0 <= k <= |f.code[b]| ==>
      UsesDefined(f, t, at, b, k))
  }

  // ---- The operand that holds a slot's contents at a place ----

  ghost function Val(f: Fn, t: Tree, at: map<Reg, Place>, b: Block, k: nat, v: Slot): Option<Operand>
    requires Wf(f, t, at) && b in t.up && k <= |f.code[b]|
    decreases |t.id| - t.id[b], k, 1
  {
    if k == 0 then
      if b == t.root then None else Val(f, t, at, t.Up(b), |f.code[t.Up(b)]|, v)
    else
      match f.code[b][k - 1]
      case Phi(id, u, _) => if u == v then Some(Result(id)) else Val(f, t, at, b, k - 1, v)
      case Store(_, o, u) => if u == v then Some(Res(f, t, at, b, k - 1, o)) else Val(f, t, at, b, k - 1, v)
      case _ => Val(f, t, at, b, k - 1, v)
  }

  // An operand used at a place, with the value of a load traced to what the slot holds at the load.
  ghost function Res(f: Fn, t: Tree, at: map<Reg, Place>, b: Block, k: nat, o: Operand): Operand
    requires Wf(f, t, at) && b in t.up && k <= |f.code[b]|
    decreases |t.id| - t.id[b], k, 0
  {
    if o.Result? && Located(f, at, o.id) && Before(t, at[o.id], Place(b, k)) &&
      f.code[at[o.id].b][at[o.id].k].Load? then
      var p := at[o.id];
      EarlierPlace(t, p, Place(b, k));
      var x := Val(f, t, at, p.b, p.k, f.code[p.b][p.k].slot);
      if x.Some? then x.value else o
    else o
  }

  lemma EarlierPlace(t: Tree, p: Place, q: Place)
    requires t.Valid() && Before(t, p, q)
    ensures p.b in t.up && (p.b == q.b || t.id[q.b] < t.id[p.b])
  {
    if p.b != q.b {
      t.AncAbove(q.b, p.b);
    }
  }

  ghost function ValOut(f: Fn, t: Tree, at: map<Reg, Place>, b: Block, v: Slot): Option<Operand>
    requires Wf(f, t, at) && b in t.up
  {
    Val(f, t, at, b, |f.code[b]|, v)
  }

  // The replacement of an operand, wherever it is used.
  ghost function Sub(f: Fn, t: Tree, at: map<Reg, Place>, o: Operand): Operand
    requires Wf(f, t, at)
  {
    if o.Result? && Located(f, at, o.id) && at[o.id].b in t.up && f.code[at[o.id].b][at[o.id].k].Load? then
      var p := at[o.id];
      var x := Val(f, t, at, p.b, p.k, f.code[p.b][p.k].slot);
      if x.Some? then x.value else o
    else o
  }

  // The load reads a slot that some path to it has stored to.
  ghost predicate LoadDefined(f: Fn, t: Tree, at: map<Reg, Place>, b: Block, k: nat)
    requires Wf(f, t, at) && b in t.up && k < |f.code[b]|
  {
    f.code[b][k].Load? ==> Val(f, t, at, b, k, f.code[b][k].slot).Some?
  }

  ghost predicate HasPhi(f: Fn, b: Block, v: Slot)
  {
    b in f.code && exists k :: 0 <= k < |f.code[b]| && f.code[b][k].Phi? && f.code[b][k].slot == v
  }

  // The instruction decides what v holds.
  predicate Defines(i: Instr, v: Slot)
  {
    (i.Store? || i.Phi?) && i.slot == v
  }

  ghost predicate BlockDefines(f: Fn, b: Block, v: Slot)
  {
    b in f.code && exists k :: 0 <= k < |f.code[b]| && Defines(f.code[b][k], v)
  }

  // p dominates every reachable block that decides v.
  ghost predicate DominatesDefiners(f: Fn, t: Tree, p: Block, v: Slot)
    requires t.Valid()
  {
    forall d :: d in t.up && BlockDefines(f, d, v) ==> p in t.Anc(d)
  }

  // A phi of b for v finds a value for control from p, or nothing that decides v can have
  // been visited when p is.
  ghost predicate EdgeSafe(f: Fn, t: Tree, at: map<Reg, Place>, p: Block, b: Block, v: Slot)
    requires Wf(f, t, at) && p in t.up
  {
    f.g.Edge(p, b) && HasPhi(f, b, v) ==> ValOut(f, t, at, p, v).Some? || DominatesDefiners(f, t, p, v)
  }

  ghost predicate AllDefined(f: Fn, t: Tree, at: map<Reg, Place>)
    requires Wf(f, t, at)
  {
    && (forall b, k {:trigger LoadDefined(f, t, at, b, k)} :: b in t.up && 0 <= k < |f.code[b]| ==>
      LoadDefined(f, t, at, b, k))
    && (forall p, b, v {:trigger EdgeSafe(f, t, at, p, b, v)} :: p in t.up ==> EdgeSafe(f, t, at, p, b, v))
  }

  lemma {:induction false} ValDefined(f: Fn, t: Tree, at: map<Reg, Place>, b: Block, k: nat, n: nat, v: Slot)
    requires Wf(f, t, at) && b in t.up && k < n <= |f.code[b]| && Defines(f.code[b][k], v)
    ensures Val(f, t, at, b, n, v).Some?
    decreases n
  {
    if k < n - 1 {
      ValDefined(f, t, at, b, k, n - 1, v);
    }
  }

  // Some block at or above b decides v.
  ghost predicate DecidedAbove(f: Fn, t: Tree, b: Block, v: Slot)
    requires t.Valid() && b in t.up
  {
    exists a :: a in t.Anc(b) && BlockDefines(f, a, v)
  }

  // A slot has a value at a place exactly when an earlier instruction of the block or a
  // strict dominator decides it.
  lemma {:induction false} ValSomeIff(f: Fn, t: Tree, at: map<Reg, Place>, b: Block, k: nat, v: Slot)
    requires Wf(f, t, at) && b in t.up && k <= |f.code[b]|
    ensures Val(f, t, at, b, k, v).Some? <==>
      (exists j :: 0 <= j < k && Defines(f.code[b][j], v)) || (b != t.root && DecidedAbove(f, t, t.Up(b), v))
    decreases |t.id| - t.id[b], k
  {
    if k > 0 {
      ValSomeIff(f, t, at, b, k - 1, v);
    } else if b != t.root {
      ValOutSomeIff(f, t, at, t.Up(b), v);
    }
  }

  lemma {:induction false} ValOutSomeIff(f: Fn, t: Tree, at: map<Reg, Place>, b: Block, v: Slot)
    requires Wf(f, t, at) && b in t.up
    ensures ValOut(f, t, at, b, v).Some? <==> DecidedAbove(f, t, b, v)
    decreases |t.id| - t.id[b], |f.code[b]| + 1
  {
    ValSomeIff(f, t, at, b, |f.code[b]|, v);
    if DecidedAbove(f, t, b, v) {
      var a :| a in t.Anc(b) && BlockDefines(f, a, v);
      if a != b {
        t.AncAbove(b, a);
        assert DecidedAbove(f, t, t.Up(b), v);
      }
    }
    if b != t.root && DecidedAbove(f, t, t.Up(b), v) {
      var a :| a in t.Anc(t.Up(b)) && BlockDefines(f, a, v);
      assert a in t.Anc(b);
    }
    assert b in t.Anc(b);
  }

  // The condition on edges is needed. Where it fails, a block d that decides v and the block p lie
  // below different children of one block. If the child above d is renamed first, then the stack of v
  // has been used and emptied again when the phi of b asks for its top at the end of p.
  lemma UnsafeEdge(f: Fn, t: Tree, at: map<Reg, Place>, p: Block, b: Block, v: Slot)
      returns (d: Block, x: Block, y: Block)
    requires Wf(f, t, at) && p in t.up && !EdgeSafe(f, t, at, p, b, v)
    ensures f.g.Edge(p, b) && HasPhi(f, b, v) && !DecidedAbove(f, t, p, v)
    ensures d in t.up && BlockDefines(f, d, v)
    ensures x in t.up && y in t.up && x != t.root && y != t.root && x != y && t.Up(x) == t.Up(y) && x in t.Anc(d) &&
      y in t.Anc(p)
  {
    ValOutSomeIff(f, t, at, p, v);
    d :| d in t.up && BlockDefines(f, d, v) && p !in t.Anc(d);
    x, y := t.Siblings(d, p);
  }

  // An operand that survives the renaming and is available at a place.
  ghost predicate Available(f: Fn, t: Tree, at: map<Reg, Place>, o: Operand, q: Place)
    requires t.Valid()
  {
    o.Result? ==>
      && Located(f, at, o.id) && Before(t, at[o.id], q)
      && var i := f.code[at[o.id].b][at[o.id].k]; i.Phi? || i.Compute? || i.Effect?
  }

  lemma AvailableLater(f: Fn, t: Tree, at: map<Reg, Place>, o: Operand, q: Place, r: Place)
    requires t.Valid() && Available(f, t, at, o, q) && Before(t, q, r)
    ensures Available(f, t, at, o, r)
  {
    if o.Result? {
      BeforeTrans(t, at[o.id], q, r);
    }
  }

  // Nothing but phis, computations and effects is ever a slot's value, and always one that
  // is executed on the way.
  lemma {:induction false} ValAvailable(f: Fn, t: Tree, at: map<Reg, Place>, b: Block, k: nat, v: Slot)
    requires Wf(f, t, at) && AllDefined(f, t, at) && b in t.up && k <= |f.code[b]|
    ensures Val(f, t, at, b, k, v).Some? ==> Available(f, t, at, Val(f, t, at, b, k, v).value, Place(b, k))
    decreases |t.id| - t.id[b], k, 1
  {
    var x := Val(f, t, at, b, k, v);
    if x.Some? {
      if k == 0 {
        var u := t.Up(b);
        ValAvailable(f, t, at, u, |f.code[u]|, v);
        t.AncAbove(b, u);
        AvailableAcross(f, t, at, x.value, b);
      } else {
        var i := f.code[b][k - 1];
        assert PlacedAt(f, at, b, k - 1);
        if i.Phi? && i.slot == v {
        } else if i.Store? && i.slot == v {
          assert UsesDefined(f, t, at, b, k - 1);
          assert i.value in Uses(i);
          ResAvailable(f, t, at, b, k - 1, i.value);
          AvailableLater(f, t, at, x.value, Place(b, k - 1), Place(b, k));
        } else {
          ValAvailable(f, t, at, b, k - 1, v);
          AvailableLater(f, t, at, x.value, Place(b, k - 1), Place(b, k));
        }
      }
    }
  }

  lemma AvailableAcross(f: Fn, t: Tree, at: map<Reg, Place>, o: Operand, b: Block)
    requires Wf(f, t, at) && b in t.up && b != t.root
    requires Available(f, t, at, o, Place(t.Up(b), |f.code[t.Up(b)]|))
    ensures Available(f, t, at, o, Place(b, 0)) && (o.Result? ==> at[o.id].b != b && at[o.id].b in t.Anc(t.Up(b)))
  {
    if o.Result? {
      var p := at[o.id];
      var u := t.Up(b);
      t.AncAbove(u, p.b);
      t.AncTrans(b, u);
    }
  }

  lemma {:induction false} ResAvailable(f: Fn, t: Tree, at: map<Reg, Place>, b: Block, k: nat, o: Operand)
    requires Wf(f, t, at) && AllDefined(f, t, at) && b in t.up && k <= |f.code[b]|
    requires Usable(f, t, at, o, Place(b, k))
    ensures Available(f, t, at, Res(f, t, at, b, k, o), Place(b, k))
    ensures Sub(f, t, at, o) == Res(f, t, at, b, k, o)
    decreases |t.id| - t.id[b], k, 0
  {
    if o.Result? {
      var p := at[o.id];
      EarlierPlace(t, p, Place(b, k));
      if f.code[p.b][p.k].Load? {
        assert LoadDefined(f, t, at, p.b, p.k);
        ValAvailable(f, t, at, p.b, p.k, f.code[p.b][p.k].slot);
        AvailableLater(f, t, at, Res(f, t, at, b, k, o), p, Place(b, k));
      }
    }
  }

  // ---- Values agree across edges ----

  // Phis have been placed on the frontier of every block that decides a slot, phis included.
  ghost predicate PhiClosed(f: Fn, t: Tree)
    requires f.g.Valid() && t.Valid()
  {
    forall n, x, v :: n in t.up && BlockDefines(f, n, v) && InFrontier(f.g, t, n, x) ==> HasPhi(f, x, v)
  }

  lemma {:induction false} ValUnchanged(f: Fn, t: Tree, at: map<Reg, Place>, b: Block, k: nat, v: Slot)
    requires Wf(f, t, at) && b in t.up && k <= |f.code[b]|
    requires forall j :: 0 <= j < k ==> !Defines(f.code[b][j], v)
    ensures Val(f, t, at, b, k, v) == Val(f, t, at, b, 0, v)
  {
    if k > 0 {
      assert !Defines(f.code[b][k - 1], v);
      ValUnchanged(f, t, at, b, k - 1, v);
    }
  }

  // From p up to the parent of b nothing decides v, if b has no phi for it.
  lemma {:induction false} ValAlongWalk(f: Fn, t: Tree, at: map<Reg, Place>, p: Block, b: Block, c: Block, v: Slot)
    requires Wf(f, t, at) && PhiClosed(f, t) && !HasPhi(f, b, v)
    requires f.g.Edge(p, b) && p in t.up && b in t.up && |f.g.pred[b]| >= 2
    requires c in t.Anc(p) && t.Up(b) in t.Anc(c)
    ensures ValOut(f, t, at, c, v) == ValOut(f, t, at, t.Up(b), v)
    decreases |t.id| - t.id[c]
  {
    if c != t.Up(b) {
      t.AncAbove(c, t.Up(b));
      if c in t.Anc(t.Up(b)) {
        t.AncAbove(t.Up(b), c);
      }
      assert OnWalk(t, c, p, b);
      assert InFrontier(f.g, t, c, b);
      assert !BlockDefines(f, c, v);
      ValUnchanged(f, t, at, c, |f.code[c]|, v);
      t.AncTrans(p, c);
      ValAlongWalk(f, t, at, p, b, t.Up(c), v);
    }
  }

  // The renaming lemma: across an edge, a slot without a phi in the target holds the same
  // value as at the end of the target's immediate dominator.
  lemma ValAcrossEdge(f: Fn, t: Tree, at: map<Reg, Place>, p: Block, b: Block, v: Slot)
    requires Wf(f, t, at) && PhiClosed(f, t) && !HasPhi(f, b, v)
    requires f.g.Edge(p, b) && p in t.up
    ensures b in t.up && b != t.root
    ensures ValOut(f, t, at, p, v) == ValOut(f, t, at, t.Up(b), v) == Val(f, t, at, b, 0, v)
  {
    assert f.g.Reachable(p);
    ParentAbovePredecessor(f.g, t, p, b);
    if |f.g.pred[b]| >= 2 {
      ValAlongWalk(f, t, at, p, b, p, v);
    } else {
      assert f.g.pred[b] == [p];
      f.g.DomSelf(p);
      SinglePredecessor(f.g, t, p, p, b);
      ImmediateDominator(f.g, t, b);
      t.AncAbove(p, t.Up(b));
      t.AncAbove(t.Up(b), p);
    }
  }
}
