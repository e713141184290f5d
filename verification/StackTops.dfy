// When the renaming finds a value on every stack it looks at, in whatever order it visits the
// children of a block.
module StackTops {
  import opened Graph
  import opened DomTree
  import opened IR
  import opened Ssa
  import opened Rename
  import opened PlacedFunction
  import opened TreeWalk
  import opened DepthFirst

  // ---- Which slots have a stack ----

  ghost predicate DecidedIn(f: Fn, order: seq<Block>, v: Slot)
  {
    exists d :: d in order && BlockDefines(f, d, v)
  }

  // The slots that have a stack, even an empty one, are exactly those that a visited block decides.
  ghost predicate KeysFrom(f: Fn, order: seq<Block>, stack: map<Slot, seq<Operand>>)
  {
    forall v :: v in stack <==> DecidedIn(f, order, v)
  }

  lemma DecidedSnoc(f: Fn, order: seq<Block>, b: Block, v: Slot)
    ensures DecidedIn(f, order + [b], v) <==> DecidedIn(f, order, v) || BlockDefines(f, b, v)
  {
    if DecidedIn(f, order, v) {
      var d :| d in order && BlockDefines(f, d, v);
      assert d in order + [b];
    }
    if BlockDefines(f, b, v) {
      assert b in order + [b];
    }
  }

  lemma {:induction false} PushedSome(f: Fn, t: Tree, at: map<Reg, Place>, b: Block, v: Slot)
    requires Wf(f, t, at) && b in t.up
    ensures BlockDefines(f, b, v) <==> Pushed(f, t, at, b, |f.code[b]|, v) != []
  {
    if BlockDefines(f, b, v) {
      var k :| 0 <= k < |f.code[b]| && Defines(f.code[b][k], v);
      PushedGrows(f, t, at, b, k + 1, |f.code[b]|, v);
    } else {
      PushedNone(f, t, at, b, |f.code[b]|, v);
    }
  }

  lemma {:induction false} PushedNone(f: Fn, t: Tree, at: map<Reg, Place>, b: Block, k: nat, v: Slot)
    requires Wf(f, t, at) && b in t.up && k <= |f.code[b]| && !BlockDefines(f, b, v)
    ensures Pushed(f, t, at, b, k, v) == []
    decreases k
  {
    if k > 0 {
      PushedNone(f, t, at, b, k - 1, v);
    }
  }

  // ---- The states of a walk ----

  // What blocks above b have pushed.
  ghost function Above(f: Fn, t: Tree, at: map<Reg, Place>, b: Block, v: Slot): seq<Operand>
    requires Wf(f, t, at) && b in t.up
    decreases |t.id| - t.id[b]
  {
    if b == t.root then []
    else Above(f, t, at, t.Up(b), v) + Pushed(f, t, at, t.Up(b), |f.code[t.Up(b)]|, v)
  }

  // The stack of v holds what blocks above p and the first k instructions of p have pushed. It exists if
  // something has ever been pushed on it.
  ghost predicate SlotAt(f: Fn, t: Tree, at: map<Reg, Place>, order: seq<Block>, p: Block, k: nat,
      stack: map<Slot, seq<Operand>>, v: Slot)
    requires Wf(f, t, at) && p in t.up && k <= |f.code[p]|
  {
    && Get(stack, v) == Above(f, t, at, p, v) + Pushed(f, t, at, p, k, v)
    && (v in stack <==> DecidedIn(f, order, v) || Pushed(f, t, at, p, k, v) != [])
  }

  // The walk has visited the blocks of `order` and the first k instructions of p, and these are its stacks.
  ghost predicate WalkAt(f: Fn, t: Tree, at: map<Reg, Place>, order: seq<Block>, p: Block, k: nat,
      stack: map<Slot, seq<Operand>>)
    requires Wf(f, t, at)
  {
    p in t.up && k <= |f.code[p]| && Comes(t, order, p) && forall v :: SlotAt(f, t, at, order, p, k, stack, v)
  }

  lemma {:induction false} AboveTop(f: Fn, t: Tree, at: map<Reg, Place>, b: Block, v: Slot)
    requires Wf(f, t, at) && b in t.up
    ensures TopOf(Above(f, t, at, b, v)) == Val(f, t, at, b, 0, v)
    decreases |t.id| - t.id[b]
  {
    if b != t.root {
      AboveTop(f, t, at, t.Up(b), v);
      PushedTop(f, t, at, t.Up(b), |f.code[t.Up(b)]|, v);
    }
  }

  // The top of each stack is the value of its slot.
  lemma WalkTop(f: Fn, t: Tree, at: map<Reg, Place>, order: seq<Block>, p: Block, k: nat,
      stack: map<Slot, seq<Operand>>, v: Slot)
    requires Wf(f, t, at) && WalkAt(f, t, at, order, p, k, stack)
    ensures TopOf(Get(stack, v)) == Val(f, t, at, p, k, v)
  {
    assert SlotAt(f, t, at, order, p, k, stack, v);
    AboveTop(f, t, at, p, v);
    PushedTop(f, t, at, p, k, v);
  }

  lemma SlotPush(f: Fn, t: Tree, at: map<Reg, Place>, order: seq<Block>, p: Block, k: nat,
      stack: map<Slot, seq<Operand>>, o: Operand, v: Slot)
    requires Wf(f, t, at) && p in t.up && k < |f.code[p]| && SlotAt(f, t, at, order, p, k, stack, v)
    requires var i := f.code[p][k]; (i.Phi? || i.Store?) && Val(f, t, at, p, k + 1, i.slot) == Some(o)
    ensures
      var u := f.code[p][k].slot;
      SlotAt(f, t, at, order, p, k + 1, stack[u := Get(stack, u) + [o]], v)
  {
    var u := f.code[p][k].slot;
    assert Defines(f.code[p][k], v) <==> v == u;
    assert Pushed(f, t, at, p, k + 1, v) == Pushed(f, t, at, p, k, v) + if v == u then [o] else [];
  }

  // A phi or store pushes.
  lemma WalkPush(f: Fn, t: Tree, at: map<Reg, Place>, order: seq<Block>, p: Block, k: nat,
      stack: map<Slot, seq<Operand>>, o: Operand)
    requires Wf(f, t, at) && WalkAt(f, t, at, order, p, k, stack) && k < |f.code[p]|
    requires var i := f.code[p][k]; (i.Phi? || i.Store?) && Val(f, t, at, p, k + 1, i.slot) == Some(o)
    ensures WalkAt(f, t, at, order, p, k + 1, stack[f.code[p][k].slot := Get(stack, f.code[p][k].slot) + [o]])
  {
    var u, k1 := f.code[p][k].slot, k + 1;
    var stack' := stack[u := Get(stack, u) + [o]];
    forall v ensures SlotAt(f, t, at, order, p, k1, stack', v) {
      assert SlotAt(f, t, at, order, p, k, stack, v);
      SlotPush(f, t, at, order, p, k, stack, o, v);
    }
  }

  // Other instructions do not.
  lemma WalkSkip(f: Fn, t: Tree, at: map<Reg, Place>, order: seq<Block>, p: Block, k: nat,
      stack: map<Slot, seq<Operand>>)
    requires Wf(f, t, at) && WalkAt(f, t, at, order, p, k, stack) && k < |f.code[p]|
    requires !f.code[p][k].Phi? && !f.code[p][k].Store?
    ensures WalkAt(f, t, at, order, p, k + 1, stack)
  {
    var k1 := k + 1;
    forall v ensures SlotAt(f, t, at, order, p, k1, stack, v) {
      assert SlotAt(f, t, at, order, p, k, stack, v);
    }
  }

  // At the end of a block all it decides has a stack.
  lemma WalkEnd(f: Fn, t: Tree, at: map<Reg, Place>, order: seq<Block>, p: Block, stack: map<Slot, seq<Operand>>)
    requires Wf(f, t, at) && p in t.up && WalkAt(f, t, at, order, p, |f.code[p]|, stack)
    ensures KeysFrom(f, order + [p], stack)
  {
    forall v ensures v in stack <==> DecidedIn(f, order + [p], v) {
      assert SlotAt(f, t, at, order, p, |f.code[p]|, stack, v);
      DecidedSnoc(f, order, p, v);
      PushedSome(f, t, at, p, v);
    }
  }

  // The stacks on arrival, with what the block has pushed since.
  lemma WalkSince(f: Fn, t: Tree, at: map<Reg, Place>, order: seq<Block>, p: Block, k: nat,
      base: map<Slot, seq<Operand>>, stack: map<Slot, seq<Operand>>)
    requires Wf(f, t, at) && WalkAt(f, t, at, order, p, 0, base) && WalkAt(f, t, at, order, p, k, stack)
    ensures StackAt(f, t, at, base, stack, p, k)
  {
    forall v ensures SlotStack(f, t, at, base, stack, p, k, v) {
      assert SlotAt(f, t, at, order, p, 0, base, v) && SlotAt(f, t, at, order, p, k, stack, v);
    }
  }

  // The walk comes to a child of b with the stacks as b and the children before have left them.
  lemma WalkToChild(f: Fn, t: Tree, at: map<Reg, Place>, order0: seq<Block>, b: Block, stack0: map<Slot, seq<Operand>>,
      order: seq<Block>, stack: map<Slot, seq<Operand>>, c: Block)
    requires Wf(f, t, at) && b in t.up && WalkAt(f, t, at, order0, b, |f.code[b]|, stack0)
    requires c in Kids(t, b) && Comes(t, order, c) && KeysFrom(f, order, stack)
    requires forall v :: Get(stack, v) == Get(stack0, v)
    ensures WalkAt(f, t, at, order, c, 0, stack)
  {
    forall v ensures SlotAt(f, t, at, order, c, 0, stack, v) {
      assert SlotAt(f, t, at, order0, b, |f.code[b]|, stack0, v);
    }
  }

  function Later(k: nat, m: nat): nat
  {
    if k < m then m else k
  }

  // ---- What a walk looks for ----

  // A load finds a value on the stack of its slot.
  ghost predicate LoadFinds(f: Fn, b: Block, k: nat, stack: map<Slot, seq<Operand>>)
    requires b in f.code && k < |f.code[b]|
  {
    f.code[b][k].Load? ==> f.code[b][k].slot in stack && stack[f.code[b][k].slot] != []
  }

  // The stack of a successor's phi is not empty, if there is one.
  ghost predicate PhiFinds(f: Fn, p: Block, b: Block, v: Slot, stack: map<Slot, seq<Operand>>)
  {
    f.g.Edge(p, b) && HasPhi(f, b, v) && v in stack ==> stack[v] != []
  }

  ghost predicate Finds(f: Fn, p: Block, k: nat, stack: map<Slot, seq<Operand>>)
    requires p in f.code && k <= |f.code[p]|
  {
    if k < |f.code[p]| then LoadFinds(f, p, k, stack) else forall b, v :: PhiFinds(f, p, b, v, stack)
  }

  // In every state of every walk the renaming finds what it looks for.
  ghost predicate AlwaysFinds(f: Fn, t: Tree, at: map<Reg, Place>)
    requires Wf(f, t, at)
  {
    forall order, p, k: nat, stack {:trigger WalkAt(f, t, at, order, p, k, stack)} ::
      WalkAt(f, t, at, order, p, k, stack) ==> Finds(f, p, k, stack)
  }

  // ---- Stacks for every walk ----

  function SlotsOf(f: Fn): set<Slot>
  {
    set b, k | b in f.code && 0 <= k < |f.code[b]| && (f.code[b][k].Store? || f.code[b][k].Phi?) :: f.code[b][k].slot
  }

  ghost function StackIn(f: Fn, t: Tree, at: map<Reg, Place>, order: seq<Block>, p: Block, k: nat)
      : map<Slot, seq<Operand>>
    requires Wf(f, t, at) && p in t.up && k <= |f.code[p]|
  {
    map v | v in SlotsOf(f) && (DecidedIn(f, order, v) || Pushed(f, t, at, p, k, v) != []) ::
      Above(f, t, at, p, v) + Pushed(f, t, at, p, k, v)
  }

  lemma DecidedSlot(f: Fn, order: seq<Block>, v: Slot)
    requires DecidedIn(f, order, v)
    ensures v in SlotsOf(f)
  {
    var d :| d in order && BlockDefines(f, d, v);
    var k :| 0 <= k < |f.code[d]| && Defines(f.code[d][k], v);
  }

  lemma PushedSlot(f: Fn, t: Tree, at: map<Reg, Place>, b: Block, k: nat, v: Slot)
    requires Wf(f, t, at) && b in t.up && k <= |f.code[b]| && Pushed(f, t, at, b, k, v) != []
    ensures BlockDefines(f, b, v) && v in SlotsOf(f)
  {
    PushedGrows(f, t, at, b, k, |f.code[b]|, v);
    PushedSome(f, t, at, b, v);
    assert DecidedIn(f, [b], v);
    DecidedSlot(f, [b], v);
  }

  // What has been pushed above a block, has been pushed by a block visited.
  lemma {:induction false} AboveDecided(f: Fn, t: Tree, at: map<Reg, Place>, order: seq<Block>, p: Block, v: Slot)
    requires Wf(f, t, at) && p in t.up && AboveVisited(t, order, p) && Above(f, t, at, p, v) != []
    ensures DecidedIn(f, order, v)
    decreases |t.id| - t.id[p]
  {
    var q := t.Up(p);
    t.AncAbove(p, q);
    if Pushed(f, t, at, q, |f.code[q]|, v) != [] {
      PushedSlot(f, t, at, q, |f.code[q]|, v);
    } else {
      forall a | a in t.Anc(q) && a != q ensures a in order {
        AboveProperly(t, p, a);
      }
      AboveDecided(f, t, at, order, q, v);
    }
  }

  lemma AboveProperly(t: Tree, p: Block, a: Block)
    requires t.Valid() && p in t.up && p != t.root && a in t.Anc(t.Up(p))
    ensures a in t.Anc(p) && a != p
  {
    t.AncAbove(t.Up(p), a);
  }

  // Wherever a walk can come, it comes with stacks, and they are determined.
  lemma WalkExists(f: Fn, t: Tree, at: map<Reg, Place>, order: seq<Block>, p: Block, k: nat)
    requires Wf(f, t, at) && p in t.up && k <= |f.code[p]| && Comes(t, order, p)
    ensures forall stack :: WalkAt(f, t, at, order, p, k, stack) <==> stack == StackIn(f, t, at, order, p, k)
  {
    var made := StackIn(f, t, at, order, p, k);
    ComesArrives(t, order, p);
    forall v ensures SlotAt(f, t, at, order, p, k, made, v) {
      if DecidedIn(f, order, v) {
        DecidedSlot(f, order, v);
      } else if Pushed(f, t, at, p, k, v) != [] {
        PushedSlot(f, t, at, p, k, v);
      } else if Above(f, t, at, p, v) != [] {
        AboveDecided(f, t, at, order, p, v);
      }
    }
    forall stack | WalkAt(f, t, at, order, p, k, stack) ensures stack == made {
      forall v ensures (v in stack <==> v in made) && Get(stack, v) == Get(made, v) {
        assert SlotAt(f, t, at, order, p, k, stack, v) && SlotAt(f, t, at, order, p, k, made, v);
      }
    }
  }

  // ---- When the stacks are never found empty ----

  lemma SameDecided(f: Fn, order: seq<Block>, walk: seq<Block>, v: Slot)
    requires DecidedIn(f, order, v) && forall x :: x in order ==> x in walk
    ensures DecidedIn(f, walk, v)
  {
    var d :| d in order && BlockDefines(f, d, v);
    assert d in walk;
  }

  // On an unsafe edge some walk meets an empty stack: one that has been over the subtree with a
  // block that decides v before it comes to p.
  lemma UnsafeEdgeMet(f: Fn, t: Tree, at: map<Reg, Place>, p: Block, b: Block, v: Slot) returns (order: seq<Block>)
    requires Wf(f, t, at) && p in t.up && !EdgeSafe(f, t, at, p, b, v)
    ensures Comes(t, order, p)
    ensures forall stack :: WalkAt(f, t, at, order, p, |f.code[p]|, stack) ==>
      v in stack && stack[v] == [] && !PhiFinds(f, p, b, v, stack)
  {
    var d, x, y := UnsafeEdge(f, t, at, p, b, v);
    var some := ArrivesAfter(t, p, x, y);
    order := SomeWalkComes(t, some, p);
    assert InSubtree(t, x, d) && DecidedIn(f, some, v);
    SameDecided(f, some, order, v);
    ValOutSomeIff(f, t, at, p, v);
    forall stack | WalkAt(f, t, at, order, p, |f.code[p]|, stack) ensures v in stack && stack[v] == [] {
      assert SlotAt(f, t, at, order, p, |f.code[p]|, stack, v);
      WalkTop(f, t, at, order, p, |f.code[p]|, stack, v);
    }
  }

  // A load without a value is met by every walk, with an empty stack or none.
  lemma LoadMissed(f: Fn, t: Tree, at: map<Reg, Place>, order: seq<Block>, p: Block, k: nat,
      stack: map<Slot, seq<Operand>>)
    requires Wf(f, t, at) && WalkAt(f, t, at, order, p, k, stack) && k < |f.code[p]|
    ensures LoadFinds(f, p, k, stack) <==> LoadDefined(f, t, at, p, k)
  {
    if f.code[p][k].Load? {
      WalkTop(f, t, at, order, p, k, stack, f.code[p][k].slot);
    }
  }

  // What only p and blocks below it decide has not been decided when the walk comes to p.
  lemma DecidedHere(f: Fn, t: Tree, order: seq<Block>, p: Block, v: Slot)
    requires t.Valid() && p in t.up && SubtreeFresh(t, order, p) && (forall d :: d in order ==> d in t.up)
    requires DominatesDefiners(f, t, p, v)
    ensures !DecidedIn(f, order, v)
  {
    forall d | d in order ensures !BlockDefines(f, d, v) {
      assert d in t.up && !InSubtree(t, p, d);
    }
  }

  // The phis of successors find a value at the end of a block whose edges are safe.
  lemma PhiMet(f: Fn, t: Tree, at: map<Reg, Place>, order: seq<Block>, p: Block, b: Block, v: Slot,
      stack: map<Slot, seq<Operand>>)
    requires Wf(f, t, at) && p in t.up && WalkAt(f, t, at, order, p, |f.code[p]|, stack) &&
      EdgeSafe(f, t, at, p, b, v)
    ensures PhiFinds(f, p, b, v, stack)
  {
    if f.g.Edge(p, b) && HasPhi(f, b, v) && v in stack {
      assert SlotAt(f, t, at, order, p, |f.code[p]|, stack, v);
      if ValOut(f, t, at, p, v).Some? {
        WalkTop(f, t, at, order, p, |f.code[p]|, stack, v);
      } else {
        ComesArrives(t, order, p);
        DecidedHere(f, t, order, p, v);
      }
    }
  }

  lemma UndefinedLoadMet(f: Fn, t: Tree, at: map<Reg, Place>, b: Block, k: nat)
    requires Wf(f, t, at) && b in t.up && k < |f.code[b]| && !LoadDefined(f, t, at, b, k)
    ensures !AlwaysFinds(f, t, at)
  {
    var some := ArrivesFirst(t, b);
    var order := SomeWalkComes(t, some, b);
    var stack := StackIn(f, t, at, order, b, k);
    WalkExists(f, t, at, order, b, k);
    assert WalkAt(f, t, at, order, b, k, stack);
    LoadMissed(f, t, at, order, b, k, stack);
    assert !Finds(f, b, k, stack);
  }

  lemma UnsafeEdgeNotFound(f: Fn, t: Tree, at: map<Reg, Place>, p: Block, b: Block, v: Slot)
    requires Wf(f, t, at) && p in t.up && !EdgeSafe(f, t, at, p, b, v)
    ensures !AlwaysFinds(f, t, at)
  {
    var order := UnsafeEdgeMet(f, t, at, p, b, v);
    var n := |f.code[p]|;
    WalkExists(f, t, at, order, p, n);
    var stack := StackIn(f, t, at, order, p, n);
    assert WalkAt(f, t, at, order, p, n, stack) && !PhiFinds(f, p, b, v, stack);
    assert !Finds(f, p, n, stack);
  }

  // The renaming finds every value in every walk if and only if every load and every edge is safe.
  lemma AlwaysFindsIff(f: Fn, t: Tree, at: map<Reg, Place>)
    requires Wf(f, t, at)
    ensures AlwaysFinds(f, t, at) <==> AllDefined(f, t, at)
  {
    if AllDefined(f, t, at) {
      forall order, p, k: nat, stack | WalkAt(f, t, at, order, p, k, stack) ensures Finds(f, p, k, stack) {
        if k < |f.code[p]| {
          assert LoadDefined(f, t, at, p, k);
          LoadMissed(f, t, at, order, p, k, stack);
        } else {
          forall b, v ensures PhiFinds(f, p, b, v, stack) {
            assert EdgeSafe(f, t, at, p, b, v);
            PhiMet(f, t, at, order, p, b, v, stack);
          }
        }
      }
    } else if b, k: nat :| b in t.up && k < |f.code[b]| && !LoadDefined(f, t, at, b, k) {
      UndefinedLoadMet(f, t, at, b, k);
    } else {
      var p, b, v :| p in t.up && !EdgeSafe(f, t, at, p, b, v);
      UnsafeEdgeNotFound(f, t, at, p, b, v);
    }
  }

  // Whatever the order of the children, the renaming finds every value if and only if the
  // original function meets the two conditions.
  lemma FindsIffAssigned(f0: Fn, f: Fn, next: nat, has: map<Slot, set<Block>>, t: Tree)
    requires Input(f0, next) && PlacedFrom(f0, f, next, has) && IsDomTree(f.g, t)
    ensures Wf(f, t, PlaceMap(f.code)) && (AlwaysFinds(f, t, PlaceMap(f.code)) <==> Assigned(f.g, f0.code))
  {
    WfAfterPlacing(f0, f, next, has, t);
    AlwaysFindsIff(f, t, PlaceMap(f.code));
    DefinedIffAssigned(f0, f, next, has, t);
  }
}
