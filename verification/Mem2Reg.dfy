// The pass that turns slots into values: it places phis, renames along the dominator tree
// with one stack per slot, and removes the slots.
module Mem2Reg {
  import opened Graph
  import opened DomTree
  import opened IR
  import opened Ssa
  import opened RenameMeaning
  import opened Rename
  import opened PhiPlacement
  import opened RenameFinal
  import opened Dominators
  import opened PlacedFunction
  import opened TreeWalk
  import opened DepthFirst
  import opened StackTops
  import opened RenamedForm

  // The loads of the blocks in `order`, and of the first k instructions of b.
  ghost function LoadsUpTo(f: Fn, at: map<Reg, Place>, order: seq<Block>, b: Block, k: nat): set<Reg>
  {
    set r | r in at && IsLoad(f, at, r) && (at[r].b in order || (at[r].b == b && at[r].k < k))
  }

  ghost function LoadsOf(f: Fn, at: map<Reg, Place>, order: seq<Block>): set<Reg>
  {
    set r | r in at && IsLoad(f, at, r) && at[r].b in order
  }

  lemma LoadsStart(f: Fn, at: map<Reg, Place>, order: seq<Block>, b: Block)
    ensures LoadsUpTo(f, at, order, b, 0) == LoadsOf(f, at, order)
  {
  }

  lemma LoadsEnd(f: Fn, at: map<Reg, Place>, order: seq<Block>, b: Block)
    requires b in f.code
    ensures LoadsUpTo(f, at, order, b, |f.code[b]|) == LoadsOf(f, at, order + [b])
  {
  }

  lemma LoadsStep(f: Fn, t: Tree, at: map<Reg, Place>, order: seq<Block>, b: Block, k: nat)
    requires Wf(f, t, at) && b in t.up && k < |f.code[b]|
    requires forall c {:trigger c in order} :: c in order ==> c in t.up
    ensures LoadsUpTo(f, at, order, b, k + 1) ==
      LoadsUpTo(f, at, order, b, k) + (if f.code[b][k].Load? then {f.code[b][k].id} else {})
    ensures !f.code[b][k].Load? ==> LoadsUpTo(f, at, order, b, k + 1) == LoadsUpTo(f, at, order, b, k)
    ensures LoadsOnly(f, t, at, LoadsUpTo(f, at, order, b, k + 1))
  {
    assert PlacedAt(f, at, b, k);
    var k1 := k + 1;
    forall r ensures r in LoadsUpTo(f, at, order, b, k1) <==>
      r in LoadsUpTo(f, at, order, b, k) + (if f.code[b][k].Load? then {f.code[b][k].id} else {})
    {
      if r in at && at[r] == Place(b, k) {
        assert Located(f, at, r);
      }
    }
  }

  // The operand the code holds at a store, when all loads before it have been replaced, is the
  // traced one.
  lemma StoredOperand(f: Fn, t: Tree, at: map<Reg, Place>, order: seq<Block>, b: Block, k: nat)
    requires Wf(f, t, at) && AllDefined(f, t, at) && b in t.up && k < |f.code[b]| && f.code[b][k].Store?
    requires AboveVisited(t, order, b)
    ensures Val(f, t, at, b, k + 1, f.code[b][k].slot) ==
      Some(SubIn(f, t, at, LoadsUpTo(f, at, order, b, k), f.code[b][k].value))
  {
    var o := f.code[b][k].value;
    assert UsesDefined(f, t, at, b, k) && o in Uses(f.code[b][k]);
    ResAvailable(f, t, at, b, k, o);
  }

  lemma LoadedOperand(f: Fn, t: Tree, at: map<Reg, Place>, b: Block, k: nat)
    requires Wf(f, t, at) && AllDefined(f, t, at) && b in t.up && k < |f.code[b]| && f.code[b][k].Load?
    ensures Val(f, t, at, b, k, f.code[b][k].slot) == Some(Sub(f, t, at, Result(f.code[b][k].id)))
  {
    assert PlacedAt(f, at, b, k) && LoadDefined(f, t, at, b, k);
    assert Located(f, at, f.code[b][k].id);
  }

  // Replacing the k-th instruction of b, if it is a load, is one step of the renaming.
  lemma LoadReplaced(f: Fn, t: Tree, at: map<Reg, Place>, order: seq<Block>, done: set<Block>, b: Block, k: nat,
      fed: seq<(Block, Block)>,
                     code: map<Block, seq<Instr>>, term: map<Block, Term>, code': map<Block, seq<Instr>>,
                       term': map<Block, Term>, repl: Operand)
    requires Wf(f, t, at) && AllDefined(f, t, at) && b in t.up && k < |f.code[b]|
    requires forall c {:trigger c in order} :: c in order ==> c in t.up
    requires Shape(f, t, at, LoadsUpTo(f, at, order, b, k), fed, done, code, term)
    requires f.code[b][k].Load? && Val(f, t, at, b, k, f.code[b][k].slot) == Some(repl)
    requires code'.Keys == code.Keys && term'.Keys == term.Keys
    requires forall c {:trigger code'[c]} :: c in code' ==> code'[c] == ReplaceCode(code[c], f.code[b][k].id, repl)
    requires forall c {:trigger term'[c]} :: c in term' ==> term'[c] == ReplaceTerm(term[c], f.code[b][k].id, repl)
    ensures Shape(f, t, at, LoadsUpTo(f, at, order, b, k + 1), fed, done, code', term')
  {
    LoadsStep(f, t, at, order, b, k);
    LoadedOperand(f, t, at, b, k);
    CodeReplaced(f, t, at, LoadsUpTo(f, at, order, b, k), fed, done, code, f.code[b][k].id, code');
    TermsReplaced(f, t, at, LoadsUpTo(f, at, order, b, k), term, f.code[b][k].id, term');
  }

  function IdSet(s: seq<Reg>): set<Reg>
  {
    set r | r in s
  }

  lemma AccessesSnoc(s: seq<Instr>, k: nat)
    requires k < |s|
    ensures Accesses(s[..k + 1]) == Accesses(s[..k]) + (if s[k].Load? || s[k].Store? then {s[k].id} else {})
  {
  }

  // A block whose accesses have not been deleted still has its instructions one to one.
  lemma BlockInProgress(f: Fn, t: Tree, at: map<Reg, Place>, subst: set<Reg>, fed: seq<(Block, Block)>,
      done: set<Block>, code: map<Block, seq<Instr>>, term: map<Block, Term>, b: Block)
    requires Wf(f, t, at) && b in t.up && b !in done && Shape(f, t, at, subst, fed, done, code, term)
    ensures b in code && code[b] == Render(f, t, at, subst, fed, b)
  {
    assert BlockShape(f, t, at, subst, fed, done, code, b);
    WithoutNone(Render(f, t, at, subst, fed, b));
  }

  function TopFn(stack: map<Slot, seq<Operand>>): Slot -> Option<Operand>
  {
    (v: Slot) => TopOf(Get(stack, v))
  }

  // At the end of bb, if a phi of a successor has a stack for its slot, the stack is not
  // empty: the blocks that decide the slot without dominating bb have not been visited.
  lemma PhisHaveTops(f: Fn, t: Tree, at: map<Reg, Place>, subst: set<Reg>, fed: seq<(Block, Block)>, done: set<Block>,
      code: map<Block, seq<Instr>>, order: seq<Block>, stack: map<Slot, seq<Operand>>, bb: Block, s: Block)
    requires Wf(f, t, at) && AllDefined(f, t, at) && bb in t.up && f.g.Edge(bb, s) && s in f.code
    requires CodeShape(f, t, at, subst, fed, done, code) && WalkAt(f, t, at, order, bb, |f.code[bb]|, stack)
    ensures forall v :: TopFn(stack)(v) == Content(f, t, at, bb, v)
    ensures s in code && forall k :: 0 <= k < |code[s]| && code[s][k].Phi? && code[s][k].slot in stack ==>
      stack[code[s][k].slot] != []
  {
    forall v ensures TopFn(stack)(v) == Content(f, t, at, bb, v) {
      WalkTop(f, t, at, order, bb, |f.code[bb]|, stack, v);
    }
    assert BlockShape(f, t, at, subst, fed, done, code, s);
    forall k | 0 <= k < |code[s]| && code[s][k].Phi? && code[s][k].slot in stack ensures stack[code[s][k].slot] != [] {
      var r := Render(f, t, at, subst, fed, s);
      WithoutFrom(r, if s in done then Accesses(f.code[s]) else {}, k);
      var j :| 0 <= j < |r| && code[s][k] == r[j];
      assert f.code[s][j].Phi?;
      assert EdgeSafe(f, t, at, bb, s, f.code[s][j].slot);
      PhiMet(f, t, at, order, bb, s, f.code[s][j].slot, stack);
    }
  }

  // The children lists that the dominator pass has left.
  ghost predicate IsChildren(t: Tree, children: map<Block, set<Block>>)
  {
    (forall b :: b in t.up ==> b in children)
    && forall b, c {:trigger c in children[b]} :: b in children ==>
      (c in children[b] <==> c in t.up && c != t.root && t.Up(c) == b)
  }

  function LeadingPhis(s: seq<Instr>): nat
  {
    if s == [] || !s[0].Phi? then 0 else 1 + LeadingPhis(s[1..])
  }

  lemma {:induction false} LeadingPhisPrefix(s: seq<Instr>)
    requires PhisFirst(s)
    ensures LeadingPhis(s) <= |s|
    ensures forall i :: 0 <= i < LeadingPhis(s) ==> s[i].Phi?
    ensures forall i :: LeadingPhis(s) <= i < |s| ==> !s[i].Phi?
  {
    if s != [] && s[0].Phi? {
      LeadingPhisPrefix(s[1..]);
      assert forall i :: 1 <= i < |s| ==> s[i] == s[1..][i - 1];
    }
  }

  lemma StackAtSame(f: Fn, t: Tree, at: map<Reg, Place>, base: map<Slot, seq<Operand>>, stack: map<Slot, seq<Operand>>,
      stack': map<Slot, seq<Operand>>, b: Block, k: nat)
    requires Wf(f, t, at) && b in t.up && k <= |f.code[b]| && StackAt(f, t, at, base, stack, b, k)
    requires forall v :: Get(stack', v) == Get(stack, v)
    ensures StackAt(f, t, at, base, stack', b, k)
  {
    forall v ensures SlotStack(f, t, at, base, stack', b, k, v) {
      assert SlotStack(f, t, at, base, stack, b, k, v);
    }
  }

  lemma OneTaken(all: set<Block>, todo: set<Block>, c: Block)
    requires todo <= all && c in todo
    ensures all - (todo - {c}) == all - todo + {c}
  {
  }

  // The walk may go on to the next child.
  lemma ChildReady(f: Fn, t: Tree, at: map<Reg, Place>, stack0: map<Slot, seq<Operand>>,
      stack: map<Slot, seq<Operand>>, order0: seq<Block>, order: seq<Block>, b: Block, handled: set<Block>, c: Block)
    requires Wf(f, t, at) && b in t.up && WalkAt(f, t, at, order0, b, |f.code[b]|, stack0) && c in Kids(t, b)
    requires HandledSince(t, order0, b, handled, order) && handled <= Kids(t, b) - {c} && KeysFrom(f, order, stack)
    requires forall v :: Get(stack, v) == Get(stack0, v)
    ensures WalkAt(f, t, at, order, c, 0, stack) && t.id[c] < t.id[b]
  {
    assert t.id[c] < t.id[t.Up(c)];
    var l := order[|order0| + 1..];
    assert order == order0 + ([b] + l) && order0 + [b] + l == order;
    ComesToChild(t, order0, b, handled, l, c);
    WalkToChild(f, t, at, order0, b, stack0, order, stack, c);
  }

  // Since the walk came to b, it has listed b and the handled children with all below them.
  ghost predicate HandledSince(t: Tree, order0: seq<Block>, b: Block, handled: set<Block>, order: seq<Block>)
    requires t.Valid()
  {
    order0 + [b] <= order && forall l {:trigger [b] + l} :: order == order0 + ([b] + l) ==> ListsAll(t, handled, l)
  }

  lemma NoneHandled(t: Tree, order0: seq<Block>, b: Block, kids: set<Block>, todo: set<Block>)
    requires t.Valid() && kids <= todo
    ensures HandledSince(t, order0, b, kids - todo, order0 + [b])
  {
    assert kids - todo == {};
    forall l | order0 + [b] == order0 + ([b] + l) ensures l == [] {
      assert |order0 + [b]| == |order0| + 1 + |l|;
    }
  }

  // The walk has listed the subtree of b.
  ghost predicate Listed(t: Tree, b: Block, order0: seq<Block>, order: seq<Block>)
    requires t.Valid()
  {
    order0 <= order && forall l {:trigger order0 + l} :: order == order0 + l ==> Lists(t, b, l)
  }

  lemma AllListed(t: Tree, order0: seq<Block>, b: Block, order: seq<Block>)
    requires t.Valid() && HandledSince(t, order0, b, Kids(t, b), order)
    ensures Listed(t, b, order0, order)
  {
    forall l | order == order0 + l ensures Lists(t, b, l) {
      assert order[|order0|] == b;
      assert l == [b] + l[1..];
    }
  }

  lemma NotYetVisited(t: Tree, order: seq<Block>, b: Block)
    requires t.Valid() && b in t.up && Comes(t, order, b)
    ensures b !in order && AboveVisited(t, order, b) && forall c {:trigger c in order} :: c in order ==> c in t.up
  {
    ComesArrives(t, order, b);
    assert InSubtree(t, b, b);
  }

  lemma OneMoreVisited(t: Tree, g: Cfg, order: seq<Block>, b: Block)
    requires t.Valid() && g.Valid() && b in t.up && b in g.blocks && Preorder(t, order) && b !in order &&
      AboveVisited(t, order, b)
    ensures Preorder(t, order + [b]) && AllEdges(g, order + [b]) == AllEdges(g, order) + EdgesOf(g, b)
  {
    EdgesSnoc(g, order, b);
    PreorderSnoc(t, order, b);
  }

  // On arrival a block has its phis first, and has not been renamed.
  lemma BlockEntered(f: Fn, t: Tree, at: map<Reg, Place>, order: seq<Block>, fed: seq<(Block, Block)>,
      done: set<Block>, code: map<Block, seq<Instr>>, term: map<Block, Term>, b: Block) returns (m: nat)
    requires Wf(f, t, at) && b in t.up && Comes(t, order, b) && forall x :: x in done ==> x in order
    requires Shape(f, t, at, LoadsOf(f, at, order), fed, done, code, term)
    ensures PhiPrefix(f, b, m) && b in code && code[b] == Render(f, t, at, LoadsOf(f, at, order), fed, b)
    ensures b !in order && AboveVisited(t, order, b) && forall c {:trigger c in order} :: c in order ==> c in t.up
  {
    m := LeadingPhis(f.code[b]);
    assert PhisFirst(f.code[b]);
    LeadingPhisPrefix(f.code[b]);
    NotYetVisited(t, order, b);
    BlockInProgress(f, t, at, LoadsOf(f, at, order), fed, done, code, term, b);
  }

  // The deletions so far, since the walk came to a block: those of the handled children.
  ghost predicate DoneSince(t: Tree, done0: set<Block>, handled: set<Block>, done: set<Block>)
    requires t.Valid()
  {
    forall x :: x in done <==> x in done0 || Handled(t, handled, x)
  }

  lemma ChildDone(t: Tree, order0: seq<Block>, done0: set<Block>, b: Block, kids: set<Block>, todo: set<Block>,
      order1: seq<Block>, done1: set<Block>, c: Block, order: seq<Block>, done: set<Block>)
    requires t.Valid() && todo <= kids && c in todo
    requires HandledSince(t, order0, b, kids - todo, order1) && DoneSince(t, done0, kids - todo, done1)
    requires Listed(t, c, order1, order)
    requires forall x :: x in done <==> x in done1 || InSubtree(t, c, x)
    ensures HandledSince(t, order0, b, kids - (todo - {c}), order) && DoneSince(t, done0, kids - (todo - {c}), done)
  {
    var handled := kids - todo;
    var l, m := order1[|order0| + 1..], order[|order1|..];
    assert order1 == order0 + ([b] + l) && order == order1 + m;
    ListsSnoc(t, handled, l, c, m);
    forall rest | order == order0 + ([b] + rest) ensures ListsAll(t, handled + {c}, rest) {
      assert rest == l + m;
    }
    HandledMore(t, handled, c);
    OneTaken(kids, todo, c);
  }

  lemma StoresInSnoc(s: seq<Instr>, k: nat)
    requires k < |s|
    ensures forall v :: StoresIn(s[..k + 1], v) <==> StoresIn(s[..k], v) || (s[k].Store? && s[k].slot == v)
  {
    var a, b := s[..k], s[..k + 1];
    forall v ensures StoresIn(b, v) <==> StoresIn(a, v) || (s[k].Store? && s[k].slot == v) {
      if StoresIn(a, v) {
        var j :| 0 <= j < |a| && a[j].Store? && a[j].slot == v;
        assert b[j] == a[j];
      }
      if s[k].Store? && s[k].slot == v {
        assert b[k] == s[k];
      }
      if StoresIn(b, v) {
        var j :| 0 <= j < |b| && b[j].Store? && b[j].slot == v;
        assert j < k ==> a[j] == b[j];
      }
    }
  }

  // The elements of a set in some order.
  method ListOf(s: set<Block>) returns (list: seq<Block>)
    ensures forall b :: b in list <==> b in s
  {
    list := [];
    var todo := s;
    while todo != {}
      invariant todo <= s && forall b :: b in list <==> b in s - todo
      decreases todo
    {
      var b :| b in todo;
      list := list + [b];
      todo := todo - {b};
    }
  }

  // The work list holds the storing blocks and those given a phi, and no phi is superfluous.
  ghost predicate WorkState(df: map<Block, set<Block>>, defs: set<Block>, workList: seq<Block>, hasPhi: set<Block>)
  {
    && (forall b :: b in workList <==> b in defs || b in hasPhi)
    && (forall q :: FrontierClosed(df, defs, q) ==> hasPhi <= q)
  }

  // A block in the frontier of a work list entry belongs to every closed set.
  lemma FrontierForced(df: map<Block, set<Block>>, defs: set<Block>, p: set<Block>, bb: Block, x: Block)
    requires bb in df && x in df[bb] && (bb in defs || bb in p)
    requires forall q :: FrontierClosed(df, defs, q) ==> p <= q
    ensures forall q :: FrontierClosed(df, defs, q) ==> p + {x} <= q
  {
    forall q | FrontierClosed(df, defs, q) ensures p + {x} <= q {
      assert FrontierWithin(df, bb, q);
    }
  }

  lemma ScalarSlotsSnoc(s: seq<Instr>, k: nat)
    requires k < |s|
    ensures ScalarSlots(s[..k + 1]) == ScalarSlots(s[..k]) + (if s[k].Alloca? && s[k].scalar then {s[k].id} else {})
  {
  }

  // ---- From one phase to the next ----

  predicate SlotFree(s: seq<Instr>)
  {
    forall k :: 0 <= k < |s| ==> !Dropped(s[k])
  }

  lemma ChildrenComputed(g: Cfg, t: Tree, children: map<Block, set<Block>>)
    requires IsDomTree(g, t) && children.Keys == g.blocks
    requires forall b, c :: b in g.blocks ==>
      (c in children[b] <==> c in g.blocks && c in t.up && c != g.entry && t.up[c] == b)
    ensures IsChildren(t, children)
  {
    forall b | b in t.up ensures b in g.blocks {
      assert g.Reachable(b);
      g.ReachableInBlocks(b);
    }
  }

  lemma FrontiersComputed(g: Cfg, t: Tree, df: map<Block, set<Block>>)
    requires IsDomTree(g, t) && g.pred[g.entry] == [] && df.Keys == g.blocks
    requires forall n, x :: n in g.blocks ==> (x in df[n] <==> InFrontier(g, t, n, x))
    ensures df == Frontiers(g) && forall b :: b in df ==> df[b] <= g.blocks
  {
    forall n, x | n in g.blocks ensures x in df[n] <==> x in g.blocks && Merges(g, n, x) {
      MergesIsFrontier(g, t, n, x);
    }
    forall n | n in g.blocks ensures df[n] == Frontiers(g)[n] {
    }
  }

  // With its phis placed, the function is ready for the renaming.
  lemma Prepared(f0: Fn, f: Fn, next0: nat, next: nat, has: map<Slot, set<Block>>, t: Tree, df: map<Block, set<Block>>)
    requires Input(f0, next0) && next0 <= next && f0.g == f.g && f.term == f0.term
    requires Placed(f0.code, f.code, has) && Identities(f.code, next)
    requires IsDomTree(f.g, t) && df == Frontiers(f.g) && Assigned(f.g, f0.code)
    requires forall v :: v !in has ==> StoreBlocks(f0.code, v) == {}
    requires forall v :: v in has ==> has[v] <= f.code.Keys && IsIteratedFrontier(df, StoreBlocks(f0.code, v), has[v])
    ensures Ready(f0, f, t, PlaceMap(f.code)) && PlacedFrom(f0, f, next, has) && Input(f0, next)
  {
    forall v | v in has ensures has[v] == IteratedFrontier(f.g, StoreBlocks(f0.code, v)) {
      LeastIsUnique(f.g, StoreBlocks(f0.code, v), has[v]);
    }
    WfAfterPlacing(f0, f, next, has, t);
    ClosedAfterPlacing(f0, f, next, has, t);
    DefinedFromAssigned(f0, f, next, has, t);
  }

  lemma BlockUntouched(f0: Fn, f: Fn, has: map<Slot, set<Block>>, t: Tree, at: map<Reg, Place>, c: Block)
    requires Wf(f, t, at) && Placed(f0.code, f.code, has) && c in f.code
    requires forall k :: 0 <= k < |f0.code[c]| ==> !f0.code[c][k].Phi?
    ensures Render(f, t, at, {}, [], c) == f.code[c]
  {
    assert PlacedIn(f0.code, f.code, has, c);
    var m := |f.code[c]| - |f0.code[c]|;
    forall k | 0 <= k < |f.code[c]| ensures RenderInstr(f, t, at, {}, [], c, f.code[c][k]) == f.code[c][k] {
      assert k >= m ==> f.code[c][k] == f0.code[c][k - m];
      match f.code[c][k]
      case Compute(_, _, args) => assert SubAllIn(f, t, at, {}, args) == args;
      case Effect(_, _, args) => assert SubAllIn(f, t, at, {}, args) == args;
      case _ =>
    }
  }

  lemma BlockStarts(f0: Fn, f: Fn, has: map<Slot, set<Block>>, t: Tree, at: map<Reg, Place>, c: Block)
    requires Wf(f, t, at) && Placed(f0.code, f.code, has) && c in f.code
    requires forall k :: 0 <= k < |f0.code[c]| ==> !f0.code[c][k].Phi?
    ensures BlockShape(f, t, at, {}, [], {}, f.code, c) && TermShape(f, t, at, {}, f.term, c)
  {
    assert f.SuccessorsRecorded(c);
    BlockUntouched(f0, f, has, t, at, c);
    WithoutNone(f.code[c]);
  }

  // Before the first visit nothing has been replaced, fed or deleted.
  lemma ShapeStarts(f0: Fn, f: Fn, has: map<Slot, set<Block>>, t: Tree, at: map<Reg, Place>)
    requires Wf(f, t, at) && Placed(f0.code, f.code, has)
    requires forall c, k {:trigger f0.code[c][k]} :: c in f0.code && 0 <= k < |f0.code[c]| ==> !f0.code[c][k].Phi?
    ensures Shape(f, t, at, {}, [], {}, f.code, f.term)
  {
    forall c | c in f.code ensures BlockShape(f, t, at, {}, [], {}, f.code, c) && TermShape(f, t, at, {}, f.term, c) {
      BlockStarts(f0, f, has, t, at, c);
    }
  }

  lemma RenamingStarts(f0: Fn, f: Fn, next: nat, has: map<Slot, set<Block>>, t: Tree, at: map<Reg, Place>)
    requires Input(f0, next) && PlacedFrom(f0, f, next, has) && Wf(f, t, at)
    ensures Shape(f, t, at, LoadsOf(f, at, []), AllEdges(f.g, []), {}, f.code, f.term)
    ensures WalkAt(f, t, at, [], f.g.entry, 0, map[]) && Preorder(t, [])
  {
    assert LoadsOf(f, at, []) == {};
    ShapeStarts(f0, f, has, t, at);
    assert t.Anc(f.g.entry) == {f.g.entry};
  }

  lemma {:induction false} RenderedSlotFree(f: Fn, t: Tree, at: map<Reg, Place>, b: Block, k: nat, out: seq<Instr>)
    requires Wf(f, t, at) && b in f.code && k <= |f.code[b]| && Rendered(f, t, at, b, k, out)
    ensures SlotFree(out)
  {
    if k > 0 {
      if Dropped(f.code[b][k - 1]) {
        RenderedSlotFree(f, t, at, b, k - 1, out);
      } else {
        RenderedSlotFree(f, t, at, b, k - 1, out[..|out| - 1]);
      }
    }
  }

  // The phi has one pair for every edge into c from a reachable block that a block deciding v
  // dominates, and no other pairs.
  ghost predicate FedPerEdge(g: Cfg, code0: map<Block, seq<Instr>>, c: Block, v: Slot, ins: seq<(Operand, Block)>)
    requires g.Valid()
  {
    forall p :: multiset(Sources(ins))[p] ==
      if g.Reachable(p) && (exists a :: g.Dom(a, p) && Decides(g, code0, a, v)) then EdgesBetween(g, p, c) else 0
  }

  lemma CompletePerEdge(f0: Fn, f: Fn, next: nat, has: map<Slot, set<Block>>, t: Tree, c: Block, v: Slot,
      ins: seq<(Operand, Block)>)
    requires Input(f0, next) && PlacedFrom(f0, f, next, has) && IsDomTree(f.g, t)
    requires Wf(f, t, PlaceMap(f.code)) && PhiComplete(f, t, PlaceMap(f.code), c, v, ins)
    ensures FedPerEdge(f.g, f0.code, c, v, ins)
  {
    forall p ensures p in t.up && ValOut(f, t, PlaceMap(f.code), p, v).Some? <==>
      f.g.Reachable(p) && (exists a :: f.g.Dom(a, p) && Decides(f.g, f0.code, a, v)) {
      if p in t.up {
        ValOutSomeIff(f, t, PlaceMap(f.code), p, v);
        DecidedAboveIff(f0, f, next, has, t, p, v);
      }
      assert p in t.up <==> f.g.Reachable(p);
    }
  }

  ghost predicate PhisFed(g: Cfg, code0: map<Block, seq<Instr>>, code: map<Block, seq<Instr>>)
    requires g.Valid()
  {
    forall c, k {:trigger code[c][k]} :: c in code && 0 <= k < |code[c]| && code[c][k].Phi? ==>
      FedPerEdge(g, code0, c, code[c][k].slot, code[c][k].ins)
  }

  lemma AllPerEdge(f0: Fn, f: Fn, next: nat, has: map<Slot, set<Block>>, t: Tree, code: map<Block, seq<Instr>>)
    requires Input(f0, next) && PlacedFrom(f0, f, next, has) && IsDomTree(f.g, t)
    requires Wf(f, t, PlaceMap(f.code)) && PhisComplete(f, t, PlaceMap(f.code), code)
    ensures PhisFed(f.g, f0.code, code)
  {
    forall c, k | c in code && 0 <= k < |code[c]| && code[c][k].Phi?
      ensures FedPerEdge(f.g, f0.code, c, code[c][k].slot, code[c][k].ins)
    {
      CompletePerEdge(f0, f, next, has, t, c, code[c][k].slot, code[c][k].ins);
    }
  }

  // The renaming walk has been over the whole tree.
  ghost predicate AllRendered(f: Fn, t: Tree, at: map<Reg, Place>, order: seq<Block>, done: set<Block>,
      code: map<Block, seq<Instr>>, term: map<Block, Term>)
    requires Wf(f, t, at)
  {
    && Shape(f, t, at, LoadsOf(f, at, order), AllEdges(f.g, order), done, code, term)
    && Preorder(t, order) && (forall x :: x in t.up ==> x in order && x in done) && forall x :: x in done ==> x in t.up
  }

  // The phis of a block, after the walk and the removal of the slots.
  lemma PhisDone(f: Fn, t: Tree, at: map<Reg, Place>, order: seq<Block>, done: set<Block>,
      code1: map<Block, seq<Instr>>, term: map<Block, Term>, w: set<Reg>, c: Block, k: nat)
    requires Wf(f, t, at) && AllRendered(f, t, at, order, done, code1, term) && c in code1
    requires k < |Without(code1[c], w)| && Without(code1[c], w)[k].Phi?
    ensures var i := Without(code1[c], w)[k]; PhiComplete(f, t, at, c, i.slot, i.ins)
  {
    var subst, fed := LoadsOf(f, at, order), AllEdges(f.g, order);
    assert BlockShape(f, t, at, subst, fed, done, code1, c);
    WithoutFrom(code1[c], w, k);
    var j :| 0 <= j < |code1[c]| && Without(code1[c], w)[k] == code1[c][j];
    var r := Render(f, t, at, subst, fed, c);
    WithoutFrom(r, if c in done then Accesses(f.code[c]) else {}, j);
    var m :| 0 <= m < |r| && code1[c][j] == r[m];
    assert f.code[c][m].Phi?;
    VisitedOnceComplete(f, t, at, order, c, f.code[c][m].slot);
  }

  // After the last visit and the removal of the slots, every reachable block is renamed, and every
  // phi is complete.
  lemma RenamingDone(f: Fn, t: Tree, at: map<Reg, Place>, order: seq<Block>, done: set<Block>,
      code1: map<Block, seq<Instr>>, f': Fn)
    requires Wf(f, t, at) && AllDefined(f, t, at)
    requires AllRendered(f, t, at, order, done, code1, f'.term)
    requires f'.code.Keys == code1.Keys
    requires forall b {:trigger f'.code[b]} :: b in f'.code ==> f'.code[b] == Without(code1[b], ScalarSlots(code1[b]))
    ensures Renamed(f, t, at, f') && PhisComplete(f, t, at, f'.code)
    ensures forall b :: b in t.up ==> b in f'.code && SlotFree(f'.code[b])
  {
    forall c, k | c in f'.code && 0 <= k < |f'.code[c]| && f'.code[c][k].Phi?
      ensures PhiComplete(f, t, at, c, f'.code[c][k].slot, f'.code[c][k].ins)
    {
      PhisDone(f, t, at, order, done, code1, f'.term, ScalarSlots(code1[c]), c, k);
    }
    BlocksDone(f, t, at, order, done, code1, f');
  }

  lemma BlocksDone(f: Fn, t: Tree, at: map<Reg, Place>, order: seq<Block>, done: set<Block>,
      code1: map<Block, seq<Instr>>, f': Fn)
    requires Wf(f, t, at) && AllDefined(f, t, at)
    requires AllRendered(f, t, at, order, done, code1, f'.term)
    requires f'.code.Keys == code1.Keys
    requires forall b {:trigger f'.code[b]} :: b in f'.code ==> f'.code[b] == Without(code1[b], ScalarSlots(code1[b]))
    ensures Renamed(f, t, at, f') && forall b :: b in t.up ==> b in f'.code && SlotFree(f'.code[b])
  {
    var subst, fed := LoadsOf(f, at, order), AllEdges(f.g, order);
    forall p: Block, c: Block {:trigger f.g.Edge(p, c)} | p in t.up && f.g.Edge(p, c) ensures (p, c) in fed {
      EdgeListed(f.g, order, p, c);
    }
    assert Complete(f, t, at, subst, fed);
    forall b | b in t.up ensures BlockRenamed(f, t, at, f', b) && SlotFree(f'.code[b]) {
      assert BlockShape(f, t, at, subst, fed, done, code1, b) && TermShape(f, t, at, subst, f'.term, b);
      BlockComplete(f, t, at, subst, fed, b, code1[b], f'.code[b]);
      RenderedSlotFree(f, t, at, b, |f.code[b]|, f'.code[b]);
      TermComplete(f, t, at, subst, fed, f.term[b]);
    }
  }

  // What is left of every block, reachable or not.
  lemma AllRemain(f: Fn, t: Tree, at: map<Reg, Place>, order: seq<Block>, done: set<Block>,
      code1: map<Block, seq<Instr>>, term: map<Block, Term>, code: map<Block, seq<Instr>>, c: Block)
    requires Wf(f, t, at) && AllRendered(f, t, at, order, done, code1, term) && c in f.code
    requires c in code1 && c in code && code[c] == Without(code1[c], ScalarSlots(code1[c]))
    ensures Remains(f.code[c], code[c], c in t.up)
  {
    assert BlockShape(f, t, at, LoadsOf(f, at, order), AllEdges(f.g, order), done, code1, c);
    BlockRemains(f, t, at, LoadsOf(f, at, order), AllEdges(f.g, order), c, c in t.up, code1[c], code[c]);
  }

  ghost predicate RemainsOf(f: Fn, t: Tree, code: map<Block, seq<Instr>>, b: Block)
  {
    b in code && b in f.code && Remains(f.code[b], code[b], b in t.up)
  }

  ghost predicate AllRemainOf(f: Fn, t: Tree, code: map<Block, seq<Instr>>)
  {
    forall b {:trigger RemainsOf(f, t, code, b)} :: b in code ==> RemainsOf(f, t, code, b)
  }

  ghost predicate AllConvertedOf(f0: Fn, code: map<Block, seq<Instr>>)
    requires f0.g.Valid()
  {
    forall b :: b in f0.code ==> b in code && Converted(f0.g, f0.code, b, code[b])
  }

  // Branches go where they went.
  lemma StillValid(f: Fn, t: Tree, at: map<Reg, Place>, order: seq<Block>, done: set<Block>,
      code1: map<Block, seq<Instr>>, f': Fn)
    requires Wf(f, t, at) && AllRendered(f, t, at, order, done, code1, f'.term)
    requires f'.g == f.g && f'.code.Keys == code1.Keys
    ensures f'.Valid()
  {
    forall c | c in f.g.blocks ensures f'.SuccessorsRecorded(c) {
      assert TermShape(f, t, at, LoadsOf(f, at, order), f'.term, c) && f.SuccessorsRecorded(c);
    }
  }

  // The blocks of the whole conversion.
  lemma AllConverted(f0: Fn, f: Fn, next: nat, has: map<Slot, set<Block>>, t: Tree, code: map<Block, seq<Instr>>)
    requires Input(f0, next) && PlacedFrom(f0, f, next, has) && IsDomTree(f.g, t) && code.Keys == f.code.Keys
    requires AllRemainOf(f, t, code)
    ensures AllConvertedOf(f0, code)
  {
    forall b | b in f0.code ensures b in code && Converted(f0.g, f0.code, b, code[b]) {
      assert b in t.up <==> f.g.Reachable(b);
      assert RemainsOf(f, t, code, b);
      PhisInFront(f0, f, next, has, b, code[b]);
    }
  }

  lemma TermComplete(f: Fn, t: Tree, at: map<Reg, Place>, subst: set<Reg>, fed: seq<(Block, Block)>, x: Term)
    requires Wf(f, t, at) && Complete(f, t, at, subst, fed)
    ensures RenderTerm(f, t, at, subst, x) == SubTerm(f, t, at, x)
  {
    match x
    case CondBr(o, _, _) => SubComplete(f, t, at, subst, fed, o);
    case Ret(Some(o)) => SubComplete(f, t, at, subst, fed, o);
    case _ =>
  }

  lemma MeaningPreserved(f0: Fn, f: Fn, t: Tree, at: map<Reg, Place>, f': Fn)
    requires Ready(f0, f, t, at) && Renamed(f, t, at, f')
    ensures forall w: World, s: State, s': State, n: nat :: s.trace == s'.trace && s.mem == map[] ==>
      SameOutside(IR.Run(w, f0, At(f.g.entry, s), n), IR.Run(w, f', At(f.g.entry, s'), n))
  {
    forall w: World, s: State, s': State, n: nat | s.trace == s'.trace && s.mem == map[]
      ensures SameOutside(IR.Run(w, f0, At(f.g.entry, s), n), IR.Run(w, f', At(f.g.entry, s'), n))
    {
      RenamingPreservesMeaning(w, f0, f, t, at, f', s, s', n);
    }
  }

  lemma PassDone(f0: Fn, f: Fn, next: nat, has: map<Slot, set<Block>>, t: Tree, f': Fn)
    requires Ready(f0, f, t, PlaceMap(f.code)) && Input(f0, next) && PlacedFrom(f0, f, next, has)
    requires Wf(f, t, PlaceMap(f.code)) && Renamed(f, t, PlaceMap(f.code), f')
    requires PhisComplete(f, t, PlaceMap(f.code), f'.code) && f'.code.Keys == f.code.Keys && AllRemainOf(f, t, f'.code)
    ensures forall w: World, s: State, s': State, n: nat :: s.trace == s'.trace && s.mem == map[] ==>
      SameOutside(IR.Run(w, f0, At(f.g.entry, s), n), IR.Run(w, f', At(f.g.entry, s'), n))
    ensures PhisFed(f.g, f0.code, f'.code) && AllConvertedOf(f0, f'.code) && forall b :: f.g.Reachable(b) ==> b in t.up
  {
    AllConverted(f0, f, next, has, t, f'.code);
    MeaningPreserved(f0, f, t, PlaceMap(f.code), f');
    AllPerEdge(f0, f, next, has, t, f'.code);
  }

  class Mem2RegPass {
    const g: Cfg
    var code: map<Block, seq<Instr>>
    var term: map<Block, Term>
    var domFrontier: map<Block, set<Block>>
    var children: map<Block, set<Block>>
    var nextId: nat               // the identity the next new instruction gets
    var stack: map<Slot, seq<Operand>>
    ghost var order: seq<Block>   // the blocks visited so far
    ghost var done: set<Block>    // those whose slot accesses have been deleted

    ghost predicate Context(f: Fn, t: Tree, at: map<Reg, Place>)
      reads this`children
    {
      Wf(f, t, at) && AllDefined(f, t, at) && f.g == g && IsChildren(t, children)
    }

    // Every use of r becomes a use of `repl`, in instructions and terminators of all blocks.
    method ReplaceAllUseWith(r: Reg, repl: Operand)
      modifies this`code, this`term
      ensures code.Keys == old(code).Keys && term.Keys == old(term).Keys
      ensures forall c {:trigger code[c]} :: c in code ==> code[c] == ReplaceCode(old(code)[c], r, repl)
      ensures forall c {:trigger term[c]} :: c in term ==> term[c] == ReplaceTerm(old(term)[c], r, repl)
    {
      code := map c | c in code :: ReplaceCode(code[c], r, repl);
      term := map c | c in term :: ReplaceTerm(term[c], r, repl);
    }

    method Push(v: Slot, o: Operand)
      modifies this`stack
      ensures stack == old(stack)[v := Get(old(stack), v) + [o]]
    {
      stack := stack[v := Get(stack, v) + [o]];
    }

    // Pushes the phis of bb.
    method PushPhis(bb: Block, ghost f: Fn, ghost t: Tree, ghost at: map<Reg, Place>, ghost subst: set<Reg>,
        ghost fed: seq<(Block, Block)>, ghost m: nat)
      requires Context(f, t, at) && bb in t.up && PhiPrefix(f, bb, m)
      requires bb in code && code[bb] == Render(f, t, at, subst, fed, bb)
      requires WalkAt(f, t, at, order, bb, 0, stack)
      modifies this`stack
      ensures WalkAt(f, t, at, order, bb, m, stack)
    {
      var instrs := code[bb];
      for k := 0 to |instrs|
        invariant WalkAt(f, t, at, order, bb, if k < m then k else m, stack)
      {
        if instrs[k].Phi? {
          WalkPush(f, t, at, order, bb, k, stack, Result(instrs[k].id));
          Push(instrs[k].slot, Result(instrs[k].id));
        }
      }
    }

    // Replaces the load at k by the top of its slot's stack.
    method RenameLoad(bb: Block, k: nat, ghost f: Fn, ghost t: Tree, ghost at: map<Reg, Place>,
        ghost fed: seq<(Block, Block)>)
      requires Context(f, t, at) && bb in t.up && bb !in done && k < |f.code[bb]| && f.code[bb][k].Load?
      requires forall c {:trigger c in order} :: c in order ==> c in t.up
      requires Shape(f, t, at, LoadsUpTo(f, at, order, bb, k), fed, done, code, term)
      requires bb in code && k < |code[bb]| && code[bb][k] == f.code[bb][k]
      requires WalkAt(f, t, at, order, bb, k, stack)
      modifies this`code, this`term
      ensures Shape(f, t, at, LoadsUpTo(f, at, order, bb, k + 1), fed, done, code, term)
    {
      var instr := code[bb][k];
      WalkTop(f, t, at, order, bb, k, stack, instr.slot);
      assert LoadDefined(f, t, at, bb, k);
      ghost var code0, term0 := code, term;
      var top := stack[instr.slot][|stack[instr.slot]| - 1];
      ReplaceAllUseWith(instr.id, top);
      LoadReplaced(f, t, at, order, done, bb, k, fed, code0, term0, code, term, top);
    }

    // Pushes what the store at k stores.
    method RenameStore(bb: Block, k: nat, ghost f: Fn, ghost t: Tree, ghost at: map<Reg, Place>)
      requires Context(f, t, at) && bb in t.up && k < |f.code[bb]| && f.code[bb][k].Store?
      requires AboveVisited(t, order, bb)
      requires bb in code && k < |code[bb]| && code[bb][k].Store? && code[bb][k].slot == f.code[bb][k].slot
      requires code[bb][k].value == SubIn(f, t, at, LoadsUpTo(f, at, order, bb, k), f.code[bb][k].value)
      requires WalkAt(f, t, at, order, bb, k, stack)
      modifies this`stack
      ensures WalkAt(f, t, at, order, bb, k + 1, stack)
    {
      var instr := code[bb][k];
      StoredOperand(f, t, at, order, bb, k);
      WalkPush(f, t, at, order, bb, k, stack, instr.value);
      Push(instr.slot, instr.value);
    }

    // Renames the instruction at k, and puts it on the list for deletion if it accesses a slot.
    method RenameInstr(bb: Block, k: nat, wait: seq<Reg>, ghost f: Fn, ghost t: Tree, ghost at: map<Reg, Place>,
        ghost fed: seq<(Block, Block)>, ghost m: nat)
      returns (waitDelete: seq<Reg>)
      requires Context(f, t, at) && bb in t.up && bb !in done && k < |f.code[bb]| && PhiPrefix(f, bb, m)
      requires forall c {:trigger c in order} :: c in order ==> c in t.up
      requires AboveVisited(t, order, bb)
      requires Shape(f, t, at, LoadsUpTo(f, at, order, bb, k), fed, done, code, term)
      requires WalkAt(f, t, at, order, bb, Later(k, m), stack)
      requires IdSet(wait) == Accesses(f.code[bb][..k])
      modifies this`code, this`term, this`stack
      ensures Shape(f, t, at, LoadsUpTo(f, at, order, bb, k + 1), fed, done, code, term)
      ensures WalkAt(f, t, at, order, bb, Later(k + 1, m), stack)
      ensures IdSet(waitDelete) == Accesses(f.code[bb][..k + 1])
      ensures bb in code && |code[bb]| == |f.code[bb]|
    {
      BlockInProgress(f, t, at, LoadsUpTo(f, at, order, bb, k), fed, done, code, term, bb);
      LoadsStep(f, t, at, order, bb, k);
      assert |code[bb]| == |f.code[bb]|;
      var instr := code[bb][k];
      ghost var i := f.code[bb][k];
      assert !i.Phi? ==> m <= k;
      if instr.Load? {
        WalkSkip(f, t, at, order, bb, k, stack);
        RenameLoad(bb, k, f, t, at, fed);
      } else if instr.Store? {
        RenameStore(bb, k, f, t, at);
      } else if !instr.Phi? {
        WalkSkip(f, t, at, order, bb, k, stack);
      }
      AccessesSnoc(f.code[bb], k);
      waitDelete := if instr.Load? || instr.Store? then wait + [instr.id] else wait;
      BlockInProgress(f, t, at, LoadsUpTo(f, at, order, bb, k + 1), fed, done, code, term, bb);
    }

    // Replaces the loads of bb and pushes its stores, in the order of the instructions.
    method RenameBlock(bb: Block, ghost f: Fn, ghost t: Tree, ghost at: map<Reg, Place>, ghost fed: seq<(Block, Block)>,
        ghost m: nat)
      returns (waitDelete: seq<Reg>)
      requires Context(f, t, at) && bb in t.up && bb !in done && PhiPrefix(f, bb, m)
      requires forall c {:trigger c in order} :: c in order ==> c in t.up
      requires AboveVisited(t, order, bb)
      requires Shape(f, t, at, LoadsOf(f, at, order), fed, done, code, term)
      requires WalkAt(f, t, at, order, bb, m, stack)
      modifies this`code, this`term, this`stack
      ensures Shape(f, t, at, LoadsOf(f, at, order + [bb]), fed, done, code, term)
      ensures WalkAt(f, t, at, order, bb, |f.code[bb]|, stack)
      ensures IdSet(waitDelete) == Accesses(f.code[bb])
    {
      waitDelete := [];
      LoadsStart(f, at, order, bb);
      ghost var n := |f.code[bb]|;
      BlockInProgress(f, t, at, LoadsOf(f, at, order), fed, done, code, term, bb);
      var k := 0;
      while k < |code[bb]|
        invariant 0 <= k <= n && bb in code && |code[bb]| == n
        invariant Shape(f, t, at, LoadsUpTo(f, at, order, bb, k), fed, done, code, term)
        invariant WalkAt(f, t, at, order, bb, Later(k, m), stack)
        invariant IdSet(waitDelete) == Accesses(f.code[bb][..k])
        decreases n - k
      {
        waitDelete := RenameInstr(bb, k, waitDelete, f, t, at, fed, m);
        k := k + 1;
      }
      LoadsEnd(f, at, order, bb);
      assert f.code[bb][..n] == f.code[bb];
    }

    // Adds to every phi of s the top of its slot's stack, for control that arrives from bb.
    method FeedPhis(s: Block, bb: Block)
      requires s in code
      requires forall k :: 0 <= k < |code[s]| && code[s][k].Phi? && code[s][k].slot in stack ==>
        stack[code[s][k].slot] != []
      modifies this`code
      ensures code == old(code)[s := Feed(old(code)[s], TopFn(stack), bb)]
      ensures forall k :: 0 <= k < |old(code)[s]| ==> var i := old(code)[s][k];
        code[s][k] == if i.Phi? && i.slot in stack
          then Phi(i.id, i.slot, i.ins + [(stack[i.slot][|stack[i.slot]| - 1], bb)]) else i
    {
      ghost var before := code[s];
      var i := 0;
      while i < |code[s]|
        invariant 0 <= i <= |before| && s in code && |code[s]| == |before|
        invariant code == old(code)[s := code[s]]
        invariant forall j :: 0 <= j < i ==> code[s][j] == FeedInstr(before[j], TopFn(stack), bb)
        invariant forall j :: i <= j < |before| ==> code[s][j] == before[j]
        decreases |before| - i
      {
        var instr := code[s][i];
        if instr.Phi? && instr.slot in stack {
          assert |stack[instr.slot]| != 0;
          var top := stack[instr.slot][|stack[instr.slot]| - 1];
          code := code[s := code[s][i := Phi(instr.id, instr.slot, instr.ins + [(top, bb)])]];
        }
        i := i + 1;
      }
      assert code[s] == Feed(before, TopFn(stack), bb);
    }

    // Feeds the phis of one successor of bb.
    method FeedSuccessor(bb: Block, s: Block, ghost f: Fn, ghost t: Tree, ghost at: map<Reg, Place>,
        ghost subst: set<Reg>, ghost fed: seq<(Block, Block)>)
      requires Context(f, t, at) && bb in t.up && g.Edge(bb, s) && s in f.code
      requires Shape(f, t, at, subst, fed, done, code, term)
      requires WalkAt(f, t, at, order, bb, |f.code[bb]|, stack)
      modifies this`code
      ensures Shape(f, t, at, subst, fed + [(bb, s)], done, code, term)
    {
      PhisHaveTops(f, t, at, subst, fed, done, code, order, stack, bb, s);
      ghost var code0 := code;
      FeedPhis(s, bb);
      CodeFed(f, t, at, subst, fed, done, code0, bb, s, TopFn(stack), code);
    }

    // Feeds the phis of all successors of bb.
    method FeedSuccessors(bb: Block, ghost f: Fn, ghost t: Tree, ghost at: map<Reg, Place>, ghost subst: set<Reg>,
        ghost fed: seq<(Block, Block)>)
      requires Context(f, t, at) && bb in t.up && bb in g.blocks
      requires Shape(f, t, at, subst, fed, done, code, term)
      requires WalkAt(f, t, at, order, bb, |f.code[bb]|, stack)
      modifies this`code
      ensures Shape(f, t, at, subst, fed + EdgesOf(g, bb), done, code, term)
    {
      var succs := g.succ[bb];
      ghost var edges := EdgesOf(g, bb);
      assert fed + edges[..0] == fed;
      for j := 0 to |succs|
        invariant Shape(f, t, at, subst, fed + edges[..j], done, code, term)
      {
        assert succs[j] in g.succ[bb] && g.Edge(bb, succs[j]);
        assert fed + edges[..j] + [(bb, succs[j])] == fed + edges[..j + 1];
        FeedSuccessor(bb, succs[j], f, t, at, subst, fed + edges[..j]);
      }
      assert edges[..|succs|] == edges;
    }

    // Takes the definitions of bb off the stacks.
    method PopDefinitions(bb: Block, ghost f: Fn, ghost t: Tree, ghost at: map<Reg, Place>, ghost subst: set<Reg>,
        ghost fed: seq<(Block, Block)>, ghost base: map<Slot, seq<Operand>>)
      requires Context(f, t, at) && bb in t.up
      requires bb in code && code[bb] == Render(f, t, at, subst, fed, bb)
      requires StackAt(f, t, at, base, stack, bb, |f.code[bb]|)
      modifies this`stack
      ensures forall v :: Get(stack, v) == Get(base, v)
      ensures stack.Keys == old(stack).Keys
    {
      PopStart(f, t, at, base, stack, bb);
      var instrs := code[bb];
      for k := 0 to |instrs|
        invariant PoppedAt(f, t, at, base, stack, bb, k) && stack.Keys == old(stack).Keys
      {
        PopStep(f, t, at, base, stack, bb, k);
        var instr := instrs[k];
        if instr.Store? || (instr.Phi? && instr.slot in stack) {
          stack := stack[instr.slot := stack[instr.slot][..|stack[instr.slot]| - 1]];
        }
      }
      forall v ensures Get(stack, v) == Get(base, v) {
        PopEnd(f, t, at, base, stack, bb, v);
      }
    }

    // Deletes the listed instructions of bb.
    method DeleteAll(bb: Block, waitDelete: seq<Reg>)
      requires bb in code
      modifies this`code
      ensures code == old(code)[bb := Without(old(code)[bb], IdSet(waitDelete))]
    {
      ghost var before := code[bb];
      WithoutNone(before);
      assert IdSet(waitDelete[..0]) == {};
      for k := 0 to |waitDelete|
        invariant bb in code && code == old(code)[bb := code[bb]]
        invariant code[bb] == Without(before, IdSet(waitDelete[..k]))
      {
        WithoutTwice(before, IdSet(waitDelete[..k]), waitDelete[k]);
        assert IdSet(waitDelete[..k + 1]) == IdSet(waitDelete[..k]) + {waitDelete[k]};
        code := code[bb := Without(code[bb], {waitDelete[k]})];
      }
      assert waitDelete[..|waitDelete|] == waitDelete;
    }

    // The state between two visits.
    ghost predicate Between(f: Fn, t: Tree, at: map<Reg, Place>)
      requires Wf(f, t, at) && g.Valid()
      reads this
    {
      && Shape(f, t, at, LoadsOf(f, at, order), AllEdges(g, order), done, code, term)
      && Preorder(t, order)
      && forall x :: x in done ==> x in order
    }

    // The part of a visit before the children: phis, loads and stores, successors.
    method EnterBlock(bb: Block, ghost f: Fn, ghost t: Tree, ghost at: map<Reg, Place>) returns (waitDelete: seq<Reg>)
      requires Context(f, t, at) && bb in t.up && Between(f, t, at) && WalkAt(f, t, at, order, bb, 0, stack)
      modifies this`code, this`term, this`stack, this`order
      ensures Between(f, t, at) && order == old(order) + [bb]
      ensures WalkAt(f, t, at, old(order), bb, |f.code[bb]|, stack)
      ensures IdSet(waitDelete) == Accesses(f.code[bb])
    {
      ghost var fed := AllEdges(g, order);
      ghost var m := BlockEntered(f, t, at, order, fed, done, code, term, bb);
      PushPhis(bb, f, t, at, LoadsOf(f, at, order), fed, m);
      waitDelete := RenameBlock(bb, f, t, at, fed, m);
      FeedSuccessors(bb, f, t, at, LoadsOf(f, at, order + [bb]), fed);
      OneMoreVisited(t, g, order, bb);
      order := order + [bb];
    }

    // The part of a visit after the children: the stacks and the deletion list.
    method LeaveBlock(bb: Block, waitDelete: seq<Reg>, ghost f: Fn, ghost t: Tree, ghost at: map<Reg, Place>,
        ghost base: map<Slot, seq<Operand>>)
      requires Context(f, t, at) && bb in t.up && Between(f, t, at) && bb in order && bb !in done
      requires StackAt(f, t, at, base, stack, bb, |f.code[bb]|)
      requires IdSet(waitDelete) == Accesses(f.code[bb]) && KeysFrom(f, order, stack)
      modifies this`code, this`stack, this`done
      ensures Between(f, t, at) && done == old(done) + {bb} && KeysFrom(f, order, stack)
      ensures forall v :: Get(stack, v) == Get(base, v)
    {
      ghost var subst, fed := LoadsOf(f, at, order), AllEdges(g, order);
      BlockInProgress(f, t, at, subst, fed, done, code, term, bb);
      PopDefinitions(bb, f, t, at, subst, fed, base);
      ghost var code1 := code;
      DeleteAll(bb, waitDelete);
      CodeDeleted(f, t, at, subst, fed, done, code1, bb, code);
      done := done + {bb};
    }

    // Renames bb and everything below it in the dominator tree. What it visits, in this order, is a depth-first
    // walk over the subtree.
    method ReName(bb: Block, ghost f: Fn, ghost t: Tree, ghost at: map<Reg, Place>)
      requires Context(f, t, at) && bb in t.up && Between(f, t, at) && WalkAt(f, t, at, order, bb, 0, stack)
      modifies this`code, this`term, this`stack, this`order, this`done
      ensures Between(f, t, at) && Listed(t, bb, old(order), order)
      ensures KeysFrom(f, order, stack) && forall v :: Get(stack, v) == Get(old(stack), v)
      ensures forall x :: x in done <==> x in old(done) || InSubtree(t, bb, x)
      decreases t.id[bb], 1
    {
      ghost var base, order0 := stack, order;
      NotYetVisited(t, order, bb);
      var waitDelete := EnterBlock(bb, f, t, at);
      ghost var stack1 := stack;
      WalkSince(f, t, at, order0, bb, |f.code[bb]|, base, stack1);
      ReNameChildren(bb, f, t, at, order0);
      StackAtSame(f, t, at, base, stack1, stack, bb, |f.code[bb]|);
      LeaveBlock(bb, waitDelete, f, t, at, base);
      AllListed(t, order0, bb, order);
    }

    // Renames the subtrees below bb.
    method ReNameChildren(bb: Block, ghost f: Fn, ghost t: Tree, ghost at: map<Reg, Place>, ghost order0: seq<Block>)
      requires Context(f, t, at) && bb in t.up && Between(f, t, at) && bb !in done
      requires order == order0 + [bb] && WalkAt(f, t, at, order0, bb, |f.code[bb]|, stack)
      modifies this`code, this`term, this`stack, this`order, this`done
      ensures Between(f, t, at) && HandledSince(t, order0, bb, Kids(t, bb), order)
      ensures KeysFrom(f, order, stack) && forall v :: Get(stack, v) == Get(old(stack), v)
      ensures forall x :: x in done <==> x in old(done) || (InSubtree(t, bb, x) && x != bb)
      decreases t.id[bb], 0
    {
      ghost var stack0, done0, kids := stack, done, Kids(t, bb);
      var todo := children[bb];
      WalkEnd(f, t, at, order0, bb, stack);
      NoneHandled(t, order0, bb, kids, todo);
      while todo != {}
        invariant todo <= kids && Between(f, t, at) && KeysFrom(f, order, stack)
        invariant HandledSince(t, order0, bb, kids - todo, order) && DoneSince(t, done0, kids - todo, done)
        invariant forall v :: Get(stack, v) == Get(stack0, v)
        decreases todo
      {
        var c :| c in todo;
        ghost var order1, done1 := order, done;
        ChildReady(f, t, at, stack0, stack, order0, order, bb, kids - todo, c);
        ReName(c, f, t, at);
        ChildDone(t, order0, done0, bb, kids, todo, order1, done1, c, order, done);
        todo := todo - {c};
      }
      KidsHandled(t, bb, kids - todo);
    }

    // ---- Placing phis ----

    // The slots that are stored to, and for each of them the blocks that do it.
    method FindStores() returns (slots: set<Slot>, blocksOf: map<Slot, set<Block>>)
      requires AddressesNotStored(code)
      ensures blocksOf.Keys == slots
      ensures forall v :: v in slots ==> blocksOf[v] == StoreBlocks(code, v)
      ensures forall v :: v !in slots ==> StoreBlocks(code, v) == {}
    {
      slots, blocksOf := {}, map[];
      var todo := code.Keys;
      while todo != {}
        invariant todo <= code.Keys && blocksOf.Keys == slots
        invariant forall v, b {:trigger StoresIn(code[b], v)} {:trigger b in blocksOf[v]} ::
          v in slots && b in blocksOf[v] <==> b in code.Keys - todo && StoresIn(code[b], v)
        invariant forall v :: v in slots ==> blocksOf[v] != {}
        decreases todo
      {
        var bb :| bb in todo;
        var killed: set<Operand> := {};
        var s := code[bb];
        for k := 0 to |s|
          invariant blocksOf.Keys == slots && forall o :: o in killed ==> o.Address?
          invariant forall v, b :: v in slots && b in blocksOf[v] <==>
            (b in code.Keys - todo && StoresIn(code[b], v)) || (b == bb && StoresIn(s[..k], v))
          invariant forall v :: v in slots ==> blocksOf[v] != {}
        {
          StoresInSnoc(s, k);
          if s[k].Store? {
            if s[k].value !in killed {
              slots := slots + {s[k].slot};
            }
            killed := killed + {Address(s[k].slot)};
            blocksOf := blocksOf[s[k].slot := (if s[k].slot in blocksOf then blocksOf[s[k].slot] else {}) + {bb}];
          }
        }
        assert s[..|s|] == s;
        todo := todo - {bb};
      }
      forall v | v in slots ensures blocksOf[v] == StoreBlocks(code, v) {
        forall b ensures b in blocksOf[v] <==> b in StoreBlocks(code, v) {
        }
      }
      forall v | v !in slots ensures StoreBlocks(code, v) == {} {
        forall b | b in code ensures !StoresIn(code[b], v) {
        }
      }
    }

    // A new empty phi for v at the beginning of x.
    method CreatePhi(v: Slot, x: Block, ghost code0: map<Block, seq<Instr>>, ghost has: map<Slot, set<Block>>)
      requires Placed(code0, code, has) && Identities(code, nextId) && v in has && x in code && x !in has[v]
      modifies this`code, this`nextId
      ensures code == old(code)[x := [Phi(old(nextId), v, [])] + old(code)[x]] && nextId == old(nextId) + 1
      ensures Placed(code0, code, has[v := has[v] + {x}]) && Identities(code, nextId)
    {
      PlacedMore(code0, code, has, v, x, nextId);
      IdentitiesMore(code, nextId, x, Phi(nextId, v, []));
      code := code[x := [Phi(nextId, v, [])] + code[x]];
      nextId := nextId + 1;
    }

    // Gives every block in the frontier of bb that has none a phi for v, and puts it on the work list.
    method PlaceFrontier(v: Slot, defs: set<Block>, bb: Block, workList0: seq<Block>, hasPhi0: set<Block>,
        ghost code0: map<Block, seq<Instr>>, ghost has0: map<Slot, set<Block>>)
      returns (workList: seq<Block>, hasPhi: set<Block>)
      requires Placed(code0, code, has0[v := hasPhi0]) && Identities(code, nextId)
      requires WorkState(domFrontier, defs, workList0, hasPhi0) && bb in workList0 && hasPhi0 <= code.Keys
      requires bb in domFrontier && domFrontier[bb] <= code.Keys
      modifies this`code, this`nextId
      ensures code.Keys == old(code).Keys && old(nextId) <= nextId
      ensures Placed(code0, code, has0[v := hasPhi]) && Identities(code, nextId)
      ensures WorkState(domFrontier, defs, workList, hasPhi) && hasPhi <= code.Keys
      ensures hasPhi0 + domFrontier[bb] <= hasPhi && workList0 <= workList
      ensures hasPhi == hasPhi0 ==> workList == workList0
    {
      workList, hasPhi := workList0, hasPhi0;
      var todo := domFrontier[bb];
      while todo != {}
        invariant todo <= domFrontier[bb] <= hasPhi + todo && code.Keys == old(code).Keys && old(nextId) <= nextId
        invariant Placed(code0, code, has0[v := hasPhi]) && Identities(code, nextId)
        invariant WorkState(domFrontier, defs, workList, hasPhi) && hasPhi <= code.Keys
        invariant hasPhi0 <= hasPhi && workList0 <= workList && (hasPhi == hasPhi0 ==> workList == workList0)
        decreases todo
      {
        var x :| x in todo;
        if x !in hasPhi {
          assert bb in workList;
          FrontierForced(domFrontier, defs, hasPhi, bb, x);
          CreatePhi(v, x, code0, has0[v := hasPhi]);
          assert has0[v := hasPhi][v := hasPhi + {x}] == has0[v := hasPhi + {x}];
          workList := workList + [x];
          hasPhi := hasPhi + {x};
        }
        todo := todo - {x};
      }
    }

    // Places phis for v: grows the work list while walking along it.
    method PlacePhis(v: Slot, defs: set<Block>, ghost code0: map<Block, seq<Instr>>, ghost has0: map<Slot, set<Block>>)
        returns (ghost has: map<Slot, set<Block>>)
      requires Placed(code0, code, has0) && Identities(code, nextId) && v !in has0
      requires domFrontier.Keys == code.Keys && defs <= code.Keys
      requires forall b :: b in domFrontier ==> domFrontier[b] <= code.Keys
      modifies this`code, this`nextId
      ensures code.Keys == old(code).Keys && old(nextId) <= nextId
      ensures Placed(code0, code, has) && Identities(code, nextId)
      ensures v in has && has == has0[v := has[v]] && has[v] <= code.Keys &&
        IsIteratedFrontier(domFrontier, defs, has[v])
    {
      PlacedEmpty(code0, code, has0, v);
      var hasPhi: set<Block> := {};
      var workList := ListOf(defs);
      var i := 0;
      while i < |workList|
        invariant 0 <= i <= |workList| && code.Keys == old(code).Keys && old(nextId) <= nextId
        invariant WorkState(domFrontier, defs, workList, hasPhi) && hasPhi <= code.Keys
        invariant forall j :: 0 <= j < i ==> domFrontier[workList[j]] <= hasPhi
        invariant Placed(code0, code, has0[v := hasPhi]) && Identities(code, nextId)
        decreases code.Keys - hasPhi, |workList| - i
      {
        var bb := workList[i];
        assert bb in workList;
        workList, hasPhi := PlaceFrontier(v, defs, bb, workList, hasPhi, code0, has0);
        i := i + 1;
      }
      has := has0[v := hasPhi];
      forall b | b in defs || b in hasPhi ensures FrontierWithin(domFrontier, b, hasPhi) {
        assert b in workList;
      }
    }

    // Places the phis of all slots.
    method GeneratePhi() returns (ghost has: map<Slot, set<Block>>)
      requires AddressesNotStored(code) && Identities(code, nextId)
      requires domFrontier.Keys == code.Keys && forall b :: b in domFrontier ==> domFrontier[b] <= code.Keys
      modifies this`code, this`nextId
      ensures Placed(old(code), code, has) && Identities(code, nextId) && old(nextId) <= nextId
      ensures forall v :: v !in has ==> StoreBlocks(old(code), v) == {}
      ensures forall v :: v in has ==>
        has[v] <= code.Keys && IsIteratedFrontier(domFrontier, StoreBlocks(old(code), v), has[v])
    {
      ghost var code0 := code;
      var slots, blocksOf := FindStores();
      has := map[];
      PlacedStart(code0);
      var todo := slots;
      while todo != {}
        invariant todo <= slots && has.Keys == slots - todo && code.Keys == code0.Keys && old(nextId) <= nextId
        invariant Placed(code0, code, has) && Identities(code, nextId)
        invariant forall v :: v in has ==> has[v] <= code.Keys && IsIteratedFrontier(domFrontier, blocksOf[v], has[v])
        decreases todo
      {
        var v :| v in todo;
        has := PlacePhis(v, blocksOf[v], code0, has);
        todo := todo - {v};
      }
    }

    // Deletes the scalar slots of bb.
    method RemoveSlots(bb: Block)
      requires bb in code
      modifies this`code
      ensures code == old(code)[bb := Without(old(code)[bb], ScalarSlots(old(code)[bb]))]
    {
      var waitDelete: seq<Reg> := [];
      var s := code[bb];
      for k := 0 to |s|
        invariant code == old(code) && IdSet(waitDelete) == ScalarSlots(s[..k])
      {
        ScalarSlotsSnoc(s, k);
        if s[k].Alloca? && s[k].scalar {
          waitDelete := waitDelete + [s[k].id];
        }
      }
      assert s[..|s|] == s;
      DeleteAll(bb, waitDelete);
    }

    // Deletes the scalar slots of all blocks.
    method RemoveAlloca()
      modifies this`code
      ensures code.Keys == old(code).Keys
      ensures forall b {:trigger code[b]} :: b in code ==> code[b] == Without(old(code)[b], ScalarSlots(old(code)[b]))
    {
      ghost var code0 := code;
      var todo := code.Keys;
      while todo != {}
        invariant todo <= code.Keys && code.Keys == code0.Keys
        invariant forall b {:trigger code[b]} :: b in code ==>
          code[b] == if b in todo then code0[b] else Without(code0[b], ScalarSlots(code0[b]))
        decreases todo
      {
        var bb :| bb in todo;
        RemoveSlots(bb);
        todo := todo - {bb};
      }
    }

    // ---- The whole pass ----

    // The function as it stands.
    ghost function Current(): Fn
      reads this`code, this`term
    {
      Fn(g, code, term)
    }

    // The renaming walk from the entry and the removal of the slots.
    method RenameAll(ghost f0: Fn, ghost has: map<Slot, set<Block>>, ghost t: Tree, ghost at: map<Reg, Place>)
      requires Context(Current(), t, at) && Input(f0, nextId) && PlacedFrom(f0, Current(), nextId, has)
      requires stack == map[]
      modifies this`code, this`term, this`stack, this`order, this`done
      ensures Renamed(old(Current()), t, at, Current()) && PhisComplete(old(Current()), t, at, code)
      ensures forall b :: b in t.up ==> b in code && SlotFree(code[b])
      ensures Current().Valid()
      ensures AllRemainOf(old(Current()), t, code)
    {
      ghost var f := Current();
      RenameTree(f0, has, t, at);
      ghost var code1 := code;
      RemoveAlloca();
      StillValid(f, t, at, order, done, code1, Current());
      forall b | b in code ensures RemainsOf(f, t, code, b) {
        AllRemain(f, t, at, order, done, code1, term, code, b);
      }
      RenamingDone(f, t, at, order, done, code1, Current());
    }

    // The renaming walk from the entry.
    method RenameTree(ghost f0: Fn, ghost has: map<Slot, set<Block>>, ghost t: Tree, ghost at: map<Reg, Place>)
      requires Context(Current(), t, at) && Input(f0, nextId) && PlacedFrom(f0, Current(), nextId, has)
      requires stack == map[]
      modifies this`code, this`term, this`stack, this`order, this`done
      ensures AllRendered(old(Current()), t, at, order, done, code, term) && Listed(t, t.root, [], order)
    {
      ghost var f := Current();
      order, done := [], {};
      RenamingStarts(f0, f, nextId, has, t, at);
      ReName(g.entry, f, t, at);
      WholeTreeVisited(t, order, done);
    }

    // The dominator analysis.
    method Analyse() returns (ghost t: Tree)
      requires g.Valid() && g.pred[g.entry] == [] && MergesReachable(g)
      modifies this`domFrontier, this`children
      ensures IsDomTree(g, t) && IsChildren(t, children)
      ensures domFrontier == Frontiers(g) && forall b :: b in domFrontier ==> domFrontier[b] <= g.blocks
    {
      var dominators := new DominatorPass(g);
      dominators.Run();
      domFrontier, children := dominators.domFrontier, dominators.domTreeSucc;
      t := dominators.Current();
      FrontiersComputed(g, t, domFrontier);
      ChildrenComputed(g, t, children);
    }

    // The dominator analysis, and from its results the phis.
    method PlaceAll(ghost f0: Fn) returns (ghost t: Tree, ghost has: map<Slot, set<Block>>)
      requires f0 == Current() && Input(f0, nextId) && MergesReachable(g) && Assigned(g, code)
      modifies this`code, this`nextId, this`domFrontier, this`children
      ensures Ready(f0, Current(), t, PlaceMap(code)) && Context(Current(), t, PlaceMap(code))
      ensures Input(f0, nextId) && PlacedFrom(f0, Current(), nextId, has)
    {
      t := Analyse();
      ghost var next0 := nextId;
      has := GeneratePhi();
      Prepared(f0, Current(), next0, nextId, has, t, domFrontier);
    }

    // Turns the slots of the function into values. The world cannot tell the difference.
    method Run(ghost f0: Fn)
      requires f0 == Current() && Input(f0, nextId) && MergesReachable(g) && Assigned(g, code)
      modifies this
      ensures forall w: World, s: State, s': State, n: nat :: s.trace == s'.trace && s.mem == map[] ==>
        SameOutside(IR.Run(w, f0, At(g.entry, s), n), IR.Run(w, Current(), At(g.entry, s'), n))
      ensures forall b :: g.Reachable(b) ==> b in code && SlotFree(code[b])
      ensures PhisFed(g, f0.code, code)
      ensures Current().Valid() && AllConvertedOf(f0, code)
    {
      ghost var t, has := PlaceAll(f0);
      ghost var f, at := Current(), PlaceMap(code);
      stack := map[];
      RenameAll(f0, has, t, at);
      PassDone(f0, f, nextId, has, t, Current());
    }
  }
}
