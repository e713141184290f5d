// What placing phis establishes for the renaming, from conditions on the original function.
module PlacedFunction {
  import opened Graph
  import opened DomTree
  import opened IR
  import opened Ssa
  import opened RenameMeaning
  import opened PhiPlacement

  // ---- Frontiers and deciding blocks, in terms of the original function ----

  // x is a merge block with a predecessor from which the walk up to its immediate dominator
  // passes n. For a reachable n: n dominates the predecessor and does not strictly dominate x.
  ghost predicate Merges(g: Cfg, n: Block, x: Block)
    requires g.Valid()
  {
    x in g.blocks && |g.pred[x]| >= 2 && exists p :: p in g.pred[x] && MergesFrom(g, n, p, x)
  }

  ghost predicate MergesFrom(g: Cfg, n: Block, p: Block, x: Block)
  {
    if g.Reachable(p) then g.Dom(n, p) && !g.StrictDom(n, x) else n == p
  }

  ghost function Frontiers(g: Cfg): map<Block, set<Block>>
    requires g.Valid()
  {
    map n | n in g.blocks :: set x | x in g.blocks && Merges(g, n, x)
  }

  lemma MergesIsFrontier(g: Cfg, t: Tree, n: Block, x: Block)
    requires IsDomTree(g, t) && g.pred[g.entry] == []
    ensures InFrontier(g, t, n, x) <==> Merges(g, n, x)
  {
    if x in g.blocks && |g.pred[x]| >= 2 {
      forall p | p in g.pred[x] ensures OnWalk(t, n, p, x) <==> MergesFrom(g, n, p, x) {
        assert g.Edge(p, x);
        if g.Reachable(p) {
          ParentAbovePredecessor(g, t, p, x);
          ImmediateDominator(g, t, x);
          if n in t.Anc(t.Up(x)) {
            g.DomTrans(n, t.Up(x), x);
            if n == x {
              DomAntisymmetric(g, t, x, t.Up(x));
            }
          }
        }
      }
    }
  }

  // The blocks that get a phi for a slot stored to in defs.
  ghost function IteratedFrontier(g: Cfg, defs: set<Block>): set<Block>
    requires g.Valid()
  {
    set x | x in g.blocks && forall q :: FrontierClosed(Frontiers(g), defs, q) ==> x in q
  }

  lemma LeastIsUnique(g: Cfg, defs: set<Block>, p: set<Block>)
    requires g.Valid() && p <= g.blocks && IsIteratedFrontier(Frontiers(g), defs, p)
    ensures p == IteratedFrontier(g, defs)
  {
  }

  // b stores to v or gets a phi for it.
  ghost predicate Decides(g: Cfg, code: map<Block, seq<Instr>>, b: Block, v: Slot)
    requires g.Valid()
  {
    b in StoreBlocks(code, v) || b in IteratedFrontier(g, StoreBlocks(code, v))
  }

  // ---- Conditions on the original function ----

  // A load reads a slot that is decided earlier in its block or in a dominator.
  ghost predicate LoadAssigned(g: Cfg, code: map<Block, seq<Instr>>, b: Block, k: nat)
    requires g.Valid() && b in code && k < |code[b]|
  {
    code[b][k].Load? ==>
      var v := code[b][k].slot;
      || StoresIn(code[b][..k], v)
      || b in IteratedFrontier(g, StoreBlocks(code, v))
      || exists a :: g.StrictDom(a, b) && Decides(g, code, a, v)
  }

  // Control that reaches a merge block with a phi for v comes from a block with a deciding
  // dominator, or from one that itself dominates every deciding block.
  ghost predicate EdgeAssigned(g: Cfg, code: map<Block, seq<Instr>>, p: Block, b: Block, v: Slot)
    requires g.Valid()
  {
    g.Edge(p, b) && b in IteratedFrontier(g, StoreBlocks(code, v)) ==>
      || (exists a :: g.Dom(a, p) && Decides(g, code, a, v))
      || (forall d :: g.Reachable(d) && Decides(g, code, d, v) ==> g.Dom(p, d))
  }

  // The condition under which no stack is found empty, in whatever order children are visited.
  ghost predicate Assigned(g: Cfg, code: map<Block, seq<Instr>>)
    requires g.Valid()
  {
    && (forall b, k {:trigger LoadAssigned(g, code, b, k)} :: g.Reachable(b) && b in code && 0 <= k < |code[b]| ==>
      LoadAssigned(g, code, b, k))
    && (forall p, b, v {:trigger EdgeAssigned(g, code, p, b, v)} :: g.Reachable(p) ==> EdgeAssigned(g, code, p, b, v))
  }

  // A use is preceded by its definition in the block, or the definition's block strictly dominates.
  ghost predicate UseDominated(f: Fn, at: map<Reg, Place>, o: Operand, b: Block, k: nat)
  {
    o.Result? ==>
      && Located(f, at, o.id)
      && (var i := f.code[at[o.id].b][at[o.id].k]; i.Load? || i.Compute? || i.Effect?)
      && ((at[o.id].b == b && at[o.id].k < k) || f.g.StrictDom(at[o.id].b, b))
  }

  ghost predicate UsesDominated(f: Fn, at: map<Reg, Place>, b: Block, k: nat)
    requires b in f.code && b in f.term && k <= |f.code[b]|
  {
    forall o :: o in (if k < |f.code[b]| then Uses(f.code[b][k]) else TermUses(f.term[b])) ==>
      UseDominated(f, at, o, b, k)
  }

  // What the generator delivers: single-assignment code without phis whose entry nobody enters.
  ghost predicate Input(f: Fn, next: nat)
  {
    && f.Valid() && f.g.pred[f.g.entry] == []
    && Identities(f.code, next) && AddressesNotStored(f.code)
    && (forall b, k {:trigger f.code[b][k]} :: b in f.code && 0 <= k < |f.code[b]| ==> !f.code[b][k].Phi?)
    && (forall b, k {:trigger UsesDominated(f, PlaceMap(f.code), b, k)} ::
      b in f.code && f.g.Reachable(b) && 0 <= k <= |f.code[b]| ==> UsesDominated(f, PlaceMap(f.code), b, k))
  }

  // ---- Where instructions are ----

  ghost predicate HasIdentity(code: map<Block, seq<Instr>>, q: Place, r: Reg)
  {
    q.b in code && q.k < |code[q.b]| && code[q.b][q.k].id == r
  }

  ghost function IdsOf(code: map<Block, seq<Instr>>): set<Reg>
  {
    set b: Block, k: nat | b in code && 0 <= k < |code[b]| :: code[b][k].id
  }

  ghost function PlaceOf(code: map<Block, seq<Instr>>, r: Reg): (q: Place)
    requires r in IdsOf(code)
    ensures HasIdentity(code, q, r)
  {
    var b: Block, k: nat :| b in code && 0 <= k < |code[b]| && code[b][k].id == r;
    var p := Place(b, k);
    assert HasIdentity(code, p, r);
    var q :| HasIdentity(code, q, r);
    q
  }

  ghost function PlaceMap(code: map<Block, seq<Instr>>): map<Reg, Place>
  {
    map r | r in IdsOf(code) :: PlaceOf(code, r)
  }

  lemma PlaceMapAt(f: Fn, next: nat, b: Block, k: nat)
    requires Identities(f.code, next) && b in f.code && k < |f.code[b]|
    ensures PlacedAt(f, PlaceMap(f.code), b, k) && Located(f, PlaceMap(f.code), f.code[b][k].id)
  {
    var r := f.code[b][k].id;
    assert r in IdsOf(f.code);
    var q := PlaceOf(f.code, r);
    assert SameIdentity(f.code, b, k, q.b, q.k);
  }

  // ---- The function with its phis ----

  // f is f0 with exactly the phis of the iterated frontiers.
  ghost predicate PlacedFrom(f0: Fn, f: Fn, next: nat, has: map<Slot, set<Block>>)
  {
    && f0.g == f.g && f.term == f0.term && f.g.Valid()
    && Placed(f0.code, f.code, has) && Identities(f.code, next)
    && (forall v :: v !in has ==> StoreBlocks(f0.code, v) == {})
    && (forall v :: v in has ==> has[v] == IteratedFrontier(f.g, StoreBlocks(f0.code, v)))
  }

  lemma PlacedBlock(f0: Fn, f: Fn, next: nat, has: map<Slot, set<Block>>, b: Block)
    requires Input(f0, next) && PlacedFrom(f0, f, next, has) && b in f.code
    ensures BlockPlaced(f0, f, b) && PhisFirst(f.code[b])
    ensures forall v :: HasPhi(f, b, v) <==> v in has && b in has[v]
  {
    assert PlacedIn(f0.code, f.code, has, b);
    var c, m := f.code[b], |f.code[b]| - |f0.code[b]|;
    forall k | m <= k < |c| ensures c[k] == f0.code[b][k - m] && !c[k].Phi? {
    }
    forall v ensures HasPhi(f, b, v) <==> v in SlotsAt(has, b) {
      if v in SlotsAt(has, b) {
        assert PhiFor(c, m, v);
      }
    }
  }

  lemma NoStoresNoPhis(g: Cfg, code: map<Block, seq<Instr>>, v: Slot)
    requires g.Valid() && StoreBlocks(code, v) == {}
    ensures IteratedFrontier(g, StoreBlocks(code, v)) == {}
  {
    assert FrontierClosed(Frontiers(g), {}, {});
  }

  // A block of the placed function decides a slot exactly when the original stores there or
  // the frontier demands a phi.
  lemma DefinesIffDecides(f0: Fn, f: Fn, next: nat, has: map<Slot, set<Block>>, b: Block, v: Slot)
    requires Input(f0, next) && PlacedFrom(f0, f, next, has) && b in f.code
    ensures HasPhi(f, b, v) <==> b in IteratedFrontier(f.g, StoreBlocks(f0.code, v))
    ensures BlockDefines(f, b, v) <==> Decides(f.g, f0.code, b, v)
  {
    PlacedBlock(f0, f, next, has, b);
    if v !in has {
      NoStoresNoPhis(f.g, f0.code, v);
    }
    var c, m := f.code[b], |f.code[b]| - |f0.code[b]|;
    if StoresIn(f0.code[b], v) {
      var k :| 0 <= k < |f0.code[b]| && f0.code[b][k].Store? && f0.code[b][k].slot == v;
      assert c[k + m] == f0.code[b][k];
      assert Defines(c[k + m], v);
    }
    if HasPhi(f, b, v) {
      var k :| 0 <= k < |c| && c[k].Phi? && c[k].slot == v;
      assert Defines(c[k], v);
    }
    if BlockDefines(f, b, v) {
      var k :| 0 <= k < |c| && Defines(c[k], v);
      if k >= m {
        assert c[k] == f0.code[b][k - m];
      }
    }
  }

  // ---- The conditions carry over ----

  lemma UsableAfterPlacing(f0: Fn, f: Fn, next: nat, has: map<Slot, set<Block>>, t: Tree, o: Operand, b: Block, k: nat)
    requires Input(f0, next) && PlacedFrom(f0, f, next, has) && IsDomTree(f.g, t) && b in t.up && b in f.code &&
      k <= |f0.code[b]|
    requires BlockPlaced(f0, f, b) && UseDominated(f0, PlaceMap(f0.code), o, b, k)
    ensures Usable(f, t, PlaceMap(f.code), o, Place(b, k + |f.code[b]| - |f0.code[b]|))
  {
    if o.Result? {
      var q := PlaceMap(f0.code)[o.id];
      PlacedBlock(f0, f, next, has, q.b);
      var k' := q.k + |f.code[q.b]| - |f0.code[q.b]|;
      assert f.code[q.b][k'] == f0.code[q.b][q.k];
      PlaceMapAt(f, next, q.b, k');
    }
  }

  lemma UsesAfterPlacing(f0: Fn, f: Fn, next: nat, has: map<Slot, set<Block>>, t: Tree, b: Block, k: nat)
    requires Input(f0, next) && PlacedFrom(f0, f, next, has) && IsDomTree(f.g, t) && b in t.up && b in f.code &&
      k <= |f.code[b]|
    ensures UsesDefined(f, t, PlaceMap(f.code), b, k)
  {
    PlacedBlock(f0, f, next, has, b);
    var m := |f.code[b]| - |f0.code[b]|;
    if k < m {
      assert f.code[b][k].Phi?;
    } else {
      assert f.g.Reachable(b);
      assert UsesDominated(f0, PlaceMap(f0.code), b, k - m);
      assert k < |f.code[b]| ==> f.code[b][k] == f0.code[b][k - m];
      forall o | o in (if k < |f.code[b]| then Uses(f.code[b][k]) else TermUses(f.term[b]))
        ensures Usable(f, t, PlaceMap(f.code), o, Place(b, k))
      {
        UsableAfterPlacing(f0, f, next, has, t, o, b, k - m);
      }
    }
  }

  lemma WfAfterPlacing(f0: Fn, f: Fn, next: nat, has: map<Slot, set<Block>>, t: Tree)
    requires Input(f0, next) && PlacedFrom(f0, f, next, has) && IsDomTree(f.g, t)
    ensures Wf(f, t, PlaceMap(f.code)) && PhisPlaced(f0, f)
  {
    var at := PlaceMap(f.code);
    forall b | b in t.up ensures b in f.code && b in f.term {
      assert f.g.Reachable(b);
      f.g.ReachableInBlocks(b);
    }
    forall b {:trigger f.SuccessorsRecorded(b)} | b in f.g.blocks ensures f.SuccessorsRecorded(b) {
      assert f0.SuccessorsRecorded(b);
    }
    forall r | r in at ensures Located(f, at, r) {
      var q := PlaceOf(f.code, r);
      assert HasIdentity(f.code, q, r);
    }
    forall b, k {:trigger PlacedAt(f, at, b, k)} | b in f.code && 0 <= k < |f.code[b]| ensures PlacedAt(f, at, b, k) {
      PlaceMapAt(f, next, b, k);
    }
    forall b | b in f.code ensures PhisFirst(f.code[b]) && BlockPlaced(f0, f, b) {
      PlacedBlock(f0, f, next, has, b);
    }
    forall b, k {:trigger UsesDefined(f, t, at, b, k)} | b in t.up && 0 <= k <= |f.code[b]|
      ensures UsesDefined(f, t, at, b, k)
    {
      UsesAfterPlacing(f0, f, next, has, t, b, k);
    }
  }

  lemma ClosedAfterPlacing(f0: Fn, f: Fn, next: nat, has: map<Slot, set<Block>>, t: Tree)
    requires Input(f0, next) && PlacedFrom(f0, f, next, has) && IsDomTree(f.g, t)
    ensures PhiClosed(f, t) && forall v :: !HasPhi(f, f.g.entry, v)
  {
    forall n, x, v | n in t.up && BlockDefines(f, n, v) && InFrontier(f.g, t, n, x) ensures HasPhi(f, x, v) {
      DefinesIffDecides(f0, f, next, has, n, v);
      MergesIsFrontier(f.g, t, n, x);
      FrontierMember(f.g, StoreBlocks(f0.code, v), n, x);
      DefinesIffDecides(f0, f, next, has, x, v);
    }
    forall v ensures !HasPhi(f, f.g.entry, v) {
      DefinesIffDecides(f0, f, next, has, f.g.entry, v);
      var q := set x | x in f.g.blocks && |f.g.pred[x]| >= 2;
      assert FrontierClosed(Frontiers(f.g), StoreBlocks(f0.code, v), q);
    }
  }

  lemma FrontierMember(g: Cfg, defs: set<Block>, n: Block, x: Block)
    requires g.Valid() && n in g.blocks && x in g.blocks && (n in defs || n in IteratedFrontier(g, defs)) &&
      Merges(g, n, x)
    ensures x in IteratedFrontier(g, defs)
  {
    forall q | FrontierClosed(Frontiers(g), defs, q) ensures x in q {
      assert FrontierWithin(Frontiers(g), n, q);
    }
  }

  lemma DecidedAboveIff(f0: Fn, f: Fn, next: nat, has: map<Slot, set<Block>>, t: Tree, b: Block, v: Slot)
    requires Input(f0, next) && PlacedFrom(f0, f, next, has) && IsDomTree(f.g, t) && b in t.up
    ensures DecidedAbove(f, t, b, v) <==> exists a :: f.g.Dom(a, b) && Decides(f.g, f0.code, a, v)
  {
    forall a | a in t.Anc(b) ensures a in f.code && (BlockDefines(f, a, v) <==> Decides(f.g, f0.code, a, v)) {
      assert f.g.Reachable(a);
      f.g.ReachableInBlocks(a);
      DefinesIffDecides(f0, f, next, has, a, v);
    }
    assert forall a :: a in t.Anc(b) <==> f.g.Dom(a, b);
  }

  lemma DominatesDefinersIff(f0: Fn, f: Fn, next: nat, has: map<Slot, set<Block>>, t: Tree, p: Block, v: Slot)
    requires Input(f0, next) && PlacedFrom(f0, f, next, has) && IsDomTree(f.g, t)
    ensures DominatesDefiners(f, t, p, v) <==>
      forall d :: f.g.Reachable(d) && Decides(f.g, f0.code, d, v) ==> f.g.Dom(p, d)
  {
    forall d ensures d in t.up && BlockDefines(f, d, v) <==> f.g.Reachable(d) && Decides(f.g, f0.code, d, v) {
      if f.g.Reachable(d) {
        f.g.ReachableInBlocks(d);
        DefinesIffDecides(f0, f, next, has, d, v);
      }
    }
    assert forall d :: d in t.up ==> (p in t.Anc(d) <==> f.g.Dom(p, d));
  }

  // The condition on edges, before and after placing.
  lemma EdgeSafeIff(f0: Fn, f: Fn, next: nat, has: map<Slot, set<Block>>, t: Tree, p: Block, b: Block, v: Slot)
    requires Input(f0, next) && PlacedFrom(f0, f, next, has) && IsDomTree(f.g, t) && p in t.up
    requires Wf(f, t, PlaceMap(f.code))
    ensures EdgeSafe(f, t, PlaceMap(f.code), p, b, v) <==> EdgeAssigned(f.g, f0.code, p, b, v)
  {
    if f.g.Edge(p, b) {
      assert b in f.code;
      DefinesIffDecides(f0, f, next, has, b, v);
      ValOutSomeIff(f, t, PlaceMap(f.code), p, v);
      DecidedAboveIff(f0, f, next, has, t, p, v);
      DominatesDefinersIff(f0, f, next, has, t, p, v);
    }
  }

  lemma StrictDominators(g: Cfg, t: Tree, b: Block)
    requires IsDomTree(g, t) && b in t.up
    ensures forall a :: g.StrictDom(a, b) <==> b != t.root && g.Dom(a, t.Up(b))
  {
    forall a ensures g.StrictDom(a, b) <==> b != t.root && g.Dom(a, t.Up(b)) {
      if b == t.root {
        assert t.Anc(b) == {b};
      } else {
        ImmediateDominator(g, t, b);
        if g.Dom(a, t.Up(b)) {
          g.DomTrans(a, t.Up(b), b);
          if a == b {
            DomAntisymmetric(g, t, b, t.Up(b));
          }
        }
      }
    }
  }

  lemma DecidedStrictlyAboveIff(f0: Fn, f: Fn, next: nat, has: map<Slot, set<Block>>, t: Tree, b: Block, v: Slot)
    requires Input(f0, next) && PlacedFrom(f0, f, next, has) && IsDomTree(f.g, t) && b in t.up
    ensures b != t.root && DecidedAbove(f, t, t.Up(b), v) <==>
      exists a :: f.g.StrictDom(a, b) && Decides(f.g, f0.code, a, v)
  {
    StrictDominators(f.g, t, b);
    if b != t.root {
      DecidedAboveIff(f0, f, next, has, t, t.Up(b), v);
    }
  }

  lemma DefinedEarlierIff(f0: Fn, f: Fn, next: nat, has: map<Slot, set<Block>>, b: Block, k: nat, v: Slot)
    requires Input(f0, next) && PlacedFrom(f0, f, next, has) && b in f.code && b in f0.code &&
      k <= |f0.code[b]| <= |f.code[b]|
    ensures (exists j :: 0 <= j < k + |f.code[b]| - |f0.code[b]| && Defines(f.code[b][j], v))
      <==> StoresIn(f0.code[b][..k], v) || b in IteratedFrontier(f.g, StoreBlocks(f0.code, v))
  {
    PlacedBlock(f0, f, next, has, b);
    DefinesIffDecides(f0, f, next, has, b, v);
    EarlierDefinition(f0.code[b], f.code[b], |f.code[b]| - |f0.code[b]|, k, v);
  }

  lemma PlacedInstr(f0: Fn, f: Fn, next: nat, has: map<Slot, set<Block>>, b: Block, k: nat)
    requires Input(f0, next) && PlacedFrom(f0, f, next, has) && b in f.code && k < |f.code[b]|
    ensures b in f0.code && |f0.code[b]| <= |f.code[b]|
    ensures var m := |f.code[b]| - |f0.code[b]|; if k < m then f.code[b][k].Phi? else f.code[b][k] == f0.code[b][k - m]
  {
    PlacedBlock(f0, f, next, has, b);
  }

  // The condition on loads, before and after placing.
  lemma LoadDefinedIff(f0: Fn, f: Fn, next: nat, has: map<Slot, set<Block>>, t: Tree, b: Block, k: nat)
    requires Input(f0, next) && PlacedFrom(f0, f, next, has) && IsDomTree(f.g, t) && b in t.up && b in f.code &&
      b in f0.code && k < |f0.code[b]|
    requires Wf(f, t, PlaceMap(f.code)) && |f0.code[b]| <= |f.code[b]|
    ensures LoadDefined(f, t, PlaceMap(f.code), b, k + |f.code[b]| - |f0.code[b]|) <==> LoadAssigned(f.g, f0.code, b, k)
  {
    var m := |f.code[b]| - |f0.code[b]|;
    PlacedInstr(f0, f, next, has, b, k + m);
    if f0.code[b][k].Load? {
      var v := f0.code[b][k].slot;
      ValSomeIff(f, t, PlaceMap(f.code), b, k + m, v);
      DefinedEarlierIff(f0, f, next, has, b, k, v);
      DecidedStrictlyAboveIff(f0, f, next, has, t, b, v);
    }
  }

  lemma EarlierDefinition(c0: seq<Instr>, c: seq<Instr>, m: nat, k: nat, v: Slot)
    requires |c| == m + |c0| && c[m..] == c0 && k <= |c0|
    requires forall i :: 0 <= i < m ==> c[i].Phi?
    requires forall i :: 0 <= i < |c0| ==> !c0[i].Phi?
    ensures (exists j :: 0 <= j < k + m && Defines(c[j], v)) <==>
      StoresIn(c0[..k], v) || (exists i :: 0 <= i < |c| && c[i].Phi? && c[i].slot == v)
  {
    if StoresIn(c0[..k], v) {
      var j :| 0 <= j < k && c0[..k][j].Store? && c0[..k][j].slot == v;
      assert c[j + m] == c0[j] && Defines(c[j + m], v);
    }
    forall i | m <= i < |c| ensures c[i] == c0[i - m] && !c[i].Phi? {
    }
    if i :| 0 <= i < |c| && c[i].Phi? && c[i].slot == v {
      assert Defines(c[i], v);
    }
    if j :| 0 <= j < k + m && Defines(c[j], v) {
      if j >= m {
        assert c[j] == c0[..k][j - m];
      }
    }
  }

  lemma LoadDefinedFromAssigned(f0: Fn, f: Fn, next: nat, has: map<Slot, set<Block>>, t: Tree, b: Block, k: nat)
    requires Input(f0, next) && PlacedFrom(f0, f, next, has) && IsDomTree(f.g, t) && b in t.up && b in f.code &&
      k < |f.code[b]|
    requires Wf(f, t, PlaceMap(f.code)) && Assigned(f.g, f0.code)
    ensures LoadDefined(f, t, PlaceMap(f.code), b, k)
  {
    PlacedInstr(f0, f, next, has, b, k);
    var m := |f.code[b]| - |f0.code[b]|;
    if k >= m {
      assert f.g.Reachable(b);
      assert LoadAssigned(f.g, f0.code, b, k - m);
      LoadDefinedIff(f0, f, next, has, t, b, k - m);
    }
  }

  lemma DefinedFromAssigned(f0: Fn, f: Fn, next: nat, has: map<Slot, set<Block>>, t: Tree)
    requires Input(f0, next) && PlacedFrom(f0, f, next, has) && IsDomTree(f.g, t)
    requires Wf(f, t, PlaceMap(f.code)) && Assigned(f.g, f0.code)
    ensures AllDefined(f, t, PlaceMap(f.code))
  {
    var at := PlaceMap(f.code);
    forall b, k {:trigger LoadDefined(f, t, at, b, k)} | b in t.up && 0 <= k < |f.code[b]|
      ensures LoadDefined(f, t, at, b, k)
    {
      LoadDefinedFromAssigned(f0, f, next, has, t, b, k);
    }
    forall p, b, v {:trigger EdgeSafe(f, t, at, p, b, v)} | p in t.up ensures EdgeSafe(f, t, at, p, b, v) {
      assert f.g.Reachable(p);
      assert EdgeAssigned(f.g, f0.code, p, b, v);
      EdgeSafeIff(f0, f, next, has, t, p, b, v);
    }
  }

  lemma AssignedFromDefined(f0: Fn, f: Fn, next: nat, has: map<Slot, set<Block>>, t: Tree)
    requires Input(f0, next) && PlacedFrom(f0, f, next, has) && IsDomTree(f.g, t)
    requires Wf(f, t, PlaceMap(f.code)) && AllDefined(f, t, PlaceMap(f.code))
    ensures Assigned(f.g, f0.code)
  {
    var at := PlaceMap(f.code);
    forall b, k {:trigger LoadAssigned(f.g, f0.code, b, k)} | f.g.Reachable(b) && b in f0.code && 0 <= k < |f0.code[b]|
      ensures LoadAssigned(f.g, f0.code, b, k)
    {
      PlacedBlock(f0, f, next, has, b);
      assert LoadDefined(f, t, at, b, k + |f.code[b]| - |f0.code[b]|);
      LoadDefinedIff(f0, f, next, has, t, b, k);
    }
    forall p, b, v {:trigger EdgeAssigned(f.g, f0.code, p, b, v)} | f.g.Reachable(p) ensures EdgeAssigned(f.g, f0.code,
      p, b, v) {
      assert EdgeSafe(f, t, at, p, b, v);
      EdgeSafeIff(f0, f, next, has, t, p, b, v);
    }
  }

  // The two conditions on the original say exactly that the renaming finds every value.
  lemma DefinedIffAssigned(f0: Fn, f: Fn, next: nat, has: map<Slot, set<Block>>, t: Tree)
    requires Input(f0, next) && PlacedFrom(f0, f, next, has) && IsDomTree(f.g, t)
    requires Wf(f, t, PlaceMap(f.code))
    ensures AllDefined(f, t, PlaceMap(f.code)) <==> Assigned(f.g, f0.code)
  {
    if Assigned(f.g, f0.code) {
      DefinedFromAssigned(f0, f, next, has, t);
    }
    if AllDefined(f, t, PlaceMap(f.code)) {
      AssignedFromDefined(f0, f, next, has, t);
    }
  }

  // The condition is needed: a variable that is read without ever being assigned to. Wherever the
  // phis are placed and whatever the dominator tree, the load has no value.
  lemma ReadWithoutStore() returns (f0: Fn)
    ensures Input(f0, 2) && !Assigned(f0.g, f0.code)
    ensures forall f, next, has, t {:trigger PlacedFrom(f0, f, next, has), IsDomTree(f.g, t)} ::
      Input(f0, next) && PlacedFrom(f0, f, next, has) && IsDomTree(f.g, t) ==> MissesLoad(f0, f, t, 0, 1)
  {
    f0 := ReadOnly();
    ReadUnassigned(f0.g, f0.code, 0, 1);
    forall f, next, has, t | Input(f0, next) && PlacedFrom(f0, f, next, has) && IsDomTree(f.g, t)
      ensures MissesLoad(f0, f, t, 0, 1)
    {
      ReadMissed(f0, f, next, has, t, 0, 1);
    }
  }

  lemma ReadOnly() returns (f0: Fn)
    ensures Input(f0, 2) && f0.g.Reachable(0) && 0 in f0.code && |f0.code[0]| == 2 && f0.code[0][1].Load? &&
      StoreBlocks(f0.code, f0.code[0][1].slot) == {}
  {
    var s := [Alloca(0, 0, true), Load(1, 0)];
    var g := Cfg({0}, 0, map[0 := []], map[0 := []]);
    f0 := Fn(g, map[0 := s], map[0 := Ret(Some(Result(1)))]);
    PlaceMapAt(f0, 2, 0, 1);
    assert Uses(s[0]) == [] && Uses(s[1]) == [] && TermUses(f0.term[0]) == [Result(1)];
    g.ReachesSelf(0);
  }

  // The load at k in the original block b has no value in the placed function.
  ghost predicate MissesLoad(f0: Fn, f: Fn, t: Tree, b: Block, k: nat)
  {
    && Wf(f, t, PlaceMap(f.code)) && b in t.up && b in f0.code && k < |f0.code[b]| <= |f.code[b]|
    && var m := k + |f.code[b]| - |f0.code[b]|;
       f.code[b][m].Load? && Val(f, t, PlaceMap(f.code), b, m, f.code[b][m].slot) == None
  }

  lemma ReadMissed(f0: Fn, f: Fn, next: nat, has: map<Slot, set<Block>>, t: Tree, b: Block, k: nat)
    requires Input(f0, next) && PlacedFrom(f0, f, next, has) && IsDomTree(f.g, t)
    requires f.g.Reachable(b) && b in f0.code && k < |f0.code[b]| && !LoadAssigned(f.g, f0.code, b, k)
    ensures MissesLoad(f0, f, t, b, k)
  {
    WfAfterPlacing(f0, f, next, has, t);
    PlacedBlock(f0, f, next, has, b);
    PlacedInstr(f0, f, next, has, b, k + |f.code[b]| - |f0.code[b]|);
    LoadDefinedIff(f0, f, next, has, t, b, k);
  }

  lemma ReadUnassigned(g: Cfg, code: map<Block, seq<Instr>>, b: Block, k: nat)
    requires g.Valid() && g.Reachable(b) && b in code && k < |code[b]| && code[b][k].Load? &&
      StoreBlocks(code, code[b][k].slot) == {}
    ensures !LoadAssigned(g, code, b, k) && !Assigned(g, code)
  {
    var v := code[b][k].slot;
    NoStoresNoPhis(g, code, v);
    assert !StoresIn(code[b][..k], v) by {
      assert b !in StoreBlocks(code, v);
      assert forall j :: 0 <= j < k ==> code[b][..k][j] == code[b][j];
    }
    assert forall a :: !Decides(g, code, a, v);
    assert !LoadAssigned(g, code, b, k);
  }

  // Every slot is stored to in the entry block, and there before it is read, as parameters are.
  ghost predicate EntryStores(g: Cfg, code: map<Block, seq<Instr>>)
    requires g.Valid()
  {
    && code.Keys == g.blocks
    && (forall b, k {:trigger StoredInEntry(g, code, b, k)} :: b in code && 0 <= k < |code[b]| ==>
      StoredInEntry(g, code, b, k))
    && (forall k :: 0 <= k < |code[g.entry]| && code[g.entry][k].Load? ==>
      StoresIn(code[g.entry][..k], code[g.entry][k].slot))
  }

  ghost predicate StoredInEntry(g: Cfg, code: map<Block, seq<Instr>>, b: Block, k: nat)
    requires g.entry in code && b in code && k < |code[b]|
  {
    code[b][k].Load? || code[b][k].Store? ==> StoresIn(code[g.entry], code[b][k].slot)
  }

  lemma EntryStoresSuffice(g: Cfg, code: map<Block, seq<Instr>>)
    requires g.Valid() && EntryStores(g, code)
    ensures Assigned(g, code)
  {
    forall b, k {:trigger LoadAssigned(g, code, b, k)} | g.Reachable(b) && b in code && 0 <= k < |code[b]|
      ensures LoadAssigned(g, code, b, k)
    {
      if code[b][k].Load? && b != g.entry {
        var v := code[b][k].slot;
        assert StoredInEntry(g, code, b, k);
        assert g.entry in StoreBlocks(code, v);
        assert g.StrictDom(g.entry, b) && Decides(g, code, g.entry, v);
      }
    }
    forall p, b, v {:trigger EdgeAssigned(g, code, p, b, v)} | g.Reachable(p) ensures EdgeAssigned(g, code, p, b, v) {
      if b in IteratedFrontier(g, StoreBlocks(code, v)) {
        if StoreBlocks(code, v) == {} {
          NoStoresNoPhis(g, code, v);
        } else {
          var d :| d in StoreBlocks(code, v);
          var k :| 0 <= k < |code[d]| && code[d][k].Store? && code[d][k].slot == v;
          assert StoredInEntry(g, code, d, k);
          assert g.entry in StoreBlocks(code, v);
          assert g.Dom(g.entry, p) && Decides(g, code, g.entry, v);
        }
      }
    }
  }
}
