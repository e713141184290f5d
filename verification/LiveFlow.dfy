// Live variables: the equations, their least solution as paths, and what the phi filter loses.
module LiveFlow {
  import opened Graph

  type Id = nat  // a value with a name: an instruction's result, an argument or a global variable

  // What the collection phase finds out about the blocks of a function.
  datatype Flow = Flow(blocks: set<Block>, succ: map<Block, seq<Block>>, use: map<Block, set<Id>>,
    def: map<Block, set<Id>>,
                       phiUse: map<Block, set<Id>>, phiOut: map<Block, set<Id>>)
  {
    predicate Edge(a: Block, b: Block)
    {
      a in succ && b in succ[a]
    }

    // v may be live across the edge: it is not used by phis of s only, or by a phi it feeds from p.
    predicate Passes(p: Block, s: Block, v: Id)
    {
      v in At(phiUse, s) ==> v in At(phiOut, p)
    }

    ghost predicate Valid()
    {
      forall a, b {:trigger Edge(a, b)} :: Edge(a, b) ==> a in blocks && b in blocks
    }
  }

  function At(m: map<Block, set<Id>>, b: Block): set<Id>
  {
    if b in m then m[b] else {}
  }

  // v reaches b's end from the start of some successor, the block itself excepted.
  ghost predicate FlowsOut(f: Flow, liveIn: map<Block, set<Id>>, b: Block, v: Id)
  {
    exists s :: s != b && f.Edge(b, s) && v in At(liveIn, s) && f.Passes(b, s, v)
  }

  ghost predicate FlowsIn(f: Flow, liveIn: map<Block, set<Id>>, b: Block, v: Id)
  {
    v in At(f.use, b) || (v !in At(f.def, b) && FlowsOut(f, liveIn, b, v))
  }

  // The equations as they are meant, a block that is its own successor included.
  ghost predicate EdgeLive(f: Flow, liveIn: map<Block, set<Id>>, b: Block, s: Block, v: Id)
  {
    f.Edge(b, s) && v in At(liveIn, s) && f.Passes(b, s, v)
  }

  ghost predicate Solves(f: Flow, liveIn: map<Block, set<Id>>)
  {
    forall b, v {:trigger v in At(liveIn, b)} :: b in f.blocks ==>
      (v in At(liveIn, b) <==> v in At(f.use, b) || (v !in At(f.def, b) && exists s :: EdgeLive(f, liveIn, b, s, v)))
  }

  // ---- Paths ----

  ghost predicate Carries(f: Flow, p: seq<Block>, v: Id, i: nat)
    requires i + 1 < |p|
  {
    f.Edge(p[i], p[i + 1]) && v !in At(f.def, p[i]) && f.Passes(p[i], p[i + 1], v)
  }

  // Along p, v is not defined before the last block, which uses it, and every edge lets it pass.
  ghost predicate LivePath(f: Flow, p: seq<Block>, b: Block, v: Id)
  {
    |p| > 0 && p[0] == b && v in At(f.use, p[|p| - 1]) && forall i :: 0 <= i < |p| - 1 ==> Carries(f, p, v, i)
  }

  ghost predicate Live(f: Flow, b: Block, v: Id)
  {
    exists p :: LivePath(f, p, b, v)
  }

  lemma LiveHere(f: Flow, b: Block, v: Id)
    requires v in At(f.use, b)
    ensures Live(f, b, v)
  {
    assert LivePath(f, [b], b, v);
  }

  lemma LiveBefore(f: Flow, b: Block, s: Block, v: Id)
    requires f.Edge(b, s) && v !in At(f.def, b) && f.Passes(b, s, v) && Live(f, s, v)
    ensures Live(f, b, v)
  {
    var p :| LivePath(f, p, s, v);
    var q := [b] + p;
    forall i | 0 <= i < |q| - 1 ensures Carries(f, q, v, i) {
      if i > 0 {
        assert Carries(f, p, v, i - 1);
      }
    }
    assert LivePath(f, q, b, v);
  }

  // The first step of a path: a use, or an edge that v passes to a block where it is live.
  lemma LiveSplit(f: Flow, p: seq<Block>, b: Block, v: Id)
    requires LivePath(f, p, b, v) && |p| > 1
    ensures f.Edge(b, p[1]) && v !in At(f.def, b) && f.Passes(b, p[1], v) && LivePath(f, p[1..], p[1], v)
  {
    assert Carries(f, p, v, 0);
    var q := p[1..];
    forall i | 0 <= i < |q| - 1 ensures Carries(f, q, v, i) {
      assert Carries(f, p, v, i + 1);
    }
  }

  // Nothing is live at a block but what a path says.
  ghost predicate Sound(f: Flow, liveIn: map<Block, set<Id>>)
  {
    forall b, v {:trigger Live(f, b, v)} :: v in At(liveIn, b) ==> Live(f, b, v)
  }

  lemma FlowsInSound(f: Flow, liveIn: map<Block, set<Id>>, b: Block, v: Id)
    requires Sound(f, liveIn) && FlowsIn(f, liveIn, b, v)
    ensures Live(f, b, v)
  {
    if v in At(f.use, b) {
      LiveHere(f, b, v);
    } else {
      var s :| s != b && f.Edge(b, s) && v in At(liveIn, s) && f.Passes(b, s, v);
      assert Live(f, s, v);
      LiveBefore(f, b, s, v);
    }
  }

  // The sets no longer change.
  ghost predicate Stable(f: Flow, liveIn: map<Block, set<Id>>, b: Block)
  {
    forall v {:trigger FlowsIn(f, liveIn, b, v)} :: v in At(liveIn, b) <==> FlowsIn(f, liveIn, b, v)
  }

  ghost predicate AllStable(f: Flow, liveIn: map<Block, set<Id>>)
  {
    forall b {:trigger Stable(f, liveIn, b)} :: b in f.blocks ==> Stable(f, liveIn, b)
  }

  // Sets that no longer change hold everything a path says.
  lemma {:induction false} StableComplete(f: Flow, liveIn: map<Block, set<Id>>, p: seq<Block>, b: Block, v: Id)
    requires f.Valid() && AllStable(f, liveIn) && b in f.blocks && LivePath(f, p, b, v)
    ensures v in At(liveIn, b)
    decreases |p|
  {
    assert Stable(f, liveIn, b);
    if |p| > 1 {
      LiveSplit(f, p, b, v);
      StableComplete(f, liveIn, p[1..], p[1], v);
      assert p[1] != b ==> FlowsOut(f, liveIn, b, v);
      var flows := FlowsIn(f, liveIn, b, v);
    } else {
      assert FlowsIn(f, liveIn, b, v);
    }
  }

  ghost predicate LiveExactly(f: Flow, liveIn: map<Block, set<Id>>)
  {
    forall b, v {:trigger Live(f, b, v)} :: b in f.blocks ==> (v in At(liveIn, b) <==> Live(f, b, v))
  }

  lemma StableExact(f: Flow, liveIn: map<Block, set<Id>>)
    requires f.Valid() && AllStable(f, liveIn) && Sound(f, liveIn)
    ensures LiveExactly(f, liveIn)
  {
    forall b, v | b in f.blocks ensures v in At(liveIn, b) <==> Live(f, b, v) {
      if Live(f, b, v) {
        var p :| LivePath(f, p, b, v);
        StableComplete(f, liveIn, p, b, v);
      }
    }
  }

  // The paths are a solution of the equations, self edges included, ...
  lemma LiveSolves(f: Flow, liveIn: map<Block, set<Id>>)
    requires f.Valid() && LiveExactly(f, liveIn)
    ensures Solves(f, liveIn)
  {
    forall b, v | b in f.blocks
      ensures v in At(liveIn, b) <==>
        v in At(f.use, b) || (v !in At(f.def, b) && exists s :: EdgeLive(f, liveIn, b, s, v))
    {
      if v in At(liveIn, b) && v !in At(f.use, b) {
        assert Live(f, b, v);
        var p :| LivePath(f, p, b, v);
        LiveSplit(f, p, b, v);
        assert Live(f, p[1], v);
        assert EdgeLive(f, liveIn, b, p[1], v);
      }
      if v in At(f.use, b) {
        LiveHere(f, b, v);
      }
      if v !in At(f.def, b) {
        if s :| EdgeLive(f, liveIn, b, s, v) {
          assert Live(f, s, v);
          LiveBefore(f, b, s, v);
        }
      }
    }
  }

  // ... and the least one.
  lemma {:induction false} LiveLeast(f: Flow, other: map<Block, set<Id>>, p: seq<Block>, b: Block, v: Id)
    requires f.Valid() && Solves(f, other) && b in f.blocks && LivePath(f, p, b, v)
    ensures v in At(other, b)
    decreases |p|
  {
    if |p| > 1 {
      LiveSplit(f, p, b, v);
      LiveLeast(f, other, p[1..], p[1], v);
      assert EdgeLive(f, other, b, p[1], v);
    }
  }

  // ---- In-place sweeps only add ----

  // Recomputing any block keeps what it had.
  ghost predicate Growing(f: Flow, liveIn: map<Block, set<Id>>)
  {
    forall b, v {:trigger FlowsIn(f, liveIn, b, v)} :: v in At(liveIn, b) ==> FlowsIn(f, liveIn, b, v)
  }

  lemma FlowsMore(f: Flow, liveIn: map<Block, set<Id>>, more: map<Block, set<Id>>, b: Block, v: Id)
    requires FlowsIn(f, liveIn, b, v)
    requires forall s {:trigger At(liveIn, s)} :: At(liveIn, s) <= At(more, s)
    ensures FlowsIn(f, more, b, v)
  {
    if v !in At(f.use, b) {
      var s :| s != b && f.Edge(b, s) && v in At(liveIn, s) && f.Passes(b, s, v);
      assert v in At(more, s);
    }
  }

  // Replacing the set of one block by what flows into it keeps the sets sound and growing.
  lemma SweepKeeps(f: Flow, liveIn: map<Block, set<Id>>, b: Block, now: set<Id>)
    requires Sound(f, liveIn) && Growing(f, liveIn)
    requires forall v {:trigger FlowsIn(f, liveIn, b, v)} :: v in now <==> FlowsIn(f, liveIn, b, v)
    ensures At(liveIn, b) <= now
    ensures Sound(f, liveIn[b := now]) && Growing(f, liveIn[b := now])
  {
    forall v | v in At(liveIn, b) ensures v in now {
      assert FlowsIn(f, liveIn, b, v);
    }
    var next := liveIn[b := now];
    forall c, v | v in At(next, c) ensures Live(f, c, v) {
      if c == b {
        FlowsInSound(f, liveIn, b, v);
      } else {
        assert v in At(liveIn, c);
      }
    }
    forall c, v | v in At(next, c) ensures FlowsIn(f, next, c, v) {
      assert FlowsIn(f, liveIn, c, v);
      FlowsMore(f, liveIn, next, c, v);
    }
  }

  // ---- Why the sweeps end ----

  ghost function Universe(f: Flow): set<Id>
  {
    set b, v | b in f.blocks && v in At(f.use, b) :: v
  }

  ghost function Missing(f: Flow, liveIn: map<Block, set<Id>>): set<(Block, Id)>
  {
    set b, v | b in f.blocks && v in Universe(f) && v !in At(liveIn, b) :: (b, v)
  }

  lemma {:induction false} LiveInUniverse(f: Flow, p: seq<Block>, b: Block, v: Id)
    requires f.Valid() && b in f.blocks && LivePath(f, p, b, v)
    ensures v in Universe(f)
    decreases |p|
  {
    if |p| > 1 {
      LiveSplit(f, p, b, v);
      LiveInUniverse(f, p[1..], p[1], v);
    }
  }

  // A set that has changed has grown, by one of the finitely many values used anywhere.
  lemma MissingShrinks(f: Flow, liveIn: map<Block, set<Id>>, b: Block, now: set<Id>)
    requires f.Valid() && b in f.blocks && At(liveIn, b) <= now && Sound(f, liveIn[b := now])
    ensures Missing(f, liveIn[b := now]) <= Missing(f, liveIn)
    ensures now != At(liveIn, b) ==> Missing(f, liveIn[b := now]) < Missing(f, liveIn)
  {
    var next := liveIn[b := now];
    if now != At(liveIn, b) {
      var v :| v in now && v !in At(liveIn, b);
      assert v in At(next, b);
      assert Live(f, b, v);
      var p :| LivePath(f, p, b, v);
      LiveInUniverse(f, p, b, v);
      assert (b, v) in Missing(f, liveIn) && (b, v) !in Missing(f, next);
    }
  }

  // The start of a block itself is not looked at when its end is computed.
  lemma ClearedSame(f: Flow, liveIn: map<Block, set<Id>>, b: Block, v: Id)
    ensures FlowsOut(f, liveIn[b := {}], b, v) <==> FlowsOut(f, liveIn, b, v)
  {
    forall s | s != b ensures At(liveIn[b := {}], s) == At(liveIn, s) {
    }
  }

  ghost predicate OutExact(f: Flow, liveIn: map<Block, set<Id>>, liveOut: map<Block, set<Id>>, b: Block)
  {
    forall v {:trigger FlowsOut(f, liveIn, b, v)} :: v in At(liveOut, b) <==> FlowsOut(f, liveIn, b, v)
  }

  // ---- The ends of blocks ----

  ghost predicate LeavesLiveElsewhere(f: Flow, b: Block, v: Id)
  {
    exists s :: s != b && f.Edge(b, s) && f.Passes(b, s, v) && Live(f, s, v)
  }

  // What is reported live at the end of a block is what is live on its edges to other blocks: an
  // edge to the block itself is not counted.
  lemma OutIff(f: Flow, liveIn: map<Block, set<Id>>, liveOut: map<Block, set<Id>>, b: Block, v: Id)
    requires f.Valid() && LiveExactly(f, liveIn) && OutExact(f, liveIn, liveOut, b)
    ensures v in At(liveOut, b) <==> LeavesLiveElsewhere(f, b, v)
  {
    if FlowsOut(f, liveIn, b, v) {
      var s :| s != b && f.Edge(b, s) && v in At(liveIn, s) && f.Passes(b, s, v);
      assert Live(f, s, v);
    }
    if LeavesLiveElsewhere(f, b, v) {
      var s :| s != b && f.Edge(b, s) && f.Passes(b, s, v) && Live(f, s, v);
      assert v in At(liveIn, s);
    }
    assert FlowsOut(f, liveIn, b, v) <==> v in At(liveOut, b);
  }
}
