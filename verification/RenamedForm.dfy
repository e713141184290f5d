// The code that the whole conversion leaves, instruction by instruction.
module RenamedForm {
  import opened Graph
  import opened DomTree
  import opened IR
  import opened Ssa
  import opened Rename
  import opened PhiPlacement
  import opened RenameFinal
  import opened PlacedFunction

  // j is i, but for its operands.
  ghost predicate Alike(i: Instr, j: Instr)
  {
    match i
    case Store(id, _, v) => j.Store? && j.id == id && j.slot == v
    case Phi(id, v, _) => j.Phi? && j.id == id && j.slot == v
    case Compute(id, op, args) => j.Compute? && j.id == id && j.op == op && |j.args| == |args|
    case Effect(id, op, args) => j.Effect? && j.id == id && j.op == op && |j.args| == |args|
    case _ => j == i
  }

  // What is taken out: scalar slots everywhere, and slot accesses where the walk has been.
  ghost predicate Goes(i: Instr, reached: bool)
  {
    (i.Alloca? && i.scalar) || (reached && (i.Load? || i.Store?))
  }

  // out is what remains of s, in the same order.
  ghost predicate Remains(s: seq<Instr>, out: seq<Instr>, reached: bool)
  {
    if s == [] then out == []
    else if Goes(s[|s| - 1], reached) then Remains(s[..|s| - 1], out, reached)
    else
      out != [] && Alike(s[|s| - 1], out[|out| - 1]) && Remains(s[..|s| - 1], out[..|out| - 1], reached)
  }

  lemma {:induction false} FilteredRemains(s: seq<Instr>, r: seq<Instr>, w: set<Reg>, reached: bool)
    requires |r| == |s|
    requires forall k :: 0 <= k < |s| ==> Alike(s[k], r[k]) && (r[k].id in w <==> Goes(s[k], reached))
    ensures Remains(s, Without(r, w), reached)
  {
    if s != [] {
      FilteredRemains(s[..|s| - 1], r[..|s| - 1], w, reached);
      var out := Without(r, w);
      if !Goes(s[|s| - 1], reached) {
        assert out[..|out| - 1] == Without(r[..|s| - 1], w);
      }
    }
  }

  // The phis put in front remain in front.
  lemma {:induction false} PhisRemain(p: seq<Instr>, out: seq<Instr>, reached: bool)
    requires Remains(p, out, reached) && forall i :: 0 <= i < |p| ==> p[i].Phi?
    ensures |out| == |p| && forall i :: 0 <= i < |p| ==> out[i].Phi? && out[i].slot == p[i].slot
  {
    if p != [] {
      PhisRemain(p[..|p| - 1], out[..|out| - 1], reached);
    }
  }

  lemma {:induction false} RemainsBehind(p: seq<Instr>, s: seq<Instr>, out: seq<Instr>, reached: bool)
    requires Remains(p + s, out, reached) && forall i :: 0 <= i < |p| ==> p[i].Phi?
    ensures |p| <= |out| && Remains(s, out[|p|..], reached)
    ensures forall i :: 0 <= i < |p| ==> out[i].Phi? && out[i].slot == p[i].slot
    decreases s
  {
    if s == [] {
      assert p + s == p;
      PhisRemain(p, out, reached);
    } else {
      var init, last := s[..|s| - 1], s[|s| - 1];
      assert (p + s)[..|p + s| - 1] == p + init && (p + s)[|p + s| - 1] == last;
      if Goes(last, reached) {
        RemainsBehind(p, init, out, reached);
      } else {
        RemainsBehind(p, init, out[..|out| - 1], reached);
        assert out[|p|..][..|out| - |p| - 1] == out[..|out| - 1][|p|..];
      }
    }
  }

  lemma RenderAlike(f: Fn, t: Tree, at: map<Reg, Place>, subst: set<Reg>, fed: seq<(Block, Block)>, c: Block, i: Instr)
    requires Wf(f, t, at)
    ensures Alike(i, RenderInstr(f, t, at, subst, fed, c, i))
  {
  }

  // Which instructions of c are taken out.
  lemma TakenOut(f: Fn, t: Tree, at: map<Reg, Place>, subst: set<Reg>, fed: seq<(Block, Block)>, c: Block,
      reached: bool, code1: seq<Instr>, k: nat)
    requires Wf(f, t, at) && c in f.code && k < |f.code[c]|
    requires code1 == Without(Render(f, t, at, subst, fed, c), if reached then Accesses(f.code[c]) else {})
    ensures f.code[c][k].id in (if reached then Accesses(f.code[c]) else {}) + ScalarSlots(code1) <==>
      Goes(f.code[c][k], reached)
  {
    var r, w := Render(f, t, at, subst, fed, c), if reached then Accesses(f.code[c]) else {};
    var i := f.code[c][k];
    WithoutKeeps(r, w, r[k]);
    assert r[k] in r;
    if i.id in w {
      var j :| 0 <= j < |f.code[c]| && (f.code[c][j].Load? || f.code[c][j].Store?) && f.code[c][j].id == i.id;
      assert PlacedAt(f, at, c, j) && PlacedAt(f, at, c, k);
    } else if i.id in ScalarSlots(code1) {
      var j :| 0 <= j < |code1| && code1[j].Alloca? && code1[j].scalar && code1[j].id == i.id;
      WithoutKeeps(r, w, code1[j]);
      var m :| 0 <= m < |r| && r[m] == code1[j];
      assert PlacedAt(f, at, c, m) && PlacedAt(f, at, c, k);
    }
  }

  lemma BlockRemains(f: Fn, t: Tree, at: map<Reg, Place>, subst: set<Reg>, fed: seq<(Block, Block)>, c: Block,
      reached: bool, code1: seq<Instr>, code2: seq<Instr>)
    requires Wf(f, t, at) && c in f.code
    requires code1 == Without(Render(f, t, at, subst, fed, c), if reached then Accesses(f.code[c]) else {})
    requires code2 == Without(code1, ScalarSlots(code1))
    ensures Remains(f.code[c], code2, reached)
  {
    var r, w := Render(f, t, at, subst, fed, c), if reached then Accesses(f.code[c]) else {};
    WithoutUnion(r, w, ScalarSlots(code1));
    forall k | 0 <= k < |r|
      ensures Alike(f.code[c][k], r[k]) && (r[k].id in w + ScalarSlots(code1) <==> Goes(f.code[c][k], reached))
    {
      RenderAlike(f, t, at, subst, fed, c, f.code[c][k]);
      TakenOut(f, t, at, subst, fed, c, reached, code1, k);
    }
    FilteredRemains(f.code[c], r, w + ScalarSlots(code1), reached);
  }

  // One phi for each slot whose storing blocks have b in their iterated frontier.
  ghost predicate PhisOfFrontier(g: Cfg, code0: map<Block, seq<Instr>>, b: Block, phis: seq<Instr>)
    requires g.Valid()
  {
    && (forall i :: 0 <= i < |phis| ==> phis[i].Phi?)
    && (forall i, j :: 0 <= i < j < |phis| ==> phis[i].slot != phis[j].slot)
    && forall v :: b in IteratedFrontier(g, StoreBlocks(code0, v)) <==> exists i :: 0 <= i < |phis| && phis[i].slot == v
  }

  // A block of the converted function: its phis, and what remains of its instructions.
  ghost predicate Converted(g: Cfg, code0: map<Block, seq<Instr>>, b: Block, out: seq<Instr>)
    requires g.Valid() && b in code0
  {
    exists m {:trigger out[..m]} :: 0 <= m <= |out| && PhisOfFrontier(g, code0, b, out[..m]) &&
      Remains(code0[b], out[m..], g.Reachable(b))
  }

  lemma PhisInFront(f0: Fn, f: Fn, next: nat, has: map<Slot, set<Block>>, b: Block, out: seq<Instr>)
    requires Input(f0, next) && PlacedFrom(f0, f, next, has) && b in f.code
    requires Remains(f.code[b], out, f.g.Reachable(b))
    ensures Converted(f.g, f0.code, b, out)
  {
    assert PlacedIn(f0.code, f.code, has, b);
    var m := |f.code[b]| - |f0.code[b]|;
    var p := f.code[b][..m];
    assert f.code[b] == p + f0.code[b];
    RemainsBehind(p, f0.code[b], out, f.g.Reachable(b));
    forall v ensures (exists i :: 0 <= i < m && out[..m][i].slot == v) <==>
      b in IteratedFrontier(f.g, StoreBlocks(f0.code, v))
    {
      DefinesIffDecides(f0, f, next, has, b, v);
      PhiInFront(f0, f, next, has, b, v);
      if i :| 0 <= i < m && p[i].slot == v {
        assert out[..m][i].slot == v;
      }
    }
    assert PhisOfFrontier(f.g, f0.code, b, out[..m]);
  }

  lemma PhiInFront(f0: Fn, f: Fn, next: nat, has: map<Slot, set<Block>>, b: Block, v: Slot)
    requires Input(f0, next) && PlacedFrom(f0, f, next, has) && b in f.code
    ensures HasPhi(f, b, v) <==>
      exists i :: 0 <= i < |f.code[b]| - |f0.code[b]| && f.code[b][i].Phi? && f.code[b][i].slot == v
  {
    assert PlacedIn(f0.code, f.code, has, b);
    PlacedBlock(f0, f, next, has, b);
    var m := |f.code[b]| - |f0.code[b]|;
    forall k | m <= k < |f.code[b]| ensures !f.code[b][k].Phi? {
      assert f.code[b][k] == f0.code[b][k - m];
    }
  }
}
