// The code between two steps of the renaming, as a function of the blocks visited so far.
module Rename {
  import opened Graph
  import opened DomTree
  import opened IR
  import opened Ssa

  // ---- The elementary edits ----

  function ReplaceOperand(o: Operand, r: Reg, repl: Operand): Operand
  {
    if o == Result(r) then repl else o
  }

  function ReplaceOperands(os: seq<Operand>, r: Reg, repl: Operand): (res: seq<Operand>)
    ensures |res| == |os| && forall i :: 0 <= i < |os| ==> res[i] == ReplaceOperand(os[i], r, repl)
  {
    seq(|os|, i requires 0 <= i < |os| => ReplaceOperand(os[i], r, repl))
  }

  function ReplacePairs(ps: seq<(Operand, Block)>, r: Reg, repl: Operand): (res: seq<(Operand, Block)>)
    ensures |res| == |ps| && forall i :: 0 <= i < |ps| ==> res[i] == (ReplaceOperand(ps[i].0, r, repl), ps[i].1)
  {
    seq(|ps|, i requires 0 <= i < |ps| => (ReplaceOperand(ps[i].0, r, repl), ps[i].1))
  }

  // Every use of r in the instruction becomes a use of `repl`.
  function ReplaceInstr(i: Instr, r: Reg, repl: Operand): Instr
  {
    match i
    case Store(id, o, v) => Store(id, ReplaceOperand(o, r, repl), v)
    case Phi(id, v, ins) => Phi(id, v, ReplacePairs(ins, r, repl))
    case Compute(id, op, args) => Compute(id, op, ReplaceOperands(args, r, repl))
    case Effect(id, op, args) => Effect(id, op, ReplaceOperands(args, r, repl))
    case _ => i
  }

  function ReplaceTerm(x: Term, r: Reg, repl: Operand): Term
  {
    match x
    case CondBr(o, b, c) => CondBr(ReplaceOperand(o, r, repl), b, c)
    case Ret(Some(o)) => Ret(Some(ReplaceOperand(o, r, repl)))
    case _ => x
  }

  function ReplaceCode(s: seq<Instr>, r: Reg, repl: Operand): (res: seq<Instr>)
    ensures |res| == |s| && forall i :: 0 <= i < |s| ==> res[i] == ReplaceInstr(s[i], r, repl)
  {
    seq(|s|, i requires 0 <= i < |s| => ReplaceInstr(s[i], r, repl))
  }

  // The instructions whose identity is not in w.
  function Without(s: seq<Instr>, w: set<Reg>): seq<Instr>
  {
    if s == [] then []
    else
      var init := Without(s[..|s| - 1], w);
      if s[|s| - 1].id in w then init else init + [s[|s| - 1]]
  }

  lemma {:induction false} WithoutNone(s: seq<Instr>)
    ensures Without(s, {}) == s
  {
    if s != [] {
      WithoutNone(s[..|s| - 1]);
    }
  }

  lemma {:induction false} WithoutTwice(s: seq<Instr>, w: set<Reg>, r: Reg)
    ensures Without(Without(s, w), {r}) == Without(s, w + {r})
  {
    if s != [] {
      var init := s[..|s| - 1];
      WithoutTwice(init, w, r);
      if s[|s| - 1].id !in w {
        assert Without(s, w)[..|Without(s, w)| - 1] == Without(init, w);
      }
    }
  }

  lemma {:induction false} WithoutReplace(s: seq<Instr>, w: set<Reg>, r: Reg, repl: Operand)
    ensures Without(ReplaceCode(s, r, repl), w) == ReplaceCode(Without(s, w), r, repl)
  {
    if s != [] {
      var init := s[..|s| - 1];
      WithoutReplace(init, w, r, repl);
      assert ReplaceCode(s, r, repl)[..|s| - 1] == ReplaceCode(init, r, repl);
    }
  }

  // Deletion depends only on the identities.
  lemma {:induction false} WithoutSame(s: seq<Instr>, w: set<Reg>, w': set<Reg>)
    requires forall k :: 0 <= k < |s| ==> (s[k].id in w <==> s[k].id in w')
    ensures Without(s, w) == Without(s, w')
  {
    if s != [] {
      WithoutSame(s[..|s| - 1], w, w');
    }
  }

  // Adds the incoming pair of one predecessor to every phi whose slot has a value there.
  function Feed(s: seq<Instr>, top: Slot -> Option<Operand>, p: Block): (res: seq<Instr>)
    ensures |res| == |s| && forall i :: 0 <= i < |s| ==> res[i] == FeedInstr(s[i], top, p)
  {
    seq(|s|, i requires 0 <= i < |s| => FeedInstr(s[i], top, p))
  }

  function FeedInstr(i: Instr, top: Slot -> Option<Operand>, p: Block): Instr
  {
    if i.Phi? && top(i.slot).Some? then i.(ins := i.ins + [(top(i.slot).value, p)]) else i
  }

  lemma {:induction false} WithoutFeed(s: seq<Instr>, w: set<Reg>, top: Slot -> Option<Operand>, p: Block)
    ensures Without(Feed(s, top, p), w) == Feed(Without(s, w), top, p)
  {
    if s != [] {
      var init := s[..|s| - 1];
      WithoutFeed(init, w, top, p);
      assert Feed(s, top, p)[..|s| - 1] == Feed(init, top, p);
    }
  }

  // ---- The code in terms of what has been visited ----

  ghost predicate IsLoad(f: Fn, at: map<Reg, Place>, r: Reg)
  {
    Located(f, at, r) && f.code[at[r].b][at[r].k].Load?
  }

  // What slot v holds at the end of p.
  ghost function Content(f: Fn, t: Tree, at: map<Reg, Place>, p: Block, v: Slot): Option<Operand>
    requires Wf(f, t, at)
  {
    if p in t.up then ValOut(f, t, at, p, v) else None
  }

  // The incoming pairs of a phi of c for v, after the edges in `fed` have been handled in that order.
  ghost function Pairs(f: Fn, t: Tree, at: map<Reg, Place>, c: Block, v: Slot, fed: seq<(Block, Block)>): seq<(Operand,
      Block)>
    requires Wf(f, t, at)
  {
    if fed == [] then []
    else
      var init := Pairs(f, t, at, c, v, fed[..|fed| - 1]);
      var e := fed[|fed| - 1];
      if e.1 == c && Content(f, t, at, e.0, v).Some? then init + [(Content(f, t, at, e.0, v).value, e.0)] else init
  }

  // An operand after the loads in `subst` have been replaced everywhere.
  ghost function SubIn(f: Fn, t: Tree, at: map<Reg, Place>, subst: set<Reg>, o: Operand): Operand
    requires Wf(f, t, at)
  {
    if o.Result? && o.id in subst then Sub(f, t, at, o) else o
  }

  ghost function SubAllIn(f: Fn, t: Tree, at: map<Reg, Place>, subst: set<Reg>, os: seq<Operand>): (r: seq<Operand>)
    requires Wf(f, t, at)
    ensures |r| == |os| && forall i :: 0 <= i < |os| ==> r[i] == SubIn(f, t, at, subst, os[i])
  {
    seq(|os|, i requires 0 <= i < |os| => SubIn(f, t, at, subst, os[i]))
  }

  ghost function RenderInstr(f: Fn, t: Tree, at: map<Reg, Place>, subst: set<Reg>, fed: seq<(Block, Block)>, c: Block,
      i: Instr): Instr
    requires Wf(f, t, at)
  {
    match i
    case Store(id, o, v) => Store(id, SubIn(f, t, at, subst, o), v)
    case Phi(id, v, _) => Phi(id, v, Pairs(f, t, at, c, v, fed))
    case Compute(id, op, args) => Compute(id, op, SubAllIn(f, t, at, subst, args))
    case Effect(id, op, args) => Effect(id, op, SubAllIn(f, t, at, subst, args))
    case _ => i
  }

  ghost function RenderTerm(f: Fn, t: Tree, at: map<Reg, Place>, subst: set<Reg>, x: Term): Term
    requires Wf(f, t, at)
  {
    match x
    case CondBr(o, b, c) => CondBr(SubIn(f, t, at, subst, o), b, c)
    case Ret(Some(o)) => Ret(Some(SubIn(f, t, at, subst, o)))
    case _ => x
  }

  ghost function Render(f: Fn, t: Tree, at: map<Reg, Place>, subst: set<Reg>, fed: seq<(Block, Block)>,
      c: Block): (r: seq<Instr>)
    requires Wf(f, t, at) && c in f.code
    ensures |r| == |f.code[c]|
    ensures forall k :: 0 <= k < |r| ==>
      r[k] == RenderInstr(f, t, at, subst, fed, c, f.code[c][k]) && r[k].id == f.code[c][k].id
  {
    seq(|f.code[c]|, k requires 0 <= k < |f.code[c]| => RenderInstr(f, t, at, subst, fed, c, f.code[c][k]))
  }

  // The identities of the slot accesses of c.
  function Accesses(s: seq<Instr>): set<Reg>
  {
    set k | 0 <= k < |s| && (s[k].Load? || s[k].Store?) :: s[k].id
  }

  ghost predicate BlockShape(f: Fn, t: Tree, at: map<Reg, Place>, subst: set<Reg>, fed: seq<(Block, Block)>,
      done: set<Block>, code: map<Block, seq<Instr>>, c: Block)
    requires Wf(f, t, at) && c in f.code
  {
    c in code && code[c] == Without(Render(f, t, at, subst, fed, c), if c in done then Accesses(f.code[c]) else {})
  }

  ghost predicate TermShape(f: Fn, t: Tree, at: map<Reg, Place>, subst: set<Reg>, term: map<Block, Term>, c: Block)
    requires Wf(f, t, at) && c in f.code
  {
    c in term && c in f.term && term[c] == RenderTerm(f, t, at, subst, f.term[c])
  }

  ghost predicate CodeShape(f: Fn, t: Tree, at: map<Reg, Place>, subst: set<Reg>, fed: seq<(Block, Block)>,
      done: set<Block>, code: map<Block, seq<Instr>>)
    requires Wf(f, t, at)
  {
    code.Keys == f.code.Keys
    && forall c {:trigger BlockShape(f, t, at, subst, fed, done, code, c)} :: c in f.code ==>
      BlockShape(f, t, at, subst, fed, done, code, c)
  }

  ghost predicate TermsShape(f: Fn, t: Tree, at: map<Reg, Place>, subst: set<Reg>, term: map<Block, Term>)
    requires Wf(f, t, at)
  {
    term.Keys == f.code.Keys
    && forall c {:trigger TermShape(f, t, at, subst, term, c)} :: c in f.code ==> TermShape(f, t, at, subst, term, c)
  }

  // The state of the code: loads in `subst` replaced, edges in `fed` handled, accesses of the
  // blocks in `done` deleted.
  ghost predicate Shape(f: Fn, t: Tree, at: map<Reg, Place>, subst: set<Reg>, fed: seq<(Block, Block)>,
      done: set<Block>, code: map<Block, seq<Instr>>, term: map<Block, Term>)
    requires Wf(f, t, at)
  {
    CodeShape(f, t, at, subst, fed, done, code) && TermsShape(f, t, at, subst, term)
  }

  // ---- Replacing one more load ----

  // No slot's value, and so no replacement, is itself a load.
  lemma ContentNotLoad(f: Fn, t: Tree, at: map<Reg, Place>, p: Block, v: Slot, r: Reg)
    requires Wf(f, t, at) && AllDefined(f, t, at) && IsLoad(f, at, r)
    ensures Content(f, t, at, p, v) != Some(Result(r))
  {
    if p in t.up {
      ValAvailable(f, t, at, p, |f.code[p]|, v);
    }
  }

  lemma SubNotLoad(f: Fn, t: Tree, at: map<Reg, Place>, o: Operand, r: Reg)
    requires Wf(f, t, at) && AllDefined(f, t, at) && IsLoad(f, at, r)
    requires o.Result? && IsLoad(f, at, o.id) && at[o.id].b in t.up
    ensures Sub(f, t, at, o) != Result(r)
  {
    var p := at[o.id];
    assert LoadDefined(f, t, at, p.b, p.k);
    ValAvailable(f, t, at, p.b, p.k, f.code[p.b][p.k].slot);
  }

  // The loads replaced so far are loads of reachable blocks.
  ghost predicate LoadsOnly(f: Fn, t: Tree, at: map<Reg, Place>, subst: set<Reg>)
    requires t.Valid()
  {
    forall r :: r in subst ==> IsLoad(f, at, r) && at[r].b in t.up
  }

  lemma OperandReplaced(f: Fn, t: Tree, at: map<Reg, Place>, subst: set<Reg>, o: Operand, r: Reg)
    requires Wf(f, t, at) && AllDefined(f, t, at) && LoadsOnly(f, t, at, subst + {r})
    ensures ReplaceOperand(SubIn(f, t, at, subst, o), r, Sub(f, t, at, Result(r))) == SubIn(f, t, at, subst + {r}, o)
  {
    if o.Result? && o.id in subst {
      assert o.id in subst + {r} && r in subst + {r};
      SubNotLoad(f, t, at, o, r);
    }
  }

  lemma OperandsReplaced(f: Fn, t: Tree, at: map<Reg, Place>, subst: set<Reg>, os: seq<Operand>, r: Reg)
    requires Wf(f, t, at) && AllDefined(f, t, at) && LoadsOnly(f, t, at, subst + {r})
    ensures ReplaceOperands(SubAllIn(f, t, at, subst, os), r, Sub(f, t, at, Result(r))) ==
      SubAllIn(f, t, at, subst + {r}, os)
  {
    forall i | 0 <= i < |os|
      ensures ReplaceOperand(SubIn(f, t, at, subst, os[i]), r, Sub(f, t, at, Result(r))) ==
        SubIn(f, t, at, subst + {r}, os[i])
    {
      OperandReplaced(f, t, at, subst, os[i], r);
    }
  }

  lemma {:induction false} PairsReplaced(f: Fn, t: Tree, at: map<Reg, Place>, c: Block, v: Slot,
      fed: seq<(Block, Block)>, r: Reg, repl: Operand)
    requires Wf(f, t, at) && AllDefined(f, t, at) && IsLoad(f, at, r)
    ensures ReplacePairs(Pairs(f, t, at, c, v, fed), r, repl) == Pairs(f, t, at, c, v, fed)
  {
    if fed != [] {
      PairsReplaced(f, t, at, c, v, fed[..|fed| - 1], r, repl);
      ContentNotLoad(f, t, at, fed[|fed| - 1].0, v, r);
    }
  }

  lemma InstrReplaced(f: Fn, t: Tree, at: map<Reg, Place>, subst: set<Reg>, fed: seq<(Block, Block)>, c: Block,
      i: Instr, r: Reg)
    requires Wf(f, t, at) && AllDefined(f, t, at) && LoadsOnly(f, t, at, subst + {r})
    ensures ReplaceInstr(RenderInstr(f, t, at, subst, fed, c, i), r, Sub(f, t, at, Result(r))) ==
      RenderInstr(f, t, at, subst + {r}, fed, c, i)
  {
    assert r in subst + {r};
    match i
    case Store(_, o, _) => OperandReplaced(f, t, at, subst, o, r);
    case Phi(_, v, _) => PairsReplaced(f, t, at, c, v, fed, r, Sub(f, t, at, Result(r)));
    case Compute(_, _, args) => OperandsReplaced(f, t, at, subst, args, r);
    case Effect(_, _, args) => OperandsReplaced(f, t, at, subst, args, r);
    case _ =>
  }

  lemma TermReplaced(f: Fn, t: Tree, at: map<Reg, Place>, subst: set<Reg>, x: Term, r: Reg)
    requires Wf(f, t, at) && AllDefined(f, t, at) && LoadsOnly(f, t, at, subst + {r})
    ensures ReplaceTerm(RenderTerm(f, t, at, subst, x), r, Sub(f, t, at, Result(r))) ==
      RenderTerm(f, t, at, subst + {r}, x)
  {
    match x
    case CondBr(o, _, _) => OperandReplaced(f, t, at, subst, o, r);
    case Ret(Some(o)) => OperandReplaced(f, t, at, subst, o, r);
    case _ =>
  }

  lemma BlockReplaced(f: Fn, t: Tree, at: map<Reg, Place>, subst: set<Reg>, fed: seq<(Block, Block)>, c: Block,
      w: set<Reg>, r: Reg)
    requires Wf(f, t, at) && AllDefined(f, t, at) && LoadsOnly(f, t, at, subst + {r}) && c in f.code
    ensures ReplaceCode(Without(Render(f, t, at, subst, fed, c), w), r, Sub(f, t, at, Result(r)))
         == Without(Render(f, t, at, subst + {r}, fed, c), w)
  {
    var repl := Sub(f, t, at, Result(r));
    var before, after := Render(f, t, at, subst, fed, c), Render(f, t, at, subst + {r}, fed, c);
    forall k | 0 <= k < |f.code[c]| ensures ReplaceInstr(before[k], r, repl) == after[k] {
      InstrReplaced(f, t, at, subst, fed, c, f.code[c][k], r);
    }
    assert ReplaceCode(before, r, repl) == after;
    WithoutReplace(before, w, r, repl);
  }

  lemma BlockShapeReplaced(f: Fn, t: Tree, at: map<Reg, Place>, subst: set<Reg>, fed: seq<(Block, Block)>,
      done: set<Block>, code: map<Block, seq<Instr>>, r: Reg,
                           code': map<Block, seq<Instr>>, c: Block)
    requires Wf(f, t, at) && AllDefined(f, t, at) && LoadsOnly(f, t, at, subst + {r})
    requires c in f.code && BlockShape(f, t, at, subst, fed, done, code, c)
    requires c in code' && code'[c] == ReplaceCode(code[c], r, Sub(f, t, at, Result(r)))
    ensures BlockShape(f, t, at, subst + {r}, fed, done, code', c)
  {
    BlockReplaced(f, t, at, subst, fed, c, if c in done then Accesses(f.code[c]) else {}, r);
  }

  // Replacing a load everywhere moves the code from one such state to the next.
  lemma CodeReplaced(f: Fn, t: Tree, at: map<Reg, Place>, subst: set<Reg>, fed: seq<(Block, Block)>, done: set<Block>,
      code: map<Block, seq<Instr>>, r: Reg, code': map<Block, seq<Instr>>)
    requires Wf(f, t, at) && AllDefined(f, t, at) && LoadsOnly(f, t, at, subst + {r})
    requires CodeShape(f, t, at, subst, fed, done, code)
    requires code'.Keys == code.Keys
    requires forall c {:trigger code'[c]} :: c in code ==> code'[c] == ReplaceCode(code[c], r, Sub(f, t, at, Result(r)))
    ensures CodeShape(f, t, at, subst + {r}, fed, done, code')
  {
    var after := subst + {r};
    forall c | c in f.code ensures BlockShape(f, t, at, after, fed, done, code', c) {
      assert BlockShape(f, t, at, subst, fed, done, code, c);
      BlockShapeReplaced(f, t, at, subst, fed, done, code, r, code', c);
    }
  }

  lemma TermsReplaced(f: Fn, t: Tree, at: map<Reg, Place>, subst: set<Reg>, term: map<Block, Term>, r: Reg,
      term': map<Block, Term>)
    requires Wf(f, t, at) && AllDefined(f, t, at) && LoadsOnly(f, t, at, subst + {r})
    requires TermsShape(f, t, at, subst, term)
    requires term'.Keys == term.Keys
    requires forall c {:trigger term'[c]} :: c in term ==> term'[c] == ReplaceTerm(term[c], r, Sub(f, t, at, Result(r)))
    ensures TermsShape(f, t, at, subst + {r}, term')
  {
    var after := subst + {r};
    forall c | c in f.code ensures TermShape(f, t, at, after, term', c) {
      assert TermShape(f, t, at, subst, term, c);
      TermReplaced(f, t, at, subst, f.term[c], r);
    }
  }

  // ---- Handling one more edge ----

  lemma BlockFed(f: Fn, t: Tree, at: map<Reg, Place>, subst: set<Reg>, fed: seq<(Block, Block)>, w: set<Reg>, p: Block,
      b: Block, top: Slot -> Option<Operand>)
    requires Wf(f, t, at) && b in f.code
    requires forall v :: HasPhi(f, b, v) ==> top(v) == Content(f, t, at, p, v)
    ensures Feed(Without(Render(f, t, at, subst, fed, b), w), top, p) ==
      Without(Render(f, t, at, subst, fed + [(p, b)], b), w)
  {
    var fed' := fed + [(p, b)];
    assert fed'[..|fed|] == fed;
    var before, after := Render(f, t, at, subst, fed, b), Render(f, t, at, subst, fed', b);
    forall k | 0 <= k < |f.code[b]| ensures FeedInstr(before[k], top, p) == after[k] {
      assert f.code[b][k].Phi? ==> HasPhi(f, b, f.code[b][k].slot);
    }
    assert Feed(before, top, p) == after;
    WithoutFeed(before, w, top, p);
  }

  lemma BlockNotFed(f: Fn, t: Tree, at: map<Reg, Place>, subst: set<Reg>, fed: seq<(Block, Block)>, p: Block, b: Block,
      c: Block)
    requires Wf(f, t, at) && c in f.code && c != b
    ensures Render(f, t, at, subst, fed, c) == Render(f, t, at, subst, fed + [(p, b)], c)
  {
    var fed' := fed + [(p, b)];
    assert fed'[..|fed|] == fed;
    forall k | 0 <= k < |f.code[c]|
      ensures RenderInstr(f, t, at, subst, fed, c, f.code[c][k]) == RenderInstr(f, t, at, subst, fed', c, f.code[c][k])
    {
    }
  }

  lemma BlockShapeFed(f: Fn, t: Tree, at: map<Reg, Place>, subst: set<Reg>, fed: seq<(Block, Block)>, done: set<Block>,
      code: map<Block, seq<Instr>>, p: Block, b: Block, top: Slot -> Option<Operand>,
                      code': map<Block, seq<Instr>>, c: Block)
    requires Wf(f, t, at) && c in f.code && BlockShape(f, t, at, subst, fed, done, code, c)
    requires forall v :: HasPhi(f, b, v) ==> top(v) == Content(f, t, at, p, v)
    requires b in code && code' == code[b := Feed(code[b], top, p)]
    ensures BlockShape(f, t, at, subst, fed + [(p, b)], done, code', c)
  {
    if c == b {
      BlockFed(f, t, at, subst, fed, if c in done then Accesses(f.code[c]) else {}, p, b, top);
    } else {
      BlockNotFed(f, t, at, subst, fed, p, b, c);
    }
  }

  lemma CodeFed(f: Fn, t: Tree, at: map<Reg, Place>, subst: set<Reg>, fed: seq<(Block, Block)>, done: set<Block>,
      code: map<Block, seq<Instr>>, p: Block, b: Block, top: Slot -> Option<Operand>,
                 code': map<Block, seq<Instr>>)
    requires Wf(f, t, at) && b in f.code && CodeShape(f, t, at, subst, fed, done, code)
    requires forall v :: HasPhi(f, b, v) ==> top(v) == Content(f, t, at, p, v)
    requires b in code && code' == code[b := Feed(code[b], top, p)]
    ensures CodeShape(f, t, at, subst, fed + [(p, b)], done, code')
  {
    var fed' := fed + [(p, b)];
    forall c | c in f.code ensures BlockShape(f, t, at, subst, fed', done, code', c) {
      assert BlockShape(f, t, at, subst, fed, done, code, c);
      BlockShapeFed(f, t, at, subst, fed, done, code, p, b, top, code', c);
    }
  }

  // ---- Deleting the accesses of one more block ----

  lemma CodeDeleted(f: Fn, t: Tree, at: map<Reg, Place>, subst: set<Reg>, fed: seq<(Block, Block)>, done: set<Block>,
      code: map<Block, seq<Instr>>, b: Block,
                     code': map<Block, seq<Instr>>)
    requires Wf(f, t, at) && b in f.code && b !in done && CodeShape(f, t, at, subst, fed, done, code)
    requires b in code && code' == code[b := Without(code[b], Accesses(f.code[b]))]
    ensures CodeShape(f, t, at, subst, fed, done + {b}, code')
  {
    var done' := done + {b};
    forall c | c in f.code ensures BlockShape(f, t, at, subst, fed, done', code', c) {
      assert BlockShape(f, t, at, subst, fed, done, code, c);
      if c == b {
        WithoutNone(Render(f, t, at, subst, fed, b));
      }
    }
  }

  // ---- The stacks ----

  function Get(stack: map<Slot, seq<Operand>>, v: Slot): seq<Operand>
  {
    if v in stack then stack[v] else []
  }

  function TopOf(s: seq<Operand>): Option<Operand>
  {
    if s == [] then None else Some(s[|s| - 1])
  }

  // What the first k instructions of b push on the stack of v.
  ghost function Pushed(f: Fn, t: Tree, at: map<Reg, Place>, b: Block, k: nat, v: Slot): seq<Operand>
    requires Wf(f, t, at) && b in t.up && k <= |f.code[b]|
    decreases k
  {
    if k == 0 then []
    else
      var init := Pushed(f, t, at, b, k - 1, v);
      if Defines(f.code[b][k - 1], v) then init + [Val(f, t, at, b, k, v).value] else init
  }

  ghost predicate SlotStack(f: Fn, t: Tree, at: map<Reg, Place>, base: map<Slot, seq<Operand>>,
      stack: map<Slot, seq<Operand>>, b: Block, k: nat, v: Slot)
    requires Wf(f, t, at) && b in t.up && k <= |f.code[b]|
  {
    Get(stack, v) == Get(base, v) + Pushed(f, t, at, b, k, v)
  }

  // The stacks after the definitions among the first k instructions of b.
  ghost predicate StackAt(f: Fn, t: Tree, at: map<Reg, Place>, base: map<Slot, seq<Operand>>,
      stack: map<Slot, seq<Operand>>, b: Block, k: nat)
    requires Wf(f, t, at) && b in t.up && k <= |f.code[b]|
  {
    forall v :: SlotStack(f, t, at, base, stack, b, k, v)
  }

  lemma {:induction false} PushedTop(f: Fn, t: Tree, at: map<Reg, Place>, b: Block, k: nat, v: Slot)
    requires Wf(f, t, at) && b in t.up && k <= |f.code[b]|
    ensures Val(f, t, at, b, k, v) == if Pushed(f, t, at, b, k, v) == [] then Val(f, t, at, b, 0, v)
      else TopOf(Pushed(f, t, at, b, k, v))
    decreases k
  {
    if k > 0 {
      PushedTop(f, t, at, b, k - 1, v);
    }
  }

  // ---- Popping ----

  ghost predicate SlotPopped(f: Fn, t: Tree, at: map<Reg, Place>, base: map<Slot, seq<Operand>>,
      stack: map<Slot, seq<Operand>>, b: Block, k: nat, v: Slot)
    requires Wf(f, t, at) && b in t.up && k <= |f.code[b]|
  {
    var all := Pushed(f, t, at, b, |f.code[b]|, v);
    && |Pushed(f, t, at, b, k, v)| <= |all|
    && Get(stack, v) == Get(base, v) + all[..|all| - |Pushed(f, t, at, b, k, v)|]
  }

  // The stacks after one pop for every definition among the first k instructions of b.
  ghost predicate PoppedAt(f: Fn, t: Tree, at: map<Reg, Place>, base: map<Slot, seq<Operand>>,
      stack: map<Slot, seq<Operand>>, b: Block, k: nat)
    requires Wf(f, t, at) && b in t.up && k <= |f.code[b]|
  {
    forall v :: SlotPopped(f, t, at, base, stack, b, k, v)
  }

  lemma {:induction false} PushedGrows(f: Fn, t: Tree, at: map<Reg, Place>, b: Block, k: nat, n: nat, v: Slot)
    requires Wf(f, t, at) && b in t.up && k <= n <= |f.code[b]|
    ensures |Pushed(f, t, at, b, k, v)| <= |Pushed(f, t, at, b, n, v)|
    decreases n
  {
    if k < n {
      PushedGrows(f, t, at, b, k, n - 1, v);
    }
  }

  lemma PopStart(f: Fn, t: Tree, at: map<Reg, Place>, base: map<Slot, seq<Operand>>, stack: map<Slot, seq<Operand>>,
      b: Block)
    requires Wf(f, t, at) && b in t.up && StackAt(f, t, at, base, stack, b, |f.code[b]|)
    ensures PoppedAt(f, t, at, base, stack, b, 0)
  {
    forall v ensures SlotPopped(f, t, at, base, stack, b, 0, v) {
      assert SlotStack(f, t, at, base, stack, b, |f.code[b]|, v);
    }
  }

  lemma PopTop(f: Fn, t: Tree, at: map<Reg, Place>, base: map<Slot, seq<Operand>>, stack: map<Slot, seq<Operand>>,
      b: Block, k: nat, v: Slot)
    requires Wf(f, t, at) && b in t.up && k < |f.code[b]| && SlotPopped(f, t, at, base, stack, b, k, v)
    ensures Defines(f.code[b][k], v) ==> Get(stack, v) != []
  {
    PushedGrows(f, t, at, b, k + 1, |f.code[b]|, v);
  }

  lemma PopSlot(f: Fn, t: Tree, at: map<Reg, Place>, base: map<Slot, seq<Operand>>, stack: map<Slot, seq<Operand>>,
      stack': map<Slot, seq<Operand>>, b: Block, k: nat, v: Slot)
    requires Wf(f, t, at) && b in t.up && k < |f.code[b]| && SlotPopped(f, t, at, base, stack, b, k, v)
    requires Defines(f.code[b][k], v) ==> Get(stack, v) != [] && Get(stack', v) == Get(stack, v)[..|Get(stack, v)| - 1]
    requires !Defines(f.code[b][k], v) ==> Get(stack', v) == Get(stack, v)
    ensures SlotPopped(f, t, at, base, stack', b, k + 1, v)
  {
    PushedGrows(f, t, at, b, k + 1, |f.code[b]|, v);
  }

  lemma PopStep(f: Fn, t: Tree, at: map<Reg, Place>, base: map<Slot, seq<Operand>>, stack: map<Slot, seq<Operand>>,
      b: Block, k: nat)
    requires Wf(f, t, at) && b in t.up && k < |f.code[b]| && PoppedAt(f, t, at, base, stack, b, k)
    ensures var i := f.code[b][k];
      if i.Phi? || i.Store? then
        i.slot in stack && |stack[i.slot]| > 0
        && PoppedAt(f, t, at, base, stack[i.slot := stack[i.slot][..|stack[i.slot]| - 1]], b, k + 1)
      else PoppedAt(f, t, at, base, stack, b, k + 1)
  {
    var i := f.code[b][k];
    var stack' := stack;
    if i.Phi? || i.Store? {
      assert SlotPopped(f, t, at, base, stack, b, k, i.slot);
      PopTop(f, t, at, base, stack, b, k, i.slot);
      stack' := stack[i.slot := stack[i.slot][..|stack[i.slot]| - 1]];
    }
    var k1 := k + 1;
    forall v ensures SlotPopped(f, t, at, base, stack', b, k1, v) {
      assert SlotPopped(f, t, at, base, stack, b, k, v);
      PopSlot(f, t, at, base, stack, stack', b, k, v);
    }
  }

  lemma PopEnd(f: Fn, t: Tree, at: map<Reg, Place>, base: map<Slot, seq<Operand>>, stack: map<Slot, seq<Operand>>,
      b: Block, v: Slot)
    requires Wf(f, t, at) && b in t.up && PoppedAt(f, t, at, base, stack, b, |f.code[b]|)
    ensures Get(stack, v) == Get(base, v)
  {
    assert SlotPopped(f, t, at, base, stack, b, |f.code[b]|, v);
  }
}
