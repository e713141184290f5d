// What the marking phase computes: everything the marked instructions depend on.
module Marking {
  import opened DeadCode

  // The instruction objects. Their operands do not change during the pass.
  type Objects = map<Id, Instr>

  function Operands(objects: Objects, v: Value): seq<Value>
  {
    match v
    case Inst(id) => if id in objects then objects[id].ops else []
    case Global(_, Some(n)) => [Const(n)]
    case _ => []
  }

  // b is an operand of a that is neither a block, a function nor an argument.
  predicate Dep(objects: Objects, a: Value, b: Value)
  {
    b in Operands(objects, a) && !b.Label? && !b.Func? && !b.Arg?
  }

  ghost predicate DepAt(objects: Objects, p: seq<Value>, i: nat)
    requires i + 1 < |p|
  {
    Dep(objects, p[i], p[i + 1])
  }

  ghost predicate DepPath(objects: Objects, p: seq<Value>, a: Value, b: Value)
  {
    |p| > 0 && p[0] == a && p[|p| - 1] == b && forall i :: 0 <= i < |p| - 1 ==> DepAt(objects, p, i)
  }

  // a depends on b, directly or not, or is b.
  ghost predicate Needs(objects: Objects, a: Value, b: Value)
  {
    exists p :: DepPath(objects, p, a, b)
  }

  lemma NeedsSelf(objects: Objects, a: Value)
    ensures Needs(objects, a, a)
  {
    assert DepPath(objects, [a], a, a);
  }

  lemma NeedsStep(objects: Objects, a: Value, b: Value, c: Value)
    requires Needs(objects, a, b) && Dep(objects, b, c)
    ensures Needs(objects, a, c)
  {
    var p :| DepPath(objects, p, a, b);
    var q := p + [c];
    forall i | 0 <= i < |q| - 1 ensures DepAt(objects, q, i) {
      assert i < |p| - 1 ==> DepAt(objects, p, i);
    }
    assert DepPath(objects, q, a, c);
  }

  // Whatever a live value depends on is live or waiting to be.
  ghost predicate ClosedUpTo(objects: Objects, live: set<Value>, wait: seq<Value>)
  {
    forall a, b {:trigger Dep(objects, a, b)} :: a in live && Dep(objects, a, b) ==> b in live || b in wait
  }

  lemma ClosedNeeds(objects: Objects, live: set<Value>, a: Value, b: Value)
    requires ClosedUpTo(objects, live, []) && a in live && Needs(objects, a, b)
    ensures b in live
  {
    var p :| DepPath(objects, p, a, b);
    var i := 0;
    while i < |p| - 1
      invariant 0 <= i < |p| && p[i] in live
    {
      assert DepAt(objects, p, i);
      i := i + 1;
    }
  }

  // Every instruction in own has its instruction operands in own and its arguments in args.
  ghost predicate Owns(objects: Objects, own: set<Id>, args: set<nat>)
  {
    own <= objects.Keys && forall id {:trigger OperandsOwned(objects, own, args, id)} :: id in own ==>
      OperandsOwned(objects, own, args, id)
  }

  ghost predicate OperandsOwned(objects: Objects, own: set<Id>, args: set<nat>, id: Id)
  {
    forall o {:trigger ValueOwned(own, args, o)} :: o in Operands(objects, Inst(id)) ==> ValueOwned(own, args, o)
  }

  predicate ValueOwned(own: set<Id>, args: set<nat>, o: Value)
  {
    (o.Inst? ==> o.id in own) && (o.Arg? ==> o.i in args)
  }

  // ---- The worklist ----

  // An operand that findAllDep queues: only a live instruction is recognised as live.
  predicate Queued(live: set<Value>, args: set<nat>, o: Value)
  {
    !(o.Inst? && o in live) && !o.Label? && !o.Func? && !(o.Arg? && o.i in args)
  }

  function Filter(live: set<Value>, args: set<nat>, ops: seq<Value>): (r: seq<Value>)
    ensures forall o :: o in r <==> o in ops && Queued(live, args, o)
  {
    if ops == [] then []
    else
      var last := ops[|ops| - 1];
      Filter(live, args, ops[..|ops| - 1]) + (if Queued(live, args, last) then [last] else [])
  }

  // How many entries of the worklist are instructions already live.
  ghost function Again(live: set<Value>, wait: seq<Value>): nat
  {
    if wait == [] then 0
    else (if wait[|wait| - 1].Inst? && wait[|wait| - 1] in live then 1 else 0) + Again(live, wait[..|wait| - 1])
  }

  // The entries that are no instructions, a global variable counting for its initial value too.
  ghost function Others(wait: seq<Value>): nat
  {
    if wait == [] then 0
    else (match wait[|wait| - 1] case Inst(_) => 0 case Global(_, _) => 2 case _ => 1) + Others(wait[..|wait| - 1])
  }

  lemma {:induction false} AgainAppend(live: set<Value>, a: seq<Value>, b: seq<Value>)
    ensures Again(live, a + b) == Again(live, a) + Again(live, b)
  {
    if b == [] {
      assert a + b == a;
    } else {
      assert (a + b)[..|a + b| - 1] == a + b[..|b| - 1];
      AgainAppend(live, a, b[..|b| - 1]);
    }
  }

  lemma {:induction false} AgainNone(live: set<Value>, args: set<nat>, ops: seq<Value>)
    ensures Again(live, Filter(live, args, ops)) == 0
  {
    if ops != [] {
      var init, last := ops[..|ops| - 1], ops[|ops| - 1];
      AgainNone(live, args, init);
      AgainAppend(live, Filter(live, args, init), if Queued(live, args, last) then [last] else []);
    }
  }

  lemma {:induction false} AgainSame(live: set<Value>, v: Value, wait: seq<Value>)
    requires !v.Inst? || v in live
    ensures Again(live + {v}, wait) == Again(live, wait)
  {
    if wait != [] {
      AgainSame(live, v, wait[..|wait| - 1]);
    }
  }

  lemma {:induction false} OthersAppend(a: seq<Value>, b: seq<Value>)
    ensures Others(a + b) == Others(a) + Others(b)
  {
    if b == [] {
      assert a + b == a;
    } else {
      assert (a + b)[..|a + b| - 1] == a + b[..|b| - 1];
      OthersAppend(a, b[..|b| - 1]);
    }
  }

  ghost function Unmarked(own: set<Id>, live: set<Value>): set<Id>
  {
    set id | id in own && Inst(id) !in live
  }

  // The worklist after taking v from its end and queueing what v needs.
  ghost function Next(objects: Objects, live: set<Value>, args: set<nat>, wait: seq<Value>): seq<Value>
    requires wait != []
  {
    var v := wait[|wait| - 1];
    wait[..|wait| - 1] + Filter(live + {v}, args, Operands(objects, v))
  }

  // Each round marks a new instruction, or takes away an entry for a marked one without queueing
  // another, or takes away an entry that is no instruction: so the worklist runs empty.
  lemma RoundProgress(objects: Objects, own: set<Id>, live: set<Value>, args: set<nat>, wait: seq<Value>)
    requires wait != [] && ValueOwned(own, args, wait[|wait| - 1])
    ensures
      var v := wait[|wait| - 1];
      var live', wait' := live + {v}, Next(objects, live, args, wait);
      || Unmarked(own, live') < Unmarked(own, live)
      || (Unmarked(own, live') == Unmarked(own, live) && Again(live', wait') < Again(live, wait))
      || (Unmarked(own, live') == Unmarked(own, live) && Again(live', wait') == Again(live, wait) &&
        Others(wait') < Others(wait))
  {
    var init, v := wait[..|wait| - 1], wait[|wait| - 1];
    var live', more := live + {v}, Filter(live + {v}, args, Operands(objects, v));
    AgainAppend(live', init, more);
    AgainNone(live', args, Operands(objects, v));
    OthersAppend(init, more);
    if v.Inst? && v !in live {
      assert v.id in Unmarked(own, live) && v.id !in Unmarked(own, live');
    } else {
      assert Unmarked(own, live') == Unmarked(own, live);
      AgainSame(live, v, init);
      if !v.Inst? {
        assert |more| <= 1;
      }
    }
  }

  // What holds between two rounds of findAllDep for the given root.
  ghost predicate Marks(objects: Objects, own: set<Id>, args: set<nat>, root: Value, before: set<Value>,
      live: set<Value>, wait: seq<Value>)
  {
    && ClosedUpTo(objects, live, wait)
    && before <= live && root in live
    && (forall v {:trigger v in live} :: v in live ==> v in before || Needs(objects, root, v))
    && (forall v {:trigger v in wait} :: v in wait ==> Needs(objects, root, v) && ValueOwned(own, args, v) && !v.Arg?)
  }

  lemma MarksStart(objects: Objects, own: set<Id>, args: set<nat>, id: Id, live: set<Value>)
    requires ClosedUpTo(objects, live, []) && Owns(objects, own, args) && id in own
    ensures Marks(objects, own, args, Inst(id), live, live + {Inst(id)}, Filter({}, args, objects[id].ops))
  {
    var root := Inst(id);
    NeedsSelf(objects, root);
    assert OperandsOwned(objects, own, args, id);
    forall v | v in Filter({}, args, objects[id].ops) ensures Needs(objects, root, v) && ValueOwned(own, args, v) &&
      !v.Arg? {
      assert ValueOwned(own, args, v);
      assert Dep(objects, root, v);
      NeedsStep(objects, root, root, v);
    }
  }

  lemma MarksNext(objects: Objects, own: set<Id>, args: set<nat>, root: Value, before: set<Value>, live: set<Value>,
      wait: seq<Value>)
    requires Owns(objects, own, args) && wait != [] && Marks(objects, own, args, root, before, live, wait)
    ensures Marks(objects, own, args, root, before, live + {wait[|wait| - 1]}, Next(objects, live, args, wait))
  {
    var init, v := wait[..|wait| - 1], wait[|wait| - 1];
    var live', wait' := live + {v}, Next(objects, live, args, wait);
    assert v in wait;
    forall o | o in Operands(objects, v) ensures ValueOwned(own, args, o) {
      if v.Inst? {
        assert OperandsOwned(objects, own, args, v.id);
      }
    }
    forall a, b | a in live' && Dep(objects, a, b) ensures b in live' || b in wait' {
      if a == v {
        assert Queued(live', args, b) || b in live';
      } else if b in wait && b != v {
        assert b in init;
      }
    }
    forall u | u in wait' ensures Needs(objects, root, u) && ValueOwned(own, args, u) && !u.Arg? {
      if u in init {
        assert u in wait;
      } else {
        assert Dep(objects, v, u);
        NeedsStep(objects, root, v, u);
      }
    }
  }

  // When the worklist is empty, exactly what the root needs has been added.
  lemma MarksDone(objects: Objects, own: set<Id>, args: set<nat>, root: Value, before: set<Value>, live: set<Value>,
      v: Value)
    requires Marks(objects, own, args, root, before, live, [])
    ensures v in live <==> v in before || Needs(objects, root, v)
  {
    if Needs(objects, root, v) {
      ClosedNeeds(objects, live, root, v);
    }
  }

  // live' has gained exactly what id needs.
  ghost predicate AddedNeeds(objects: Objects, live: set<Value>, id: Id, live': set<Value>)
  {
    forall v {:trigger Needs(objects, Inst(id), v)} :: v in live' <==> v in live || Needs(objects, Inst(id), v)
  }
}
