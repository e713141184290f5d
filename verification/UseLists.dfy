// Values, their operands, and the use lists that every pass relies on.
module UseLists {

  // Operand argNo of user holds the value this is recorded for.
  datatype Use = Use(user: Value, argNo: nat)

  function Without(uses: seq<Use>, u: Value): seq<Use>
  {
    if uses == [] then []
    else
      var init, last := uses[..|uses| - 1], uses[|uses| - 1];
      Without(init, u) + (if last.user == u then [] else [last])
  }

  lemma {:induction false} WithoutCount(uses: seq<Use>, u: Value, x: Use)
    ensures multiset(Without(uses, u))[x] == if x.user == u then 0 else multiset(uses)[x]
  {
    if uses != [] {
      var init, last := uses[..|uses| - 1], uses[|uses| - 1];
      assert uses == init + [last];
      WithoutCount(init, u, x);
    }
  }

  // r is what is left of s: at lists, in order, exactly the positions that stay.
  ghost predicate LeftOf<T>(s: seq<T>, stays: set<int>, at: seq<nat>, r: seq<T>)
  {
    && |at| == |r|
    && (forall k {:trigger r[k]} :: 0 <= k < |r| ==> at[k] < |s| && r[k] == s[at[k]])
    && (forall j, k {:trigger at[j], at[k]} :: 0 <= j < k < |at| ==> at[j] < at[k])
    && (forall i {:trigger i in at} :: i in at <==> i in stays)
  }

  lemma LeftOfNext<T>(s: seq<T>, stays: set<int>, at: seq<nat>, r: seq<T>, x: T, kept: bool)
    requires LeftOf(s, stays, at, r) && forall i :: i in stays ==> i < |s|
    ensures kept ==> LeftOf(s + [x], stays + {|s|}, at + [|s|], r + [x])
    ensures !kept ==> LeftOf(s + [x], stays, at, r)
  {
    forall k | 0 <= k < |at| ensures at[k] < |s| {
      assert at[k] in at;
    }
  }

  ghost function ByOthers(uses: seq<Use>, u: Value): set<int>
  {
    set i | 0 <= i < |uses| && uses[i].user != u
  }

  // The uses by others stay, in their order.
  lemma {:induction false} WithoutInOrder(uses: seq<Use>, u: Value) returns (at: seq<nat>)
    ensures LeftOf(uses, ByOthers(uses, u), at, Without(uses, u))
  {
    if uses == [] {
      at := [];
    } else {
      var init, last := uses[..|uses| - 1], uses[|uses| - 1];
      assert uses == init + [last];
      at := WithoutInOrder(init, u);
      LeftOfNext(init, ByOthers(init, u), at, Without(init, u), last, last.user != u);
      assert ByOthers(uses, u) == ByOthers(init, u) + if last.user != u then {|init|} else {};
      if last.user != u {
        at := at + [|init|];
      }
    }
  }

  lemma {:induction false} WithoutTwice(uses: seq<Use>, u: Value)
    ensures Without(Without(uses, u), u) == Without(uses, u)
  {
    if uses != [] {
      var init, last := uses[..|uses| - 1], uses[|uses| - 1];
      WithoutTwice(init, u);
      if last.user != u {
        var kept := Without(init, u) + [last];
        assert kept[..|kept| - 1] == Without(init, u);
      } else {
        assert Without(uses, u) == Without(init, u);
      }
    }
  }

  // Operand i of u is v.
  ghost predicate SlotIs(u: Value, i: nat, v: Value)
    reads u
  {
    i < |u.operands| && u.operands[i] == v
  }

  // v records the operand i of u exactly if u is live and the operand is v, and then once.
  ghost predicate RecordedOnce(v: Value, live: set<Value>, u: Value, i: nat)
    reads v, u
  {
    multiset(v.uses)[Use(u, i)] == if u in live && SlotIs(u, i, v) then 1 else 0
  }

  // live: users that have not been deleted. retired: values that have been replaced.
  ghost predicate Exact(all: set<Value>, live: set<Value>, retired: set<Value>)
    reads all
  {
    && live <= all && retired <= all
    && (forall v, u, i: nat {:trigger RecordedOnce(v, live, u, i)} :: v in all && v !in retired && u in all ==>
      RecordedOnce(v, live, u, i))
    && (forall v, x {:trigger x in v.uses} :: v in all && x in v.uses ==> x.user in all)
  }

  // The slots of u are as in before, except that those listed in done hold v.
  ghost predicate Moved(before: map<Value, seq<Value?>>, done: seq<Use>, v: Value, u: Value, i: nat)
    reads u
  {
    && u in before && |u.operands| == |before[u]|
    && (i < |u.operands| ==> u.operands[i] == if Use(u, i) in done then v else before[u][i])
  }

  ghost predicate AllMoved(before: map<Value, seq<Value?>>, done: seq<Use>, v: Value, all: set<Value>)
    reads all
  {
    forall u, i: nat {:trigger Moved(before, done, v, u, i)} :: u in all ==> Moved(before, done, v, u, i)
  }

  // Operand i of u has changed from one value to the other if u is live and held the one, and not
  // at all otherwise.
  ghost predicate Replaced(before: map<Value, seq<Value?>>, from: Value, to: Value, live: set<Value>, u: Value, i: nat)
    reads u
  {
    && u in before && |u.operands| == |before[u]|
    && (i < |u.operands| ==> u.operands[i] == if u in live && before[u][i] == from then to else before[u][i])
  }

  ghost function Operands(all: set<Value>): map<Value, seq<Value?>>
    reads all
  {
    map u | u in all :: u.operands
  }

  ghost function Lists(all: set<Value>): map<Value, seq<Use>>
    reads all
  {
    map v | v in all :: v.uses
  }

  // The same as RecordedOnce, of remembered operands and use lists.
  ghost predicate WasRecordedOnce(before: map<Value, seq<Value?>>, lists: map<Value, seq<Use>>, v: Value,
      live: set<Value>, u: Value, i: nat)
  {
    && v in lists && u in before
    && multiset(lists[v])[Use(u, i)] == if u in live && i < |before[u]| && before[u][i] == v then 1 else 0
  }

  ghost predicate WasExact(before: map<Value, seq<Value?>>, lists: map<Value, seq<Use>>, all: set<Value>,
      live: set<Value>, retired: set<Value>)
  {
    && live <= all && retired <= all && before.Keys == all && lists.Keys == all
    && (forall v, u, i: nat {:trigger WasRecordedOnce(before, lists, v, live, u, i)} ::
      v in all && v !in retired && u in all ==> WasRecordedOnce(before, lists, v, live, u, i))
    && (forall v, x {:trigger x in lists[v]} :: v in all && x in lists[v] ==> x.user in all)
  }

  lemma Remember(all: set<Value>, live: set<Value>, retired: set<Value>)
    requires Exact(all, live, retired)
    ensures WasExact(Operands(all), Lists(all), all, live, retired)
  {
    forall v, u, i: nat | v in all && v !in retired && u in all
      ensures WasRecordedOnce(Operands(all), Lists(all), v, live, u, i)
    {
      assert RecordedOnce(v, live, u, i);
    }
  }

  class Value {
    const terminator: bool  // a branch or a return
    var operands: seq<Value?>
    var uses: seq<Use>

    // A user with n operands to be set.
    constructor (n: nat, terminator: bool)
      ensures operands == seq(n, _ => null) && uses == [] && this.terminator == terminator
    {
      this.terminator := terminator;
      operands, uses := seq(n, _ => null), [];
    }

    // A new value that nothing uses yet joins the others.
    lemma NewExact(all: set<Value>, live: set<Value>, retired: set<Value>)
      requires Exact(all, live, retired) && this !in all && uses == [] && forall o :: o in operands ==> o == null
      requires forall u, i: nat {:trigger SlotIs(u, i, this)} :: u in all ==> !SlotIs(u, i, this)
      ensures Exact(all + {this}, live + {this}, retired)
    {
      forall v, u, i: nat | v in all + {this} && v !in retired && u in all + {this}
        ensures RecordedOnce(v, live + {this}, u, i)
      {
        if v in all && u in all {
          assert RecordedOnce(v, live, u, i);
        } else if v in all {
          assert Use(this, i) in v.uses <==> multiset(v.uses)[Use(this, i)] > 0;
          assert i < |operands| ==> operands[i] in operands;
        } else {
          assert multiset(uses)[Use(u, i)] == 0;
          assert u in all ==> !SlotIs(u, i, this);
          assert i < |operands| ==> operands[i] in operands;
        }
      }
    }

    method AddUse(user: Value, argNo: nat)
      modifies this`uses
      ensures uses == old(uses) + [Use(user, argNo)]
    {
      uses := uses + [Use(user, argNo)];
    }

    // Drop every use by the given user.
    method RemoveUse(user: Value)
      modifies this`uses
      ensures uses == Without(old(uses), user)
      ensures exists at :: LeftOf(old(uses), ByOthers(old(uses), user), at, uses)
    {
      var r: seq<Use> := [];
      for k := 0 to |uses|
        invariant uses == old(uses) && r == Without(uses[..k], user)
      {
        assert uses[..k + 1][..k] == uses[..k];
        if uses[k].user != user {
          r := r + [uses[k]];
        }
      }
      assert uses[..|uses|] == uses;
      ghost var at := WithoutInOrder(uses, user);
      uses := r;
    }

    // Set an operand. Exact use lists stay exact if and only if the slot was empty or held a value
    // that has been replaced: a value that is overwritten otherwise keeps recording the slot.
    method SetOperand(i: nat, v: Value, ghost all: set<Value>, ghost live: set<Value>, ghost retired: set<Value>)
      requires i < |operands|
      modifies this`operands, v`uses
      ensures operands == old(operands)[i := v] && v.uses == old(v.uses) + [Use(this, i)]
      ensures old(Exact(all, live, retired) && Known(i, all, live)) && v in all ==>
        (Exact(all, live, retired) <==> old(operands[i] == null || operands[i] in retired))
    {
      ghost var was := operands[i];
      operands := operands[i := v];
      v.AddUse(this, i);
      if old(Exact(all, live, retired) && Known(i, all, live)) && v in all {
        if was == null || was in retired {
          forall w, u, j: nat | w in all && w !in retired && u in all ensures RecordedOnce(w, live, u, j) {
            assert old(RecordedOnce(w, live, u, j));
          }
        } else {
          assert old(RecordedOnce(was, live, this, i));
          assert !RecordedOnce(was, live, this, i);
        }
      }
    }

    // A slot of a live user that is empty or holds a known value.
    ghost predicate Known(i: nat, all: set<Value>, live: set<Value>)
      reads this
    {
      this in live && i < |operands| && (operands[i] == null || operands[i] in all)
    }

    // Append an operand.
    method AddOperand(v: Value, ghost all: set<Value>, ghost live: set<Value>, ghost retired: set<Value>)
      requires Exact(all, live, retired) && this in live && v in all && v !in retired
      modifies this`operands, v`uses
      ensures Exact(all, live, retired)
      ensures operands == old(operands) + [v] && v.uses == old(v.uses) + [Use(this, |old(operands)|)]
    {
      operands := operands + [v];
      v.AddUse(this, |operands| - 1);
      forall w, u, j: nat | w in all && w !in retired && u in all ensures RecordedOnce(w, live, u, j) {
        assert old(RecordedOnce(w, live, u, j));
      }
    }

    // Make every user of this value use another one instead. This value is retired: its own list
    // is left as it was.
    method ReplaceAllUseWith(newVal: Value, ghost all: set<Value>, ghost live: set<Value>, ghost retired: set<Value>)
      returns (ghost before: map<Value, seq<Value?>>)
      requires Exact(all, live, retired) && this in all && this !in retired && newVal in all && newVal !in retired &&
        newVal != this
      modifies all
      ensures before == old(Operands(all))
      ensures Exact(all, live, retired + {this})
      ensures forall u, i: nat {:trigger Replaced(before, this, newVal, live, u, i)} :: u in all ==>
        Replaced(before, this, newVal, live, u, i)
      ensures forall w {:trigger w.uses} :: w in all && w != newVal ==> w.uses == old(w.uses)
    {
      Remember(all, live, retired);
      before := Operands(all);
      ghost var lists := Lists(all);
      MoveAll(newVal, before, all, live, retired);
      assert forall w {:trigger w.uses} :: w in all ==>
        w.uses == if w == newVal then lists[w] + lists[this] else lists[w];
      ReplacedExact(newVal, all, live, retired, before, lists);
      forall u, i: nat {:trigger Replaced(before, this, newVal, live, u, i)} | u in all ensures Replaced(before, this,
        newVal, live, u, i) {
        ReplacedSlot(newVal, all, live, retired, before, lists, u, i);
      }
    }

    // The loop over the recorded uses.
    method MoveAll(newVal: Value, ghost before: map<Value, seq<Value?>>, ghost all: set<Value>, ghost live: set<Value>,
        ghost retired: set<Value>)
      requires Exact(all, live, retired) && this in all && this !in retired && newVal in all && newVal != this
      requires before.Keys == all && forall u {:trigger before[u]} :: u in all ==> before[u] == u.operands
      modifies all
      ensures AllMoved(before, old(uses), newVal, all) && newVal.uses == old(newVal.uses) + old(uses)
      ensures forall w {:trigger w.uses} :: w in all && w != newVal ==> w.uses == old(w.uses)
    {
      ghost var listed := uses;
      forall k | 0 <= k < |listed| ensures UseReal(listed[k], before, all) {
        UseIsReal(listed[k], before, all, live, retired);
      }
      for k := 0 to |uses|
        invariant uses == listed && newVal.uses == old(newVal.uses) + listed[..k]
        invariant AllMoved(before, listed[..k], newVal, all)
        invariant forall w {:trigger w.uses} :: w in all && w != newVal ==> w.uses == old(w.uses)
      {
        assert UseReal(listed[k], before, all);
        MoveUse(uses[k], newVal, before, listed[..k], all);
        assert listed[..k + 1] == listed[..k] + [listed[k]];
      }
      assert listed[..|listed|] == listed;
    }

    ghost predicate UseReal(use: Use, before: map<Value, seq<Value?>>, all: set<Value>)
    {
      use.user in all && use.user in before && use.argNo < |before[use.user]|
    }

    // What is recorded is an operand slot of a live user.
    lemma UseIsReal(use: Use, before: map<Value, seq<Value?>>, all: set<Value>, live: set<Value>, retired: set<Value>)
      requires Exact(all, live, retired) && this in all && this !in retired && use in uses
      requires before.Keys == all && forall u {:trigger before[u]} :: u in all ==> before[u] == u.operands
      ensures UseReal(use, before, all)
    {
      assert RecordedOnce(this, live, use.user, use.argNo);
      assert use in multiset(uses);
    }

    lemma ReplacedSlot(newVal: Value, all: set<Value>, live: set<Value>, retired: set<Value>,
        before: map<Value, seq<Value?>>, lists: map<Value, seq<Use>>, u: Value, i: nat)
      requires WasExact(before, lists, all, live, retired) && this in all && this !in retired && u in all
      requires AllMoved(before, lists[this], newVal, all)
      ensures Replaced(before, this, newVal, live, u, i)
    {
      assert WasRecordedOnce(before, lists, this, live, u, i);
      assert Moved(before, lists[this], newVal, u, i);
      assert Use(u, i) in lists[this] <==> multiset(lists[this])[Use(u, i)] > 0;
    }

    // One use: the slot it records is given the new value.
    method MoveUse(use: Use, newVal: Value, ghost before: map<Value, seq<Value?>>, ghost done: seq<Use>,
        ghost all: set<Value>)
      requires use.user in all && use.user in before && use.argNo < |before[use.user]| &&
        AllMoved(before, done, newVal, all)
      modifies use.user`operands, newVal`uses
      ensures newVal.uses == old(newVal.uses) + [use] && AllMoved(before, done + [use], newVal, all)
    {
      assert Moved(before, done, newVal, use.user, use.argNo);
      use.user.SetOperand(use.argNo, newVal, {}, {}, {});
      forall u, i: nat {:trigger Moved(before, done + [use], newVal, u, i)} | u in all ensures Moved(before,
        done + [use], newVal, u, i) {
        assert old(Moved(before, done, newVal, u, i));
        assert Use(u, i) in done + [use] <==> Use(u, i) in done || Use(u, i) == use;
      }
    }

    // Once all slots have been moved the lists are exact, with the old value retired.
    lemma ReplacedExact(newVal: Value, all: set<Value>, live: set<Value>, retired: set<Value>,
        before: map<Value, seq<Value?>>, lists: map<Value, seq<Use>>)
      requires WasExact(before, lists, all, live, retired)
      requires this in all && this !in retired && newVal in all && newVal !in retired && newVal != this
      requires AllMoved(before, lists[this], newVal, all)
      requires forall w {:trigger w.uses} :: w in all ==>
        w.uses == if w == newVal then lists[w] + lists[this] else lists[w]
      ensures Exact(all, live, retired + {this})
    {
      forall w, u, i: nat | w in all && w !in retired + {this} && u in all ensures RecordedOnce(w, live, u, i) {
        assert WasRecordedOnce(before, lists, w, live, u, i) && WasRecordedOnce(before, lists, this, live, u, i);
        assert Moved(before, lists[this], newVal, u, i);
        assert Use(u, i) in lists[this] <==> multiset(lists[this])[Use(u, i)] > 0;
      }
    }

    // The use list is empty exactly when no live user has the value as an operand.
    lemma UnusedIff(all: set<Value>, live: set<Value>, retired: set<Value>)
      requires Exact(all, live, retired) && this in all && this !in retired
      ensures uses == [] <==> forall u, i: nat {:trigger SlotIs(u, i, this)} :: u in live ==> !SlotIs(u, i, this)
    {
      if uses != [] {
        var x := uses[0];
        assert x in uses && x in multiset(uses);
        assert RecordedOnce(this, live, x.user, x.argNo);
      } else {
        forall u, i: nat | u in live ensures !SlotIs(u, i, this) {
          assert RecordedOnce(this, live, u, i);
        }
      }
    }

    // This user is deleted: none of its operands records it any more.
    method RemoveUseOfOps(ghost all: set<Value>, ghost live: set<Value>, ghost retired: set<Value>)
      requires Exact(all, live, retired) && this in live
      requires forall o {:trigger o in operands} :: o in operands ==> o != null && o in all
      modifies (set o | o in operands && o != null)`uses
      ensures Exact(all, live - {this}, retired)
      ensures operands == old(operands) && Operands(all) == old(Operands(all))
      ensures forall w {:trigger w.uses} :: w in all ==>
        w.uses == if w in operands then Without(old(w.uses), this) else old(w.uses)
    {
      Remember(all, live, retired);
      ghost var before, lists := Operands(all), Lists(all);
      DropUses(all);
      assert Operands(all) == before;
      RemovedExact(all, live, retired, before, lists);
    }

    // The loop over the operands. A value that occurs twice is asked twice.
    method DropUses(ghost all: set<Value>)
      requires forall o {:trigger o in operands} :: o in operands ==> o != null && o in all
      modifies (set o | o in operands && o != null)`uses
      ensures forall w {:trigger w.uses} :: w in all ==>
        w.uses == if w in operands then Without(old(w.uses), this) else old(w.uses)
    {
      var ops := operands;
      for k := 0 to |ops|
        invariant forall w {:trigger w.uses} :: w in all ==>
          w.uses == if w in ops[..k] then Without(old(w.uses), this) else old(w.uses)
      {
        assert ops[k] in operands;
        WithoutTwice(old(ops[k].uses), this);
        ops[k].RemoveUse(this);
        assert ops[..k + 1] == ops[..k] + [ops[k]];
      }
      assert ops[..|ops|] == ops;
    }

    lemma RemovedExact(all: set<Value>, live: set<Value>, retired: set<Value>, before: map<Value, seq<Value?>>,
        lists: map<Value, seq<Use>>)
      requires WasExact(before, lists, all, live, retired) && this in live && before == Operands(all)
      requires forall w {:trigger w.uses} :: w in all ==>
        w.uses == if w in operands then Without(lists[w], this) else lists[w]
      ensures Exact(all, live - {this}, retired)
    {
      forall w, u, i: nat | w in all && w !in retired && u in all ensures RecordedOnce(w, live - {this}, u, i) {
        assert WasRecordedOnce(before, lists, w, live, u, i);
        WithoutCount(lists[w], this, Use(u, i));
        assert before[u] == u.operands;
      }
      forall w, x | w in all && x in w.uses ensures x.user in all {
        WithoutCount(lists[w], this, x);
        assert x in multiset(w.uses) && (x in multiset(lists[w]) ==> x in lists[w]);
      }
    }
  }

  function Dropped(instrs: seq<Value>, instr: Value): seq<Value>
  {
    if instrs == [] then []
    else
      var init, last := instrs[..|instrs| - 1], instrs[|instrs| - 1];
      Dropped(init, instr) + (if last == instr then [] else [last])
  }

  lemma {:induction false} DroppedIff(instrs: seq<Value>, instr: Value, x: Value)
    ensures x in Dropped(instrs, instr) <==> x in instrs && x != instr
  {
    if instrs != [] {
      var init, last := instrs[..|instrs| - 1], instrs[|instrs| - 1];
      assert instrs == init + [last];
      DroppedIff(init, instr, x);
    }
  }

  ghost function Others(instrs: seq<Value>, instr: Value): set<int>
  {
    set i | 0 <= i < |instrs| && instrs[i] != instr
  }

  // The other instructions stay, in their order.
  lemma {:induction false} DroppedInOrder(instrs: seq<Value>, instr: Value) returns (at: seq<nat>)
    ensures LeftOf(instrs, Others(instrs, instr), at, Dropped(instrs, instr))
  {
    if instrs == [] {
      at := [];
    } else {
      var init, last := instrs[..|instrs| - 1], instrs[|instrs| - 1];
      assert instrs == init + [last];
      at := DroppedInOrder(init, instr);
      LeftOfNext(init, Others(init, instr), at, Dropped(init, instr), last, last != instr);
      assert Others(instrs, instr) == Others(init, instr) + if last != instr then {|init|} else {};
      if last != instr {
        at := at + [|init|];
        assert LeftOf(instrs, Others(instrs, instr), at, Dropped(instrs, instr));
      } else {
        var kept := Dropped(instrs, instr);
        assert kept == Dropped(init, instr);
        forall k | 0 <= k < |kept| ensures at[k] < |instrs| && kept[k] == instrs[at[k]] {
          assert kept[k] == init[at[k]];
        }
      }
    }
  }

  // What stands before and after an instruction that occurs once is joined.
  lemma {:induction false} DroppedOnce(p: seq<Value>, instr: Value, q: seq<Value>)
    requires instr !in p && instr !in q
    ensures Dropped(p + [instr] + q, instr) == p + q
    decreases |p| + |q|
  {
    var s := p + [instr] + q;
    if q != [] {
      var init := q[..|q| - 1];
      assert s[..|s| - 1] == p + [instr] + init && s[|s| - 1] == q[|q| - 1];
      DroppedOnce(p, instr, init);
      assert p + q == (p + init) + [q[|q| - 1]];
    } else {
      assert s[..|s| - 1] == p && s[|s| - 1] == instr;
      DroppedAbsent(p, instr);
    }
  }

  lemma {:induction false} DroppedAbsent(instrs: seq<Value>, instr: Value)
    requires instr !in instrs
    ensures Dropped(instrs, instr) == instrs
  {
    if instrs != [] {
      DroppedAbsent(instrs[..|instrs| - 1], instr);
    }
  }

  // The condition is needed: after an operand is set twice, the first value still records the slot.
  method SetTwice() returns (u: Value, a: Value, b: Value)
    ensures u != a && u != b && a != b && u.operands == [b] && a.uses == [Use(u, 0)]
    ensures !Exact({u, a, b}, {u, a, b}, {})
  {
    u := new Value(1, false);
    a := new Value(0, false);
    b := new Value(0, false);
    ghost var all := {u, a, b};
    forall w, x, j: nat | w in all && x in all ensures RecordedOnce(w, all, x, j) {
    }
    u.SetOperand(0, a, all, all, {});
    assert Exact(all, all, {});
    u.SetOperand(0, b, all, all, {});
  }

  class BasicBlock {
    var instrs: seq<Value>

    constructor ()
      ensures instrs == []
    {
      instrs := [];
    }

    method AddInstruction(instr: Value)
      modifies this
      ensures instrs == old(instrs) + [instr]
    {
      instrs := instrs + [instr];
    }

    method AddInstrBegin(instr: Value)
      modifies this
      ensures instrs == [instr] + old(instrs)
    {
      instrs := [instr] + instrs;
    }

    // Take an instruction out of the block, and out of the use lists of all its operands. The others
    // keep their order, nothing that is left records it, and everything else is recorded as before.
    method DeleteInstr(instr: Value, ghost all: set<Value>, ghost live: set<Value>, ghost retired: set<Value>)
      requires Exact(all, live, retired) && instr in live
      requires forall o {:trigger o in instr.operands} :: o in instr.operands ==> o != null && o in all
      modifies this, set o | o in instr.operands && o != null
      ensures Exact(all, live - {instr}, retired)
      ensures instrs == Dropped(old(instrs), instr) && forall x :: x in instrs <==> x in old(instrs) && x != instr
      ensures exists at :: LeftOf(old(instrs), Others(old(instrs), instr), at, instrs)
      ensures forall p, q {:trigger p + [instr] + q} :: old(instrs) == p + [instr] + q && instr !in p && instr !in q ==>
        instrs == p + q
      ensures Operands(all) == old(Operands(all))
      ensures forall v, x {:trigger x in v.uses} :: v in all && v !in retired && x in v.uses ==> x.user != instr
    {
      forall x ensures x in Dropped(instrs, instr) <==> x in instrs && x != instr {
        DroppedIff(instrs, instr, x);
      }
      ghost var at := DroppedInOrder(instrs, instr);
      instrs := Dropped(instrs, instr);
      instr.RemoveUseOfOps(all, live, retired);
      forall p, q {:trigger p + [instr] + q} | old(instrs) == p + [instr] + q && instr !in p && instr !in q
        ensures instrs == p + q
      {
        DroppedOnce(p, instr, q);
      }
      forall v, x | v in all && v !in retired && x in v.uses ensures x.user != instr {
        assert RecordedOnce(v, live - {instr}, x.user, x.argNo);
        assert x in multiset(v.uses);
      }
    }

    // The last instruction, if it is a branch or a return.
    method GetTerminator() returns (t: Value?)
      ensures t != null <==> instrs != [] && instrs[|instrs| - 1].terminator
      ensures t != null ==> t == instrs[|instrs| - 1]
    {
      if instrs == [] {
        return null;
      }
      var last := instrs[|instrs| - 1];
      return if last.terminator then last else null;
    }
  }
}
