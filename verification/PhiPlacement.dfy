// Where phis are placed: the iterated dominance frontier of the blocks that store to a slot.
module PhiPlacement {
  import opened Graph
  import opened IR

  // ---- The least set closed under frontiers ----

  ghost predicate FrontierWithin(df: map<Block, set<Block>>, b: Block, q: set<Block>)
  {
    b in df && df[b] <= q
  }

  ghost predicate FrontierClosed(df: map<Block, set<Block>>, defs: set<Block>, q: set<Block>)
  {
    forall b {:trigger FrontierWithin(df, b, q)} :: b in defs || b in q ==> FrontierWithin(df, b, q)
  }

  // p is the least set that contains the frontiers of defs and of its own members.
  ghost predicate IsIteratedFrontier(df: map<Block, set<Block>>, defs: set<Block>, p: set<Block>)
  {
    FrontierClosed(df, defs, p) && forall q :: FrontierClosed(df, defs, q) ==> p <= q
  }

  // ---- Blocks with phis put in front ----

  ghost predicate PhiFor(c: seq<Instr>, m: nat, v: Slot)
    requires m <= |c|
  {
    exists i :: 0 <= i < m && c[i].Phi? && c[i].slot == v
  }

  // c is c0 with one empty phi in front for every slot in vs.
  ghost predicate PhiList(c0: seq<Instr>, c: seq<Instr>, vs: set<Slot>)
  {
    && |c0| <= |c| && c[|c| - |c0|..] == c0
    && (forall i :: 0 <= i < |c| - |c0| ==> c[i].Phi? && c[i].ins == [] && c[i].slot in vs)
    && (forall v :: v in vs ==> PhiFor(c, |c| - |c0|, v))
    && (forall i, j :: 0 <= i < j < |c| - |c0| ==> c[i].slot != c[j].slot)
  }

  lemma PhiListMore(c0: seq<Instr>, c: seq<Instr>, vs: set<Slot>, id: Reg, v: Slot)
    requires PhiList(c0, c, vs) && v !in vs
    ensures PhiList(c0, [Phi(id, v, [])] + c, vs + {v})
  {
    var c' := [Phi(id, v, [])] + c;
    var m, m' := |c| - |c0|, |c'| - |c0|;
    forall u | u in vs + {v} ensures PhiFor(c', m', u) {
      if u == v {
        assert c'[0].Phi? && c'[0].slot == v;
      } else {
        assert PhiFor(c, m, u);
        var i :| 0 <= i < m && c[i].Phi? && c[i].slot == u;
        assert c'[i + 1] == c[i];
      }
    }
    forall i | 0 <= i < m' ensures c'[i].Phi? && c'[i].ins == [] && c'[i].slot in vs + {v} {
      assert i > 0 ==> c'[i] == c[i - 1];
    }
    forall i, j | 0 <= i < j < m' ensures c'[i].slot != c'[j].slot {
      assert c'[j] == c[j - 1];
      assert i > 0 ==> c'[i] == c[i - 1];
    }
  }

  // The slots that have a phi in b.
  ghost function SlotsAt(has: map<Slot, set<Block>>, b: Block): set<Slot>
  {
    set v | v in has && b in has[v]
  }

  ghost predicate Placed(code0: map<Block, seq<Instr>>, code: map<Block, seq<Instr>>, has: map<Slot, set<Block>>)
  {
    && code.Keys == code0.Keys
    && forall b {:trigger PlacedIn(code0, code, has, b)} :: b in code0 ==> PlacedIn(code0, code, has, b)
  }

  ghost predicate PlacedIn(code0: map<Block, seq<Instr>>, code: map<Block, seq<Instr>>, has: map<Slot, set<Block>>,
      b: Block)
  {
    b in code0 && b in code && PhiList(code0[b], code[b], SlotsAt(has, b))
  }

  lemma SlotsAtMore(has: map<Slot, set<Block>>, v: Slot, x: Block, b: Block)
    requires v in has
    ensures SlotsAt(has[v := has[v] + {x}], b) == SlotsAt(has, b) + (if b == x then {v} else {})
  {
  }

  // One more phi, in block x for slot v.
  lemma PlacedMore(code0: map<Block, seq<Instr>>, code: map<Block, seq<Instr>>, has: map<Slot, set<Block>>, v: Slot,
      x: Block, id: Reg)
    requires Placed(code0, code, has) && v in has && x in code && x !in has[v]
    ensures Placed(code0, code[x := [Phi(id, v, [])] + code[x]], has[v := has[v] + {x}])
  {
    var more := [Phi(id, v, [])] + code[x];
    forall b | b in code0 ensures PlacedIn(code0, code[x := more], has[v := has[v] + {x}], b) {
      assert PlacedIn(code0, code, has, b);
      SlotsAtMore(has, v, x, b);
      if b == x {
        PhiListMore(code0[x], code[x], SlotsAt(has, x), id, v);
      } else {
        assert SlotsAt(has, b) + {} == SlotsAt(has, b);
      }
    }
  }

  lemma PlacedEmpty(code0: map<Block, seq<Instr>>, code: map<Block, seq<Instr>>, has: map<Slot, set<Block>>, v: Slot)
    requires Placed(code0, code, has) && v !in has
    ensures Placed(code0, code, has[v := {}])
  {
    forall b | b in code0 ensures PlacedIn(code0, code, has[v := {}], b) {
      assert PlacedIn(code0, code, has, b);
      assert SlotsAt(has[v := {}], b) == SlotsAt(has, b);
    }
  }

  lemma PlacedStart(code0: map<Block, seq<Instr>>)
    ensures Placed(code0, code0, map[])
  {
    forall b | b in code0 ensures PlacedIn(code0, code0, map[], b) {
      assert SlotsAt(map[], b) == {};
    }
  }

  // ---- Identities ----

  ghost predicate SameIdentity(code: map<Block, seq<Instr>>, b: Block, k: nat, c: Block, j: nat)
  {
    b in code && c in code && k < |code[b]| && j < |code[c]| && code[b][k].id == code[c][j].id
  }

  // No two instructions share an identity, and the identities given out so far are below next.
  ghost predicate Identities(code: map<Block, seq<Instr>>, next: nat)
  {
    && (forall b: Block, k: nat, c: Block, j: nat {:trigger SameIdentity(code, b, k, c, j)} ::
      SameIdentity(code, b, k, c, j) ==> b == c && k == j)
    && (forall b, k {:trigger code[b][k]} :: b in code && 0 <= k < |code[b]| ==> code[b][k].id < next)
  }

  lemma IdentitiesMore(code: map<Block, seq<Instr>>, next: nat, x: Block, i: Instr)
    requires Identities(code, next) && x in code && i.id == next
    ensures Identities(code[x := [i] + code[x]], next + 1)
  {
    var code': map<Block, seq<Instr>> := code[x := [i] + code[x]];
    forall b: Block, k: nat {:trigger code'[b][k]} | b in code' && k < |code'[b]|
      ensures if b == x && k == 0 then code'[b][k].id == next else code'[b][k].id < next
    {
      assert b == x && k > 0 ==> code'[b][k] == code[b][k - 1];
    }
    forall b: Block, k: nat, c: Block, j: nat | SameIdentity(code', b, k, c, j) ensures b == c && k == j {
      if !(b == x && k == 0) && !(c == x && j == 0) {
        var k0: nat := if b == x then k - 1 else k;
        var j0: nat := if c == x then j - 1 else j;
        assert code'[b][k] == code[b][k0] && code'[c][j] == code[c][j0];
        assert SameIdentity(code, b, k0, c, j0);
      }
    }
  }

  // ---- Stores ----

  ghost predicate StoresIn(s: seq<Instr>, v: Slot)
  {
    exists k :: 0 <= k < |s| && s[k].Store? && s[k].slot == v
  }

  // The blocks that store to v.
  ghost function StoreBlocks(code: map<Block, seq<Instr>>, v: Slot): set<Block>
  {
    set b | b in code && StoresIn(code[b], v)
  }

  // Addresses of slots are used only to access them; they are not themselves stored to slots.
  ghost predicate AddressesNotStored(code: map<Block, seq<Instr>>)
  {
    forall b, k {:trigger code[b][k]} :: b in code && 0 <= k < |code[b]| && code[b][k].Store? ==>
      !code[b][k].value.Address?
  }
}
