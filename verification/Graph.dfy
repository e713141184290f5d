// Control flow graphs, paths, reachability and dominance.
module Graph {

  // A basic block is identified by a number, as the program identifies it by its address.
  type Block = nat

  datatype Option<+T> = None | Some(value: T)

  // The flow graph of one function: its blocks, its entry block, and for every block the
  // lists of successors and predecessors that the branch instructions maintain.
  datatype Cfg = Cfg(blocks: set<Block>, entry: Block, succ: map<Block, seq<Block>>, pred: map<Block, seq<Block>>)
  {
    // Both lists stay inside the function and mirror each other.
    ghost predicate Valid()
    {
      && entry in blocks
      && succ.Keys == blocks
      && pred.Keys == blocks
      && (forall a, b {:trigger b in succ[a]} :: a in blocks && b in succ[a] ==> b in blocks && a in pred[b])
      && (forall a, b {:trigger a in pred[b]} :: b in blocks && a in pred[b] ==> a in blocks && b in succ[a])
    }

    ghost predicate Edge(a: Block, b: Block)
    {
      a in succ && b in succ[a]
    }

    // p is a walk along edges from a to b.
    ghost predicate PathBetween(p: seq<Block>, a: Block, b: Block)
    {
      && |p| > 0
      && p[0] == a
      && p[|p| - 1] == b
      && forall i :: 0 <= i < |p| - 1 ==> Linked(p, i)
    }

    ghost predicate Linked(p: seq<Block>, i: nat)
      requires i + 1 < |p|
    {
      Edge(p[i], p[i + 1])
    }

    ghost predicate Reaches(a: Block, b: Block)
    {
      exists p :: PathBetween(p, a, b)
    }

    ghost predicate Reachable(b: Block)
    {
      Reaches(entry, b)
    }

    // d lies on every path from the entry to the reachable block b.
    ghost predicate Dom(d: Block, b: Block)
    {
      Reachable(b) && forall p :: PathBetween(p, entry, b) ==> d in p
    }

    ghost predicate StrictDom(d: Block, b: Block)
    {
      d != b && Dom(d, b)
    }

    lemma PathExtend(p: seq<Block>, a: Block, b: Block, c: Block)
      requires PathBetween(p, a, b) && Edge(b, c)
      ensures PathBetween(p + [c], a, c)
    {
      var r := p + [c];
      forall i | 0 <= i < |r| - 1 ensures Linked(r, i) {
        assert i < |p| - 1 ==> Linked(p, i);
      }
    }

    lemma PathPrefix(p: seq<Block>, a: Block, b: Block, k: nat)
      requires PathBetween(p, a, b) && k < |p|
      ensures PathBetween(p[..k + 1], a, p[k])
    {
      var r := p[..k + 1];
      forall i | 0 <= i < |r| - 1 ensures Linked(r, i) {
        assert Linked(p, i);
      }
    }

    // A path other than the trivial one ends with an edge into its last block.
    lemma PathLast(p: seq<Block>, a: Block, b: Block) returns (q: Block)
      requires PathBetween(p, a, b) && |p| > 1
      ensures q == p[|p| - 2] && Edge(q, b) && PathBetween(p[..|p| - 1], a, q)
    {
      q := p[|p| - 2];
      assert Linked(p, |p| - 2);
      PathPrefix(p, a, b, |p| - 2);
    }

    lemma ReachesSelf(a: Block)
      ensures Reaches(a, a)
    {
      assert PathBetween([a], a, a);
    }

    lemma ReachesStep(a: Block, b: Block, c: Block)
      requires Reaches(a, b) && Edge(b, c)
      ensures Reaches(a, c)
    {
      var p :| PathBetween(p, a, b);
      PathExtend(p, a, b, c);
    }

    lemma ReachableStep(b: Block, c: Block)
      requires Reachable(b) && Edge(b, c)
      ensures Reachable(c)
    {
      ReachesStep(entry, b, c);
    }

    lemma {:induction false} ReachesAlong(a: Block, b: Block, c: Block, q: seq<Block>)
      requires Reaches(a, b) && PathBetween(q, b, c)
      ensures Reaches(a, c)
      decreases |q|
    {
      if |q| > 1 {
        var d := PathLast(q, b, c);
        ReachesAlong(a, b, d, q[..|q| - 1]);
        ReachesStep(a, d, c);
      }
    }

    lemma ReachesTrans(a: Block, b: Block, c: Block)
      requires Reaches(a, b) && Reaches(b, c)
      ensures Reaches(a, c)
    {
      var q :| PathBetween(q, b, c);
      ReachesAlong(a, b, c, q);
    }

    // A set that contains a and is closed under successors contains everything a reaches.
    lemma {:induction false} ClosedContains(s: set<Block>, a: Block, p: seq<Block>, b: Block)
      requires PathBetween(p, a, b) && a in s
      requires forall x, y :: x in s && Edge(x, y) ==> y in s
      ensures b in s
      decreases |p|
    {
      if |p| > 1 {
        var q := PathLast(p, a, b);
        ClosedContains(s, a, p[..|p| - 1], q);
      }
    }

    lemma ReachableInBlocks(b: Block)
      requires Valid() && Reachable(b)
      ensures b in blocks
    {
      var p :| PathBetween(p, entry, b);
      ClosedContains(blocks, entry, p, b);
    }

    lemma DomSelf(b: Block)
      requires Reachable(b)
      ensures Dom(b, b)
    {
    }

    // What strictly dominates a block dominates each of its reachable predecessors.
    lemma DomPred(d: Block, p: Block, b: Block)
      requires StrictDom(d, b) && Edge(p, b) && Reachable(p)
      ensures Dom(d, p)
    {
      forall q | PathBetween(q, entry, p) ensures d in q {
        PathExtend(q, entry, p, b);
        assert d in q + [b];
      }
    }

    lemma DomTrans(a: Block, b: Block, c: Block)
      requires Dom(a, b) && Dom(b, c)
      ensures Dom(a, c)
    {
      forall p | PathBetween(p, entry, c) ensures a in p {
        assert b in p;
        var i :| 0 <= i < |p| && p[i] == b;
        PathPrefix(p, entry, c, i);
        assert a in p[..i + 1];
      }
    }
  }
}
