// Control-flow graphs of one function: blocks are numbered in the order of the
// function's block list, so block 0 is the entry.
module Cfg {

  type Block = nat

  const ENTRY: Block := 0

  /** The successor and predecessor lists kept by every basic block, in list order. */
  datatype Graph = Graph(succ: seq<seq<Block>>, pred: seq<seq<Block>>) {
    function Size(): nat { |succ| }

    /** Lists stay inside the function, and mirror each other as sets of edges. */
    ghost predicate Valid() {
      && 0 < |succ| == |pred|
      && (forall a, b :: 0 <= a < |succ| && b in succ[a] ==> b < |succ|)
      && (forall a, b :: 0 <= b < |pred| && a in pred[b] ==> a < |succ|)
      && (forall a, b :: 0 <= a < |succ| && 0 <= b < |succ| ==> (b in succ[a] <==> a in pred[b]))
    }
  }

  predicate Edge(g: Graph, a: Block, b: Block) {
    a < |g.succ| && b in g.succ[a]
  }

  ghost predicate IsPath(g: Graph, p: seq<Block>) {
    && 0 < |p|
    && (forall i :: 0 <= i < |p| ==> p[i] < |g.succ|)
    && (forall i :: 0 <= i < |p| - 1 ==> Edge(g, p[i], p[i + 1]))
  }

  ghost predicate PathFromTo(g: Graph, p: seq<Block>, a: Block, b: Block) {
    IsPath(g, p) && p[0] == a && p[|p| - 1] == b
  }

  ghost predicate Reachable(g: Graph, b: Block) {
    exists p :: PathFromTo(g, p, ENTRY, b)
  }

  /** Every path from the entry to b passes through a. */
  ghost predicate Dominates(g: Graph, a: Block, b: Block) {
    forall p :: PathFromTo(g, p, ENTRY, b) ==> a in p
  }

  ghost predicate StrictlyDominates(g: Graph, a: Block, b: Block) {
    a != b && Dominates(g, a, b)
  }

  /** a strictly dominates b and is dominated by every other strict dominator of b. */
  ghost predicate ImmediatelyDominates(g: Graph, a: Block, b: Block) {
    StrictlyDominates(g, a, b) && forall c :: StrictlyDominates(g, c, b) ==> Dominates(g, c, a)
  }

  /** The textbook dominance frontier: x dominates a predecessor of b but not b strictly. */
  ghost predicate InFrontier(g: Graph, x: Block, b: Block)
    requires g.Valid() && b < |g.pred|
  {
    !StrictlyDominates(g, x, b) && exists p :: p in g.pred[b] && Dominates(g, x, p)
  }

  lemma ConcatPaths(g: Graph, p: seq<Block>, q: seq<Block>, a: Block, b: Block, c: Block)
    requires PathFromTo(g, p, a, b) && PathFromTo(g, q, b, c)
    ensures PathFromTo(g, p + q[1..], a, c)
    ensures forall x :: x in p + q[1..] <==> x in p || x in q
  {
    var r := p + q[1..];
    forall i | 0 <= i < |r| - 1 ensures Edge(g, r[i], r[i + 1]) {
      if i < |p| - 1 {
        assert r[i] == p[i] && r[i + 1] == p[i + 1];
      } else {
        assert r[i] == q[i - (|p| - 1)] && r[i + 1] == q[i - (|p| - 1) + 1];
      }
    }
    forall x ensures x in r <==> x in p || x in q {
      if x in q {
        var i :| 0 <= i < |q| && q[i] == x;
        if i == 0 { assert p[|p| - 1] == x; } else { assert q[1..][i - 1] == x; }
      }
    }
  }

  lemma ExtendPath(g: Graph, p: seq<Block>, a: Block, b: Block, c: Block)
    requires g.Valid() && PathFromTo(g, p, a, b) && Edge(g, b, c)
    ensures PathFromTo(g, p + [c], a, c)
  {
    var q := [b, c];
    assert PathFromTo(g, q, b, c);
    ConcatPaths(g, p, q, a, b, c);
    assert q[1..] == [c];
  }

  lemma SinglePath(g: Graph, a: Block)
    requires a < |g.succ|
    ensures PathFromTo(g, [a], a, a)
  {}

  lemma ReachableStep(g: Graph, a: Block, b: Block)
    requires g.Valid() && Reachable(g, a) && Edge(g, a, b)
    ensures Reachable(g, b)
  {
    var p :| PathFromTo(g, p, ENTRY, a);
    ExtendPath(g, p, ENTRY, a, b);
  }

  lemma EntryReachable(g: Graph)
    requires g.Valid()
    ensures Reachable(g, ENTRY)
  {
    SinglePath(g, ENTRY);
  }

  /** A set holding the entry and closed under edges holds every reachable block. */
  lemma {:induction false} ClosedCoversPath(g: Graph, s: set<Block>, p: seq<Block>, b: Block)
    requires ENTRY in s && (forall x, y :: x in s && Edge(g, x, y) ==> y in s)
    requires PathFromTo(g, p, ENTRY, b)
    ensures b in s
    decreases |p|
  {
    if |p| > 1 {
      var q := p[..|p| - 1];
      assert forall i :: 0 <= i < |q| - 1 ==> Edge(g, q[i], q[i + 1]) by {
        forall i | 0 <= i < |q| - 1 ensures Edge(g, q[i], q[i + 1]) {
          assert Edge(g, p[i], p[i + 1]);
        }
      }
      ClosedCoversPath(g, s, q, q[|q| - 1]);
      assert Edge(g, p[|p| - 2], p[|p| - 1]);
    }
  }

  /** A strict dominator of b dominates every predecessor of b. */
  lemma DominatesPred(g: Graph, a: Block, p: Block, b: Block)
    requires g.Valid() && StrictlyDominates(g, a, b) && Edge(g, p, b)
    ensures Dominates(g, a, p)
  {
    forall q | PathFromTo(g, q, ENTRY, p) ensures a in q {
      ExtendPath(g, q, ENTRY, p, b);
      assert a in q + [b];
    }
  }
}
