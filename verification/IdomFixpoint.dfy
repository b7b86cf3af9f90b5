// The invariant of the immediate-dominator iteration: what one re-computation of
// a link keeps, and what the links mean once a whole pass changes nothing.
module IdomFixpoint {
  import opened Cfg
  import opened IdomTree

  /** Post-order numbers of a depth-first search: exactly the reachable blocks, each
      but the entry with a predecessor finished later. */
  ghost predicate Ordered(g: Graph, po: Order) {
    && g.Valid() && Numbered(po)
    && (forall b :: b in po <==> Reachable(g, b))
    && (forall b {:trigger HasEarlierPred(g, po, b)} :: b in po && b != ENTRY ==> HasEarlierPred(g, po, b))
  }

  ghost predicate HasEarlierPred(g: Graph, po: Order, b: Block) {
    b < |g.pred| && exists p :: p in g.pred[b] && p in po && Num(po, b) < Num(po, p)
  }

  /** x lies above every predecessor of b that already has a link. */
  ghost predicate Meets(g: Graph, up: Up, po: Order, b: Block, x: Block)
    requires Climbs(up, po)
  {
    x in up && b < |g.pred| && forall p :: p in g.pred[b] && p in up ==> x in Chain(up, po, p)
  }

  /** No true dominator of b has been dropped from its chain. */
  ghost predicate Safe(g: Graph, up: Up, po: Order, b: Block)
    requires Climbs(up, po) && b in up
  {
    forall a :: Dominates(g, a, b) ==> a in Chain(up, po, b)
  }

  ghost predicate LowPath(g: Graph, po: Order, p: seq<Block>, a: Block, b: Block) {
    PathFromTo(g, p, a, b) && forall x :: x in p ==> Num(po, x) <= Num(po, a)
  }

  /** The parent of b reaches b below its own number. */
  ghost predicate Low(g: Graph, up: Up, po: Order, b: Block)
    requires b in up
  {
    exists p :: LowPath(g, po, p, up[b], b)
  }

  /** A re-computation of b can only move its link upwards. */
  ghost predicate Lagging(g: Graph, up: Up, po: Order, b: Block)
    requires Climbs(up, po) && b in up
  {
    forall x :: Meets(g, up, po, b, x) ==> Num(po, up[b]) <= Num(po, x)
  }

  /** Re-computed in this pass: the link lies above every earlier predecessor. */
  ghost predicate Passed(g: Graph, up: Up, po: Order, b: Block)
    requires Climbs(up, po) && b in up
  {
    b < |g.pred| && forall p :: p in g.pred[b] && p in up && Num(po, b) < Num(po, p) ==> up[b] in Chain(up, po, p)
  }

  /** From the number of the link upwards, the chain of p is inside the chain of the link q,
      and below k the other way round. */
  ghost predicate Tracks(up: Up, po: Order, q: Block, p: Block, k: nat)
    requires Climbs(up, po) && q in up && p in up
  {
    && (forall x :: x in Chain(up, po, p) && Num(po, q) <= Num(po, x) ==> x in Chain(up, po, q))
    && (forall z :: z in Chain(up, po, q) && Num(po, z) < k ==> z in Chain(up, po, p))
  }

  /** Not yet re-computed in this pass. */
  ghost predicate Pending(g: Graph, up: Up, po: Order, b: Block, k: nat)
    requires Climbs(up, po) && b in up && up[b] in up
  {
    b < |g.pred|
    && forall p :: p in g.pred[b] && p in up && Num(po, b) < Num(po, p) ==> Tracks(up, po, up[b], p, k)
  }

  ghost predicate InvAt(g: Graph, up: Up, po: Order, k: nat, b: Block)
    requires Climbs(up, po)
  {
    && b in up && up[b] in up && b in po
    && Safe(g, up, po, b)
    && (b != ENTRY ==> Low(g, up, po, b) && Lagging(g, up, po, b))
    && (b != ENTRY && k <= Num(po, b) ==> Passed(g, up, po, b))
    && (b != ENTRY && Num(po, b) < k ==> Pending(g, up, po, b, k))
  }

  /** The invariant when the blocks numbered k and above are done in the current pass. */
  ghost predicate Inv(g: Graph, up: Up, po: Order, k: nat) {
    && Ordered(g, po) && Climbs(up, po)
    && (forall b :: b in po && k <= Num(po, b) ==> b in up)
    && ((forall b :: b in po ==> b in up) || (forall b :: b in up && b != ENTRY ==> k <= Num(po, b)))
    && (forall b {:trigger InvAt(g, up, po, k, b)} :: b in up ==> InvAt(g, up, po, k, b))
  }

  /** y is the lowest common ancestor of the linked predecessors of r, the next block of the pass. */
  ghost predicate Recomputes(g: Graph, up: Up, po: Order, k: nat, r: Block, y: Block) {
    && Inv(g, up, po, k)
    && r in po && r != ENTRY && Num(po, r) + 1 == k && y in up
    && (forall x :: Meets(g, up, po, r, x) <==> x in Chain(up, po, y))
  }

  lemma RecomputedLinkClimbs(g: Graph, up: Up, po: Order, k: nat, r: Block, y: Block)
    requires Recomputes(g, up, po, k, r, y)
    ensures Num(po, r) < Num(po, y) && Climbs(up[r := y], po)
    ensures r in up ==> InvAt(g, up, po, k, r) && Num(po, up[r]) <= Num(po, y) && y in Chain(up, po, up[r])
  {
    assert HasEarlierPred(g, po, r);
    var p :| p in g.pred[r] && p in po && Num(po, r) < Num(po, p);
    ChainBounds(up, po, y);
    ChainBounds(up, po, p);
    assert Meets(g, up, po, r, y);
    UpdateClimbs(up, po, r, y);
    if r in up {
      assert InvAt(g, up, po, k, r);
      assert Tracks(up, po, up[r], p, k);
    }
  }

  /** Chains only lose blocks. */
  lemma ChainShrinks(g: Graph, up: Up, po: Order, k: nat, r: Block, y: Block, c: Block)
    requires Recomputes(g, up, po, k, r, y) && c in up
    ensures Climbs(up[r := y], po)
    ensures Chain(up[r := y], po, c) <= Chain(up, po, c)
    ensures forall z :: z in Chain(up, po, c) && Num(po, z) <= Num(po, r) ==> z in Chain(up[r := y], po, c)
    ensures r in Chain(up, po, c) ==> Chain(up, po, y) <= Chain(up[r := y], po, c)
    ensures r in Chain(up, po, c) ==>
              forall z :: z in Chain(up[r := y], po, c) && Num(po, r) < Num(po, z) ==> z in Chain(up, po, y)
    ensures r !in Chain(up, po, c) ==> Chain(up[r := y], po, c) == Chain(up, po, c)
  {
    RecomputedLinkClimbs(g, up, po, k, r, y);
    if r in Chain(up, po, c) {
      ChainBounds(up, po, c);
      UpdateThrough(up, po, r, y, c);
      ChainAbove(up, po, c, r);
      Step(up, po, r);
      ChainAbove(up, po, up[r], y);
    } else {
      UpdateAvoiding(up, po, r, y, c);
    }
  }

  lemma RecomputedChain(g: Graph, up: Up, po: Order, k: nat, r: Block, y: Block)
    requires Recomputes(g, up, po, k, r, y)
    ensures Climbs(up[r := y], po)
    ensures Chain(up[r := y], po, y) == Chain(up, po, y)
    ensures Chain(up[r := y], po, r) == {r} + Chain(up, po, y)
  {
    RecomputedLinkClimbs(g, up, po, k, r, y);
    ChainBounds(up, po, y);
    UpdateAvoiding(up, po, r, y, y);
    Step(up[r := y], po, r);
  }

  /** Chain membership gives a low path from the ancestor. */
  lemma {:induction false} LowPathFrom(g: Graph, up: Up, po: Order, k: nat, x: Block, c: Block) returns (p: seq<Block>)
    requires Inv(g, up, po, k) && c in up && x in Chain(up, po, c)
    ensures LowPath(g, po, p, x, c)
    decreases Below(po, c)
  {
    assert InvAt(g, up, po, k, c);
    if x == c {
      p := [c];
      var q :| PathFromTo(g, q, ENTRY, c);
    } else {
      Step(up, po, c);
      var q := LowPathFrom(g, up, po, k, x, up[c]);
      var w :| LowPath(g, po, w, up[c], c);
      p := q + w[1..];
      ConcatPaths(g, q, w, x, up[c], c);
      ChainBounds(up, po, up[c]);
    }
  }

  /** A dominator of c that lies above r on the chain of c dominates r. */
  lemma DominatorAbove(g: Graph, up: Up, po: Order, k: nat, a: Block, r: Block, c: Block)
    requires Inv(g, up, po, k) && c in up && r in Chain(up, po, c)
    requires Dominates(g, a, c) && Num(po, r) < Num(po, a)
    ensures Dominates(g, a, r)
  {
    var w := LowPathFrom(g, up, po, k, r, c);
    forall q | PathFromTo(g, q, ENTRY, r) ensures a in q {
      ConcatPaths(g, q, w, ENTRY, r, c);
      assert a in q + w[1..];
    }
  }

  /** A strict dominator of r is common to the chains of its linked predecessors. */
  lemma DominatorMeets(g: Graph, up: Up, po: Order, k: nat, r: Block, y: Block, a: Block)
    requires Recomputes(g, up, po, k, r, y) && StrictlyDominates(g, a, r)
    ensures a in Chain(up, po, y)
  {
    forall p | p in g.pred[r] && p in up ensures a in Chain(up, po, p) {
      DominatesPred(g, a, p, r);
      assert InvAt(g, up, po, k, p);
    }
    assert HasEarlierPred(g, po, r);
    var p :| p in g.pred[r] && p in po && Num(po, r) < Num(po, p);
    ChainBounds(up, po, p);
    assert Meets(g, up, po, r, a);
  }

  lemma KeepsSafe(g: Graph, up: Up, po: Order, k: nat, r: Block, y: Block, c: Block)
    requires Recomputes(g, up, po, k, r, y) && c in up[r := y]
    ensures Climbs(up[r := y], po) && Safe(g, up[r := y], po, c)
  {
    RecomputedChain(g, up, po, k, r, y);
    forall a | Dominates(g, a, c) ensures a in Chain(up[r := y], po, c) {
      if c == r {
        if a != r { DominatorMeets(g, up, po, k, r, y, a); }
      } else {
        assert InvAt(g, up, po, k, c);
        ChainShrinks(g, up, po, k, r, y, c);
        if r in Chain(up, po, c) && Num(po, r) < Num(po, a) {
          DominatorAbove(g, up, po, k, a, r, c);
          DominatorMeets(g, up, po, k, r, y, a);
        }
      }
    }
  }

  lemma KeepsLow(g: Graph, up: Up, po: Order, k: nat, r: Block, y: Block)
    requires Recomputes(g, up, po, k, r, y)
    ensures Low(g, up[r := y], po, r)
  {
    RecomputedLinkClimbs(g, up, po, k, r, y);
    assert HasEarlierPred(g, po, r);
    var p :| p in g.pred[r] && p in po && Num(po, r) < Num(po, p);
    ChainBounds(up, po, y);
    assert Meets(g, up, po, r, y);
    var w := LowPathFrom(g, up, po, k, y, p);
    LowPathExtends(g, po, w, y, p, r);
    assert LowPath(g, po, w + [r], up[r := y][r], r);
  }

  lemma LowPathExtends(g: Graph, po: Order, w: seq<Block>, y: Block, p: Block, r: Block)
    requires g.Valid() && LowPath(g, po, w, y, p) && Edge(g, p, r) && Num(po, r) <= Num(po, y)
    ensures LowPath(g, po, w + [r], y, r)
  {
    ExtendPath(g, w, y, p, r);
  }

  lemma KeepsLagging(g: Graph, up: Up, po: Order, k: nat, r: Block, y: Block, c: Block)
    requires Recomputes(g, up, po, k, r, y) && c in up[r := y] && c != ENTRY
    ensures Climbs(up[r := y], po) && Lagging(g, up[r := y], po, c)
  {
    RecomputedChain(g, up, po, k, r, y);
    forall x | Meets(g, up[r := y], po, c, x) ensures Num(po, up[r := y][c]) <= Num(po, x) {
      forall p | p in g.pred[c] && p in up ensures x in Chain(up, po, p) {
        ChainShrinks(g, up, po, k, r, y, p);
      }
      assert HasEarlierPred(g, po, c) by { if c != r { assert InvAt(g, up, po, k, c); } }
      if x in up {
        assert Meets(g, up, po, c, x);
        if c == r { ChainBounds(up, po, y); } else { assert InvAt(g, up, po, k, c); }
      } else {
        // x == r on its first visit lies above no linked predecessor of c
        assert x == r;
        FreshBelowAll(g, up, po, k, r, y, c);
      }
    }
  }

  /** On its first visit r is above no linked block but itself, so it is no common ancestor. */
  lemma FreshBelowAll(g: Graph, up: Up, po: Order, k: nat, r: Block, y: Block, c: Block)
    requires Recomputes(g, up, po, k, r, y) && c in up[r := y] && c != ENTRY && r !in up
    ensures Climbs(up[r := y], po) && !Meets(g, up[r := y], po, c, r)
  {
    RecomputedChain(g, up, po, k, r, y);
    if c != r { assert InvAt(g, up, po, k, c); }
    assert HasEarlierPred(g, po, c);
    var p :| p in g.pred[c] && p in po && Num(po, c) < Num(po, p);
    ChainShrinks(g, up, po, k, r, y, p);
    ChainBounds(up, po, p);
  }

  lemma KeepsPassed(g: Graph, up: Up, po: Order, k: nat, r: Block, y: Block, c: Block)
    requires Recomputes(g, up, po, k, r, y) && c in up[r := y] && c != ENTRY && Num(po, r) <= Num(po, c)
    ensures Climbs(up[r := y], po) && Passed(g, up[r := y], po, c)
  {
    RecomputedChain(g, up, po, k, r, y);
    if c != r {
      assert InvAt(g, up, po, k, c);
      assert NumberedPair(po, c, r);
    }
    assert HasEarlierPred(g, po, c);
    forall p | p in g.pred[c] && p in up[r := y] && Num(po, c) < Num(po, p)
      ensures up[r := y][c] in Chain(up[r := y], po, p)
    {
      ChainShrinks(g, up, po, k, r, y, p);
      ChainBounds(up, po, p);
      if c == r {
        ChainBounds(up, po, y);
        assert Meets(g, up, po, r, y);
      }
    }
  }

  lemma KeepsPending(g: Graph, up: Up, po: Order, k: nat, r: Block, y: Block, c: Block)
    requires Recomputes(g, up, po, k, r, y) && c in up && c != ENTRY && Num(po, c) < Num(po, r)
    ensures Climbs(up[r := y], po) && up[c] in up && Pending(g, up[r := y], po, c, k - 1)
  {
    RecomputedChain(g, up, po, k, r, y);
    assert InvAt(g, up, po, k, c);
    var q := up[c];
    forall p | p in g.pred[c] && p in up && Num(po, c) < Num(po, p)
      ensures Tracks(up[r := y], po, q, p, k - 1)
    {
      assert Tracks(up, po, q, p, k);
      ChainShrinks(g, up, po, k, r, y, p);
      ChainShrinks(g, up, po, k, r, y, q);
    }
  }

  /** One re-computation keeps the invariant and only moves links upwards. */
  lemma RecomputeKeepsInv(g: Graph, up: Up, po: Order, k: nat, r: Block, y: Block)
    requires Recomputes(g, up, po, k, r, y)
    ensures Inv(g, up[r := y], po, k - 1)
    ensures r in up ==> Num(po, up[r]) <= Num(po, y)
  {
    RecomputedLinkClimbs(g, up, po, k, r, y);
    var up' := up[r := y];
    forall b {:trigger InvAt(g, up', po, k - 1, b)} | b in up' ensures InvAt(g, up', po, k - 1, b) {
      if b in up { assert InvAt(g, up, po, k, b); }
      KeepsSafe(g, up, po, k, r, y, b);
      if b != ENTRY {
        KeepsLow(g, up, po, k, r, y);
        KeepsLagging(g, up, po, k, r, y, b);
        if k - 1 <= Num(po, b) {
          KeepsPassed(g, up, po, k, r, y, b);
        } else {
          KeepsPending(g, up, po, k, r, y, b);
        }
      }
    }
    forall b | b in po && k - 1 <= Num(po, b) ensures b in up' {
      assert NumberedPair(po, b, r);
    }
  }

  /** A completed pass can be followed by another one. */
  lemma NextPass(g: Graph, up: Up, po: Order, k: nat)
    requires Inv(g, up, po, 0)
    ensures Inv(g, up, po, k)
  {
    forall b {:trigger InvAt(g, up, po, k, b)} | b in up ensures InvAt(g, up, po, k, b) {
      assert InvAt(g, up, po, 0, b);
      if b != ENTRY {
        forall p | p in g.pred[b] && p in up && Num(po, b) < Num(po, p)
          ensures Tracks(up, po, up[b], p, k)
        {
          ChainAbove(up, po, p, up[b]);
        }
      }
    }
  }

  lemma SkipEntry(g: Graph, up: Up, po: Order, k: nat)
    requires Inv(g, up, po, k) && Num(po, ENTRY) + 1 == k
    ensures Inv(g, up, po, k - 1)
  {
    forall b {:trigger InvAt(g, up, po, k - 1, b)} | b in up ensures InvAt(g, up, po, k - 1, b) {
      assert InvAt(g, up, po, k, b);
      assert NumberedPair(po, b, ENTRY);
      if b != ENTRY {
        forall p | p in g.pred[b] && p in up && Num(po, b) < Num(po, p)
          ensures Tracks(up, po, up[b], p, k - 1)
        {
          assert Tracks(up, po, up[b], p, k);
        }
      }
    }
    forall b | b in po && k - 1 <= Num(po, b) ensures b in up {
      assert NumberedPair(po, b, ENTRY);
    }
  }

  lemma StartInv(g: Graph, po: Order)
    requires Ordered(g, po)
    ensures Inv(g, map[ENTRY := ENTRY], po, Num(po, ENTRY) + 1)
  {
    var up: Up := map[ENTRY := ENTRY];
    var k := Num(po, ENTRY) + 1;
    assert Link(up, po, ENTRY);
    assert Climbs(up, po);
    SinglePath(g, ENTRY);
    assert Safe(g, up, po, ENTRY);
    assert InvAt(g, up, po, k, ENTRY);
    forall b | b in po ensures Num(po, b) < k {
      assert NumberedPair(po, b, ENTRY);
    }
  }

  // ----- what a pass without changes has computed -----

  /** Every link already is a common ancestor of the predecessors. */
  ghost predicate Stable(g: Graph, up: Up, po: Order) {
    Inv(g, up, po, 0) && forall b {:trigger up[b]} :: b in up && b != ENTRY ==> Meets(g, up, po, b, up[b])
  }

  /** The links are the dominator tree: chains are exactly the sets of dominators. */
  ghost predicate Exact(g: Graph, up: Up, po: Order) {
    && g.Valid() && Climbs(up, po)
    && (forall b :: b in up <==> Reachable(g, b))
    && (forall a, b :: b in up ==> (a in Chain(up, po, b) <==> Dominates(g, a, b)))
  }

  lemma {:induction false} StableChainOnPath(g: Graph, up: Up, po: Order, p: seq<Block>, b: Block)
    requires Stable(g, up, po) && PathFromTo(g, p, ENTRY, b)
    ensures b in up && forall x :: x in Chain(up, po, b) ==> x in p
    decreases |p|
  {
    assert Reachable(g, b);
    assert InvAt(g, up, po, 0, b);
    if b == ENTRY {
    } else {
      var q := p[..|p| - 1];
      var c := q[|q| - 1];
      assert Edge(g, p[|p| - 2], p[|p| - 1]);
      forall i | 0 <= i < |q| - 1 ensures Edge(g, q[i], q[i + 1]) {
        assert Edge(g, p[i], p[i + 1]);
      }
      StableChainOnPath(g, up, po, q, c);
      Step(up, po, b);
      assert Meets(g, up, po, b, up[b]);
      ChainAbove(up, po, c, up[b]);
    }
  }

  lemma StableIsExact(g: Graph, up: Up, po: Order)
    requires Stable(g, up, po)
    ensures Exact(g, up, po)
  {
    forall b | b in up ensures Reachable(g, b) { assert InvAt(g, up, po, 0, b); }
    forall a, b | b in up ensures a in Chain(up, po, b) <==> Dominates(g, a, b) {
      assert InvAt(g, up, po, 0, b);
      if a in Chain(up, po, b) {
        forall p | PathFromTo(g, p, ENTRY, b) ensures a in p {
          StableChainOnPath(g, up, po, p, b);
        }
      }
    }
  }

  /** The links of an exact tree are the immediate dominators. */
  lemma ExactLinks(g: Graph, up: Up, po: Order, b: Block)
    requires Exact(g, up, po) && b in up && b != ENTRY
    ensures ImmediatelyDominates(g, up[b], b) && up[b] in up
    ensures forall x :: StrictlyDominates(g, x, b) <==> x in Chain(up, po, up[b])
  {
    Step(up, po, b);
    ChainBounds(up, po, up[b]);
    forall c | StrictlyDominates(g, c, b) ensures Dominates(g, c, up[b]) {
      assert c in Chain(up, po, b);
    }
    assert up[b] in Chain(up, po, b);
    forall x ensures StrictlyDominates(g, x, b) <==> x in Chain(up, po, up[b]) {
      if x in Chain(up, po, up[b]) { assert x in Chain(up, po, b); }
    }
  }
}
