// What the frontier walks of the dominator analysis visit, and when they end.
module Frontier {
  import opened Cfg
  import opened IdomTree
  import opened IdomFixpoint
  import opened Wrappers

  /** The immediate dominator recorded for b; None is the null entry of an unreachable block. */
  function IdomOf(up: Up, b: Block): Option<Block> {
    if b in up then Some(up[b]) else None
  }

  /** Position of the frontier walk after k steps from p; null stays null. */
  function WalkAt(up: Up, p: Block, k: nat): Option<Block> {
    if k == 0 then Some(p)
    else match WalkAt(up, p, k - 1)
      case None => None
      case Some(q) => IdomOf(up, q)
  }

  /** The blocks the walk still passes before it stops. */
  ghost function Remaining(up: Up, po: Order, runner: Option<Block>, stop: Option<Block>): set<Block>
    requires Climbs(up, po)
  {
    match runner
    case None => {}
    case Some(q) =>
      if q in up && stop.Some? && stop.value in up then Chain(up, po, q) - Chain(up, po, stop.value) else {q}
  }

  /** The blocks a walk from p for block b passes before it stops at the link of b. */
  ghost function WalkSet(up: Up, po: Order, p: Block, b: Block): set<Block>
    requires Climbs(up, po)
  {
    Remaining(up, po, Some(p), IdomOf(up, b))
  }

  /** The walk is on its way to `stop`. */
  ghost predicate OnTrack(up: Up, po: Order, runner: Option<Block>, stop: Option<Block>)
    requires Climbs(up, po)
  {
    match runner
    case None => stop == None
    case Some(q) => if q in up then stop.Some? && stop.value in Chain(up, po, q) else stop == None
  }

  function WalkMeasure(po: Order, runner: Option<Block>): nat {
    match runner
    case None => 0
    case Some(q) => 1 + Below(po, q)
  }

  lemma WalkStep(up: Up, po: Order, runner: Option<Block>, stop: Option<Block>)
    requires Climbs(up, po) && OnTrack(up, po, runner, stop) && runner != stop
    ensures runner.Some? && OnTrack(up, po, IdomOf(up, runner.value), stop)
    ensures Remaining(up, po, runner, stop) == {runner.value} + Remaining(up, po, IdomOf(up, runner.value), stop)
    ensures WalkMeasure(po, IdomOf(up, runner.value)) < WalkMeasure(po, runner)
  {
    var q := runner.value;
    if q in up {
      Step(up, po, q);
      ChainBounds(up, po, q);
      ChainBounds(up, po, stop.value);
    }
  }

  /** b is recorded for x by one of the walks from the first m predecessors of b. */
  ghost predicate Walked(g: Graph, up: Up, po: Order, x: Block, b: Block, m: nat)
    requires Climbs(up, po) && b < |g.pred| && m <= |g.pred[b]|
  {
    2 <= |g.pred[b]| && exists j :: 0 <= j < m && x in WalkSet(up, po, g.pred[b][j], b)
  }

  /** b is recorded for x by the walks for the blocks before bb and the first m predecessors of bb. */
  ghost predicate WalkedUpTo(g: Graph, up: Up, po: Order, x: Block, b: Block, bb: Block, m: nat)
    requires Climbs(up, po)
  {
    && b < |g.pred|
    && ((b < bb && Walked(g, up, po, x, b, |g.pred[b]|))
        || (b == bb && m <= |g.pred[b]| && Walked(g, up, po, x, b, m)))
  }

  lemma WalkedMore(g: Graph, up: Up, po: Order, x: Block, b: Block, bb: Block, m: nat)
    requires Climbs(up, po) && bb < |g.pred| && 2 <= |g.pred[bb]| && m < |g.pred[bb]|
    ensures WalkedUpTo(g, up, po, x, b, bb, m + 1)
       <==> WalkedUpTo(g, up, po, x, b, bb, m) || (b == bb && x in WalkSet(up, po, g.pred[bb][m], bb))
  {
  }

  /** Every predecessor of a reachable join block is reachable. */
  ghost predicate JoinsReachable(g: Graph) {
    forall b, p :: 0 <= b < |g.pred| && 2 <= |g.pred[b]| && Reachable(g, b) && p in g.pred[b] ==> Reachable(g, p)
  }

  lemma {:induction false} ChainHasWalk(up: Up, po: Order, p: Block, x: Block) returns (k: nat)
    requires Climbs(up, po) && p in up && x in Chain(up, po, p)
    ensures WalkAt(up, p, k) == Some(x)
    decreases Below(po, p)
  {
    if x == p {
      k := 0;
    } else {
      Step(up, po, p);
      k := ChainHasWalk(up, po, up[p], x);
      WalkShift(up, p, k);
      k := k + 1;
    }
  }

  lemma {:induction false} WalkShift(up: Up, p: Block, k: nat)
    requires p in up
    ensures WalkAt(up, p, k + 1) == WalkAt(up, up[p], k)
  {
    if k > 0 { WalkShift(up, p, k - 1); }
  }

  lemma {:induction false} UnlinkedWalkIsNull(up: Up, p: Block, k: nat)
    requires p !in up && 0 < k
    ensures WalkAt(up, p, k) == None
  {
    if k > 1 { UnlinkedWalkIsNull(up, p, k - 1); }
  }

  /** The link of b lies on the chain of each reachable predecessor. */
  lemma LinkAbovePred(g: Graph, up: Up, po: Order, p: Block, b: Block)
    requires Exact(g, up, po) && Edge(g, p, b) && p in up && b in up
    ensures up[b] in up && up[b] in Chain(up, po, p)
  {
    ChainBounds(up, po, p);
    if b != ENTRY {
      ExactLinks(g, up, po, b);
      DominatesPred(g, up[b], p, b);
    }
  }

  lemma WalkStarts(g: Graph, up: Up, po: Order, p: Block, b: Block)
    requires Exact(g, up, po) && Edge(g, p, b) && (Reachable(g, b) ==> Reachable(g, p))
    ensures OnTrack(up, po, Some(p), IdomOf(up, b))
  {
    if p in up {
      ReachableStep(g, p, b);
      LinkAbovePred(g, up, po, p, b);
    }
  }

  /** The walk from p for b comes to the link of b. */
  ghost predicate WalkEnds(up: Up, p: Block, b: Block) {
    exists k :: WalkAt(up, p, k) == IdomOf(up, b)
  }

  /** A walk from predecessor p of b reaches the link of b if and only if
      p is reachable or b is not. */
  lemma WalkEndsIff(g: Graph, up: Up, po: Order, p: Block, b: Block)
    requires Exact(g, up, po) && Edge(g, p, b)
    ensures WalkEnds(up, p, b) <==> (Reachable(g, b) ==> Reachable(g, p))
  {
    if p in up {
      ReachableStep(g, p, b);
      LinkAbovePred(g, up, po, p, b);
      var k := ChainHasWalk(up, po, p, up[b]);
    } else if b !in up {
      UnlinkedWalkIsNull(up, p, 1);
      assert WalkAt(up, p, 1) == IdomOf(up, b);
      assert !Reachable(g, b);
    } else {
      assert Link(up, po, b);
      forall k ensures WalkAt(up, p, k) != IdomOf(up, b) {
        if k > 0 { UnlinkedWalkIsNull(up, p, k); }
      }
    }
  }

  /** The analysis ends, that is, all walks for all joins do, if and only if no reachable join has an
      unreachable predecessor. */
  lemma AllWalksEndIff(g: Graph, up: Up, po: Order)
    requires Exact(g, up, po)
    ensures (forall b, p {:trigger WalkEnds(up, p, b)} ::
              0 <= b < |g.pred| && 2 <= |g.pred[b]| && p in g.pred[b] ==> WalkEnds(up, p, b))
       <==> JoinsReachable(g)
  {
    hide WalkEnds;
    forall b, p | 0 <= b < |g.pred| && p in g.pred[b]
      ensures WalkEnds(up, p, b) <==> (Reachable(g, b) ==> Reachable(g, p))
    {
      WalkEndsIff(g, up, po, p, b);
    }
  }

  /** `while (a) { if (b) return 1; else return 2; }` as the IR generator lays it out:
      block 6, after the inner if, is unreachable but branches back to the loop test 1. */
  const RETURNING_LOOP := Graph(
    [[1], [3, 2], [5, 4], [], [], [], [1]],
    [[], [0, 6], [1], [1], [2], [2], []])

  lemma ReturningLoopWalkNeverEnds(up: Up, po: Order)
    requires Exact(RETURNING_LOOP, up, po)
    ensures RETURNING_LOOP.Valid() && !JoinsReachable(RETURNING_LOOP)
    ensures 6 in RETURNING_LOOP.pred[1] && forall k :: WalkAt(up, 6, k) != IdomOf(up, 1)
  {
    var g := RETURNING_LOOP;
    assert PathFromTo(g, [0, 1], ENTRY, 1);
    var s := {0, 1, 2, 3, 4, 5};
    forall x, y | x in s && Edge(g, x, y) ensures y in s {
      assert y in g.succ[x];
    }
    if Reachable(g, 6) {
      var p :| PathFromTo(g, p, ENTRY, 6);
      ClosedCoversPath(g, s, p, 6);
    }
    assert Edge(g, 6, 1);
    WalkEndsIff(g, up, po, 6, 1);
  }

  /** The walks compute the dominance frontier. */
  lemma WalksAreFrontier(g: Graph, up: Up, po: Order, x: Block, b: Block)
    requires Ordered(g, po) && Exact(g, up, po) && JoinsReachable(g)
    requires b < |g.pred| && Reachable(g, b) && (b == ENTRY ==> g.pred[b] == [])
    ensures Walked(g, up, po, x, b, |g.pred[b]|) <==> InFrontier(g, x, b)
  {
    var preds := g.pred[b];
    if b != ENTRY {
      ExactLinks(g, up, po, b);
      if 2 <= |preds| {
        forall j | 0 <= j < |preds|
          ensures x in WalkSet(up, po, preds[j], b) <==> Dominates(g, x, preds[j]) && !StrictlyDominates(g, x, b)
        {
          assert preds[j] in g.pred[b];
        }
      } else {
        OnlyPredDominates(g, up, po, b);
        forall p | p in preds && Dominates(g, x, p) ensures StrictlyDominates(g, x, b) {
          ChainAbove(up, po, up[b], p);
        }
      }
    }
  }

  /** The only predecessor of a block is a strict dominator of it. */
  lemma OnlyPredDominates(g: Graph, up: Up, po: Order, b: Block)
    requires Ordered(g, po) && Exact(g, up, po) && b in up && b != ENTRY && |g.pred[b]| < 2
    ensures up[b] in up && forall p :: p in g.pred[b] ==> p in Chain(up, po, up[b])
  {
    assert Link(up, po, b);
    assert HasEarlierPred(g, po, b);
    ExactLinks(g, up, po, b);
    forall p | p in g.pred[b] ensures p in Chain(up, po, up[b]) {
      forall q | PathFromTo(g, q, ENTRY, b) ensures p in q {
        assert Edge(g, q[|q| - 2], q[|q| - 1]);
      }
    }
  }
}
