// The dominator analysis of one function: post-order numbering, immediate
// dominators, dominance frontiers and dominator-tree children.
module DominatorAnalysis {
  import opened Cfg
  import opened IdomTree
  import opened IdomFixpoint
  import opened Wrappers
  import opened Frontier

  // ----- the depth-first numbering -----

  /** Numbers are positions in the finishing order. */
  ghost predicate Listed(order: seq<Block>, po: Order) {
    && (forall i :: 0 <= i < |order| ==> order[i] in po && po[order[i]] == i)
    && (forall b :: b in po ==> po[b] < |order| && order[po[b]] == b)
  }

  /** b has a predecessor that is still open or was finished after b. */
  ghost predicate HasParent(g: Graph, po: Order, visited: set<Block>, b: Block) {
    b < |g.pred| && exists p :: p in g.pred[b] && p in visited && (p !in po || (b in po && po[b] < po[p]))
  }

  /** The state of a depth-first search in which `visited - po.Keys` are the open blocks. */
  ghost predicate Searching(g: Graph, order: seq<Block>, po: Order, visited: set<Block>) {
    && g.Valid() && Listed(order, po) && po.Keys <= visited
    && (forall b :: b in visited ==> b < g.Size() && Reachable(g, b))
    && (forall a, b :: a in po && Edge(g, a, b) ==> b in visited)
    && (forall b {:trigger HasParent(g, po, visited, b)} :: b in po && b != ENTRY ==> HasParent(g, po, visited, b))
  }

  function UpTo(n: nat): (s: set<Block>)
    ensures forall b: nat :: b in s <==> b < n
  {
    if n == 0 then {} else UpTo(n - 1) + {n - 1}
  }

  /** Finishing bb, all of whose successors have been visited, keeps the search state. */
  lemma FinishKeepsSearching(g: Graph, order: seq<Block>, po: Order, visited: set<Block>, bb: Block)
    requires Searching(g, order, po, visited) && bb in visited && bb !in po
    requires forall b :: Edge(g, bb, b) ==> b in visited
    requires bb == ENTRY || exists p :: p in g.pred[bb] && p != bb && p in visited && p !in po
    ensures Searching(g, order + [bb], po[bb := |order|], visited)
  {
    var po' := po[bb := |order|];
    forall b {:trigger HasParent(g, po', visited, b)} | b in po' && b != ENTRY
      ensures HasParent(g, po', visited, b)
    {
      if b in po { assert HasParent(g, po, visited, b); }
    }
  }

  lemma FinishedSearchIsOrdered(g: Graph, order: seq<Block>, po: Order, visited: set<Block>)
    requires Searching(g, order, po, visited) && visited == po.Keys
    requires ENTRY in po && po[ENTRY] == |order| - 1
    ensures Ordered(g, po)
  {
    forall a, b {:trigger NumberedPair(po, a, b)} | a in po && b in po ensures NumberedPair(po, a, b) {}
    forall b ensures b in po <==> Reachable(g, b) {
      if Reachable(g, b) {
        var p :| PathFromTo(g, p, ENTRY, b);
        ClosedCoversPath(g, po.Keys, p, b);
      }
    }
    forall b {:trigger HasEarlierPred(g, po, b)} | b in po && b != ENTRY ensures HasEarlierPred(g, po, b) {
      assert HasParent(g, po, visited, b);
    }
  }

  function Reversed(s: seq<Block>): (r: seq<Block>)
    ensures |r| == |s| && forall i :: 0 <= i < |s| ==> r[i] == s[|s| - 1 - i]
  {
    seq(|s|, i requires 0 <= i < |s| => s[|s| - 1 - i])
  }

  // ----- termination of the outer loop -----

  /** The pairs (b, x) by which the links can still move up. */
  ghost function Slack(up: Up, po: Order): set<(Block, Block)> {
    set b, x | b in po && x in po && (b !in up || Num(po, up[b]) < Num(po, x)) :: (b, x)
  }

  lemma SlackShrinks(g: Graph, up: Up, po: Order, k: nat, r: Block, y: Block)
    requires Recomputes(g, up, po, k, r, y) && (r !in up || up[r] != y)
    ensures Slack(up[r := y], po) < Slack(up, po)
  {
    RecomputeKeepsInv(g, up, po, k, r, y);
    assert Link(up, po, y);
    if r in up {
      assert Link(up, po, r);
      assert NumberedPair(po, up[r], y);
    }
    assert (r, y) in Slack(up, po) && (r, y) !in Slack(up[r := y], po);
    forall q | q in Slack(up[r := y], po) ensures q in Slack(up, po) {}
  }

  /** The links of the blocks numbered k and above are common ancestors of their predecessors. */
  ghost predicate StableFrom(g: Graph, up: Up, po: Order, k: nat)
    requires Climbs(up, po)
  {
    forall b {:trigger up[b]} :: b in up && b != ENTRY && k <= Num(po, b) ==> Meets(g, up, po, b, up[b])
  }

  /** One iteration of the inner loop: either a link moves, or one more block is stable. */
  lemma PassStep(g: Graph, up: Up, po: Order, k: nat, r: Block, y: Block)
    requires Recomputes(g, up, po, k, r, y)
    ensures Inv(g, up[r := y], po, k - 1)
    ensures r !in up || up[r] != y ==> Slack(up[r := y], po) < Slack(up, po)
    ensures r in up && up[r] == y ==>
              up[r := y] == up && (StableFrom(g, up, po, k) ==> StableFrom(g, up, po, k - 1))
  {
    RecomputeKeepsInv(g, up, po, k, r, y);
    if r !in up || up[r] != y {
      SlackShrinks(g, up, po, k, r, y);
    } else {
      assert up[r := y] == up;
      ChainBounds(up, po, y);
      if StableFrom(g, up, po, k) {
        forall b {:trigger up[b]} | b in up && b != ENTRY && k - 1 <= Num(po, b)
          ensures Meets(g, up, po, b, up[b])
        {
          assert Link(up, po, b);
          assert NumberedPair(po, b, r);
        }
      }
    }
  }

  /** The entry is passed over. */
  lemma SkipStep(g: Graph, up: Up, po: Order, k: nat)
    requires Inv(g, up, po, k) && Num(po, ENTRY) + 1 == k
    ensures Inv(g, up, po, k - 1)
    ensures StableFrom(g, up, po, k - 1)
  {
    SkipEntry(g, up, po, k);
    forall b | b in up && b != ENTRY ensures Num(po, b) < k - 1 {
      assert Link(up, po, b);
      assert NumberedPair(po, b, ENTRY);
    }
  }

  lemma StableNow(g: Graph, up: Up, po: Order)
    requires Inv(g, up, po, 0) && StableFrom(g, up, po, 0)
    ensures Stable(g, up, po)
  {
  }

  /** The set stored for b; a missing key reads as the empty set. */
  function Entries(m: map<Block, set<Block>>, b: Block): set<Block> {
    if b in m then m[b] else {}
  }

  /** The frontier entries made for blocks below bb and the first m predecessors of bb. */
  ghost predicate FrontierDone(g: Graph, up: Up, po: Order, df: map<Block, set<Block>>, bb: Block, m: nat)
    requires Climbs(up, po)
  {
    forall x: Block, b: Block :: b in Entries(df, x) <==> WalkedUpTo(g, up, po, x, b, bb, m)
  }

  lemma FrontierWalked(g: Graph, up: Up, po: Order, df: map<Block, set<Block>>, df': map<Block, set<Block>>,
                       bb: Block, j: nat)
    requires Climbs(up, po) && bb < |g.pred| && 2 <= |g.pred[bb]| && j < |g.pred[bb]|
    requires FrontierDone(g, up, po, df, bb, j)
    requires forall x :: Entries(df', x)
               == Entries(df, x) + if x in WalkSet(up, po, g.pred[bb][j], bb) then {bb} else {}
    ensures FrontierDone(g, up, po, df', bb, j + 1)
  {
    forall x: Block, b: Block
      ensures b in Entries(df', x) <==> WalkedUpTo(g, up, po, x, b, bb, j + 1)
    {
      WalkedMore(g, up, po, x, b, bb, j);
      assert b in Entries(df, x) <==> WalkedUpTo(g, up, po, x, b, bb, j);
    }
  }

  /** b hangs below x in the tree of links. */
  predicate TreeChild(up: Up, x: Block, b: Block) {
    b in up && up[b] == x && x != b
  }

  class Dominators {
    const g: Graph
    var reversePostOrder: seq<Block>
    var postOrderId: Order          // the entry has the highest number
    var idom: Up                    // an absent key is a null entry
    var domFrontier: map<Block, set<Block>>
    var domTreeSucc: map<Block, set<Block>>

    constructor (g: Graph)
      requires g.Valid()
      ensures this.g == g
    {
      this.g := g;
      reversePostOrder, postOrderId, idom := [], map[], map[];
      domFrontier, domTreeSucc := map[], map[];
    }

    method PostOrderVisit(bb: Block, visited: set<Block>) returns (visited': set<Block>)
      requires Searching(g, reversePostOrder, postOrderId, visited)
      requires bb < g.Size() && bb !in visited && Reachable(g, bb)
      requires bb == ENTRY || exists p :: p in g.pred[bb] && p in visited && p !in postOrderId
      modifies this`reversePostOrder, this`postOrderId
      ensures Searching(g, reversePostOrder, postOrderId, visited')
      ensures visited <= visited' && visited' - postOrderId.Keys == visited - old(postOrderId).Keys
      ensures old(postOrderId).Keys <= postOrderId.Keys
      ensures bb in postOrderId && postOrderId[bb] == |reversePostOrder| - 1
      decreases UpTo(g.Size()) - visited
    {
      visited' := visited + {bb};
      assert visited' - postOrderId.Keys == visited - old(postOrderId).Keys + {bb};
      ghost var v0 := visited';
      forall b {:trigger HasParent(g, postOrderId, visited', b)} | b in postOrderId && b != ENTRY
        ensures HasParent(g, postOrderId, visited', b)
      {
        assert HasParent(g, postOrderId, visited, b);
      }
      for i := 0 to |g.succ[bb]|
        invariant Searching(g, reversePostOrder, postOrderId, visited')
        invariant v0 <= visited' && bb in visited' && bb !in postOrderId
        invariant visited' - postOrderId.Keys == visited - old(postOrderId).Keys + {bb}
        invariant old(postOrderId).Keys <= postOrderId.Keys
        invariant forall j :: 0 <= j < i ==> g.succ[bb][j] in visited'
      {
        var b := g.succ[bb][i];
        if b !in visited' {
          assert Edge(g, bb, b);
          ReachableStep(g, bb, b);
          assert bb in UpTo(g.Size());
          visited' := PostOrderVisit(b, visited');
          assert bb in visited - old(postOrderId).Keys + {bb};
        }
      }
      FinishKeepsSearching(g, reversePostOrder, postOrderId, visited', bb);
      postOrderId := postOrderId[bb := |reversePostOrder|];
      reversePostOrder := reversePostOrder + [bb];
    }

    method CreateReversePostOrder()
      requires g.Valid()
      modifies this`reversePostOrder, this`postOrderId
      ensures Ordered(g, postOrderId) && Listed(Reversed(reversePostOrder), postOrderId)
    {
      reversePostOrder, postOrderId := [], map[];
      EntryReachable(g);
      var visited := PostOrderVisit(ENTRY, {});
      assert forall b :: b in visited ==> b in visited - postOrderId.Keys || b in postOrderId.Keys;
      assert visited == postOrderId.Keys;
      FinishedSearchIsOrdered(g, reversePostOrder, postOrderId, visited);
      ghost var order := reversePostOrder;
      reversePostOrder := Reversed(reversePostOrder);
      assert Reversed(reversePostOrder) == order;
    }

    ghost function Common(a: Block, b: Block): set<Block>
      reads this
      requires Climbs(idom, postOrderId) && a in idom && b in idom
    {
      set x | x in Chain(idom, postOrderId, a) && x in Chain(idom, postOrderId, b)
    }

    /** The closest common parent of b1 and b2. */
    method Intersect(b1: Block, b2: Block) returns (b: Block)
      requires Climbs(idom, postOrderId) && b1 in idom && b2 in idom
      ensures b in idom
      ensures Chain(idom, postOrderId, b) == Common(b1, b2)
    {
      var c1, c2 := b1, b2;
      while c1 != c2
        invariant c1 in idom && c2 in idom
        invariant Common(c1, c2) == Common(b1, b2)
        decreases Below(postOrderId, c1) + Below(postOrderId, c2)
      {
        ghost var before := Below(postOrderId, c1) + Below(postOrderId, c2);
        ghost var d1, d2 := c1, c2;
        Distinct(c1, c2);
        while postOrderId[c1] < postOrderId[c2]
          invariant c1 in idom && c2 in idom && c1 in postOrderId && c2 in postOrderId
          invariant Common(c1, c2) == Common(b1, b2)
          invariant Below(postOrderId, c1) <= Below(postOrderId, d1)
          invariant c1 == d1 || Below(postOrderId, c1) < Below(postOrderId, d1)
          decreases Below(postOrderId, c1)
        {
          ClimbKeepsCommon(c1, c2);
          c1 := idom[c1];
          assert Link(idom, postOrderId, c1);
        }
        while postOrderId[c2] < postOrderId[c1]
          invariant c1 in idom && c2 in idom && c1 in postOrderId && c2 in postOrderId
          invariant Common(c1, c2) == Common(b1, b2)
          invariant Below(postOrderId, c2) <= Below(postOrderId, d2)
          invariant c2 == d2 || Below(postOrderId, c2) < Below(postOrderId, d2)
          decreases Below(postOrderId, c2)
        {
          ClimbKeepsCommon(c2, c1);
          c2 := idom[c2];
          assert Link(idom, postOrderId, c2);
        }
      }
      b := c1;
    }

    lemma Distinct(a: Block, b: Block)
      requires Climbs(idom, postOrderId) && a in idom && b in idom && a != b
      ensures a in postOrderId && b in postOrderId && postOrderId[a] != postOrderId[b]
    {
      assert Link(idom, postOrderId, a) && Link(idom, postOrderId, b);
      assert NumberedPair(postOrderId, a, b);
    }

    /** The lower of two blocks is on no chain of the other, so climbing from it loses nothing. */
    lemma ClimbKeepsCommon(a: Block, b: Block)
      requires Climbs(idom, postOrderId) && a in idom && b in idom
      requires Num(postOrderId, a) < Num(postOrderId, b)
      ensures a != ENTRY && idom[a] in idom && Below(postOrderId, idom[a]) < Below(postOrderId, a)
      ensures forall x :: x in Chain(idom, postOrderId, b) ==>
                (x in Chain(idom, postOrderId, idom[a]) <==> x in Chain(idom, postOrderId, a))
    {
      assert Link(idom, postOrderId, b);
      assert NumberedPair(postOrderId, b, b);
      Step(idom, postOrderId, a);
      ChainBounds(idom, postOrderId, b);
    }

    method CreateIdom()
      requires Ordered(g, postOrderId) && Listed(Reversed(reversePostOrder), postOrderId)
      modifies this`idom
      ensures Exact(g, idom, postOrderId)
    {
      var root := ENTRY;
      idom := map[root := root];
      StartInv(g, postOrderId);
      EntryLast();
      var changed := true;
      while changed
        invariant Inv(g, idom, postOrderId, |reversePostOrder|)
        invariant !changed ==> Stable(g, idom, postOrderId)
        decreases Slack(idom, postOrderId), changed
      {
        changed := IdomPass(root);
        NextPass(g, idom, postOrderId, |reversePostOrder|);
      }
      StableIsExact(g, idom, postOrderId);
    }

    /** One round over the reverse post-order. */
    method IdomPass(root: Block) returns (changed: bool)
      requires root == ENTRY && Listed(Reversed(reversePostOrder), postOrderId)
      requires Inv(g, idom, postOrderId, |reversePostOrder|)
      modifies this`idom
      ensures Inv(g, idom, postOrderId, 0)
      ensures changed ==> Slack(idom, postOrderId) < Slack(old(idom), postOrderId)
      ensures !changed ==> idom == old(idom) && Stable(g, idom, postOrderId)
    {
      hide InvAt, StableFrom, Stable, Slack, NumberedPair, Link, HasEarlierPred, Reachable, Meets;
      changed := false;
      EntryLast();
      var n := |reversePostOrder|;
      AllBelow(n);
      for i := 0 to n
        invariant Inv(g, idom, postOrderId, n - i)
        invariant if changed then Slack(idom, postOrderId) < Slack(old(idom), postOrderId) else idom == old(idom)
        invariant !changed ==> StableFrom(g, idom, postOrderId, n - i)
      {
        var bb := reversePostOrder[i];
        NumberAt(i);
        if bb == root {
          SkipStep(g, idom, postOrderId, n - i);
        } else {
          var newIdom := NewIdom(bb, n - i);
          PassStep(g, idom, postOrderId, n - i, bb, newIdom);
          if bb !in idom || idom[bb] != newIdom {
            idom := idom[bb := newIdom];
            changed := true;
          }
        }
      }
      if !changed {
        StableNow(g, idom, postOrderId);
      }
    }

    lemma NumberAt(i: nat)
      requires Listed(Reversed(reversePostOrder), postOrderId) && i < |reversePostOrder|
      ensures reversePostOrder[i] in postOrderId
      ensures Num(postOrderId, reversePostOrder[i]) == |reversePostOrder| - 1 - i
    {
      assert Reversed(reversePostOrder)[|reversePostOrder| - 1 - i] == reversePostOrder[i];
    }

    lemma AllBelow(n: nat)
      requires Listed(Reversed(reversePostOrder), postOrderId) && n == |reversePostOrder|
      requires Inv(g, idom, postOrderId, n)
      ensures StableFrom(g, idom, postOrderId, n)
    {
      forall b {:trigger idom[b]} | b in idom ensures Num(postOrderId, b) < n {
        assert Link(idom, postOrderId, b);
      }
    }

    lemma EntryLast()
      requires Ordered(g, postOrderId) && Listed(Reversed(reversePostOrder), postOrderId)
      ensures Num(postOrderId, ENTRY) + 1 == |reversePostOrder|
    {
      var order := Reversed(reversePostOrder);
      var last := order[|order| - 1];
      assert NumberedPair(postOrderId, last, ENTRY);
    }

    /** Intersects the predecessors of bb that already have a link, starting from the first. */
    method NewIdom(bb: Block, ghost k: nat) returns (newIdom: Block)
      requires Inv(g, idom, postOrderId, k)
      requires bb in postOrderId && bb != ENTRY && Num(postOrderId, bb) + 1 == k
      ensures Recomputes(g, idom, postOrderId, k, bb, newIdom)
    {
      assert HasEarlierPred(g, postOrderId, bb);
      var preds := g.pred[bb];
      // the first predecessor that has a link; the search never runs off the list
      var i := 0;
      while preds[i] !in idom
        invariant 0 <= i < |preds|
        invariant exists m :: i <= m < |preds| && preds[m] in idom
        decreases |preds| - i
      {
        i := i + 1;
      }
      var pred := preds[i];
      newIdom := pred;
      for j := 0 to |preds|
        invariant newIdom in idom
        invariant forall x :: x in Chain(idom, postOrderId, newIdom) <==>
                    x in Chain(idom, postOrderId, pred)
                    && forall m :: 0 <= m < j && preds[m] in idom ==> x in Chain(idom, postOrderId, preds[m])
      {
        var p := preds[j];
        if p != pred && p in idom {
          newIdom := Intersect(p, newIdom);
        }
      }
      forall x ensures Meets(g, idom, postOrderId, bb, x) <==> x in Chain(idom, postOrderId, newIdom) {
        ChainBounds(idom, postOrderId, newIdom);
      }
    }

    method AddDominanceFrontier(b: Block, frontierBlock: Block)
      modifies this`domFrontier
      ensures forall x :: Entries(domFrontier, x)
                == Entries(old(domFrontier), x) + if x == b then {frontierBlock} else {}
    {
      domFrontier := domFrontier[b := Entries(domFrontier, b) + {frontierBlock}];
    }

    method CreateDominanceFrontier()
      requires Exact(g, idom, postOrderId) && JoinsReachable(g) && domFrontier == map[]
      modifies this`domFrontier
      ensures FrontierDone(g, idom, postOrderId, domFrontier, |g.pred|, 0)
    {
      for bb := 0 to |g.pred|
        invariant FrontierDone(g, idom, postOrderId, domFrontier, bb, 0)
      {
        if |g.pred[bb]| >= 2 {
          for j := 0 to |g.pred[bb]|
            invariant FrontierDone(g, idom, postOrderId, domFrontier, bb, j)
          {
            ghost var before := domFrontier;
            var p := g.pred[bb][j];
            assert p in g.pred[bb] && Edge(g, p, bb);
            Walk(p, bb);
            FrontierWalked(g, idom, postOrderId, before, domFrontier, bb, j);
          }
        }
        forall x: Block, b: Block
          ensures b in Entries(domFrontier, x) <==> WalkedUpTo(g, idom, postOrderId, x, b, bb + 1, 0)
        {
          assert b in Entries(domFrontier, x) <==>
            WalkedUpTo(g, idom, postOrderId, x, b, bb, if |g.pred[bb]| >= 2 then |g.pred[bb]| else 0);
        }
      }
    }

    /** The runner of the frontier computation, from predecessor p of bb up to the link of bb. */
    method Walk(p: Block, bb: Block)
      requires Exact(g, idom, postOrderId) && Edge(g, p, bb) && (Reachable(g, bb) ==> Reachable(g, p))
      modifies this`domFrontier
      ensures forall x :: Entries(domFrontier, x) == Entries(old(domFrontier), x)
                + if x in WalkSet(idom, postOrderId, p, bb) then {bb} else {}
    {
      var runner := Some(p);
      var stop := IdomOf(idom, bb);
      WalkStarts(g, idom, postOrderId, p, bb);
      ghost var seen: set<Block> := {};
      while runner != stop
        invariant OnTrack(idom, postOrderId, runner, stop)
        invariant WalkSet(idom, postOrderId, p, bb) == seen + Remaining(idom, postOrderId, runner, stop)
        invariant forall x :: Entries(domFrontier, x)
                   == Entries(old(domFrontier), x) + if x in seen then {bb} else {}
        decreases WalkMeasure(postOrderId, runner)
      {
        WalkStep(idom, postOrderId, runner, stop);
        AddDominanceFrontier(runner.value, bb);
        seen := seen + {runner.value};
        runner := IdomOf(idom, runner.value);
      }
      assert WalkSet(idom, postOrderId, p, bb) == seen;
    }

    /** Unreachable blocks go under the null key of the original, which nothing reads. */
    method CreateDomTreeSucc()
      requires domTreeSucc == map[]
      modifies this`domTreeSucc
      ensures forall x: Block, b: Block :: b in Entries(domTreeSucc, x) <==> b < |g.pred| && TreeChild(idom, x, b)
    {
      for bb := 0 to |g.pred|
        invariant forall x: Block, b: Block :: b in Entries(domTreeSucc, x) <==> b < bb && TreeChild(idom, x, b)
      {
        if bb in idom && idom[bb] != bb {
          domTreeSucc := domTreeSucc[idom[bb] := Entries(domTreeSucc, idom[bb]) + {bb}];
        }
      }
    }

    /** The whole analysis: immediate dominators, the dominator tree and the dominance
        frontiers are those defined by paths. */
    method Run()
      requires g.Valid() && JoinsReachable(g)
      modifies this
      ensures forall b :: b in idom <==> Reachable(g, b)
      ensures ENTRY in idom && idom[ENTRY] == ENTRY
      ensures forall b :: b in idom && b != ENTRY ==> ImmediatelyDominates(g, idom[b], b)
      ensures forall x: Block, b: Block :: b in Entries(domTreeSucc, x) <==> Reachable(g, b) && b != ENTRY && idom[b] == x
      ensures forall x: Block, b: Block :: b < |g.pred| && Reachable(g, b) && (b == ENTRY ==> g.pred[b] == []) ==>
                (b in Entries(domFrontier, x) <==> InFrontier(g, x, b))
      ensures forall x: Block, b: Block :: b in Entries(domFrontier, x) ==> b < |g.pred|
      ensures Ordered(g, postOrderId) && Exact(g, idom, postOrderId)
    {
      idom, domFrontier, domTreeSucc := map[], map[], map[];
      CreateReversePostOrder();
      CreateIdom();
      CreateDominanceFrontier();
      CreateDomTreeSucc();
      forall b | b in idom && b != ENTRY ensures ImmediatelyDominates(g, idom[b], b) {
        ExactLinks(g, idom, postOrderId, b);
      }
      forall x: Block, b: Block | b < |g.pred| && Reachable(g, b) && (b == ENTRY ==> g.pred[b] == [])
        ensures b in Entries(domFrontier, x) <==> InFrontier(g, x, b)
      {
        WalksAreFrontier(g, idom, postOrderId, x, b);
      }
    }
  }
}
