// When renaming reads a stack that exists but is empty: stated by paths and dominance
// frontiers, for every order in which the dominator tree can be traversed.
module EmptyStacks {
  import opened Cfg
  import opened IdomTree
  import opened IdomFixpoint
  import opened IR
  import opened PhiPlacement

  // ----- what has a value where -----

  /** Steps from a reachable block to a reachable member of its dominance frontier. */
  ghost predicate FrontierSteps(g: Graph, p: seq<Block>)
    requires g.Valid()
  {
    forall i :: 0 <= i < |p| - 1 ==> FrontierStep(g, p[i], p[i + 1])
  }

  ghost predicate FrontierStep(g: Graph, a: Block, b: Block)
    requires g.Valid()
  {
    b < |g.pred| && Reachable(g, a) && Reachable(g, b) && InFrontier(g, a, b)
  }

  ghost predicate StoresIn(f: Function, b: Block, v: nat) {
    b < |f.blocks| && Stores(f.blocks[b].instrs, v)
  }

  /** b is in the iterated dominance frontier of the blocks that store v. */
  ghost predicate NeedsPhi(f: Function, g: Graph, b: Block, v: nat)
    requires g.Valid()
  {
    exists p :: 2 <= |p| && FrontierSteps(g, p) && StoresIn(f, p[0], v) && p[|p| - 1] == b
  }

  /** Renaming pushes a value for v in block b. */
  ghost predicate Assigns(f: Function, g: Graph, b: Block, v: nat)
    requires g.Valid()
  {
    StoresIn(f, b, v) || NeedsPhi(f, g, b, v)
  }

  ghost predicate ValueAtEnd(f: Function, g: Graph, b: Block, v: nat)
    requires g.Valid()
  {
    exists d :: Dominates(g, d, b) && Assigns(f, g, d, v)
  }

  /** v has a value after the phis of b. */
  ghost predicate ValueAtStart(f: Function, g: Graph, b: Block, v: nat)
    requires g.Valid()
  {
    NeedsPhi(f, g, b, v) || exists d :: StrictlyDominates(g, d, b) && Assigns(f, g, d, v)
  }

  /** Position k of b loads v, which has no value there. */
  ghost predicate LoadsUndefined(f: Function, g: Graph, b: Block, k: nat, v: nat)
    requires g.Valid()
  {
    && b < |f.blocks| && k < |f.blocks[b].instrs|
    && f.blocks[b].instrs[k].Load? && f.blocks[b].instrs[k].addr == Local(v)
    && !Stores(f.blocks[b].instrs[..k], v) && !ValueAtStart(f, g, b, v)
  }

  /** The edge p -> b hands a phi of v no value. */
  ghost predicate HandsUndefined(f: Function, g: Graph, p: Block, b: Block, v: nat)
    requires g.Valid()
  {
    Edge(g, p, b) && NeedsPhi(f, g, b, v) && !ValueAtEnd(f, g, p, v)
  }

  /** Renaming block b looks for a value of v that no dominator has defined. */
  ghost predicate ReadsUndefined(f: Function, g: Graph, b: Block, v: nat)
    requires g.Valid()
  {
    (exists k: nat :: LoadsUndefined(f, g, b, k, v)) || (exists s :: HandsUndefined(f, g, b, s, v))
  }

  // ----- traversals of the dominator tree -----

  /** `order` visits the subtree of b: b first, then the subtrees of its children one after the other. */
  ghost predicate Preorder(up: Up, b: Block, order: seq<Block>)
    decreases |order|, 0
  {
    order != [] && order[0] == b && Forest(up, Kids(up, b), order[1..])
  }

  /** `order` visits the subtrees of the roots, in any order. */
  ghost predicate Forest(up: Up, roots: set<Block>, order: seq<Block>)
    decreases |order|, 1
  {
    if roots == {} then order == []
    else exists c: Block, n: nat {:trigger Last(up, roots, order, c, n)} ::
      Last(up, roots, order, c, n) && Forest(up, roots - {c}, order[..n]) && Preorder(up, c, order[n..])
  }

  ghost predicate Last(up: Up, roots: set<Block>, order: seq<Block>, c: Block, n: nat) {
    c in roots && n < |order|
  }

  /** On this traversal some block reads an empty stack: the stack exists because an earlier
      block pushed on it, and it is empty because no dominator did. */
  ghost predicate FailsOn(f: Function, g: Graph, order: seq<Block>)
    requires g.Valid()
  {
    exists i, j, v :: 0 <= j < i < |order| && ReadsUndefined(f, g, order[i], v) && Assigns(f, g, order[j], v)
  }

  /** The exact condition under which some traversal fails. */
  ghost predicate MayFail(f: Function, g: Graph)
    requires g.Valid()
  {
    exists p, x, v :: Reachable(g, p) && ReadsUndefined(f, g, p, v)
                   && Reachable(g, x) && Assigns(f, g, x, v) && !Dominates(g, p, x)
  }

  // ----- what a traversal visits, and in which order -----

  /** Every block of the subtree of b, and none before one of its dominators. */
  ghost predicate Spans(up: Up, po: Order, roots: set<Block>, order: seq<Block>)
    requires Climbs(up, po)
  {
    && (forall x :: x in order <==> Under(up, po, roots, x))
    && (forall i, j :: 0 <= j < i < |order| ==> !AboveOf(up, po, order[i], order[j]))
  }

  /** x is in the subtree of one of the roots. */
  ghost predicate Under(up: Up, po: Order, roots: set<Block>, x: Block)
    requires Climbs(up, po)
  {
    exists c :: c in roots && AboveOf(up, po, c, x)
  }

  ghost predicate AboveOf(up: Up, po: Order, c: Block, x: Block)
    requires Climbs(up, po)
  {
    x in up && c in Chain(up, po, x)
  }

  lemma KidFacts(up: Up, po: Order, b: Block, c: Block)
    requires Climbs(up, po) && c in Kids(up, b)
    ensures b in up && Num(po, c) < Num(po, b) && !AboveOf(up, po, c, b) && AboveOf(up, po, c, c)
    ensures Chain(up, po, c) == {c} + Chain(up, po, b)
  {
    Step(up, po, c);
    ChainBounds(up, po, c);
    ChainBounds(up, po, b);
  }

  lemma AboveTransitive(up: Up, po: Order, a: Block, b: Block, c: Block)
    requires Climbs(up, po) && AboveOf(up, po, a, b) && AboveOf(up, po, b, c)
    ensures AboveOf(up, po, a, c)
  {
    ChainAbove(up, po, c, b);
  }

  /** The subtrees of two children of a block have nothing in common. */
  lemma KidsApart(up: Up, po: Order, b: Block, c: Block, d: Block, x: Block)
    requires Climbs(up, po) && c in Kids(up, b) && d in Kids(up, b)
    requires AboveOf(up, po, c, x) && AboveOf(up, po, d, x)
    ensures c == d
  {
    KidFacts(up, po, b, c);
    KidFacts(up, po, b, d);
    ChainBounds(up, po, b);
    ChainAbove(up, po, x, c);
    ChainAbove(up, po, x, d);
  }

  /** Below b is b itself and what is below its children. */
  lemma {:induction false} UnderKids(up: Up, po: Order, b: Block, x: Block)
    requires Climbs(up, po) && b in up
    ensures AboveOf(up, po, b, x) <==> x == b || Under(up, po, Kids(up, b), x)
    decreases Below(po, x)
  {
    ChainBounds(up, po, b);
    if AboveOf(up, po, b, x) && x != b {
      ChainBounds(up, po, x);
      assert Chain(up, po, ENTRY) == {ENTRY};
      Step(up, po, x);
      if up[x] == b {
        assert AboveOf(up, po, x, x);
      } else {
        UnderKids(up, po, b, up[x]);
        var c :| c in Kids(up, b) && AboveOf(up, po, c, up[x]);
        assert AboveOf(up, po, c, x);
      }
    }
    if c :| c in Kids(up, b) && AboveOf(up, po, c, x) {
      KidFacts(up, po, b, c);
      AboveTransitive(up, po, b, c, x);
    }
  }

  lemma {:induction false} PreorderSpans(up: Up, po: Order, b: Block, order: seq<Block>)
    requires Climbs(up, po) && b in up && Preorder(up, b, order)
    ensures Spans(up, po, {b}, order)
    decreases |order|, 0
  {
    hide Chain, Climbs;
    var rest := order[1..];
    ForestSpans(up, po, b, Kids(up, b), rest);
    assert order == [b] + rest;
    forall x ensures x in order <==> Under(up, po, {b}, x) {
      UnderKids(up, po, b, x);
      assert Under(up, po, {b}, x) <==> AboveOf(up, po, b, x);
    }
    forall i, j | 0 <= j < i < |order| ensures !AboveOf(up, po, order[i], order[j]) {
      if j > 0 {
        assert order[i] == rest[i - 1] && order[j] == rest[j - 1];
      } else if AboveOf(up, po, order[i], b) {
        assert order[i] == rest[i - 1] && rest[i - 1] in rest;
        var c :| c in Kids(up, b) && AboveOf(up, po, c, order[i]);
        AboveTransitive(up, po, c, order[i], b);
        KidFacts(up, po, b, c);
      }
    }
  }

  lemma {:induction false} ForestSpans(up: Up, po: Order, b: Block, roots: set<Block>, order: seq<Block>)
    requires Climbs(up, po) && b in up && roots <= Kids(up, b) && Forest(up, roots, order)
    ensures Spans(up, po, roots, order)
    decreases |order|, 1
  {
    hide Chain, Climbs, Preorder, AboveOf;
    if roots != {} {
      var c: Block, n: nat :| Last(up, roots, order, c, n) && Forest(up, roots - {c}, order[..n]) && Preorder(up, c, order[n..]);
      var front, back := order[..n], order[n..];
      ForestSpans(up, po, b, roots - {c}, front);
      assert c in up;
      PreorderSpans(up, po, c, back);
      SpansJoin(up, po, b, roots, c, front, back);
      assert order == front + back;
    }
  }

  lemma SpansJoin(up: Up, po: Order, b: Block, roots: set<Block>, c: Block, front: seq<Block>, back: seq<Block>)
    requires Climbs(up, po) && b in up && roots <= Kids(up, b) && c in roots
    requires Spans(up, po, roots - {c}, front) && Spans(up, po, {c}, back)
    ensures Spans(up, po, roots, front + back)
  {
    hide Chain, Climbs, AboveOf;
    var order := front + back;
    forall x ensures x in order <==> Under(up, po, roots, x) {
      assert x in order <==> x in front || x in back;
      if d :| d in roots && AboveOf(up, po, d, x) {
        if d == c { assert Under(up, po, {c}, x); } else { assert Under(up, po, roots - {c}, x); }
      }
    }
    forall i, j | 0 <= j < i < |order| ensures !AboveOf(up, po, order[i], order[j]) {
      if AboveOf(up, po, order[i], order[j]) && j < |front| <= i {
        assert front[j] in front && back[i - |front|] in back;
        var d :| d in roots - {c} && AboveOf(up, po, d, order[j]);
        assert AboveOf(up, po, c, order[i]);
        AboveTransitive(up, po, c, order[i], order[j]);
        KidsApart(up, po, b, c, d, order[j]);
      }
    }
  }

  // ----- a traversal that comes to x before any block it is not related to -----

  ghost predicate Before(order: seq<Block>, x: Block, p: Block) {
    exists i, j :: 0 <= j < i < |order| && order[j] == x && order[i] == p
  }

  lemma BeforeIn(order: seq<Block>, front: seq<Block>, part: seq<Block>, back: seq<Block>, x: Block, p: Block)
    requires order == front + part + back && Before(part, x, p)
    ensures Before(order, x, p)
  {
    var i, j :| 0 <= j < i < |part| && part[j] == x && part[i] == p;
    assert order[|front| + j] == x && order[|front| + i] == p;
  }

  lemma BeforeAcross(order: seq<Block>, front: seq<Block>, back: seq<Block>, x: Block, p: Block)
    requires order == front + back && x in front && p in back
    ensures Before(order, x, p)
  {
    var j :| 0 <= j < |front| && front[j] == x;
    var i :| 0 <= i < |back| && back[i] == p;
    assert order[j] == x && order[|front| + i] == p;
  }

  /** x comes before every block of the traversal that is neither above nor below it. */
  ghost predicate Prefers(up: Up, po: Order, order: seq<Block>, x: Block)
    requires Climbs(up, po)
  {
    x in order ==> forall p :: p in order && !AboveOf(up, po, p, x) && !AboveOf(up, po, x, p) ==> Before(order, x, p)
  }

  lemma {:induction false} PreferPreorder(up: Up, po: Order, b: Block, x: Block) returns (order: seq<Block>)
    requires Climbs(up, po) && b in up
    ensures Preorder(up, b, order) && Prefers(up, po, order, x)
    decreases Num(po, b), 1
  {
    hide Chain, Climbs, Before;
    var rest := PreferForest(up, po, b, Kids(up, b), x);
    order := [b] + rest;
    assert order[1..] == rest;
    PreorderSpans(up, po, b, order);
    forall p | x in order && p in order && !AboveOf(up, po, p, x) && !AboveOf(up, po, x, p) ensures Before(order, x, p) {
      UnderKids(up, po, b, x);
      UnderKids(up, po, b, p);
      assert AboveOf(up, po, b, x) && AboveOf(up, po, b, p);
      assert x in rest && p in rest;
      BeforeIn(order, [b], rest, [], x, p);
    }
  }

  lemma {:induction false} PreferForest(up: Up, po: Order, b: Block, roots: set<Block>, x: Block) returns (order: seq<Block>)
    requires Climbs(up, po) && b in up && roots <= Kids(up, b)
    ensures Forest(up, roots, order) && Prefers(up, po, order, x)
    decreases Num(po, b), 0, roots
  {
    hide Chain, Climbs, Before, AboveOf, Preorder;
    if roots == {} {
      order := [];
    } else {
      var c := PickLast(up, po, b, roots, x);
      KidFacts(up, po, b, c);
      var front := PreferForest(up, po, b, roots - {c}, x);
      var back := PreferPreorder(up, po, c, x);
      order := front + back;
      JoinForest(up, roots, c, front, back);
      PrefersJoin(up, po, b, roots, c, front, back, x);
    }
  }

  /** A root to visit last: not the one above x, if there is a choice. */
  lemma PickLast(up: Up, po: Order, b: Block, roots: set<Block>, x: Block) returns (c: Block)
    requires Climbs(up, po) && roots != {}
    ensures c in roots && (AboveOf(up, po, c, x) ==> forall d :: d in roots ==> AboveOf(up, po, d, x))
  {
    if d :| d in roots && !AboveOf(up, po, d, x) { c := d; } else { c :| c in roots; }
  }

  lemma EmptyForest(up: Up)
    ensures Forest(up, {}, [])
  {
  }

  lemma JoinForest(up: Up, roots: set<Block>, c: Block, front: seq<Block>, back: seq<Block>)
    requires c in roots && Forest(up, roots - {c}, front) && Preorder(up, c, back)
    ensures Forest(up, roots, front + back)
  {
    var order, n := front + back, |front|;
    assert order[..n] == front && order[n..] == back;
    assert Last(up, roots, order, c, n);
  }

  lemma PrefersJoin(up: Up, po: Order, b: Block, roots: set<Block>, c: Block, front: seq<Block>, back: seq<Block>, x: Block)
    requires Climbs(up, po) && b in up && roots <= Kids(up, b) && c in roots
    requires Forest(up, roots - {c}, front) && Preorder(up, c, back)
    requires Prefers(up, po, front, x) && Prefers(up, po, back, x)
    requires AboveOf(up, po, c, x) ==> forall d :: d in roots ==> AboveOf(up, po, d, x)
    ensures Prefers(up, po, front + back, x)
  {
    hide Chain, Climbs, Before, AboveOf, Preorder, Forest;
    assert c in up;
    ForestSpans(up, po, b, roots - {c}, front);
    PreorderSpans(up, po, c, back);
    var order := front + back;
    forall p | x in order && p in order && !AboveOf(up, po, p, x) && !AboveOf(up, po, x, p) ensures Before(order, x, p) {
      if x in front && p in front {
        BeforeIn(order, [], front, back, x, p);
      } else if x in back && p in back {
        BeforeIn(order, front, back, [], x, p);
      } else if x in front {
        BeforeAcross(order, front, back, x, p);
      }
    }
  }

  // ----- the exact condition -----

  lemma ReadsUndefinedAlone(f: Function, g: Graph, p: Block, x: Block, v: nat)
    requires g.Valid() && ReadsUndefined(f, g, p, v) && Assigns(f, g, x, v)
    ensures !StrictlyDominates(g, x, p)
  {
  }

  /** Some traversal of the dominator tree reads an empty stack if and only if a reachable block
      looks for an undefined variable that a reachable block it does not dominate assigns. */
  lemma SomeTraversalFails(f: Function, g: Graph, up: Up, po: Order)
    requires Exact(g, up, po)
    ensures (exists order :: Preorder(up, ENTRY, order) && FailsOn(f, g, order)) <==> MayFail(f, g)
  {
    hide Preorder, ReadsUndefined, Assigns, Reachable;
    EntryReachable(g);
    if order :| Preorder(up, ENTRY, order) && FailsOn(f, g, order) { FailureIsPossible(f, g, up, po, order); }
    if MayFail(f, g) {
      var p, x, v :| Reachable(g, p) && ReadsUndefined(f, g, p, v) && Reachable(g, x) && Assigns(f, g, x, v) && !Dominates(g, p, x);
      var order := PreferPreorder(up, po, ENTRY, x);
      PreorderSpans(up, po, ENTRY, order);
      UnderEntry(up, po, x);
      UnderEntry(up, po, p);
      ReadsUndefinedAlone(f, g, p, x, v);
      assert Before(order, x, p);
    }
  }

  lemma UnderEntry(up: Up, po: Order, x: Block)
    requires Climbs(up, po) && x in up
    ensures Under(up, po, {ENTRY}, x)
  {
    ChainBounds(up, po, x);
    assert AboveOf(up, po, ENTRY, x);
  }

  /** A failure on one traversal meets the condition. */
  lemma FailureIsPossible(f: Function, g: Graph, up: Up, po: Order, order: seq<Block>)
    requires Exact(g, up, po) && Preorder(up, ENTRY, order) && FailsOn(f, g, order)
    ensures MayFail(f, g)
  {
    hide Preorder, ReadsUndefined, Assigns, Reachable;
    EntryReachable(g);
    var i, j, v :| 0 <= j < i < |order| && ReadsUndefined(f, g, order[i], v) && Assigns(f, g, order[j], v);
    PreorderSpans(up, po, ENTRY, order);
    assert Under(up, po, {ENTRY}, order[i]) && Under(up, po, {ENTRY}, order[j]);
    assert !AboveOf(up, po, order[i], order[j]);
  }
}
