// The placed phis and the contexts of renaming, described by paths: a phi stands exactly on
// the iterated dominance frontiers, and a variable has a value exactly below its assignments.
module PhiSites {
  import opened Cfg
  import opened IdomTree
  import opened IdomFixpoint
  import opened Frontier
  import opened DominatorAnalysis
  import opened IR
  import opened Renaming
  import opened RenameSteps
  import opened RenameState
  import opened RenamingMeaning
  import opened Mem2RegMeaning
  import opened PhiPlacement
  import opened SsaInput
  import opened EmptyStacks

  // ----- iterated frontiers as computed and as defined -----

  /** Whatever has a reachable block in its dominance frontier is reachable. */
  lemma FrontierOfReachable(g: Graph, a: Block, b: Block)
    requires g.Valid() && JoinsReachable(g) && g.pred[ENTRY] == []
    requires b < |g.pred| && Reachable(g, b) && InFrontier(g, a, b)
    ensures Reachable(g, a)
  {
    var p :| p in g.pred[b] && Dominates(g, a, p);
    if |g.pred[b]| < 2 {
      var q :| PathFromTo(g, q, ENTRY, b);
      assert Edge(g, q[|q| - 2], q[|q| - 1]);
      Prefix(g, q, |q| - 2);
      assert q[|q| - 2] in g.pred[b];
    }
    var r := ReachesThrough(g, a, p);
  }

  lemma {:induction false} StepsAreReachable(g: Graph, df: Frontiers, p: seq<Block>)
    requires FrontiersOf(g, df) && JoinsReachable(g) && g.pred[ENTRY] == []
    requires p != [] && FrontierPath(df, p) && Reachable(g, p[|p| - 1])
    ensures FrontierSteps(g, p)
    decreases |p|
  {
    if |p| > 1 {
      var q := p[..|p| - 1];
      assert p[|p| - 1] in Entries(df, p[|p| - 2]);
      FrontierOfReachable(g, p[|p| - 2], p[|p| - 1]);
      assert FrontierPath(df, q) by {
        forall i | 0 <= i < |q| - 1 ensures q[i + 1] in Entries(df, q[i]) { assert p[i + 1] in Entries(df, p[i]); }
      }
      StepsAreReachable(g, df, q);
      forall i | 0 <= i < |p| - 1 ensures FrontierStep(g, p[i], p[i + 1]) {
        if i < |q| - 1 { assert FrontierStep(g, q[i], q[i + 1]); }
      }
    }
  }

  /** On reachable blocks the iterated frontiers of the analysis are those of the graph. */
  lemma IteratedIsNeeded(f: Function, g: Graph, df: Frontiers, b: Block, v: nat)
    requires FrontiersOf(g, df) && JoinsReachable(g) && g.pred[ENTRY] == [] && Reachable(g, b)
    ensures InIterated(df, StoringIn(Bodies(f), v), b) <==> NeedsPhi(f, g, b, v)
  {
    var starts := StoringIn(Bodies(f), v);
    assert forall x :: x in starts <==> StoresIn(f, x, v);
    if p :| 2 <= |p| && FrontierPath(df, p) && p[0] in starts && p[|p| - 1] == b {
      StepsAreReachable(g, df, p);
    }
    if p :| 2 <= |p| && FrontierSteps(g, p) && StoresIn(f, p[0], v) && p[|p| - 1] == b {
      forall i | 0 <= i < |p| - 1 ensures p[i + 1] in Entries(df, p[i]) { assert FrontierStep(g, p[i], p[i + 1]); }
      assert FrontierPath(df, p);
    }
  }

  /** Block b has a phi for v exactly if it needs one. */
  ghost predicate PhiMatches(f: Function, S: Source, b: Block, v: nat)
    requires S.g.Valid()
  {
    HasPhi(At(S.code, b), v) <==> NeedsPhi(f, S.g, b, v)
  }

  ghost predicate PhisMatch(f: Function, S: Source) {
    S.g.Valid() && forall b: Block, v: nat {:trigger PhiMatches(f, S, b, v)} :: Reachable(S.g, b) ==> PhiMatches(f, S, b, v)
  }

  lemma PlacedMatches(f: Function, S: Source, df: Frontiers, has: set<(Block, nat)>, first: nat, next: nat)
    requires HasGraph(f, S.g) && JoinsReachable(S.g) && S.g.pred[ENTRY] == []
    requires PhisPlaced(Bodies(f), S.code, has, first, next) && FrontiersOf(S.g, df) && OnFrontiers(Bodies(f), df, has)
    ensures PhisMatch(f, S)
  {
    forall b: Block, v: nat {:trigger PhiMatches(f, S, b, v)} | Reachable(S.g, b) ensures PhiMatches(f, S, b, v) {
      assert b < |S.code| by { var p :| PathFromTo(S.g, p, ENTRY, b); }
      HasPhiIff(Bodies(f), S.code, has, first, next, b, v);
      assert (b, v) in has <==> InIterated(df, StoringIn(Bodies(f), v), b);
      IteratedIsNeeded(f, S.g, df, b, v);
    }
  }

  // ----- what is defined where -----

  /** The source of renaming is the placed form of f. */
  ghost predicate PlacedForm(f: Function, S: Source, first: nat) {
    Prepared(f, S.g, S.code, S.up, S.po, first) && PhisMatch(f, S)
  }

  lemma StoresPlacedIff(placed: seq<Instr>, body: seq<Instr>, v: nat)
    requires PhisInFront(placed, body)
    ensures Stores(placed, v) <==> Stores(body, v)
  {
    PlacedStores(placed, body, |body|, v);
    assert placed[..|placed|] == placed && body[..|body|] == body;
  }

  /** Stores of the placed block are those of the input block. */
  lemma PlacedStores(placed: seq<Instr>, body: seq<Instr>, k: nat, v: nat)
    requires PhisInFront(placed, body) && k <= |body|
    ensures Stores(placed[..|placed| - |body| + k], v) <==> Stores(body[..k], v)
  {
    var n := |placed| - |body|;
    assert forall j :: 0 <= j < k ==> body[..k][j] == placed[n..][j] == placed[..n + k][n + j];
    if Stores(placed[..n + k], v) {
      var j :| 0 <= j < n + k && placed[j].Store? && placed[j].addr == Local(v);
      assert body[..k][j - n].Store?;
    }
  }

  lemma DefinesIff(body: seq<Instr>, v: nat)
    ensures Defines(body, v) <==> Stores(body, v) || HasPhi(body, v)
  {
    if Stores(body, v) {
      var k :| 0 <= k < |body| && body[k].Store? && body[k].addr == Local(v);
      assert DefinesSlot(body[k], v);
    }
    if HasPhi(body, v) { PhiDefines(body, v); }
  }

  /** A reachable block of the placed code defines v exactly if it assigns v. */
  lemma DefinesIsAssigns(f: Function, S: Source, first: nat, b: Block, v: nat)
    requires PlacedForm(f, S, first) && b in S.up
    ensures DefinesAt(S.code, b, v) <==> Assigns(f, S.g, b, v)
  {
    assert PreparedBlock(f, S.code, S.up, S.po, first, b);
    StoresPlacedIff(S.code[b], f.blocks[b].instrs, v);
    DefinesIff(S.code[b], v);
    assert PhiMatches(f, S, b, v);
  }

  // ----- the contexts -----

  lemma {:induction false} PhiScanHas(body: seq<Instr>, c: Ctx, v: nat)
    ensures v in PhiScan(body, c).cur <==> v in c.cur || HasPhi(body, v)
  {
    if body != [] {
      PhiScanHas(body[1..], if body[0].Phi? then Ctx(c.cur[body[0].lval := Reg(body[0].dst)], c.sub, c.scope + {body[0].dst}) else c, v);
      assert forall k :: 0 < k < |body| ==> body[k] == body[1..][k - 1];
      if k :| 0 <= k < |body| && body[k].Phi? && body[k].lval == v {
        if k > 0 { assert body[1..][k - 1].Phi?; }
      }
    }
  }

  lemma {:induction false} CtxAtHas(body: seq<Instr>, c: Ctx, k: nat, v: nat)
    requires k <= |body|
    ensures v in CtxAt(body, c, k).cur <==> v in c.cur || Stores(body[..k], v)
  {
    if k > 0 {
      StoresSnoc(body, k - 1, v);
      CtxAtHas(body, c, k - 1, v);
    }
  }

  lemma AtEnd(body: seq<Instr>, c: Ctx)
    ensures CtxAt(body, c, |body|) == Scan(body, c)
  {
    assert body[|body|..] == [];
    ScanFrom(body, c, |body|);
  }

  lemma {:induction false} OutHas(code: Code, up: Up, po: Order, b: Block, v: nat)
    requires Climbs(up, po) && b in up
    ensures v in CtxOut(code, up, po, b).cur <==> exists d :: d in Chain(up, po, b) && DefinesAt(code, d, v)
    decreases Below(po, b)
  {
    var body := At(code, b);
    ChainBounds(up, po, b);
    PhiScanHas(body, CtxIn(code, up, po, b), v);
    AtEnd(body, CtxPhi(code, up, po, b));
    CtxAtHas(body, CtxPhi(code, up, po, b), |body|, v);
    assert body[..|body|] == body;
    DefinesIff(body, v);
    if b != ENTRY {
      Step(up, po, b);
      OutHas(code, up, po, up[b], v);
    }
  }

  /** A variable is on a non-empty stack at the end of p exactly if a dominator of p assigns it. */
  lemma OutIsValue(f: Function, S: Source, first: nat, p: Block, v: nat)
    requires PlacedForm(f, S, first) && p in S.up
    ensures v in Out(S, p).cur <==> ValueAtEnd(f, S.g, p, v)
  {
    hide Assigns, DefinesAt, CtxOut;
    OutHas(S.code, S.up, S.po, p, v);
    forall d | d in Chain(S.up, S.po, p) ensures DefinesAt(S.code, d, v) <==> Assigns(f, S.g, d, v) {
      ChainBounds(S.up, S.po, p);
      DefinesIsAssigns(f, S, first, d, v);
    }
  }

  lemma PhiIsValue(f: Function, S: Source, first: nat, b: Block, v: nat)
    requires PlacedForm(f, S, first) && b in S.up && b < |S.code|
    ensures v in AfterPhis(S, b).cur <==> ValueAtStart(f, S.g, b, v)
  {
    hide Assigns, CtxOut;
    PhiScanHas(S.code[b], In(S, b), v);
    assert PhiMatches(f, S, b, v);
    if b == ENTRY {
      if d :| StrictlyDominates(S.g, d, b) { EntryHasNoStrictDominator(S.g, d, b); }
    } else {
      Step(S.up, S.po, b);
      OutIsValue(f, S, first, S.up[b], v);
      ExactLinks(S.g, S.up, S.po, b);
      forall d ensures StrictlyDominates(S.g, d, b) <==> Dominates(S.g, d, S.up[b]) {
        assert d in Chain(S.up, S.po, S.up[b]) <==> Dominates(S.g, d, S.up[b]);
      }
    }
  }

  // ----- undefined reads -----

  lemma UndefinedEdgeIff(f: Function, S: Source, first: nat, p: Block, b: Block, v: nat)
    requires PlacedForm(f, S, first) && p in S.up
    ensures UndefinedEdge(S, p, b, v) <==> HandsUndefined(f, S.g, p, b, v)
  {
    hide NeedsPhi, ValueAtEnd, CtxOut, HasPhi;
    OutIsValue(f, S, first, p, v);
    if Edge(S.g, p, b) {
      ReachableStep(S.g, p, b);
      assert PhiMatches(f, S, b, v);
    }
  }

  lemma UndefinedLoadIff(f: Function, S: Source, first: nat, b: Block, v: nat)
    requires PlacedForm(f, S, first) && b in S.up && b < |S.code|
    ensures (exists k: nat :: UndefinedLoadOf(S, b, k, v)) <==> (exists k: nat :: LoadsUndefined(f, S.g, b, k, v))
  {
    hide CtxPhi, CtxAt, ValueAtStart, Stores;
    assert PreparedBlock(f, S.code, S.up, S.po, first, b);
    PhiIsValue(f, S, first, b, v);
    var placed, body := S.code[b], f.blocks[b].instrs;
    var n := |placed| - |body|;
    assert forall j :: 0 <= j < |body| ==> placed[n + j] == placed[n..][j] == body[j];
    if k: nat :| UndefinedLoadOf(S, b, k, v) {
      CtxAtHas(placed, AfterPhis(S, b), k, v);
      PlacedStores(placed, body, k - n, v);
      assert LoadsUndefined(f, S.g, b, k - n, v);
    }
    if k: nat :| LoadsUndefined(f, S.g, b, k, v) {
      CtxAtHas(placed, AfterPhis(S, b), n + k, v);
      PlacedStores(placed, body, k, v);
      assert UndefinedLoadOf(S, b, n + k, v);
    }
  }

  /** Renaming block b looks for an undefined variable exactly where the input does. */
  lemma ReadsIff(f: Function, S: Source, first: nat, b: Block, v: nat)
    requires PlacedForm(f, S, first) && b in S.up && b < |S.code|
    ensures ReadsAt(S, b, v) <==> ReadsUndefined(f, S.g, b, v)
  {
    hide UndefinedEdge, HandsUndefined, UndefinedLoadOf, LoadsUndefined;
    UndefinedLoadIff(f, S, first, b, v);
    forall s ensures UndefinedEdge(S, b, s, v) <==> HandsUndefined(f, S.g, b, s, v) {
      UndefinedEdgeIff(f, S, first, b, s, v);
    }
  }
}
