// From a valid input function, stated by paths, to what renaming needs along the
// dominator tree.
module SsaInput {
  import opened Cfg
  import opened IdomTree
  import opened IdomFixpoint
  import opened DominatorAnalysis
  import opened IR
  import opened Renaming
  import opened RenameSteps
  import opened RenameState
  import opened RenamingMeaning
  import opened Mem2RegMeaning
  import opened PhiPlacement

  function Bodies(f: Function): (code: Code)
    ensures |code| == |f.blocks| && forall b :: 0 <= b < |code| ==> code[b] == f.blocks[b].instrs
  {
    seq(|f.blocks|, b requires 0 <= b < |f.blocks| => f.blocks[b].instrs)
  }

  function Terms(f: Function): (terms: seq<Terminator>)
    ensures |terms| == |f.blocks| && forall b :: 0 <= b < |terms| ==> terms[b] == f.blocks[b].term
  {
    seq(|f.blocks|, b requires 0 <= b < |f.blocks| => f.blocks[b].term)
  }

  /** r is defined before position k of b: earlier in the block, or in a strict dominator. */
  ghost predicate DefinedBefore(f: Function, g: Graph, b: Block, k: nat, r: nat)
    requires b < |f.blocks| && k <= |f.blocks[b].instrs|
  {
    || (exists j :: 0 <= j < k && r in Def(f.blocks[b].instrs[j]))
    || (exists d :: 0 <= d < |f.blocks| && StrictlyDominates(g, d, b) && r in Defs(f.blocks[d].instrs))
  }

  /** A function as the IR generator leaves it: no phis, every register below `first`, defined
      once and before its uses on every path, and an entry without predecessors. */
  ghost predicate ValidInput(f: Function, g: Graph, first: nat) {
    && HasGraph(f, g) && g.pred[ENTRY] == []
    && DefinedOnce(Bodies(f))
    && (forall b, k {:trigger f.blocks[b].instrs[k]} :: 0 <= b < |f.blocks| && 0 <= k < |f.blocks[b].instrs| ==>
          !f.blocks[b].instrs[k].Phi? && forall r :: r in Def(f.blocks[b].instrs[k]) ==> r < first)
    && (forall b, k, r :: 0 <= b < |f.blocks| && Reachable(g, b) && 0 <= k < |f.blocks[b].instrs| ==>
          (r in Uses(f.blocks[b].instrs[k]) ==> DefinedBefore(f, g, b, k, r)))
    && (forall b, r :: 0 <= b < |f.blocks| && Reachable(g, b) && r in TermUses(f.blocks[b].term) ==>
          DefinedBefore(f, g, b, |f.blocks[b].instrs|, r))
  }

  /** The frontiers the dominator analysis computes. */
  ghost predicate FrontiersOf(g: Graph, df: Frontiers) {
    && g.Valid()
    && (forall x: Block, b: Block :: b in Entries(df, x) ==> b < |g.pred|)
    && (forall x: Block, b: Block :: b < |g.pred| && Reachable(g, b) ==> (b in Entries(df, x) <==> InFrontier(g, x, b)))
  }

  // ----- scopes -----

  lemma {:induction false} ScanScope(body: seq<Instr>, c: Ctx, r: nat)
    ensures r in Scan(body, c).scope <==>
            r in c.scope || exists k :: 0 <= k < |body| && !body[k].Phi? && r in Def(body[k])
  {
    if body != [] {
      ScanScope(body[1..], Advance(body[0], c), r);
      assert forall k :: 0 <= k < |body[1..]| ==> body[1..][k] == body[k + 1];
      if k :| 0 <= k < |body| && !body[k].Phi? && r in Def(body[k]) {
        if k > 0 { assert body[1..][k - 1] == body[k]; }
      }
    }
  }

  lemma {:induction false} PhiScanScopeIs(body: seq<Instr>, c: Ctx, r: nat)
    ensures r in PhiScan(body, c).scope <==>
            r in c.scope || exists k :: 0 <= k < |body| && body[k].Phi? && body[k].dst == r
  {
    if body != [] {
      var c' := if body[0].Phi? then Ctx(c.cur[body[0].lval := Reg(body[0].dst)], c.sub, c.scope + {body[0].dst}) else c;
      PhiScanScopeIs(body[1..], c', r);
      assert forall k :: 0 <= k < |body[1..]| ==> body[1..][k] == body[k + 1];
      if k :| 0 <= k < |body| && body[k].Phi? && body[k].dst == r {
        if k > 0 { assert body[1..][k - 1] == body[k]; }
      }
    }
  }

  lemma BlockScope(body: seq<Instr>, c: Ctx)
    ensures forall r :: r in Scan(body, PhiScan(body, c)).scope <==> r in c.scope || r in Defs(body)
    ensures c.scope <= PhiScan(body, c).scope
  {
    forall r ensures r in Scan(body, PhiScan(body, c)).scope <==> r in c.scope || r in Defs(body) {
      PhiScanScopeIs(body, c, r);
      ScanScope(body, PhiScan(body, c), r);
      if r in Defs(body) {
        var k :| 0 <= k < |body| && r in Def(body[k]);
      }
      if k :| 0 <= k < |body| && body[k].Phi? && body[k].dst == r { assert r in Def(body[k]); }
    }
    forall r | r in c.scope ensures r in PhiScan(body, c).scope { PhiScanScopeIs(body, c, r); }
  }

  /** The registers in scope at the end of b are those defined in its dominators. */
  lemma {:induction false} OutScope(code: Code, up: Up, po: Order, b: Block, r: nat)
    requires Climbs(up, po) && b in up
    ensures r in CtxOut(code, up, po, b).scope <==> exists x :: x in Chain(up, po, b) && r in Defs(At(code, x))
    decreases Below(po, b)
  {
    BlockScope(At(code, b), CtxIn(code, up, po, b));
    ChainBounds(up, po, b);
    if b != ENTRY {
      Step(up, po, b);
      OutScope(code, up, po, up[b], r);
    }
  }

  lemma {:induction false} ScopedSuffix(body: seq<Instr>, k: nat, scope: set<nat>)
    requires k <= |body|
    requires forall j, r :: k <= j < |body| && r in Uses(body[j]) ==>
               r in scope || exists i :: k <= i < j && !body[i].Phi? && r in Def(body[i])
    requires forall j :: k <= j < |body| && !body[j].Phi? ==> Def(body[j]) !! scope
    requires forall i, j :: k <= i < j < |body| && !body[i].Phi? && !body[j].Phi? ==> Def(body[i]) !! Def(body[j])
    ensures Scoped(body[k..], scope)
    decreases |body| - k
  {
    if k < |body| {
      assert body[k..][0] == body[k] && body[k..][1..] == body[k + 1..];
      var scope' := if body[k].Phi? then scope else scope + Def(body[k]);
      forall j, r | k + 1 <= j < |body| && r in Uses(body[j])
        ensures r in scope' || exists i :: k + 1 <= i < j && !body[i].Phi? && r in Def(body[i])
      {
        if r !in scope {
          var i :| k <= i < j && !body[i].Phi? && r in Def(body[i]);
        }
      }
      ScopedSuffix(body, k + 1, scope');
    }
  }

  lemma {:induction false} FreshSuffix(body: seq<Instr>, k: nat, scope: set<nat>)
    requires k <= |body|
    requires forall j :: k <= j < |body| && body[j].Phi? ==> body[j].pairs == [] && body[j].dst !in scope
    requires forall i, j :: k <= i < j < |body| && body[i].Phi? && body[j].Phi? ==> body[i].dst != body[j].dst
    ensures PhisFresh(body[k..], scope)
    decreases |body| - k
  {
    if k < |body| {
      assert body[k..][0] == body[k] && body[k..][1..] == body[k + 1..];
      FreshSuffix(body, k + 1, if body[k].Phi? then scope + {body[k].dst} else scope);
    }
  }

  // ----- the code with phis placed -----

  lemma PlacedDefinedOnce(f: Function, g: Graph, code: Code, has: set<(Block, nat)>, first: nat, next: nat)
    requires ValidInput(f, g, first) && PhisPlaced(Bodies(f), code, has, first, next)
    ensures DefinedOnce(code) && forall b :: 0 <= b < |code| ==> SplitRegs(code[b], first)
    ensures forall b, k :: 0 <= b < |code| && 0 <= k < |code[b]| && code[b][k].Phi? ==> code[b][k].pairs == []
  {
    var body := Bodies(f);
    forall b: Block, k: nat | b < |code| && k < |code[b]|
      ensures if PlacedPhi(code, body, b, k) then code[b][k].Phi? && code[b][k].pairs == [] && first <= code[b][k].dst
              else |body[b]| <= |code[b]| && var j := k - (|code[b]| - |body[b]|);
                   0 <= j < |body[b]| && code[b][k] == body[b][j] && !code[b][k].Phi?
                   && forall r :: r in Def(code[b][k]) ==> r < first
    {
      PlacedAt(f, g, code, has, first, next, b, k);
    }
    forall b, b', k, k', r | 0 <= b < |code| && 0 <= b' < |code| && 0 <= k < |code[b]| && 0 <= k' < |code[b']|
        && r in Def(code[b][k]) && r in Def(code[b'][k'])
      ensures b == b' && k == k'
    {
      assert PlacedPhi(code, body, b, k) <==> PlacedPhi(code, body, b', k');
      if !PlacedPhi(code, body, b, k) {
        var j, j' := k - (|code[b]| - |body[b]|), k' - (|code[b']| - |body[b']|);
        assert r in Def(body[b][j]) && r in Def(body[b'][j']);
      }
    }
  }

  lemma PlacedAt(f: Function, g: Graph, code: Code, has: set<(Block, nat)>, first: nat, next: nat, b: Block, k: nat)
    requires ValidInput(f, g, first) && PhisPlaced(Bodies(f), code, has, first, next) && b < |code| && k < |code[b]|
    ensures if PlacedPhi(code, Bodies(f), b, k) then code[b][k].Phi? && code[b][k].pairs == [] && first <= code[b][k].dst
            else |Bodies(f)[b]| <= |code[b]| && var j := k - (|code[b]| - |Bodies(f)[b]|);
                 0 <= j < |Bodies(f)[b]| && code[b][k] == Bodies(f)[b][j] && !code[b][k].Phi?
                 && forall r :: r in Def(code[b][k]) ==> r < first
  {
    assert PhisInFront(code[b], Bodies(f)[b]);
    var n := |code[b]| - |f.blocks[b].instrs|;
    if k >= n { assert code[b][k] == code[b][n..][k - n] == f.blocks[b].instrs[k - n]; }
  }

  lemma PlacedBlockScoped(f: Function, g: Graph, up: Up, po: Order, code: Code, has: set<(Block, nat)>, first: nat, next: nat, b: Block)
    requires ValidInput(f, g, first) && Exact(g, up, po) && PhisPlaced(Bodies(f), code, has, first, next)
    requires b in up && b < |f.blocks| == |code|
    ensures BlockScoped(code, up, po, b)
  {
    PlacedDefinedOnce(f, g, code, has, first, next);
    PlacedPhisFresh(code, up, po, b);
    PlacedDefsNew(code, up, po, b);
    var body, scope := code[b], CtxPhi(code, up, po, b).scope;
    forall j, r | 0 <= j < |body| && r in Uses(body[j])
      ensures r in scope || exists i :: 0 <= i < j && !body[i].Phi? && r in Def(body[i])
    {
      UseInScope(f, g, up, po, code, has, first, next, b, j, r);
    }
    ScopedSuffix(body, 0, scope);
    assert body[0..] == body;
  }

  lemma PlacedPhisFresh(code: Code, up: Up, po: Order, b: Block)
    requires Climbs(up, po) && DefinedOnce(code) && b in up && b < |code|
    requires forall k :: 0 <= k < |code[b]| && code[b][k].Phi? ==> code[b][k].pairs == []
    ensures PhisFresh(code[b], CtxIn(code, up, po, b).scope)
  {
    var body := code[b];
    forall j | 0 <= j < |body| && body[j].Phi? ensures body[j].dst !in CtxIn(code, up, po, b).scope {
      NotInScope(code, up, po, b, j, body[j].dst);
    }
    forall i, j | 0 <= i < j < |body| && body[i].Phi? && body[j].Phi? ensures body[i].dst != body[j].dst {
      assert body[i].dst in Def(body[i]) && body[j].dst in Def(body[j]);
    }
    FreshSuffix(body, 0, CtxIn(code, up, po, b).scope);
    assert body[0..] == body;
  }

  lemma PlacedDefsNew(code: Code, up: Up, po: Order, b: Block)
    requires Climbs(up, po) && DefinedOnce(code) && b in up && b < |code|
    ensures forall j :: 0 <= j < |code[b]| && !code[b][j].Phi? ==> Def(code[b][j]) !! CtxPhi(code, up, po, b).scope
  {
    var body := code[b];
    forall j, r | 0 <= j < |body| && !body[j].Phi? && r in Def(body[j]) ensures r !in CtxPhi(code, up, po, b).scope {
      NotInScope(code, up, po, b, j, r);
      PhiScanScopeIs(body, CtxIn(code, up, po, b), r);
      assert forall k :: 0 <= k < |body| && body[k].Phi? ==> body[k].dst in Def(body[k]);
    }
  }

  lemma PlacedTermScoped(f: Function, g: Graph, up: Up, po: Order, code: Code, has: set<(Block, nat)>, first: nat, next: nat, b: Block)
    requires ValidInput(f, g, first) && Exact(g, up, po) && PhisPlaced(Bodies(f), code, has, first, next)
    requires b in up && b < |code|
    ensures TermUses(f.blocks[b].term) <= CtxOut(code, up, po, b).scope
  {
    forall r | r in TermUses(f.blocks[b].term) ensures r in CtxOut(code, up, po, b).scope {
      assert DefinedBefore(f, g, b, |f.blocks[b].instrs|, r);
      DefinedInScope(f, g, up, po, code, has, first, next, b, |f.blocks[b].instrs|, r);
    }
  }

  /** A register defined in b is not in scope on entry to b. */
  lemma NotInScope(code: Code, up: Up, po: Order, b: Block, j: nat, r: nat)
    requires Climbs(up, po) && DefinedOnce(code) && b in up && b < |code| && j < |code[b]| && r in Def(code[b][j])
    ensures r !in CtxIn(code, up, po, b).scope
  {
    if b != ENTRY {
      Step(up, po, b);
      OutScope(code, up, po, up[b], r);
      ChainBounds(up, po, up[b]);
      forall x | x in Chain(up, po, up[b]) ensures r !in Defs(At(code, x)) {}
    }
  }

  /** Registers defined before a position are in scope there, or defined earlier in the placed block. */
  lemma DefinedInScope(f: Function, g: Graph, up: Up, po: Order, code: Code, has: set<(Block, nat)>, first: nat, next: nat,
                       b: Block, k: nat, r: nat)
    requires ValidInput(f, g, first) && Exact(g, up, po) && PhisPlaced(Bodies(f), code, has, first, next)
    requires b in up && b < |f.blocks| == |code| && k <= |f.blocks[b].instrs| && DefinedBefore(f, g, b, k, r)
    ensures |f.blocks[b].instrs| <= |code[b]|
    ensures r in CtxIn(code, up, po, b).scope
         || exists i :: 0 <= i < k + (|code[b]| - |f.blocks[b].instrs|) && !code[b][i].Phi? && r in Def(code[b][i])
    ensures r in CtxOut(code, up, po, b).scope
  {
    assert PhisInFront(code[b], Bodies(f)[b]);
    if j: nat :| j < k && r in Def(f.blocks[b].instrs[j]) {
      var n := |code[b]| - |f.blocks[b].instrs|;
      PlacedDef(code[b], f.blocks[b].instrs, j, r);
      assert n + j < k + n;
    } else {
      DefinedAbove(f, g, up, po, code, has, first, next, b, r);
    }
    BlockScope(code[b], CtxIn(code, up, po, b));
  }

  lemma PlacedDef(placed: seq<Instr>, body: seq<Instr>, j: nat, r: nat)
    requires PhisInFront(placed, body) && j < |body| && r in Def(body[j])
    ensures var i := |placed| - |body| + j; placed[i] == body[j] && !placed[i].Phi? && r in Def(placed[i])
    ensures r in Defs(placed)
  {
    var n := |placed| - |body|;
    assert placed[n + j] == placed[n..][j] == body[j];
  }

  lemma DefinedAbove(f: Function, g: Graph, up: Up, po: Order, code: Code, has: set<(Block, nat)>, first: nat, next: nat,
                     b: Block, r: nat)
    requires ValidInput(f, g, first) && Exact(g, up, po) && PhisPlaced(Bodies(f), code, has, first, next)
    requires b in up && b < |f.blocks| == |code|
    requires exists d :: 0 <= d < |f.blocks| && StrictlyDominates(g, d, b) && r in Defs(f.blocks[d].instrs)
    ensures r in CtxIn(code, up, po, b).scope
  {
    var d :| 0 <= d < |f.blocks| && StrictlyDominates(g, d, b) && r in Defs(f.blocks[d].instrs);
    EntryHasNoStrictDominator(g, d, b);
    ExactLinks(g, up, po, b);
    Step(up, po, b);
    OutScope(code, up, po, up[b], r);
    assert PhisInFront(code[d], Bodies(f)[d]);
    var j: nat :| j < |f.blocks[d].instrs| && r in Def(f.blocks[d].instrs[j]);
    PlacedDef(code[d], f.blocks[d].instrs, j, r);
    assert r in Defs(At(code, d));
  }

  lemma EntryHasNoStrictDominator(g: Graph, d: Block, b: Block)
    requires g.Valid() && StrictlyDominates(g, d, b)
    ensures b != ENTRY
  {
    SinglePath(g, ENTRY);
  }

  lemma UseInScope(f: Function, g: Graph, up: Up, po: Order, code: Code, has: set<(Block, nat)>, first: nat, next: nat,
                   b: Block, j: nat, r: nat)
    requires ValidInput(f, g, first) && Exact(g, up, po) && PhisPlaced(Bodies(f), code, has, first, next)
    requires b in up && b < |f.blocks| == |code| && j < |code[b]| && r in Uses(code[b][j])
    ensures r in CtxPhi(code, up, po, b).scope || exists i :: 0 <= i < j && !code[b][i].Phi? && r in Def(code[b][i])
  {
    PlacedAt(f, g, code, has, first, next, b, j);
    var k := j - (|code[b]| - |f.blocks[b].instrs|);
    assert DefinedBefore(f, g, b, k, r) by {
      assert Reachable(g, b) && r in Uses(f.blocks[b].instrs[k]);
    }
    DefinedInScope(f, g, up, po, code, has, first, next, b, k, r);
    BlockScope(code[b], CtxIn(code, up, po, b));
  }

  /** Phis on the iterated frontiers close every frontier of a definition. */
  lemma PlacedClosed(f: Function, g: Graph, code: Code, df: Frontiers, has: set<(Block, nat)>, first: nat, next: nat)
    requires ValidInput(f, g, first) && PhisPlaced(Bodies(f), code, has, first, next)
    requires FrontiersOf(g, df) && OnFrontiers(Bodies(f), df, has)
    ensures PhisClosed(code, g)
  {
    forall x: Block, b: Block, v: nat {:trigger InFrontier(g, x, b), DefinesAt(code, x, v)}
      | b < |g.pred| && Reachable(g, x) && Reachable(g, b) && DefinesAt(code, x, v) && InFrontier(g, x, b)
      ensures HasPhi(At(code, b), v)
    {
      assert b in Entries(df, x);
      DefinitionStarts(f, g, code, df, has, first, next, x, v);
      IteratedStep(df, StoringIn(Bodies(f), v), x, b);
      assert (b, v) in has;
    }
  }

  /** The entry, having no predecessors, is in no frontier. */
  lemma EntryNotIterated(g: Graph, df: Frontiers, starts: set<Block>)
    requires FrontiersOf(g, df) && g.pred[ENTRY] == []
    ensures !InIterated(df, starts, ENTRY)
  {
    EntryReachable(g);
    forall x: Block ensures ENTRY !in Entries(df, x) {
      assert ENTRY in Entries(df, x) <==> InFrontier(g, x, ENTRY);
    }
    forall p | 2 <= |p| && FrontierPath(df, p) ensures p[|p| - 1] != ENTRY {
      assert p[|p| - 2 + 1] in Entries(df, p[|p| - 2]);
    }
  }

  lemma DefinitionStarts(f: Function, g: Graph, code: Code, df: Frontiers, has: set<(Block, nat)>, first: nat, next: nat, x: Block, v: nat)
    requires ValidInput(f, g, first) && PhisPlaced(Bodies(f), code, has, first, next) && OnFrontiers(Bodies(f), df, has)
    requires DefinesAt(code, x, v)
    ensures x in StoringIn(Bodies(f), v) || InIterated(df, StoringIn(Bodies(f), v), x)
  {
    var k :| 0 <= k < |At(code, x)| && DefinesSlot(At(code, x)[k], v);
    PlacedAt(f, g, code, has, first, next, x, k);
    if PlacedPhi(code, Bodies(f), x, k) {
      assert (x, v) in has;
    } else {
      var j := k - (|code[x]| - |f.blocks[x].instrs|);
      assert f.blocks[x].instrs[j].Store?;
    }
  }

  /** Everything renaming relies on. */
  lemma PlacedIsPrepared(f: Function, g: Graph, up: Up, po: Order, code: Code, df: Frontiers, has: set<(Block, nat)>, first: nat, next: nat)
    requires ValidInput(f, g, first) && Exact(g, up, po) && PhisPlaced(Bodies(f), code, has, first, next)
    requires FrontiersOf(g, df) && OnFrontiers(Bodies(f), df, has)
    ensures Prepared(f, g, code, up, po, first) && Source(code, Terms(f), g, up, po).Valid()
  {
    PlacedDefinedOnce(f, g, code, has, first, next);
    PlacedClosed(f, g, code, df, has, first, next);
    forall v ensures !HasPhi(At(code, ENTRY), v) {
      EntryNotIterated(g, df, StoringIn(Bodies(f), v));
      HasPhiIff(Bodies(f), code, has, first, next, ENTRY, v);
    }
    var S := Source(code, Terms(f), g, up, po);
    forall b | b in up ensures b < |f.blocks| {
      var p :| PathFromTo(g, p, ENTRY, b);
    }
    forall b {:trigger PreparedBlock(f, code, up, po, first, b)} | b in up ensures PreparedBlock(f, code, up, po, first, b) {
      PlacedBlockScoped(f, g, up, po, code, has, first, next, b);
      PlacedTermScoped(f, g, up, po, code, has, first, next, b);
      assert PhisInFront(code[b], Bodies(f)[b]);
    }
    forall b {:trigger BlockScoped(code, up, po, b)} | b in up ensures BlockScoped(code, up, po, b) {
      assert PreparedBlock(f, code, up, po, first, b);
    }
    forall b {:trigger S.TermScoped(b)} | b in up ensures S.TermScoped(b) {
      assert PreparedBlock(f, code, up, po, first, b);
    }
  }
}
