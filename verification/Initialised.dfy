// Variables that are stored on every path have a value wherever renaming looks for one.
module Initialised {
  import opened Cfg
  import opened IdomTree
  import opened IdomFixpoint
  import opened Frontier
  import opened DominatorAnalysis
  import opened IR
  import opened Renaming
  import opened RenameSteps
  import opened RenameState
  import opened RenamingMeaning
  import opened Mem2RegMeaning
  import opened PhiPlacement
  import opened SsaInput
  import opened EmptyStacks
  import opened PhiSites

  /** Some block of p stores v. */
  ghost predicate StoresOn(f: Function, p: seq<Block>, v: nat) {
    exists i :: 0 <= i < |p| && p[i] < |f.blocks| && Stores(f.blocks[p[i]].instrs, v)
  }

  /** Every path from the entry stores v before it comes to position k of b. */
  ghost predicate InitialisedAt(f: Function, g: Graph, b: Block, k: nat, v: nat)
    requires b < |f.blocks| && k <= |f.blocks[b].instrs|
  {
    forall p :: PathFromTo(g, p, ENTRY, b) ==> StoresOn(f, p[..|p| - 1], v) || Stores(f.blocks[b].instrs[..k], v)
  }

  ghost predicate LoadsInitialised(f: Function, g: Graph) {
    forall b, k {:trigger f.blocks[b].instrs[k]} ::
      0 <= b < |f.blocks| && Reachable(g, b) && 0 <= k < |f.blocks[b].instrs| ==>
        var i := f.blocks[b].instrs[k];
        i.Load? && i.addr.Local? ==> InitialisedAt(f, g, b, k, i.addr.slot)
  }

  /** Variables are stored on every path to an edge into a block that needs a phi for them. */
  ghost predicate PhiEdgesInitialised(f: Function, g: Graph)
    requires g.Valid()
  {
    forall p: Block, b: Block, v: nat :: p < |f.blocks| && Reachable(g, p) && Edge(g, p, b) ==>
      (NeedsPhi(f, g, b, v) ==> InitialisedAt(f, g, p, |f.blocks[p].instrs|, v))
  }

  lemma OutKeeps(code: Code, up: Up, po: Order, b: Block, v: nat)
    requires Climbs(up, po) && b in up && b < |code| && (v in CtxPhi(code, up, po, b).cur || Stores(code[b], v))
    ensures v in CtxOut(code, up, po, b).cur
  {
    var body, c := code[b], CtxPhi(code, up, po, b);
    assert body[..|body|] == body && body[|body|..] == [];
    CtxAtHas(body, c, |body|, v);
    ScanFrom(body, c, |body|);
  }

  /** What renaming starts from. */
  ghost predicate Ready(f: Function, g: Graph, code: Code, up: Up, po: Order, first: nat) {
    && Climbs(up, po)
    && Prepared(f, g, code, up, po, first)
  }

  lemma ReadyBlock(f: Function, g: Graph, code: Code, up: Up, po: Order, first: nat, b: Block)
    requires Ready(f, g, code, up, po, first)
    ensures b in up <==> Reachable(g, b)
    ensures b in up ==> b < |f.blocks| && b < |code| && PhisInFront(code[b], f.blocks[b].instrs)
  {
    if b in up { assert PreparedBlock(f, code, up, po, first, b); }
  }

  /** A path that has stored v arrives at b with a value for v. */
  lemma {:induction false} StoredPathHasValue(f: Function, g: Graph, code: Code, up: Up, po: Order, first: nat,
                                              p: seq<Block>, b: Block, v: nat)
    requires Ready(f, g, code, up, po, first)
    requires PathFromTo(g, p, ENTRY, b) && StoresOn(f, p[..|p| - 1], v)
    ensures b in up && v in CtxPhi(code, up, po, b).cur
    decreases |p|
  {
    hide Prepared;
    assert Reachable(g, b);
    var q := p[..|p| - 1];
    var a := q[|q| - 1];
    assert Edge(g, p[|p| - 2], p[|p| - 1]);
    assert PathFromTo(g, q, ENTRY, a) by {
      forall i | 0 <= i < |q| - 1 ensures Edge(g, q[i], q[i + 1]) { assert Edge(g, p[i], p[i + 1]); }
    }
    assert Reachable(g, a);
    ReadyBlock(f, g, code, up, po, first, a);
    ReadyBlock(f, g, code, up, po, first, b);
    assert v in CtxPhi(code, up, po, a).cur || Stores(code[a], v) by {
      var i := Storing(f, q, v);
      if i == |q| - 1 {
        StoresPlacedIff(code[a], f.blocks[a].instrs, v);
      } else {
        assert q[..|q| - 1][i] == q[i];
        StoredPathHasValue(f, g, code, up, po, first, q, a, v);
      }
    }
    OutKeeps(code, up, po, a, v);
    ArrivesWithValue(f, g, code, up, po, first, a, b, v);
  }

  lemma Storing(f: Function, p: seq<Block>, v: nat) returns (i: nat)
    requires StoresOn(f, p, v)
    ensures i < |p| && p[i] < |f.blocks| && Stores(f.blocks[p[i]].instrs, v)
  {
    i :| i < |p| && p[i] < |f.blocks| && Stores(f.blocks[p[i]].instrs, v);
  }

  lemma ArrivesWithValue(f: Function, g: Graph, code: Code, up: Up, po: Order, first: nat, a: Block, b: Block, v: nat)
    requires Ready(f, g, code, up, po, first) && a in up && b in up && Edge(g, a, b)
    requires v in CtxOut(code, up, po, a).cur
    ensures v in CtxPhi(code, up, po, b).cur
  {
    assert a in g.pred[b];
    if !HasPhi(At(code, b), v) {
      NoPhiSameValue(code, g, up, po, a, b, v);
    }
    PhiScanHas(At(code, b), CtxIn(code, up, po, b), v);
  }

  /** A reachable block is entered along some path, and that path or the block has stored v. */
  lemma Witness(f: Function, g: Graph, b: Block, k: nat, v: nat) returns (p: seq<Block>)
    requires b < |f.blocks| && k <= |f.blocks[b].instrs| && Reachable(g, b) && InitialisedAt(f, g, b, k, v)
    ensures PathFromTo(g, p, ENTRY, b) && (StoresOn(f, p[..|p| - 1], v) || Stores(f.blocks[b].instrs[..k], v))
  {
    p :| PathFromTo(g, p, ENTRY, b);
  }

  /** Initialised on every path means defined where renaming stands. */
  lemma InitialisedHasValue(f: Function, g: Graph, code: Code, up: Up, po: Order, first: nat, b: Block, k: nat, v: nat)
    requires Ready(f, g, code, up, po, first) && b in up && b < |f.blocks| && b < |code| && k <= |f.blocks[b].instrs|
    requires InitialisedAt(f, g, b, k, v)
    ensures |f.blocks[b].instrs| <= |code[b]|
    ensures v in CtxAt(code[b], CtxPhi(code, up, po, b), |code[b]| - |f.blocks[b].instrs| + k).cur
  {
    hide Prepared, CtxPhi, CtxAt, InitialisedAt;
    ReadyBlock(f, g, code, up, po, first, b);
    assert v in CtxPhi(code, up, po, b).cur || Stores(f.blocks[b].instrs[..k], v) by {
      var p := Witness(f, g, b, k, v);
      if StoresOn(f, p[..|p| - 1], v) { StoredPathHasValue(f, g, code, up, po, first, p, b, v); }
    }
    PlacedCtxHas(code[b], f.blocks[b].instrs, CtxPhi(code, up, po, b), k, v);
  }

  lemma PlacedCtxHas(placed: seq<Instr>, body: seq<Instr>, c: Ctx, k: nat, v: nat)
    requires PhisInFront(placed, body) && k <= |body| && (v in c.cur || Stores(body[..k], v))
    ensures v in CtxAt(placed, c, |placed| - |body| + k).cur
  {
    PlacedStores(placed, body, k, v);
    CtxAtHas(placed, c, |placed| - |body| + k, v);
  }

  lemma LoadsAreInitialised(f: Function, g: Graph, b: Block, k: nat)
    requires LoadsInitialised(f, g) && b < |f.blocks| && Reachable(g, b) && k < |f.blocks[b].instrs|
    requires f.blocks[b].instrs[k].Load? && f.blocks[b].instrs[k].addr.Local?
    ensures InitialisedAt(f, g, b, k, f.blocks[b].instrs[k].addr.slot)
  {
  }

  /** A load of the placed code is one of the input, n positions earlier. */
  lemma PlacedLoad(f: Function, g: Graph, code: Code, up: Up, po: Order, first: nat, b: Block, j: nat) returns (n: nat)
    requires Ready(f, g, code, up, po, first) && b in up && b < |code| && j < |code[b]| && code[b][j].Load?
    ensures Reachable(g, b) && b < |f.blocks| && n <= j && |code[b]| == n + |f.blocks[b].instrs|
    ensures code[b][j] == f.blocks[b].instrs[j - n]
  {
    hide Prepared;
    ReadyBlock(f, g, code, up, po, first, b);
    n := |code[b]| - |f.blocks[b].instrs|;
    assert code[b][n..][j - n] == f.blocks[b].instrs[j - n];
  }

  lemma LoadHasValue(f: Function, g: Graph, code: Code, up: Up, po: Order, first: nat, b: Block, j: nat)
    requires Ready(f, g, code, up, po, first) && LoadsInitialised(f, g)
    requires b in up && b < |code| && j < |code[b]| && code[b][j].Load? && code[b][j].addr.Local?
    ensures code[b][j].addr.slot in CtxAt(code[b], CtxPhi(code, up, po, b), j).cur
  {
    hide Prepared;
    var n := PlacedLoad(f, g, code, up, po, first, b, j);
    LoadsAreInitialised(f, g, b, j - n);
    InitialisedHasValue(f, g, code, up, po, first, b, j - n, code[b][j].addr.slot);
  }

  lemma EdgesAreInitialised(f: Function, g: Graph, p: Block, b: Block, v: nat)
    requires g.Valid() && PhiEdgesInitialised(f, g) && p < |f.blocks| && Reachable(g, p) && Edge(g, p, b) && NeedsPhi(f, g, b, v)
    ensures InitialisedAt(f, g, p, |f.blocks[p].instrs|, v)
  {
  }

  lemma EndHasValue(f: Function, g: Graph, code: Code, up: Up, po: Order, first: nat, p: Block, v: nat)
    requires Ready(f, g, code, up, po, first) && p in up && p < |f.blocks| && p < |code|
    requires InitialisedAt(f, g, p, |f.blocks[p].instrs|, v)
    ensures v in CtxOut(code, up, po, p).cur
  {
    hide Prepared;
    InitialisedHasValue(f, g, code, up, po, first, p, |f.blocks[p].instrs|, v);
    AtEnd(code[p], CtxPhi(code, up, po, p));
  }

  lemma EdgeDefined(f: Function, S: Source, first: nat, p: Block, b: Block, v: nat)
    requires PlacedForm(f, S, first) && PhiEdgesInitialised(f, S.g) && p in S.up && p < |S.code| && p < |f.blocks|
    ensures !UndefinedEdge(S, p, b, v)
  {
    hide PhiEdgesInitialised, NeedsPhi, CtxOut;
    if Edge(S.g, p, b) && HasPhi(At(S.code, b), v) {
      ReachableStep(S.g, p, b);
      assert PhiMatches(f, S, b, v);
      EdgesAreInitialised(f, S.g, p, b, v);
      EndHasValue(f, S.g, S.code, S.up, S.po, first, p, v);
    }
  }

  /** With every load and every edge into a phi initialised, renaming finds a value wherever it looks. */
  lemma NothingUndefined(f: Function, S: Source, first: nat, b: Block, v: nat)
    requires PlacedForm(f, S, first) && LoadsInitialised(f, S.g) && PhiEdgesInitialised(f, S.g) && b in S.up
    ensures !ReadsAt(S, b, v)
  {
    hide LoadsInitialised, PhiEdgesInitialised, CtxPhi, CtxOut;
    assert PreparedBlock(f, S.code, S.up, S.po, first, b);
    if k: nat :| UndefinedLoadOf(S, b, k, v) { LoadHasValue(f, S.g, S.code, S.up, S.po, first, b, k); }
    if s :| UndefinedEdge(S, b, s, v) { EdgeDefined(f, S, first, b, s, v); }
  }

  predicate TouchesLocal(i: Instr) {
    (i.Load? || i.Store?) && i.addr.Local?
  }

  lemma CodeWithoutLocals(f: Function, g: Graph, code: Code, up: Up, po: Order, first: nat, b: Block)
    requires Prepared(f, g, code, up, po, first) && LoadsInitialised(f, g) && b in up && b < |code|
    ensures forall i :: i in RenameAll(code[b], CtxPhi(code, up, po, b)) ==> !TouchesLocal(i)
  {
    var body := code[b];
    assert PreparedBlock(f, code, up, po, first, b);
    forall j | 0 <= j < |body| && body[j].Load? && body[j].addr.Local?
      ensures body[j].addr.slot in CtxAt(body, CtxPhi(code, up, po, b), j).cur
    {
      LoadHasValue(f, g, code, up, po, first, b, j);
    }
    RenamedWithoutLocals(body, CtxPhi(code, up, po, b), 0);
    assert body[0..] == body;
  }

  /** With every load initialised, no load or store of a local is left after renaming. */
  lemma NoLocalsLeft(f: Function, g: Graph, code: Code, up: Up, po: Order, first: nat, f': Function, b: Block, k: nat)
    requires Prepared(f, g, code, up, po, first) && Finished(f, g, code, up, po, f') && LoadsInitialised(f, g)
    requires b in up && b < |f'.blocks| && k < |f'.blocks[b].instrs|
    ensures !TouchesLocal(f'.blocks[b].instrs[k])
  {
    var out := f'.blocks[b].instrs;
    assert PreparedBlock(f, code, up, po, first, b);
    assert FinishedBlock(f, g, code, up, po, f', b);
    CodeWithoutLocals(f, g, code, up, po, first, b);
    assert Core(out[k]) == Cores(out)[k];
    assert Cores(out)[k] in RenameAll(code[b], CtxPhi(code, up, po, b));
  }

  lemma {:induction false} RenamedWithoutLocals(body: seq<Instr>, c: Ctx, k: nat)
    requires k <= |body|
    requires forall j :: 0 <= j < |body| && body[j].Load? && body[j].addr.Local? ==> body[j].addr.slot in CtxAt(body, c, j).cur
    ensures forall i :: i in RenameAll(body[k..], CtxAt(body, c, k)) ==> !TouchesLocal(i)
    decreases |body| - k
  {
    if k < |body| {
      RenamedWithoutLocals(body, c, k + 1);
      RenameAllFrom(body, CtxAt(body, c, k), k);
    }
  }

  function Assemble(code: Code, terms: seq<Terminator>): (f: Function)
    requires |code| == |terms|
    ensures |f.blocks| == |code| && forall b :: 0 <= b < |code| ==> f.blocks[b] == BasicBlock(code[b], terms[b])
  {
    Function(seq(|code|, b requires 0 <= b < |code| => BasicBlock(code[b], terms[b])))
  }

  // ----- the pass as a whole -----

  ghost predicate Input(f: Function, g: Graph, first: nat) {
    ValidInput(f, g, first) && JoinsReachable(g)
  }

  ghost predicate Begun(f: Function, S: Source, first: nat) {
    PlacedForm(f, S, first) && S.Valid() && S.terms == Terms(f)
  }

  lemma InputFacts(f: Function, g: Graph, first: nat)
    requires Input(f, g, first)
    ensures g.Valid() && g.pred[ENTRY] == [] && JoinsReachable(g) && |Bodies(f)| == |g.pred|
    ensures forall b, k :: 0 <= b < |Bodies(f)| && 0 <= k < |Bodies(f)[b]| ==> !Bodies(f)[b][k].Phi?
  {
  }

  ghost predicate Analysed(g: Graph, up: Up, po: Order, df: Frontiers) {
    Exact(g, up, po) && FrontiersOf(g, df)
  }

  ghost predicate Placed(f: Function, S: Source, df: Frontiers, has: set<(Block, nat)>, first: nat, next: nat) {
    && Analysed(S.g, S.up, S.po, df) && S.terms == Terms(f)
    && PhisPlaced(Bodies(f), S.code, has, first, next) && OnFrontiers(Bodies(f), df, has)
  }

  /** Phis on the frontiers of an exact dominator tree: renaming can begin. */
  lemma Begin(f: Function, S: Source, df: Frontiers, has: set<(Block, nat)>, first: nat, next: nat)
    requires Input(f, S.g, first) && Placed(f, S, df, has, first, next)
    ensures Begun(f, S, first) && Consistent(S, S.code, S.terms, map[], {}, {}, {})
  {
    hide ValidInput, PhisPlaced, OnFrontiers, FrontiersOf, JoinsReachable, PhisMatch, Prepared, Source.Valid, ConsistentParts;
    InputFacts(f, S.g, first);
    PlacedIsPrepared(f, S.g, S.up, S.po, S.code, df, has, first, next);
    InputHasGraph(f, S.g, first);
    PlacedMatches(f, S, df, has, first, next);
    PreparedHasEntry(f, S.g, S.code, S.up, S.po, first);
    StartConsistent(S);
  }

  lemma InputHasGraph(f: Function, g: Graph, first: nat)
    requires Input(f, g, first)
    ensures HasGraph(f, g)
  {
  }

  lemma PreparedHasEntry(f: Function, g: Graph, code: Code, up: Up, po: Order, first: nat)
    requires Prepared(f, g, code, up, po, first)
    ensures ENTRY in up
  {
  }

  /** What the state at the end of renaming means for the function. */
  lemma RenamedIsFinished(f: Function, S: Source, first: nat, code: Code, terms: seq<Terminator>,
                          sub: map<nat, Operand>, processed: set<nat>)
    requires Prepared(f, S.g, S.code, S.up, S.po, first) && S.terms == Terms(f)
    requires Consistent(S, code, terms, sub, processed, S.up.Keys, S.up.Keys)
    ensures Finished(f, S.g, S.code, S.up, S.po, Assemble(code, terms)) && HasGraph(Assemble(code, terms), S.g)
  {
    hide ConsistentParts;
    var f' := Assemble(code, terms);
    forall b {:trigger FinishedBlock(f, S.g, S.code, S.up, S.po, f', b)} | b in S.up
      ensures FinishedBlock(f, S.g, S.code, S.up, S.po, f', b)
    {
      EndRenamed(S, code, terms, sub, processed, b);
    }
    forall b | 0 <= b < |f'.blocks| ensures S.g.succ[b] == Successors(f'.blocks[b].term) {
      EndTargets(S, code, terms, sub, processed, S.up.Keys, S.up.Keys, b);
    }
  }

  /** Renamed code without its scalar allocas does what the original does. */
  lemma WholePass(f: Function, S: Source, first: nat, code: Code, terms: seq<Terminator>,
                  sub: map<nat, Operand>, processed: set<nat>, dropped: Code)
    requires Begun(f, S, first) && Consistent(S, code, terms, sub, processed, S.up.Keys, S.up.Keys)
    requires |dropped| == |code| && forall b :: 0 <= b < |code| ==> dropped[b] == DropAllocas(code[b])
    ensures |dropped| == |terms| && Refines(f, Assemble(dropped, terms))
  {
    hide ConsistentParts;
    RenamedIsFinished(f, S, first, code, terms, sub, processed);
    var f', f'' := Assemble(code, terms), Assemble(dropped, terms);
    assert AllocasDropped(f', f'');
    forall args, ext, w, fuel | Start(f, args, ext, w, fuel) != Stuck
      ensures Start(f'', args, ext, w, fuel) == Start(f, args, ext, w, fuel)
    {
      Mem2RegPreservesMeaning(f, S.g, S.code, S.up, S.po, first, f', f'', args, ext, w, fuel);
    }
  }
}
