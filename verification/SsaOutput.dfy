// What SSA construction leaves behind is valid SSA: every register is defined once,
// and its definition dominates each of its uses.
module SsaOutput {
  import opened Cfg
  import opened IdomTree
  import opened IdomFixpoint
  import opened IR
  import opened Renaming
  import opened RenameSteps
  import opened RenameState
  import opened Mem2RegMeaning
  import opened PhiPlacement
  import opened SsaInput
  import opened EmptyStacks
  import opened PhiSites
  import opened Initialised

  // ----- valid SSA, by paths -----

  /** The operands of instruction k of block b are defined before it. */
  ghost predicate UsesDefined(f: Function, g: Graph, b: Block, k: nat) {
    && b < |f.blocks| && k < |f.blocks[b].instrs|
    && forall r :: r in Uses(f.blocks[b].instrs[k]) ==> DefinedBefore(f, g, b, k, r)
  }

  /** Each operand of phi k of block b is paired with a predecessor at whose end it is defined,
      and each predecessor with one operand. */
  ghost predicate PairsDefined(f: Function, g: Graph, b: Block, k: nat) {
    && b < |f.blocks| && k < |f.blocks[b].instrs|
    && var i := f.blocks[b].instrs[k];
       i.Phi? ==>
         && (forall o, p :: (o, p) in i.pairs ==> p < |f.blocks| && Reachable(g, p) && Edge(g, p, b))
         && (forall o, p, r :: (o, p) in i.pairs && r in RegsOf(o) ==> p < |f.blocks| && DefinedBefore(f, g, p, |f.blocks[p].instrs|, r))
         && (forall o, o', p :: (o, p) in i.pairs && (o', p) in i.pairs ==> o == o')
  }

  ghost predicate TermDefined(f: Function, g: Graph, b: Block) {
    && b < |f.blocks|
    && forall r :: r in TermUses(f.blocks[b].term) ==> DefinedBefore(f, g, b, |f.blocks[b].instrs|, r)
  }

  /** Phis stand at the head of the block. */
  ghost predicate PhisFirst(code: seq<Instr>) {
    forall j, k :: 0 <= j < k < |code| && code[k].Phi? ==> code[j].Phi?
  }

  ghost predicate SsaBlock(f: Function, g: Graph, b: Block) {
    && b < |f.blocks| && TermDefined(f, g, b) && PhisFirst(f.blocks[b].instrs)
    && (forall k {:trigger UsesDefined(f, g, b, k)} :: 0 <= k < |f.blocks[b].instrs| ==> UsesDefined(f, g, b, k))
    && (forall k {:trigger PairsDefined(f, g, b, k)} :: 0 <= k < |f.blocks[b].instrs| ==> PairsDefined(f, g, b, k))
  }

  ghost predicate ValidSSA(f: Function, g: Graph) {
    && HasGraph(f, g) && DefinedOnce(Bodies(f))
    && (forall b {:trigger SsaBlock(f, g, b)} :: Reachable(g, b) ==> SsaBlock(f, g, b))
  }

  // ----- positions that survive erasing -----

  /** How many of the first k positions are kept. */
  function Rank(del: set<nat>, k: nat): nat {
    if k == 0 then 0 else Rank(del, k - 1) + if k - 1 in del then 0 else 1
  }

  lemma {:induction false} RankGrows(del: set<nat>, j: nat, k: nat)
    requires j < k && j !in del
    ensures Rank(del, j) < Rank(del, k)
    decreases k
  {
    if j < k - 1 { RankGrows(del, j, k - 1); }
  }

  lemma {:induction false} EraseSuffix(code: seq<Instr>, del: set<nat>, k: nat)
    requires k <= |code|
    ensures |Erase(code, del, 0)| == Rank(del, k) + |Erase(code, del, k)|
    ensures Erase(code, del, 0)[Rank(del, k)..] == Erase(code, del, k)
  {
    if k > 0 { EraseSuffix(code, del, k - 1); }
  }

  /** Position k, if kept, is found again at its rank. */
  lemma EraseAt(code: seq<Instr>, del: set<nat>, k: nat)
    requires k < |code| && k !in del
    ensures Rank(del, k) < |Erase(code, del, 0)| && Erase(code, del, 0)[Rank(del, k)] == code[k]
  {
    EraseSuffix(code, del, k);
    assert Erase(code, del, 0)[Rank(del, k)..][0] == code[k];
  }

  /** Every position of the erased code comes from a kept position. */
  lemma EraseOrigin(code: seq<Instr>, del: set<nat>, k: nat) returns (o: nat)
    requires k < |Erase(code, del, 0)|
    ensures o < |code| && o !in del && Rank(del, o) == k && Erase(code, del, 0)[k] == code[o]
  {
    EraseSuffix(code, del, |code|);
    o := RankOrigin(del, |code|, k);
    EraseAt(code, del, o);
  }

  lemma {:induction false} RankOrigin(del: set<nat>, n: nat, k: nat) returns (o: nat)
    requires k < Rank(del, n)
    ensures o < n && o !in del && Rank(del, o) == k
  {
    if k < Rank(del, n - 1) { o := RankOrigin(del, n - 1, k); } else { o := n - 1; }
  }

  lemma RankInjective(del: set<nat>, j: nat, k: nat)
    requires j !in del && k !in del && Rank(del, j) <= Rank(del, k)
    ensures j <= k
  {
    if k < j { RankGrows(del, k, j); }
  }

  // ----- the renamed block as erased positions -----

  ghost function Removed(body: seq<Instr>, c: Ctx): set<nat> {
    set j: nat | j < |body| && Deleted(body[j], CtxAt(body, c, j))
  }

  /** Every position rewritten in place, none deleted. */
  function Substituted(body: seq<Instr>, c: Ctx): (r: seq<Instr>)
    ensures |r| == |body| && forall j :: 0 <= j < |body| ==> r[j] == SubstInstr(CtxAt(body, c, j).sub, body[j])
  {
    seq(|body|, j requires 0 <= j < |body| => SubstInstr(CtxAt(body, c, j).sub, body[j]))
  }

  lemma RenameNothing(c: Ctx)
    ensures RenameAll([], c) == []
  {
  }

  lemma {:induction false} RenamedIsErased(body: seq<Instr>, c: Ctx, k: nat)
    requires k <= |body|
    ensures RenameAll(body[k..], CtxAt(body, c, k)) == Erase(Substituted(body, c), Removed(body, c), k)
    decreases |body| - k
  {
    hide RenameAll, Deleted, SubstInstr, Advance;
    if k < |body| {
      RenamedIsErased(body, c, k + 1);
      RenameAllFrom(body, CtxAt(body, c, k), k);
      assert CtxAt(body, c, k + 1) == Advance(body[k], CtxAt(body, c, k));
      assert k in Removed(body, c) <==> Deleted(body[k], CtxAt(body, c, k));
    } else {
      RenameNothing(CtxAt(body, c, k));
      assert body[k..] == [];
    }
  }

  /** Where position k of the renamed block comes from. */
  lemma OutOrigin(body: seq<Instr>, c: Ctx, out: seq<Instr>, k: nat) returns (o: nat)
    requires Cores(out) == RenameAll(body, c) && k < |out|
    ensures o < |body| && o !in Removed(body, c) && Rank(Removed(body, c), o) == k
    ensures Core(out[k]) == SubstInstr(CtxAt(body, c, o).sub, body[o])
  {
    RenamedIsErased(body, c, 0);
    assert body[0..] == body;
    o := EraseOrigin(Substituted(body, c), Removed(body, c), k);
    assert Core(out[k]) == Cores(out)[k];
  }

  /** Where a kept position is found in the renamed block. */
  lemma OutPosition(body: seq<Instr>, c: Ctx, out: seq<Instr>, o: nat)
    requires Cores(out) == RenameAll(body, c) && o < |body| && !Deleted(body[o], CtxAt(body, c, o))
    ensures Rank(Removed(body, c), o) < |out|
    ensures Core(out[Rank(Removed(body, c), o)]) == SubstInstr(CtxAt(body, c, o).sub, body[o])
  {
    RenamedIsErased(body, c, 0);
    assert body[0..] == body;
    EraseAt(Substituted(body, c), Removed(body, c), o);
    assert Core(out[Rank(Removed(body, c), o)]) == Cores(out)[Rank(Removed(body, c), o)];
  }

  // ----- registers that are still defined after renaming -----

  /** The registers of a context that have not been replaced. */
  function Live(c: Ctx): set<nat> {
    c.scope - c.sub.Keys
  }

  /** Position o defines r and is kept. */
  ghost predicate KeptDef(body: seq<Instr>, c: Ctx, o: nat, r: nat) {
    o < |body| && r in Def(body[o]) && !Deleted(body[o], CtxAt(body, c, o))
  }

  lemma {:induction false} LiveInBody(body: seq<Instr>, c: Ctx, k: nat, r: nat)
    requires k <= |body| && r in Live(CtxAt(body, c, k)) && r !in Live(c)
    ensures exists o: nat :: o < k && KeptDef(body, c, o, r)
  {
    if k == 0 {
      assert false;
    } else if r in Live(CtxAt(body, c, k - 1)) {
      LiveInBody(body, c, k - 1, r);
    } else {
      assert KeptDef(body, c, k - 1, r);
    }
  }

  /** Phis come before position k: a register live there is live on entry or has been defined earlier. */
  lemma LiveInBlock(body: seq<Instr>, n: nat, c: Ctx, k: nat, r: nat)
    requires n <= k <= |body| && forall j :: 0 <= j < |body| && body[j].Phi? ==> j < n
    requires r in Live(CtxAt(body, PhiScan(body, c), k)) && r !in Live(c)
    ensures exists o: nat :: o < k && KeptDef(body, PhiScan(body, c), o, r)
  {
    var c' := PhiScan(body, c);
    PhiScanScopeIs(body, c, r);
    PhiScanSub(body, c);
    if r in Live(c') {
      var j :| 0 <= j < |body| && body[j].Phi? && body[j].dst == r;
      assert KeptDef(body, c', j, r);
    } else {
      LiveInBody(body, c', k, r);
    }
  }

  lemma {:induction false} PhiScanSub(body: seq<Instr>, c: Ctx)
    ensures PhiScan(body, c).sub == c.sub
  {
    if body != [] {
      PhiScanSub(body[1..], if body[0].Phi? then Ctx(c.cur[body[0].lval := Reg(body[0].dst)], c.sub, c.scope + {body[0].dst}) else c);
    }
  }

  lemma DefOfCore(i: Instr, sub: map<nat, Operand>)
    ensures Def(SubstInstr(sub, i)) == Def(i) == Def(Core(i)) && (SubstInstr(sub, i).Phi? <==> i.Phi?) && (Core(i).Phi? <==> i.Phi?)
    ensures Uses(Core(i)) == Uses(i)
  {
  }

  lemma DefKept(body: seq<Instr>, c: Ctx, out: seq<Instr>, o: nat, r: nat)
    requires Cores(out) == RenameAll(body, c) && KeptDef(body, c, o, r)
    ensures Rank(Removed(body, c), o) < |out| && r in Def(out[Rank(Removed(body, c), o)]) && r in Defs(out)
  {
    OutPosition(body, c, out, o);
    DefOfCore(body[o], CtxAt(body, c, o).sub);
    DefOfCore(out[Rank(Removed(body, c), o)], map[]);
  }

  // ----- the renamed function -----

  lemma PreparedIsExact(f: Function, g: Graph, code: Code, up: Up, po: Order, first: nat)
    requires Prepared(f, g, code, up, po, first)
    ensures Exact(g, up, po)
  {
  }

  /** A register live at the end of b is defined, after renaming, in b or above it. */
  lemma {:induction false} LiveOnChain(f: Function, g: Graph, code: Code, up: Up, po: Order, first: nat, f': Function,
                                       b: Block, r: nat) returns (x: Block)
    requires Prepared(f, g, code, up, po, first) && Finished(f, g, code, up, po, f')
    requires b in up && r in Live(CtxOut(code, up, po, b))
    ensures x in Chain(up, po, b) && x < |f'.blocks| && r in Defs(f'.blocks[x].instrs)
    decreases Below(po, b)
  {
    hide PhiScan, Scan, RenameAll, Prepared, Finished, Defs;
    PreparedIsExact(f, g, code, up, po, first);
    ChainBounds(up, po, b);
    if r in Live(CtxIn(code, up, po, b)) {
      Step(up, po, b);
      x := LiveOnChain(f, g, code, up, po, first, f', up[b], r);
    } else {
      var n := OpenFinished(f, g, code, up, po, first, f', b);
      var c := CtxPhi(code, up, po, b);
      AtEnd(code[b], c);
      LiveInBlock(code[b], n, CtxIn(code, up, po, b), |code[b]|, r);
      var o: nat :| o < |code[b]| && KeptDef(code[b], c, o, r);
      DefKept(code[b], c, f'.blocks[b].instrs, o, r);
      x := b;
    }
  }

  /** What is known of block b before and after renaming: n phis, then the rest. */
  lemma OpenFinished(f: Function, g: Graph, code: Code, up: Up, po: Order, first: nat, f': Function, b: Block) returns (n: nat)
    requires Prepared(f, g, code, up, po, first) && Finished(f, g, code, up, po, f') && b in up
    ensures b < |code| && b < |f.blocks| && b < |f'.blocks| && n <= |code[b]|
    ensures forall j :: 0 <= j < |code[b]| ==> (code[b][j].Phi? <==> j < n)
    ensures Cores(f'.blocks[b].instrs) == RenameAll(code[b], CtxPhi(code, up, po, b))
    ensures f'.blocks[b].term == SubstTerm(CtxOut(code, up, po, b).sub, f.blocks[b].term)
    ensures WfCtx(CtxPhi(code, up, po, b)) && WfCtx(CtxOut(code, up, po, b)) && Scoped(code[b], CtxPhi(code, up, po, b).scope)
    ensures TermUses(f.blocks[b].term) <= CtxOut(code, up, po, b).scope
    ensures forall k :: 0 <= k < |code[b]| && code[b][k].Phi? ==> code[b][k].pairs == []
    ensures CtxPhi(code, up, po, b) == PhiScan(code[b], CtxIn(code, up, po, b))
    ensures CtxOut(code, up, po, b) == Scan(code[b], CtxPhi(code, up, po, b))
    ensures b == ENTRY ==> CtxIn(code, up, po, b) == EMPTY
    ensures b != ENTRY ==> up[b] in up && CtxIn(code, up, po, b) == CtxOut(code, up, po, up[b])
  {
    hide CtxIn, CtxPhi, CtxOut, PhiScan, Scan, RenameAll, PhisFresh, Scoped, WfCtx;
    assert PreparedBlock(f, code, up, po, first, b) && FinishedBlock(f, g, code, up, po, f', b);
    PreparedIsScoped(f, g, code, up, po, first);
    CtxWellFormed(code, up, po, b);
    CtxUnfolds(code, up, po, b);
    assert BlockScoped(code, up, po, b);
    FreshPhisEmpty(code[b], CtxIn(code, up, po, b).scope);
    n := |code[b]| - |f.blocks[b].instrs|;
    assert forall j :: n <= j < |code[b]| ==> code[b][j] == code[b][n..][j - n];
  }

  lemma CtxUnfolds(code: Code, up: Up, po: Order, b: Block)
    requires Climbs(up, po) && b in up
    ensures CtxPhi(code, up, po, b) == PhiScan(At(code, b), CtxIn(code, up, po, b))
    ensures CtxOut(code, up, po, b) == Scan(At(code, b), CtxPhi(code, up, po, b))
    ensures b == ENTRY ==> CtxIn(code, up, po, b) == EMPTY
    ensures b != ENTRY ==> up[b] in up && CtxIn(code, up, po, b) == CtxOut(code, up, po, up[b])
  {
    hide PhiScan, Scan;
    if b != ENTRY { Step(up, po, b); }
  }

  lemma {:induction false} FreshPhisEmpty(code: seq<Instr>, scope: set<nat>)
    requires PhisFresh(code, scope)
    ensures forall k :: 0 <= k < |code| && code[k].Phi? ==> code[k].pairs == []
  {
    if code != [] {
      FreshPhisEmpty(code[1..], if code[0].Phi? then scope + {code[0].dst} else scope);
      assert forall k :: 0 < k < |code| ==> code[k] == code[1..][k - 1];
    }
  }

  /** A register live at the end of p is defined before it. */
  lemma LiveIsDefined(f: Function, g: Graph, code: Code, up: Up, po: Order, first: nat, f': Function, p: Block, r: nat)
    requires Prepared(f, g, code, up, po, first) && Finished(f, g, code, up, po, f')
    requires p in up && r in Live(CtxOut(code, up, po, p))
    ensures p < |f'.blocks| && DefinedBefore(f', g, p, |f'.blocks[p].instrs|, r)
  {
    var x := LiveOnChain(f, g, code, up, po, first, f', p, r);
    var n := OpenFinished(f, g, code, up, po, first, f', p);
    assert Dominates(g, x, p);
    var j: nat :| j < |f'.blocks[x].instrs| && r in Def(f'.blocks[x].instrs[j]);
  }

  /** A register live on entry to b is defined in a strict dominator of b. */
  lemma LiveInIsDefined(f: Function, g: Graph, code: Code, up: Up, po: Order, first: nat, f': Function, b: Block, k: nat, r: nat)
    requires Prepared(f, g, code, up, po, first) && Finished(f, g, code, up, po, f')
    requires b in up && r in Live(CtxIn(code, up, po, b)) && b < |f'.blocks| && k <= |f'.blocks[b].instrs|
    ensures DefinedBefore(f', g, b, k, r)
  {
    Step(up, po, b);
    var x := LiveOnChain(f, g, code, up, po, first, f', up[b], r);
    ExactLinks(g, up, po, b);
    assert StrictlyDominates(g, x, b);
  }

  lemma UseIsDefined(f: Function, g: Graph, code: Code, up: Up, po: Order, first: nat, f': Function, b: Block, k: nat, r: nat)
    requires Prepared(f, g, code, up, po, first) && Finished(f, g, code, up, po, f')
    requires b in up && b < |f'.blocks| && k < |f'.blocks[b].instrs| && r in Uses(f'.blocks[b].instrs[k])
    ensures DefinedBefore(f', g, b, k, r)
  {
    hide PhiScan, Scan, RenameAll, Prepared, Finished, Defs, DefinedBefore;
    PreparedIsExact(f, g, code, up, po, first);
    var n := OpenFinished(f, g, code, up, po, first, f', b);
    var body, c, out := code[b], CtxPhi(code, up, po, b), f'.blocks[b].instrs;
    var o := OutOrigin(body, c, out, k);
    DefOfCore(out[k], map[]);
    DefOfCore(body[o], CtxAt(body, c, o).sub);
    ScopedAt(body, c, o);
    SubstMentions(CtxAt(body, c, o), body[o]);
    assert r in Live(CtxAt(body, c, o));
    if r in Live(CtxIn(code, up, po, b)) {
      LiveInIsDefined(f, g, code, up, po, first, f', b, k, r);
    } else {
      LiveInBlock(body, n, CtxIn(code, up, po, b), o, r);
      var j: nat :| j < o && KeptDef(body, c, j, r);
      DefKept(body, c, out, j, r);
      RankGrows(Removed(body, c), j, o);
      DefinedHere(f', g, b, Rank(Removed(body, c), j), k, r);
    }
  }

  lemma DefinedHere(f: Function, g: Graph, b: Block, j: nat, k: nat, r: nat)
    requires b < |f.blocks| && j < k <= |f.blocks[b].instrs| && r in Def(f.blocks[b].instrs[j])
    ensures DefinedBefore(f, g, b, k, r)
  {
  }

  lemma PairsAreDefined(f: Function, g: Graph, code: Code, up: Up, po: Order, first: nat, f': Function, b: Block, k: nat)
    requires Prepared(f, g, code, up, po, first) && Finished(f, g, code, up, po, f')
    requires b in up && b < |f'.blocks| && k < |f'.blocks[b].instrs|
    ensures PairsDefined(f', g, b, k)
  {
    var i := f'.blocks[b].instrs[k];
    if i.Phi? {
      assert FinishedBlock(f, g, code, up, po, f', b);
      assert PairsFrom(code, up, po, g, up.Keys, b, i.lval, i.pairs);
      forall o, p | (o, p) in i.pairs
        ensures p < |f'.blocks| && Reachable(g, p) && Edge(g, p, b) && o == CtxOut(code, up, po, p).cur[i.lval]
        ensures forall r :: r in RegsOf(o) ==> DefinedBefore(f', g, p, |f'.blocks[p].instrs|, r)
      {
        var n := OpenFinished(f, g, code, up, po, first, f', p);
        forall r | r in RegsOf(o) ensures DefinedBefore(f', g, p, |f'.blocks[p].instrs|, r) {
          assert r in Live(CtxOut(code, up, po, p));
          LiveIsDefined(f, g, code, up, po, first, f', p, r);
        }
      }
    }
  }

  lemma PhisStayFirst(body: seq<Instr>, c: Ctx, out: seq<Instr>, n: nat)
    requires Cores(out) == RenameAll(body, c) && forall j :: 0 <= j < |body| ==> (body[j].Phi? <==> j < n)
    ensures PhisFirst(out)
  {
    var del := Removed(body, c);
    forall j, k | 0 <= j < k < |out| && out[k].Phi? ensures out[j].Phi? {
      var o := OutOrigin(body, c, out, j);
      var o' := OutOrigin(body, c, out, k);
      DefOfCore(body[o], CtxAt(body, c, o).sub);
      DefOfCore(body[o'], CtxAt(body, c, o').sub);
      DefOfCore(out[j], map[]);
      DefOfCore(out[k], map[]);
      RankInjective(del, o, o');
    }
  }

  lemma FinishedIsSsa(f: Function, g: Graph, code: Code, up: Up, po: Order, first: nat, f': Function, b: Block)
    requires Prepared(f, g, code, up, po, first) && Finished(f, g, code, up, po, f') && b in up
    ensures SsaBlock(f', g, b)
  {
    hide PhiScan, Scan, RenameAll, Prepared, Finished, Defs, DefinedBefore;
    PreparedIsExact(f, g, code, up, po, first);
    var n := OpenFinished(f, g, code, up, po, first, f', b);
    var out := f'.blocks[b].instrs;
    PhisStayFirst(code[b], CtxPhi(code, up, po, b), out, n);
    forall k {:trigger UsesDefined(f', g, b, k)} | 0 <= k < |out| ensures UsesDefined(f', g, b, k) {
      forall r | r in Uses(out[k]) ensures DefinedBefore(f', g, b, k, r) {
        UseIsDefined(f, g, code, up, po, first, f', b, k, r);
      }
    }
    forall k {:trigger PairsDefined(f', g, b, k)} | 0 <= k < |out| ensures PairsDefined(f', g, b, k) {
      PairsAreDefined(f, g, code, up, po, first, f', b, k);
    }
    SubstTermMentions(CtxOut(code, up, po, b), f.blocks[b].term);
    forall r | r in TermUses(f'.blocks[b].term) ensures DefinedBefore(f', g, b, |out|, r) {
      LiveIsDefined(f, g, code, up, po, first, f', b, r);
    }
  }

  // ----- registers are defined once, unreachable blocks included -----

  /** The position of the placed code that position k of block b comes from. */
  lemma DefOrigin(S: Source, code: Code, terms: seq<Terminator>, sub: map<nat, Operand>, processed: set<nat>, b: Block, k: nat)
    returns (o: nat)
    requires Consistent(S, code, terms, sub, processed, S.up.Keys, S.up.Keys) && b < |code| && k < |code[b]|
    ensures o < |S.code[b]| && Def(code[b][k]) == Def(S.code[b][o])
    ensures k == if b in S.up then Rank(Removed(S.code[b], AfterPhis(S, b)), o) else o
  {
    hide PhiScan, Scan, RenameAll;
    assert BlockOk(S, code, terms, sub, S.up.Keys, S.up.Keys, b);
    DefOfCore(code[b][k], map[]);
    if b in S.up {
      o := OutOrigin(S.code[b], AfterPhis(S, b), code[b], k);
      DefOfCore(S.code[b][o], CtxAt(S.code[b], AfterPhis(S, b), o).sub);
    } else {
      o := k;
      DefOfCore(S.code[b][o], sub);
    }
  }

  lemma RenamedDefinedOnce(S: Source, code: Code, terms: seq<Terminator>, sub: map<nat, Operand>, processed: set<nat>)
    requires Consistent(S, code, terms, sub, processed, S.up.Keys, S.up.Keys)
    ensures DefinedOnce(code)
  {
    assert DefinedOnce(S.code);
    hide Consistent, Removed;
    forall b, b', k, k', r | 0 <= b < |code| && 0 <= b' < |code| && 0 <= k < |code[b]| && 0 <= k' < |code[b']|
        && r in Def(code[b][k]) && r in Def(code[b'][k'])
      ensures b == b' && k == k'
    {
      var o := DefOrigin(S, code, terms, sub, processed, b, k);
      var o' := DefOrigin(S, code, terms, sub, processed, b', k');
    }
  }

  // ----- dropping the allocas -----

  ghost function ScalarAllocas(code: seq<Instr>): set<nat> {
    set k: nat | k < |code| && code[k].Alloca? && code[k].scalar
  }

  lemma DroppedIsErased(code: seq<Instr>)
    ensures DropAllocas(code) == Erase(code, ScalarAllocas(code), 0)
  {
    ErasedAllocas(code, ScalarAllocas(code), 0);
    assert code[0..] == code;
  }

  /** A definition is found again at its rank. */
  lemma DefSurvives(code: seq<Instr>, j: nat, r: nat)
    requires j < |code| && r in Def(code[j])
    ensures j !in ScalarAllocas(code)
    ensures var k := Rank(ScalarAllocas(code), j); k < |DropAllocas(code)| && r in Def(DropAllocas(code)[k])
    ensures r in Defs(DropAllocas(code))
  {
    DroppedIsErased(code);
    EraseAt(code, ScalarAllocas(code), j);
  }

  lemma DefinedStays(f: Function, f': Function, g: Graph, b: Block, k: nat, k': nat, r: nat)
    requires AllocasDropped(f, f') && b < |f.blocks| && k <= |f.blocks[b].instrs| && DefinedBefore(f, g, b, k, r)
    requires k' == Rank(ScalarAllocas(f.blocks[b].instrs), k) <= |f'.blocks[b].instrs|
    ensures DefinedBefore(f', g, b, k', r)
  {
    var code := f.blocks[b].instrs;
    if j: nat :| j < k && r in Def(code[j]) {
      DefSurvives(code, j, r);
      RankGrows(ScalarAllocas(code), j, k);
      DefinedHere(f', g, b, Rank(ScalarAllocas(code), j), k', r);
    } else {
      var d :| 0 <= d < |f.blocks| && StrictlyDominates(g, d, b) && r in Defs(f.blocks[d].instrs);
      var j: nat :| j < |f.blocks[d].instrs| && r in Def(f.blocks[d].instrs[j]);
      DefSurvives(f.blocks[d].instrs, j, r);
      assert r in Defs(f'.blocks[d].instrs);
    }
  }

  lemma DefinedAtEndStays(f: Function, f': Function, g: Graph, b: Block, r: nat)
    requires AllocasDropped(f, f') && b < |f.blocks| && DefinedBefore(f, g, b, |f.blocks[b].instrs|, r)
    ensures DefinedBefore(f', g, b, |f'.blocks[b].instrs|, r)
  {
    var code := f.blocks[b].instrs;
    DroppedIsErased(code);
    EraseSuffix(code, ScalarAllocas(code), |code|);
    DefinedStays(f, f', g, b, |code|, |f'.blocks[b].instrs|, r);
  }

  lemma DroppedOrigin(code: seq<Instr>, k: nat) returns (o: nat)
    requires k < |DropAllocas(code)|
    ensures o < |code| && Rank(ScalarAllocas(code), o) == k && DropAllocas(code)[k] == code[o] && o !in ScalarAllocas(code)
  {
    DroppedIsErased(code);
    o := EraseOrigin(code, ScalarAllocas(code), k);
  }

  lemma DroppedBlock(f: Function, f': Function, g: Graph, b: Block)
    requires HasGraph(f, g) && AllocasDropped(f, f') && SsaBlock(f, g, b)
    ensures SsaBlock(f', g, b)
  {
    hide DefinedBefore, DropAllocas, Rank, ScalarAllocas;
    var code, code' := f.blocks[b].instrs, f'.blocks[b].instrs;
    assert TermDefined(f, g, b);
    forall r | r in TermUses(f'.blocks[b].term) ensures DefinedBefore(f', g, b, |code'|, r) {
      DefinedAtEndStays(f, f', g, b, r);
    }
    forall k {:trigger UsesDefined(f', g, b, k)} | 0 <= k < |code'| ensures UsesDefined(f', g, b, k) {
      var o := DroppedOrigin(code, k);
      assert UsesDefined(f, g, b, o);
      forall r | r in Uses(code'[k]) ensures DefinedBefore(f', g, b, k, r) { DefinedStays(f, f', g, b, o, k, r); }
    }
    forall k {:trigger PairsDefined(f', g, b, k)} | 0 <= k < |code'| ensures PairsDefined(f', g, b, k) {
      var o := DroppedOrigin(code, k);
      assert PairsDefined(f, g, b, o);
      DroppedPairs(f, f', g, b, o, k);
    }
    DroppedPhisFirst(code);
  }

  lemma DroppedPairs(f: Function, f': Function, g: Graph, b: Block, o: nat, k: nat)
    requires AllocasDropped(f, f') && PairsDefined(f, g, b, o)
    requires k < |f'.blocks[b].instrs| && f'.blocks[b].instrs[k] == f.blocks[b].instrs[o]
    ensures PairsDefined(f', g, b, k)
  {
    hide DefinedBefore, DropAllocas;
    var i := f'.blocks[b].instrs[k];
    if i.Phi? {
      forall x, p, r | (x, p) in i.pairs && r in RegsOf(x) ensures p < |f'.blocks| && DefinedBefore(f', g, p, |f'.blocks[p].instrs|, r) {
        DefinedAtEndStays(f, f', g, p, r);
      }
    }
  }

  lemma DroppedPhisFirst(code: seq<Instr>)
    requires PhisFirst(code)
    ensures PhisFirst(DropAllocas(code))
  {
    var code' := DropAllocas(code);
    forall j, k | 0 <= j < k < |code'| && code'[k].Phi? ensures code'[j].Phi? {
      var o := DroppedOrigin(code, j);
      var o' := DroppedOrigin(code, k);
      RankInjective(ScalarAllocas(code), o, o');
    }
  }

  /** Without its scalar allocas, valid SSA is still valid SSA. */
  lemma DroppedIsSsa(f: Function, f': Function, g: Graph)
    requires ValidSSA(f, g) && AllocasDropped(f, f')
    ensures ValidSSA(f', g)
  {
    hide SsaBlock;
    forall b {:trigger SsaBlock(f', g, b)} | Reachable(g, b) ensures SsaBlock(f', g, b) {
      assert SsaBlock(f, g, b);
      DroppedBlock(f, f', g, b);
    }
    DroppedDefinedOnce(f, f');
  }

  lemma DroppedDefinedOnce(f: Function, f': Function)
    requires DefinedOnce(Bodies(f)) && AllocasDropped(f, f')
    ensures DefinedOnce(Bodies(f'))
  {
    var code, code' := Bodies(f), Bodies(f');
    forall b, b', k, k', r | 0 <= b < |code'| && 0 <= b' < |code'| && 0 <= k < |code'[b]| && 0 <= k' < |code'[b']|
        && r in Def(code'[b][k]) && r in Def(code'[b'][k'])
      ensures b == b' && k == k'
    {
      var o := DroppedOrigin(code[b], k);
      var o' := DroppedOrigin(code[b'], k');
    }
  }

  // ----- locals -----

  /** No scalar alloca is left, and no reachable block stores to a local. */
  ghost predicate NoStoresLeft(f: Function, g: Graph) {
    && (forall b, k :: 0 <= b < |f.blocks| && 0 <= k < |f.blocks[b].instrs| ==>
          !(f.blocks[b].instrs[k].Alloca? && f.blocks[b].instrs[k].scalar))
    && (forall b, k :: 0 <= b < |f.blocks| && Reachable(g, b) && 0 <= k < |f.blocks[b].instrs| ==>
          !(f.blocks[b].instrs[k].Store? && f.blocks[b].instrs[k].addr.Local?))
  }

  /** No reachable block loads or stores a local. */
  ghost predicate NoLocalsLeftIn(f: Function, g: Graph) {
    forall b, k :: 0 <= b < |f.blocks| && Reachable(g, b) && 0 <= k < |f.blocks[b].instrs| ==> !TouchesLocal(f.blocks[b].instrs[k])
  }

  lemma DroppedNoStores(f: Function, g: Graph, code: Code, up: Up, po: Order, first: nat, f': Function, f'': Function)
    requires Prepared(f, g, code, up, po, first) && Finished(f, g, code, up, po, f') && AllocasDropped(f', f'')
    ensures NoStoresLeft(f'', g)
    ensures LoadsInitialised(f, g) ==> NoLocalsLeftIn(f'', g)
  {
    hide RenameAll, Prepared, Finished;
    PreparedIsExact(f, g, code, up, po, first);
    forall b, k | 0 <= b < |f''.blocks| && 0 <= k < |f''.blocks[b].instrs|
      ensures !(f''.blocks[b].instrs[k].Alloca? && f''.blocks[b].instrs[k].scalar)
      ensures Reachable(g, b) ==> !(f''.blocks[b].instrs[k].Store? && f''.blocks[b].instrs[k].addr.Local?)
      ensures Reachable(g, b) && LoadsInitialised(f, g) ==> !TouchesLocal(f''.blocks[b].instrs[k])
    {
      var o := DroppedOrigin(f'.blocks[b].instrs, k);
      if Reachable(g, b) {
        PreparedIsExact(f, g, code, up, po, first);
        var n := OpenFinished(f, g, code, up, po, first, f', b);
        RenamedHasNoStores(code[b], CtxPhi(code, up, po, b));
        assert Core(f'.blocks[b].instrs[o]) == Cores(f'.blocks[b].instrs)[o];
        if LoadsInitialised(f, g) { NoLocalsLeft(f, g, code, up, po, first, f', b, o); }
      }
    }
  }

  // ----- phi operands -----

  /** The phi at position k of b has an operand for exactly the predecessors at whose end its variable has a value. */
  ghost predicate PhiComplete(f: Function, f': Function, g: Graph, b: Block, k: nat)
    requires g.Valid() && b < |f'.blocks| && k < |f'.blocks[b].instrs|
  {
    var i := f'.blocks[b].instrs[k];
    i.Phi? ==> forall p: Block :: (exists o :: (o, p) in i.pairs) <==> Reachable(g, p) && Edge(g, p, b) && ValueAtEnd(f, g, p, i.lval)
  }

  ghost predicate PhisComplete(f: Function, f': Function, g: Graph)
    requires g.Valid()
  {
    forall b, k {:trigger PhiComplete(f, f', g, b, k)} ::
      0 <= b < |f'.blocks| && Reachable(g, b) && 0 <= k < |f'.blocks[b].instrs| ==> PhiComplete(f, f', g, b, k)
  }

  lemma RenamedPhiComplete(f: Function, S: Source, first: nat, f': Function, b: Block, k: nat)
    requires PlacedForm(f, S, first) && Finished(f, S.g, S.code, S.up, S.po, f')
    requires b in S.up && b < |f'.blocks| && k < |f'.blocks[b].instrs|
    ensures PhiComplete(f, f', S.g, b, k)
  {
    hide CtxOut, ValueAtEnd, RenameAll, PhisMatch;
    var i := f'.blocks[b].instrs[k];
    if i.Phi? {
      assert FinishedBlock(f, S.g, S.code, S.up, S.po, f', b);
      assert PairsFrom(S.code, S.up, S.po, S.g, S.up.Keys, b, i.lval, i.pairs);
      forall p: Block
        ensures (exists o :: (o, p) in i.pairs) <==> Reachable(S.g, p) && Edge(S.g, p, b) && ValueAtEnd(f, S.g, p, i.lval)
      {
        if p in S.up {
          OutIsValue(f, S, first, p, i.lval);
          if i.lval in Out(S, p).cur && Edge(S.g, p, b) { assert (Out(S, p).cur[i.lval], p) in i.pairs; }
        }
      }
    }
  }

  lemma DroppedComplete(f: Function, S: Source, first: nat, f': Function, f'': Function)
    requires PlacedForm(f, S, first) && Finished(f, S.g, S.code, S.up, S.po, f') && AllocasDropped(f', f'')
    ensures PhisComplete(f, f'', S.g)
  {
    hide Finished, ValueAtEnd, DropAllocas, PhisMatch;
    forall b, k {:trigger PhiComplete(f, f'', S.g, b, k)} | 0 <= b < |f''.blocks| && Reachable(S.g, b) && 0 <= k < |f''.blocks[b].instrs|
      ensures PhiComplete(f, f'', S.g, b, k)
    {
      var o := DroppedOrigin(f'.blocks[b].instrs, k);
      RenamedPhiComplete(f, S, first, f', b, o);
    }
  }

  /** The result of the whole pass is valid SSA without locals. */
  lemma WholePassIsSsa(f: Function, S: Source, first: nat, code: Code, terms: seq<Terminator>,
                       sub: map<nat, Operand>, processed: set<nat>, dropped: Code)
    requires Begun(f, S, first) && Consistent(S, code, terms, sub, processed, S.up.Keys, S.up.Keys)
    requires |dropped| == |code| && forall b :: 0 <= b < |code| ==> dropped[b] == DropAllocas(code[b])
    ensures |dropped| == |terms| && ValidSSA(Assemble(dropped, terms), S.g) && NoStoresLeft(Assemble(dropped, terms), S.g)
    ensures LoadsInitialised(f, S.g) ==> NoLocalsLeftIn(Assemble(dropped, terms), S.g)
  {
    hide ConsistentParts;
    RenamedIsFinished(f, S, first, code, terms, sub, processed);
    var f', f'' := Assemble(code, terms), Assemble(dropped, terms);
    assert AllocasDropped(f', f'');
    DroppedNoStores(f, S.g, S.code, S.up, S.po, first, f', f'');
    forall b {:trigger SsaBlock(f', S.g, b)} | Reachable(S.g, b) ensures SsaBlock(f', S.g, b) {
      PreparedIsExact(f, S.g, S.code, S.up, S.po, first);
      FinishedIsSsa(f, S.g, S.code, S.up, S.po, first, f', b);
    }
    RenamedDefinedOnce(S, code, terms, sub, processed);
    assert Bodies(f') == code;
    DroppedIsSsa(f', f'', S.g);
  }

  /** What the whole pass makes of f. */
  ghost predicate Achieved(f: Function, g: Graph, f': Function)
    requires g.Valid()
  {
    && Refines(f, f') && ValidSSA(f', g) && NoStoresLeft(f', g) && PhisComplete(f, f', g)
    && (LoadsInitialised(f, g) ==> NoLocalsLeftIn(f', g))
  }

  lemma WholePassAchieves(f: Function, S: Source, first: nat, code: Code, terms: seq<Terminator>,
                          sub: map<nat, Operand>, processed: set<nat>, dropped: Code)
    requires Begun(f, S, first) && Consistent(S, code, terms, sub, processed, S.up.Keys, S.up.Keys)
    requires |dropped| == |code| && forall b :: 0 <= b < |code| ==> dropped[b] == DropAllocas(code[b])
    ensures |dropped| == |terms| && Achieved(f, S.g, Assemble(dropped, terms))
  {
    hide Refines, ValidSSA, NoStoresLeft, PhisComplete, LoadsInitialised, NoLocalsLeftIn, DropAllocas, Finished, ConsistentParts;
    WholePass(f, S, first, code, terms, sub, processed, dropped);
    WholePassIsSsa(f, S, first, code, terms, sub, processed, dropped);
    RenamedIsFinished(f, S, first, code, terms, sub, processed);
    assert AllocasDropped(Assemble(code, terms), Assemble(dropped, terms));
    DroppedComplete(f, S, first, Assemble(code, terms), Assemble(dropped, terms));
  }
}
