// SSA construction: phi placement on iterated dominance frontiers, renaming along
// the dominator tree with one stack per variable, removal of scalar allocas.
module Mem2RegPass {
  import opened Cfg
  import opened IdomTree
  import opened IdomFixpoint
  import opened DominatorAnalysis
  import opened IR
  import opened Renaming
  import opened RenameSteps
  import opened RenameState
  import opened PhiPlacement
  import opened SsaInput
  import opened Initialised
  import opened Mem2RegMeaning
  import opened Frontier
  import opened EmptyStacks
  import opened PhiSites
  import opened StackTrace
  import opened RenameBlock
  import opened SsaOutput

  ghost predicate TreeEdges(succ: map<Block, set<Block>>, up: Up) {
    forall x: Block :: Entries(succ, x) == Kids(up, x)
  }

  class Mem2Reg {
    const g: Graph
    const dominators: Dominators
    var code: Code                // the instruction lists of the function's blocks
    var terms: seq<Terminator>
    var varValStack: Stacks
    var nextReg: nat
    var failed: bool              // a stack that exists but is empty was read (an assertion failure)

    ghost var S: Source           // the code as renaming found it
    ghost var sub: map<nat, Operand>
    ghost var processed: set<nat>
    ghost var linked: set<Block>
    ghost var done: set<Block>
    ghost var trail: seq<Block>   // the blocks renamed, in the order in which they were entered

    /** `first` names the first instruction the pass will create. */
    constructor (f: Function, g: Graph, first: nat)
      requires HasGraph(f, g)
      ensures this.g == g && fresh(dominators) && dominators.g == g
      ensures |code| == |terms| == |f.blocks| && nextReg == first && varValStack == map[] && !failed
      ensures forall b :: 0 <= b < |f.blocks| ==> code[b] == f.blocks[b].instrs && terms[b] == f.blocks[b].term
    {
      this.g := g;
      code := seq(|f.blocks|, b requires 0 <= b < |f.blocks| => f.blocks[b].instrs);
      terms := seq(|f.blocks|, b requires 0 <= b < |f.blocks| => f.blocks[b].term);
      varValStack, nextReg, failed := map[], first, false;
      S := Source([], [], g, map[], map[]);
      sub, processed, linked, done, trail := map[], {}, {}, {}, [];
      var d := new Dominators(g);
      dominators := d;
    }

    /** The renaming invariant. */
    ghost predicate Ready()
      reads this
    {
      S.g == g && Consistent(S, code, terms, sub, processed, linked, done)
    }

    /** The blocks that store each variable. */
    method LiveBlocks() returns (live: map<nat, set<Block>>)
      ensures forall v: nat, b: Block :: b in Entries(live, v) <==> b in StoringIn(code, v)
    {
      live := map[];
      for b := 0 to |code|
        invariant forall v: nat, x: Block :: x in Entries(live, v) <==> StoredUpTo(code, x, v, b, 0)
      {
        for k := 0 to |code[b]|
          invariant forall v: nat, x: Block :: x in Entries(live, v) <==> StoredUpTo(code, x, v, b, k)
        {
          var i := code[b][k];
          forall v: nat, x: Block { StoredStep(code, x, v, b, k); }
          if i.Store? && i.addr.Local? {
            live := live[i.addr.slot := Entries(live, i.addr.slot) + {b}];
          }
        }
        forall v: nat, x: Block { StoredNext(code, x, v, b); }
      }
    }

    /** A phi for every variable on the iterated dominance frontier of its stores. */
    method GeneratePhi() returns (ghost has: set<(Block, nat)>)
      requires forall b, k :: 0 <= b < |code| && 0 <= k < |code[b]| ==> !code[b][k].Phi?
      requires forall x: Block, b: Block :: b in Entries(dominators.domFrontier, x) ==> b < |code|
      modifies this`code, this`nextReg
      ensures PhisPlaced(old(code), code, has, old(nextReg), nextReg)
      ensures OnFrontiers(old(code), dominators.domFrontier, has)
    {
      hide Placing;
      var live := LiveBlocks();
      var bbHasVarPhi: set<(Block, nat)> := {};
      var vars := live.Keys;
      PlacingStart(code, dominators.domFrontier, nextReg, vars);
      while vars != {}
        invariant |code| == |old(code)|
        invariant Placing(old(code), code, dominators.domFrontier, bbHasVarPhi, old(nextReg), nextReg, vars)
        decreases vars
      {
        var v :| v in vars;
        assert Entries(live, v) == StoringIn(old(code), v);
        bbHasVarPhi := PlaceVariable(v, Entries(live, v), bbHasVarPhi, old(code), old(nextReg), vars);
        vars := vars - {v};
      }
      PlacingEnd(old(code), code, dominators.domFrontier, bbHasVarPhi, old(nextReg), nextReg);
      has := bbHasVarPhi;
    }

    method PlaceVariable(v: nat, starts: set<Block>, has0: set<(Block, nat)>, ghost body: Code, ghost first: nat, ghost pending: set<nat>)
      returns (has: set<(Block, nat)>)
      requires Placing(body, code, dominators.domFrontier, has0, first, nextReg, pending)
      requires v in pending && starts == StoringIn(body, v) && |code| == |body|
      requires forall x: Block, b: Block :: b in Entries(dominators.domFrontier, x) ==> b < |code|
      modifies this`code, this`nextReg
      ensures |code| == |body| && Placing(body, code, dominators.domFrontier, has, first, nextReg, pending - {v})
    {
      hide Placing;
      PlacingNow(body, code, dominators.domFrontier, has0, first, nextReg, pending, v);
      has := PlacePhis(v, starts, has0, body, first);
      PlacingStep(body, old(code), dominators.domFrontier, has0, first, old(nextReg), pending, v, code, has, nextReg);
    }

    /** The growing worklist of one variable. */
    method PlacePhis(v: nat, starts: set<Block>, has0: set<(Block, nat)>, ghost body: Code, ghost first: nat)
      returns (has: set<(Block, nat)>)
      requires PhisPlaced(body, code, has0, first, nextReg) && (forall b :: (b, v) !in has0)
      requires forall x: Block, b: Block :: b in Entries(dominators.domFrontier, x) ==> b < |code|
      modifies this`code, this`nextReg
      ensures PhisPlaced(body, code, has, first, nextReg)
      ensures forall b: Block, u: nat :: u != v ==> ((b, u) in has <==> (b, u) in has0)
      ensures forall b: Block :: (b, v) in has <==> b < |code| && InIterated(dominators.domFrontier, starts, b)
    {
      ghost var df, n := dominators.domFrontier, |code|;
      has := has0;
      var work: seq<Block> := [];
      var rest := starts;
      while rest != {}
        invariant forall b :: b in work ==> b in starts
        invariant forall b :: b in starts ==> b in work || b in rest
        decreases rest
      {
        var b :| b in rest;
        work, rest := work + [b], rest - {b};
      }
      var i := 0;
      while i < |work|
        invariant i <= |work| && |code| == n
        invariant Working(df, n, starts, v, has0, has, work, i)
        invariant PhisPlaced(body, code, has, first, nextReg)
        decreases UpTo(n) - PhiBlocks(has, n, v), |work| - i
      {
        ghost var has1 := has;
        has, work := PlaceOnFrontier(v, has, work, i, starts, has0, body, first);
        i := i + 1;
      }
      WorkDone(df, n, starts, v, has0, has, work);
    }

    /** Phis for v on the frontier of the i-th block of the worklist. */
    method PlaceOnFrontier(v: nat, has1: set<(Block, nat)>, work1: seq<Block>, i: nat, ghost starts: set<Block>,
                           ghost has0: set<(Block, nat)>, ghost body: Code, ghost first: nat)
      returns (has: set<(Block, nat)>, work: seq<Block>)
      requires i < |work1| && Working(dominators.domFrontier, |code|, starts, v, has0, has1, work1, i)
      requires PhisPlaced(body, code, has1, first, nextReg)
      requires forall x: Block, b: Block :: b in Entries(dominators.domFrontier, x) ==> b < |code|
      modifies this`code, this`nextReg
      ensures |code| == |old(code)| && PhisPlaced(body, code, has, first, nextReg)
      ensures i < |work| && Working(dominators.domFrontier, |code|, starts, v, has0, has, work, i + 1)
      ensures if has == has1 then work == work1 else PhiBlocks(has1, |code|, v) < PhiBlocks(has, |code|, v)
    {
      ghost var df, n := dominators.domFrontier, |code|;
      has, work := has1, work1;
      var frontier := Entries(dominators.domFrontier, work[i]);
      while frontier != {}
        invariant i < |work| && work[i] == work1[i] && |code| == n && frontier <= Entries(df, work[i])
        invariant Working(df, n, starts, v, has0, has, work, i)
        invariant PhisPlaced(body, code, has, first, nextReg)
        invariant forall y :: y in Entries(df, work[i]) - frontier ==> (y, v) in has
        invariant if has == has1 then work == work1 else PhiBlocks(has1, n, v) < PhiBlocks(has, n, v)
        decreases frontier
      {
        var y :| y in frontier;
        frontier := frontier - {y};
        if (y, v) !in has {
          WorkAdd(df, n, starts, v, has0, has, work, i, y);
          PlaceOne(body, code, has, first, nextReg, y, v);
          PhiBlocksGrow(has, n, v, y);
          code := code[y := [Phi(nextReg, v, [])] + code[y]];
          nextReg := nextReg + 1;
          work := work + [y];
          has := has + {(y, v)};
        }
      }
      WorkNext(df, n, starts, v, has0, has, work, i);
    }

    /** All uses of register r become o, in every block. */
    method ReplaceAllUses(r: nat, o: Operand)
      requires Ready() && r !in processed && RegsOf(o) <= processed
      modifies this`code, this`terms, this`sub, this`processed
      ensures Ready() && sub == old(sub)[r := o] && processed == old(processed) + {r}
      ensures |code| == |old(code)| && forall b :: 0 <= b < |code| ==> code[b] == ReplaceIn(old(code)[b], r, o)
    {
      hide ConsistentParts;
      var code' := seq(|code|, b requires 0 <= b < |code| reads this => ReplaceIn(code[b], r, o));
      var terms' := seq(|terms|, b requires 0 <= b < |terms| reads this => SubstTerm(map[r := o], terms[b]));
      ReplaceKeepsConsistent(S, code, terms, sub, processed, linked, done, r, o, code', terms');
      code, terms := code', terms';
      sub, processed := sub[r := o], processed + {r};
    }

    /** Phis become the latest definitions of their variables. */
    method PushPhis(bb: Block)
      requires Ready() && bb in S.up && bb !in done && Shows(varValStack, In(S, bb))
      modifies this`varValStack
      ensures PhisPushed(S, bb, |S.code[bb]|, old(varValStack), varValStack)
    {
      hide PhisPushed, Consistent, CtxPhi, CtxIn, Shows;
      ConsistentSizes(S, code, terms, sub, processed, linked, done);
      OpenBlock(S, code, terms, sub, processed, linked, done, bb);
      PhisPushedStart(S, bb, varValStack);
      for k := 0 to |code[bb]|
        invariant PhisPushed(S, bb, k, old(varValStack), varValStack)
      {
        var i := code[bb][k];
        assert Core(i) == SubstInstr(sub, S.code[bb][k]);
        PhisPushedStep(S, bb, k, old(varValStack), varValStack);
        if i.Phi? {
          varValStack := varValStack[i.lval := StackOf(varValStack, i.lval) + [Reg(i.dst)]];
        }
      }
    }

    /** Loads get the value on top of their variable's stack, stores push theirs; the
        positions of both are collected for deletion. */
    method Rewrite(bb: Block) returns (waitDelete: set<nat>)
      requires Ready() && bb in S.up && bb !in done && Standing(S, varValStack, sub, processed, bb, 0)
      modifies this`code, this`terms, this`varValStack, this`failed, this`sub, this`processed
      ensures Ready() && Standing(S, varValStack, sub, processed, bb, |S.code[bb]|)
      ensures Rewritten(S, bb, |S.code[bb]|, old(varValStack), varValStack, old(sub), sub, old(processed), processed, waitDelete)
      ensures Keyed(S, bb, |S.code[bb]|, old(varValStack.Keys), varValStack.Keys, old(failed), failed)
    {
      hide Standing, Rewritten, Keyed, KeyStep, CtxPhi, CtxAt, Deleted, ConsistentParts;
      waitDelete := {};
      OpenSize(S, code, terms, sub, processed, linked, done, bb);
      RewrittenStart(S, bb, varValStack, sub, processed);
      KeyedStart(S, bb, varValStack.Keys, failed);
      for k := 0 to |code[bb]|
        invariant Ready() && |code[bb]| == |S.code[bb]| && Standing(S, varValStack, sub, processed, bb, k)
        invariant Rewritten(S, bb, k, old(varValStack), varValStack, old(sub), sub, old(processed), processed, waitDelete)
        invariant Keyed(S, bb, k, old(varValStack.Keys), varValStack.Keys, old(failed), failed)
      {
        ghost var m, sub1, p1, failed1 := varValStack, sub, processed, failed;
        var deleted := RewriteAt(bb, k);
        RewrittenStep(S, bb, k, old(varValStack), m, old(sub), sub1, old(processed), p1, waitDelete,
                      varValStack, sub, processed, deleted);
        KeyedStep(S, bb, k, old(varValStack.Keys), m.Keys, varValStack.Keys, old(failed), failed1, failed);
        if deleted {
          waitDelete := waitDelete + {k};
        }
      }
    }

    /** A load of a variable with a definition. */
    method TakeValue(ghost bb: Block, ghost k: nat, d: nat, v: nat)
      requires Ready() && bb in S.up && bb !in done && k < |S.code[bb]| == |code[bb]|
      requires Standing(S, varValStack, sub, processed, bb, k)
      requires S.code[bb][k] == Load(d, Local(v)) && v in varValStack && varValStack[v] != []
      modifies this`code, this`terms, this`sub, this`processed
      ensures Ready() && |code[bb]| == |old(code)[bb]| && Standing(S, varValStack, sub, processed, bb, k + 1)
      ensures processed == old(processed) + Processes(S.code[bb][k]) && Keeps(old(sub), sub, old(processed))
      ensures Deleted(S.code[bb][k], CtxAt(S.code[bb], AfterPhis(S, bb), k))
      ensures KeyStep(S, bb, k, varValStack.Keys, varValStack.Keys, failed, failed)
    {
      hide Standing, CtxPhi, CtxAt, KeyStep, Deleted, Consistent;
      ConsistentSizes(S, code, terms, sub, processed, linked, done);
      KeyStepDefined(S, bb, k, varValStack, sub, processed, varValStack.Keys, failed);
      var o := varValStack[v][|varValStack[v]| - 1];
      LoadStep(S, code, terms, sub, processed, linked, done, bb, k, varValStack, d, v, o);
      ReplaceAllUses(d, o);
    }

    /** A store to a local. */
    method PushValue(ghost bb: Block, ghost k: nat, v: nat, val: Operand)
      requires Ready() && bb in S.up && bb !in done && k < |S.code[bb]| == |code[bb]|
      requires Standing(S, varValStack, sub, processed, bb, k)
      requires S.code[bb][k].Store? && S.code[bb][k].addr == Local(v) && val == Subst(sub, S.code[bb][k].val)
      modifies this`varValStack
      ensures Ready() && Standing(S, varValStack, sub, processed, bb, k + 1)
      ensures forall u {:trigger Pushes(S.code[bb][k], u)} :: Above(varValStack, old(varValStack), u, Pushes(S.code[bb][k], u))
      ensures Deleted(S.code[bb][k], CtxAt(S.code[bb], AfterPhis(S, bb), k)) && Processes(S.code[bb][k]) == {}
      ensures KeyStep(S, bb, k, old(varValStack.Keys), varValStack.Keys, failed, failed)
    {
      hide Standing, CtxPhi, CtxAt, KeyStep, Consistent;
      ConsistentSizes(S, code, terms, sub, processed, linked, done);
      KeyStepDefined(S, bb, k, varValStack, sub, processed, varValStack.Keys + {v}, failed);
      StoreStep(S, code, terms, sub, processed, linked, done, bb, k, varValStack, v);
      varValStack := varValStack[v := StackOf(varValStack, v) + [val]];
      assert varValStack.Keys == old(varValStack.Keys) + {v};
    }

    /** Any other instruction; reading a stack that exists but is empty fails. */
    method PassOver(ghost bb: Block, ghost k: nat, i: Instr)
      requires Ready() && bb in S.up && bb !in done && k < |S.code[bb]| == |code[bb]|
      requires Standing(S, varValStack, sub, processed, bb, k) && Core(i) == SubstInstr(sub, S.code[bb][k])
      requires !(i.Store? && i.addr.Local?)
      requires i.Load? && i.addr.Local? ==> i.addr.slot !in varValStack || varValStack[i.addr.slot] == []
      modifies this`failed, this`processed
      ensures Ready() && Standing(S, varValStack, sub, processed, bb, k + 1)
      ensures processed == old(processed) + Processes(S.code[bb][k])
      ensures !Deleted(S.code[bb][k], CtxAt(S.code[bb], AfterPhis(S, bb), k))
      ensures KeyStep(S, bb, k, varValStack.Keys, varValStack.Keys, old(failed), failed)
    {
      hide Standing, CtxPhi, CtxAt, KeyStep, Deleted, Consistent;
      ConsistentSizes(S, code, terms, sub, processed, linked, done);
      if i.Load? && i.addr.Local? && i.addr.slot in varValStack {
        KeyStepFails(S, bb, k, varValStack, sub, processed, failed);
        failed := true;
      } else {
        KeyStepDefined(S, bb, k, varValStack, sub, processed, varValStack.Keys, failed);
      }
      OtherStep(S, code, terms, sub, processed, linked, done, bb, k, varValStack);
      processed := processed + Processes(S.code[bb][k]);
    }

    /** Position k of the renaming loop. */
    method RewriteAt(bb: Block, k: nat) returns (deleted: bool)
      requires Ready() && bb in S.up && bb !in done && k < |S.code[bb]| == |code[bb]|
      requires Standing(S, varValStack, sub, processed, bb, k)
      modifies this`code, this`terms, this`varValStack, this`failed, this`sub, this`processed
      ensures Ready() && |code[bb]| == |old(code)[bb]| && Standing(S, varValStack, sub, processed, bb, k + 1)
      ensures processed == old(processed) + Processes(S.code[bb][k]) && Keeps(old(sub), sub, old(processed))
      ensures forall v {:trigger Pushes(S.code[bb][k], v)} :: Above(varValStack, old(varValStack), v, Pushes(S.code[bb][k], v))
      ensures deleted <==> Deleted(S.code[bb][k], CtxAt(S.code[bb], AfterPhis(S, bb), k))
      ensures KeyStep(S, bb, k, old(varValStack.Keys), varValStack.Keys, old(failed), failed)
    {
      hide Standing, CtxPhi, CtxAt, KeyStep, Deleted, Consistent;
      ConsistentSizes(S, code, terms, sub, processed, linked, done);
      OpenSize(S, code, terms, sub, processed, linked, done, bb);
      OpenPosition(S, code, terms, sub, processed, linked, done, bb, k);
      var i := code[bb][k];
      if i.Load? && i.addr.Local? && i.addr.slot in varValStack && varValStack[i.addr.slot] != [] {
        TakeValue(bb, k, i.dst, i.addr.slot);
        deleted := true;
      } else if i.Store? && i.addr.Local? {
        PushValue(bb, k, i.addr.slot, i.val);
        deleted := true;
      } else {
        PassOver(bb, k, i);
        deleted := false;
      }
    }

    /** Gives the phis of block s the values at the end of bb. */
    method AddPhiPairsTo(s: Block, bb: Block)
      requires s < |code|
      modifies this`code, this`failed
      ensures code == old(code)[s := AddPairs(old(code)[s], varValStack, bb)]
      ensures failed <==> old(failed) || SomeEmpty(old(code)[s], varValStack, |old(code)[s]|)
    {
      var n := |code[s]|;
      for k := 0 to n
        invariant |code| == |old(code)| && |code[s]| == n
        invariant forall j :: 0 <= j < k ==> code[s][j] == AddPair(old(code)[s][j], varValStack, bb)
        invariant forall j :: k <= j < n ==> code[s][j] == old(code)[s][j]
        invariant code == old(code)[s := code[s]]
        invariant failed <==> old(failed) || SomeEmpty(old(code)[s], varValStack, k)
      {
        var i := code[s][k];
        if i.Phi? && i.lval in varValStack {
          var stack := varValStack[i.lval];
          if stack == [] {
            assert EmptyFor(old(code)[s][k], varValStack);
            failed := true;
          } else {
            code := code[s := code[s][k := i.(pairs := i.pairs + [(stack[|stack| - 1], bb)])]];
          }
        }
      }
      assert code[s] == AddPairs(old(code)[s], varValStack, bb);
    }

    /** Completes the phi operands of all successors of bb. */
    method AddPhiPairs(bb: Block)
      requires Ready() && bb in S.up && bb < |g.succ| && Shows(varValStack, Out(S, bb))
      requires Agrees(sub, Out(S, bb)) && Out(S, bb).scope <= processed
      modifies this`code, this`failed, this`linked
      ensures Ready() && linked == old(linked) + {bb}
      ensures failed <==> old(failed) || EdgeFails(S, bb, |g.succ[bb]|, varValStack.Keys)
    {
      hide Handing, CtxOut, Shows, Agrees, EdgeFails, AddPairs, SomeEmpty, ConsistentParts;
      HandingStart(S, code, linked, bb);
      NoEdgeFails(S, bb, varValStack.Keys);
      for j := 0 to |g.succ[bb]|
        invariant linked == old(linked)
        invariant Handing(S, old(code), code, linked, bb, j)
        invariant failed <==> old(failed) || EdgeFails(S, bb, j, varValStack.Keys)
      {
        HandingStep(S, old(code), code, terms, sub, processed, linked, done, bb, j, varValStack);
        EdgeFailsStep(S, old(code), code, terms, sub, processed, linked, done, bb, j, varValStack);
        AddPhiPairsTo(g.succ[bb][j], bb);
      }
      HandingEnd(S, old(code), code, terms, sub, processed, linked, done, bb);
      linked := linked + {bb};
    }

    /** Pops what the phis and stores of bb have pushed. */
    method PopDefinitions(bb: Block, ghost base: Stacks)
      requires bb < |code| && Popping(varValStack, base, code[bb], 0)
      modifies this`varValStack
      ensures SameStacks(varValStack, base) && varValStack.Keys == old(varValStack.Keys)
    {
      for k := 0 to |code[bb]|
        invariant Popping(varValStack, base, code[bb], k) && varValStack.Keys == old(varValStack.Keys)
      {
        var i := code[bb][k];
        PoppingStep(varValStack, base, code[bb], k);
        if i.Store? && i.addr.Local? {
          var v := i.addr.slot;
          varValStack := varValStack[v := varValStack[v][..|varValStack[v]| - 1]];
        } else if i.Phi? {
          if i.lval in varValStack {
            varValStack := varValStack[i.lval := varValStack[i.lval][..|varValStack[i.lval]| - 1]];
          }
        }
      }
      PoppingEnd(varValStack, base, code[bb]);
    }

    /** Phis, positions and phi operands of bb. */
    method EnterBlock(bb: Block) returns (waitDelete: set<nat>)
      requires Ready() && bb in S.up && bb < |g.succ| && bb < |S.code| && Arriving(S, bb, varValStack, sub, processed, linked)
      requires Recorded(S, varValStack.Keys, failed, trail)
      modifies this`code, this`terms, this`varValStack, this`failed, this`sub, this`processed, this`linked, this`trail
      ensures Ready() && bb !in done && Departing(S, bb, varValStack, sub, processed, linked)
      ensures linked == old(linked) + {bb} && trail == old(trail) + [bb] && Recorded(S, varValStack.Keys, failed, trail)
      ensures Entered(S, bb, old(varValStack), varValStack, old(sub), sub, old(processed), processed, waitDelete)
    {
      hide Consistent, Shows, Agrees, CtxIn, CtxPhi, CtxOut, Rewritten, Keyed, PhiSlots, StoreSlots, Recorded, Entered, EdgeFails,
           PhisPushed, AllFresh, Standing, PhiRegs, Subtree;
      ConsistentSizes(S, code, terms, sub, processed, linked, done);
      OwnBlockFresh(S, code, terms, sub, processed, linked, done, bb);
      ghost var p0, l0 := processed, linked;
      PushPhis(bb);
      ghost var m1 := varValStack;
      PhisPushedEnd(S, bb, old(varValStack), varValStack);
      OpenPhis(S, code, terms, sub, processed, linked, done, bb);
      processed := processed + PhiRegs(S.code[bb]);
      StandingStart(S, code, terms, sub, p0, linked, done, bb, varValStack, processed);
      ghost var p1 := processed;
      waitDelete := Rewrite(bb);
      StandingEnd(S, varValStack, sub, processed, bb);
      ghost var failed1 := failed;
      AddPhiPairs(bb);
      SourceValid(S, code, terms, sub, processed, linked, done);
      EnteredBy(S, bb, p0, p1, processed, l0, old(varValStack), m1, varValStack, old(sub), sub, waitDelete);
      PhisPushedKeys(S, bb, old(varValStack), m1);
      RecordedEntered(S, bb, old(varValStack.Keys), m1.Keys, varValStack.Keys, old(failed), failed1, failed, trail);
      trail := trail + [bb];
    }

    /** Pops the definitions of bb and erases what was collected. */
    method LeaveBlock(bb: Block, waitDelete: set<nat>, ghost m0: Stacks, ghost m2: Stacks)
      requires Ready() && bb in S.up && bb in linked && bb !in done && bb < |S.code|
      requires Popping(m2, m0, S.code[bb], 0) && SameStacks(varValStack, m2)
      requires MarkedDeleted(S.code[bb], AfterPhis(S, bb), |S.code[bb]|, waitDelete)
      modifies this`code, this`varValStack, this`done
      ensures Ready() && SameStacks(varValStack, m0) && varValStack.Keys == old(varValStack.Keys) && done == old(done) + {bb}
    {
      hide Consistent, Popping, CtxPhi, CtxAt, SameStacks, Deleted, Erase;
      ConsistentSizes(S, code, terms, sub, processed, linked, done);
      OpenPopping(S, code, terms, sub, processed, linked, done, bb, varValStack, m0, m2);
      PopDefinitions(bb, m0);
      FinishBlock(S, code, terms, sub, processed, linked, done, bb, waitDelete);
      code := code[bb := Erase(code[bb], waitDelete, 0)];
      done := done + {bb};
    }

    /** Renames the dominator subtree of bb; `order` is the order in which its blocks are entered. */
    method ReName(bb: Block) returns (ghost order: seq<Block>)
      requires Ready() && TreeEdges(dominators.domTreeSucc, S.up) && bb in S.up && bb < |g.succ|
      requires Arriving(S, bb, varValStack, sub, processed, linked) && Recorded(S, varValStack.Keys, failed, trail)
      modifies this`code, this`terms, this`varValStack, this`failed, this`sub, this`processed, this`linked, this`done, this`trail
      ensures Ready() && SameStacks(varValStack, old(varValStack))
      ensures linked == old(linked) + Subtree(S, bb) && done == old(done) + Subtree(S, bb)
      ensures Grew(S, old(processed), processed, Subtree(S, bb)) && Keeps(old(sub), sub, old(processed))
      ensures trail == old(trail) + order && Preorder(S.up, bb, order) && Recorded(S, varValStack.Keys, failed, trail)
      decreases Num(S.po, bb), 1
    {
      hide Consistent, Arriving, AllFresh, Popping, CtxPhi, CtxOut, SameStacks, Grew, Keeps, Recorded, Forest, Subtree, MarkedDeleted,
           Shows, Agrees;
      ConsistentSizes(S, code, terms, sub, processed, linked, done);
      var waitDelete := EnterBlock(bb);
      ghost var m2, p2, sub2 := varValStack, processed, sub;
      ghost var rest := ReNameChildren(bb);
      LeaveBlock(bb, waitDelete, old(varValStack), m2);
      order := [bb] + rest;
      assert order[1..] == rest;
      GrewTrans(S, old(processed), p2, processed, {bb}, Subtree(S, bb) - {bb});
      GrewKeeps(S, old(processed), p2, {bb});
      KeepsTrans(old(sub), sub2, sub, old(processed), p2);
      OwnSubtree(S, bb);
    }

    method ReNameChildren(bb: Block) returns (ghost order: seq<Block>)
      requires Ready() && TreeEdges(dominators.domTreeSucc, S.up) && bb in S.up && bb !in done && bb in linked
      requires Departing(S, bb, varValStack, sub, processed, linked) && Recorded(S, varValStack.Keys, failed, trail)
      modifies this`code, this`terms, this`varValStack, this`failed, this`sub, this`processed, this`linked, this`done, this`trail
      ensures Ready() && SameStacks(varValStack, old(varValStack))
      ensures linked == old(linked) + (Subtree(S, bb) - {bb}) && done == old(done) + (Subtree(S, bb) - {bb})
      ensures Grew(S, old(processed), processed, Subtree(S, bb) - {bb}) && Keeps(old(sub), sub, old(processed))
      ensures trail == old(trail) + order && Forest(S.up, Kids(S.up, bb), order) && Recorded(S, varValStack.Keys, failed, trail)
      decreases Num(S.po, bb), 0
    {
      hide Consistent, AllFresh, CtxOut, CtxIn, SameStacks, Grew, Keeps, Recorded, Subtree, Shows, Agrees, Preorder, Forest, Descending;
      ConsistentSizes(S, code, terms, sub, processed, linked, done);
      var todo := Entries(dominators.domTreeSucc, bb);
      ghost var seen: set<Block>, kids := {}, todo;
      order := [];
      DescendStart(S, bb, varValStack, sub, processed);
      EmptyForest(S.up);
      assert kids - todo == {};
      while todo != {}
        invariant Ready() && linked == old(linked) + seen && done == old(done) + seen
        invariant Descending(S, bb, todo, seen, old(varValStack), varValStack, old(sub), sub, old(processed), processed)
        invariant trail == old(trail) + order && Recorded(S, varValStack.Keys, failed, trail)
        invariant todo <= kids && Forest(S.up, kids - todo, order)
        decreases todo
      {
        var child :| child in todo;
        ConsistentSizes(S, code, terms, sub, processed, linked, done);
        DescendInto(S, bb, todo, seen, old(varValStack), varValStack, old(sub), sub, old(processed), processed, old(linked), child,
                    code, terms, linked, done);
        ghost var m, sub1, p := varValStack, sub, processed;
        ghost var part := ReName(child);
        DescendStep(S, bb, todo, seen, old(varValStack), m, old(sub), sub1, old(processed), p, child, varValStack, sub, processed);
        assert kids - (todo - {child}) - {child} == kids - todo;
        JoinForest(S.up, kids - (todo - {child}), child, order, part);
        order := order + part;
        todo := todo - {child};
        seen := seen + Subtree(S, child);
      }
      assert kids - todo == kids;
      DescendEnd(S, bb, seen, old(varValStack), varValStack, old(sub), sub, old(processed), processed);
    }

    /** Erases the allocas of scalars, and nothing else. */
    method RemoveAlloca()
      modifies this`code
      ensures |code| == |old(code)| && forall b :: 0 <= b < |code| ==> code[b] == DropAllocas(old(code)[b])
      ensures forall b, i :: 0 <= b < |code| ==>
                multiset(code[b])[i] == if i.Alloca? && i.scalar then 0 else multiset(old(code)[b])[i]
    {
      for b := 0 to |code|
        invariant |code| == |old(code)|
        invariant forall x :: 0 <= x < |code| ==> code[x] == if x < b then DropAllocas(old(code)[x]) else old(code)[x]
      {
        var waitDelete: set<nat> := {};
        for k := 0 to |code[b]|
          invariant forall j :: j in waitDelete <==> 0 <= j < k && code[b][j].Alloca? && code[b][j].scalar
        {
          if code[b][k].Alloca? && code[b][k].scalar {
            waitDelete := waitDelete + {k};
          }
        }
        ErasedAllocas(code[b], waitDelete, 0);
        assert code[b][0..] == code[b];
        code := code[b := Erase(code[b], waitDelete, 0)];
      }
      forall b | 0 <= b < |code| { DroppedExactly(old(code)[b]); }
    }

    function Result(): Function
      requires |code| == |terms|
      reads this
    {
      Assemble(code, terms)
    }

    /** Runs the dominator analysis. */
    method Analyse()
      requires g.Valid() && JoinsReachable(g) && g.pred[ENTRY] == [] && dominators.g == g
      modifies dominators
      ensures Analysed(g, dominators.idom, dominators.postOrderId, dominators.domFrontier)
      ensures forall x: Block, b: Block :: b in Entries(dominators.domFrontier, x) ==> b < |g.pred|
      ensures TreeEdges(dominators.domTreeSucc, dominators.idom)
    {
      dominators.Run();
      forall x: Block ensures Entries(dominators.domTreeSucc, x) == Kids(dominators.idom, x) {}
    }

    /** Dominators and phis. */
    method PlaceAll(ghost f: Function) returns (ghost has: set<(Block, nat)>)
      requires Input(f, g, nextReg) && code == Bodies(f) && terms == Terms(f)
      requires dominators.g == g
      modifies this`code, this`nextReg, this`S, dominators
      ensures S.g == g && S.code == code && S.terms == terms && S.up == dominators.idom && S.po == dominators.postOrderId
      ensures TreeEdges(dominators.domTreeSucc, S.up)
      ensures Placed(f, S, dominators.domFrontier, has, old(nextReg), nextReg)
    {
      hide Input, Analysed, PhisPlaced, OnFrontiers, TreeEdges;
      InputFacts(f, g, nextReg);
      Analyse();
      has := GeneratePhi();
      S := Source(code, terms, g, dominators.idom, dominators.postOrderId);
    }

    /** What renaming starts from. */
    method Prepare(ghost f: Function)
      requires Input(f, g, nextReg) && code == Bodies(f) && terms == Terms(f)
      requires dominators.g == g
      modifies this, dominators
      ensures Ready() && TreeEdges(dominators.domTreeSucc, S.up)
      ensures varValStack == old(varValStack) && failed == old(failed)
      ensures linked == done == {} && processed == {} && sub == map[] && trail == [] && Begun(f, S, old(nextReg))
      ensures S.up == dominators.idom && S.po == dominators.postOrderId && Analysed(g, S.up, S.po, dominators.domFrontier)
    {
      hide Input, TreeEdges, Begun, Analysed, PhisPlaced, OnFrontiers, ConsistentParts;
      ghost var has := PlaceAll(f);
      Begin(f, S, dominators.domFrontier, has, old(nextReg), nextReg);
      sub, processed, linked, done, trail := map[], {}, {}, {}, [];
    }

    /** Renames the whole dominator tree. */
    method RenameTree() returns (ghost order: seq<Block>)
      requires Ready() && TreeEdges(dominators.domTreeSucc, S.up)
      requires linked == done == {} && processed == {} && sub == map[] && trail == []
      requires varValStack == map[] && !failed
      modifies this`code, this`terms, this`varValStack, this`failed, this`sub, this`processed, this`linked, this`done, this`trail
      ensures Ready() && linked == done == S.up.Keys
      ensures Climbs(S.up, S.po) && Preorder(S.up, ENTRY, order) && Recorded(S, varValStack.Keys, failed, order)
    {
      hide TreeEdges, Consistent, CtxIn, Shows, Agrees, AllFresh, Subtree, Recorded, Preorder, SameStacks, Grew, Keeps;
      StartRenaming(S, code, terms);
      ConsistentSizes(S, code, terms, sub, processed, linked, done);
      RecordedStart(S);
      assert varValStack.Keys == {};
      order := ReName(ENTRY);
      assert trail == order;
    }

    /** The steps of the pass on one function. */
    method RunSteps(ghost f: Function) returns (ghost order: seq<Block>)
      requires Input(f, g, nextReg) && code == Bodies(f) && terms == Terms(f)
      requires dominators.g == g && varValStack == map[] && !failed
      modifies this, dominators
      ensures Analysed(g, dominators.idom, dominators.postOrderId, dominators.domFrontier)
      ensures |code| == |terms| && Achieved(f, g, Result())
      ensures g.Valid() && Preorder(dominators.idom, ENTRY, order) && (failed <==> FailsOn(f, g, order))
      ensures LoadsInitialised(f, g) && PhiEdgesInitialised(f, g) ==> !failed
    {
      hide Input, Analysed, TreeEdges, Consistent, Begun, Recorded, Achieved, FailsOn, Preorder, LoadsInitialised, PhiEdgesInitialised,
           DropAllocas;
      InputFacts(f, g, nextReg);
      ghost var first := nextReg;
      Prepare(f);
      order := RenameTree();
      ghost var renamed := code;
      EndOfRenaming(f, S, first, varValStack.Keys, failed, order);
      RemoveAlloca();
      WholePassAchieves(f, S, first, renamed, terms, sub, processed, code);
    }

    /** The whole pass: the result refines its input, is valid SSA, touches no local it could give a
        value, and has for each phi an operand from exactly the predecessors at whose end the variable
        has a value. An existing but empty stack is read if and only if that happens on the traversal
        of the dominator tree that was made. */
    method Run(ghost f: Function) returns (ghost order: seq<Block>)
      requires ValidInput(f, g, nextReg) && code == Bodies(f) && terms == Terms(f)
      requires JoinsReachable(g) && dominators.g == g && varValStack == map[] && !failed
      modifies this, dominators
      ensures Exact(g, dominators.idom, dominators.postOrderId) && FrontiersOf(g, dominators.domFrontier)
      ensures |code| == |terms| && Refines(f, Result())
      ensures ValidSSA(Result(), g) && NoStoresLeft(Result(), g) && PhisComplete(f, Result(), g)
      ensures LoadsInitialised(f, g) ==> NoLocalsLeftIn(Result(), g)
      ensures Preorder(dominators.idom, ENTRY, order) && (failed <==> FailsOn(f, g, order))
      ensures (exists other :: Preorder(dominators.idom, ENTRY, other) && FailsOn(f, g, other)) <==> MayFail(f, g)
      ensures LoadsInitialised(f, g) && PhiEdgesInitialised(f, g) ==> !failed
    {
      hide ValidInput, JoinsReachable, Exact, FrontiersOf, Refines, ValidSSA, NoStoresLeft, PhisComplete, LoadsInitialised,
           NoLocalsLeftIn, Preorder, FailsOn, MayFail, PhiEdgesInitialised;
      order := RunSteps(f);
      SomeTraversalFails(f, g, dominators.idom, dominators.postOrderId);
    }
  }
}
