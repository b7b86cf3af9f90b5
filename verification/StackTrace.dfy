// Which stacks exist while the dominator tree is traversed, and which of them are read
// while empty.
module StackTrace {
  import opened Cfg
  import opened IdomTree
  import opened IdomFixpoint
  import opened IR
  import opened Renaming
  import opened RenameSteps
  import opened RenameState
  import opened Mem2RegMeaning
  import opened PhiPlacement
  import opened EmptyStacks
  import opened PhiSites
  import opened Initialised

  /** The variables of the phis, respectively stores, among the first k positions. */
  function PhiSlots(body: seq<Instr>, k: nat): set<nat>
    requires k <= |body|
  {
    if k == 0 then {} else PhiSlots(body, k - 1) + if body[k - 1].Phi? then {body[k - 1].lval} else {}
  }

  function StoreSlots(body: seq<Instr>, k: nat): set<nat>
    requires k <= |body|
  {
    if k == 0 then {} else StoreSlots(body, k - 1) + StoreSlot(body[k - 1])
  }

  function StoreSlot(i: Instr): set<nat> {
    if i.Store? && i.addr.Local? then {i.addr.slot} else {}
  }

  lemma {:induction false} PhiSlotsIff(body: seq<Instr>, k: nat, v: nat)
    requires k <= |body|
    ensures v in PhiSlots(body, k) <==> exists j :: 0 <= j < k && body[j].Phi? && body[j].lval == v
  {
    if k > 0 { PhiSlotsIff(body, k - 1, v); }
  }

  lemma {:induction false} StoreSlotsIff(body: seq<Instr>, k: nat, v: nat)
    requires k <= |body|
    ensures v in StoreSlots(body, k) <==> Stores(body[..k], v)
  {
    if k > 0 {
      StoreSlotsIff(body, k - 1, v);
      StoresSnoc(body, k - 1, v);
    }
  }

  /** All variables block b pushes values for. */
  function Slots(body: seq<Instr>): set<nat> {
    PhiSlots(body, |body|) + StoreSlots(body, |body|)
  }

  lemma SlotsIff(body: seq<Instr>, v: nat)
    ensures v in Slots(body) <==> Defines(body, v)
  {
    PhiSlotsIff(body, |body|, v);
    StoreSlotsIff(body, |body|, v);
    assert body[..|body|] == body;
    DefinesIff(body, v);
  }

  // ----- one block -----

  /** One of the first k positions loads a variable of `keys` that has no definition. */
  ghost predicate LoadFails(S: Source, b: Block, k: nat, keys: set<nat>)
    requires Climbs(S.up, S.po) && b in S.up
  {
    exists j: nat, v :: j < k && v in keys && UndefinedLoadOf(S, b, j, v)
  }

  /** One of the first k successors of b has a phi for a variable of `keys` that has no definition. */
  ghost predicate EdgeFails(S: Source, b: Block, k: nat, keys: set<nat>)
    requires Climbs(S.up, S.po) && b in S.up && b < |S.g.succ| && k <= |S.g.succ[b]|
  {
    exists j, v :: 0 <= j < k && v in keys && UndefinedEdge(S, b, S.g.succ[b][j], v)
  }

  lemma LoadFailsStep(S: Source, b: Block, k: nat, keys: set<nat>, keys': set<nat>, failed: bool)
    requires Climbs(S.up, S.po) && b in S.up && b < |S.code| && k < |S.code[b]|
    requires keys' == keys + StoreSlots(S.code[b], k)
    requires failed <==> exists v :: v in keys' && UndefinedLoadOf(S, b, k, v)
    ensures LoadFails(S, b, k + 1, keys) <==> LoadFails(S, b, k, keys) || failed
  {
    hide CtxPhi, CtxAt, StoreSlots;
    forall v | v in StoreSlots(S.code[b], k) ensures !UndefinedLoadOf(S, b, k, v) {
      StoreSlotsIff(S.code[b], k, v);
      CtxAtHas(S.code[b], AfterPhis(S, b), k, v);
    }
  }

  /** What block b defines it does not look for in vain, but for what came on a stack before. */
  lemma BlockFails(S: Source, b: Block, keys: set<nat>)
    requires Climbs(S.up, S.po) && b in S.up && b < |S.code| == |S.g.succ|
    ensures var body := S.code[b];
            (LoadFails(S, b, |body|, keys + PhiSlots(body, |body|)) || EdgeFails(S, b, |S.g.succ[b]|, keys + Slots(body)))
            <==> exists v :: v in keys && ReadsAt(S, b, v)
  {
    hide CtxPhi, CtxOut, CtxAt, PhiSlots, StoreSlots;
    var body := S.code[b];
    forall v, j: nat | v in PhiSlots(body, |body|) ensures !UndefinedLoadOf(S, b, j, v) { PhiHasValue(S, b, j, v); }
    forall v, s | v in Slots(body) ensures !UndefinedEdge(S, b, s, v) { DefinedHasValue(S, b, v); }
    if v :| v in keys && ReadsAt(S, b, v) {
      if s :| UndefinedEdge(S, b, s, v) {
        assert s in S.g.succ[b];
      }
    }
  }

  lemma PhiHasValue(S: Source, b: Block, j: nat, v: nat)
    requires Climbs(S.up, S.po) && b in S.up && b < |S.code| && v in PhiSlots(S.code[b], |S.code[b]|)
    ensures !UndefinedLoadOf(S, b, j, v)
  {
    hide CtxIn, PhiSlots;
    if UndefinedLoadOf(S, b, j, v) {
      PhiSlotsIff(S.code[b], |S.code[b]|, v);
      PhiScanHas(S.code[b], In(S, b), v);
      CtxAtHas(S.code[b], AfterPhis(S, b), j, v);
    }
  }

  lemma DefinedHasValue(S: Source, b: Block, v: nat)
    requires Climbs(S.up, S.po) && b in S.up && b < |S.code| && v in Slots(S.code[b])
    ensures v in Out(S, b).cur
  {
    SlotsIff(S.code[b], v);
    OutHas(S.code, S.up, S.po, b, v);
    ChainBounds(S.up, S.po, b);
    assert DefinesAt(S.code, b, v);
  }

  // ----- the blocks visited so far -----

  /** On the blocks visited, in this order, an existing empty stack has been read. */
  ghost predicate FailsAlong(S: Source, trail: seq<Block>)
    requires Climbs(S.up, S.po)
  {
    exists i, j, v {:trigger FailsFrom(S, trail, i, j, v)} :: FailsFrom(S, trail, i, j, v)
  }

  ghost predicate FailsFrom(S: Source, trail: seq<Block>, i: int, j: int, v: nat)
    requires Climbs(S.up, S.po)
  {
    0 <= j < i < |trail| && trail[i] in S.up && ReadsAt(S, trail[i], v) && DefinesAt(S.code, trail[j], v)
  }

  /** The stacks that exist are those of the variables defined on the trail, and the failures are recorded. */
  ghost predicate Recorded(S: Source, keys: set<nat>, failed: bool, trail: seq<Block>)
    requires Climbs(S.up, S.po)
  {
    && (forall v :: v in keys <==> DefinedOn(S, trail, v))
    && (failed <==> FailsAlong(S, trail))
  }

  ghost predicate DefinedOn(S: Source, trail: seq<Block>, v: nat) {
    exists j :: 0 <= j < |trail| && DefinesAt(S.code, trail[j], v)
  }

  lemma RecordedStart(S: Source)
    requires Climbs(S.up, S.po)
    ensures Recorded(S, {}, false, [])
  {
  }

  lemma RecordedBlock(S: Source, keys: set<nat>, failed: bool, trail: seq<Block>, b: Block, keys': set<nat>, failed': bool)
    requires Climbs(S.up, S.po) && b in S.up && b < |S.code| == |S.g.succ| && Recorded(S, keys, failed, trail)
    requires keys' == keys + Slots(S.code[b])
    requires failed' <==> failed || LoadFails(S, b, |S.code[b]|, keys + PhiSlots(S.code[b], |S.code[b]|))
                                 || EdgeFails(S, b, |S.g.succ[b]|, keys + Slots(S.code[b]))
    ensures Recorded(S, keys', failed', trail + [b])
  {
    hide ReadsAt, LoadFails, EdgeFails, Slots, PhiSlots, DefinedOn, FailsAlong;
    BlockFails(S, b, keys);
    forall v: nat ensures v in keys' <==> DefinedOn(S, trail + [b], v) { DefinedMore(S, trail, b, v); }
    FailsMore(S, trail, b);
  }

  lemma DefinedMore(S: Source, trail: seq<Block>, b: Block, v: nat)
    requires b < |S.code|
    ensures DefinedOn(S, trail + [b], v) <==> DefinedOn(S, trail, v) || v in Slots(S.code[b])
  {
    var trail' := trail + [b];
    SlotsIff(S.code[b], v);
    if j :| 0 <= j < |trail| && DefinesAt(S.code, trail[j], v) { assert DefinesAt(S.code, trail'[j], v); }
    assert trail'[|trail|] == b;
  }

  lemma FailsMore(S: Source, trail: seq<Block>, b: Block)
    requires Climbs(S.up, S.po) && b in S.up
    ensures FailsAlong(S, trail + [b]) <==> FailsAlong(S, trail) || exists v :: DefinedOn(S, trail, v) && ReadsAt(S, b, v)
  {
    hide ReadsAt, DefinesAt;
    var trail' := trail + [b];
    if v :| DefinedOn(S, trail, v) && ReadsAt(S, b, v) {
      var j :| 0 <= j < |trail| && DefinesAt(S.code, trail[j], v);
      assert FailsFrom(S, trail', |trail|, j, v);
    }
    if i, j, v :| FailsFrom(S, trail, i, j, v) { assert FailsFrom(S, trail', i, j, v); }
    if i, j, v :| FailsFrom(S, trail', i, j, v) {
      assert DefinesAt(S.code, trail[j], v);
      if i < |trail| { assert FailsFrom(S, trail, i, j, v); } else { assert DefinedOn(S, trail, v); }
    }
  }

  /** At the end of renaming the failures are those of the traversal made, in terms of the input. */
  lemma RecordedEnd(f: Function, S: Source, first: nat, keys: set<nat>, failed: bool, order: seq<Block>)
    requires PlacedForm(f, S, first) && Recorded(S, keys, failed, order)
    requires forall x :: x in order ==> x in S.up
    ensures failed <==> FailsOn(f, S.g, order)
  {
    hide ReadsAt, DefinesAt, ReadsUndefined, Assigns, PhisMatch;
    forall x, v: nat | x in order
      ensures (ReadsAt(S, x, v) <==> ReadsUndefined(f, S.g, x, v)) && (DefinesAt(S.code, x, v) <==> Assigns(f, S.g, x, v))
    {
      assert PreparedBlock(f, S.code, S.up, S.po, first, x);
      ReadsIff(f, S, first, x, v);
      DefinesIsAssigns(f, S, first, x, v);
    }
    if i, j, v :| FailsFrom(S, order, i, j, v) { assert order[i] in order && order[j] in order; }
    if i, j, v :| 0 <= j < i < |order| && ReadsUndefined(f, S.g, order[i], v) && Assigns(f, S.g, order[j], v) {
      assert order[i] in order && order[j] in order;
      assert FailsFrom(S, order, i, j, v);
    }
  }

  /** With every load and every edge into a phi initialised no traversal fails. */
  lemma InitialisedNeverFails(f: Function, S: Source, first: nat, order: seq<Block>)
    requires PlacedForm(f, S, first) && LoadsInitialised(f, S.g) && PhiEdgesInitialised(f, S.g)
    requires forall x :: x in order ==> x in S.up
    ensures !FailsOn(f, S.g, order)
  {
    hide PhisMatch, LoadsInitialised, PhiEdgesInitialised, ReadsUndefined, Assigns;
    forall i: nat, v: nat | i < |order| ensures !ReadsUndefined(f, S.g, order[i], v) {
      assert order[i] in order && order[i] in S.up;
      assert PreparedBlock(f, S.code, S.up, S.po, first, order[i]);
      NothingUndefined(f, S, first, order[i], v);
      ReadsIff(f, S, first, order[i], v);
    }
  }

  /** At the end of renaming the failures are those of the traversal made. */
  lemma EndOfRenaming(f: Function, S: Source, first: nat, keys: set<nat>, failed: bool, order: seq<Block>)
    requires Begun(f, S, first) && Preorder(S.up, ENTRY, order) && Recorded(S, keys, failed, order)
    ensures failed <==> FailsOn(f, S.g, order)
    ensures LoadsInitialised(f, S.g) && PhiEdgesInitialised(f, S.g) ==> !failed
  {
    hide PhisMatch, LoadsInitialised, PhiEdgesInitialised, FailsOn, Preorder, Recorded;
    EntryReachable(S.g);
    PreorderSpans(S.up, S.po, ENTRY, order);
    RecordedEnd(f, S, first, keys, failed, order);
    if LoadsInitialised(f, S.g) && PhiEdgesInitialised(f, S.g) { InitialisedNeverFails(f, S, first, order); }
  }
}
