// Renaming one block: its phis, its positions, the phis of its successors, and what is
// left when its subtree of the dominator tree comes next.
module RenameBlock {
  import opened Cfg
  import opened IdomTree
  import opened IR
  import opened Renaming
  import opened RenameSteps
  import opened RenameState
  import opened StackTrace

  // ----- phis -----

  /** The stacks after the phis among the first k positions have been pushed. */
  ghost predicate PhisPushed(S: Source, b: Block, k: nat, m0: Stacks, m: Stacks)
    requires Climbs(S.up, S.po) && b in S.up && b < |S.code| && k <= |S.code[b]|
  {
    && Shows(m, PhiCtxAt(S.code[b], In(S, b), k))
    && PhiStacksAt(m, m0, S.code[b], k)
    && m.Keys == m0.Keys + PhiSlots(S.code[b], k)
  }

  lemma PhisPushedStart(S: Source, b: Block, m: Stacks)
    requires Climbs(S.up, S.po) && b in S.up && b < |S.code| && Shows(m, In(S, b))
    ensures PhisPushed(S, b, 0, m, m)
  {
    hide Shows, CtxIn;
  }

  function PushPhi(i: Instr, m: Stacks): Stacks {
    if i.Phi? then m[i.lval := StackOf(m, i.lval) + [Reg(i.dst)]] else m
  }

  lemma PhisPushedStep(S: Source, b: Block, k: nat, m0: Stacks, m: Stacks)
    requires Climbs(S.up, S.po) && b in S.up && b < |S.code| && k < |S.code[b]| && PhisPushed(S, b, k, m0, m)
    ensures PhisPushed(S, b, k + 1, m0, PushPhi(S.code[b][k], m))
  {
    hide CtxIn;
    var body, c := S.code[b], In(S, b);
    var i := body[k];
    PhiStacksStep(m, m0, body, k);
    if i.Phi? { PushShows(m, PhiCtxAt(body, c, k), i.lval, Reg(i.dst)); }
  }

  lemma PhiStacksStep(m: Stacks, base: Stacks, body: seq<Instr>, k: nat)
    requires k < |body| && PhiStacksAt(m, base, body, k)
    ensures PhiStacksAt(PushPhi(body[k], m), base, body, k + 1)
  {
    var m' := PushPhi(body[k], m);
    forall v {:trigger PhiCount(body[..k + 1], v)} ensures Above(m', base, v, PhiCount(body[..k + 1], v)) {
      CountSnoc(body, k, v);
      assert Above(m, base, v, PhiCount(body[..k], v));
    }
  }

  lemma PhisPushedEnd(S: Source, b: Block, m0: Stacks, m: Stacks)
    requires Climbs(S.up, S.po) && b in S.up && b < |S.code| && PhisPushed(S, b, |S.code[b]|, m0, m)
    ensures Shows(m, AfterPhis(S, b))
  {
    hide CtxIn, Shows;
    PhiScanAt(S.code[b], In(S, b), |S.code[b]|);
    assert S.code[b][|S.code[b]|..] == [];
  }

  // ----- positions -----

  /** The stacks that exist after the first k positions, and the failures met there. */
  ghost predicate Keyed(S: Source, b: Block, k: nat, keys0: set<nat>, keys: set<nat>, failed0: bool, failed: bool)
    requires Climbs(S.up, S.po) && b in S.up && b < |S.code| && k <= |S.code[b]|
  {
    && keys == keys0 + StoreSlots(S.code[b], k)
    && (failed <==> failed0 || LoadFails(S, b, k, keys0))
  }

  lemma KeyedStart(S: Source, b: Block, keys: set<nat>, failed: bool)
    requires Climbs(S.up, S.po) && b in S.up && b < |S.code|
    ensures Keyed(S, b, 0, keys, keys, failed, failed)
  {
    hide UndefinedLoadOf;
  }

  /** Position k pushes what it stores, and fails if its variable has a stack but no definition. */
  ghost predicate KeyStep(S: Source, b: Block, k: nat, keys: set<nat>, keys': set<nat>, failed: bool, failed': bool)
    requires Climbs(S.up, S.po) && b in S.up && b < |S.code| && k < |S.code[b]|
  {
    && keys' == keys + StoreSlot(S.code[b][k])
    && (failed' <==> failed || exists v :: v in keys && UndefinedLoadOf(S, b, k, v))
  }

  lemma KeyedStep(S: Source, b: Block, k: nat, keys0: set<nat>, keys: set<nat>, keys': set<nat>,
                  failed0: bool, failed: bool, failed': bool)
    requires Climbs(S.up, S.po) && b in S.up && b < |S.code| && k < |S.code[b]|
    requires Keyed(S, b, k, keys0, keys, failed0, failed) && KeyStep(S, b, k, keys, keys', failed, failed')
    ensures Keyed(S, b, k + 1, keys0, keys', failed0, failed')
  {
    hide UndefinedLoadOf, LoadFails, StoreSlot;
    LoadFailsStep(S, b, k, keys0, keys, exists v :: v in keys && UndefinedLoadOf(S, b, k, v));
  }

  /** A position at which no variable with a stack is looked for in vain. */
  lemma KeyStepDefined(S: Source, b: Block, k: nat, m: Stacks, sub: map<nat, Operand>, processed: set<nat>,
                       keys': set<nat>, failed: bool)
    requires Climbs(S.up, S.po) && b in S.up && b < |S.code| && k < |S.code[b]| && Standing(S, m, sub, processed, b, k)
    requires keys' == m.Keys + StoreSlot(S.code[b][k])
    requires var i := S.code[b][k]; i.Load? && i.addr.Local? ==> i.addr.slot !in m || m[i.addr.slot] != []
    ensures KeyStep(S, b, k, m.Keys, keys', failed, failed)
  {
    hide CtxPhi, CtxAt;
    forall v | v in m.Keys ensures !UndefinedLoadOf(S, b, k, v) {
      assert TopOf(m, v) == Lookup(CtxAt(S.code[b], AfterPhis(S, b), k).cur, v);
    }
  }

  lemma KeyStepFails(S: Source, b: Block, k: nat, m: Stacks, sub: map<nat, Operand>, processed: set<nat>, failed: bool)
    requires Climbs(S.up, S.po) && b in S.up && b < |S.code| && k < |S.code[b]| && Standing(S, m, sub, processed, b, k)
    requires var i := S.code[b][k]; i.Load? && i.addr.Local? && i.addr.slot in m && m[i.addr.slot] == []
    ensures KeyStep(S, b, k, m.Keys, m.Keys, failed, true)
  {
    hide CtxPhi, CtxAt;
    var v := S.code[b][k].addr.slot;
    assert TopOf(m, v) == Lookup(CtxAt(S.code[b], AfterPhis(S, b), k).cur, v);
    assert UndefinedLoadOf(S, b, k, v);
  }

  // ----- the phis of the successors -----

  /** A phi whose variable has a stack, but an empty one. */
  predicate EmptyFor(i: Instr, m: Stacks) {
    i.Phi? && i.lval in m && m[i.lval] == []
  }

  ghost predicate SomeEmpty(body: seq<Instr>, m: Stacks, k: nat)
    requires k <= |body|
  {
    exists j :: 0 <= j < k && EmptyFor(body[j], m)
  }

  lemma {:induction false} RenamedHasPhi(body: seq<Instr>, c: Ctx, v: nat)
    ensures HasPhi(RenameAll(body, c), v) <==> HasPhi(body, v)
  {
    if body != [] {
      var head := if Deleted(body[0], c) then [] else [SubstInstr(c.sub, body[0])];
      var tail := RenameAll(body[1..], Advance(body[0], c));
      RenamedHasPhi(body[1..], Advance(body[0], c), v);
      assert RenameAll(body, c) == head + tail;
      HasPhiConcat(head, tail, v);
      assert body == [body[0]] + body[1..];
      HasPhiConcat([body[0]], body[1..], v);
      HasPhiOne(body[0], v);
      if head != [] { HasPhiOne(head[0], v); }
    }
  }

  lemma HasPhiOne(i: Instr, v: nat)
    ensures HasPhi([i], v) <==> i.Phi? && i.lval == v
  {
    if i.Phi? && i.lval == v { assert [i][0].Phi?; }
  }

  lemma HasPhiConcat(a: seq<Instr>, b: seq<Instr>, v: nat)
    ensures HasPhi(a + b, v) <==> HasPhi(a, v) || HasPhi(b, v)
  {
    if k :| 0 <= k < |a| && a[k].Phi? && a[k].lval == v { assert (a + b)[k].Phi?; }
    if k :| 0 <= k < |b| && b[k].Phi? && b[k].lval == v { assert (a + b)[|a| + k].Phi?; }
    if k :| 0 <= k < |a + b| && (a + b)[k].Phi? && (a + b)[k].lval == v {
      if k < |a| { assert a[k].Phi?; } else { assert b[k - |a|].Phi?; }
    }
  }

  lemma CoresHavePhi(a: seq<Instr>, b: seq<Instr>, v: nat)
    requires |a| == |b| && forall k :: 0 <= k < |a| ==> (a[k].Phi? <==> b[k].Phi?) && (a[k].Phi? ==> a[k].lval == b[k].lval)
    ensures HasPhi(a, v) <==> HasPhi(b, v)
  {
    if k :| 0 <= k < |a| && a[k].Phi? && a[k].lval == v { assert b[k].Phi?; }
    if k :| 0 <= k < |b| && b[k].Phi? && b[k].lval == v { assert a[k].Phi?; }
  }

  lemma SameCores(a: seq<Instr>, b: seq<Instr>)
    requires Cores(a) == Cores(b)
    ensures |a| == |b| && forall k :: 0 <= k < |a| ==> (a[k].Phi? <==> b[k].Phi?) && (a[k].Phi? ==> a[k].lval == b[k].lval)
  {
    assert |a| == |Cores(a)| == |b|;
    forall k | 0 <= k < |a| ensures (a[k].Phi? <==> b[k].Phi?) && (a[k].Phi? ==> a[k].lval == b[k].lval) {
      assert Core(a[k]) == Cores(a)[k] == Cores(b)[k] == Core(b[k]);
    }
  }

  /** Renaming never takes a phi away. */
  lemma OpenHasPhi(S: Source, code: Code, terms: seq<Terminator>, sub: map<nat, Operand>, processed: set<nat>,
                   linked: set<Block>, done: set<Block>, s: Block, v: nat)
    requires Consistent(S, code, terms, sub, processed, linked, done) && s < |code|
    ensures HasPhi(code[s], v) <==> HasPhi(S.code[s], v)
  {
    hide RenameAll, HasPhi;
    assert BlockOk(S, code, terms, sub, linked, done, s);
    if s in done {
      RenamedHasPhi(S.code[s], AfterPhis(S, s), v);
      var out := RenameAll(S.code[s], AfterPhis(S, s));
      assert Cores(code[s]) == out;
      SameAsCores(code[s]);
      CoresHavePhi(code[s], out, v);
    } else {
      forall k | 0 <= k < |code[s]|
        ensures (code[s][k].Phi? <==> S.code[s][k].Phi?) && (code[s][k].Phi? ==> code[s][k].lval == S.code[s][k].lval)
      {
        assert Core(code[s][k]) == SubstInstr(sub, S.code[s][k]);
      }
      CoresHavePhi(code[s], S.code[s], v);
    }
  }

  lemma SameAsCores(a: seq<Instr>)
    ensures |Cores(a)| == |a|
    ensures forall k :: 0 <= k < |a| ==> (a[k].Phi? <==> Cores(a)[k].Phi?) && (a[k].Phi? ==> a[k].lval == Cores(a)[k].lval)
  {
    hide Handing;
    forall k | 0 <= k < |a| ensures (a[k].Phi? <==> Cores(a)[k].Phi?) && (a[k].Phi? ==> a[k].lval == Cores(a)[k].lval) {
      assert Cores(a)[k] == Core(a[k]);
    }
  }

  /** Handing values to the j-th successor fails exactly if one of its phis has a stack but no definition. */
  lemma EdgeFailsStep(S: Source, code0: Code, code: Code, terms: seq<Terminator>, sub: map<nat, Operand>, processed: set<nat>,
                      linked: set<Block>, done: set<Block>, p: Block, j: nat, m: Stacks)
    requires Consistent(S, code0, terms, sub, processed, linked, done)
    requires p in S.up && p < |S.g.succ| && j < |S.g.succ[p]| && Handing(S, code0, code, linked, p, j) && Shows(m, Out(S, p))
    requires S.g.succ[p][j] < |code|
    ensures var s := S.g.succ[p][j];
            EdgeFails(S, p, j + 1, m.Keys) <==> EdgeFails(S, p, j, m.Keys) || SomeEmpty(code[s], m, |code[s]|)
  {
    hide CtxOut, HasPhi, Consistent, Handing;
    var s := S.g.succ[p][j];
    assert s in S.g.succ[p];
    ConsistentSizes(S, code0, terms, sub, processed, linked, done);
    HandingCores(S, code0, code, linked, p, j, s);
    forall v ensures HasPhi(code[s], v) <==> HasPhi(At(S.code, s), v) {
      OpenHasPhi(S, code0, terms, sub, processed, linked, done, s, v);
      SameCores(code[s], code0[s]);
      CoresHavePhi(code[s], code0[s], v);
    }
    if k :| 0 <= k < |code[s]| && EmptyFor(code[s][k], m) {
      EmptyIsUndefined(S, code[s], m, p, s, k);
      assert UndefinedEdge(S, p, S.g.succ[p][j], code[s][k].lval);
    }
    if v :| v in m.Keys && UndefinedEdge(S, p, s, v) { UndefinedIsEmpty(S, code[s], m, p, s, v); }
    if i, v :| 0 <= i < j + 1 && v in m.Keys && UndefinedEdge(S, p, S.g.succ[p][i], v) {
      if i == j { assert UndefinedEdge(S, p, s, v); }
    }
  }

  lemma ConsistentSizes(S: Source, code: Code, terms: seq<Terminator>, sub: map<nat, Operand>, processed: set<nat>,
                        linked: set<Block>, done: set<Block>)
    requires Consistent(S, code, terms, sub, processed, linked, done)
    ensures |code| == |terms| == |S.code| == |S.g.succ| && Climbs(S.up, S.po)
    ensures forall b :: b in S.up ==> b < |S.code|
  {
    hide ConsistentParts;
  }

  lemma HandingCores(S: Source, code0: Code, code: Code, linked: set<Block>, p: Block, j: nat, s: Block)
    requires Climbs(S.up, S.po) && p < |S.g.succ| && j <= |S.g.succ[p]| && Handing(S, code0, code, linked, p, j) && s < |code|
    ensures |code| == |code0| && Cores(code[s]) == Cores(code0[s])
  {
  }

  lemma EmptyIsUndefined(S: Source, body: seq<Instr>, m: Stacks, p: Block, s: Block, k: nat)
    requires Climbs(S.up, S.po) && p in S.up && Shows(m, Out(S, p)) && Edge(S.g, p, s)
    requires k < |body| && EmptyFor(body[k], m) && (HasPhi(body, body[k].lval) ==> HasPhi(At(S.code, s), body[k].lval))
    ensures body[k].lval in m.Keys && UndefinedEdge(S, p, s, body[k].lval)
  {
    hide CtxOut;
    assert TopOf(m, body[k].lval) == Lookup(Out(S, p).cur, body[k].lval);
    assert HasPhi(body, body[k].lval);
  }

  lemma UndefinedIsEmpty(S: Source, body: seq<Instr>, m: Stacks, p: Block, s: Block, v: nat)
    requires Climbs(S.up, S.po) && p in S.up && Shows(m, Out(S, p)) && v in m.Keys && UndefinedEdge(S, p, s, v)
    requires HasPhi(At(S.code, s), v) ==> HasPhi(body, v)
    ensures SomeEmpty(body, m, |body|)
  {
    hide CtxOut;
    assert TopOf(m, v) == Lookup(Out(S, p).cur, v);
    var k :| 0 <= k < |body| && body[k].Phi? && body[k].lval == v;
    assert EmptyFor(body[k], m);
  }

  // ----- the block as a whole -----

  /** What renaming finds on arriving at b. */
  ghost predicate Arriving(S: Source, b: Block, m: Stacks, sub: map<nat, Operand>, processed: set<nat>, linked: set<Block>)
    requires Climbs(S.up, S.po) && b in S.up
  {
    Shows(m, In(S, b)) && Agrees(sub, In(S, b)) && In(S, b).scope <= processed && AllFresh(S, processed, linked, Subtree(S, b))
  }

  /** What the children of b find. */
  ghost predicate Departing(S: Source, b: Block, m: Stacks, sub: map<nat, Operand>, processed: set<nat>, linked: set<Block>)
    requires Climbs(S.up, S.po) && b in S.up
  {
    Shows(m, Out(S, b)) && Agrees(sub, Out(S, b)) && Out(S, b).scope <= processed && AllFresh(S, processed, linked, Subtree(S, b) - {b})
  }

  /** What renaming b alone has changed: b's definitions are on the stacks, `del` is to be erased. */
  ghost predicate Entered(S: Source, b: Block, m0: Stacks, m: Stacks, sub0: map<nat, Operand>, sub: map<nat, Operand>,
                          p0: set<nat>, p: set<nat>, del: set<nat>)
    requires Climbs(S.up, S.po) && b in S.up && b < |S.code|
  {
    && Grew(S, p0, p, {b}) && Keeps(sub0, sub, p0)
    && Popping(m, m0, S.code[b], 0) && MarkedDeleted(S.code[b], AfterPhis(S, b), |S.code[b]|, del)
  }

  lemma EnteredBy(S: Source, b: Block, p0: set<nat>, p1: set<nat>, processed: set<nat>, linked0: set<Block>,
                  m0: Stacks, m1: Stacks, m: Stacks, sub0: map<nat, Operand>, sub: map<nat, Operand>, del: set<nat>)
    requires S.Valid() && b in S.up && AllFresh(S, p0, linked0, Subtree(S, b)) && p1 == p0 + PhiRegs(S.code[b])
    requires PhisPushed(S, b, |S.code[b]|, m0, m1)
    requires Rewritten(S, b, |S.code[b]|, m1, m, sub0, sub, p1, processed, del)
    ensures AllFresh(S, processed, linked0 + {b}, Subtree(S, b) - {b})
    ensures Entered(S, b, m0, m, sub0, sub, p0, processed, del)
  {
    hide CtxPhi, CtxIn, Shows;
    assert PhiRegs(S.code[b]) <= Defs(S.code[b]) by { PhiRegsDefined(S.code[b]); }
    assert Grew(S, p0, processed, {b}) by { GrewOne(S, p0, processed, b); }
    forall c {:trigger Fresh(S, p0, linked0, c)} | c in Subtree(S, b) - {b} ensures Fresh(S, p0, linked0, c) {}
    StaysFresh(S, p0, processed, linked0, {b}, Subtree(S, b) - {b});
    KeepsTrans(sub0, sub0, sub, p0, p1);
    PoppingStart(S, S.code[b], m0, m1, m, m);
  }

  lemma PhiRegsDefined(body: seq<Instr>)
    ensures PhiRegs(body) <= Defs(body)
  {
    forall k | 0 <= k < |body| && body[k].Phi? ensures body[k].dst in Defs(body) {
      assert body[k].dst in Def(body[k]);
    }
  }

  lemma GrewOne(S: Source, p0: set<nat>, p: set<nat>, b: Block)
    requires b < |S.code| && p0 <= p <= p0 + Defs(S.code[b])
    ensures Grew(S, p0, p, {b})
  {
  }

  /** The stacks and failures after b alone. */
  lemma RecordedEntered(S: Source, b: Block, keys0: set<nat>, keys1: set<nat>, keys: set<nat>, failed0: bool, failed1: bool, failed: bool,
                      trail: seq<Block>)
    requires Climbs(S.up, S.po) && b in S.up && b < |S.code| == |S.g.succ| && Recorded(S, keys0, failed0, trail)
    requires keys1 == keys0 + PhiSlots(S.code[b], |S.code[b]|) && Keyed(S, b, |S.code[b]|, keys1, keys, failed0, failed1)
    requires failed <==> failed1 || EdgeFails(S, b, |S.g.succ[b]|, keys)
    ensures Recorded(S, keys, failed, trail + [b])
  {
    hide Recorded, LoadFails, EdgeFails, PhiSlots, StoreSlots;
    assert keys == keys0 + Slots(S.code[b]);
    RecordedBlock(S, keys0, failed0, trail, b, keys, failed);
  }

  /** Positions of an open block pop what the source block pushed. */
  lemma OpenPopping(S: Source, code: Code, terms: seq<Terminator>, sub: map<nat, Operand>,
                    processed: set<nat>, linked: set<Block>, done: set<Block>, b: Block, m: Stacks, m0: Stacks, m2: Stacks)
    requires Consistent(S, code, terms, sub, processed, linked, done) && b in S.up && b !in done
    requires Popping(m2, m0, S.code[b], 0) && SameStacks(m, m2)
    ensures Popping(m, m0, code[b], 0)
  {
    hide PopCount, ConsistentParts;
    OpenBlock(S, code, terms, sub, processed, linked, done, b);
    assert code[b][0..] == code[b] && S.code[b][0..] == S.code[b];
    forall v {:trigger PopCount(code[b][0..], v)} ensures Above(m, m0, v, PopCount(code[b][0..], v)) {
      forall k | 0 <= k < |code[b]| ensures Pops(code[b][k], v) == Pops(S.code[b][k], v) {
        assert Core(code[b][k]) == SubstInstr(sub, S.code[b][k]);
      }
      SamePops(code[b], S.code[b], v);
      assert Above(m2, m0, v, PopCount(S.code[b][0..], v));
      assert StackOf(m, v) == StackOf(m2, v);
    }
  }

  lemma {:induction false} SamePops(a: seq<Instr>, b: seq<Instr>, v: nat)
    requires |a| == |b| && forall k :: 0 <= k < |a| ==> Pops(a[k], v) == Pops(b[k], v)
    ensures PopCount(a, v) == PopCount(b, v)
  {
    if a != [] { SamePops(a[1..], b[1..], v); }
  }

  // ----- opening the state one fact at a time -----

  lemma OpenSize(S: Source, code: Code, terms: seq<Terminator>, sub: map<nat, Operand>, processed: set<nat>,
                 linked: set<Block>, done: set<Block>, b: Block)
    requires Consistent(S, code, terms, sub, processed, linked, done) && b in S.up && b !in done
    ensures |code[b]| == |S.code[b]|
  {
    hide ConsistentParts;
    OpenBlock(S, code, terms, sub, processed, linked, done, b);
  }

  lemma OpenPosition(S: Source, code: Code, terms: seq<Terminator>, sub: map<nat, Operand>, processed: set<nat>,
                     linked: set<Block>, done: set<Block>, b: Block, k: nat)
    requires Consistent(S, code, terms, sub, processed, linked, done) && b in S.up && b !in done && k < |S.code[b]|
    ensures |code[b]| == |S.code[b]| && Core(code[b][k]) == SubstInstr(sub, S.code[b][k])
  {
    hide ConsistentParts;
    OpenBlock(S, code, terms, sub, processed, linked, done, b);
  }

  lemma SourceValid(S: Source, code: Code, terms: seq<Terminator>, sub: map<nat, Operand>, processed: set<nat>,
                    linked: set<Block>, done: set<Block>)
    requires Consistent(S, code, terms, sub, processed, linked, done)
    ensures S.Valid()
  {
  }

  lemma NoEdgeFails(S: Source, b: Block, keys: set<nat>)
    requires Climbs(S.up, S.po) && b in S.up && b < |S.g.succ|
    ensures !EdgeFails(S, b, 0, keys)
  {
  }

  lemma PhisPushedKeys(S: Source, b: Block, m0: Stacks, m: Stacks)
    requires Climbs(S.up, S.po) && b in S.up && b < |S.code| && PhisPushed(S, b, |S.code[b]|, m0, m)
    ensures m.Keys == m0.Keys + PhiSlots(S.code[b], |S.code[b]|)
  {
  }

  lemma GrewKeeps(S: Source, p0: set<nat>, p: set<nat>, blocks: set<Block>)
    requires Grew(S, p0, p, blocks)
    ensures p0 <= p
  {
  }

  lemma OwnSubtree(S: Source, b: Block)
    requires Climbs(S.up, S.po) && b in S.up
    ensures {b} + (Subtree(S, b) - {b}) == Subtree(S, b)
  {
    ChainBounds(S.up, S.po, b);
  }
}
