// The end theorem of SSA construction: a function and its renamed form return the
// same results with the same effects.
module Mem2RegMeaning {
  import opened Wrappers
  import opened Cfg
  import opened IdomTree
  import opened IdomFixpoint
  import opened IR
  import opened Renaming
  import opened RenamingMeaning
  import opened RenameSteps

  /** `placed` is `body` with phis in front. */
  ghost predicate PhisInFront(placed: seq<Instr>, body: seq<Instr>) {
    && |body| <= |placed|
    && placed[|placed| - |body|..] == body
    && (forall k :: 0 <= k < |placed| - |body| ==> placed[k].Phi?)
    && (forall k :: 0 <= k < |body| ==> !body[k].Phi?)
  }

  /** Block b after phi placement: well scoped, and its terminator reads registers in scope. */
  ghost predicate PreparedBlock(f: Function, code: Code, up: Up, po: Order, first: nat, b: Block)
    requires Climbs(up, po)
  {
    && b in up && b < |f.blocks| && b < |code|
    && PhisInFront(code[b], f.blocks[b].instrs)
    && SplitRegs(code[b], first)
    && BlockScoped(code, up, po, b)
    && TermUses(f.blocks[b].term) <= CtxOut(code, up, po, b).scope
  }

  /** What renaming finds: exact dominator links and phis placed on closed frontiers. */
  ghost predicate Prepared(f: Function, g: Graph, code: Code, up: Up, po: Order, first: nat) {
    && HasGraph(f, g) && g.pred[ENTRY] == []
    && Exact(g, up, po)
    && PhisClosed(code, g)
    && (forall v :: !HasPhi(At(code, ENTRY), v))
    && (forall b {:trigger PreparedBlock(f, code, up, po, first, b)} :: b in up ==> PreparedBlock(f, code, up, po, first, b))
  }

  /** What renaming leaves in block b. */
  ghost predicate FinishedBlock(f: Function, g: Graph, code: Code, up: Up, po: Order, f': Function, b: Block)
    requires Climbs(up, po)
  {
    && b in up && b < |f.blocks| && b < |f'.blocks|
    && RenamedBlock(code, up, po, g, b, f'.blocks[b].instrs)
    && f'.blocks[b].term == SubstTerm(CtxOut(code, up, po, b).sub, f.blocks[b].term)
  }

  ghost predicate Finished(f: Function, g: Graph, code: Code, up: Up, po: Order, f': Function)
    requires Climbs(up, po)
  {
    forall b {:trigger FinishedBlock(f, g, code, up, po, f', b)} :: b in up ==> FinishedBlock(f, g, code, up, po, f', b)
  }

  lemma {:induction false} ExecPhisOnly(phis: seq<Instr>, args: seq<int>, ext: Oracle, s: State)
    requires forall k :: 0 <= k < |phis| ==> phis[k].Phi?
    ensures ExecAll(phis, args, ext, s) == Some(s)
  {
    if phis != [] { ExecPhisOnly(phis[1..], args, ext, s); }
  }

  lemma ExecPlaced(placed: seq<Instr>, body: seq<Instr>, args: seq<int>, ext: Oracle, s: State)
    requires PhisInFront(placed, body)
    ensures ExecAll(placed, args, ext, s) == ExecAll(body, args, ext, s)
  {
    var phis := placed[..|placed| - |body|];
    assert placed == phis + body;
    ExecPhisOnly(phis, args, ext, s);
    ExecConcat(phis, body, args, ext, s);
  }

  lemma PreparedIsScoped(f: Function, g: Graph, code: Code, up: Up, po: Order, first: nat)
    requires Prepared(f, g, code, up, po, first)
    ensures AllScoped(code, up, po)
  {
    forall b {:trigger BlockScoped(code, up, po, b)} | b in up ensures BlockScoped(code, up, po, b) {
      assert PreparedBlock(f, code, up, po, first, b);
    }
  }

  /** Control reaches b with the relation that holds after its phis. */
  ghost predicate Arrives(f: Function, code: Code, up: Up, po: Order, first: nat, f': Function,
                          args: seq<int>, prev: Block, b: Block, s: State, t: State)
    requires Climbs(up, po) && b in up
  {
    b < |f'.blocks|
    && Related(CtxPhi(code, up, po, b), first, args, s, t.(env := EnterPhis(f'.blocks[b].instrs, prev, args, t.env, t.env)))
  }

  lemma BlockRelated(f: Function, g: Graph, code: Code, up: Up, po: Order, first: nat, f': Function,
                     args: seq<int>, ext: Oracle, prev: Block, b: Block, s: State, t: State) returns (t': State)
    requires Prepared(f, g, code, up, po, first) && Finished(f, g, code, up, po, f')
    requires b in up && b < |f.blocks| && Arrives(f, code, up, po, first, f', args, prev, b, s, t)
    requires ExecBlock(f, args, ext, prev, b, s).Some?
    ensures b < |f'.blocks| && ExecBlock(f', args, ext, prev, b, t) == Some(t')
    ensures Related(CtxOut(code, up, po, b), first, args, ExecBlock(f, args, ext, prev, b, s).value, t')
  {
    PreparedIsScoped(f, g, code, up, po, first);
    assert PreparedBlock(f, code, up, po, first, b) && FinishedBlock(f, g, code, up, po, f', b);
    var body, out := f.blocks[b].instrs, f'.blocks[b].instrs;
    var t0 := t.(env := EnterPhis(out, prev, args, t.env, t.env));
    EnterNoPhis(body, prev, args, s.env, s.env);
    assert s.(env := s.env) == s;
    ExecPlaced(code[b], body, args, ext, s);
    CtxWellFormed(code, up, po, b);
    t' := BodyRelated(code[b], CtxPhi(code, up, po, b), first, args, ext, s, t0);
    ExecCores(out, args, ext, t0);
  }

  /** What control finds on the edge p -> b: the context of b is part of that of p, and a
      variable without phi in b keeps its value. */
  lemma EdgeContexts(f: Function, g: Graph, code: Code, up: Up, po: Order, first: nat, p: Block, b: Block)
    requires Prepared(f, g, code, up, po, first) && p in up && b in up && Edge(g, p, b)
    ensures b != ENTRY && AllScoped(code, up, po) && WfCtx(CtxIn(code, up, po, b))
    ensures Extends(CtxIn(code, up, po, b), CtxOut(code, up, po, p))
    ensures forall v :: !HasPhi(PhisOf(At(code, b)), v) ==>
              Lookup(CtxOut(code, up, po, p).cur, v) == Lookup(CtxIn(code, up, po, b).cur, v)
  {
    PreparedIsScoped(f, g, code, up, po, first);
    assert p in g.pred[b];
    ExactLinks(g, up, po, b);
    DominatesPred(g, up[b], p, b);
    ChainExtends(code, up, po, up[b], p);
    CtxWellFormed(code, up, po, b);
    PhisOfMembers(At(code, b));
    forall v | !HasPhi(PhisOf(At(code, b)), v)
      ensures Lookup(CtxOut(code, up, po, p).cur, v) == Lookup(CtxIn(code, up, po, b).cur, v)
    {
      assert forall k :: 0 <= k < |At(code, b)| && At(code, b)[k].Phi? ==> At(code, b)[k] in PhisOf(At(code, b));
      NoPhiSameValue(code, g, up, po, p, b, v);
    }
  }

  lemma PhiRegistersAreNew(body: seq<Instr>, first: nat)
    requires SplitRegs(body, first)
    ensures forall k :: 0 <= k < |PhisOf(body)| ==> PhisOf(body)[k].Phi? && first <= PhisOf(body)[k].dst
  {
    PhisOfMembers(body);
    forall k | 0 <= k < |PhisOf(body)| ensures first <= PhisOf(body)[k].dst {
      var j :| 0 <= j < |body| && body[j] == PhisOf(body)[k];
      assert body[j].dst in Def(body[j]);
    }
  }

  /** Taking the edge p -> b. */
  lemma EdgeRelated(f: Function, g: Graph, code: Code, up: Up, po: Order, first: nat, f': Function,
                    args: seq<int>, p: Block, b: Block, s: State, t: State)
    requires Prepared(f, g, code, up, po, first) && Finished(f, g, code, up, po, f')
    requires p in up && Edge(g, p, b) && Related(CtxOut(code, up, po, p), first, args, s, t)
    ensures b in up && Arrives(f, code, up, po, first, f', args, p, b, s, t)
  {
    ReachableStep(g, p, b);
    EdgeContexts(f, g, code, up, po, first, p, b);
    assert PreparedBlock(f, code, up, po, first, b) && FinishedBlock(f, g, code, up, po, f', b);
    var body, out := code[b], f'.blocks[b].instrs;
    RenamedPhis(code, g, up, po, p, b, out);
    assert BlockScoped(code, up, po, b);
    PhiScanOf(body, CtxIn(code, up, po, b));
    EnterPhisOf(out, p, args, t.env, t.env);
    PhiRegistersAreNew(body, first);
    PhisRelated(PhisOf(body), PhisOf(out), CtxOut(code, up, po, p), CtxIn(code, up, po, b), p, first, args, s, t);
  }

  lemma NextRelated(c: Ctx, first: nat, args: seq<int>, s: State, t: State, term: Terminator)
    requires Related(c, first, args, s, t) && TermUses(term) <= c.scope && Next(term, args, s.env).Some?
    ensures Next(SubstTerm(c.sub, term), args, t.env) == Next(term, args, s.env)
  {
    match term
    case Br(_) =>
    case CondBr(o, _, _) => EvalRelated(c, first, args, s, t, o);
    case Ret(o) => EvalRelated(c, first, args, s, t, o);
  }

  /** One block, and the edge taken after it. */
  lemma TurnRelated(f: Function, g: Graph, code: Code, up: Up, po: Order, first: nat, f': Function,
                    args: seq<int>, ext: Oracle, prev: Block, b: Block, s: State, t: State) returns (t': State)
    requires Prepared(f, g, code, up, po, first) && Finished(f, g, code, up, po, f')
    requires b in up && b < |f.blocks| && Arrives(f, code, up, po, first, f', args, prev, b, s, t)
    requires ExecBlock(f, args, ext, prev, b, s).Some?
    requires Next(f.blocks[b].term, args, ExecBlock(f, args, ext, prev, b, s).value.env).Some?
    ensures b < |f'.blocks| && ExecBlock(f', args, ext, prev, b, t) == Some(t')
    ensures t'.world == ExecBlock(f, args, ext, prev, b, s).value.world
    ensures var next := Next(f.blocks[b].term, args, ExecBlock(f, args, ext, prev, b, s).value.env);
            && Next(f'.blocks[b].term, args, t'.env) == next
            && (next.value.Goto? ==>
                  && next.value.block in up
                  && Arrives(f, code, up, po, first, f', args, b, next.value.block, ExecBlock(f, args, ext, prev, b, s).value, t'))
  {
    assert PreparedBlock(f, code, up, po, first, b) && FinishedBlock(f, g, code, up, po, f', b);
    hide ExecBlock, Arrives;
    t' := BlockRelated(f, g, code, up, po, first, f', args, ext, prev, b, s, t);
    var s', term := ExecBlock(f, args, ext, prev, b, s).value, f.blocks[b].term;
    NextRelated(CtxOut(code, up, po, b), first, args, s', t', term);
    match Next(term, args, s'.env).value
    case Done(_) =>
    case Goto(c) =>
      assert c in Successors(term);
      assert Edge(g, b, c);
      EdgeRelated(f, g, code, up, po, first, f', args, b, c, s', t');
  }

  lemma {:induction false} RunRelated(f: Function, g: Graph, code: Code, up: Up, po: Order, first: nat, f': Function,
                                      args: seq<int>, ext: Oracle, prev: Block, b: Block, s: State, t: State, fuel: nat)
    requires Prepared(f, g, code, up, po, first) && Finished(f, g, code, up, po, f')
    requires b in up && Arrives(f, code, up, po, first, f', args, prev, b, s, t)
    requires Run(f, args, ext, prev, b, s, fuel) != Stuck
    ensures Run(f', args, ext, prev, b, t, fuel) == Run(f, args, ext, prev, b, s, fuel)
    decreases fuel
  {
    if fuel > 0 {
      assert PreparedBlock(f, code, up, po, first, b);
      hide ExecBlock, Next, Arrives, Prepared, Finished;
      var t' := TurnRelated(f, g, code, up, po, first, f', args, ext, prev, b, s, t);
      var s' := ExecBlock(f, args, ext, prev, b, s).value;
      match Next(f.blocks[b].term, args, s'.env).value
      case Done(_) =>
      case Goto(c) => RunRelated(f, g, code, up, po, first, f', args, ext, b, c, s', t', fuel - 1);
    } else {
      assert t.world == s.world;
    }
  }

  /** The renamed function does what the original does, for every input, every oracle and
      any number of blocks executed, unless the original gets stuck. */
  lemma RenamingPreservesMeaning(f: Function, g: Graph, code: Code, up: Up, po: Order, first: nat, f': Function,
                                 args: seq<int>, ext: Oracle, w: World, fuel: nat)
    requires Prepared(f, g, code, up, po, first) && Finished(f, g, code, up, po, f')
    requires Start(f, args, ext, w, fuel) != Stuck
    ensures Start(f', args, ext, w, fuel) == Start(f, args, ext, w, fuel)
  {
    var s := State(map[], map[], w);
    assert PreparedBlock(f, code, up, po, first, ENTRY) && FinishedBlock(f, g, code, up, po, f', ENTRY);
    var body, out := code[ENTRY], f'.blocks[ENTRY].instrs;
    forall k | 0 <= k < |body| ensures !body[k].Phi? {
      assert !HasPhi(body, if body[k].Phi? then body[k].lval else 0);
    }
    PhiScanNone(body, EMPTY);
    RenamedHasNoPhis(body, CtxPhi(code, up, po, ENTRY));
    forall k | 0 <= k < |out| ensures !out[k].Phi? {
      assert Cores(out)[k] == Core(out[k]);
    }
    EnterNoPhis(out, ENTRY, args, s.env, s.env);
    assert s.(env := s.env) == s;
    assert Arrives(f, code, up, po, first, f', args, ENTRY, ENTRY, s, s);
    RunRelated(f, g, code, up, po, first, f', args, ext, ENTRY, ENTRY, s, s, fuel);
  }

  lemma {:induction false} PhiScanNone(body: seq<Instr>, c: Ctx)
    requires forall k :: 0 <= k < |body| ==> !body[k].Phi?
    ensures PhiScan(body, c) == c
  {
    if body != [] { PhiScanNone(body[1..], c); }
  }

  lemma {:induction false} RenamedHasNoPhis(body: seq<Instr>, c: Ctx)
    requires forall k :: 0 <= k < |body| ==> !body[k].Phi?
    ensures forall k :: 0 <= k < |RenameAll(body, c)| ==> !RenameAll(body, c)[k].Phi?
  {
    if body != [] { RenamedHasNoPhis(body[1..], Advance(body[0], c)); }
  }

  // ----- dropping the allocas -----

  function DropAllocas(code: seq<Instr>): seq<Instr> {
    if code == [] then []
    else if code[0].Alloca? && code[0].scalar then DropAllocas(code[1..])
    else [code[0]] + DropAllocas(code[1..])
  }

  /** The allocas of scalars are gone, and nothing else is. */
  lemma {:induction false} DroppedExactly(code: seq<Instr>)
    ensures forall i :: multiset(DropAllocas(code))[i] == if i.Alloca? && i.scalar then 0 else multiset(code)[i]
  {
    if code != [] {
      assert code == [code[0]] + code[1..];
      DroppedExactly(code[1..]);
    }
  }

  /** Code without stores to locals never initialises a cell, so allocas in it do nothing. */
  lemma {:induction false} ExecWithoutAllocas(code: seq<Instr>, args: seq<int>, ext: Oracle, s: State)
    requires s.cells == map[] && forall k :: 0 <= k < |code| ==> !(code[k].Store? && code[k].addr.Local?)
    ensures ExecAll(DropAllocas(code), args, ext, s) == ExecAll(code, args, ext, s)
    ensures ExecAll(code, args, ext, s).Some? ==> ExecAll(code, args, ext, s).value.cells == map[]
  {
    if code != [] {
      var head := if code[0].Alloca? && code[0].scalar then [] else [code[0]];
      assert DropAllocas(code) == head + DropAllocas(code[1..]);
      assert s.cells - {0} == map[];
      match Exec(code[0], args, ext, s)
      case None => ExecConcat(head, DropAllocas(code[1..]), args, ext, s); ExecOne(code[0], args, ext, s);
      case Some(s') =>
        assert s'.cells == map[];
        assert forall k :: 0 <= k < |code[1..]| ==> code[1..][k] == code[k + 1];
        ExecWithoutAllocas(code[1..], args, ext, s');
        ExecConcat(head, DropAllocas(code[1..]), args, ext, s);
        ExecOne(code[0], args, ext, s);
        if code[0].Alloca? { assert s' == s; }
    }
  }

  lemma {:induction false} EnterPhisDropAllocas(code: seq<Instr>, prev: Block, args: seq<int>, at: Env, env: Env)
    ensures EnterPhis(DropAllocas(code), prev, args, at, env) == EnterPhis(code, prev, args, at, env)
  {
    if code != [] {
      var env' := if code[0].Phi? then Assign(env, code[0].dst, Eval(PhiValue(code[0].pairs, prev), args, at)) else env;
      EnterPhisDropAllocas(code[1..], prev, args, at, env');
      if !(code[0].Alloca? && code[0].scalar) {
        assert DropAllocas(code)[0] == code[0] && DropAllocas(code)[1..] == DropAllocas(code[1..]);
      }
    }
  }

  /** f' is f without scalar allocas. */
  ghost predicate AllocasDropped(f: Function, f': Function) {
    |f'.blocks| == |f.blocks| && forall b :: 0 <= b < |f.blocks| ==>
      f'.blocks[b] == BasicBlock(DropAllocas(f.blocks[b].instrs), f.blocks[b].term)
  }

  ghost predicate NoLocalStores(code: seq<Instr>) {
    forall k :: 0 <= k < |code| ==> !(code[k].Store? && code[k].addr.Local?)
  }

  lemma {:induction false} RunWithoutAllocas(f: Function, g: Graph, up: Up, f': Function, args: seq<int>, ext: Oracle,
                                             prev: Block, b: Block, s: State, fuel: nat)
    requires HasGraph(f, g) && AllocasDropped(f, f')
    requires forall x :: x in up ==> x < |f.blocks| && NoLocalStores(f.blocks[x].instrs)
    requires forall x, y :: x in up && Edge(g, x, y) ==> y in up
    requires b in up && s.cells == map[]
    ensures Run(f', args, ext, prev, b, s, fuel) == Run(f, args, ext, prev, b, s, fuel)
    decreases fuel
  {
    if fuel > 0 {
      var code := f.blocks[b].instrs;
      EnterPhisDropAllocas(code, prev, args, s.env, s.env);
      var s0 := s.(env := EnterPhis(code, prev, args, s.env, s.env));
      ExecWithoutAllocas(code, args, ext, s0);
      match ExecAll(code, args, ext, s0)
      case None =>
      case Some(s') =>
        match Next(f.blocks[b].term, args, s'.env)
        case Some(Goto(c)) =>
          assert c in Successors(f.blocks[b].term);
          assert Edge(g, b, c);
          RunWithoutAllocas(f, g, up, f', args, ext, b, c, s', fuel - 1);
        case _ =>
    }
  }

  lemma {:induction false} RenamedHasNoStores(code: seq<Instr>, c: Ctx)
    ensures NoLocalStores(RenameAll(code, c))
  {
    if code != [] { RenamedHasNoStores(code[1..], Advance(code[0], c)); }
  }

  /** Renaming followed by removal of the scalar allocas. */
  lemma Mem2RegPreservesMeaning(f: Function, g: Graph, code: Code, up: Up, po: Order, first: nat, f': Function, f'': Function,
                                args: seq<int>, ext: Oracle, w: World, fuel: nat)
    requires Prepared(f, g, code, up, po, first) && Finished(f, g, code, up, po, f')
    requires HasGraph(f', g) && AllocasDropped(f', f'')
    requires Start(f, args, ext, w, fuel) != Stuck
    ensures Start(f'', args, ext, w, fuel) == Start(f, args, ext, w, fuel)
  {
    RenamingPreservesMeaning(f, g, code, up, po, first, f', args, ext, w, fuel);
    forall x | x in up ensures x < |f'.blocks| && NoLocalStores(f'.blocks[x].instrs) {
      assert FinishedBlock(f, g, code, up, po, f', x);
      RenamedHasNoStores(At(code, x), CtxPhi(code, up, po, x));
      var out := f'.blocks[x].instrs;
      forall k | 0 <= k < |out| ensures !(out[k].Store? && out[k].addr.Local?) {
        assert Cores(out)[k] == Core(out[k]);
      }
    }
    forall x, y | x in up && Edge(g, x, y) ensures y in up { ReachableStep(g, x, y); }
    RunWithoutAllocas(f', g, up, f'', args, ext, ENTRY, ENTRY, State(map[], map[], w), fuel);
  }

  /** Erasing the positions of scalar allocas is dropping them. */
  lemma {:induction false} ErasedAllocas(code: seq<Instr>, del: set<nat>, k: nat)
    requires k <= |code| && forall j :: j in del <==> 0 <= j < |code| && code[j].Alloca? && code[j].scalar
    ensures Erase(code, del, k) == DropAllocas(code[k..])
    decreases |code| - k
  {
    if k < |code| {
      assert code[k..][0] == code[k] && code[k..][1..] == code[k + 1..];
      ErasedAllocas(code, del, k + 1);
    }
  }
}
