// Whole functions: the generated control-flow graph is well formed, is a valid input of the
// SSA construction, and returns exactly what the source returns.
module CodeTheorem {
  import opened Wrappers
  import opened Cfg
  import opened IR
  import opened SourceLang
  import opened CodeSpec
  import opened CodeFrame
  import opened CodeExpr
  import opened CodeRun
  import opened CodeMeaning
  import opened CodeCorrect
  import opened CodeShape
  import opened SsaInput
  import opened RenameSteps

  // ----- parameters -----

  /** A parameter gets a cell that holds its argument. */
  function Param(id: string, i: nat, G: Gen): (r: Gen)
    requires G.Placed() && G.scope != []
    ensures r.scope != []
  {
    G.Emit([Alloca(G.nextSlot, true), Store(Arg(i), Local(G.nextSlot))])
      .(scope := Push(G.scope, id, Cell(G.nextSlot)), nextSlot := G.nextSlot + 1)
  }

  lemma ParamsIs(params: seq<string>, i: nat, G: Gen)
    requires G.Placed() && G.scope != []
    ensures params != [] ==> GenParams(params, i, G) == GenParams(params[1..], i + 1, Param(params[0], i, G))
  {
  }

  lemma {:induction false} ParamsKept(params: seq<string>, i: nat, G: Gen)
    requires G.Open() && G.scope != []
    ensures var G' := GenParams(params, i, G);
            && Kept(G.(scope := []), G'.(scope := [])) && G'.Open() && G'.nextReg == G.nextReg
            && |G'.scope| == |G.scope| && G'.cur == G.cur && |G'.blocks| == |G.blocks|
  {
    if params != [] {
      var G1 := Param(params[0], i, G);
      ParamsIs(params, i, G);
      ParamsKept(params[1..], i + 1, G1);
    }
  }

  lemma {:induction false} ParamsShaped(params: seq<string>, i: nat, G: Gen)
    requires G.Open() && G.scope != [] && Shaped(G)
    ensures Shaped(GenParams(params, i, G))
  {
    hide Shaped;
    if params != [] {
      var code := [Alloca(G.nextSlot, true), Store(Arg(i), Local(G.nextSlot))];
      var G1 := Param(params[0], i, G);
      ParamsIs(params, i, G);
      ShapedCell(G, code);
      ShapedSame(G.Emit(code), G1);
      ParamsShaped(params[1..], i + 1, G1);
    }
  }

  /** The innermost frame after binding more parameters; names bound earlier stay. */
  function WithParams(frame: Frame, params: seq<string>, vals: seq<int>): Frame
    requires |params| <= |vals|
  {
    Bind(params, vals) + frame
  }

  lemma NoParams(st: SrcState)
    requires st.frames != []
    ensures TopChanged(st, WithParams(st.frames[|st.frames| - 1], [], [])) == st
  {
    var n := |st.frames| - 1;
    assert WithParams(st.frames[n], [], []) == st.frames[n];
    assert st.frames[n := st.frames[n]] == st.frames;
  }

  function Binding1(st: SrcState, id: string, v: int): SrcState
    requires st.frames != []
  {
    var top := st.frames[|st.frames| - 1];
    if id in top then st else TopChanged(st, top[id := Some(v)])
  }

  lemma MoreParams(st: SrcState, params: seq<string>, vals: seq<int>)
    requires st.frames != [] && params != [] && |params| == |vals|
    ensures var st1, n := Binding1(st, params[0], vals[0]), |st.frames| - 1;
            |st1.frames| == n + 1
            && TopChanged(st1, WithParams(st1.frames[n], params[1..], vals[1..]))
            == TopChanged(st, WithParams(st.frames[n], params, vals))
  {
    var st1, n := Binding1(st, params[0], vals[0]), |st.frames| - 1;
    assert WithParams(st1.frames[n], params[1..], vals[1..]) == WithParams(st.frames[n], params, vals);
  }

  lemma ParamSim(j: Job, id: string, i: nat, G: Gen, st: SrcState, S: State) returns (S': State)
    requires G.Open() && |G.scope| >= 2 && Related(G.scope, j.globals, G.nextSlot, st, S) && i < |j.x.args|
    requires Within(Param(id, i, G).blocks, j.x.f)
    ensures st.frames != []
    ensures Related(Param(id, i, G).scope, j.globals, G.nextSlot + 1, Binding1(st, id, j.x.args[i]), S')
    ensures Reaches(j.x, Here(G, S), 0, Here(Param(id, i, G), S'))
  {
    hide Related, Reaches, Within, TopChanged;
    var code := [Alloca(G.nextSlot, true), Store(Arg(i), Local(G.nextSlot))];
    S' := S.(cells := S.cells[G.nextSlot := j.x.args[i]]);
    ParamCode(G.nextSlot, i, j.x.args, j.x.ext, S);
    EmitSim(j.x, G, code, S);
    RelatedPush(G.scope, j.globals, G.nextSlot, st, S, S', id, Some(j.x.args[i]));
  }

  lemma ParamCode(slot: nat, i: nat, args: seq<int>, ext: Oracle, S: State)
    requires i < |args|
    ensures ExecAll([Alloca(slot, true), Store(Arg(i), Local(slot))], args, ext, S) == Some(S.(cells := S.cells[slot := args[i]]))
  {
    var S1 := S.(cells := S.cells - {slot});
    assert [Alloca(slot, true), Store(Arg(i), Local(slot))][1..] == [Store(Arg(i), Local(slot))];
    ExecOne(Store(Arg(i), Local(slot)), args, ext, S1);
    assert S1.cells[slot := args[i]] == S.cells[slot := args[i]];
  }

  lemma {:induction false} ParamsSim(j: Job, params: seq<string>, i: nat, G: Gen, st: SrcState, S: State) returns (S': State)
    requires G.Open() && |G.scope| >= 2 && Related(G.scope, j.globals, G.nextSlot, st, S)
    requires i + |params| == |j.x.args| && Within(GenParams(params, i, G).blocks, j.x.f)
    ensures st.frames != []
    ensures var G' := GenParams(params, i, G);
            && Related(G'.scope, j.globals, G'.nextSlot, TopChanged(st, WithParams(st.frames[|st.frames| - 1], params, j.x.args[i..])), S')
            && Reaches(j.x, Here(G, S), 0, Here(G', S'))
    decreases params
  {
    hide Reaches, Related, Within, WithParams, TopChanged, Binding1;
    FramesExist(G.scope, j.globals, G.nextSlot, st, S);
    if params == [] {
      S' := S;
      assert j.x.args[i..] == [];
      NoParams(st);
      HereInside(j.x, G, S);
      ReachesSelf(j.x, Here(G, S));
    } else {
      var G1 := Param(params[0], i, G);
      ParamsIs(params, i, G);
      ParamsWithin(params[1..], i + 1, G1, j.x.f);
      var S1 := ParamSim(j, params[0], i, G, st, S);
      assert j.x.args[i..][0] == j.x.args[i] && j.x.args[i..][1..] == j.x.args[i + 1..];
      MoreParams(st, params, j.x.args[i..]);
      S' := ParamsSim(j, params[1..], i + 1, G1, Binding1(st, params[0], j.x.args[i]), S1);
      ReachesTrans(j.x, Here(G, S), 0, Here(G1, S1), 0, Here(GenParams(params, i, G), S'));
    }
  }

  lemma ParamsWithin(params: seq<string>, i: nat, G: Gen, f: Function)
    requires G.Open() && G.scope != [] && Within(GenParams(params, i, G).blocks, f)
    ensures Within(G.blocks, f)
  {
    hide GenParams;
    ParamsKept(params, i, G);
    KeptExtends(G.(scope := []), GenParams(params, i, G).(scope := []));
    WithinExtends(G.blocks, GenParams(params, i, G).blocks, f);
  }

  // ----- the finished graph -----

  function GraphOf(blocks: seq<Draft>): Graph {
    Graph(seq(|blocks|, b requires 0 <= b < |blocks| => blocks[b].succ), seq(|blocks|, b requires 0 <= b < |blocks| => blocks[b].pre))
  }

  /** Where the body of the function is generated from. */
  function BodyStart(d: FunDecl, globals: Globals): (r: Gen)
    ensures r.Placed()
  {
    GenParams(d.params, 0, StartGen(globals))
  }

  /** The builder once the body has been generated and the last block closed. */
  function BodyEnd(d: FunDecl, globals: Globals): (r: Gen)
    ensures r.Placed() && r.blocks == GenFun(d, globals).blocks
  {
    var G := GenStmt(d.body, BodyStart(d, globals));
    if G.Open() then G.End(Ret(Const(0))) else G
  }

  lemma StartShaped(d: FunDecl, globals: Globals)
    ensures var G := BodyStart(d, globals);
            Shaped(G) && G.Open() && G.cur == ENTRY && |G.blocks| == 1 && |G.scope| == 2 && G.blocks[ENTRY].pre == []
  {
    ParamsKept(d.params, 0, StartGen(globals));
    ParamsShaped(d.params, 0, StartGen(globals));
  }

  /** Well-formed control flow, for every function: one terminator per block, at its end; edge
      lists that are exactly those of the terminators; no way back into the entry; never more
      than two predecessors. */
  lemma WellFormedFlow(d: FunDecl, globals: Globals)
    ensures var blocks := GenFun(d, globals).blocks;
            && 0 < |blocks| && Finished(blocks) && EdgesOk(blocks) && RegsOk(blocks, GenFun(d, globals).nextReg)
            && blocks[ENTRY].pre == []
            && forall b :: 0 <= b < |blocks| ==> |blocks[b].pre| <= 2
  {
    hide GenStmt, Shaped;
    var G := BodyStart(d, globals);
    var G' := GenStmt(d.body, G);
    StartShaped(d, globals);
    StmtShaped(d.body, G);
    StmtRounded(d.body, G);
    StmtKept(d.body, G);
    if G'.Open() { ShapedRet(G', Const(0)); }
    ShapedParts(BodyEnd(d, globals));
  }

  lemma ShapedParts(G: Gen)
    requires Shaped(G)
    ensures EdgesOk(G.blocks) && RegsOk(G.blocks, G.nextReg)
  {
  }

  lemma GraphIsValid(blocks: seq<Draft>)
    requires 0 < |blocks| && EdgesOk(blocks) && Finished(blocks)
    ensures HasGraph(ToFunction(blocks), GraphOf(blocks))
  {
    var g := GraphOf(blocks);
    assert forall b :: 0 <= b < |blocks| ==> g.succ[b] == blocks[b].succ && g.pred[b] == blocks[b].pre;
  }

  lemma RegsAreDefined(blocks: seq<Draft>, next: nat, b: Block, k: nat, r: nat)
    requires RegsOk(blocks, next) && b < |blocks| && k < |blocks[b].instrs| && r in Uses(blocks[b].instrs[k])
    ensures exists i :: 0 <= i < k && r in Def(blocks[b].instrs[i])
  {
    StraightUse(blocks[b].instrs, {}, k, r);
  }

  lemma RegsAreOnce(blocks: seq<Draft>, next: nat)
    requires RegsOk(blocks, next) && Finished(blocks)
    ensures DefinedOnce(Bodies(ToFunction(blocks)))
    ensures NoPhis(ToFunction(blocks))
  {
    var f := ToFunction(blocks);
    assert forall b :: 0 <= b < |blocks| ==> Bodies(f)[b] == blocks[b].instrs;
    forall b, k | 0 <= b < |f.blocks| && 0 <= k < |f.blocks[b].instrs| ensures !f.blocks[b].instrs[k].Phi? {
      StraightNoPhi(blocks[b].instrs, {}, k);
    }
  }

  /** Every generated function is what the SSA construction requires of its input. */
  lemma GeneratedIsValidInput(d: FunDecl, globals: Globals)
    ensures Finished(GenFun(d, globals).blocks)
    ensures ValidInput(ToFunction(GenFun(d, globals).blocks), GraphOf(GenFun(d, globals).blocks), GenFun(d, globals).nextReg)
  {
    hide GenFun, EdgesOk, Straight;
    WellFormedFlow(d, globals);
    BlocksAreValidInput(GenFun(d, globals).blocks, GenFun(d, globals).nextReg);
  }

  lemma BlocksAreValidInput(blocks: seq<Draft>, next: nat)
    requires 0 < |blocks| && Finished(blocks) && EdgesOk(blocks) && RegsOk(blocks, next) && blocks[ENTRY].pre == []
    ensures ValidInput(ToFunction(blocks), GraphOf(blocks), next)
  {
    hide EdgesOk, Straight, Dominates, HasGraph;
    var f, g := ToFunction(blocks), GraphOf(blocks);
    GraphIsValid(blocks);
    RegsAreOnce(blocks, next);
    forall b, k, r | 0 <= b < |f.blocks| && 0 <= k < |f.blocks[b].instrs| && r in Uses(f.blocks[b].instrs[k])
      ensures DefinedBefore(f, g, b, k, r)
    {
      RegsAreDefined(blocks, next, b, k, r);
    }
    forall b, r | 0 <= b < |f.blocks| && r in TermUses(f.blocks[b].term)
      ensures DefinedBefore(f, g, b, |f.blocks[b].instrs|, r)
    {
      assert r in Defs(blocks[b].instrs);
    }
  }

  // ----- meaning -----

  lemma StartRelated(globals: Globals, w: World)
    ensures Related(StartGen(globals).scope, globals, 0, SrcState([map[]], w), State(map[], map[], w))
  {
    assert StartGen(globals).scope[1..] == [map[]];
  }

  lemma ParamNames(scope: Scopes, globals: Globals, limit: nat, st: SrcState, S: State, params: seq<string>, vals: seq<int>)
    requires Related(scope, globals, limit, st, S) && |params| == |vals|
    requires st.frames == [Bind(params, vals)]
    ensures Fits([Declared(params)], scope)
  {
    BindNames(params, vals);
  }

  lemma {:induction false} BindNames(params: seq<string>, vals: seq<int>)
    requires |params| == |vals|
    ensures Bind(params, vals).Keys == Declared(params).Keys
  {
    if params != [] {
      BindNames(params[1..], vals[1..]);
      assert forall x :: x in params <==> x == params[0] || x in params[1..];
    }
  }

  /** The execution of the generated function from its entry. */
  function Job0(d: FunDecl, globals: Globals, args: seq<int>, ext: Oracle): Job
    requires Finished(GenFun(d, globals).blocks)
  {
    Job(Exe(ToFunction(GenFun(d, globals).blocks), args, ext), globals, d.isVoid)
  }

  lemma GeneratedWithin(d: FunDecl, globals: Globals)
    requires Finished(GenFun(d, globals).blocks)
    ensures var f := ToFunction(GenFun(d, globals).blocks);
            && Within(BodyEnd(d, globals).blocks, f) && Within(GenStmt(d.body, BodyStart(d, globals)).blocks, f)
            && Within(BodyStart(d, globals).blocks, f)
  {
    hide GenStmt, GenParams, Extends;
    var G := BodyStart(d, globals);
    var G' := GenStmt(d.body, G);
    var f := ToFunction(GenFun(d, globals).blocks);
    StartShaped(d, globals);
    StmtKept(d.body, G);
    KeptExtends(G, G');
    if G'.Open() {
      EndExtends(G', Ret(Const(0)));
      WithinExtends(G'.blocks, G'.End(Ret(Const(0))).blocks, f);
    }
    WithinExtends(G.blocks, G'.blocks, f);
  }

  /** What the source does decides what the generated function does, at every bound on the blocks
      entered. */
  ghost predicate SameResult(j: Job, flow: Flow, fuel: nat, n: nat, s: State) {
    match flow
    case Normal(_) => false
    case Returns(v, w) => Ends(j.x, Point(ENTRY, 0, s), n, Returned(v, w))
    case Wrong => Ends(j.x, Point(ENTRY, 0, s), n, Stuck)
    case OutOfFuel => StillRunning(j.x, Point(ENTRY, 0, s), fuel)
  }

  lemma BodySim(d: FunDecl, globals: Globals, args: seq<int>, ext: Oracle, w: World, fuel: nat) returns (n: nat)
    requires WellFormed(d, globals) && |args| == |d.params| && Finished(GenFun(d, globals).blocks)
    ensures SameResult(Job0(d, globals, args, ext), Invoke(d, globals, ext, args, w, fuel), fuel, n, State(map[], map[], w))
  {
    hide GenStmt, GenParams, ExecStmt, Resolves, Within, Related, Reaches, Ends, StillRunning, Shaped, Fits, GenFun, NoPhis;
    var j := Job0(d, globals, args, ext);
    var G0, G, s := StartGen(globals), BodyStart(d, globals), State(map[], map[], w);
    var st0, st := SrcState([map[]], w), SrcState([Bind(d.params, args)], w);
    StartShaped(d, globals);
    GeneratedWithin(d, globals);
    GeneratedNoPhis(d, globals);
    StartRelated(globals, w);
    var S1 := ParamsSim(j, d.params, 0, G0, st0, s);
    assert args[0..] == args;
    FirstFrame(d.params, args, w);
    ParamNames(G.scope, globals, G.nextSlot, st, S1, d.params, args);
    var m, S2 := StmtSim(j, [Declared(d.params)], d.body, G, st, S1, fuel);
    n := m;
    BodyEnds(d, globals, j, st, s, S1, S2, fuel, m);
  }

  lemma FirstFrame(params: seq<string>, args: seq<int>, w: World)
    requires |params| == |args|
    ensures TopChanged(SrcState([map[]], w), WithParams(map[], params, args)) == SrcState([Bind(params, args)], w)
  {
    assert WithParams(map[], params, args) == Bind(params, args);
    assert [map[]][0 := Bind(params, args)] == [Bind(params, args)];
  }

  lemma GeneratedNoPhis(d: FunDecl, globals: Globals)
    requires Finished(GenFun(d, globals).blocks)
    ensures NoPhis(ToFunction(GenFun(d, globals).blocks))
  {
    hide GenFun, EdgesOk;
    WellFormedFlow(d, globals);
    RegsAreOnce(GenFun(d, globals).blocks, GenFun(d, globals).nextReg);
  }

  /** Falling off the end of the body returns 0. */
  lemma BodyEnds(d: FunDecl, globals: Globals, j: Job, st: SrcState, s: State, S1: State, S2: State, fuel: nat, m: nat)
    requires Finished(GenFun(d, globals).blocks) && j.x.f == ToFunction(GenFun(d, globals).blocks) && j.globals == globals
    requires |d.params| == |j.x.args| && st == SrcState([Bind(d.params, j.x.args)], s.world)
    requires var G := BodyStart(d, globals);
             && G.Open() && G.cur == ENTRY && |G.blocks| == 1
             && Reaches(j.x, Point(ENTRY, 0, s), 0, Here(G, S1))
             && Simulated(j, d.body, G, st, S1, fuel, m, S2)
    requires Within(BodyEnd(d, globals).blocks, j.x.f)
    ensures SameResult(j, Invoke(d, globals, j.x.ext, j.x.args, s.world, fuel), fuel, m, s)
  {
    hide GenStmt, GenParams, ExecStmt, Within, Reaches, Ends, StillRunning, GenFun, Scoping, Mirrors;
    var G := BodyStart(d, globals);
    var G', p, q := GenStmt(d.body, G), Point(ENTRY, 0, s), Here(G, S1);
    var flow := ExecStmt(d.body, globals, j.x.ext, st, fuel);
    match flow
    case Normal(st') =>
      ReturnVoidSim(j, G', st', S2);
      ReachesEnds(j.x, q, m, Here(G', S2), 0, Returned(0, st'.world));
      ReachesEnds(j.x, p, 0, q, m, Returned(0, st'.world));
    case Returns(v, w) => ReachesEnds(j.x, p, 0, q, m, Returned(v, w));
    case Wrong => ReachesEnds(j.x, p, 0, q, m, Stuck);
    case OutOfFuel => ReachesRunning(j.x, p, 0, q, fuel, fuel);
  }

  /** Running the function is continuing from the start of its entry. */
  lemma StartIsCont(j: Job, w: World, n: nat)
    requires NoPhis(j.x.f) && 0 < |j.x.f.blocks|
    ensures Start(j.x.f, j.x.args, j.x.ext, w, 0) == Running(w)
    ensures Start(j.x.f, j.x.args, j.x.ext, w, n + 1) == Cont(j.x, Point(ENTRY, 0, State(map[], map[], w)), n)
  {
    RunIsCont(j.x, ENTRY, ENTRY, State(map[], map[], w), n + 1);
  }

  ghost predicate SourceReturns(d: FunDecl, globals: Globals, ext: Oracle, args: seq<int>, w: World, v: int, w': World)
    requires |d.params| == |args|
  {
    exists fuel :: Invoke(d, globals, ext, args, w, fuel) == Returns(v, w')
  }

  ghost predicate CodeReturns(f: Function, ext: Oracle, args: seq<int>, w: World, v: int, w': World) {
    exists n :: Start(f, args, ext, w, n) == Returned(v, w')
  }

  /** Code generation is correct: the generated function returns a value, with a given effect on
      memory and calls, exactly if the source function does. */
  lemma CodeGenerationCorrect(d: FunDecl, globals: Globals, args: seq<int>, ext: Oracle, w: World, v: int, w': World)
    requires WellFormed(d, globals) && |args| == |d.params|
    ensures Finished(GenFun(d, globals).blocks)
    ensures CodeReturns(ToFunction(GenFun(d, globals).blocks), ext, args, w, v, w')
       <==> SourceReturns(d, globals, ext, args, w, v, w')
  {
    hide GenFun, WellFormed, EdgesOk, RegsOk, Invoke;
    WellFormedFlow(d, globals);
    GeneratedNoPhis(d, globals);
    var j := Job0(d, globals, args, ext);
    if SourceReturns(d, globals, ext, args, w, v, w') {
      var fuel :| Invoke(d, globals, ext, args, w, fuel) == Returns(v, w');
      var n := BodySim(d, globals, args, ext, w, fuel);
      StartIsCont(j, w, n);
      EndsAt(j, n, State(map[], map[], w), Returned(v, w'));
    }
    if CodeReturns(j.x.f, ext, args, w, v, w') {
      var n: nat :| Start(j.x.f, args, ext, w, n) == Returned(v, w');
      StartIsCont(j, w, if n == 0 then 0 else n - 1);
      SourceFollows(d, globals, args, ext, w, v, w', n);
    }
  }

  lemma EndsAt(j: Job, n: nat, s: State, o: Outcome)
    requires Ends(j.x, Point(ENTRY, 0, s), n, o)
    ensures Cont(j.x, Point(ENTRY, 0, s), n) == o
  {
  }

  /** A generated function that returns within n blocks comes from a source that returns within n turns. */
  lemma SourceFollows(d: FunDecl, globals: Globals, args: seq<int>, ext: Oracle, w: World, v: int, w': World, n: nat)
    requires WellFormed(d, globals) && |args| == |d.params| && Finished(GenFun(d, globals).blocks)
    requires NoPhis(ToFunction(GenFun(d, globals).blocks)) && n > 0
    requires Start(ToFunction(GenFun(d, globals).blocks), args, ext, w, n) == Returned(v, w')
    ensures Invoke(d, globals, ext, args, w, n) == Returns(v, w')
  {
    hide GenFun, WellFormed, Invoke;
    var j, p := Job0(d, globals, args, ext), Point(ENTRY, 0, State(map[], map[], w));
    StartIsCont(j, w, n - 1);
    var m := BodySim(d, globals, args, ext, w, n);
    assert Cont(j.x, p, n - 1) == Returned(v, w');
  }
}
