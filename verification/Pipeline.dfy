// From source to SSA: the generator followed by the SSA construction.
module Pipeline {
  import opened Wrappers
  import opened Cfg
  import opened Frontier
  import opened IR
  import opened SourceLang
  import opened CodeSpec
  import opened CodeRun
  import opened CodeFrame
  import opened CodeCorrect
  import opened CodeShape
  import opened CodeTheorem
  import opened IdomFixpoint
  import opened EmptyStacks
  import opened SsaInput
  import opened SsaOutput
  import opened Builder
  import opened Mem2RegPass

  /** Whatever the source returns, code that refines the generated code returns. */
  lemma RefinedCodeCorrect(d: FunDecl, globals: Globals, f: Function, args: seq<int>, ext: Oracle, w: World, v: int, w': World)
    requires WellFormed(d, globals) && |args| == |d.params| && Finished(GenFun(d, globals).blocks)
    requires Refines(ToFunction(GenFun(d, globals).blocks), f)
    requires SourceReturns(d, globals, ext, args, w, v, w')
    ensures CodeReturns(f, ext, args, w, v, w')
  {
    hide GenFun, WellFormed, SourceReturns;
    CodeGenerationCorrect(d, globals, args, ext, w, v, w');
    var n :| Start(ToFunction(GenFun(d, globals).blocks), args, ext, w, n) == Returned(v, w');
    assert Start(f, args, ext, w, n) == Returned(v, w');
  }

  /** Generates a function and promotes its variables: the result is valid SSA and returns what the
      source does. The assertion on empty stacks can only fail if the exact condition for it holds. */
  method Compile(d: FunDecl, globals: Globals) returns (f: Function, ok: bool)
    requires WellFormed(d, globals) && JoinsReachable(GraphOf(GenFun(d, globals).blocks))
    ensures forall args: seq<int>, ext, w, v, w' | |args| == |d.params| && SourceReturns(d, globals, ext, args, w, v, w') ::
              CodeReturns(f, ext, args, w, v, w')
    ensures ValidSSA(f, GraphOf(GenFun(d, globals).blocks))
    ensures Finished(GenFun(d, globals).blocks) && GraphOf(GenFun(d, globals).blocks).Valid()
    ensures !ok ==> MayFail(ToFunction(GenFun(d, globals).blocks), GraphOf(GenFun(d, globals).blocks))
  {
    hide GenFun, WellFormed, SourceReturns, CodeReturns, JoinsReachable, ValidInput, ValidSSA, MayFail, FailsOn, Preorder, Exact;
    var builder := new CminusfBuilder(globals);
    builder.VisitFunDeclaration(d, globals);
    GeneratedIsValidInput(d, globals);
    WellFormedFlow(d, globals);
    GraphIsValid(builder.blocks);
    var f0, g := ToFunction(builder.blocks), GraphOf(builder.blocks);
    assert Bodies(f0) == seq(|f0.blocks|, b requires 0 <= b < |f0.blocks| => f0.blocks[b].instrs);
    var pass := new Mem2Reg(f0, g, builder.nextReg);
    assert pass.code == Bodies(f0) && pass.terms == Terms(f0);
    ghost var order := pass.Run(f0);
    f, ok := pass.Result(), !pass.failed;
    forall args: seq<int>, ext, w, v, w' | |args| == |d.params| && SourceReturns(d, globals, ext, args, w, v, w')
      ensures CodeReturns(f, ext, args, w, v, w')
    {
      RefinedCodeCorrect(d, globals, f, args, ext, w, v, w');
    }
  }

  /** A loop whose body returns on both branches of an if. */
  const RETURNING := FunDecl(["a", "b"], false,
    Compound([], [LOOP]))

  lemma ReturningIsWellFormed()
    ensures WellFormed(RETURNING, map[])
  {
    var names: Names := [Declared(["a", "b"])] + [Declared([])];
    var inner := names + [map[]];
    LevelIsInnermost(names, "a", 0);
    LevelIsInnermost(inner, "b", 0);
    assert Resolves(Stmt.Return(Some(Num(1))), inner + [map[]], map[], false);
    assert Resolves(Stmt.Return(Some(Num(2))), inner + [map[]], map[], false);
    assert Resolves(BRANCH, inner, map[], false);
    assert Resolves(LOOP, names, map[], false);
    assert ResolvesList([LOOP], names, map[], false);
  }

  lemma AddGraph(G: Gen)
    ensures var g, g' := GraphOf(G.blocks), GraphOf(G.AddBlocks(3).blocks);
            g'.succ == g.succ + [[], [], []] && g'.pred == g.pred + [[], [], []]
  {
  }

  lemma JumpGraph(G: Gen, target: Block)
    requires G.Placed() && target < |G.blocks|
    ensures var g, g' := GraphOf(G.blocks), GraphOf(G.Branch(target).blocks);
            g'.succ == g.succ[G.cur := g.succ[G.cur] + [target]] && g'.pred == g.pred[target := g.pred[target] + [G.cur]]
  {
  }

  lemma CondGraph(cond: Expr, G: Gen, t: Block, e: Block)
    requires G.Placed() && t < |G.blocks| && e < |G.blocks| && t != e
    ensures var g, g' := GraphOf(G.blocks), GraphOf(GenCond(cond, G, t, e).blocks);
            && g'.succ == g.succ[G.cur := g.succ[G.cur] + [e, t]]
            && g'.pred == g.pred[t := g.pred[t] + [G.cur]][e := g.pred[e] + [G.cur]]
  {
  }

  lemma ReturnGraph(n: int, G: Gen)
    requires G.Placed()
    ensures var G' := GenStmt(Stmt.Return(Some(Num(n))), G);
            GraphOf(G'.blocks) == GraphOf(G.blocks) && !G'.Open() && G'.cur == G.cur && |G'.blocks| == |G.blocks|
  {
    EmitNothing(G);
    EndGraph(G, Const(n));
  }

  /** The inner if, generated from block 2 of the loop: both branches return. */
  lemma BranchGraph(B: Gen)
    requires B.Open() && B.cur == 2 && |B.blocks| == 4
    requires GraphOf(B.blocks) == Graph([[1], [3, 2], [], []], [[], [0], [1], [1]])
    ensures var T := GenStmt(BRANCH, B);
            && T.Open() && T.cur == 6 && |T.blocks| == 7
            && GraphOf(T.blocks) == Graph([[1], [3, 2], [5, 4], [], [], [], []], [[], [0], [1], [1], [2], [2], []])
  {
    hide GenStmt, GenCond, GraphOf, Terminates, Kept;
    IfGen(Var("b"), ONE, Some(TWO), B);
    var C := BeforeThen(Var("b"), B);
    AddGraph(B);
    CondGraph(Var("b"), B.AddBlocks(3), 4, 5);
    assert NO_BLOCKS + [5, 4] == [5, 4] && NO_BLOCKS + [2] == [2];
    assert GraphOf(C.blocks).succ == [[1], [3, 2], [5, 4], [], [], [], []];
    assert GraphOf(C.blocks).pred == [[], [0], [1], [1], [2], [2], []];
    ReturnGraph(1, C);
    var A := AfterThen(GenStmt(ONE, C), 4);
    assert GraphOf(A.blocks) == GraphOf(C.blocks);
    ReturnGraph(2, A.EnterScope());
    StmtKept(BRANCH, B);
    ReturnsOpen(B);
  }

  lemma ReturnsOpen(B: Gen)
    requires B.Open()
    ensures GenStmt(BRANCH, B).Open()
  {
    StmtKept(BRANCH, B);
  }

  const NO_BLOCKS: seq<Block> := []
  const ONE := Stmt.Return(Some(Num(1)))
  const TWO := Stmt.Return(Some(Num(2)))
  const BRANCH := If(Var("b"), ONE, Some(TWO))
  const LOOP := While(Var("a"), BRANCH)

  /** The generator builds exactly the graph on which a frontier walk does not end. */
  lemma ReturningLoopIsGenerated()
    ensures GraphOf(GenFun(RETURNING, map[]).blocks) == RETURNING_LOOP
  {
    hide GenStmt, GenCond, GraphOf, GenParams;
    var G := BodyStart(RETURNING, map[]).EnterScope();
    ParamsKept(RETURNING.params, 0, StartGen(map[]));
    StartGraph();
    AddGraph(G);
    JumpGraph(G.AddBlocks(3), 1);
    var L := G.AddBlocks(3).Branch(1).MoveTo(1);
    assert NO_BLOCKS + [1] == [1] && NO_BLOCKS + [0] == [0] && NO_BLOCKS + [3, 2] == [3, 2] && [0] + [6] == [0, 6];
    assert GraphOf(L.blocks).succ == [[1], [], [], []];
    assert GraphOf(L.blocks).pred == [[], [0], [], []];
    CondGraph(Var("a"), L, 2, 3);
    var B := BeforeBody(Var("a"), G);
    assert GraphOf(B.blocks).succ == [[1], [3, 2], [], []];
    assert GraphOf(B.blocks).pred == [[], [0], [1], [1]];
    BodyForked(Var("a"), G);
    BranchGraph(B);
    WhileGen(Var("a"), BRANCH, G);
    var T := GenStmt(BRANCH, B);
    JumpGraph(T.ExitScope(), 1);
    assert GraphOf(GenStmt(LOOP, G).blocks).succ == RETURNING_LOOP.succ;
    assert GraphOf(GenStmt(LOOP, G).blocks).pred == RETURNING_LOOP.pred;
    StmtKept(LOOP, G);
    ReturningIs(G);
    EndGraph(GenStmt(LOOP, G).ExitScope(), Const(0));
  }

  lemma EndGraph(G: Gen, o: Operand)
    requires G.Placed()
    ensures GraphOf(G.End(Ret(o)).blocks) == GraphOf(G.blocks)
  {
    var g, g' := GraphOf(G.blocks), GraphOf(G.End(Ret(o)).blocks);
    assert G.blocks[G.cur].succ + [] == G.blocks[G.cur].succ;
    assert g'.succ == g.succ && g'.pred == g.pred;
  }

  lemma StartGraph()
    ensures GraphOf(BodyStart(RETURNING, map[]).blocks) == Graph([[]], [[]])
  {
    hide GenParams;
    StartShaped(RETURNING, map[]);
    EntryAlone(BodyStart(RETURNING, map[]));
  }

  lemma EntryAlone(G: Gen)
    requires Shaped(G) && G.Open() && |G.blocks| == 1 && G.cur == ENTRY && G.blocks[ENTRY].pre == []
    ensures GraphOf(G.blocks) == Graph([[]], [[]])
  {
  }

  /** The whole function is the loop, closed by a return. */
  lemma ReturningIs(G: Gen)
    requires G == BodyStart(RETURNING, map[]).EnterScope() && GenStmt(LOOP, G).Open()
    ensures GenFun(RETURNING, map[]).blocks == GenStmt(LOOP, G).ExitScope().End(Ret(Const(0))).blocks
  {
    hide GenParams, BodyStart;
    var S := GenParams(RETURNING.params, 0, StartGen(map[]));
    assert S == BodyStart(RETURNING, map[]) by { BodyStartIs(); }
    CompoundIs(S);
  }

  lemma BodyStartIs()
    ensures BodyStart(RETURNING, map[]) == GenParams(RETURNING.params, 0, StartGen(map[]))
  {
  }

  lemma CompoundIs(S: Gen)
    requires S.Placed() && GenStmt(LOOP, S.EnterScope()).Open()
    ensures GenStmt(Compound([], [LOOP]), S) == GenStmt(LOOP, S.EnterScope()).ExitScope()
  {
    hide GenStmt;
    var G := S.EnterScope();
    assert GenDecls([], G) == G;
    OneStatement(LOOP, G);
    CompoundGen([], [LOOP], S);
  }

  lemma OneStatement(s: Stmt, G: Gen)
    requires G.Placed() && GenStmt(s, G).Open()
    ensures GenList([s], G) == GenStmt(s, G)
  {
    hide GenStmt;
    assert [s][1..] == [];
  }
}
