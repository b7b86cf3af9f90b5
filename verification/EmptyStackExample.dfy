// An ordinary function, generated from its source, on which the assertion on empty stacks can fail.
module EmptyStackExample {
  import opened Wrappers
  import opened Cfg
  import opened Frontier
  import opened IR
  import opened PhiPlacement
  import opened SourceLang
  import opened CodeSpec
  import opened CodeCorrect
  import opened CodeTheorem
  import opened SsaInput
  import opened EmptyStacks
  import opened CodeShape

  /** `int f(int a) { if (a) { int x; x = 1; } return a; }` */
  const SOURCE := FunDecl(["a"], false, BODY)
  const BODY := Compound([], [BRANCH, RESULT])
  const BRANCH := If(Var("a"), INNER, None)
  const INNER := Compound(["x"], [ExprStmt(Some(Assign("x", Num(1))))])
  const RESULT := Stmt.Return(Some(Var("a")))

  /** The graph of an if without else. */
  const DIAMOND := Graph([[2, 1], [3], [3], []], [[], [0], [0], [1, 2]])

  /** The code of the function: a lives in slot 0, x in slot 1. */
  const CONDITIONAL := Function([
    BasicBlock(TEST, CondBr(Reg(1), 1, 2)),
    BasicBlock([Alloca(1, true), Store(Const(1), Local(1))], Br(3)),
    BasicBlock([], Br(3)),
    BasicBlock([Load(2, Local(0))], Ret(Reg(2)))])

  const TEST := [Alloca(0, true), Store(Arg(0), Local(0)), Load(0, Local(0)), Bin(1, Cmp(NE), Reg(0), Const(0))]

  // ----- what the generator builds -----

  const OUTER: Scopes := [map[], map["a" := Cell(0)]]
  const ENDED := Draft(TEST, Some(CondBr(Reg(1), 1, 2)), [], [2, 1])
  const FORKED: seq<Draft> := [ENDED, Draft([], None, [0], []), Draft([], None, [0], []), NEW_BLOCK]
  const STORED := Draft([Alloca(1, true), Store(Const(1), Local(1))], Some(Br(3)), [0], [3])

  const NO_CODE: seq<Instr> := []
  const NO_BLOCKS: seq<Block> := []

  lemma Parameters()
    ensures GenParams(SOURCE.params, 0, StartGen(map[]))
         == Gen([Draft(TEST[..2], None, [], [])], 0, OUTER, 0, 1)
  {
    assert GlobalScope(map[]) == map[];
    assert SOURCE.params[1..] == [];
    assert NO_CODE + TEST[..2] == TEST[..2] == [Alloca(0, true), Store(Arg(0), Local(0))];
    var G := StartGen(map[]).Emit([Alloca(0, true), Store(Arg(0), Local(0))]);
    assert G.blocks == [Draft(TEST[..2], None, [], [])];
    assert Push(G.scope, "a", Cell(0)) == OUTER;
  }

  lemma FindOuter()
    ensures Locate(OUTER + [map[]], "a") == Local(0) && Locate(OUTER, "a") == Local(0)
  {
    var scope: Scopes := OUTER + [map[]];
    assert scope[..2] == OUTER && scope[2] == map[];
    assert LevelOf(OUTER, "a") == Some(1);
    assert LevelOf(scope, "a") == Some(1);
  }

  lemma Forks()
    ensures BeforeThen(Var("a"), Gen([Draft(TEST[..2], None, [], [])], 0, OUTER + [map[]], 0, 1))
         == Gen(FORKED, 1, OUTER + [map[], map[]], 2, 1)
  {
    var G := Gen([Draft(TEST[..2], None, [], [])], 0, OUTER + [map[]], 0, 1);
    FindOuter();
    var c := CondCode(Var("a"), G.scope, 0);
    assert c == Code([Load(0, Local(0)), Bin(1, Cmp(NE), Reg(0), Const(0))], Reg(1), 2);
    assert TEST[..2] + c.instrs == TEST;
    assert NO_BLOCKS + [0] == [0] && NO_BLOCKS + [2, 1] == [2, 1];
    var A := G.AddBlocks(3);
    assert A.blocks == G.blocks + [NEW_BLOCK, NEW_BLOCK, NEW_BLOCK];
    var B := BeforeThen(Var("a"), G);
    assert B.blocks == FORKED;
    assert OUTER + [map[]] + [map[]] == OUTER + [map[], map[]];
  }

  lemma Inner()
    ensures GenStmt(INNER, Gen(FORKED, 1, OUTER + [map[], map[]], 2, 1))
         == Gen(FORKED[1 := STORED.(term := None, succ := [])], 1, OUTER + [map[], map[]], 2, 2)
  {
    var G := Gen(FORKED, 1, OUTER + [map[], map[]], 2, 1);
    var E := G.EnterScope();
    var D := GenDecls(["x"], E);
    var scope: Scopes := OUTER + [map[], map[], map["x" := Cell(1)]];
    assert (["x"])[1..] == [];
    assert E.scope == OUTER + [map[], map[], map[]];
    assert NO_CODE + [Alloca(1, true)] == [Alloca(1, true)];
    assert GenDecls([], E.Declare("x")) == E.Declare("x");
    assert D == E.Declare("x");
    assert D.scope == scope && D.blocks == FORKED[1 := Draft([Alloca(1, true)], None, [0], [])];
    assert Locate(scope, "x") == Local(1);
    var e := Assign("x", Num(1));
    assert ExprCode(e, scope, 2) == Code([Store(Const(1), Local(1))], Const(1), 2);
    InnerStatement(D);
    assert [Alloca(1, true)] + [Store(Const(1), Local(1))] == STORED.instrs;
    CompoundGen(["x"], [ExprStmt(Some(e))], G);
    assert scope[..4] == OUTER + [map[], map[]];
    assert D.EmitCode(ExprCode(e, scope, 2)).blocks == FORKED[1 := STORED.(term := None, succ := [])];
  }

  lemma InnerStatement(D: Gen)
    requires D.Open()
    ensures var s := ExprStmt(Some(Assign("x", Num(1))));
            GenList([s], D) == D.EmitCode(ExprCode(Assign("x", Num(1)), D.scope, D.nextReg))
  {
    var s := ExprStmt(Some(Assign("x", Num(1))));
    assert [s][1..] == [];
  }

  lemma Branches()
    ensures GenStmt(BRANCH, Gen([Draft(TEST[..2], None, [], [])], 0, OUTER + [map[]], 0, 1))
         == Gen([ENDED, STORED, Draft([], Some(Br(3)), [0], [3]), Draft([], None, [1, 2], [])], 3, OUTER + [map[]], 2, 2)
  {
    hide GenStmt, BeforeThen;
    var G := Gen([Draft(TEST[..2], None, [], [])], 0, OUTER + [map[]], 0, 1);
    IfGen(Var("a"), INNER, None, G);
    Forks();
    Inner();
    assert NO_BLOCKS + [1] == [1] && NO_BLOCKS + [3] == [3] && [1] + [2] == [1, 2];
    var T := GenStmt(INNER, BeforeThen(Var("a"), G));
    assert T.Open() && T.ExitScope().Open();
    var A := AfterThen(T, 1);
    assert A.blocks == [ENDED, STORED, Draft([], None, [0], []), Draft([], None, [1], [])];
    assert (OUTER + [map[], map[]])[..3] == OUTER + [map[]];
    assert GenElse(None, A, 1).blocks == [ENDED, STORED, Draft([], Some(Br(3)), [0], [3]), Draft([], None, [1, 2], [])];
  }

  const DRAFTS: seq<Draft> := [ENDED, STORED, Draft([], Some(Br(3)), [0], [3]), Draft([Load(2, Local(0))], Some(Ret(Reg(2))), [1, 2], [])]

  /** The generator makes exactly this function of the source. */
  lemma SourceIsGenerated()
    ensures GenFun(SOURCE, map[]).blocks == DRAFTS
  {
    hide GenParams;
    var P := GenParams(SOURCE.params, 0, StartGen(map[]));
    Parameters();
    BodyBlocks(P);
  }

  lemma BodyBlocks(P: Gen)
    requires P == Gen([Draft(TEST[..2], None, [], [])], 0, OUTER, 0, 1)
    ensures GenStmt(BODY, P).blocks == DRAFTS && !GenStmt(BODY, P).Open()
  {
    hide GenStmt, GenList, GenDecls;
    var G := P.EnterScope();
    Branches();
    ResultBlocks();
    TwoStatements(BRANCH, RESULT, G);
    NoDecls(G);
    CompoundGen([], [BRANCH, RESULT], P);
  }

  lemma NoDecls(G: Gen)
    requires G.Placed() && G.scope != []
    ensures GenDecls([], G) == G
  {
  }

  const JOINED := Gen([ENDED, STORED, Draft([], Some(Br(3)), [0], [3]), Draft([], None, [1, 2], [])], 3, OUTER + [map[]], 2, 2)

  lemma ResultBlocks()
    ensures JOINED.Open() && GenStmt(RESULT, JOINED).blocks == DRAFTS && !GenStmt(RESULT, JOINED).Open()
  {
    FindOuter();
    assert ExprCode(Var("a"), JOINED.scope, 2) == Code([Load(2, Local(0))], Reg(2), 3);
    assert NO_CODE + [Load(2, Local(0))] == [Load(2, Local(0))] && NO_BLOCKS + [] == NO_BLOCKS;
  }

  lemma TwoStatements(a: Stmt, b: Stmt, G: Gen)
    requires G.Placed() && GenStmt(a, G).Open() && !GenStmt(b, GenStmt(a, G)).Open()
    ensures GenList([a, b], G) == GenStmt(b, GenStmt(a, G))
  {
    hide GenStmt;
    assert [a, b][1..] == [b];
    assert [b][1..] == [];
  }

  lemma DraftsAre()
    ensures Finished(DRAFTS) && ToFunction(DRAFTS) == CONDITIONAL && GraphOf(DRAFTS) == DIAMOND
  {
    assert ToFunction(DRAFTS).blocks == CONDITIONAL.blocks;
    assert GraphOf(DRAFTS).succ == DIAMOND.succ && GraphOf(DRAFTS).pred == DIAMOND.pred;
  }

  lemma SourceIsWellFormed()
    ensures WellFormed(SOURCE, map[])
  {
    var names: Names := [Declared(["a"])] + [Declared([])];
    var inner: Names := names + [map[]] + [Declared(["x"])];
    LevelIsInnermost(names, "a", 0);
    LevelIsInnermost(inner, "x", 3);
    assert Resolves(ExprStmt(Some(Assign("x", Num(1)))), inner, map[], false);
    assert Resolves(INNER, names + [map[]], map[], false);
    assert Resolves(BRANCH, names, map[], false);
    assert Resolves(RESULT, names, map[], false);
    assert [BRANCH, RESULT][1..] == [RESULT];
    assert ResolvesList([BRANCH, RESULT], names, map[], false);
  }

  // ----- dominators and frontiers -----

  lemma DiamondValid()
    ensures DIAMOND.Valid()
  {
  }

  lemma DiamondPaths()
    ensures PathFromTo(DIAMOND, [0, 1], ENTRY, 1) && PathFromTo(DIAMOND, [0, 2], ENTRY, 2)
    ensures PathFromTo(DIAMOND, [0, 1, 3], ENTRY, 3) && PathFromTo(DIAMOND, [0, 2, 3], ENTRY, 3)
  {
    assert Edge(DIAMOND, 0, 1) && Edge(DIAMOND, 0, 2) && Edge(DIAMOND, 1, 3) && Edge(DIAMOND, 2, 3);
    hide DIAMOND;
    assert |DIAMOND.succ| == 4;
  }

  lemma DiamondJoins()
    ensures JoinsReachable(DIAMOND)
  {
    DiamondPaths();
    assert Reachable(DIAMOND, 1) && Reachable(DIAMOND, 2);
  }

  lemma DiamondDominators()
    ensures DIAMOND.Valid() && Dominates(DIAMOND, 1, 1) && !Dominates(DIAMOND, 1, 3) && !Dominates(DIAMOND, 2, 1) && !Dominates(DIAMOND, 1, 2)
    ensures !Dominates(DIAMOND, 3, 2) && Dominates(DIAMOND, 0, 2)
    ensures forall d :: Dominates(DIAMOND, d, 0) ==> d == 0
  {
    DiamondValid();
    DiamondPaths();
    SinglePath(DIAMOND, ENTRY);
    hide DIAMOND, IsPath;
    assert 1 !in [0, 2, 3] && 2 !in [0, 1] && 3 !in [0, 2] && 1 !in [0, 2];
    forall d | Dominates(DIAMOND, d, 0) ensures d == 0 { assert d in [0]; }
  }

  /** Blocks 0 and 2 are in no dominance frontier. */
  lemma NoFrontier(a: Block, b: Block)
    requires b == 0 || b == 2
    ensures DIAMOND.Valid() && !InFrontier(DIAMOND, a, b)
  {
    DiamondDominators();
  }

  lemma NoPhiThere(b: Block, v: nat)
    requires b == 0 || b == 2
    ensures DIAMOND.Valid() && !NeedsPhi(CONDITIONAL, DIAMOND, b, v)
  {
    NoFrontier(0, b);
    if p :| 2 <= |p| && FrontierSteps(DIAMOND, p) && StoresIn(CONDITIONAL, p[0], v) && p[|p| - 1] == b {
      assert FrontierStep(DIAMOND, p[|p| - 2], p[|p| - 2 + 1]);
      NoFrontier(p[|p| - 2], b);
    }
  }

  /** The join gets a phi for x, which block 1 stores. */
  lemma JoinNeedsPhi()
    ensures DIAMOND.Valid() && NeedsPhi(CONDITIONAL, DIAMOND, 3, 1) && StoresIn(CONDITIONAL, 1, 1)
  {
    DiamondPaths();
    DiamondDominators();
    var p := [1, 3];
    assert CONDITIONAL.blocks[1].instrs[1] == Store(Const(1), Local(1));
    assert 1 in DIAMOND.pred[3];
    assert FrontierStep(DIAMOND, 1, 3);
    assert FrontierSteps(DIAMOND, p);
  }

  /** The false edge hands that phi nothing. */
  lemma FalseEdgeUndefined()
    ensures DIAMOND.Valid() && HandsUndefined(CONDITIONAL, DIAMOND, 2, 3, 1)
  {
    hide NeedsPhi, Dominates;
    JoinNeedsPhi();
    if d :| Dominates(DIAMOND, d, 2) && Assigns(CONDITIONAL, DIAMOND, d, 1) {
      DiamondDominators();
      OnlyThese(d);
      NoPhiThere(d, 1);
    }
  }

  lemma OnlyThese(d: Block)
    requires Dominates(DIAMOND, d, 2)
    ensures d == 0 || d == 2
  {
    DiamondPaths();
    assert d in [0, 2];
  }

  /** The condition under which some traversal reads an empty stack holds of this function, which meets
      everything the pass asks for. */
  lemma GeneratedMayFail()
    ensures WellFormed(SOURCE, map[]) && Finished(GenFun(SOURCE, map[]).blocks)
    ensures var f, g := ToFunction(GenFun(SOURCE, map[]).blocks), GraphOf(GenFun(SOURCE, map[]).blocks);
            ValidInput(f, g, GenFun(SOURCE, map[]).nextReg) && JoinsReachable(g) && MayFail(f, g)
  {
    hide ValidInput, NeedsPhi, HandsUndefined, Dominates, GenFun, WellFormed;
    SourceIsWellFormed();
    GeneratedIsValidInput(SOURCE, map[]);
    SourceIsGenerated();
    DraftsAre();
    DiamondPaths();
    DiamondJoins();
    DiamondDominators();
    JoinNeedsPhi();
    FalseEdgeUndefined();
    assert ReadsUndefined(CONDITIONAL, DIAMOND, 2, 1);
    assert Reachable(DIAMOND, 1) && Reachable(DIAMOND, 2) && Assigns(CONDITIONAL, DIAMOND, 1, 1);
  }
}
