// An ordinary function, generated from its source, on which value numbering reads the first class of an
// empty partition.
module EmptyJoinExample {
  import opened Wrappers
  import IR
  import opened Cfg
  import opened SourceLang
  import opened CodeSpec
  import opened CodeTheorem
  import Gvn
  import GvnTransfer
  import GvnPath
  import GvnValues
  import opened GvnFlow
  import opened GvnRound
  import opened GvnPass

  // ----- the light IR as value numbering sees it -----

  /** Registers and slots are both instructions. */
  ghost predicate SameOperand(o: IR.Operand, v: Gvn.Value) {
    match o
    case Const(n) => v == Gvn.IntConst(n)
    case Arg(k) => v == Gvn.Param(k)
    case Reg(r) => v == Gvn.Instr(2 * r)
    case Undef => false
  }

  ghost predicate SameOperands(os: seq<IR.Operand>, vs: seq<Gvn.Value>) {
    |os| == |vs| && forall k :: 0 <= k < |os| ==> SameOperand(os[k], vs[k])
  }

  ghost predicate SameAddress(a: IR.Address, v: Gvn.Value) {
    match a
    case Local(slot) => v == Gvn.Instr(2 * slot + 1)
    case Memory(p) => SameOperand(p, v) || v.GlobalVar?
  }

  /** What is pure and what is void are properties of the callee, known elsewhere. */
  ghost predicate SameInstr(i: IR.Instr, j: GvnTransfer.Inst) {
    match i
    case Alloca(slot, _) => j == GvnTransfer.Alloca(2 * slot + 1)
    case Load(d, a) => j.Load? && j.id == 2 * d && SameAddress(a, j.addr)
    case Store(o, a) => j.Store? && SameOperand(o, j.val) && SameAddress(a, j.addr)
    case Bin(d, op, l, r) => j.Bin? && j.id == 2 * d && j.op == op && SameOperand(l, j.lhs) && SameOperand(r, j.rhs)
    case Zext(d, o) => j.Zext? && j.id == 2 * d && SameOperand(o, j.val)
    case Call(d, f, os) => j.Call? && j.id == 2 * d && j.callee == f && SameOperands(os, j.args)
    case Phi(d, _, pairs) =>
      j.Phi? && j.id == 2 * d && |pairs| == 2 && SameOperand(pairs[0].0, j.val1) && j.from1 == pairs[0].1
      && SameOperand(pairs[1].0, j.val2) && j.from2 == pairs[1].1
  }

  ghost predicate SameTail(t: IR.Terminator, vs: seq<Gvn.Value>) {
    match t
    case Br(_) => vs == []
    case CondBr(c, _, _) => |vs| == 1 && SameOperand(c, vs[0])
    case Ret(o) => |vs| == 1 && SameOperand(o, vs[0])
  }

  ghost predicate SameFunction(f: IR.Function, g: Graph, F: Fn) {
    && F.Valid() && |f.blocks| == |F.code| && F.preds == g.pred && F.succs == g.succ
    && (forall b :: 0 <= b < |f.blocks| ==> SameTail(f.blocks[b].term, F.tails[b]))
    && forall b, k :: 0 <= b < |f.blocks| ==>
         |f.blocks[b].instrs| == |F.code[b]| && (0 <= k < |F.code[b]| ==> SameInstr(f.blocks[b].instrs[k], F.code[b][k]))
  }

  // ----- the source -----

  /** `int main(void) { if (input()) return 1; else return 2; while (input()) { output(1); } return 0; }` */
  const SOURCE := FunDecl([], false, Compound([], STMTS))
  const STMTS: seq<Stmt> := [BRANCH, LOOP, LAST]
  const INPUT := Expr.Call("input", [])
  const BRANCH := If(INPUT, ONE, Some(TWO))
  const ONE := Stmt.Return(Some(Num(1)))
  const TWO := Stmt.Return(Some(Num(2)))
  const LOOP := While(INPUT, BODY)
  const BODY := Compound([], [WRITE])
  const WRITE := ExprStmt(Some(Expr.Call("output", [Num(1)])))
  const LAST := Stmt.Return(Some(Num(0)))
  const GLOBALS: Globals := map["input" := GlobalFun(0), "output" := GlobalFun(1)]

  // ----- what the generator builds -----

  const NAMES: map<string, Binding> := map["input" := Fun(0), "output" := Fun(1)]
  const SCOPE: Scopes := [NAMES, map[], map[]]

  function Asks(next: nat): seq<IR.Instr> {
    [IR.Call(next, 0, []), IR.Bin(next + 1, IR.Cmp(IR.NE), IR.Reg(next), IR.Const(0))]
  }

  const FORK := Draft(Asks(0), Some(IR.CondBr(IR.Reg(1), 1, 2)), [], [2, 1])
  const LEFT := Draft([], Some(IR.Ret(IR.Const(1))), [0], [])
  const RIGHT := Draft([], Some(IR.Ret(IR.Const(2))), [0], [])
  const AFTER := Draft([], Some(IR.Br(4)), [], [4])
  const TEST := Draft(Asks(2), Some(IR.CondBr(IR.Reg(3), 5, 6)), [3, 5], [6, 5])
  const WRITES := Draft([IR.Call(4, 1, [IR.Const(1)])], Some(IR.Br(4)), [4], [4])
  const END := Draft([], Some(IR.Ret(IR.Const(0))), [4], [])
  const DRAFTS: seq<Draft> := [FORK, LEFT, RIGHT, AFTER, TEST, WRITES, END]

  const NO_BLOCKS: seq<Block> := []
  const NO_CODE: seq<IR.Instr> := []
  const FROM0 := Draft([], None, [0], [])
  const FROM4 := Draft([], None, [4], [])
  const START := Gen([NEW_BLOCK], 0, SCOPE, 0, 0)
  const BRANCHED := Gen([FORK, LEFT, RIGHT, NEW_BLOCK], 3, SCOPE, 2, 0)
  const LOOPED := Gen([FORK, LEFT, RIGHT, AFTER, TEST, WRITES, FROM4], 6, SCOPE, 5, 0)

  lemma FindFunctions(scope: Scopes)
    requires scope == SCOPE || scope == SCOPE + [map[]] || scope == SCOPE + [map[], map[]]
    ensures Callee(scope, "input") == 0 && Callee(scope, "output") == 1
  {
    assert SCOPE[..2][..1] == [NAMES] && SCOPE[..2] == [NAMES, map[]];
    forall x | x == "input" || x == "output" ensures LevelOf(scope, x) == Some(0) {
      assert LevelOf([NAMES], x) == Some(0);
      assert LevelOf(SCOPE[..2], x) == Some(0);
      assert LevelOf(SCOPE, x) == Some(0);
      if scope != SCOPE {
        assert (SCOPE + [map[]])[..3] == SCOPE;
        assert LevelOf(SCOPE + [map[]], x) == Some(0);
        assert (SCOPE + [map[], map[]])[..4] == SCOPE + [map[]];
      }
    }
  }

  lemma AsksCode(next: nat)
    ensures CondCode(INPUT, SCOPE, next) == Code(Asks(next), IR.Reg(next + 1), next + 2)
  {
    FindFunctions(SCOPE);
    assert ArgsCode([], SCOPE, next) == Codes([], [], next);
    assert NO_CODE + [IR.Call(next, 0, [])] + [IR.Bin(next + 1, IR.Cmp(IR.NE), IR.Reg(next), IR.Const(0))] == Asks(next);
  }

  lemma Forks()
    ensures BeforeThen(INPUT, START) == Gen([FORK, FROM0, FROM0, NEW_BLOCK], 1, SCOPE + [map[]], 2, 0)
  {
    hide CondCode, GenCond;
    var F := Gen([NEW_BLOCK, NEW_BLOCK, NEW_BLOCK, NEW_BLOCK], 0, SCOPE, 0, 0);
    assert START.AddBlocks(3) == F by { assert START.AddBlocks(3).blocks == F.blocks; }
    ForkCond(F);
  }

  lemma ForkCond(F: Gen)
    requires F == Gen([NEW_BLOCK, NEW_BLOCK, NEW_BLOCK, NEW_BLOCK], 0, SCOPE, 0, 0)
    ensures GenCond(INPUT, F, 1, 2) == Gen([FORK, FROM0, FROM0, NEW_BLOCK], 0, SCOPE, 2, 0)
  {
    hide CondCode, Find, LevelOf;
    AsksCode(0);
    assert NO_CODE + Asks(0) == Asks(0) && NO_BLOCKS + [0] == [0] && NO_BLOCKS + [2, 1] == [2, 1];
    assert GenCond(INPUT, F, 1, 2).blocks == [FORK, FROM0, FROM0, NEW_BLOCK];
  }

  lemma Branches()
    ensures GenStmt(BRANCH, START) == BRANCHED && BRANCHED.Open()
  {
    hide BeforeThen, GenStmt;
    IfGen(INPUT, ONE, Some(TWO), START);
    Forks();
    Returns(1, BeforeThen(INPUT, START));
    var T := GenStmt(ONE, BeforeThen(INPUT, START));
    assert T.blocks == [FORK, LEFT, FROM0, NEW_BLOCK];
    var A := AfterThen(T, 1);
    assert A == Gen([FORK, LEFT, FROM0, NEW_BLOCK], 2, SCOPE, 2, 0) by { assert (SCOPE + [map[]])[..3] == SCOPE; }
    Returns(2, A.EnterScope());
    var E := GenStmt(TWO, A.EnterScope());
    assert E.blocks == [FORK, LEFT, RIGHT, NEW_BLOCK];
    assert (SCOPE + [map[]])[..3] == SCOPE;
  }

  lemma Returns(n: int, G: Gen)
    requires G.Placed()
    ensures var d := G.blocks[G.cur];
            GenStmt(Stmt.Return(Some(Num(n))), G) == G.(blocks := G.blocks[G.cur := d.(term := Some(IR.Ret(IR.Const(n))))])
  {
    hide GenStmt;
    ReturnGen(Num(n), G);
    var d := G.blocks[G.cur];
    assert d.instrs + [] == d.instrs && d.succ + [] == d.succ;
  }

  lemma Loops()
    ensures GenStmt(LOOP, BRANCHED) == LOOPED && LOOPED.Open()
  {
    hide BeforeBody, GenStmt;
    WhileGen(INPUT, BODY, BRANCHED);
    Tests();
    Writes();
    var T := Gen([FORK, LEFT, RIGHT, AFTER, TEST.(pre := [3]), WRITES.(term := None, succ := []), FROM4], 5, SCOPE + [map[]], 5, 0);
    assert (SCOPE + [map[]])[..3] == SCOPE;
    assert NO_BLOCKS + [4] == [4] && [3] + [5] == [3, 5];
    assert AfterBody(T, 4).blocks == LOOPED.blocks;
  }

  const TESTED := Gen([FORK, LEFT, RIGHT, AFTER, TEST.(pre := [3]), FROM4, FROM4], 5, SCOPE + [map[]], 4, 0)

  lemma Tests()
    ensures BeforeBody(INPUT, BRANCHED) == TESTED
  {
    AsksCode(2);
    assert NO_CODE + Asks(2) == Asks(2) && NO_BLOCKS + [3] == [3] && NO_BLOCKS + [4] == [4] && NO_BLOCKS + [6, 5] == [6, 5];
    var L := BRANCHED.AddBlocks(3).Branch(4).MoveTo(4);
    assert L.blocks == [FORK, LEFT, RIGHT, AFTER, NEW_BLOCK.(pre := [3]), NEW_BLOCK, NEW_BLOCK];
    assert GenCond(INPUT, L, 5, 6).blocks == TESTED.blocks;
  }

  lemma Writes()
    ensures GenStmt(BODY, TESTED) == TESTED.(blocks := TESTED.blocks[5 := WRITES.(term := None, succ := [])], nextReg := 5)
  {
    hide GenStmt, GenList;
    CompoundGen([], [WRITE], TESTED);
    var G := TESTED.EnterScope();
    assert G.scope == SCOPE + [map[], map[]];
    assert GenDecls([], G) == G;
    WriteCode(G.scope, 4);
    WriteGen(G);
    ListGen([WRITE], G);
    ListGen([], GenStmt(WRITE, G));
    assert [WRITE][1..] == [];
    assert G.scope[..4] == TESTED.scope;
    assert NO_CODE + [IR.Call(4, 1, [IR.Const(1)])] == [IR.Call(4, 1, [IR.Const(1)])];
    assert GenStmt(WRITE, G).blocks == TESTED.blocks[5 := WRITES.(term := None, succ := [])];
  }

  lemma WriteGen(G: Gen)
    requires G.Placed()
    ensures GenStmt(WRITE, G) == G.EmitCode(ExprCode(Expr.Call("output", [Num(1)]), G.scope, G.nextReg))
  {
  }

  lemma WriteCode(scope: Scopes, next: nat)
    requires scope == SCOPE + [map[], map[]]
    ensures ExprCode(Expr.Call("output", [Num(1)]), scope, next) == Code([IR.Call(next, 1, [IR.Const(1)])], IR.Reg(next), next + 1)
  {
    FindFunctions(scope);
    assert [Num(1)][1..] == [];
    assert ArgsCode([], scope, next) == Codes([], [], next);
    assert ArgsCode([Num(1)], scope, next) == Codes([], [IR.Const(1)], next);
  }

  /** The generator makes exactly these blocks of the source. */
  lemma SourceIsGenerated()
    ensures GenFun(SOURCE, GLOBALS).blocks == DRAFTS
  {
    hide GenStmt, GenList;
    var G := StartGen(GLOBALS);
    assert GlobalScope(GLOBALS) == NAMES;
    assert GenParams([], 0, G) == G;
    CompoundGen([], STMTS, G);
    assert G.EnterScope() == START by { assert G.EnterScope().scope == SCOPE; }
    assert GenDecls([], START) == START;
    AllStatements();
  }

  lemma AllStatements()
    ensures GenList(STMTS, START).blocks == DRAFTS && !GenList(STMTS, START).Open()
  {
    hide GenStmt, GenList;
    assert STMTS[1..] == [LOOP, LAST] && STMTS[1..][1..] == [LAST];
    ListGen(STMTS, START);
    Branches();
    ListGen(STMTS[1..], BRANCHED);
    Loops();
    ListGen(STMTS[1..][1..], LOOPED);
    Returns(0, LOOPED);
    assert GenStmt(LAST, LOOPED).blocks == DRAFTS;
  }

  lemma SourceIsWellFormed()
    ensures WellFormed(SOURCE, GLOBALS)
  {
    var names: Names := [Declared([])] + [Declared([])];
    var inner: Names := names + [map[]] + [Declared([])];
    NoLevel(names);
    NoLevel(inner);
    assert Resolves(ONE, names + [map[]], GLOBALS, false) && Resolves(TWO, names + [map[]], GLOBALS, false);
    assert ResolvesExpr(INPUT, names, GLOBALS);
    assert Resolves(BRANCH, names, GLOBALS, false);
    assert [Num(1)][1..] == [] && ResolvesAll([], inner, GLOBALS);
    assert Resolves(WRITE, inner, GLOBALS, false);
    assert [WRITE][1..] == [] && ResolvesList([], inner, GLOBALS, false);
    assert Resolves(BODY, names + [map[]], GLOBALS, false);
    assert Resolves(LOOP, names, GLOBALS, false) && Resolves(LAST, names, GLOBALS, false);
    assert STMTS[1..] == [LOOP, LAST] && STMTS[1..][1..] == [LAST];
    assert ResolvesList([LAST], names, GLOBALS, false);
    assert ResolvesList([LOOP, LAST], names, GLOBALS, false);
  }

  lemma {:induction false} NoLevel(names: Names)
    requires forall k :: 0 <= k < |names| ==> names[k] == map[]
    ensures forall x :: LevelOf(names, x) == None
  {
    if names != [] { NoLevel(names[..|names| - 1]); }
  }

  // ----- value numbering -----

  const CODE: seq<seq<GvnTransfer.Inst>> := [
    [GvnTransfer.Call(0, 0, false, false, []), GvnTransfer.Bin(2, IR.Cmp(IR.NE), Gvn.Instr(0), Gvn.IntConst(0))],
    [], [], [],
    [GvnTransfer.Call(4, 0, false, false, []), GvnTransfer.Bin(6, IR.Cmp(IR.NE), Gvn.Instr(4), Gvn.IntConst(0))],
    [GvnTransfer.Call(8, 1, false, true, [Gvn.IntConst(1)])], []]

  const TAILS: seq<seq<Gvn.Value>> := [[Gvn.Instr(2)], [Gvn.IntConst(1)], [Gvn.IntConst(2)], [], [Gvn.Instr(6)], [], [Gvn.IntConst(0)]]

  const MAIN := Fn(CODE, TAILS, [[], [0], [0], [], [3, 5], [4], [4]], [[2, 1], [], [], [4], [6, 5], [4], []], [])

  lemma DraftsAre()
    ensures Finished(DRAFTS) && SameFunction(ToFunction(DRAFTS), GraphOf(DRAFTS), MAIN)
  {
    var f, g := ToFunction(DRAFTS), GraphOf(DRAFTS);
    assert g.pred == MAIN.preds && g.succ == MAIN.succs;
    assert MAIN.Valid() by { MainValid(); }
    forall b, k | 0 <= b < |f.blocks|
      ensures |f.blocks[b].instrs| == |CODE[b]| && (0 <= k < |CODE[b]| ==> SameInstr(f.blocks[b].instrs[k], CODE[b][k]))
    {
      hide SameInstr;
      assert f.blocks[b].instrs == DRAFTS[b].instrs;
      SameBlock(b);
    }
  }

  lemma MainValid()
    ensures MAIN.Valid()
  {
  }

  lemma SameBlock(b: nat)
    requires b < 7
    ensures |DRAFTS[b].instrs| == |CODE[b]| && forall k :: 0 <= k < |CODE[b]| ==> SameInstr(DRAFTS[b].instrs[k], CODE[b][k])
  {
    SameAsks(0);
    SameAsks(2);
  }

  lemma SameAsks(next: nat)
    ensures SameInstr(Asks(next)[0], GvnTransfer.Call(2 * next, 0, false, false, []))
    ensures SameInstr(Asks(next)[1], GvnTransfer.Bin(2 * next + 2, IR.Cmp(IR.NE), Gvn.Instr(2 * next), Gvn.IntConst(0)))
  {
  }

  /** At the end of block 3, which nothing leads to, nothing has a value; it is the front predecessor of the
      test of the loop. */
  lemma TestReadsEmpty()
    ensures MAIN.Valid() && LooksIntoEmpty(MAIN, 4) && Calm(MAIN, 4)
  {
    NothingAtAfter();
    hide NothingAt, Carries;
    assert MAIN.preds[4] == [3, 5] && Arc(MAIN, 3, 4);
    assert Undivided(CODE[4]);
  }

  lemma NothingAtAfter()
    ensures MAIN.Valid() && NothingAt(MAIN, 3)
  {
    NothingAfter();
    hide NothingAt;
    EntryIsEmptyIff(MAIN, 3);
  }

  lemma NothingAfter()
    ensures MAIN.Valid() && MAIN.PhisAfter(3) == []
  {
    MainValid();
    assert MAIN.succs[3] == [4] && [4][1..] == [];
    NoPhis(CODE[4][0], CODE[4][1]);
    assert CODE[4] == [CODE[4][0], CODE[4][1]];
    assert MAIN.PhisOf([]) == [];
  }

  lemma NoPhis(i: GvnTransfer.Inst, j: GvnTransfer.Inst)
    requires !i.Phi? && !j.Phi?
    ensures GvnPath.PhisIn([i, j]) == []
  {
    assert [i, j][1..] == [j] && [j][1..] == [];
    assert GvnPath.PhisIn([j]) == [];
  }

  /** The function is well formed, and value numbering sees it like this. */
  lemma GeneratedReadsEmpty()
    ensures WellFormed(SOURCE, GLOBALS) && Finished(GenFun(SOURCE, GLOBALS).blocks)
    ensures SameFunction(ToFunction(GenFun(SOURCE, GLOBALS).blocks), GraphOf(GenFun(SOURCE, GLOBALS).blocks), MAIN)
    ensures MAIN.vars == [] && LooksIntoEmpty(MAIN, 4)
  {
    hide WellFormed, GenFun, SameFunction, LooksIntoEmpty;
    SourceIsWellFormed();
    SourceIsGenerated();
    DraftsAre();
    TestReadsEmpty();
  }

  /** Whatever the pass chooses, its first round comes to the test of the loop and reads there the first
      class of an empty partition. */
  method NumberMain(fuel: nat) returns (r: Outcome)
    ensures r == EmptyRead(4)
  {
    TestReadsEmpty();
    OthersCalm();
    hide LooksIntoEmpty, Calm;
    var gvn := new GVN();
    var changed;
    r, changed := gvn.FirstRound(MAIN, fuel);
  }

  lemma OthersCalm()
    ensures forall b: nat :: b < 4 ==> Calm(MAIN, b) && !LooksIntoEmpty(MAIN, b)
  {
  }
}
