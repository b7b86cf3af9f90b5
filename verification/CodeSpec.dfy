// What the IR generator builds for a function, as functions on the state of the builder.
module CodeSpec {
  import opened Wrappers
  import opened Cfg
  import opened IR
  import opened SourceLang

  datatype Binding = Cell(slot: nat) | Global(address: int) | Fun(callee: nat)

  /** The outermost scope holds the global names. */
  type Scopes = seq<map<string, Binding>>

  function Find(scope: Scopes, name: string): Option<Binding> {
    match LevelOf(scope, name)
    case None => None
    case Some(k) => Some(scope[k][name])
  }

  /** A name already in the innermost scope keeps its binding. */
  function Push(scope: Scopes, name: string, b: Binding): Scopes
    requires scope != []
  {
    var n := |scope| - 1;
    if name in scope[n] then scope else scope[n := scope[n][name := b]]
  }

  function GlobalScope(globals: Globals): map<string, Binding> {
    map x | x in globals :: match globals[x] case GlobalVar(a) => Global(a) case GlobalFun(c) => Fun(c)
  }

  /** Where the value of a visible variable lives. */
  function Locate(scope: Scopes, id: string): Address {
    match Find(scope, id)
    case Some(Cell(slot)) => Local(slot)
    case Some(Global(a)) => Memory(Const(a))
    case _ => Memory(Undef)
  }

  function Callee(scope: Scopes, id: string): nat {
    match Find(scope, id)
    case Some(Fun(c)) => c
    case _ => 0
  }

  // ----- expressions: straight-line code -----

  datatype Code = Code(instrs: seq<Instr>, val: Operand, next: nat)

  datatype Codes = Codes(instrs: seq<Instr>, vals: seq<Operand>, next: nat)

  function ExprCode(e: Expr, scope: Scopes, next: nat): Code {
    match e
    case Num(n) => Code([], Const(n), next)
    case Var(id) => Code([Load(next, Locate(scope, id))], Reg(next), next + 1)
    case Assign(id, value) =>
      var c := ExprCode(value, scope, next);
      Code(c.instrs + [Store(c.val, Locate(scope, id))], c.val, c.next)
    case Relation(rel, left, right) =>
      var a := ExprCode(left, scope, next);
      var b := ExprCode(right, scope, a.next);
      Code(a.instrs + b.instrs + [Bin(b.next, Cmp(rel), a.val, b.val), Zext(b.next + 1, Reg(b.next))],
           Reg(b.next + 1), b.next + 2)
    case Arith(op, left, right) =>
      var a := ExprCode(left, scope, next);
      var b := ExprCode(right, scope, a.next);
      Code(a.instrs + b.instrs + [Bin(b.next, OpOf(op), a.val, b.val)], Reg(b.next), b.next + 1)
    case Call(id, args) =>
      var c := ArgsCode(args, scope, next);
      Code(c.instrs + [Instr.Call(c.next, Callee(scope, id), c.vals)], Reg(c.next), c.next + 1)
  }

  function ArgsCode(es: seq<Expr>, scope: Scopes, next: nat): Codes {
    if es == [] then Codes([], [], next)
    else
      var c := ExprCode(es[0], scope, next);
      var cs := ArgsCode(es[1..], scope, c.next);
      Codes(c.instrs + cs.instrs, [c.val] + cs.vals, cs.next)
  }

  /** A condition: the value compared with zero. */
  function CondCode(e: Expr, scope: Scopes, next: nat): Code {
    var c := ExprCode(e, scope, next);
    Code(c.instrs + [Bin(c.next, Cmp(NE), c.val, Const(0))], Reg(c.next), c.next + 1)
  }

  // ----- the builder -----

  /** A block under construction, with its edge lists. */
  datatype Draft = Draft(instrs: seq<Instr>, term: Option<Terminator>, pre: seq<Block>, succ: seq<Block>)

  const NEW_BLOCK := Draft([], None, [], [])

  datatype Gen = Gen(blocks: seq<Draft>, cur: Block, scope: Scopes, nextReg: nat, nextSlot: nat) {
    predicate Placed() {
      cur < |blocks|
    }

    /** The insertion block has no terminator yet. */
    predicate Open() {
      Placed() && blocks[cur].term.None?
    }

    function Here(): nat
      requires Placed()
    {
      |blocks[cur].instrs|
    }

    function AddBlocks(n: nat): (r: Gen)
      ensures |r.blocks| == |blocks| + n && r.cur == cur
    {
      this.(blocks := blocks + seq(n, _ => NEW_BLOCK))
    }

    function MoveTo(b: Block): Gen {
      this.(cur := b)
    }

    function Emit(code: seq<Instr>): (r: Gen)
      requires Placed()
      ensures |r.blocks| == |blocks| && r.cur == cur
    {
      this.(blocks := blocks[cur := blocks[cur].(instrs := blocks[cur].instrs + code)])
    }

    function EmitCode(c: Code): (r: Gen)
      requires Placed()
      ensures |r.blocks| == |blocks| && r.cur == cur
    {
      Emit(c.instrs).(nextReg := c.next)
    }

    function AddPre(b: Block, p: Block): (r: Gen)
      requires b < |blocks|
      ensures |r.blocks| == |blocks| && r.cur == cur
    {
      this.(blocks := blocks[b := blocks[b].(pre := blocks[b].pre + [p])])
    }

    function End(t: Terminator): (r: Gen)
      requires Placed()
      ensures |r.blocks| == |blocks| && r.cur == cur
    {
      this.(blocks := blocks[cur := blocks[cur].(term := Some(t), succ := blocks[cur].succ + Successors(t))])
    }

    function Branch(target: Block): (r: Gen)
      requires Placed() && target < |blocks|
      ensures |r.blocks| == |blocks| && r.cur == cur
    {
      AddPre(target, cur).End(Br(target))
    }

    function CondBranch(cond: Operand, ifTrue: Block, ifFalse: Block): (r: Gen)
      requires Placed() && ifTrue < |blocks| && ifFalse < |blocks|
      ensures |r.blocks| == |blocks| && r.cur == cur
    {
      AddPre(ifTrue, cur).AddPre(ifFalse, cur).End(CondBr(cond, ifTrue, ifFalse))
    }

    /** A branch, unless the block has a terminator already. */
    function Close(target: Block): (r: Gen)
      requires Placed() && target < |blocks|
      ensures |r.blocks| == |blocks| && r.cur == cur
    {
      if Open() then Branch(target) else this
    }

    function EnterScope(): Gen {
      this.(scope := scope + [map[]])
    }

    function ExitScope(): Gen {
      if scope == [] then this else this.(scope := scope[..|scope| - 1])
    }

    function Declare(id: string): Gen
      requires Placed() && scope != []
    {
      Emit([Alloca(nextSlot, true)]).(scope := Push(scope, id, Cell(nextSlot)), nextSlot := nextSlot + 1)
    }
  }

  function GenDecls(decls: seq<string>, G: Gen): (r: Gen)
    requires G.Placed() && G.scope != []
    ensures |r.blocks| == |G.blocks| && r.cur == G.cur && r.scope != []
  {
    if decls == [] then G else GenDecls(decls[1..], G.Declare(decls[0]))
  }

  function GenStmt(s: Stmt, G: Gen): (r: Gen)
    requires G.Placed()
    ensures r.Placed() && |G.blocks| <= |r.blocks|
    decreases s
  {
    match s
    case ExprStmt(None) => G
    case ExprStmt(Some(e)) => G.EmitCode(ExprCode(e, G.scope, G.nextReg))
    case Compound(decls, stmts) => GenList(stmts, GenDecls(decls, G.EnterScope())).ExitScope()
    case If(cond, thenPart, elsePart) => GenElse(elsePart, AfterThen(GenStmt(thenPart, BeforeThen(cond, G)), |G.blocks|), |G.blocks|)
    case While(cond, body) => AfterBody(GenStmt(body, BeforeBody(cond, G)), |G.blocks|)
    case Return(None) => G.End(Ret(Const(0)))
    case Return(Some(e)) =>
      var c := ExprCode(e, G.scope, G.nextReg);
      G.EmitCode(c).End(Ret(c.val))
  }

  // One step of the generator at a time.

  lemma IfGen(cond: Expr, thenPart: Stmt, elsePart: Option<Stmt>, G: Gen)
    requires G.Placed()
    ensures GenStmt(If(cond, thenPart, elsePart), G)
         == GenElse(elsePart, AfterThen(GenStmt(thenPart, BeforeThen(cond, G)), |G.blocks|), |G.blocks|)
  {
    hide BeforeThen, AfterThen, GenElse, GenList, GenDecls, ExprCode, BeforeBody, AfterBody;
  }

  lemma WhileGen(cond: Expr, body: Stmt, G: Gen)
    requires G.Placed()
    ensures GenStmt(While(cond, body), G) == AfterBody(GenStmt(body, BeforeBody(cond, G)), |G.blocks|)
  {
    hide BeforeThen, AfterThen, GenElse, GenList, GenDecls, ExprCode, BeforeBody, AfterBody;
  }

  lemma CompoundGen(decls: seq<string>, stmts: seq<Stmt>, G: Gen)
    requires G.Placed()
    ensures GenStmt(Compound(decls, stmts), G) == GenList(stmts, GenDecls(decls, G.EnterScope())).ExitScope()
  {
    hide BeforeThen, AfterThen, GenElse, GenList, GenDecls, ExprCode, BeforeBody, AfterBody;
  }

  lemma ReturnGen(e: Expr, G: Gen)
    requires G.Placed()
    ensures var c := ExprCode(e, G.scope, G.nextReg); GenStmt(Return(Some(e)), G) == G.EmitCode(c).End(Ret(c.val))
  {
    hide BeforeThen, AfterThen, GenElse, GenList, GenDecls, ExprCode, BeforeBody, AfterBody;
  }

  lemma ListGen(stmts: seq<Stmt>, G: Gen)
    requires G.Placed()
    ensures GenList(stmts, G) == if stmts == [] then G
                                 else if GenStmt(stmts[0], G).Open() then GenList(stmts[1..], GenStmt(stmts[0], G)) else GenStmt(stmts[0], G)
  {
    hide GenStmt;
  }

  /** The second branch, if any, and on to the end block. */
  function GenElse(elsePart: Option<Stmt>, G: Gen, n: Block): (r: Gen)
    requires G.Placed() && n + 3 <= |G.blocks|
    ensures r.Placed() && |G.blocks| <= |r.blocks|
    decreases elsePart
  {
    match elsePart
    case None => G.Branch(n + 2).MoveTo(n + 2)
    case Some(e) => GenStmt(e, G.EnterScope()).ExitScope().Close(n + 2).MoveTo(n + 2)
  }

  function GenCond(cond: Expr, G: Gen, ifTrue: Block, ifFalse: Block): (r: Gen)
    requires G.Placed() && ifTrue < |G.blocks| && ifFalse < |G.blocks|
    ensures r.Placed() && |r.blocks| == |G.blocks| && r.scope == G.scope
  {
    var c := CondCode(cond, G.scope, G.nextReg);
    G.EmitCode(c).CondBranch(c.val, ifTrue, ifFalse)
  }

  /** New blocks for the two branches and the end, and the condition; then the first branch. */
  function BeforeThen(cond: Expr, G: Gen): (r: Gen)
    requires G.Placed()
    ensures r.Placed() && |r.blocks| == |G.blocks| + 3
  {
    var n := |G.blocks|;
    GenCond(cond, G.AddBlocks(3), n, n + 1).MoveTo(n).EnterScope()
  }

  /** From the end of the first branch to the start of the second. */
  function AfterThen(G: Gen, n: Block): (r: Gen)
    requires G.Placed() && n + 3 <= |G.blocks|
    ensures r.Placed() && |r.blocks| == |G.blocks|
  {
    G.ExitScope().Close(n + 2).MoveTo(n + 1)
  }

  /** New blocks for the test, the body and what follows; a jump to the test, the condition, the body. */
  function BeforeBody(cond: Expr, G: Gen): (r: Gen)
    requires G.Placed()
    ensures r.Placed() && |r.blocks| == |G.blocks| + 3
  {
    var n := |G.blocks|;
    GenCond(cond, G.AddBlocks(3).Branch(n).MoveTo(n), n + 1, n + 2).MoveTo(n + 1).EnterScope()
  }

  /** From the end of the body back to the test, and on to what follows. */
  function AfterBody(G: Gen, n: Block): (r: Gen)
    requires G.Placed() && n + 3 <= |G.blocks|
    ensures r.Placed() && |r.blocks| == |G.blocks|
  {
    G.ExitScope().Close(n).MoveTo(n + 2)
  }

  /** Statements up to the first that ends the insertion block. */
  function GenList(stmts: seq<Stmt>, G: Gen): (r: Gen)
    requires G.Placed()
    ensures r.Placed() && |G.blocks| <= |r.blocks|
    decreases stmts
  {
    if stmts == [] then G
    else
      var G1 := GenStmt(stmts[0], G);
      if G1.Open() then GenList(stmts[1..], G1) else G1
  }

  /** Parameters i.. : a cell each, holding the argument. */
  function GenParams(params: seq<string>, i: nat, G: Gen): (r: Gen)
    requires G.Placed() && G.scope != []
    ensures |r.blocks| == |G.blocks| && r.cur == G.cur && r.scope != []
  {
    if params == [] then G
    else
      var G1 := G.Emit([Alloca(G.nextSlot, true), Store(Arg(i), Local(G.nextSlot))]);
      GenParams(params[1..], i + 1, G1.(scope := Push(G.scope, params[0], Cell(G.nextSlot)), nextSlot := G.nextSlot + 1))
  }

  function StartGen(globals: Globals): Gen {
    Gen([NEW_BLOCK], ENTRY, [GlobalScope(globals), map[]], 0, 0)
  }

  /** The blocks of a function, the entry first. */
  function GenFun(d: FunDecl, globals: Globals): (r: Gen)
    ensures r.Placed()
  {
    var G := GenStmt(d.body, GenParams(d.params, 0, StartGen(globals)));
    (if G.Open() then G.End(Ret(Const(0))) else G).ExitScope()
  }

  predicate Finished(blocks: seq<Draft>) {
    forall b :: 0 <= b < |blocks| ==> blocks[b].term.Some?
  }

  function ToFunction(blocks: seq<Draft>): (f: Function)
    requires Finished(blocks)
    ensures |f.blocks| == |blocks|
    ensures forall b :: 0 <= b < |blocks| ==> f.blocks[b] == BasicBlock(blocks[b].instrs, blocks[b].term.value)
  {
    Function(seq(|blocks|, b requires 0 <= b < |blocks| => BasicBlock(blocks[b].instrs, blocks[b].term.value)))
  }
}
