// The IR generator: a visitor that appends to a moving insertion block, with a scope stack.
module Builder {
  import opened Wrappers
  import opened Cfg
  import opened IR
  import opened SourceLang
  import opened CodeSpec
  import opened CodeFrame
  import opened CodeExpr
  import opened CodeCorrect
  import opened CodeTheorem

  class ScopeStack {
    var inner: seq<map<string, Binding>>

    /** The outermost scope, with the global names. */
    constructor (globals: Globals)
      ensures inner == [GlobalScope(globals)]
    {
      inner := [GlobalScope(globals)];
    }

    method Enter()
      modifies this
      ensures inner == old(inner) + [map[]]
    {
      inner := inner + [map[]];
    }

    method Exit()
      requires inner != []
      modifies this
      ensures inner == old(inner)[..|old(inner)| - 1]
    {
      inner := inner[..|inner| - 1];
    }

    /** False, and no change, if the innermost scope has the name already. */
    method PushName(name: string, b: Binding) returns (ok: bool)
      requires inner != []
      modifies this
      ensures inner == Push(old(inner), name, b)
      ensures ok <==> name !in old(inner)[|old(inner)| - 1]
    {
      var n := |inner| - 1;
      ok := name !in inner[n];
      if ok {
        inner := inner[n := inner[n][name := b]];
      }
    }

    /** The innermost binding of the name. */
    method FindName(name: string) returns (r: Option<Binding>)
      ensures r == Find(inner, name)
    {
      var i := |inner|;
      assert inner[..i] == inner;
      while i > 0
        invariant i <= |inner| && LevelOf(inner[..i], name) == LevelOf(inner, name)
      {
        i := i - 1;
        assert inner[..i + 1][..i] == inner[..i];
        if name in inner[i] {
          return Some(inner[i][name]);
        }
      }
      r := None;
    }
  }

  /** What the last expression visited stands for. */
  datatype Result = Scalar(val: Operand) | Pointer(addr: Address)

  /** Scopes that declare the names, on top of the globals. */
  ghost predicate InScope(names: Names, scope: Scopes, globals: Globals) {
    scope != [] && scope[0] == GlobalScope(globals) && Fits(names, scope)
      && forall k, x :: 1 <= k < |scope| && x in scope[k] ==> scope[k][x].Cell?
  }

  lemma FindVar(id: string, names: Names, scope: Scopes, globals: Globals)
    requires InScope(names, scope, globals) && VarVisible(id, names, globals)
    ensures Find(scope, id).Some? && !Find(scope, id).value.Fun?
  {
    LevelWithOuter(scope, id);
    SameNamesSameLevel(scope[1..], names, id);
  }

  lemma FindFun(id: string, names: Names, scope: Scopes, globals: Globals)
    requires InScope(names, scope, globals) && LevelOf(names, id) == None && id in globals && globals[id].GlobalFun?
    ensures Find(scope, id) == Some(Fun(globals[id].callee))
  {
    LevelWithOuter(scope, id);
    SameNamesSameLevel(scope[1..], names, id);
  }

  /** Declaring names keeps every lookup of the outer scopes in place. */
  lemma {:induction false} DeclaredInScope(decls: seq<string>, G: Gen, names: Names, top: map<string, ()>, globals: Globals)
    requires G.Placed() && G.scope != [] && InScope(names + [top], G.scope, globals)
    ensures InScope(names + [top + Declared(decls)], GenDecls(decls, G).scope, globals)
    decreases decls
  {
    hide InScope;
    if decls == [] {
      assert top + Declared(decls) == top;
    } else {
      var G1 := G.Declare(decls[0]);
      var top1 := top[decls[0] := ()];
      PushInScope(G.scope, decls[0], G.nextSlot, names, top, globals);
      DeclaredInScope(decls[1..], G1, names, top1, globals);
      assert top1 + Declared(decls[1..]) == top + Declared(decls);
    }
  }

  lemma PushInScope(scope: Scopes, id: string, slot: nat, names: Names, top: map<string, ()>, globals: Globals)
    requires InScope(names + [top], scope, globals)
    ensures InScope(names + [top[id := ()]], Push(scope, id, Cell(slot)), globals)
  {
    var n := |scope| - 1;
    assert scope[1..][n - 1] == scope[n];
    var scope' := Push(scope, id, Cell(slot));
    forall k | 0 <= k < |names| + 1 ensures scope'[1..][k].Keys == (names + [top[id := ()]])[k].Keys {
      assert scope[1..][k].Keys == (names + [top])[k].Keys;
    }
  }

  lemma EnterInScope(names: Names, scope: Scopes, globals: Globals)
    requires InScope(names, scope, globals)
    ensures InScope(names + [map[]], scope + [map[]], globals)
  {
    assert (scope + [map[]])[1..] == scope[1..] + [map[]];
  }

  lemma EmitNothing(G: Gen)
    requires G.Placed()
    ensures G.Emit([]) == G
  {
    assert G.blocks[G.cur].instrs + [] == G.blocks[G.cur].instrs;
    assert G.blocks[G.cur := G.blocks[G.cur]] == G.blocks;
  }

  lemma EmitTwice(G: Gen, a: seq<Instr>, b: seq<Instr>)
    requires G.Placed()
    ensures G.Emit(a).Emit(b) == G.Emit(a + b)
  {
    assert G.blocks[G.cur].instrs + a + b == G.blocks[G.cur].instrs + (a + b);
    assert G.Emit(a).Emit(b).blocks == G.Emit(a + b).blocks;
  }

  lemma ScopeKept(G: Gen, G': Gen)
    requires Kept(G, G')
    ensures G'.scope == G.scope && G'.Placed() && |G.blocks| <= |G'.blocks|
  {
  }

  lemma ListScope(stmts: seq<Stmt>, G: Gen)
    requires G.Open()
    ensures GenList(stmts, G).scope == G.scope
  {
    ListKept(stmts, G);
  }

  /** The parameters are in scope where the body starts. */
  lemma ParamsInScope(d: FunDecl, globals: Globals)
    ensures var G := BodyStart(d, globals);
            InScope([Declared(d.params)], G.scope, globals) && G.Open() && |G.scope| == 2
  {
    var G0 := StartGen(globals);
    assert G0.scope[1..] == [map[]];
    ParamsScoped(d.params, 0, G0, map[], globals);
    ParamsKept(d.params, 0, G0);
    assert map[] + Declared(d.params) == Declared(d.params);
  }

  lemma {:induction false} ParamsScoped(params: seq<string>, i: nat, G: Gen, top: map<string, ()>, globals: Globals)
    requires G.Placed() && G.scope != [] && InScope([top], G.scope, globals)
    ensures InScope([top + Declared(params)], GenParams(params, i, G).scope, globals)
    decreases params
  {
    if params == [] {
      assert top + Declared(params) == top;
    } else {
      var top1 := top[params[0] := ()];
      ParamsIs(params, i, G);
      assert [] + [top] == [top] && [] + [top1] == [top1];
      PushInScope(G.scope, params[0], G.nextSlot, [], top, globals);
      ParamsScoped(params[1..], i + 1, Param(params[0], i, G), top1, globals);
      assert top1 + Declared(params[1..]) == top + Declared(params);
    }
  }

  /** The code of all arguments is the code so far and the code of the rest. */
  ghost predicate Remaining(all: Codes, code: seq<Instr>, vals: seq<Operand>, rest: Codes) {
    all == Codes(code + rest.instrs, vals + rest.vals, rest.next)
  }

  lemma OneMore(es: seq<Expr>, scope: Scopes, next: nat, all: Codes, code: seq<Instr>, vals: seq<Operand>)
    requires es != [] && Remaining(all, code, vals, ArgsCode(es, scope, next))
    ensures var c := ExprCode(es[0], scope, next);
            Remaining(all, code + c.instrs, vals + [c.val], ArgsCode(es[1..], scope, c.next))
  {
    var c := ExprCode(es[0], scope, next);
    var rest := ArgsCode(es[1..], scope, c.next);
    assert code + (c.instrs + rest.instrs) == code + c.instrs + rest.instrs;
    assert vals + ([c.val] + rest.vals) == vals + [c.val] + rest.vals;
  }

  class CminusfBuilder {
    const scope: ScopeStack
    var blocks: seq<Draft>     // of the function being built
    var cur: Block             // the insertion block
    var nextReg: nat
    var nextSlot: nat
    var curValue: Result
    var curLvalue: bool

    constructor (globals: Globals)
      ensures fresh(scope) && scope.inner == [GlobalScope(globals)] && !curLvalue
    {
      blocks, cur, nextReg, nextSlot, curValue, curLvalue := [], 0, 0, 0, Scalar(Undef), false;
      scope := new ScopeStack(globals);
    }

    ghost function State(): Gen
      reads this, scope
    {
      Gen(blocks, cur, scope.inner, nextReg, nextSlot)
    }

    // ----- appending to the insertion block -----

    method CreateBlock() returns (b: Block)
      modifies this`blocks
      ensures b == |old(blocks)| && blocks == old(blocks) + [NEW_BLOCK]
    {
      b := |blocks|;
      blocks := blocks + [NEW_BLOCK];
    }

    /** Instructions go into a block that has no terminator yet. */
    method Emit(i: Instr)
      requires cur < |blocks| && blocks[cur].term.None?
      modifies this`blocks
      ensures State() == old(State()).Emit([i])
    {
      blocks := blocks[cur := blocks[cur].(instrs := blocks[cur].instrs + [i])];
    }

    method NewRegister() returns (r: nat)
      modifies this`nextReg
      ensures r == old(nextReg) && nextReg == r + 1
    {
      r := nextReg;
      nextReg := nextReg + 1;
    }

    method CreateBr(target: Block)
      requires cur < |blocks| && blocks[cur].term.None? && target < |blocks|
      modifies this`blocks
      ensures State() == old(State()).Branch(target)
    {
      blocks := blocks[target := blocks[target].(pre := blocks[target].pre + [cur])];
      blocks := blocks[cur := blocks[cur].(succ := blocks[cur].succ + [target])];
      blocks := blocks[cur := blocks[cur].(term := Some(Br(target)))];
    }

    method CreateCondBr(cond: Operand, ifTrue: Block, ifFalse: Block)
      requires cur < |blocks| && blocks[cur].term.None? && ifTrue < |blocks| && ifFalse < |blocks|
      modifies this`blocks
      ensures State() == old(State()).CondBranch(cond, ifTrue, ifFalse)
    {
      blocks := blocks[ifTrue := blocks[ifTrue].(pre := blocks[ifTrue].pre + [cur])];
      blocks := blocks[ifFalse := blocks[ifFalse].(pre := blocks[ifFalse].pre + [cur])];
      blocks := blocks[cur := blocks[cur].(succ := blocks[cur].succ + [ifFalse])];
      blocks := blocks[cur := blocks[cur].(succ := blocks[cur].succ + [ifTrue])];
      blocks := blocks[cur := blocks[cur].(term := Some(CondBr(cond, ifTrue, ifFalse)))];
      ghost var G := old(State()).AddPre(ifTrue, cur).AddPre(ifFalse, cur);
      assert G.blocks[cur].succ + [ifFalse] + [ifTrue] == G.blocks[cur].succ + [ifFalse, ifTrue];
      assert blocks == G.End(CondBr(cond, ifTrue, ifFalse)).blocks;
    }

    method CreateRet(val: Operand)
      requires cur < |blocks| && blocks[cur].term.None?
      modifies this`blocks
      ensures State() == old(State()).End(Ret(val))
    {
      assert blocks[cur].succ + [] == blocks[cur].succ;
      blocks := blocks[cur := blocks[cur].(term := Some(Ret(val)))];
    }

    // ----- expressions -----

    /** The code of an expression has been appended, and its value is current. */
    twostate predicate Emitted(c: Code)
      reads this, scope
    {
      old(cur) < |old(blocks)| && State() == old(State()).EmitCode(c) && curValue == Scalar(c.val) && !curLvalue
    }

    method VisitVar(id: string, ghost names: Names, ghost globals: Globals)
      requires InScope(names, scope.inner, globals) && VarVisible(id, names, globals) && State().Open()
      modifies this
      ensures curLvalue == old(curLvalue)
      ensures if curLvalue then State() == old(State()) && curValue == Pointer(Locate(scope.inner, id))
              else Emitted(ExprCode(Var(id), scope.inner, old(nextReg)))
    {
      var found := scope.FindName(id);
      FindVar(id, names, scope.inner, globals);
      var addr := match found.value case Cell(slot) => Local(slot) case Global(a) => Memory(Const(a));
      curValue := Pointer(addr);
      if !curLvalue {
        var r := NewRegister();
        Emit(Load(r, addr));
        curValue := Scalar(Reg(r));
      }
    }

    method VisitAssign(id: string, value: Expr, ghost names: Names, ghost globals: Globals)
      requires InScope(names, scope.inner, globals) && ResolvesExpr(Assign(id, value), names, globals) && State().Open() && !curLvalue
      modifies this
      ensures Emitted(ExprCode(Assign(id, value), scope.inner, old(nextReg)))
      decreases Assign(id, value), 0
    {
      curLvalue := true;
      VisitVar(id, names, globals);
      curLvalue := false;
      var addr := curValue.addr;
      VisitExpr(value, names, globals);
      Emit(Store(curValue.val, addr));
      EmitTwice(old(State()), ExprCode(value, scope.inner, old(nextReg)).instrs, [Store(curValue.val, addr)]);
    }

    /** Left operand, then right operand. */
    method VisitOperands(left: Expr, right: Expr, ghost names: Names, ghost globals: Globals, ghost whole: Expr)
      returns (var1: Operand, var2: Operand)
      requires InScope(names, scope.inner, globals) && State().Open() && !curLvalue && left < whole && right < whole
      requires ResolvesExpr(left, names, globals) && ResolvesExpr(right, names, globals)
      modifies this
      ensures !curLvalue
      ensures var a := ExprCode(left, scope.inner, old(nextReg));
              var b := ExprCode(right, scope.inner, a.next);
              var1 == a.val && var2 == b.val && State() == old(State()).Emit(a.instrs + b.instrs).(nextReg := b.next)
      decreases whole, 0
    {
      ghost var G := State();
      VisitExpr(left, names, globals);
      var1 := curValue.val;
      VisitExpr(right, names, globals);
      var2 := curValue.val;
      ghost var a := ExprCode(left, scope.inner, G.nextReg);
      EmitTwice(G, a.instrs, ExprCode(right, scope.inner, a.next).instrs);
    }

    method VisitRelation(rel: CmpOp, left: Expr, right: Expr, ghost names: Names, ghost globals: Globals)
      requires InScope(names, scope.inner, globals) && State().Open() && !curLvalue
      requires ResolvesExpr(left, names, globals) && ResolvesExpr(right, names, globals)
      modifies this
      ensures Emitted(ExprCode(Relation(rel, left, right), scope.inner, old(nextReg)))
      decreases Relation(rel, left, right), 1
    {
      hide InScope, ResolvesExpr;
      ghost var a := ExprCode(left, scope.inner, nextReg);
      ghost var code := a.instrs + ExprCode(right, scope.inner, a.next).instrs;
      var var1, var2 := VisitOperands(left, right, names, globals, Relation(rel, left, right));
      var c := NewRegister();
      var cmp := Bin(c, Cmp(rel), var1, var2);
      Emit(cmp);
      EmitTwice(old(State()), code, [cmp]);
      var r := NewRegister();
      Emit(Zext(r, Reg(c)));
      EmitTwice(old(State()), code + [cmp], [Zext(r, Reg(c))]);
      assert code + [cmp] + [Zext(r, Reg(c))] == code + [cmp, Zext(r, Reg(c))];
      curValue := Scalar(Reg(r));
    }

    method VisitArith(op: ArithOp, left: Expr, right: Expr, ghost names: Names, ghost globals: Globals)
      requires InScope(names, scope.inner, globals) && State().Open() && !curLvalue
      requires ResolvesExpr(left, names, globals) && ResolvesExpr(right, names, globals)
      modifies this
      ensures Emitted(ExprCode(Arith(op, left, right), scope.inner, old(nextReg)))
      decreases Arith(op, left, right), 1
    {
      ghost var a := ExprCode(left, scope.inner, nextReg);
      var var1, var2 := VisitOperands(left, right, names, globals, Arith(op, left, right));
      var r := NewRegister();
      Emit(Bin(r, OpOf(op), var1, var2));
      EmitTwice(old(State()), a.instrs + ExprCode(right, scope.inner, a.next).instrs, [Bin(r, OpOf(op), var1, var2)]);
      curValue := Scalar(Reg(r));
    }

    method VisitCall(id: string, args: seq<Expr>, ghost names: Names, ghost globals: Globals)
      requires InScope(names, scope.inner, globals) && State().Open() && !curLvalue
      requires ResolvesExpr(Expr.Call(id, args), names, globals)
      modifies this
      ensures Emitted(ExprCode(Expr.Call(id, args), scope.inner, old(nextReg)))
      decreases Expr.Call(id, args), 1
    {
      var fun := scope.FindName(id);
      FindFun(id, names, scope.inner, globals);
      ghost var code := ArgsCode(args, scope.inner, nextReg);
      var vals := VisitArgs(args, names, globals);
      var r := NewRegister();
      Emit(Instr.Call(r, fun.value.callee, vals));
      EmitTwice(old(State()), code.instrs, [Instr.Call(r, fun.value.callee, vals)]);
      curValue := Scalar(Reg(r));
    }

    /** The arguments of a call, from left to right. */
    method VisitArgs(args: seq<Expr>, ghost names: Names, ghost globals: Globals) returns (vals: seq<Operand>)
      requires InScope(names, scope.inner, globals) && State().Open() && !curLvalue && ResolvesAll(args, names, globals)
      modifies this
      ensures var c := ArgsCode(args, scope.inner, old(nextReg));
              vals == c.vals && State() == old(State()).Emit(c.instrs).(nextReg := c.next) && !curLvalue
      decreases args, 0
    {
      ghost var G, all := State(), ArgsCode(args, scope.inner, nextReg);
      ghost var code: seq<Instr> := [];
      vals := [];
      EmitNothing(G);
      assert args[0..] == args;
      for k := 0 to |args|
        invariant !curLvalue && scope.inner == G.scope && ResolvesAll(args[k..], names, globals)
        invariant State() == G.Emit(code).(nextReg := nextReg)
        invariant Remaining(all, code, vals, ArgsCode(args[k..], scope.inner, nextReg))
      {
        assert args[k..][0] == args[k] && args[k..][1..] == args[k + 1..];
        ghost var c := ExprCode(args[k], scope.inner, nextReg);
        OneMore(args[k..], scope.inner, nextReg, all, code, vals);
        VisitExpr(args[k], names, globals);
        EmitTwice(G, code, c.instrs);
        vals := vals + [curValue.val];
        code := code + c.instrs;
      }
      assert args[|args|..] == [] && code + [] == code && vals + [] == vals;
    }

    method VisitExpr(e: Expr, ghost names: Names, ghost globals: Globals)
      requires InScope(names, scope.inner, globals) && ResolvesExpr(e, names, globals) && State().Open() && !curLvalue
      modifies this
      ensures Emitted(ExprCode(e, scope.inner, old(nextReg)))
      decreases e, 2
    {
      match e
      case Num(n) => EmitNothing(State()); curValue := Scalar(Const(n));
      case Var(id) => VisitVar(id, names, globals);
      case Assign(id, value) => VisitAssign(id, value, names, globals);
      case Relation(rel, left, right) => VisitRelation(rel, left, right, names, globals);
      case Arith(op, left, right) => VisitArith(op, left, right, names, globals);
      case Call(id, args) => VisitCall(id, args, names, globals);
    }

    // ----- statements -----

    method VisitVarDeclaration(id: string)
      requires State().Open() && scope.inner != []
      modifies this`blocks, this`nextSlot, scope
      ensures State() == old(State()).Declare(id)
    {
      var slot := nextSlot;
      nextSlot := nextSlot + 1;
      Emit(Alloca(slot, true));
      var ok := scope.PushName(id, Cell(slot));
    }

    /** A condition, compared with zero, and the two-way branch. */
    method VisitCondition(cond: Expr, ifTrue: Block, ifFalse: Block, ghost names: Names, ghost globals: Globals)
      requires InScope(names, scope.inner, globals) && ResolvesExpr(cond, names, globals)
      requires State().Open() && !curLvalue && ifTrue < |blocks| && ifFalse < |blocks|
      modifies this
      ensures State() == GenCond(cond, old(State()), ifTrue, ifFalse) && !curLvalue
    {
      hide ExprCode, InScope, ResolvesExpr;
      ghost var c := ExprCode(cond, scope.inner, nextReg);
      VisitExpr(cond, names, globals);
      var r := NewRegister();
      var cmp := Bin(r, Cmp(NE), curValue.val, Const(0));
      Emit(cmp);
      EmitTwice(old(State()), c.instrs, [cmp]);
      curValue := Scalar(Reg(r));
      CreateCondBr(Reg(r), ifTrue, ifFalse);
    }

    method CreateThree() returns (b: Block)
      modifies this`blocks
      ensures b == |old(blocks)| && State() == old(State()).AddBlocks(3)
    {
      b := CreateBlock();
      var second := CreateBlock();
      var third := CreateBlock();
      assert seq(3, _ => NEW_BLOCK) == [NEW_BLOCK, NEW_BLOCK, NEW_BLOCK];
      assert blocks == old(blocks) + [NEW_BLOCK, NEW_BLOCK, NEW_BLOCK];
    }

    /** A branch to the target, unless the insertion block has a terminator. */
    method BranchIfOpen(target: Block)
      requires cur < |blocks| && target < |blocks|
      modifies this`blocks
      ensures State() == old(State()).Close(target)
    {
      if blocks[cur].term.None? {
        CreateBr(target);
      }
    }

    method VisitCompound(decls: seq<string>, stmts: seq<Stmt>, ghost names: Names, ghost globals: Globals, isVoid: bool)
      requires InScope(names, scope.inner, globals) && Resolves(Compound(decls, stmts), names, globals, isVoid)
      requires State().Open() && !curLvalue
      modifies this, scope
      ensures State() == GenStmt(Compound(decls, stmts), old(State())) && !curLvalue
      decreases stmts, 1
    {
      hide InScope, ResolvesList, Kept;
      ghost var G := State();
      EnterInScope(names, scope.inner, globals);
      scope.Enter();
      VisitDecls(decls);
      DeclsKept(decls, G.EnterScope());
      DeclaredInScope(decls, G.EnterScope(), names, map[], globals);
      assert map[] + Declared(decls) == Declared(decls);
      VisitList(stmts, names + [Declared(decls)], globals, isVoid);
      ListKept(stmts, GenDecls(decls, G.EnterScope()));
      ListScope(stmts, GenDecls(decls, G.EnterScope()));
      scope.Exit();
    }

    method VisitDecls(decls: seq<string>)
      requires State().Open() && scope.inner != []
      modifies this, scope
      ensures State() == GenDecls(decls, old(State())) && curLvalue == old(curLvalue) && State().Open()
    {
      ghost var G := State();
      assert decls[0..] == decls;
      for k := 0 to |decls|
        invariant State().Open() && scope.inner != [] && curLvalue == old(curLvalue)
        invariant GenDecls(decls[k..], State()) == GenDecls(decls, G)
      {
        assert decls[k..][0] == decls[k] && decls[k..][1..] == decls[k + 1..];
        VisitVarDeclaration(decls[k]);
      }
    }

    /** Statements until the insertion block has a terminator. */
    method VisitList(stmts: seq<Stmt>, ghost names: Names, ghost globals: Globals, isVoid: bool)
      requires InScope(names, scope.inner, globals) && ResolvesList(stmts, names, globals, isVoid)
      requires State().Open() && !curLvalue
      modifies this, scope
      ensures State() == GenList(stmts, old(State())) && !curLvalue
      decreases stmts, 0
    {
      hide InScope, GenStmt, Resolves;
      ghost var G := State();
      assert stmts[0..] == stmts;
      for k := 0 to |stmts|
        invariant State().Open() && !curLvalue && scope.inner == G.scope
        invariant ResolvesList(stmts[k..], names, globals, isVoid)
        invariant GenList(stmts[k..], State()) == GenList(stmts, G)
      {
        assert stmts[k..][0] == stmts[k] && stmts[k..][1..] == stmts[k + 1..];
        StmtKept(stmts[k], State());
        VisitStmt(stmts[k], names, globals, isVoid);
        if blocks[cur].term.Some? {
          return;
        }
      }
      assert stmts[|stmts|..] == [];
    }

    method VisitIf(cond: Expr, thenPart: Stmt, elsePart: Option<Stmt>, ghost names: Names, ghost globals: Globals, isVoid: bool)
      requires InScope(names, scope.inner, globals) && Resolves(If(cond, thenPart, elsePart), names, globals, isVoid)
      requires State().Open() && !curLvalue
      modifies this, scope
      ensures State() == GenStmt(If(cond, thenPart, elsePart), old(State())) && !curLvalue
      decreases If(cond, thenPart, elsePart), 0
    {
      hide InScope, GenStmt, GenCond, GenElse, ResolvesExpr, Kept, BeforeThen, AfterThen;
      ghost var G := State();
      IfGen(cond, thenPart, elsePart, G);
      ThenForked(cond, G);
      EnterInScope(names, scope.inner, globals);
      var trueBB := StartIf(cond, names, globals);
      ghost var B := State();
      VisitThen(thenPart, trueBB, names, globals, isVoid);
      StmtKept(thenPart, B);
      ThenKept(G, B, GenStmt(thenPart, B));
      VisitElse(elsePart, trueBB, names, globals, isVoid);
    }

    /** The first branch of an if, and on to the start of the second. */
    method VisitThen(thenPart: Stmt, trueBB: Block, ghost names: Names, ghost globals: Globals, isVoid: bool)
      requires InScope(names + [map[]], scope.inner, globals) && Resolves(thenPart, names + [map[]], globals, isVoid)
      requires State().Open() && !curLvalue && trueBB + 3 <= |blocks|
      modifies this, scope
      ensures State() == AfterThen(GenStmt(thenPart, old(State())), trueBB) && !curLvalue
      decreases thenPart, 4
    {
      assert scope.inner != [];
      hide InScope, GenStmt, Resolves, Kept;
      ghost var B := State();
      StmtKept(thenPart, B);
      VisitStmt(thenPart, names + [map[]], globals, isVoid);
      ScopeKept(B, State());
      scope.Exit();
      BranchIfOpen(trueBB + 2);
      cur := trueBB + 1;
    }

    /** The blocks of an if, its condition, and the start of the first branch. */
    method StartIf(cond: Expr, ghost names: Names, ghost globals: Globals) returns (trueBB: Block)
      requires InScope(names, scope.inner, globals) && ResolvesExpr(cond, names, globals) && State().Open() && !curLvalue
      modifies this, scope
      ensures trueBB == |old(blocks)| && State() == BeforeThen(cond, old(State())) && !curLvalue
    {
      hide GenCond, InScope, ResolvesExpr;
      trueBB := CreateThree();
      VisitCondition(cond, trueBB, trueBB + 1, names, globals);
      cur := trueBB;
      scope.Enter();
    }

    method VisitElse(elsePart: Option<Stmt>, trueBB: Block, ghost names: Names, ghost globals: Globals, isVoid: bool)
      requires InScope(names, scope.inner, globals) && State().Open() && !curLvalue && trueBB + 3 <= |blocks|
      requires elsePart.Some? ==> Resolves(elsePart.value, names + [map[]], globals, isVoid)
      modifies this, scope
      ensures State() == GenElse(elsePart, old(State()), trueBB) && !curLvalue
      decreases elsePart, 3
    {
      hide InScope, GenStmt, Resolves, Kept;
      if elsePart.Some? {
        EnterInScope(names, scope.inner, globals);
        scope.Enter();
        ghost var A := State();
        StmtKept(elsePart.value, A);
        VisitStmt(elsePart.value, names + [map[]], globals, isVoid);
        ScopeKept(A, State());
        scope.Exit();
        BranchIfOpen(trueBB + 2);
      } else {
        CreateBr(trueBB + 2);
      }
      cur := trueBB + 2;
    }

    method VisitWhile(cond: Expr, body: Stmt, ghost names: Names, ghost globals: Globals, isVoid: bool)
      requires InScope(names, scope.inner, globals) && Resolves(While(cond, body), names, globals, isVoid)
      requires State().Open() && !curLvalue
      modifies this, scope
      ensures State() == GenStmt(While(cond, body), old(State())) && !curLvalue
      decreases While(cond, body), 0
    {
      hide InScope, GenStmt, GenCond, ResolvesExpr, Kept;
      ghost var G := State();
      WhileGen(cond, body, G);
      BodyForked(cond, G);
      EnterInScope(names, scope.inner, globals);
      var testBB := CreateThree();
      CreateBr(testBB);
      cur := testBB;
      VisitCondition(cond, testBB + 1, testBB + 2, names, globals);
      cur := testBB + 1;
      scope.Enter();
      assert State() == BeforeBody(cond, G);
      ghost var B := State();
      StmtKept(body, B);
      VisitStmt(body, names + [map[]], globals, isVoid);
      ScopeKept(B, State());
      scope.Exit();
      BranchIfOpen(testBB);
      cur := testBB + 2;
    }

    method VisitReturn(value: Option<Expr>, ghost names: Names, ghost globals: Globals, isVoid: bool)
      requires InScope(names, scope.inner, globals) && Resolves(Stmt.Return(value), names, globals, isVoid)
      requires State().Open() && !curLvalue
      modifies this
      ensures State() == GenStmt(Stmt.Return(value), old(State())) && !curLvalue
    {
      match value
      case None => CreateRet(Const(0));
      case Some(e) =>
        VisitExpr(e, names, globals);
        CreateRet(curValue.val);
    }

    method VisitStmt(s: Stmt, ghost names: Names, ghost globals: Globals, isVoid: bool)
      requires InScope(names, scope.inner, globals) && Resolves(s, names, globals, isVoid) && State().Open() && !curLvalue
      modifies this, scope
      ensures State() == GenStmt(s, old(State())) && !curLvalue
      decreases s, 2
    {
      match s
      case ExprStmt(e) =>
        if e.Some? {
          VisitExpr(e.value, names, globals);
        }
      case Compound(decls, stmts) => VisitCompound(decls, stmts, names, globals, isVoid);
      case If(cond, thenPart, elsePart) => VisitIf(cond, thenPart, elsePart, names, globals, isVoid);
      case While(cond, body) => VisitWhile(cond, body, names, globals, isVoid);
      case Return(value) => VisitReturn(value, names, globals, isVoid);
    }

    // ----- functions -----

    /** Generates a whole function into a fresh list of blocks. */
    method VisitFunDeclaration(d: FunDecl, ghost globals: Globals)
      requires WellFormed(d, globals) && scope.inner == [GlobalScope(globals)] && !curLvalue
      modifies this, scope
      ensures State() == GenFun(d, globals) && scope.inner == [GlobalScope(globals)]
    {
      hide GenStmt, Kept, GenParams, InScope, Resolves;
      StartFunction(globals);
      VisitParams(d.params);
      ghost var G := State();
      ParamsInScope(d, globals);
      StmtKept(d.body, G);
      VisitStmt(d.body, [Declared(d.params)], globals, d.isVoid);
      ScopeKept(G, State());
      if blocks[cur].term.None? {
        CreateRet(Const(0));
      }
      scope.Exit();
    }

    /** A fresh list of blocks with the entry, and the scope of the parameters. */
    method StartFunction(ghost globals: Globals)
      requires scope.inner == [GlobalScope(globals)]
      modifies this, scope
      ensures State() == StartGen(globals) && curLvalue == old(curLvalue)
    {
      hide GlobalScope;
      blocks, nextReg, nextSlot := [], 0, 0;
      cur := CreateBlock();
      scope.Enter();
    }

    /** A cell for every parameter, with the argument stored in it. */
    method VisitParams(params: seq<string>)
      requires State().Open() && scope.inner != []
      modifies this, scope
      ensures State() == GenParams(params, 0, old(State())) && curLvalue == old(curLvalue)
    {
      ghost var G := State();
      assert params[0..] == params;
      for k := 0 to |params|
        invariant State().Open() && scope.inner != [] && curLvalue == old(curLvalue)
        invariant GenParams(params[k..], k, State()) == GenParams(params, 0, G)
      {
        ghost var G1 := State();
        assert params[k..][0] == params[k] && params[k..][1..] == params[k + 1..];
        ParamsIs(params[k..], k, G1);
        VisitParam(params[k], k);
      }
    }

    method VisitParam(id: string, k: nat)
      requires State().Open() && scope.inner != []
      modifies this`blocks, this`nextSlot, scope
      ensures State() == Param(id, k, old(State()))
    {
      var slot := nextSlot;
      nextSlot := nextSlot + 1;
      Emit(Alloca(slot, true));
      Emit(Store(Arg(k), Local(slot)));
      EmitTwice(old(State()).(nextSlot := nextSlot), [Alloca(slot, true)], [Store(Arg(k), Local(slot))]);
      assert [Alloca(slot, true)] + [Store(Arg(k), Local(slot))] == [Alloca(slot, true), Store(Arg(k), Local(slot))];
      var ok := scope.PushName(id, Cell(slot));
    }
  }
}
