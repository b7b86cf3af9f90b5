// The code of an expression computes what the expression means.
module CodeExpr {
  import opened Wrappers
  import opened Cfg
  import opened IR
  import opened SourceLang
  import opened CodeSpec
  import opened CodeFrame

  /** Every local name has a cell of its own, below `limit`. */
  ghost predicate Apart(locals: Scopes, limit: nat) {
    && (forall k, x :: 0 <= k < |locals| && x in locals[k] ==> locals[k][x].Cell? && locals[k][x].slot < limit)
    && (forall k, x, j, y :: 0 <= k < |locals| && x in locals[k] && 0 <= j < |locals| && y in locals[j] ==>
          (locals[k][x] == locals[j][y] ==> k == j && x == y))
  }

  /** Local names have cells, and the names outside are the globals. */
  ghost predicate Scoping(scope: Scopes, globals: Globals, limit: nat) {
    scope != [] && scope[0] == GlobalScope(globals) && Apart(scope[1..], limit)
  }

  /** The scopes declare exactly these names. */
  ghost predicate Fits(names: Names, scope: Scopes) {
    |scope| == |names| + 1 && forall k :: 0 <= k < |names| ==> scope[1..][k].Keys == names[k].Keys
  }

  /** The cell of a variable holds its value, or nothing while it has none. */
  predicate Holds(cells: map<nat, int>, b: Binding, v: Option<int>) {
    b.Cell? && (if v.Some? then b.slot in cells && cells[b.slot] == v.value else b.slot !in cells)
  }

  /** The cells of the locals hold the values in the frames. */
  ghost predicate Mirrors(locals: Scopes, frames: seq<Frame>, cells: map<nat, int>) {
    && |locals| == |frames|
    && (forall k :: 0 <= k < |frames| ==> locals[k].Keys == frames[k].Keys)
    && (forall k, x :: 0 <= k < |frames| && x in frames[k] ==> Holds(cells, locals[k][x], frames[k][x]))
  }

  /** Source variables and machine cells agree, and so do the worlds. */
  ghost predicate Related(scope: Scopes, globals: Globals, limit: nat, st: SrcState, S: State) {
    && st.world == S.world
    && Scoping(scope, globals, limit) && Mirrors(scope[1..], st.frames, S.cells)
  }

  // ----- lookup -----

  lemma {:induction false} LevelWithOuter<T>(stack: seq<map<string, T>>, name: string)
    requires stack != []
    ensures LevelOf(stack, name) == match LevelOf(stack[1..], name)
            case Some(k) => Some(k + 1)
            case None => if name in stack[0] then Some(0) else None
    decreases |stack|
  {
    var n := |stack| - 1;
    if n == 0 {
      assert stack[..0] == [] && stack[1..] == [];
    } else if name !in stack[n] {
      assert stack[..n][1..] == stack[1..][..n - 1];
      LevelWithOuter(stack[..n], name);
    }
  }

  lemma FindIs(scope: Scopes, globals: Globals, limit: nat, st: SrcState, S: State, id: string)
    requires Related(scope, globals, limit, st, S)
    ensures match LevelOf(st.frames, id)
            case Some(k) => k + 1 < |scope| && id in scope[k + 1] && Find(scope, id) == Some(scope[k + 1][id])
            case None => Find(scope, id) == if id in globals then Some(GlobalScope(globals)[id]) else None
  {
    LevelWithOuter(scope, id);
    SameNamesSameLevel(scope[1..], st.frames, id);
  }

  lemma VisibleIs(names: Names, scope: Scopes, globals: Globals, limit: nat, st: SrcState, S: State, id: string)
    requires Related(scope, globals, limit, st, S) && Fits(names, scope)
    ensures LevelOf(names, id) == LevelOf(st.frames, id)
  {
    SameNamesSameLevel(names, st.frames, id);
  }

  lemma ReadSim(scope: Scopes, globals: Globals, limit: nat, st: SrcState, S: State, id: string, r: nat, args: seq<int>, ext: Oracle)
    requires Related(scope, globals, limit, st, S)
    ensures Exec(Load(r, Locate(scope, id)), args, ext, S)
         == match Read(st, id, globals) case None => None case Some(v) => Some(S.(env := S.env[r := v]))
  {
    FindIs(scope, globals, limit, st, S, id);
    match LevelOf(st.frames, id)
    case Some(k) => assert scope[1..][k] == scope[k + 1] && Holds(S.cells, scope[1..][k][id], st.frames[k][id]);
    case None =>
  }

  lemma WriteSim(scope: Scopes, globals: Globals, limit: nat, st: SrcState, S: State, id: string,
                 val: Operand, v: int, args: seq<int>, ext: Oracle)
    requires Related(scope, globals, limit, st, S) && Eval(val, args, S.env) == Some(v)
    ensures var r := Exec(Store(val, Locate(scope, id)), args, ext, S);
            match Write(st, id, v, globals)
            case None => r == None
            case Some(st') => r.Some? && r.value.env == S.env && Related(scope, globals, limit, st', r.value)
  {
    FindIs(scope, globals, limit, st, S, id);
    match LevelOf(st.frames, id)
    case None =>
    case Some(k) =>
      assert scope[1..][k] == scope[k + 1];
      MirrorsWrite(scope[1..], limit, st.frames, S.cells, k, id, v);
  }

  lemma MirrorsWrite(locals: Scopes, limit: nat, frames: seq<Frame>, cells: map<nat, int>, k: nat, id: string, v: int)
    requires Apart(locals, limit) && Mirrors(locals, frames, cells) && k < |frames| && id in frames[k]
    ensures locals[k][id].Cell?
    ensures Mirrors(locals, frames[k := frames[k][id := Some(v)]], cells[locals[k][id].slot := v])
  {
    assert Holds(cells, locals[k][id], frames[k][id]);
  }

  // ----- running code -----

  /** Registers below the limit are as before. */
  ghost predicate Same(env: Env, env': Env, limit: nat) {
    forall r :: r < limit ==> (r in env <==> r in env') && (r in env ==> env[r] == env'[r])
  }

  lemma SameEval(o: Operand, limit: nat, args: seq<int>, env: Env, env': Env)
    requires Older(o, limit) && Same(env, env', limit)
    ensures Eval(o, args, env) == Eval(o, args, env')
  {
  }

  /** The code c, run from S, computes r; registers below `next` keep their values. */
  ghost predicate Computes(c: Code, scope: Scopes, globals: Globals, limit: nat, next: nat, S: State,
                           r: Option<(int, SrcState)>, args: seq<int>, ext: Oracle)
  {
    && next <= c.next && Older(c.val, c.next)
    && match r
       case None => ExecAll(c.instrs, args, ext, S) == None
       case Some((v, st)) =>
         var run := ExecAll(c.instrs, args, ext, S);
         && run.Some? && Related(scope, globals, limit, st, run.value)
         && Eval(c.val, args, run.value.env) == Some(v) && Same(S.env, run.value.env, next)
  }

  /** Code followed by one instruction that defines a new register. */
  lemma ComputesThen(c: Code, scope: Scopes, globals: Globals, limit: nat, next: nat, S: State,
                     r: Option<(int, SrcState)>, i: Instr, args: seq<int>, ext: Oracle)
    requires Computes(c, scope, globals, limit, next, S, r, args, ext)
    ensures r == None ==> ExecAll(c.instrs + [i], args, ext, S) == None
    ensures r.Some? ==> ExecAll(c.instrs + [i], args, ext, S) == Exec(i, args, ext, ExecAll(c.instrs, args, ext, S).value)
  {
    hide Scoping, Mirrors;
    ExecConcat(c.instrs, [i], args, ext, S);
    if r.Some? { ExecOne(i, args, ext, ExecAll(c.instrs, args, ext, S).value); }
  }

  /** The code of both operands, left to right: both values stand at its end. */
  ghost predicate Both(a: Code, b: Code, scope: Scopes, globals: Globals, limit: nat, next: nat, S: State,
                       ra: Option<(int, SrcState)>, rb: Option<(int, SrcState)>, args: seq<int>, ext: Oracle)
  {
    var c := Code(a.instrs + b.instrs, b.val, b.next);
    && Computes(c, scope, globals, limit, next, S, if ra == None then None else rb, args, ext)
    && (ra.Some? && rb.Some? ==> Eval(a.val, args, ExecAll(c.instrs, args, ext, S).value.env) == Some(ra.value.0))
  }

  lemma TwoOperands(a: Code, b: Code, scope: Scopes, globals: Globals, limit: nat, next: nat, S: State,
                    ra: Option<(int, SrcState)>, rb: Option<(int, SrcState)>, args: seq<int>, ext: Oracle)
    requires Computes(a, scope, globals, limit, next, S, ra, args, ext)
    requires ra.Some? ==> Computes(b, scope, globals, limit, a.next, ExecAll(a.instrs, args, ext, S).value, rb, args, ext)
    requires a.next <= b.next && Older(b.val, b.next)
    ensures Both(a, b, scope, globals, limit, next, S, ra, rb, args, ext)
  {
    hide Scoping, Mirrors;
    ExecConcat(a.instrs, b.instrs, args, ext, S);
    if ra.Some? && rb.Some? {
      var S1 := ExecAll(a.instrs, args, ext, S).value;
      var S2 := ExecAll(b.instrs, args, ext, S1).value;
      SameEval(a.val, a.next, args, S1.env, S2.env);
    }
  }

  function EvalAfter(r: Option<(int, SrcState)>, e: Expr, globals: Globals, ext: Oracle): Option<(int, SrcState)> {
    if r == None then None else EvalExpr(e, globals, ext, r.value.1)
  }

  /** The code of an expression computes it: same value, same effects, stuck exactly when the
      source is. */
  lemma {:induction false} ExprSim(e: Expr, names: Names, scope: Scopes, globals: Globals, limit: nat, next: nat,
                                   st: SrcState, S: State, args: seq<int>, ext: Oracle)
    requires Related(scope, globals, limit, st, S) && Fits(names, scope) && ResolvesExpr(e, names, globals)
    ensures Computes(ExprCode(e, scope, next), scope, globals, limit, next, S, EvalExpr(e, globals, ext, st), args, ext)
    decreases e, 1
  {
    hide Scoping, Mirrors;
    match e
    case Num(_) =>
    case Var(id) => VarSim(id, scope, globals, limit, next, st, S, args, ext);
    case Assign(id, value) =>
      ExprSim(value, names, scope, globals, limit, next, st, S, args, ext);
      AssignSim(id, value, scope, globals, limit, next, st, S, args, ext);
    case Relation(rel, left, right) =>
      OperandsSim(e, left, right, names, scope, globals, limit, next, st, S, args, ext);
      RelationSim(rel, left, right, scope, globals, limit, next, st, S, args, ext);
    case Arith(op, left, right) =>
      OperandsSim(e, left, right, names, scope, globals, limit, next, st, S, args, ext);
      ArithSim(op, left, right, scope, globals, limit, next, st, S, args, ext);
    case Call(id, es) =>
      ArgsSim(es, names, scope, globals, limit, next, st, S, args, ext);
      CallSim(id, es, names, scope, globals, limit, next, st, S, args, ext);
  }

  lemma VarSim(id: string, scope: Scopes, globals: Globals, limit: nat, next: nat,
               st: SrcState, S: State, args: seq<int>, ext: Oracle)
    requires Related(scope, globals, limit, st, S)
    ensures Computes(ExprCode(Var(id), scope, next), scope, globals, limit, next, S, EvalExpr(Var(id), globals, ext, st), args, ext)
  {
    hide Scoping, Mirrors;
    ReadSim(scope, globals, limit, st, S, id, next, args, ext);
    ExecOne(Load(next, Locate(scope, id)), args, ext, S);
  }

  lemma OperandsSim(whole: Expr, left: Expr, right: Expr, names: Names, scope: Scopes, globals: Globals, limit: nat, next: nat,
                    st: SrcState, S: State, args: seq<int>, ext: Oracle)
    requires Related(scope, globals, limit, st, S) && Fits(names, scope)
    requires left < whole && right < whole && ResolvesExpr(left, names, globals) && ResolvesExpr(right, names, globals)
    ensures var a, ra := ExprCode(left, scope, next), EvalExpr(left, globals, ext, st);
            Both(a, ExprCode(right, scope, a.next), scope, globals, limit, next, S, ra, EvalAfter(ra, right, globals, ext), args, ext)
    decreases whole, 0
  {
    hide Scoping, Mirrors;
    var a := ExprCode(left, scope, next);
    var ra := EvalExpr(left, globals, ext, st);
    ExprSim(left, names, scope, globals, limit, next, st, S, args, ext);
    ExprShape(right, scope, a.next);
    if ra.Some? {
      ExprSim(right, names, scope, globals, limit, a.next, ra.value.1, ExecAll(a.instrs, args, ext, S).value, args, ext);
    }
    TwoOperands(a, ExprCode(right, scope, a.next), scope, globals, limit, next, S, ra, EvalAfter(ra, right, globals, ext), args, ext);
  }

  lemma AssignSim(id: string, value: Expr, scope: Scopes, globals: Globals, limit: nat, next: nat,
                  st: SrcState, S: State, args: seq<int>, ext: Oracle)
    requires Computes(ExprCode(value, scope, next), scope, globals, limit, next, S, EvalExpr(value, globals, ext, st), args, ext)
    ensures Computes(ExprCode(Assign(id, value), scope, next), scope, globals, limit, next, S,
                     EvalExpr(Assign(id, value), globals, ext, st), args, ext)
  {
    hide Scoping, Mirrors;
    var c := ExprCode(value, scope, next);
    var r := EvalExpr(value, globals, ext, st);
    ComputesThen(c, scope, globals, limit, next, S, r, Store(c.val, Locate(scope, id)), args, ext);
    if r.Some? {
      WriteSim(scope, globals, limit, r.value.1, ExecAll(c.instrs, args, ext, S).value, id, c.val, r.value.0, args, ext);
    }
  }

  /** One operation on two operands. */
  lemma BinSim(op: BinOp, a: Code, b: Code, scope: Scopes, globals: Globals, limit: nat, next: nat, S: State,
               ra: Option<(int, SrcState)>, rb: Option<(int, SrcState)>, args: seq<int>, ext: Oracle)
    requires Both(a, b, scope, globals, limit, next, S, ra, rb, args, ext)
    ensures var v := if ra == None || rb == None then None else Compute(op, ra.value.0, rb.value.0);
            Computes(Code(a.instrs + b.instrs + [Bin(b.next, op, a.val, b.val)], Reg(b.next), b.next + 1),
                     scope, globals, limit, next, S, if v == None then None else Some((v.value, rb.value.1)), args, ext)
  {
    hide Scoping, Mirrors;
    var c := Code(a.instrs + b.instrs, b.val, b.next);
    ComputesThen(c, scope, globals, limit, next, S, if ra == None then None else rb, Bin(b.next, op, a.val, b.val), args, ext);
  }

  /** A truth value widened to i32. */
  lemma ZextSim(c: Code, scope: Scopes, globals: Globals, limit: nat, next: nat, S: State,
                r: Option<(int, SrcState)>, args: seq<int>, ext: Oracle)
    requires Computes(c, scope, globals, limit, next, S, r, args, ext)
    ensures Computes(Code(c.instrs + [Zext(c.next, c.val)], Reg(c.next), c.next + 1), scope, globals, limit, next, S, r, args, ext)
  {
    hide Scoping, Mirrors;
    ComputesThen(c, scope, globals, limit, next, S, r, Zext(c.next, c.val), args, ext);
  }

  lemma ArithSim(op: ArithOp, left: Expr, right: Expr, scope: Scopes, globals: Globals, limit: nat, next: nat,
                 st: SrcState, S: State, args: seq<int>, ext: Oracle)
    requires var a, ra := ExprCode(left, scope, next), EvalExpr(left, globals, ext, st);
             Both(a, ExprCode(right, scope, a.next), scope, globals, limit, next, S, ra, EvalAfter(ra, right, globals, ext), args, ext)
    ensures Computes(ExprCode(Arith(op, left, right), scope, next), scope, globals, limit, next, S,
                     EvalExpr(Arith(op, left, right), globals, ext, st), args, ext)
  {
    hide Scoping, Mirrors;
    var a, ra := ExprCode(left, scope, next), EvalExpr(left, globals, ext, st);
    BinSim(OpOf(op), a, ExprCode(right, scope, a.next), scope, globals, limit, next, S, ra, EvalAfter(ra, right, globals, ext), args, ext);
  }

  lemma RelationSim(rel: CmpOp, left: Expr, right: Expr, scope: Scopes, globals: Globals, limit: nat, next: nat,
                    st: SrcState, S: State, args: seq<int>, ext: Oracle)
    requires var a, ra := ExprCode(left, scope, next), EvalExpr(left, globals, ext, st);
             Both(a, ExprCode(right, scope, a.next), scope, globals, limit, next, S, ra, EvalAfter(ra, right, globals, ext), args, ext)
    ensures Computes(ExprCode(Relation(rel, left, right), scope, next), scope, globals, limit, next, S,
                     EvalExpr(Relation(rel, left, right), globals, ext, st), args, ext)
  {
    hide Computes, Both, Scoping, Mirrors;
    var a, ra := ExprCode(left, scope, next), EvalExpr(left, globals, ext, st);
    var b := ExprCode(right, scope, a.next);
    BinSim(Cmp(rel), a, b, scope, globals, limit, next, S, ra, EvalAfter(ra, right, globals, ext), args, ext);
    var c := Code(a.instrs + b.instrs + [Bin(b.next, Cmp(rel), a.val, b.val)], Reg(b.next), b.next + 1);
    ZextSim(c, scope, globals, limit, next, S, EvalExpr(Relation(rel, left, right), globals, ext, st), args, ext);
    assert c.instrs + [Zext(c.next, c.val)] == ExprCode(Relation(rel, left, right), scope, next).instrs;
  }

  /** The same for argument lists. */
  ghost predicate ComputesAll(c: Codes, scope: Scopes, globals: Globals, limit: nat, next: nat, S: State,
                              r: Option<(seq<int>, SrcState)>, args: seq<int>, ext: Oracle)
  {
    && next <= c.next
    && match r
       case None => ExecAll(c.instrs, args, ext, S) == None
       case Some((vs, st)) =>
         var run := ExecAll(c.instrs, args, ext, S);
         && run.Some? && Related(scope, globals, limit, st, run.value)
         && EvalAll(c.vals, args, run.value.env) == Some(vs) && Same(S.env, run.value.env, next)
  }

  lemma {:induction false} ArgsSim(es: seq<Expr>, names: Names, scope: Scopes, globals: Globals, limit: nat, next: nat,
                                   st: SrcState, S: State, args: seq<int>, ext: Oracle)
    requires Related(scope, globals, limit, st, S) && Fits(names, scope) && ResolvesAll(es, names, globals)
    ensures ComputesAll(ArgsCode(es, scope, next), scope, globals, limit, next, S, EvalArgs(es, globals, ext, st), args, ext)
    decreases es, 1
  {
    hide Scoping, Mirrors;
    if es != [] {
      var c := ExprCode(es[0], scope, next);
      var cs := ArgsCode(es[1..], scope, c.next);
      ExprSim(es[0], names, scope, globals, limit, next, st, S, args, ext);
      ArgsShape(es[1..], scope, c.next);
      ExecConcat(c.instrs, cs.instrs, args, ext, S);
      var r := EvalExpr(es[0], globals, ext, st);
      if r.Some? {
        var S1 := ExecAll(c.instrs, args, ext, S).value;
        ArgsSim(es[1..], names, scope, globals, limit, c.next, r.value.1, S1, args, ext);
        var rs := EvalArgs(es[1..], globals, ext, r.value.1);
        if rs.Some? {
          SameEval(c.val, c.next, args, S1.env, ExecAll(cs.instrs, args, ext, S1).value.env);
          assert ([c.val] + cs.vals)[1..] == cs.vals;
        }
      }
    }
  }

  lemma CallSim(id: string, es: seq<Expr>, names: Names, scope: Scopes, globals: Globals, limit: nat, next: nat,
                st: SrcState, S: State, args: seq<int>, ext: Oracle)
    requires Fits(names, scope) && ResolvesExpr(Expr.Call(id, es), names, globals)
    requires ComputesAll(ArgsCode(es, scope, next), scope, globals, limit, next, S, EvalArgs(es, globals, ext, st), args, ext)
    ensures Computes(ExprCode(Expr.Call(id, es), scope, next), scope, globals, limit, next, S,
                     EvalExpr(Expr.Call(id, es), globals, ext, st), args, ext)
  {
    hide Scoping, Mirrors, Fits, LevelOf, ArgsCode, EvalArgs;
    var c, r := ArgsCode(es, scope, next), EvalArgs(es, globals, ext, st);
    var i := Instr.Call(c.next, Callee(scope, id), c.vals);
    ExecConcat(c.instrs, [i], args, ext, S);
    if r.Some? {
      var S1 := ExecAll(c.instrs, args, ext, S).value;
      ExecOne(i, args, ext, S1);
      FindIs(scope, globals, limit, r.value.1, S1, id);
      VisibleIs(names, scope, globals, limit, r.value.1, S1, id);
    }
  }

  /** A condition computes 1 or 0. */
  lemma CondSim(e: Expr, names: Names, scope: Scopes, globals: Globals, limit: nat, next: nat,
                st: SrcState, S: State, args: seq<int>, ext: Oracle)
    requires Related(scope, globals, limit, st, S) && Fits(names, scope) && ResolvesExpr(e, names, globals)
    ensures var r := EvalExpr(e, globals, ext, st);
            Computes(CondCode(e, scope, next), scope, globals, limit, next, S,
                     if r == None then None else Some((if r.value.0 != 0 then 1 else 0, r.value.1)), args, ext)
  {
    hide ExprCode, EvalExpr, ResolvesExpr, Scoping, Mirrors;
    var c, r := ExprCode(e, scope, next), EvalExpr(e, globals, ext, st);
    ExprSim(e, names, scope, globals, limit, next, st, S, args, ext);
    ComputesThen(c, scope, globals, limit, next, S, r, Bin(c.next, Cmp(NE), c.val, Const(0)), args, ext);
  }
}
