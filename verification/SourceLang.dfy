// The scalar integer part of Cminusf: syntax, static scoping and meaning.
module SourceLang {
  import opened Wrappers
  import opened IR

  datatype Expr =
    | Num(n: int)
    | Var(id: string)
    | Assign(id: string, value: Expr)
    | Relation(rel: CmpOp, left: Expr, right: Expr)
    | Arith(op: ArithOp, left: Expr, right: Expr)
    | Call(id: string, args: seq<Expr>)

  datatype ArithOp = Plus | Minus | Times | Over

  datatype Stmt =
    | ExprStmt(expr: Option<Expr>)
    | Compound(decls: seq<string>, stmts: seq<Stmt>)
    | If(cond: Expr, thenPart: Stmt, elsePart: Option<Stmt>)
    | While(cond: Expr, body: Stmt)
    | Return(value: Option<Expr>)

  /** `body` is a compound statement. */
  datatype FunDecl = FunDecl(params: seq<string>, isVoid: bool, body: Stmt)

  /** What a global name stands for. */
  datatype GlobalDef = GlobalVar(address: int) | GlobalFun(callee: nat)

  type Globals = map<string, GlobalDef>

  // ----- scoping -----

  /** The innermost level that has the name. */
  function LevelOf<T>(stack: seq<map<string, T>>, name: string): (k: Option<nat>)
    ensures k.Some? ==> k.value < |stack| && name in stack[k.value]
  {
    if stack == [] then None
    else if name in stack[|stack| - 1] then Some(|stack| - 1)
    else LevelOf(stack[..|stack| - 1], name)
  }

  /** LevelOf really is the greatest level with the name. */
  lemma {:induction false} LevelIsInnermost<T>(stack: seq<map<string, T>>, name: string, j: nat)
    requires j < |stack| && name in stack[j]
    ensures LevelOf(stack, name).Some? && j <= LevelOf(stack, name).value
  {
    if name !in stack[|stack| - 1] {
      assert stack[..|stack| - 1][j] == stack[j];
      LevelIsInnermost(stack[..|stack| - 1], name, j);
    }
  }

  /** The level depends on the names alone. */
  lemma {:induction false} SameNamesSameLevel<T, U>(a: seq<map<string, T>>, b: seq<map<string, U>>, name: string)
    requires |a| == |b| && forall k :: 0 <= k < |a| ==> a[k].Keys == b[k].Keys
    ensures LevelOf(a, name) == LevelOf(b, name)
  {
    if a != [] {
      var n := |a| - 1;
      assert a[n].Keys == b[n].Keys;
      forall k | 0 <= k < n ensures a[..n][k].Keys == b[..n][k].Keys { assert a[k].Keys == b[k].Keys; }
      SameNamesSameLevel(a[..n], b[..n], name);
    }
  }

  /** The names declared on each level; all that scoping depends on. */
  type Names = seq<map<string, ()>>

  function Declared(decls: seq<string>): map<string, ()> {
    map x | x in decls :: ()
  }

  predicate VarVisible(id: string, names: Names, globals: Globals) {
    LevelOf(names, id).Some? || (id in globals && globals[id].GlobalVar?)
  }

  predicate ResolvesExpr(e: Expr, names: Names, globals: Globals) {
    match e
    case Num(_) => true
    case Var(id) => VarVisible(id, names, globals)
    case Assign(id, value) => VarVisible(id, names, globals) && ResolvesExpr(value, names, globals)
    case Relation(_, l, r) => ResolvesExpr(l, names, globals) && ResolvesExpr(r, names, globals)
    case Arith(_, l, r) => ResolvesExpr(l, names, globals) && ResolvesExpr(r, names, globals)
    case Call(id, args) =>
      LevelOf(names, id) == None && id in globals && globals[id].GlobalFun? && ResolvesAll(args, names, globals)
  }

  predicate ResolvesAll(es: seq<Expr>, names: Names, globals: Globals) {
    es == [] || (ResolvesExpr(es[0], names, globals) && ResolvesAll(es[1..], names, globals))
  }

  /** Statements after which the generator stops visiting the enclosing list. */
  predicate Terminates(s: Stmt) {
    match s
    case Return(_) => true
    case Compound(_, stmts) => TerminatesList(stmts)
    case _ => false
  }

  predicate TerminatesList(stmts: seq<Stmt>) {
    stmts != [] && (Terminates(stmts[0]) || TerminatesList(stmts[1..]))
  }

  /** Every name the generator looks up is bound to the right kind of thing, and returns fit the
      function; statements it never visits are not looked at. */
  predicate Resolves(s: Stmt, names: Names, globals: Globals, isVoid: bool) {
    match s
    case ExprStmt(e) => e.Some? ==> ResolvesExpr(e.value, names, globals)
    case Compound(decls, stmts) => ResolvesList(stmts, names + [Declared(decls)], globals, isVoid)
    case If(cond, thenPart, elsePart) =>
      && ResolvesExpr(cond, names, globals)
      && Resolves(thenPart, names + [map[]], globals, isVoid)
      && (match elsePart case None => true case Some(e) => Resolves(e, names + [map[]], globals, isVoid))
    case While(cond, body) => ResolvesExpr(cond, names, globals) && Resolves(body, names + [map[]], globals, isVoid)
    case Return(value) => value.None? == isVoid && (value.Some? ==> ResolvesExpr(value.value, names, globals))
  }

  predicate ResolvesList(stmts: seq<Stmt>, names: Names, globals: Globals, isVoid: bool) {
    stmts == []
    || (Resolves(stmts[0], names, globals, isVoid)
        && (Terminates(stmts[0]) || ResolvesList(stmts[1..], names, globals, isVoid)))
  }

  predicate WellFormed(d: FunDecl, globals: Globals) {
    d.body.Compound? && Resolves(d.body, [Declared(d.params)], globals, d.isVoid)
  }

  // ----- meaning -----

  /** The variables of one block; None while uninitialised. */
  type Frame = map<string, Option<int>>

  datatype SrcState = SrcState(frames: seq<Frame>, world: World)

  function Read(st: SrcState, id: string, globals: Globals): Option<int> {
    match LevelOf(st.frames, id)
    case Some(k) => st.frames[k][id]
    case None =>
      if id in globals && globals[id].GlobalVar? && globals[id].address in st.world.memory
      then Some(st.world.memory[globals[id].address]) else None
  }

  function Write(st: SrcState, id: string, v: int, globals: Globals): Option<SrcState> {
    match LevelOf(st.frames, id)
    case Some(k) => Some(st.(frames := st.frames[k := st.frames[k][id := Some(v)]]))
    case None =>
      if id in globals && globals[id].GlobalVar?
      then Some(st.(world := st.world.(memory := st.world.memory[globals[id].address := v]))) else None
  }

  function OpOf(op: ArithOp): BinOp {
    match op case Plus => Add case Minus => Sub case Times => Mul case Over => SDiv
  }

  /** Operands are evaluated from left to right; an assignment has the value assigned. */
  function EvalExpr(e: Expr, globals: Globals, ext: Oracle, st: SrcState): Option<(int, SrcState)> {
    match e
    case Num(n) => Some((n, st))
    case Var(id) =>
      var v :- Read(st, id, globals);
      Some((v, st))
    case Assign(id, value) =>
      var r :- EvalExpr(value, globals, ext, st);
      var st' :- Write(r.1, id, r.0, globals);
      Some((r.0, st'))
    case Relation(rel, left, right) =>
      var a :- EvalExpr(left, globals, ext, st);
      var b :- EvalExpr(right, globals, ext, a.1);
      Some((if Compare(rel, a.0, b.0) then 1 else 0, b.1))
    case Arith(op, left, right) =>
      var a :- EvalExpr(left, globals, ext, st);
      var b :- EvalExpr(right, globals, ext, a.1);
      var v :- Compute(OpOf(op), a.0, b.0);
      Some((v, b.1))
    case Call(id, args) =>
      var r :- EvalArgs(args, globals, ext, st);
      if LevelOf(r.1.frames, id).None? && id in globals && globals[id].GlobalFun? then
        var c :- ext(globals[id].callee, r.0, r.1.world);
        Some((c.0, r.1.(world := c.1)))
      else None
  }

  function EvalArgs(es: seq<Expr>, globals: Globals, ext: Oracle, st: SrcState): Option<(seq<int>, SrcState)> {
    if es == [] then Some(([], st))
    else
      var v :- EvalExpr(es[0], globals, ext, st);
      var vs :- EvalArgs(es[1..], globals, ext, v.1);
      Some(([v.0] + vs.0, vs.1))
  }

  datatype Flow = Normal(state: SrcState) | Returns(val: int, world: World) | Wrong | OutOfFuel

  function Enter(st: SrcState, frame: Frame): SrcState {
    st.(frames := st.frames + [frame])
  }

  function Leave(flow: Flow): Flow {
    match flow
    case Normal(st) => if st.frames == [] then Wrong else Normal(st.(frames := st.frames[..|st.frames| - 1]))
    case _ => flow
  }

  function Fresh(decls: seq<string>): Frame {
    map x | x in decls :: None
  }

  /** Loops turn at most `fuel` times; `return;` yields 0 by convention. */
  function ExecStmt(s: Stmt, globals: Globals, ext: Oracle, st: SrcState, fuel: nat): Flow
    decreases fuel, s
  {
    match s
    case ExprStmt(None) => Normal(st)
    case ExprStmt(Some(e)) =>
      (match EvalExpr(e, globals, ext, st) case None => Wrong case Some(r) => Normal(r.1))
    case Compound(decls, stmts) => Leave(ExecList(stmts, globals, ext, Enter(st, Fresh(decls)), fuel))
    case If(cond, thenPart, elsePart) =>
      (match EvalExpr(cond, globals, ext, st)
       case None => Wrong
       case Some(r) =>
         if r.0 != 0 then Leave(ExecStmt(thenPart, globals, ext, Enter(r.1, map[]), fuel))
         else match elsePart
           case None => Normal(r.1)
           case Some(e) => Leave(ExecStmt(e, globals, ext, Enter(r.1, map[]), fuel)))
    case While(cond, body) =>
      if fuel == 0 then OutOfFuel
      else (match EvalExpr(cond, globals, ext, st)
        case None => Wrong
        case Some(r) =>
          if r.0 == 0 then Normal(r.1)
          else match Leave(ExecStmt(body, globals, ext, Enter(r.1, map[]), fuel))
            case Normal(st') => ExecStmt(s, globals, ext, st', fuel - 1)
            case flow => flow)
    case Return(None) => Returns(0, st.world)
    case Return(Some(e)) =>
      (match EvalExpr(e, globals, ext, st) case None => Wrong case Some(r) => Returns(r.0, r.1.world))
  }

  function ExecList(stmts: seq<Stmt>, globals: Globals, ext: Oracle, st: SrcState, fuel: nat): Flow
    decreases fuel, stmts
  {
    if stmts == [] then Normal(st)
    else match ExecStmt(stmts[0], globals, ext, st, fuel)
      case Normal(st') => ExecList(stmts[1..], globals, ext, st', fuel)
      case flow => flow
  }

  /** The arguments, by parameter name; of parameters with the same name the first counts. */
  function Bind(params: seq<string>, args: seq<int>): Frame
    requires |params| <= |args|
  {
    if params == [] then map[] else Bind(params[1..], args[1..])[params[0] := Some(args[0])]
  }

  /** A call; falling off the end returns 0. */
  function Invoke(d: FunDecl, globals: Globals, ext: Oracle, args: seq<int>, w: World, fuel: nat): Flow
    requires |d.params| == |args|
  {
    match ExecStmt(d.body, globals, ext, SrcState([Bind(d.params, args)], w), fuel)
    case Normal(st) => Returns(0, st.world)
    case flow => flow
  }
}
