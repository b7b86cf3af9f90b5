// What expressions mean, in arithmetic alone: of the source, and of the code generated for it.
module CodeLaws {
  import opened Wrappers
  import opened IR
  import opened ArithLaws
  import opened SourceLang
  import opened CodeSpec
  import opened CodeExpr

  // ----- the source -----

  /** What an operation that stands in the source gives for the values of its operands. */
  predicate Means(e: Expr, a: int, b: int, r: Option<int>)
    requires e.Arith? || e.Relation?
  {
    match e
    case Arith(Plus, _, _) => r == Some(a + b)
    case Arith(Minus, _, _) => r == Some(a - b)
    case Arith(Times, _, _) => r == Some(a * b)
    case Arith(Over, _, _) => if b == 0 then r == None else r.Some? && Truncated(a, b, r.value)
    case Relation(EQ, _, _) => r == Some(if a == b then 1 else 0)
    case Relation(NE, _, _) => r == Some(if a == b then 0 else 1)
    case Relation(GT, _, _) => r == Some(if a > b then 1 else 0)
    case Relation(GE, _, _) => r == Some(if a < b then 0 else 1)
    case Relation(LT, _, _) => r == Some(if a < b then 1 else 0)
    case Relation(LE, _, _) => r == Some(if a > b then 0 else 1)
  }

  /** Operands are evaluated from left to right, and combined by the operation that stands there. */
  lemma OperationMeans(e: Expr, globals: Globals, ext: Oracle, st: SrcState, a: int, st1: SrcState, b: int, st2: SrcState)
    requires e.Arith? || e.Relation?
    requires EvalExpr(e.left, globals, ext, st) == Some((a, st1)) && EvalExpr(e.right, globals, ext, st1) == Some((b, st2))
    ensures var r := EvalExpr(e, globals, ext, st);
            Means(e, a, b, if r == None then None else Some(r.value.0)) && (r.Some? ==> r.value.1 == st2)
  {
    hide Truncated, Quotient;
    if e.Arith? && b != 0 { QuotientTruncates(a, b); }
  }

  /** What is written to a variable is read from it, and other variables keep their values: those of other names,
      unless both are globals at one address. */
  lemma WriteThenRead(st: SrcState, id: string, v: int, globals: Globals, st': SrcState, x: string)
    requires Write(st, id, v, globals) == Some(st')
    ensures Read(st', id, globals) == Some(v)
    ensures x != id && (LevelOf(st.frames, x).None? && LevelOf(st.frames, id).None? && x in globals && globals[x].GlobalVar?
                        ==> globals[x].address != globals[id].address)
            ==> Read(st', x, globals) == Read(st, x, globals)
    ensures |st'.frames| == |st.frames| && forall k :: 0 <= k < |st.frames| ==> st'.frames[k].Keys == st.frames[k].Keys
  {
    SameNamesSameLevel(st.frames, st'.frames, id);
    SameNamesSameLevel(st.frames, st'.frames, x);
  }

  // ----- the code generated -----

  /** Running the code of an operation on operands with the values a and b leaves the value that the operation means
      in the operand of the code; where it means none, the run is stuck. */
  lemma OperationCode(e: Expr, names: Names, scope: Scopes, globals: Globals, limit: nat, next: nat,
                      st: SrcState, S: State, args: seq<int>, ext: Oracle, a: int, st1: SrcState, b: int, st2: SrcState)
    requires e.Arith? || e.Relation?
    requires Related(scope, globals, limit, st, S) && Fits(names, scope) && ResolvesExpr(e, names, globals)
    requires EvalExpr(e.left, globals, ext, st) == Some((a, st1)) && EvalExpr(e.right, globals, ext, st1) == Some((b, st2))
    ensures var c := ExprCode(e, scope, next); var run := ExecAll(c.instrs, args, ext, S);
            && Means(e, a, b, if run == None then None else Eval(c.val, args, run.value.env))
            && (run.Some? ==> Eval(c.val, args, run.value.env).Some? && Related(scope, globals, limit, st2, run.value))
  {
    hide Truncated, Quotient, Scoping, Mirrors, ExprCode, EvalExpr, Related, Means, ResolvesExpr;
    OperationMeans(e, globals, ext, st, a, st1, b, st2);
    ExprSim(e, names, scope, globals, limit, next, st, S, args, ext);
  }
}
