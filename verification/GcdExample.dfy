// A function compiled from its source, and what it computes in terms of numbers alone: Euclid's algorithm.
module GcdExample {
  import opened Wrappers
  import opened IR
  import opened ArithLaws
  import opened SourceLang
  import opened CodeSpec
  import opened CodeTheorem

  /** `int gcd(int a, int b) { while (b) { int t; t = a - a / b * b; a = b; b = t; } return a; }` */
  const SOURCE := FunDecl(["a", "b"], false, Compound([], [LOOP, RESULT]))
  const LOOP := While(Var("b"), BODY)
  const BODY := Compound(["t"], [SET_T, SET_A, SET_B])
  const SET_T := ExprStmt(Some(Assign("t", Arith(Minus, Var("a"), Arith(Times, Arith(Over, Var("a"), Var("b")), Var("b"))))))
  const SET_A := ExprStmt(Some(Assign("a", Var("b"))))
  const SET_B := ExprStmt(Some(Assign("b", Var("t"))))
  const RESULT := Stmt.Return(Some(Var("a")))

  // ----- divisors -----

  ghost predicate Divides(d: int, n: int) {
    exists k: int :: n == d * k
  }

  /** g divides both numbers, and each common divisor divides g. */
  ghost predicate IsGcd(a: int, b: int, g: int) {
    Divides(g, a) && Divides(g, b) && forall d: int :: Divides(d, a) && Divides(d, b) ==> Divides(d, g)
  }

  lemma DividesSum(d: int, m: int, n: int, q: int)
    requires Divides(d, m) && Divides(d, n)
    ensures Divides(d, m + n * q)
  {
    var j: int :| m == d * j;
    var k: int :| n == d * k;
    assert m + n * q == d * (j + k * q);
  }

  lemma GcdStep(a: int, b: int, q: int, g: int)
    requires IsGcd(b, a - b * q, g)
    ensures IsGcd(a, b, g)
  {
    var r := a - b * q;
    DividesSum(g, r, b, q);
    forall d: int | Divides(d, a) && Divides(d, b) ensures Divides(d, g) { DividesSum(d, a, b, -q); }
  }

  lemma GcdLast(a: int)
    ensures IsGcd(a, 0, a)
  {
    assert a == a * 1 && 0 == a * 0;
  }

  // ----- the function -----

  function Before(a: int, b: int, w: World): SrcState {
    SrcState([map["a" := Some(a), "b" := Some(b)], map[]], w)
  }

  function Inside(a: int, b: int, t: Option<int>, w: World): SrcState {
    SrcState([map["a" := Some(a), "b" := Some(b)], map[], map[], map["t" := t]], w)
  }

  lemma LevelBelow(stack: seq<Frame>, top: Frame, id: string)
    requires id !in top
    ensures LevelOf(stack + [top], id) == LevelOf(stack, id)
  {
    assert (stack + [top])[..|stack|] == stack;
  }

  lemma Levels(a: int, b: int, t: Option<int>, w: World)
    ensures LevelOf(Before(a, b, w).frames, "a") == LevelOf(Before(a, b, w).frames, "b") == Some(0)
    ensures LevelOf(Inside(a, b, t, w).frames, "a") == LevelOf(Inside(a, b, t, w).frames, "b") == Some(0)
    ensures LevelOf(Inside(a, b, t, w).frames, "t") == Some(3)
  {
    var params: seq<Frame> := [map["a" := Some(a), "b" := Some(b)]];
    var empty: Frame, inner: Frame := map[], map["t" := t];
    assert Before(a, b, w).frames == params + [empty];
    assert Inside(a, b, t, w).frames == params + [empty] + [empty] + [inner];
    forall id | id in params[0] ensures LevelOf(params + [empty], id) == Some(0) && LevelOf(Inside(a, b, t, w).frames, id) == Some(0) {
      LevelBelow(params, empty, id);
      LevelBelow(params + [empty], empty, id);
      LevelBelow(params + [empty] + [empty], inner, id);
    }
  }

  /** One assignment. */
  lemma SetTo(id: string, value: Expr, ext: Oracle, st: SrcState, fuel: nat, v: int, st': SrcState)
    requires EvalExpr(value, map[], ext, st) == Some((v, st)) && Write(st, id, v, map[]) == Some(st')
    ensures ExecStmt(ExprStmt(Some(Assign(id, value))), map[], ext, st, fuel) == Normal(st')
  {
  }

  lemma RestIs(ext: Oracle, a: int, b: int, w: World)
    requires b != 0
    ensures var q := Quotient(a, b); Abs(a - b * q) < Abs(b)
    ensures EvalExpr(SET_T.expr.value.value, map[], ext, Inside(a, b, None, w)) == Some((a - b * Quotient(a, b), Inside(a, b, None, w)))
  {
    hide Quotient, LevelOf;
    Levels(a, b, None, w);
    QuotientTruncates(a, b);
    var st, q := Inside(a, b, None, w), Quotient(a, b);
    assert EvalExpr(Var("a"), map[], ext, st) == Some((a, st)) && EvalExpr(Var("b"), map[], ext, st) == Some((b, st));
    assert EvalExpr(Arith(Over, Var("a"), Var("b")), map[], ext, st) == Some((q, st));
    assert q * b == b * q;
    assert EvalExpr(Arith(Times, Arith(Over, Var("a"), Var("b")), Var("b")), map[], ext, st) == Some((b * q, st));
  }

  lemma Writes(a: int, b: int, t: Option<int>, w: World, v: int)
    ensures Write(Inside(a, b, t, w), "a", v, map[]) == Some(Inside(v, b, t, w))
    ensures Write(Inside(a, b, t, w), "b", v, map[]) == Some(Inside(a, v, t, w))
    ensures Write(Inside(a, b, t, w), "t", v, map[]) == Some(Inside(a, b, Some(v), w))
  {
    hide LevelOf;
    Levels(a, b, t, w);
    var f := Inside(a, b, t, w).frames;
    assert f[0]["a" := Some(v)] == Inside(v, b, t, w).frames[0];
    assert f[0]["b" := Some(v)] == Inside(a, v, t, w).frames[0];
    assert f[3]["t" := Some(v)] == Inside(a, b, Some(v), w).frames[3];
    assert f[0 := f[0]["a" := Some(v)]] == Inside(v, b, t, w).frames;
    assert f[0 := f[0]["b" := Some(v)]] == Inside(a, v, t, w).frames;
    assert f[3 := f[3]["t" := Some(v)]] == Inside(a, b, Some(v), w).frames;
  }

  /** One turn of the loop: a and b become b and the rest. */
  lemma Turn(ext: Oracle, a: int, b: int, w: World, fuel: nat)
    requires b != 0
    ensures ExecStmt(BODY, map[], ext, Enter(Before(a, b, w), map[]), fuel)
         == Normal(Enter(Before(b, a - b * Quotient(a, b), w), map[]))
  {
    hide Quotient, LevelOf;
    var r := a - b * Quotient(a, b);
    var s0, s1, s2, s3 := Inside(a, b, None, w), Inside(a, b, Some(r), w), Inside(b, b, Some(r), w), Inside(b, r, Some(r), w);
    RestIs(ext, a, b, w);
    Levels(a, b, Some(r), w);
    Levels(b, b, Some(r), w);
    Writes(a, b, None, w, r);
    Writes(a, b, Some(r), w, b);
    Writes(b, b, Some(r), w, r);
    assert Fresh(["t"]) == map["t" := None];
    assert Enter(Enter(Before(a, b, w), map[]), Fresh(["t"])) == s0;
    SetTo("t", SET_T.expr.value.value, ext, s0, fuel, r, s1);
    SetTo("a", Var("b"), ext, s1, fuel, b, s2);
    SetTo("b", Var("t"), ext, s2, fuel, r, s3);
    Three(SET_T, SET_A, SET_B, ext, s0, s1, s2, s3, fuel);
    assert s3.frames[..3] == Enter(Before(b, r, w), map[]).frames;
  }

  lemma Three(x: Stmt, y: Stmt, z: Stmt, ext: Oracle, s0: SrcState, s1: SrcState, s2: SrcState, s3: SrcState, fuel: nat)
    requires ExecStmt(x, map[], ext, s0, fuel) == Normal(s1) && ExecStmt(y, map[], ext, s1, fuel) == Normal(s2)
    requires ExecStmt(z, map[], ext, s2, fuel) == Normal(s3)
    ensures ExecList([x, y, z], map[], ext, s0, fuel) == Normal(s3)
  {
    hide ExecStmt;
    assert [x, y, z][1..] == [y, z] && [y, z][1..] == [z] && [z][1..] == [];
    assert ExecList([z], map[], ext, s2, fuel) == Normal(s3);
    assert ExecList([y, z], map[], ext, s1, fuel) == Normal(s3);
  }

  /** The loop, for as many turns as it is given: over with a greatest common divisor in a, or not over, and not that if
      it is given more turns than |b|. */
  lemma {:induction false} Loop(ext: Oracle, a: int, b: int, w: World, fuel: nat)
    ensures var r := ExecStmt(LOOP, map[], ext, Before(a, b, w), fuel);
            if r == OutOfFuel then fuel <= Abs(b) else exists g :: r == Normal(Before(g, 0, w)) && IsGcd(a, b, g)
    decreases fuel
  {
    hide Quotient, LevelOf, IsGcd;
    Levels(a, b, None, w);
    assert EvalExpr(Var("b"), map[], ext, Before(a, b, w)) == Some((b, Before(a, b, w)));
    if fuel > 0 {
      if b == 0 {
        GcdLast(a);
      } else {
        var q := Quotient(a, b);
        var next := Before(b, a - b * q, w);
        RestIs(ext, a, b, w);
        Turn(ext, a, b, w, fuel);
        assert Enter(next, map[]).frames[..2] == next.frames;
        Loop(ext, b, a - b * q, w, fuel - 1);
        var r := ExecStmt(LOOP, map[], ext, next, fuel - 1);
        if r != OutOfFuel {
          var g :| r == Normal(Before(g, 0, w)) && IsGcd(b, a - b * q, g);
          GcdStep(a, b, q, g);
        }
      }
    }
  }

  lemma Calls(ext: Oracle, a: int, b: int, w: World, fuel: nat)
    ensures var r := Invoke(SOURCE, map[], ext, [a, b], w, fuel);
            if r == OutOfFuel then fuel <= Abs(b) else exists g :: r == Returns(g, w) && IsGcd(a, b, g)
  {
    hide LevelOf, IsGcd;
    var st := Before(a, b, w);
    Bound(a, b);
    assert Enter(SrcState([Bind(["a", "b"], [a, b])], w), Fresh([])) == st;
    Loop(ext, a, b, w, fuel);
    var r := ExecStmt(LOOP, map[], ext, st, fuel);
    assert [LOOP, RESULT][1..] == [RESULT] && [RESULT][1..] == [];
    if r != OutOfFuel {
      var g :| r == Normal(Before(g, 0, w)) && IsGcd(a, b, g);
      Levels(g, 0, None, w);
      assert ExecStmt(RESULT, map[], ext, Before(g, 0, w), fuel) == Returns(g, w);
      assert ExecList([RESULT], map[], ext, Before(g, 0, w), fuel) == Returns(g, w);
      assert ExecList([LOOP, RESULT], map[], ext, st, fuel) == Returns(g, w);
    } else {
      assert ExecList([LOOP, RESULT], map[], ext, st, fuel) == OutOfFuel;
    }
    assert SOURCE.body == Compound([], [LOOP, RESULT]);
  }

  lemma Bound(a: int, b: int)
    ensures Bind(["a", "b"], [a, b]) == map["a" := Some(a), "b" := Some(b)]
  {
    assert ["a", "b"][1..] == ["b"] && [a, b][1..] == [b] && ["b"][1..] == [] && [b][1..] == [];
    assert Bind(["b"], [b]) == map["b" := Some(b)];
  }

  const OUTER: Names := [Declared(["a", "b"]), Declared([])]
  const INNER: Names := [Declared(["a", "b"]), Declared([]), map[], Declared(["t"])]

  lemma NamesVisible()
    ensures VarVisible("a", OUTER, map[]) && VarVisible("b", OUTER, map[])
    ensures VarVisible("a", INNER, map[]) && VarVisible("b", INNER, map[]) && VarVisible("t", INNER, map[])
  {
    LevelIsInnermost(OUTER, "a", 0);
    LevelIsInnermost(OUTER, "b", 0);
    LevelIsInnermost(INNER, "a", 0);
    LevelIsInnermost(INNER, "b", 0);
    LevelIsInnermost(INNER, "t", 3);
  }

  lemma RestResolves()
    ensures ResolvesExpr(SET_T.expr.value, INNER, map[])
  {
    hide VarVisible;
    NamesVisible();
    var q := Arith(Over, Var("a"), Var("b"));
    assert ResolvesExpr(q, INNER, map[]);
    assert ResolvesExpr(Arith(Times, q, Var("b")), INNER, map[]);
    assert ResolvesExpr(Arith(Minus, Var("a"), Arith(Times, q, Var("b"))), INNER, map[]);
  }

  lemma BodyResolves()
    ensures Resolves(BODY, OUTER + [map[]], map[], false)
  {
    hide VarVisible;
    NamesVisible();
    RestResolves();
    assert OUTER + [map[]] + [Declared(["t"])] == INNER;
    assert [SET_T, SET_A, SET_B][1..] == [SET_A, SET_B] && [SET_A, SET_B][1..] == [SET_B] && [SET_B][1..] == [];
    assert ResolvesList([SET_B], INNER, map[], false);
    assert ResolvesList([SET_A, SET_B], INNER, map[], false);
    assert ResolvesList([SET_T, SET_A, SET_B], INNER, map[], false);
  }

  lemma SourceIsWellFormed()
    ensures WellFormed(SOURCE, map[])
  {
    hide VarVisible;
    NamesVisible();
    BodyResolves();
    assert [Declared(["a", "b"])] + [Declared([])] == OUTER;
    assert [LOOP, RESULT][1..] == [RESULT] && [RESULT][1..] == [];
    assert ResolvesList([RESULT], OUTER, map[], false);
    assert Resolves(LOOP, OUTER, map[], false);
    assert ResolvesList([LOOP, RESULT], OUTER, map[], false);
    assert Resolves(SOURCE.body, [Declared(["a", "b"])], map[], false);
  }

  /** The generated code, called with any two numbers, returns, and what it returns is a greatest common divisor; it
      touches nothing. */
  lemma CompiledGcd(ext: Oracle, a: int, b: int, w: World)
    ensures Finished(GenFun(SOURCE, map[]).blocks)
    ensures exists g :: CodeReturns(ToFunction(GenFun(SOURCE, map[]).blocks), ext, [a, b], w, g, w)
    ensures forall g, w' :: CodeReturns(ToFunction(GenFun(SOURCE, map[]).blocks), ext, [a, b], w, g, w') ==> w' == w && IsGcd(a, b, g)
  {
    hide GenFun, Invoke, WellFormed, CodeReturns, IsGcd;
    SourceIsWellFormed();
    forall g, w' { CodeGenerationCorrect(SOURCE, map[], [a, b], ext, w, g, w'); }
    CodeGenerationCorrect(SOURCE, map[], [a, b], ext, w, 0, w);
    Calls(ext, a, b, w, Abs(b) + 1);
    var g :| Invoke(SOURCE, map[], ext, [a, b], w, Abs(b) + 1) == Returns(g, w) && IsGcd(a, b, g);
    assert SourceReturns(SOURCE, map[], ext, [a, b], w, g, w);
    var f := ToFunction(GenFun(SOURCE, map[]).blocks);
    forall h, w' | CodeReturns(f, ext, [a, b], w, h, w') ensures w' == w && IsGcd(a, b, h) {
      var fuel :| Invoke(SOURCE, map[], ext, [a, b], w, fuel) == Returns(h, w');
      Calls(ext, a, b, w, fuel);
    }
  }
}
