// Generated code does what the source statement does.
module CodeMeaning {
  import opened Wrappers
  import opened Cfg
  import opened IR
  import opened SourceLang
  import opened CodeSpec
  import opened CodeFrame
  import opened CodeExpr
  import opened CodeRun

  /** An execution, and what the global names are. */
  datatype Job = Job(x: Exe, globals: Globals, isVoid: bool)

  /** The execution from p does what the flow says: with normal flow it reaches q after entering
      n blocks; out of fuel, it enters more than `fuel` blocks. */
  ghost predicate FollowsTo(j: Job, p: Point, flow: Flow, fuel: nat, scope: Scopes, limit: nat, n: nat, q: Point) {
    match flow
    case Normal(st) => Related(scope, j.globals, limit, st, q.s) && Reaches(j.x, p, n, q)
    case Returns(v, w) => Ends(j.x, p, n, Returned(v, w))
    case Wrong => Ends(j.x, p, n, Stuck)
    case OutOfFuel => StillRunning(j.x, p, fuel)
  }

  lemma FollowsAfter(j: Job, p: Point, n0: nat, q0: Point, flow: Flow, fuel: nat, fuel': nat, scope: Scopes, limit: nat, n: nat, q: Point)
    requires Reaches(j.x, p, n0, q0) && FollowsTo(j, q0, flow, fuel', scope, limit, n, q) && fuel <= fuel' + n0
    ensures FollowsTo(j, p, flow, fuel, scope, limit, n0 + n, q)
  {
    hide Scoping, Mirrors, Finishes, Passes, Lasts;
    match flow
    case Normal(st) => ReachesTrans(j.x, p, n0, q0, n, q);
    case Returns(v, w) => ReachesEnds(j.x, p, n0, q0, n, Returned(v, w));
    case Wrong => ReachesEnds(j.x, p, n0, q0, n, Stuck);
    case OutOfFuel => ReachesRunning(j.x, p, n0, q0, fuel', fuel);
  }

  lemma FollowsLess(j: Job, p: Point, flow: Flow, fuel: nat, fuel': nat, scope: Scopes, limit: nat, n: nat, q: Point)
    requires FollowsTo(j, p, flow, fuel, scope, limit, n, q) && fuel' <= fuel
    ensures FollowsTo(j, p, flow, fuel', scope, limit, n, q)
  {
  }

  // ----- scopes -----

  lemma RelatedMore(scope: Scopes, globals: Globals, limit: nat, limit': nat, st: SrcState, S: State)
    requires Related(scope, globals, limit, st, S) && limit <= limit'
    ensures Related(scope, globals, limit', st, S)
  {
  }

  /** The bound on the cells is a matter of the scopes alone. */
  lemma RelatedLess(scope: Scopes, globals: Globals, limit: nat, st: SrcState, S: State, limit': nat, st': SrcState, S': State)
    requires Related(scope, globals, limit, st, S) && Related(scope, globals, limit', st', S')
    ensures Related(scope, globals, limit, st', S')
  {
  }

  lemma RelatedEnter(scope: Scopes, globals: Globals, limit: nat, st: SrcState, S: State)
    requires Related(scope, globals, limit, st, S)
    ensures Related(scope + [map[]], globals, limit, Enter(st, map[]), S)
  {
    assert (scope + [map[]])[1..] == scope[1..] + [map[]];
  }

  lemma RelatedLeave(scope: Scopes, top: map<string, Binding>, globals: Globals, limit: nat, st: SrcState, S: State)
    requires Related(scope + [top], globals, limit, st, S) && scope != []
    ensures st.frames != [] && Related(scope, globals, limit, st.(frames := st.frames[..|st.frames| - 1]), S)
  {
    var locals, n := (scope + [top])[1..], |st.frames| - 1;
    assert locals == scope[1..] + [top];
    assert Mirrors(scope[1..], st.frames[..n], S.cells) by {
      forall k | 0 <= k < n ensures scope[1..][k].Keys == st.frames[..n][k].Keys {
        assert locals[k].Keys == st.frames[k].Keys;
      }
      forall k, x | 0 <= k < n && x in st.frames[..n][k] ensures Holds(S.cells, scope[1..][k][x], st.frames[..n][k][x]) {
        assert Holds(S.cells, locals[k][x], st.frames[k][x]);
      }
    }
    assert Apart(scope[1..], limit) by {
      assert forall k :: 0 <= k < n ==> scope[1..][k] == locals[k];
    }
  }

  lemma FitsEnter(names: Names, scope: Scopes, top: map<string, Binding>, decls: map<string, ()>)
    requires Fits(names, scope) && top.Keys == decls.Keys
    ensures Fits(names + [decls], scope + [top])
  {
    assert (scope + [top])[1..] == scope[1..] + [top];
  }

  // ----- statements without parts -----

  lemma ExprStmtSim(j: Job, names: Names, e: Expr, G: Gen, st: SrcState, S: State, fuel: nat) returns (S': State)
    requires G.Open() && Related(G.scope, j.globals, G.nextSlot, st, S) && Fits(names, G.scope)
    requires ResolvesExpr(e, names, j.globals)
    requires Within(G.EmitCode(ExprCode(e, G.scope, G.nextReg)).blocks, j.x.f)
    ensures FollowsTo(j, Here(G, S), ExecStmt(ExprStmt(Some(e)), j.globals, j.x.ext, st, fuel), fuel, G.scope, G.nextSlot, 0,
                      Here(G.EmitCode(ExprCode(e, G.scope, G.nextReg)), S'))
  {
    hide Scoping, Mirrors, Finishes, Passes, Lasts;
    var c := ExprCode(e, G.scope, G.nextReg);
    ExprSim(e, names, G.scope, j.globals, G.nextSlot, G.nextReg, st, S, j.x.args, j.x.ext);
    EmitSim(j.x, G, c.instrs, S);
    var run := ExecAll(c.instrs, j.x.args, j.x.ext, S);
    S' := if run.Some? then run.value else S;
  }

  lemma ReturnExprSim(j: Job, names: Names, e: Expr, G: Gen, st: SrcState, S: State, fuel: nat)
    requires G.Open() && Related(G.scope, j.globals, G.nextSlot, st, S) && Fits(names, G.scope)
    requires ResolvesExpr(e, names, j.globals)
    requires var c := ExprCode(e, G.scope, G.nextReg); Within(G.EmitCode(c).End(Ret(c.val)).blocks, j.x.f)
    ensures FollowsTo(j, Here(G, S), ExecStmt(Return(Some(e)), j.globals, j.x.ext, st, fuel), fuel, G.scope, G.nextSlot, 0, Here(G, S))
  {
    hide Scoping, Mirrors, Finishes, Passes, Lasts;
    var c := ExprCode(e, G.scope, G.nextReg);
    var G1 := G.EmitCode(c);
    EndExtends(G1, Ret(c.val));
    WithinExtends(G1.blocks, G1.End(Ret(c.val)).blocks, j.x.f);
    ExprSim(e, names, G.scope, j.globals, G.nextSlot, G.nextReg, st, S, j.x.args, j.x.ext);
    EmitSim(j.x, G, c.instrs, S);
    var run := ExecAll(c.instrs, j.x.args, j.x.ext, S);
    if run.Some? {
      var p := Here(G1, run.value);
      assert j.x.f.blocks[G.cur] == BasicBlock(G1.blocks[G.cur].instrs, Ret(c.val));
      ReturnSim(j.x, p, c.val);
      ReachesEnds(j.x, Here(G, S), 0, p, 0, Returned(Eval(c.val, j.x.args, run.value.env).value, run.value.world));
    }
  }

  lemma ReturnVoidSim(j: Job, G: Gen, st: SrcState, S: State)
    requires G.Open() && st.world == S.world && Within(G.End(Ret(Const(0))).blocks, j.x.f)
    ensures Ends(j.x, Here(G, S), 0, Returned(0, st.world))
  {
    hide Finishes;
    EndExtends(G, Ret(Const(0)));
    WithinExtends(G.blocks, G.End(Ret(Const(0))).blocks, j.x.f);
    assert j.x.f.blocks[G.cur] == BasicBlock(G.blocks[G.cur].instrs, Ret(Const(0)));
    ReturnSim(j.x, Here(G, S), Const(0));
  }

  /** A condition and its two-way branch. */
  lemma ForkSim(j: Job, names: Names, cond: Expr, G: Gen, t: Block, e: Block, st: SrcState, S: State) returns (S': State)
    requires G.Open() && t < |G.blocks| && e < |G.blocks| && NoPhis(j.x.f)
    requires Related(G.scope, j.globals, G.nextSlot, st, S) && Fits(names, G.scope) && ResolvesExpr(cond, names, j.globals)
    requires Within(GenCond(cond, G, t, e).blocks, j.x.f)
    ensures match EvalExpr(cond, j.globals, j.x.ext, st)
            case None => Ends(j.x, Here(G, S), 0, Stuck)
            case Some(r) =>
              && Related(G.scope, j.globals, G.nextSlot, r.1, S')
              && Reaches(j.x, Here(G, S), 1, Point(if r.0 != 0 then t else e, 0, S'))
  {
    hide Scoping, Mirrors, Finishes, Passes;
    var c := CondCode(cond, G.scope, G.nextReg);
    var G1 := G.EmitCode(c);
    CondBranchExtends(G1, c.val, t, e);
    WithinExtends(G1.blocks, GenCond(cond, G, t, e).blocks, j.x.f);
    CondSim(cond, names, G.scope, j.globals, G.nextSlot, G.nextReg, st, S, j.x.args, j.x.ext);
    EmitSim(j.x, G, c.instrs, S);
    var run := ExecAll(c.instrs, j.x.args, j.x.ext, S);
    S' := S;
    if run.Some? {
      S' := run.value;
      var v := Eval(c.val, j.x.args, S'.env).value;
      assert j.x.f.blocks[G.cur] == BasicBlock(G1.blocks[G.cur].instrs, CondBr(c.val, t, e));
      JumpSim(j.x, Here(G1, S'), if v != 0 then t else e);
      ReachesTrans(j.x, Here(G, S), 0, Here(G1, S'), 1, Point(if v != 0 then t else e, 0, S'));
    }
  }
}
