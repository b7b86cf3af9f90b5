// The generated function returns what the source function returns, and only then.
module CodeCorrect {
  import opened Wrappers
  import opened Cfg
  import opened IR
  import opened SourceLang
  import opened CodeSpec
  import opened CodeFrame
  import opened CodeExpr
  import opened CodeRun
  import opened CodeMeaning

  // ----- declarations -----

  /** The frame with the declared names added, uninitialised. */
  function WithDecls(frame: Frame, decls: seq<string>): Frame {
    map x | x in frame.Keys + (set d | d in decls) :: if x in frame then frame[x] else None
  }

  function TopChanged(st: SrcState, frame: Frame): SrcState
    requires st.frames != []
  {
    st.(frames := st.frames[|st.frames| - 1 := frame])
  }

  /** One new cell in the innermost scope, unless the name is there already. */
  lemma NewCell(locals: Scopes, limit: nat, frames: seq<Frame>, cells: map<nat, int>, id: string, v: Option<int>)
    requires Apart(locals, limit) && Mirrors(locals, frames, cells) && locals != []
    requires id !in locals[|locals| - 1]
    ensures var n := |locals| - 1;
            var locals' := locals[n := locals[n][id := Cell(limit)]];
            Apart(locals', limit + 1)
            && Mirrors(locals', frames[n := frames[n][id := v]], if v.Some? then cells[limit := v.value] else cells - {limit})
  {
    var n := |locals| - 1;
    var cells' := if v.Some? then cells[limit := v.value] else cells - {limit};
    forall k, x | 0 <= k < |frames| && x in frames[k] ensures Holds(cells', locals[k][x], frames[k][x]) {
      assert Holds(cells, locals[k][x], frames[k][x]);
    }
  }

  lemma OtherCell(locals: Scopes, limit: nat, frames: seq<Frame>, cells: map<nat, int>, cells': map<nat, int>)
    requires Apart(locals, limit) && Mirrors(locals, frames, cells)
    requires forall c :: c < limit ==> (c in cells <==> c in cells') && (c in cells ==> cells'[c] == cells[c])
    ensures Apart(locals, limit + 1) && Mirrors(locals, frames, cells')
  {
    forall k, x | 0 <= k < |frames| && x in frames[k] ensures Holds(cells', locals[k][x], frames[k][x]) {
      assert Holds(cells, locals[k][x], frames[k][x]);
    }
  }

  /** The cell `limit` gets the value v, or loses its value, and becomes the cell of `id` if that is new. */
  lemma RelatedPush(scope: Scopes, globals: Globals, limit: nat, st: SrcState, S: State, S': State, id: string, v: Option<int>)
    requires Related(scope, globals, limit, st, S) && |scope| >= 2
    requires S' == S.(cells := if v.Some? then S.cells[limit := v.value] else S.cells - {limit})
    ensures st.frames != []
    ensures var top := st.frames[|st.frames| - 1];
            Related(Push(scope, id, Cell(limit)), globals, limit + 1, if id in top then st else TopChanged(st, top[id := v]), S')
  {
    var locals := scope[1..];
    assert locals[|locals| - 1] == scope[|scope| - 1];
    if id in locals[|locals| - 1] {
      OtherCell(locals, limit, st.frames, S.cells, S'.cells);
    } else {
      NewCell(locals, limit, st.frames, S.cells, id, v);
      assert Push(scope, id, Cell(limit))[1..] == locals[|locals| - 1 := locals[|locals| - 1][id := Cell(limit)]];
    }
  }

  lemma FramesExist(scope: Scopes, globals: Globals, limit: nat, st: SrcState, S: State)
    requires Related(scope, globals, limit, st, S)
    ensures |st.frames| == |scope| - 1
  {
  }

  lemma DeclsWithin(decls: seq<string>, G: Gen, f: Function)
    requires G.Open() && G.scope != [] && Within(GenDecls(decls, G).blocks, f)
    ensures Within(G.blocks, f)
  {
    hide GenDecls;
    DeclsKept(decls, G);
    KeptExtends(G.(scope := []), GenDecls(decls, G).(scope := []));
    WithinExtends(G.blocks, GenDecls(decls, G).blocks, f);
  }

  lemma NoDecls(st: SrcState)
    requires st.frames != []
    ensures TopChanged(st, WithDecls(st.frames[|st.frames| - 1], [])) == st
  {
    var n := |st.frames| - 1;
    assert WithDecls(st.frames[n], []) == st.frames[n];
    assert st.frames[n := st.frames[n]] == st.frames;
  }

  /** What declaring one name does to the innermost frame. */
  function Declaring(st: SrcState, id: string): SrcState
    requires st.frames != []
  {
    var top := st.frames[|st.frames| - 1];
    if id in top then st else TopChanged(st, top[id := None])
  }

  lemma MoreDecls(st: SrcState, decls: seq<string>)
    requires st.frames != [] && decls != []
    ensures var st1, n := Declaring(st, decls[0]), |st.frames| - 1;
            |st1.frames| == n + 1
            && TopChanged(st1, WithDecls(st1.frames[n], decls[1..])) == TopChanged(st, WithDecls(st.frames[n], decls))
  {
    var st1, n := Declaring(st, decls[0]), |st.frames| - 1;
    assert WithDecls(st1.frames[n], decls[1..]) == WithDecls(st.frames[n], decls);
  }

  lemma {:induction false} DeclsSim(j: Job, decls: seq<string>, G: Gen, st: SrcState, S: State) returns (S': State)
    requires G.Open() && |G.scope| >= 2 && Related(G.scope, j.globals, G.nextSlot, st, S)
    requires Within(GenDecls(decls, G).blocks, j.x.f)
    ensures st.frames != []
    ensures var G' := GenDecls(decls, G);
            && Related(G'.scope, j.globals, G'.nextSlot, TopChanged(st, WithDecls(st.frames[|st.frames| - 1], decls)), S')
            && Reaches(j.x, Here(G, S), 0, Here(G', S'))
  {
    hide Reaches, Related, Within, WithDecls, TopChanged;
    FramesExist(G.scope, j.globals, G.nextSlot, st, S);
    var n := |st.frames| - 1;
    if decls == [] {
      S' := S;
      NoDecls(st);
      HereInside(j.x, G, S);
      ReachesSelf(j.x, Here(G, S));
    } else {
      var G1 := G.Declare(decls[0]);
      DeclsWithin(decls[1..], G1, j.x.f);
      var st1, S1 := DeclareSim(j, decls[0], G, st, S);
      S' := DeclsSim(j, decls[1..], G1, st1, S1);
      MoreDecls(st, decls);
      ReachesTrans(j.x, Here(G, S), 0, Here(G1, S1), 0, Here(GenDecls(decls, G), S'));
    }
  }

  lemma DeclareSim(j: Job, id: string, G: Gen, st: SrcState, S: State) returns (st': SrcState, S': State)
    requires G.Open() && |G.scope| >= 2 && Related(G.scope, j.globals, G.nextSlot, st, S)
    requires Within(G.Declare(id).blocks, j.x.f)
    ensures st.frames != []
    ensures st' == Declaring(st, id)
    ensures Related(G.Declare(id).scope, j.globals, G.nextSlot + 1, st', S')
    ensures Reaches(j.x, Here(G, S), 0, Here(G.Declare(id), S'))
  {
    hide Scoping, Mirrors, Passes;
    S' := S.(cells := S.cells - {G.nextSlot});
    EmitSim(j.x, G, [Alloca(G.nextSlot, true)], S);
    ExecOne(Alloca(G.nextSlot, true), j.x.args, j.x.ext, S);
    RelatedPush(G.scope, j.globals, G.nextSlot, st, S, S', id, None);
    st' := Declaring(st, id);
  }

  // ----- statements -----

  /** A statement that ends its block never lets control past it. */
  lemma NormalGoesOn(s: Stmt, globals: Globals, ext: Oracle, st: SrcState, fuel: nat)
    ensures ExecStmt(s, globals, ext, st, fuel).Normal? ==> !Terminates(s)
  {
    if Terminates(s) { TerminatesNever(s, globals, ext, st, fuel); }
  }

  lemma {:induction false} TerminatesNever(s: Stmt, globals: Globals, ext: Oracle, st: SrcState, fuel: nat)
    requires Terminates(s)
    ensures !ExecStmt(s, globals, ext, st, fuel).Normal?
  {
    match s
    case Return(_) =>
    case Compound(decls, stmts) => TerminatesNeverList(stmts, globals, ext, Enter(st, Fresh(decls)), fuel);
  }

  lemma {:induction false} TerminatesNeverList(stmts: seq<Stmt>, globals: Globals, ext: Oracle, st: SrcState, fuel: nat)
    requires TerminatesList(stmts)
    ensures !ExecList(stmts, globals, ext, st, fuel).Normal?
  {
    if Terminates(stmts[0]) {
      TerminatesNever(stmts[0], globals, ext, st, fuel);
    } else {
      match ExecStmt(stmts[0], globals, ext, st, fuel)
      case Normal(st') => TerminatesNeverList(stmts[1..], globals, ext, st', fuel);
      case _ =>
    }
  }

  /** What is to be shown of a statement: running its code follows its meaning. */
  ghost predicate Simulated(j: Job, s: Stmt, G: Gen, st: SrcState, S: State, fuel: nat, n: nat, S': State)
    requires G.Placed()
  {
    var G', flow := GenStmt(s, G), ExecStmt(s, j.globals, j.x.ext, st, fuel);
    FollowsTo(j, Here(G, S), flow, fuel, G.scope, G'.nextSlot, n, Here(G', S')) && (flow.Normal? ==> G'.Open())
  }

  /** What a statement may rely on. */
  ghost predicate Starting(j: Job, names: Names, s: Stmt, G: Gen, st: SrcState, S: State) {
    && NoPhis(j.x.f) && G.Open() && G.scope != []
    && Related(G.scope, j.globals, G.nextSlot, st, S) && Fits(names, G.scope)
    && Resolves(s, names, j.globals, j.isVoid) && Within(GenStmt(s, G).blocks, j.x.f)
  }

  lemma {:induction false} StmtSim(j: Job, names: Names, s: Stmt, G: Gen, st: SrcState, S: State, fuel: nat)
    returns (n: nat, S': State)
    requires Starting(j, names, s, G, st, S)
    ensures Simulated(j, s, G, st, S, fuel, n, S')
    decreases fuel, s, 1
  {
    hide Scoping, Mirrors, Finishes, Passes, Lasts;
    n, S' := 0, S;
    match s
    case ExprStmt(None) => HereInside(j.x, G, S); ReachesSelf(j.x, Here(G, S));
    case ExprStmt(Some(e)) => S' := ExprStmtSim(j, names, e, G, st, S, fuel);
    case Return(None) => ReturnVoidSim(j, G, st, S);
    case Return(Some(e)) => ReturnExprSim(j, names, e, G, st, S, fuel);
    case Compound(decls, stmts) => n, S' := CompoundSim(j, names, decls, stmts, G, st, S, fuel);
    case If(cond, thenPart, elsePart) => n, S' := IfSim(j, names, cond, thenPart, elsePart, G, st, S, fuel);
    case While(cond, body) => n, S' := WhileSim(j, names, cond, body, G, st, S, fuel);
  }

  lemma {:induction false} ListSim(j: Job, names: Names, stmts: seq<Stmt>, G: Gen, st: SrcState, S: State, fuel: nat)
    returns (n: nat, S': State)
    requires NoPhis(j.x.f) && G.Open() && G.scope != []
    requires Related(G.scope, j.globals, G.nextSlot, st, S) && Fits(names, G.scope)
    requires ResolvesList(stmts, names, j.globals, j.isVoid) && Within(GenList(stmts, G).blocks, j.x.f)
    ensures var G', flow := GenList(stmts, G), ExecList(stmts, j.globals, j.x.ext, st, fuel);
            FollowsTo(j, Here(G, S), flow, fuel, G.scope, G'.nextSlot, n, Here(G', S')) && (flow.Normal? ==> G'.Open())
    decreases fuel, stmts, 0
  {
    hide GenStmt, ExecStmt, Resolves, Fits, Related, Extends, Kept, Reaches, Ends, StillRunning;
    n, S' := 0, S;
    if stmts == [] {
      HereInside(j.x, G, S);
      ReachesSelf(j.x, Here(G, S));
    } else {
      var G1 := GenStmt(stmts[0], G);
      StmtKept(stmts[0], G);
      if G1.Open() {
        ListKept(stmts[1..], G1);
        KeptExtends(G1, GenList(stmts[1..], G1));
        WithinExtends(G1.blocks, GenList(stmts, G).blocks, j.x.f);
      }
      n, S' := StmtSim(j, names, stmts[0], G, st, S, fuel);
      var flow := ExecStmt(stmts[0], j.globals, j.x.ext, st, fuel);
      if flow.Normal? {
        NormalGoesOn(stmts[0], j.globals, j.x.ext, st, fuel);
        var n1, S1 := n, S';
        var n2, S2 := ListSim(j, names, stmts[1..], G1, flow.state, S1, fuel);
        FollowsAfter(j, Here(G, S), n1, Here(G1, S1), ExecList(stmts, j.globals, j.x.ext, st, fuel), fuel, fuel,
                     G.scope, GenList(stmts, G).nextSlot, n2, Here(GenList(stmts, G), S2));
        n, S' := n1 + n2, S2;
      }
    }
  }

  lemma CompoundSim(j: Job, names: Names, decls: seq<string>, stmts: seq<Stmt>, G: Gen, st: SrcState, S: State, fuel: nat)
    returns (n: nat, S': State)
    requires Starting(j, names, Compound(decls, stmts), G, st, S)
    ensures Simulated(j, Compound(decls, stmts), G, st, S, fuel, n, S')
    decreases fuel, stmts, 1
  {
    hide GenList, ExecList, ResolvesList, Kept, Reaches, Ends, StillRunning, Related, Fits;
    CompoundGen(decls, stmts, G);
    var G1 := GenDecls(decls, G.EnterScope());
    DeclsKept(decls, G.EnterScope());
    ListKept(stmts, G1);
    KeptExtends(G1, GenList(stmts, G1));
    WithinExtends(G1.blocks, GenList(stmts, G1).blocks, j.x.f);
    var S1 := FreshSim(j, names, decls, G, st, S);
    n, S' := ListSim(j, names + [Declared(decls)], stmts, G1, Enter(st, Fresh(decls)), S1, fuel);
    var flow := ExecList(stmts, j.globals, j.x.ext, Enter(st, Fresh(decls)), fuel);
    var G2 := GenList(stmts, G1);
    FollowsAfter(j, Here(G, S), 0, Here(G1, S1), flow, fuel, fuel, G1.scope, G2.nextSlot, n, Here(G2, S'));
    if flow.Normal? { RelatedLeave(G.scope, G1.scope[|G.scope|], j.globals, G2.nextSlot, flow.state, S'); }
  }

  /** The declarations of a compound statement: a new scope with an undefined cell for each name. */
  lemma FreshSim(j: Job, names: Names, decls: seq<string>, G: Gen, st: SrcState, S: State) returns (S1: State)
    requires NoPhis(j.x.f) && G.Open() && G.scope != [] && Related(G.scope, j.globals, G.nextSlot, st, S) && Fits(names, G.scope)
    requires Within(GenDecls(decls, G.EnterScope()).blocks, j.x.f)
    ensures var G1 := GenDecls(decls, G.EnterScope());
            && G1.Open() && |G1.scope| == |G.scope| + 1 && G1.scope == G.scope + [G1.scope[|G.scope|]]
            && Reaches(j.x, Here(G, S), 0, Here(G1, S1))
            && Related(G1.scope, j.globals, G1.nextSlot, Enter(st, Fresh(decls)), S1) && Fits(names + [Declared(decls)], G1.scope)
  {
    hide Reaches, Related, Fits, Kept;
    var G0 := G.EnterScope();
    var G1 := GenDecls(decls, G0);
    var st0 := Enter(st, map[]);
    DeclsKept(decls, G0);
    RelatedEnter(G.scope, j.globals, G.nextSlot, st, S);
    S1 := DeclsSim(j, decls, G0, st0, S);
    var st1 := Enter(st, Fresh(decls));
    assert TopChanged(st0, WithDecls(map[], decls)) == st1 by {
      assert WithDecls(map[], decls) == Fresh(decls);
      assert st0.frames[|st0.frames| - 1 := Fresh(decls)] == st1.frames;
    }
    var top := G1.scope[|G.scope|];
    assert G1.scope == G.scope + [top] by { assert G0.scope[..|G.scope|] == G.scope; }
    TopNames(G.scope, top, j.globals, G1.nextSlot, st1, S1, decls);
    FitsEnter(names, G.scope, top, Declared(decls));
  }

  lemma TopNames(scope: Scopes, top: map<string, Binding>, globals: Globals, limit: nat, st: SrcState, S: State, decls: seq<string>)
    requires Related(scope + [top], globals, limit, st, S) && scope != []
    requires st.frames != [] && st.frames[|st.frames| - 1] == Fresh(decls)
    ensures top.Keys == Declared(decls).Keys
  {
    assert (scope + [top])[1..][|st.frames| - 1] == top;
  }

  /** A branch or loop body in a scope of its own, then a jump to the target unless it returned. */
  lemma BranchSim(j: Job, names: Names, s: Stmt, scope: Scopes, B: Gen, target: Block, st: SrcState, S: State, fuel: nat)
    returns (n: nat, S': State)
    requires NoPhis(j.x.f) && B.Open() && scope != [] && B.scope == scope + [map[]] && target < |B.blocks|
    requires Related(scope, j.globals, B.nextSlot, st, S) && Fits(names, scope)
    requires Resolves(s, names + [map[]], j.globals, j.isVoid)
    requires Within(GenStmt(s, B).ExitScope().Close(target).blocks, j.x.f)
    ensures FollowsTo(j, Here(B, S), Leave(ExecStmt(s, j.globals, j.x.ext, Enter(st, map[]), fuel)), fuel,
                      scope, GenStmt(s, B).nextSlot, n, Point(target, 0, S'))
    ensures ExecStmt(s, j.globals, j.x.ext, Enter(st, map[]), fuel).Normal? ==> n > 0
    decreases fuel, s, 2
  {
    hide GenStmt, ExecStmt, Resolves, Fits, Related, Extends, Reaches, Ends, StillRunning;
    var T := GenStmt(s, B);
    CloseExtends(T.ExitScope(), target);
    WithinExtends(T.blocks, T.ExitScope().Close(target).blocks, j.x.f);
    RelatedEnter(scope, j.globals, B.nextSlot, st, S);
    FitsEnter(names, scope, map[], map[]);
    n, S' := StmtSim(j, names + [map[]], s, B, Enter(st, map[]), S, fuel);
    StmtKept(s, B);
    var flow := ExecStmt(s, j.globals, j.x.ext, Enter(st, map[]), fuel);
    if flow.Normal? {
      RelatedLeave(scope, map[], j.globals, T.nextSlot, flow.state, S');
      BranchExtends(T.ExitScope(), target);
      assert j.x.f.blocks[T.cur] == BasicBlock(T.blocks[T.cur].instrs, Br(target));
      JumpSim(j.x, Here(T, S'), target);
      ReachesTrans(j.x, Here(B, S), n, Here(T, S'), 1, Point(target, 0, S'));
      n := n + 1;
    }
  }

  lemma ElseExtends(elsePart: Option<Stmt>, A: Gen, n: Block)
    requires A.Open() && n + 3 <= |A.blocks|
    ensures Extends(A.blocks, GenElse(elsePart, A, n).blocks)
  {
    hide GenStmt, Kept, Extends, Gen.Close;
    match elsePart
    case None => BranchExtends(A, n + 2);
    case Some(e) =>
      var E := GenStmt(e, A.EnterScope());
      StmtKept(e, A.EnterScope());
      KeptExtends(A.EnterScope(), E);
      CloseExtends(E.ExitScope(), n + 2);
      ExtendsTrans(A.blocks, E.blocks, E.ExitScope().Close(n + 2).blocks);
  }

  /** The second branch of an if, from its start to the end block. */
  lemma ElseSim(j: Job, names: Names, elsePart: Option<Stmt>, G: Gen, A: Gen, st: SrcState, S: State, fuel: nat)
    returns (n: nat, S': State)
    requires NoPhis(j.x.f) && G.scope != [] && AtElse(G, A, |G.blocks|)
    requires Related(G.scope, j.globals, A.nextSlot, st, S) && Fits(names, G.scope)
    requires elsePart.Some? ==> Resolves(elsePart.value, names + [map[]], j.globals, j.isVoid)
    requires Within(GenElse(elsePart, A, |G.blocks|).blocks, j.x.f)
    ensures FollowsTo(j, Point(|G.blocks| + 1, 0, S), ElseFlow(elsePart, j, st, fuel), fuel, G.scope,
                      GenElse(elsePart, A, |G.blocks|).nextSlot, n, Point(|G.blocks| + 2, 0, S'))
    decreases fuel, elsePart, 3
  {
    hide GenStmt, ExecStmt, Resolves, Fits, Related, Reaches, Ends, StillRunning;
    var b := |G.blocks|;
    match elsePart
    case None =>
      BranchExtends(A, b + 2);
      assert j.x.f.blocks[b + 1] == BasicBlock([], Br(b + 2));
      JumpSim(j.x, Point(b + 1, 0, S), b + 2);
      n, S' := 1, S;
    case Some(e) =>
      n, S' := BranchSim(j, names, e, G.scope, A.EnterScope(), b + 2, st, S, fuel);
  }

  /** An if taken apart: B where the first branch starts, T where it ends, A where the second starts. */
  ghost predicate Parts(j: Job, names: Names, thenPart: Stmt, elsePart: Option<Stmt>, G: Gen, B: Gen, T: Gen, A: Gen) {
    var b := |G.blocks|;
    && NoPhis(j.x.f) && G.scope != [] && Fits(names, G.scope)
    && B.Open() && B.cur == b && B.Here() == 0 && |B.blocks| == b + 3
    && B.scope == G.scope + [map[]] && B.nextSlot == G.nextSlot
    && T == GenStmt(thenPart, B) && AtElse(G, A, b) && T.nextSlot == A.nextSlot
    && Within(T.ExitScope().Close(b + 2).blocks, j.x.f) && Within(GenElse(elsePart, A, b).blocks, j.x.f)
    && Resolves(thenPart, names + [map[]], j.globals, j.isVoid)
    && (elsePart.Some? ==> Resolves(elsePart.value, names + [map[]], j.globals, j.isVoid))
  }

  lemma IfStart(j: Job, names: Names, cond: Expr, thenPart: Stmt, elsePart: Option<Stmt>, G: Gen, st: SrcState, S: State)
    returns (B: Gen, T: Gen, A: Gen, S': State)
    requires Starting(j, names, If(cond, thenPart, elsePart), G, st, S)
    ensures Parts(j, names, thenPart, elsePart, G, B, T, A)
    ensures GenStmt(If(cond, thenPart, elsePart), G) == GenElse(elsePart, A, |G.blocks|)
    ensures match EvalExpr(cond, j.globals, j.x.ext, st)
            case None => Ends(j.x, Here(G, S), 0, Stuck)
            case Some(r) =>
              && Related(G.scope, j.globals, G.nextSlot, r.1, S')
              && Reaches(j.x, Here(G, S), 1, Point(if r.0 != 0 then |G.blocks| else |G.blocks| + 1, 0, S'))
  {
    hide GenStmt, GenElse, GenCond, Within, Related, Reaches, Ends, Fits, Kept, EvalExpr, NoPhis;
    var b := |G.blocks|;
    IfGen(cond, thenPart, elsePart, G);
    B := BeforeThen(cond, G);
    T := GenStmt(thenPart, B);
    A := AfterThen(T, b);
    ThenForked(cond, G);
    StmtKept(thenPart, B);
    ThenKept(G, B, T);
    IfWithin(j, elsePart, G, B, T, A);
    assert B.blocks == GenCond(cond, G.AddBlocks(3), b, b + 1).blocks;
    S' := ForkSim(j, names, cond, G.AddBlocks(3), b, b + 1, st, S);
  }

  lemma IfSim(j: Job, names: Names, cond: Expr, thenPart: Stmt, elsePart: Option<Stmt>, G: Gen, st: SrcState, S: State, fuel: nat)
    returns (n: nat, S': State)
    requires Starting(j, names, If(cond, thenPart, elsePart), G, st, S)
    ensures Simulated(j, If(cond, thenPart, elsePart), G, st, S, fuel, n, S')
    decreases fuel, If(cond, thenPart, elsePart), 0
  {
    hide GenStmt, GenElse, Parts, Resolves, Fits, Within, NoPhis, Related, Reaches, Ends, StillRunning, ExecStmt, EvalExpr;
    var B, T, A, S1 := IfStart(j, names, cond, thenPart, elsePart, G, st, S);
    IfIs(cond, thenPart, elsePart, j, st, fuel);
    EndsOpen(j, names, thenPart, elsePart, G, B, T, A);
    n, S' := 0, S1;
    match EvalExpr(cond, j.globals, j.x.ext, st)
    case None =>
    case Some(r) =>
      if r.0 != 0 {
        n, S' := ThenSim(j, names, thenPart, elsePart, G, B, T, A, r.1, S, S1, fuel);
      } else {
        n, S' := OtherwiseSim(j, names, thenPart, elsePart, G, B, T, A, r.1, S, S1, fuel);
      }
  }

  /** An if by its condition. */
  lemma IfIs(cond: Expr, thenPart: Stmt, elsePart: Option<Stmt>, j: Job, st: SrcState, fuel: nat)
    ensures ExecStmt(If(cond, thenPart, elsePart), j.globals, j.x.ext, st, fuel)
         == match EvalExpr(cond, j.globals, j.x.ext, st)
            case None => Wrong
            case Some(r) =>
              if r.0 != 0 then Leave(ExecStmt(thenPart, j.globals, j.x.ext, Enter(r.1, map[]), fuel))
              else ElseFlow(elsePart, j, r.1, fuel)
  {
  }

  lemma EndsOpen(j: Job, names: Names, thenPart: Stmt, elsePart: Option<Stmt>, G: Gen, B: Gen, T: Gen, A: Gen)
    requires Parts(j, names, thenPart, elsePart, G, B, T, A)
    ensures var R := GenElse(elsePart, A, |G.blocks|); R.Open() && R.cur == |G.blocks| + 2 && R.Here() == 0
  {
    hide GenElse, GenStmt, Kept;
    GenElseKept(elsePart, G, A);
  }

  lemma ThenSim(j: Job, names: Names, thenPart: Stmt, elsePart: Option<Stmt>, G: Gen, B: Gen, T: Gen, A: Gen,
                st: SrcState, S: State, S1: State, fuel: nat)
    returns (n: nat, S': State)
    requires G.Open() && Parts(j, names, thenPart, elsePart, G, B, T, A)
    requires Related(G.scope, j.globals, G.nextSlot, st, S1) && Reaches(j.x, Here(G, S), 1, Point(|G.blocks|, 0, S1))
    ensures FollowsTo(j, Here(G, S), Leave(ExecStmt(thenPart, j.globals, j.x.ext, Enter(st, map[]), fuel)), fuel,
                      G.scope, GenElse(elsePart, A, |G.blocks|).nextSlot, n, Point(|G.blocks| + 2, 0, S'))
    decreases fuel, thenPart, 3
  {
    hide GenStmt, GenElse, Resolves, Fits, Within, NoPhis, Related, Reaches, Ends, StillRunning, ExecStmt;
    n, S' := BranchSim(j, names, thenPart, G.scope, B, |G.blocks| + 2, st, S1, fuel);
    var flow := Leave(ExecStmt(thenPart, j.globals, j.x.ext, Enter(st, map[]), fuel));
    ThenJoin(j, flow, elsePart, G, T, A, S, S1, fuel, n, S');
    n := 1 + n;
  }

  lemma OtherwiseSim(j: Job, names: Names, thenPart: Stmt, elsePart: Option<Stmt>, G: Gen, B: Gen, T: Gen, A: Gen,
                     st: SrcState, S: State, S1: State, fuel: nat)
    returns (n: nat, S': State)
    requires G.Open() && Parts(j, names, thenPart, elsePart, G, B, T, A)
    requires Related(G.scope, j.globals, G.nextSlot, st, S1) && Reaches(j.x, Here(G, S), 1, Point(|G.blocks| + 1, 0, S1))
    ensures FollowsTo(j, Here(G, S), ElseFlow(elsePart, j, st, fuel), fuel,
                      G.scope, GenElse(elsePart, A, |G.blocks|).nextSlot, n, Point(|G.blocks| + 2, 0, S'))
    decreases fuel, elsePart, 4
  {
    hide GenStmt, GenElse, Resolves, Fits, Within, NoPhis, Related, Reaches, Ends, StillRunning, ElseFlow;
    var b, limit := |G.blocks|, GenElse(elsePart, A, |G.blocks|).nextSlot;
    RelatedMore(G.scope, j.globals, G.nextSlot, A.nextSlot, st, S1);
    n, S' := ElseSim(j, names, elsePart, G, A, st, S1, fuel);
    FollowsAfter(j, Here(G, S), 1, Point(b + 1, 0, S1), ElseFlow(elsePart, j, st, fuel), fuel, fuel, G.scope, limit, n, Point(b + 2, 0, S'));
    n := 1 + n;
  }

  function ElseFlow(elsePart: Option<Stmt>, j: Job, st: SrcState, fuel: nat): Flow {
    match elsePart
    case None => Normal(st)
    case Some(e) => Leave(ExecStmt(e, j.globals, j.x.ext, Enter(st, map[]), fuel))
  }

  lemma IfWithin(j: Job, elsePart: Option<Stmt>, G: Gen, B: Gen, T: Gen, A: Gen)
    requires G.Open() && B.Open() && |B.blocks| == |G.blocks| + 3 && Kept(B, T) && A == AfterThen(T, |G.blocks|) && A.Open()
    requires Within(GenElse(elsePart, A, |G.blocks|).blocks, j.x.f)
    ensures Within(A.blocks, j.x.f) && Within(B.blocks, j.x.f)
  {
    hide GenElse, Extends;
    ElseExtends(elsePart, A, |G.blocks|);
    WithinExtends(A.blocks, GenElse(elsePart, A, |G.blocks|).blocks, j.x.f);
    CloseExtends(T.ExitScope(), |G.blocks| + 2);
    WithinExtends(T.blocks, A.blocks, j.x.f);
    KeptExtends(B, T);
    WithinExtends(B.blocks, T.blocks, j.x.f);
  }

  /** After the fork, the first branch leads to the end block. */
  lemma ThenJoin(j: Job, flow: Flow, elsePart: Option<Stmt>, G: Gen, T: Gen, A: Gen, S: State, S1: State, fuel: nat, n: nat, S': State)
    requires G.Open() && AtElse(G, A, |G.blocks|) && T.nextSlot == A.nextSlot
    requires Reaches(j.x, Here(G, S), 1, Point(|G.blocks|, 0, S1))
    requires FollowsTo(j, Point(|G.blocks|, 0, S1), flow, fuel, G.scope, T.nextSlot, n, Point(|G.blocks| + 2, 0, S'))
    ensures var R := GenElse(elsePart, A, |G.blocks|);
            FollowsTo(j, Here(G, S), flow, fuel, G.scope, R.nextSlot, 1 + n, Point(|G.blocks| + 2, 0, S'))
  {
    hide Scoping, Mirrors, Finishes, Passes, Lasts;
    FollowsAfter(j, Here(G, S), 1, Point(|G.blocks|, 0, S1), flow, fuel, fuel, G.scope, T.nextSlot, n, Point(|G.blocks| + 2, 0, S'));
    if flow.Normal? {
      SlotsGrow(elsePart, A, |G.blocks|);
      RelatedMore(G.scope, j.globals, T.nextSlot, GenElse(elsePart, A, |G.blocks|).nextSlot, flow.state, S');
    }
  }

  lemma SlotsGrow(elsePart: Option<Stmt>, A: Gen, n: Block)
    requires A.Open() && n + 3 <= |A.blocks|
    ensures A.nextSlot <= GenElse(elsePart, A, n).nextSlot
  {
    match elsePart
    case None =>
    case Some(e) => StmtKept(e, A.EnterScope());
  }

  // ----- loops -----

  /** The builder at the test block of a loop. */
  function AtTest(G: Gen): (r: Gen)
    requires G.Placed()
    ensures r.Placed() && |r.blocks| == |G.blocks| + 3
  {
    G.AddBlocks(3).Branch(|G.blocks|).MoveTo(|G.blocks|)
  }

  /** The loop of G, whose body is generated from B, as it stands in the finished function. */
  ghost predicate Loop(j: Job, cond: Expr, body: Stmt, G: Gen, B: Gen) {
    && NoPhis(j.x.f) && G.Open() && G.scope != []
    && Forked(G, B, G.cur, |G.blocks|) && B.cur == |G.blocks| + 1 && B.Here() == 0
    && Within(GenCond(cond, AtTest(G), |G.blocks| + 1, |G.blocks| + 2).blocks, j.x.f)
    && Within(GenStmt(body, B).ExitScope().Close(|G.blocks|).blocks, j.x.f)
  }

  /** The loop after its body has been run with this flow. */
  function NextTurn(cond: Expr, body: Stmt, j: Job, flow: Flow, fuel: nat): Flow
    requires fuel > 0
  {
    match flow
    case Normal(st) => ExecStmt(While(cond, body), j.globals, j.x.ext, st, fuel - 1)
    case _ => flow
  }

  /** A loop by its first turn. */
  lemma WhileIs(cond: Expr, body: Stmt, j: Job, st: SrcState, fuel: nat)
    ensures ExecStmt(While(cond, body), j.globals, j.x.ext, st, fuel)
         == if fuel == 0 then OutOfFuel
            else match EvalExpr(cond, j.globals, j.x.ext, st)
              case None => Wrong
              case Some(r) =>
                if r.0 == 0 then Normal(r.1)
                else NextTurn(cond, body, j, Leave(ExecStmt(body, j.globals, j.x.ext, Enter(r.1, map[]), fuel)), fuel)
  {
  }

  /** The test of the loop, reached from p. */
  lemma TestSim(j: Job, names: Names, cond: Expr, body: Stmt, G: Gen, B: Gen, p: Point, n0: nat, st: SrcState, S: State)
    returns (S': State)
    requires Loop(j, cond, body, G, B) && Fits(names, G.scope) && ResolvesExpr(cond, names, j.globals)
    requires Related(G.scope, j.globals, G.nextSlot, st, S) && Reaches(j.x, p, n0, Point(|G.blocks|, 0, S))
    ensures match EvalExpr(cond, j.globals, j.x.ext, st)
            case None => Ends(j.x, p, n0, Stuck)
            case Some(r) =>
              && Related(G.scope, j.globals, G.nextSlot, r.1, S')
              && Reaches(j.x, p, n0 + 1, Point(if r.0 != 0 then |G.blocks| + 1 else |G.blocks| + 2, 0, S'))
  {
    hide EvalExpr, Related, Reaches, Ends, ResolvesExpr, Fits, GenStmt, GenCond;
    var b := |G.blocks|;
    S' := ForkSim(j, names, cond, AtTest(G), b + 1, b + 2, st, S);
    match EvalExpr(cond, j.globals, j.x.ext, st)
    case None => ReachesEnds(j.x, p, n0, Point(b, 0, S), 0, Stuck);
    case Some(r) => ReachesTrans(j.x, p, n0, Point(b, 0, S), 1, Point(if r.0 != 0 then b + 1 else b + 2, 0, S'));
  }

  /** From anywhere before the test block: the rest of the loop. */
  lemma LoopSim(j: Job, names: Names, cond: Expr, body: Stmt, G: Gen, B: Gen, p: Point, n0: nat, st: SrcState, S: State, fuel: nat)
    returns (n: nat, S': State)
    requires Loop(j, cond, body, G, B) && Fits(names, G.scope)
    requires ResolvesExpr(cond, names, j.globals) && Resolves(body, names + [map[]], j.globals, j.isVoid)
    requires Related(G.scope, j.globals, G.nextSlot, st, S)
    requires Reaches(j.x, p, n0, Point(|G.blocks|, 0, S)) && n0 > 0
    ensures FollowsTo(j, p, ExecStmt(While(cond, body), j.globals, j.x.ext, st, fuel), fuel + n0 - 1,
                      G.scope, G.nextSlot, n, Point(|G.blocks| + 2, 0, S'))
    decreases fuel, body, 4
  {
    hide Loop, Fits, Resolves, ResolvesExpr, Related, Reaches, Ends, StillRunning, ExecStmt, EvalExpr;
    WhileIs(cond, body, j, st, fuel);
    n, S' := n0, S;
    if fuel == 0 {
      ReachesStill(j.x, p, n0, Point(|G.blocks|, 0, S), n0 - 1);
    } else {
      S' := TestSim(j, names, cond, body, G, B, p, n0, st, S);
      match EvalExpr(cond, j.globals, j.x.ext, st)
      case None =>
      case Some(r) =>
        if r.0 == 0 {
          n := n0 + 1;
        } else {
          var S1 := S';
          n, S' := TurnSim(j, names, cond, body, G, B, p, n0 + 1, r.1, S1, fuel);
          var flow := ExecStmt(While(cond, body), j.globals, j.x.ext, st, fuel);
          FollowsLess(j, p, flow, fuel + n0, fuel + n0 - 1, G.scope, G.nextSlot, n, Point(|G.blocks| + 2, 0, S'));
        }
    }
  }

  /** One turn of the body, and the turns after it. */
  lemma TurnSim(j: Job, names: Names, cond: Expr, body: Stmt, G: Gen, B: Gen, p: Point, n0: nat, st: SrcState, S: State, fuel: nat)
    returns (n: nat, S': State)
    requires Loop(j, cond, body, G, B) && Fits(names, G.scope)
    requires ResolvesExpr(cond, names, j.globals) && Resolves(body, names + [map[]], j.globals, j.isVoid)
    requires Related(G.scope, j.globals, G.nextSlot, st, S)
    requires Reaches(j.x, p, n0, Point(|G.blocks| + 1, 0, S)) && fuel > 0 && n0 > 0
    ensures FollowsTo(j, p, NextTurn(cond, body, j, Leave(ExecStmt(body, j.globals, j.x.ext, Enter(st, map[]), fuel)), fuel),
                      fuel + n0 - 1, G.scope, G.nextSlot, n, Point(|G.blocks| + 2, 0, S'))
    decreases fuel, body, 3
  {
    hide GenStmt, Fits, Resolves, ResolvesExpr, Related, Reaches, Ends, StillRunning, ExecStmt;
    var b := |G.blocks|;
    n, S' := BranchSim(j, names, body, G.scope, B, b, st, S, fuel);
    var flow := Leave(ExecStmt(body, j.globals, j.x.ext, Enter(st, map[]), fuel));
    FollowsAfter(j, p, n0, Point(b + 1, 0, S), flow, fuel + n0 - 1, fuel, G.scope, GenStmt(body, B).nextSlot, n, Point(b, 0, S'));
    n := n0 + n;
    if flow.Normal? {
      RelatedLess(G.scope, j.globals, G.nextSlot, st, S, GenStmt(body, B).nextSlot, flow.state, S');
      var n1, S1 := n, S';
      n, S' := LoopSim(j, names, cond, body, G, B, p, n1, flow.state, S1, fuel - 1);
      var rest := ExecStmt(While(cond, body), j.globals, j.x.ext, flow.state, fuel - 1);
      FollowsLess(j, p, rest, fuel - 1 + n1 - 1, fuel + n0 - 1, G.scope, G.nextSlot, n, Point(|G.blocks| + 2, 0, S'));
    }
  }

  /** The builder for the body, without what it is made of. */
  ghost predicate IsBody(cond: Expr, G: Gen, B: Gen)
    requires G.Placed()
  {
    B == BeforeBody(cond, G)
  }

  lemma WhileSim(j: Job, names: Names, cond: Expr, body: Stmt, G: Gen, st: SrcState, S: State, fuel: nat)
    returns (n: nat, S': State)
    requires Starting(j, names, While(cond, body), G, st, S)
    ensures Simulated(j, While(cond, body), G, st, S, fuel, n, S')
    decreases fuel, While(cond, body), 0
  {
    hide GenStmt, ExecStmt, Resolves, ResolvesExpr, Fits, Related, Reaches, Ends, StillRunning, Loop, Within, NoPhis;
    var B := LoopStart(j, names, cond, body, G, st, S);
    n, S' := LoopSim(j, names, cond, body, G, B, Here(G, S), 1, st, S, fuel);
    LoopEnds(j, cond, body, G, B, st, S, fuel, n, S');
  }

  /** The jump to the test block. */
  lemma LoopStart(j: Job, names: Names, cond: Expr, body: Stmt, G: Gen, st: SrcState, S: State) returns (B: Gen)
    requires Starting(j, names, While(cond, body), G, st, S)
    ensures IsBody(cond, G, B) && Loop(j, cond, body, G, B) && Reaches(j.x, Here(G, S), 1, Point(|G.blocks|, 0, S))
    ensures ResolvesExpr(cond, names, j.globals) && Resolves(body, names + [map[]], j.globals, j.isVoid)
  {
    hide GenStmt, BeforeBody, AfterBody, GenCond, Within, Related, Reaches, Fits, ExprCode, Extends;
    WhileGen(cond, body, G);
    B := BeforeBody(cond, G);
    BodyForked(cond, G);
    LoopWithin(j, cond, body, G, B);
    WithinGrows(j, While(cond, body), G);
    HereInside(j.x, G, S);
    JumpSim(j.x, Here(G, S), |G.blocks|);
  }

  lemma WithinGrows(j: Job, s: Stmt, G: Gen)
    requires G.Open() && Within(GenStmt(s, G).blocks, j.x.f)
    ensures Within(G.blocks, j.x.f)
  {
    StmtKept(s, G);
    KeptExtends(G, GenStmt(s, G));
    WithinExtends(G.blocks, GenStmt(s, G).blocks, j.x.f);
  }

  lemma LoopWithin(j: Job, cond: Expr, body: Stmt, G: Gen, B: Gen)
    requires G.Open() && B == BeforeBody(cond, G) && Forked(G, B, G.cur, |G.blocks|) && B.cur == |G.blocks| + 1
    requires Within(AfterBody(GenStmt(body, B), |G.blocks|).blocks, j.x.f)
    ensures Within(GenCond(cond, AtTest(G), |G.blocks| + 1, |G.blocks| + 2).blocks, j.x.f)
    ensures Within(GenStmt(body, B).ExitScope().Close(|G.blocks|).blocks, j.x.f)
    ensures |G.blocks| + 3 <= |j.x.f.blocks| && j.x.f.blocks[G.cur] == BasicBlock(G.blocks[G.cur].instrs, Br(|G.blocks|))
  {
    hide GenStmt, BeforeBody, GenCond, Extends, Kept;
    var T := GenStmt(body, B);
    StmtKept(body, B);
    KeptExtends(B, T);
    CloseExtends(T.ExitScope(), |G.blocks|);
    WithinExtends(T.blocks, T.ExitScope().Close(|G.blocks|).blocks, j.x.f);
    WithinExtends(B.blocks, T.blocks, j.x.f);
    BodyBlocks(cond, G);
  }

  lemma BodyBlocks(cond: Expr, G: Gen)
    requires G.Open()
    ensures BeforeBody(cond, G).blocks == GenCond(cond, AtTest(G), |G.blocks| + 1, |G.blocks| + 2).blocks
    ensures var d := BeforeBody(cond, G).blocks[G.cur]; d.instrs == G.blocks[G.cur].instrs && d.term == Some(Br(|G.blocks|))
  {
    hide CondCode;
  }

  lemma LoopEnds(j: Job, cond: Expr, body: Stmt, G: Gen, B: Gen, st: SrcState, S: State, fuel: nat, n: nat, S': State)
    requires G.Open() && IsBody(cond, G, B)
    requires FollowsTo(j, Here(G, S), ExecStmt(While(cond, body), j.globals, j.x.ext, st, fuel), fuel,
                       G.scope, G.nextSlot, n, Point(|G.blocks| + 2, 0, S'))
    ensures Simulated(j, While(cond, body), G, st, S, fuel, n, S')
  {
    hide GenStmt, ExecStmt, Related, Reaches, Ends, StillRunning, IsBody;
    var flow := ExecStmt(While(cond, body), j.globals, j.x.ext, st, fuel);
    var R := GenStmt(While(cond, body), G);
    LoopShape(cond, body, G);
    if flow.Normal? { RelatedMore(G.scope, j.globals, G.nextSlot, R.nextSlot, flow.state, S'); }
  }

  lemma LoopShape(cond: Expr, body: Stmt, G: Gen)
    requires G.Open()
    ensures var R := GenStmt(While(cond, body), G);
            R.Open() && R.cur == |G.blocks| + 2 && R.Here() == 0 && G.nextSlot <= R.nextSlot
  {
    hide GenStmt, AfterBody, BeforeBody;
    WhileGen(cond, body, G);
    BodyForked(cond, G);
    LoopBodyKept(body, G, BeforeBody(cond, G));
  }
}
