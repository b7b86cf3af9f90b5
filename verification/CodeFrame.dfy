// What generating a statement leaves alone: earlier blocks, the scopes, and the insertion
// block up to what is appended.
module CodeFrame {
  import opened Wrappers
  import opened Cfg
  import opened IR
  import opened SourceLang
  import opened CodeSpec

  /** Blocks other than the insertion block stay as they are; that one is appended to. */
  ghost predicate Kept(G: Gen, G': Gen) {
    && G.Placed() && G'.Placed()
    && |G.blocks| <= |G'.blocks|
    && (forall b :: 0 <= b < |G.blocks| && b != G.cur ==> G'.blocks[b] == G.blocks[b])
    && G.blocks[G.cur].instrs <= G'.blocks[G.cur].instrs
    && G'.blocks[G.cur].pre == G.blocks[G.cur].pre
    && (G'.cur == G.cur || |G.blocks| <= G'.cur)
    && G.nextReg <= G'.nextReg && G.nextSlot <= G'.nextSlot
    && G'.scope == G.scope
  }

  /** Blocks only grow, and not after their terminator. */
  ghost predicate Extends(a: seq<Draft>, b: seq<Draft>) {
    && |a| <= |b|
    && (forall k :: 0 <= k < |a| ==> a[k].instrs <= b[k].instrs)
    && (forall k :: 0 <= k < |a| && a[k].term.Some? ==> b[k].instrs == a[k].instrs && b[k].term == a[k].term)
  }

  lemma KeptExtends(G: Gen, G': Gen)
    requires G.Open() && Kept(G, G')
    ensures Extends(G.blocks, G'.blocks)
  {
  }

  lemma ExtendsTrans(a: seq<Draft>, b: seq<Draft>, c: seq<Draft>)
    requires Extends(a, b) && Extends(b, c)
    ensures Extends(a, c)
  {
    forall k | 0 <= k < |a| ensures a[k].instrs <= c[k].instrs {
      assert a[k].instrs <= b[k].instrs <= c[k].instrs;
    }
  }

  /** A constant, or a register below the limit. */
  predicate Older(o: Operand, limit: nat) {
    o.Const? || (o.Reg? && o.id < limit)
  }

  /** An expression takes its registers from `next` on, and its value is one of the registers so far. */
  lemma {:induction false} ExprShape(e: Expr, scope: Scopes, next: nat)
    ensures next <= ExprCode(e, scope, next).next && Older(ExprCode(e, scope, next).val, ExprCode(e, scope, next).next)
  {
    match e
    case Num(_) =>
    case Var(_) =>
    case Assign(_, value) => ExprShape(value, scope, next);
    case Relation(_, left, right) =>
      ExprShape(left, scope, next);
      ExprShape(right, scope, ExprCode(left, scope, next).next);
    case Arith(_, left, right) =>
      ExprShape(left, scope, next);
      ExprShape(right, scope, ExprCode(left, scope, next).next);
    case Call(_, args) => ArgsShape(args, scope, next);
  }

  lemma {:induction false} ArgsShape(es: seq<Expr>, scope: Scopes, next: nat)
    ensures next <= ArgsCode(es, scope, next).next && |ArgsCode(es, scope, next).vals| == |es|
  {
    if es != [] {
      ExprShape(es[0], scope, next);
      ArgsShape(es[1..], scope, ExprCode(es[0], scope, next).next);
    }
  }

  // ----- the pieces -----

  lemma {:induction false} DeclsKept(decls: seq<string>, G: Gen)
    requires G.Open() && G.scope != []
    ensures var G' := GenDecls(decls, G);
            && Kept(G.(scope := []), G'.(scope := [])) && G'.Open() && G'.nextReg == G.nextReg
            && |G'.scope| == |G.scope| && G'.scope[..|G.scope| - 1] == G.scope[..|G.scope| - 1]
  {
    if decls != [] {
      var G1 := G.Declare(decls[0]);
      DeclsKept(decls[1..], G1);
      assert G1.scope[..|G.scope| - 1] == G.scope[..|G.scope| - 1];
    }
  }

  /** After the condition of an if: the branches are fresh, with the insertion block before them. */
  ghost predicate Forked(G: Gen, G': Gen, p: Block, n: Block) {
    && G.Open() && G'.Open() && p < n && n + 3 == |G'.blocks| && n == |G.blocks|
    && (forall b :: 0 <= b < n && b != G.cur ==> G'.blocks[b] == G.blocks[b])
    && G.blocks[G.cur].instrs <= G'.blocks[G.cur].instrs && G'.blocks[G.cur].pre == G.blocks[G.cur].pre
    && G'.scope == G.scope + [map[]] && G'.nextSlot == G.nextSlot && G.nextReg <= G'.nextReg
  }

  lemma ThenForked(cond: Expr, G: Gen)
    requires G.Open()
    ensures var n := |G.blocks|; var G' := BeforeThen(cond, G);
            && Forked(G, G', G.cur, n) && G'.cur == n
            && G'.blocks[n] == G'.blocks[n + 1] == NEW_BLOCK.(pre := [G.cur]) && G'.blocks[n + 2] == NEW_BLOCK
            && G'.blocks[G.cur].term.Some?
  {
    ExprShape(cond, G.scope, G.nextReg);
  }

  lemma BodyForked(cond: Expr, G: Gen)
    requires G.Open()
    ensures var n := |G.blocks|; var G' := BeforeBody(cond, G);
            && Forked(G, G', G.cur, n) && G'.cur == n + 1
            && G'.blocks[n].pre == [G.cur] && G'.blocks[n].term.Some? && G'.blocks[G.cur].term.Some?
            && G'.blocks[n + 1] == G'.blocks[n + 2] == NEW_BLOCK.(pre := [n])
  {
    ExprShape(cond, G.scope, G.nextReg);
  }

  /** Generating a statement at an open block keeps everything else, and leaves an open block
      exactly if the statement does not terminate its list. */
  lemma {:induction false} StmtKept(s: Stmt, G: Gen)
    requires G.Open()
    ensures Kept(G, GenStmt(s, G)) && (GenStmt(s, G).Open() <==> !Terminates(s))
    decreases s, 1
  {
    match s
    case ExprStmt(None) =>
    case ExprStmt(Some(e)) => ExprShape(e, G.scope, G.nextReg);
    case Return(None) =>
    case Return(Some(e)) => ExprShape(e, G.scope, G.nextReg);
    case Compound(decls, stmts) => CompoundKept(decls, stmts, G);
    case If(cond, thenPart, elsePart) => IfKept(cond, thenPart, elsePart, G);
    case While(cond, body) => WhileKept(cond, body, G);
  }

  lemma IfKept(cond: Expr, thenPart: Stmt, elsePart: Option<Stmt>, G: Gen)
    requires G.Open()
    ensures var G' := GenStmt(If(cond, thenPart, elsePart), G); Kept(G, G') && G'.Open()
    decreases If(cond, thenPart, elsePart), 0
  {
    hide GenStmt, GenElse, AfterThen, BeforeThen, Kept;
    IfGen(cond, thenPart, elsePart, G);
    var B := BeforeThen(cond, G);
    ThenForked(cond, G);
    StmtKept(thenPart, B);
    var T := GenStmt(thenPart, B);
    ThenKept(G, B, T);
    GenElseKept(elsePart, G, AfterThen(T, |G.blocks|));
  }

  lemma GenElseKept(elsePart: Option<Stmt>, G: Gen, A: Gen)
    requires G.Open() && AtElse(G, A, |G.blocks|)
    ensures var G' := GenElse(elsePart, A, |G.blocks|); Kept(G, G') && G'.Open() && G'.cur == |G.blocks| + 2 && G'.Here() == 0
    decreases elsePart, 2
  {
    match elsePart
    case None =>
      JoinKept(G, A, A.EnterScope());
      assert A.EnterScope().ExitScope() == A by { assert (A.scope + [map[]])[..|A.scope|] == A.scope; }
    case Some(e) =>
      StmtKept(e, A.EnterScope());
      JoinKept(G, A, GenStmt(e, A.EnterScope()));
  }

  lemma WhileKept(cond: Expr, body: Stmt, G: Gen)
    requires G.Open()
    ensures var G' := GenStmt(While(cond, body), G); Kept(G, G') && G'.Open()
    decreases While(cond, body), 0
  {
    hide GenStmt, AfterBody, BeforeBody, Kept;
    WhileGen(cond, body, G);
    BodyForked(cond, G);
    LoopBodyKept(body, G, BeforeBody(cond, G));
  }

  lemma LoopBodyKept(body: Stmt, G: Gen, B: Gen)
    requires Forked(G, B, G.cur, |G.blocks|) && B.cur == |G.blocks| + 1
    requires B.blocks[|G.blocks| + 2] == NEW_BLOCK.(pre := [|G.blocks|])
    ensures |G.blocks| + 3 <= |GenStmt(body, B).blocks|
    ensures var R := AfterBody(GenStmt(body, B), |G.blocks|); Kept(G, R) && R.Open() && R.cur == |G.blocks| + 2 && R.Here() == 0
    decreases body, 2
  {
    StmtKept(body, B);
    LoopKept(G, B, GenStmt(body, B));
  }

  lemma CompoundKept(decls: seq<string>, stmts: seq<Stmt>, G: Gen)
    requires G.Open()
    ensures var G' := GenStmt(Compound(decls, stmts), G); Kept(G, G') && (G'.Open() <==> !TerminatesList(stmts))
    decreases stmts, 1
  {
    hide GenStmt, GenList, GenDecls;
    CompoundGen(decls, stmts, G);
    var G1 := GenDecls(decls, G.EnterScope());
    DeclsKept(decls, G.EnterScope());
    ListKept(stmts, G1);
    assert (G.scope + [map[]])[..|G.scope|] == G.scope;
  }

  lemma {:induction false} ListKept(stmts: seq<Stmt>, G: Gen)
    requires G.Open()
    ensures Kept(G, GenList(stmts, G)) && (GenList(stmts, G).Open() <==> !TerminatesList(stmts))
    decreases stmts, 0
  {
    hide GenStmt;
    if stmts != [] {
      StmtKept(stmts[0], G);
      var G1 := GenStmt(stmts[0], G);
      if G1.Open() {
        ListKept(stmts[1..], G1);
        KeptTrans(G, G1, GenList(stmts[1..], G1));
      }
    }
  }

  lemma KeptTrans(G: Gen, G1: Gen, G2: Gen)
    requires Kept(G, G1) && Kept(G1, G2)
    ensures Kept(G, G2)
  {
    assert G.blocks[G.cur].instrs <= G1.blocks[G.cur].instrs <= G2.blocks[G.cur].instrs;
  }

  /** Ready to generate the second branch: it is fresh, and the end block has the first branch
      before it unless that ended with a return. */
  ghost predicate AtElse(G: Gen, A: Gen, n: Block) {
    && G.Open() && A.Open() && n == |G.blocks| && n + 3 <= |A.blocks| && A.cur == n + 1 && A.scope == G.scope
    && G.nextReg <= A.nextReg && G.nextSlot <= A.nextSlot
    && (forall b :: 0 <= b < n && b != G.cur ==> A.blocks[b] == G.blocks[b])
    && G.blocks[G.cur].instrs <= A.blocks[G.cur].instrs && A.blocks[G.cur].pre == G.blocks[G.cur].pre
    && A.blocks[n + 1] == NEW_BLOCK.(pre := [G.cur])
    && A.blocks[n + 2].instrs == [] && A.blocks[n + 2].term == None && |A.blocks[n + 2].pre| <= 1
  }

  lemma ThenKept(G: Gen, B: Gen, T: Gen)
    requires Forked(G, B, G.cur, |G.blocks|) && B.cur == |G.blocks| && B.blocks[B.cur + 1] == NEW_BLOCK.(pre := [G.cur])
    requires B.blocks[B.cur + 2] == NEW_BLOCK && Kept(B, T)
    ensures AtElse(G, AfterThen(T, |G.blocks|), |G.blocks|)
  {
    assert (G.scope + [map[]])[..|G.scope|] == G.scope;
  }

  lemma JoinKept(G: Gen, A: Gen, E: Gen)
    requires AtElse(G, A, |G.blocks|) && Kept(A.EnterScope(), E)
    ensures E.Placed() && |G.blocks| + 3 <= |E.blocks|
    ensures var R := E.ExitScope().Close(|G.blocks| + 2).MoveTo(|G.blocks| + 2); Kept(G, R) && R.Open() && R.Here() == 0
  {
    assert (G.scope + [map[]])[..|G.scope|] == G.scope;
    var n := |G.blocks|;
    var X := E.ExitScope();
    assert X.blocks == E.blocks && X.scope == G.scope;
    var R := X.Close(n + 2).MoveTo(n + 2);
    assert R.blocks[n + 2].term == None;
    assert E.cur == n + 1 || n + 3 <= E.cur;
    forall b | 0 <= b < n && b != G.cur ensures R.blocks[b] == G.blocks[b] {
      assert E.blocks[b] == A.blocks[b];
    }
    assert E.blocks[G.cur] == A.blocks[G.cur];
  }

  lemma LoopKept(G: Gen, B: Gen, T: Gen)
    requires Forked(G, B, G.cur, |G.blocks|) && B.cur == |G.blocks| + 1 && Kept(B, T)
    requires B.blocks[|G.blocks| + 2] == NEW_BLOCK.(pre := [|G.blocks|])
    ensures var R := AfterBody(T, |G.blocks|); Kept(G, R) && R.Open() && R.Here() == 0
  {
    assert (G.scope + [map[]])[..|G.scope|] == G.scope;
  }

  // ----- each step extends the blocks -----

  lemma EndExtends(G: Gen, t: Terminator)
    requires G.Open()
    ensures Extends(G.blocks, G.End(t).blocks)
  {
  }

  lemma BranchExtends(G: Gen, target: Block)
    requires G.Open() && target < |G.blocks|
    ensures Extends(G.blocks, G.Branch(target).blocks) && G.Branch(target).blocks[G.cur].term == Some(Br(target))
    ensures G.Branch(target).blocks[G.cur].instrs == G.blocks[G.cur].instrs
  {
  }

  lemma CloseExtends(G: Gen, target: Block)
    requires G.Placed() && target < |G.blocks|
    ensures Extends(G.blocks, G.Close(target).blocks)
  {
  }

  lemma CondBranchExtends(G: Gen, c: Operand, t: Block, e: Block)
    requires G.Open() && t < |G.blocks| && e < |G.blocks|
    ensures Extends(G.blocks, G.CondBranch(c, t, e).blocks)
    ensures G.CondBranch(c, t, e).blocks[G.cur].term == Some(CondBr(c, t, e))
    ensures G.CondBranch(c, t, e).blocks[G.cur].instrs == G.blocks[G.cur].instrs
  {
  }
}
