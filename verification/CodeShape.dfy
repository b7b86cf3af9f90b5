// The control flow of generated functions: terminators, edge lists, registers.
module CodeShape {
  import opened Wrappers
  import opened Cfg
  import opened IR
  import opened SourceLang
  import opened CodeSpec
  import opened CodeFrame

  // ----- edges -----

  /** Successor lists are those of the terminators, and predecessor lists mirror them. */
  ghost predicate EdgesOk(blocks: seq<Draft>) {
    && (forall b :: 0 <= b < |blocks| ==> blocks[b].succ == match blocks[b].term case None => [] case Some(t) => Successors(t))
    && (forall b, c :: 0 <= b < |blocks| && c in blocks[b].succ ==> c < |blocks|)
    && (forall b, p :: 0 <= b < |blocks| && p in blocks[b].pre ==> p < |blocks|)
    && (forall p, b :: 0 <= p < |blocks| && 0 <= b < |blocks| ==> (b in blocks[p].succ <==> p in blocks[b].pre))
  }

  lemma AddEdges(G: Gen, n: nat)
    requires EdgesOk(G.blocks)
    ensures EdgesOk(G.AddBlocks(n).blocks)
  {
  }

  lemma EmitEdges(G: Gen, code: seq<Instr>)
    requires EdgesOk(G.blocks) && G.Open()
    ensures EdgesOk(G.Emit(code).blocks)
  {
    var G' := G.Emit(code);
    forall p, b | 0 <= p < |G'.blocks| && 0 <= b < |G'.blocks| ensures b in G'.blocks[p].succ <==> p in G'.blocks[b].pre {
      assert b in G.blocks[p].succ <==> p in G.blocks[b].pre;
    }
  }

  lemma RetEdges(G: Gen, o: Operand)
    requires EdgesOk(G.blocks) && G.Open()
    ensures EdgesOk(G.End(Ret(o)).blocks)
  {
    var G' := G.End(Ret(o));
    forall p, b | 0 <= p < |G'.blocks| && 0 <= b < |G'.blocks| ensures b in G'.blocks[p].succ <==> p in G'.blocks[b].pre {
      assert b in G.blocks[p].succ <==> p in G.blocks[b].pre;
    }
  }

  /** Block n gets its terminator, and its successors a new predecessor. */
  lemma LinkEdges(a: seq<Draft>, b: seq<Draft>, n: Block, t: Terminator)
    requires EdgesOk(a) && |b| == |a| && n < |a| && a[n].term.None?
    requires forall c :: c in Successors(t) ==> c < |a|
    requires forall p :: 0 <= p < |a| ==> b[p].succ == (if p == n then Successors(t) else a[p].succ)
    requires forall p :: 0 <= p < |a| ==> b[p].term == (if p == n then Some(t) else a[p].term)
    requires forall x, p :: 0 <= x < |a| ==> (p in b[x].pre <==> p in a[x].pre || (p == n && x in Successors(t)))
    ensures EdgesOk(b)
  {
    forall p, x | 0 <= p < |b| && 0 <= x < |b| ensures x in b[p].succ <==> p in b[x].pre {
      assert x in a[p].succ <==> p in a[x].pre;
    }
  }

  lemma BranchEdges(G: Gen, target: Block)
    requires EdgesOk(G.blocks) && G.Open() && target < |G.blocks|
    ensures EdgesOk(G.Branch(target).blocks)
  {
    hide EdgesOk;
    NoSuccessors(G);
    LinkEdges(G.blocks, G.Branch(target).blocks, G.cur, Br(target));
  }

  lemma NoSuccessors(G: Gen)
    requires EdgesOk(G.blocks) && G.Open()
    ensures G.blocks[G.cur].succ == []
  {
  }

  lemma CondEdges(G: Gen, c: Operand, t: Block, e: Block)
    requires EdgesOk(G.blocks) && G.Open() && t < |G.blocks| && e < |G.blocks|
    ensures EdgesOk(G.CondBranch(c, t, e).blocks)
  {
    hide EdgesOk;
    NoSuccessors(G);
    LinkEdges(G.blocks, G.CondBranch(c, t, e).blocks, G.cur, CondBr(c, t, e));
  }

  // ----- registers -----

  /** Registers are used after their definition in the code, or in the given set; no phis. */
  ghost predicate Straight(code: seq<Instr>, known: set<nat>) {
    code == [] || (!code[0].Phi? && Uses(code[0]) <= known && Straight(code[1..], known + Def(code[0])))
  }

  lemma {:induction false} StraightMore(code: seq<Instr>, known: set<nat>, known': set<nat>)
    requires Straight(code, known) && known <= known'
    ensures Straight(code, known')
  {
    if code != [] { StraightMore(code[1..], known + Def(code[0]), known' + Def(code[0])); }
  }

  lemma DefsCons(code: seq<Instr>)
    requires code != []
    ensures Defs(code) == Def(code[0]) + Defs(code[1..])
  {
    forall r | r in Defs(code) ensures r in Def(code[0]) + Defs(code[1..]) {
      var k: nat :| k < |code| && r in Def(code[k]);
      if k > 0 { assert code[1..][k - 1] == code[k]; }
    }
    forall r | r in Def(code[0]) + Defs(code[1..]) ensures r in Defs(code) {
      if r in Defs(code[1..]) {
        var k: nat :| k < |code[1..]| && r in Def(code[1..][k]);
        assert code[k + 1] == code[1..][k];
      }
    }
  }

  lemma {:induction false} StraightConcat(a: seq<Instr>, b: seq<Instr>, known: set<nat>)
    requires Straight(a, known) && Straight(b, known + Defs(a))
    ensures Straight(a + b, known)
  {
    if a == [] {
      assert a + b == b && known + Defs(a) == known;
    } else {
      DefsCons(a);
      assert (a + b)[1..] == a[1..] + b && (a + b)[0] == a[0];
      assert known + Defs(a) == (known + Def(a[0])) + Defs(a[1..]);
      StraightConcat(a[1..], b, known + Def(a[0]));
    }
  }

  /** In straight code every use has an earlier definition. */
  lemma {:induction false} StraightUse(code: seq<Instr>, known: set<nat>, k: nat, r: nat)
    requires Straight(code, known) && k < |code| && r in Uses(code[k])
    ensures r in known || exists i :: 0 <= i < k && r in Def(code[i])
  {
    if k > 0 {
      assert code[1..][k - 1] == code[k];
      StraightUse(code[1..], known + Def(code[0]), k - 1, r);
      if i :| 0 <= i < k - 1 && r in Def(code[1..][i]) { assert code[i + 1] == code[1..][i]; }
    }
  }

  lemma {:induction false} StraightNoPhi(code: seq<Instr>, known: set<nat>, k: nat)
    requires Straight(code, known) && k < |code|
    ensures !code[k].Phi?
  {
    if k > 0 {
      assert code[1..][k - 1] == code[k];
      StraightNoPhi(code[1..], known + Def(code[0]), k - 1);
    }
  }

  /** Every register of lo .. hi is defined at most once, and no other. */
  ghost predicate OwnRegs(code: seq<Instr>, lo: nat, hi: nat) {
    && (forall k, r :: 0 <= k < |code| && r in Def(code[k]) ==> lo <= r < hi)
    && (forall i, k, r :: 0 <= i < |code| && 0 <= k < |code| && r in Def(code[i]) && r in Def(code[k]) ==> i == k)
  }

  lemma OwnConcat(a: seq<Instr>, b: seq<Instr>, lo: nat, mid: nat, hi: nat)
    requires OwnRegs(a, lo, mid) && OwnRegs(b, mid, hi) && lo <= mid <= hi
    ensures OwnRegs(a + b, lo, hi)
  {
  }

  lemma DefsConcat(a: seq<Instr>, b: seq<Instr>)
    ensures Defs(a + b) == Defs(a) + Defs(b)
  {
    forall r | r in Defs(a) ensures r in Defs(a + b) {
      var k: nat :| k < |a| && r in Def(a[k]);
      assert (a + b)[k] == a[k];
    }
    forall r | r in Defs(b) ensures r in Defs(a + b) {
      var k: nat :| k < |b| && r in Def(b[k]);
      assert (a + b)[|a| + k] == b[k];
    }
  }

  /** The code of an expression stands on its own. */
  ghost predicate Alone(c: Code, next: nat) {
    && next <= c.next && Straight(c.instrs, {}) && OwnRegs(c.instrs, next, c.next) && RegsOf(c.val) <= Defs(c.instrs)
  }

  lemma AloneThen(c: Code, next: nat, i: Instr, val: Operand, limit: nat)
    requires Alone(c, next) && !i.Phi? && Uses(i) <= Defs(c.instrs) && c.next <= limit
    requires forall r :: r in Def(i) ==> c.next <= r < limit
    requires RegsOf(val) <= Defs(c.instrs) + Def(i)
    ensures Alone(Code(c.instrs + [i], val, limit), next)
  {
    StraightMore([i], Defs(c.instrs), {} + Defs(c.instrs));
    StraightConcat(c.instrs, [i], {});
    OwnConcat(c.instrs, [i], next, c.next, limit);
    DefsConcat(c.instrs, [i]);
    DefsCons([i]);
  }

  lemma AloneBoth(a: Code, b: Code, next: nat)
    requires Alone(a, next) && Alone(b, a.next)
    ensures Alone(Code(a.instrs + b.instrs, b.val, b.next), next) && RegsOf(a.val) <= Defs(a.instrs + b.instrs)
  {
    StraightMore(b.instrs, {}, {} + Defs(a.instrs));
    StraightConcat(a.instrs, b.instrs, {});
    OwnConcat(a.instrs, b.instrs, next, a.next, b.next);
    DefsConcat(a.instrs, b.instrs);
  }

  lemma {:induction false} ExprAlone(e: Expr, scope: Scopes, next: nat)
    ensures Alone(ExprCode(e, scope, next), next)
  {
    hide Alone, ExprCode;
    match e
    case Num(n) => NumAlone(n, scope, next);
    case Var(id) => VarAlone(id, scope, next);
    case Assign(id, value) =>
      ExprAlone(value, scope, next);
      AssignAlone(id, value, scope, next);
    case Relation(rel, left, right) =>
      var a := ExprCode(left, scope, next);
      ExprAlone(left, scope, next);
      ExprAlone(right, scope, a.next);
      RelationAlone(rel, left, right, scope, next);
    case Arith(op, left, right) =>
      var a := ExprCode(left, scope, next);
      ExprAlone(left, scope, next);
      ExprAlone(right, scope, a.next);
      ArithAlone(op, left, right, scope, next);
    case Call(id, args) => CallAlone(id, args, scope, next);
  }

  lemma NumAlone(n: int, scope: Scopes, next: nat)
    ensures Alone(ExprCode(Num(n), scope, next), next)
  {
  }

  lemma VarAlone(id: string, scope: Scopes, next: nat)
    ensures Alone(ExprCode(Var(id), scope, next), next)
  {
    NumAlone(0, scope, next);
    AloneThen(Code([], Const(0), next), next, Load(next, Locate(scope, id)), Reg(next), next + 1);
    assert [] + [Load(next, Locate(scope, id))] == ExprCode(Var(id), scope, next).instrs;
  }

  lemma AssignAlone(id: string, value: Expr, scope: Scopes, next: nat)
    requires Alone(ExprCode(value, scope, next), next)
    ensures Alone(ExprCode(Assign(id, value), scope, next), next)
  {
    var c := ExprCode(value, scope, next);
    AloneThen(c, next, Store(c.val, Locate(scope, id)), c.val, c.next);
  }

  lemma ArithAlone(op: ArithOp, left: Expr, right: Expr, scope: Scopes, next: nat)
    requires Alone(ExprCode(left, scope, next), next)
    requires Alone(ExprCode(right, scope, ExprCode(left, scope, next).next), ExprCode(left, scope, next).next)
    ensures Alone(ExprCode(Arith(op, left, right), scope, next), next)
  {
    hide Straight, OwnRegs, Defs;
    var a := ExprCode(left, scope, next);
    var b := ExprCode(right, scope, a.next);
    AloneBoth(a, b, next);
    AloneThen(Code(a.instrs + b.instrs, b.val, b.next), next, Bin(b.next, OpOf(op), a.val, b.val), Reg(b.next), b.next + 1);
  }

  lemma RelationAlone(rel: CmpOp, left: Expr, right: Expr, scope: Scopes, next: nat)
    requires Alone(ExprCode(left, scope, next), next)
    requires Alone(ExprCode(right, scope, ExprCode(left, scope, next).next), ExprCode(left, scope, next).next)
    ensures Alone(ExprCode(Relation(rel, left, right), scope, next), next)
  {
    hide Alone;
    var a := ExprCode(left, scope, next);
    var b := ExprCode(right, scope, a.next);
    AloneBoth(a, b, next);
    ComparedAlone(rel, a, b, next);
  }

  lemma ComparedAlone(rel: CmpOp, a: Code, b: Code, next: nat)
    requires Alone(Code(a.instrs + b.instrs, b.val, b.next), next) && RegsOf(a.val) <= Defs(a.instrs + b.instrs)
    ensures Alone(Code(a.instrs + b.instrs + [Bin(b.next, Cmp(rel), a.val, b.val), Zext(b.next + 1, Reg(b.next))],
                       Reg(b.next + 1), b.next + 2), next)
  {
    var both := a.instrs + b.instrs;
    var cmp, z := Bin(b.next, Cmp(rel), a.val, b.val), Zext(b.next + 1, Reg(b.next));
    AloneThen(Code(both, b.val, b.next), next, cmp, Reg(b.next), b.next + 1);
    DefsConcat(both, [cmp]);
    AloneThen(Code(both + [cmp], Reg(b.next), b.next + 1), next, z, Reg(b.next + 1), b.next + 2);
    assert both + [cmp] + [z] == both + [cmp, z];
  }

  ghost predicate AllAlone(c: Codes, next: nat) {
    && next <= c.next && Straight(c.instrs, {}) && OwnRegs(c.instrs, next, c.next) && RegsOfAll(c.vals) <= Defs(c.instrs)
  }

  lemma {:induction false} ArgsAlone(es: seq<Expr>, scope: Scopes, next: nat)
    ensures AllAlone(ArgsCode(es, scope, next), next)
    decreases es, 0
  {
    if es != [] {
      var c := ExprCode(es[0], scope, next);
      var cs := ArgsCode(es[1..], scope, c.next);
      ExprAlone(es[0], scope, next);
      ArgsAlone(es[1..], scope, c.next);
      StraightMore(cs.instrs, {}, {} + Defs(c.instrs));
      StraightConcat(c.instrs, cs.instrs, {});
      OwnConcat(c.instrs, cs.instrs, next, c.next, cs.next);
      DefsConcat(c.instrs, cs.instrs);
      var vals := [c.val] + cs.vals;
      forall r | r in RegsOfAll(vals) ensures r in RegsOf(c.val) + RegsOfAll(cs.vals) {
        var k: nat :| k < |vals| && vals[k].Reg? && vals[k].id == r;
        if k > 0 { assert cs.vals[k - 1] == vals[k]; }
      }
    }
  }

  lemma CallAlone(id: string, args: seq<Expr>, scope: Scopes, next: nat)
    ensures Alone(ExprCode(Expr.Call(id, args), scope, next), next)
    decreases args, 1
  {
    var c := ArgsCode(args, scope, next);
    ArgsAlone(args, scope, next);
    AloneThen(Code(c.instrs, Const(0), c.next), next, Instr.Call(c.next, Callee(scope, id), c.vals), Reg(c.next), c.next + 1);
  }

  lemma CondAlone(e: Expr, scope: Scopes, next: nat)
    ensures Alone(CondCode(e, scope, next), next)
  {
    var c := ExprCode(e, scope, next);
    ExprAlone(e, scope, next);
    AloneThen(c, next, Bin(c.next, Cmp(NE), c.val, Const(0)), Reg(c.next), c.next + 1);
  }

  /** Registers below `next`, each defined once, before its uses and in the block that uses it. */
  ghost predicate RegsOk(blocks: seq<Draft>, next: nat) {
    && (forall b, k, r :: 0 <= b < |blocks| && 0 <= k < |blocks[b].instrs| && r in Def(blocks[b].instrs[k]) ==> r < next)
    && (forall b, b', k, k', r :: 0 <= b < |blocks| && 0 <= b' < |blocks| && 0 <= k < |blocks[b].instrs|
          && 0 <= k' < |blocks[b'].instrs| && r in Def(blocks[b].instrs[k]) && r in Def(blocks[b'].instrs[k'])
          ==> b == b' && k == k')
    && (forall b :: 0 <= b < |blocks| ==> Straight(blocks[b].instrs, {}))
    && (forall b :: 0 <= b < |blocks| && blocks[b].term.Some? ==> TermUses(blocks[b].term.value) <= Defs(blocks[b].instrs))
  }

  /** The instructions emitted come after those that were there. */
  lemma EmitAt(G: Gen, code: seq<Instr>, b: Block, k: nat)
    requires G.Placed() && b < |G.blocks| && k < |G.Emit(code).blocks[b].instrs|
    ensures var was, now := G.blocks[b].instrs, G.Emit(code).blocks[b].instrs;
            if b == G.cur && |was| <= k then k - |was| < |code| && now[k] == code[k - |was|] else k < |was| && now[k] == was[k]
  {
  }

  lemma EmitDefs(G: Gen, code: seq<Instr>, next: nat, b: Block, k: nat, r: nat)
    requires G.Placed() && RegsOk(G.blocks, G.nextReg) && OwnRegs(code, G.nextReg, next) && G.nextReg <= next
    requires b < |G.blocks| && k < |G.Emit(code).blocks[b].instrs| && r in Def(G.Emit(code).blocks[b].instrs[k])
    ensures r < next && (r < G.nextReg <==> !(b == G.cur && |G.blocks[b].instrs| <= k))
  {
    hide Straight, Def;
    EmitAt(G, code, b, k);
  }

  lemma EmitOnce(G: Gen, code: seq<Instr>, next: nat, b: Block, k: nat, b': Block, k': nat, r: nat)
    requires G.Placed() && RegsOk(G.blocks, G.nextReg) && OwnRegs(code, G.nextReg, next) && G.nextReg <= next
    requires b < |G.blocks| && k < |G.Emit(code).blocks[b].instrs| && r in Def(G.Emit(code).blocks[b].instrs[k])
    requires b' < |G.blocks| && k' < |G.Emit(code).blocks[b'].instrs| && r in Def(G.Emit(code).blocks[b'].instrs[k'])
    ensures b == b' && k == k'
  {
    hide Straight, Def, Gen.Emit;
    EmitDefs(G, code, next, b, k, r);
    EmitDefs(G, code, next, b', k', r);
    EmitAt(G, code, b, k);
    EmitAt(G, code, b', k');
  }

  lemma EmitRegs(G: Gen, code: seq<Instr>, next: nat)
    requires G.Placed() && RegsOk(G.blocks, G.nextReg) && G.blocks[G.cur].term.None?
    requires Straight(code, {}) && OwnRegs(code, G.nextReg, next) && G.nextReg <= next
    ensures RegsOk(G.Emit(code).blocks, next)
    ensures Defs(code) <= Defs(G.Emit(code).blocks[G.cur].instrs)
  {
    hide Straight, Def, Defs, OwnRegs;
    var was, G' := G.blocks[G.cur].instrs, G.Emit(code);
    StraightMore(code, {}, {} + Defs(was));
    StraightConcat(was, code, {});
    DefsConcat(was, code);
    forall b, k, r | 0 <= b < |G'.blocks| && 0 <= k < |G'.blocks[b].instrs| && r in Def(G'.blocks[b].instrs[k]) ensures r < next {
      EmitDefs(G, code, next, b, k, r);
    }
    forall b, b', k, k', r | 0 <= b < |G'.blocks| && 0 <= b' < |G'.blocks| && 0 <= k < |G'.blocks[b].instrs|
        && 0 <= k' < |G'.blocks[b'].instrs| && r in Def(G'.blocks[b].instrs[k]) && r in Def(G'.blocks[b'].instrs[k'])
      ensures b == b' && k == k'
    {
      EmitOnce(G, code, next, b, k, b', k', r);
    }
  }

  lemma EndRegs(G: Gen, t: Terminator)
    requires G.Open() && RegsOk(G.blocks, G.nextReg) && TermUses(t) <= Defs(G.blocks[G.cur].instrs)
    ensures RegsOk(G.End(t).blocks, G.nextReg)
  {
    var G' := G.End(t);
    forall b | 0 <= b < |G'.blocks| ensures G'.blocks[b].instrs == G.blocks[b].instrs {}
  }

  /** The same instructions and terminators, whatever the edge lists say. */
  lemma SameRegs(a: seq<Draft>, b: seq<Draft>, next: nat)
    requires RegsOk(a, next) && |a| == |b|
    requires forall k :: 0 <= k < |a| ==> b[k].instrs == a[k].instrs && b[k].term == a[k].term
    ensures RegsOk(b, next)
  {
  }

  lemma AddRegs(G: Gen, n: nat)
    requires RegsOk(G.blocks, G.nextReg)
    ensures RegsOk(G.AddBlocks(n).blocks, G.nextReg)
  {
    var G' := G.AddBlocks(n);
    forall b | 0 <= b < |G'.blocks| ensures G'.blocks[b] == if b < |G.blocks| then G.blocks[b] else NEW_BLOCK {}
  }

  // ----- statements -----

  /** Edges and registers are in order. */
  ghost predicate Shaped(G: Gen) {
    EdgesOk(G.blocks) && RegsOk(G.blocks, G.nextReg)
  }

  lemma ShapedEmit(G: Gen, c: Code)
    requires G.Open() && Shaped(G) && Alone(c, G.nextReg)
    ensures Shaped(G.EmitCode(c)) && RegsOf(c.val) <= Defs(G.EmitCode(c).blocks[G.cur].instrs)
  {
    hide EdgesOk, RegsOk;
    EmitEdges(G, c.instrs);
    EmitRegs(G, c.instrs, c.next);
  }

  lemma ShapedBranch(G: Gen, target: Block)
    requires G.Open() && Shaped(G) && target < |G.blocks|
    ensures Shaped(G.Branch(target))
  {
    hide EdgesOk, RegsOk;
    BranchEdges(G, target);
    EndRegs(G, Br(target));
    SameRegs(G.End(Br(target)).blocks, G.Branch(target).blocks, G.nextReg);
  }

  lemma ShapedClose(G: Gen, target: Block)
    requires G.Placed() && Shaped(G) && target < |G.blocks|
    ensures Shaped(G.Close(target))
  {
    if G.Open() { ShapedBranch(G, target); }
  }

  lemma ShapedRet(G: Gen, o: Operand)
    requires G.Open() && Shaped(G) && RegsOf(o) <= Defs(G.blocks[G.cur].instrs)
    ensures Shaped(G.End(Ret(o)))
  {
    RetEdges(G, o);
    EndRegs(G, Ret(o));
  }

  lemma ShapedCond(cond: Expr, G: Gen, t: Block, e: Block)
    requires G.Open() && Shaped(G) && t < |G.blocks| && e < |G.blocks|
    ensures Shaped(GenCond(cond, G, t, e))
  {
    hide EdgesOk, RegsOk;
    var c := CondCode(cond, G.scope, G.nextReg);
    var G1 := G.EmitCode(c);
    CondAlone(cond, G.scope, G.nextReg);
    ShapedEmit(G, c);
    CondEdges(G1, c.val, t, e);
    EndRegs(G1, CondBr(c.val, t, e));
    SameRegs(G1.End(CondBr(c.val, t, e)).blocks, G1.CondBranch(c.val, t, e).blocks, G1.nextReg);
  }

  lemma ShapedAdd(G: Gen, n: nat)
    requires Shaped(G)
    ensures Shaped(G.AddBlocks(n))
  {
    AddEdges(G, n);
    AddRegs(G, n);
  }

  lemma {:induction false} ShapedDecls(decls: seq<string>, G: Gen)
    requires G.Open() && G.scope != [] && Shaped(G)
    ensures Shaped(GenDecls(decls, G))
  {
    hide Shaped;
    if decls != [] {
      var G1 := G.Declare(decls[0]);
      ShapedCell(G, [Alloca(G.nextSlot, true)]);
      ShapedSame(G.Emit([Alloca(G.nextSlot, true)]), G1);
      ShapedDecls(decls[1..], G1);
    }
  }

  lemma ShapedSame(G: Gen, G': Gen)
    requires Shaped(G) && G'.blocks == G.blocks && G'.nextReg == G.nextReg
    ensures Shaped(G')
  {
  }

  /** Code that neither defines nor reads registers. */
  lemma ShapedCell(G: Gen, code: seq<Instr>)
    requires G.Open() && Shaped(G)
    requires forall k :: 0 <= k < |code| ==> Def(code[k]) == {} && Uses(code[k]) == {} && !code[k].Phi?
    ensures Shaped(G.Emit(code))
  {
    StraightCells(code);
    EmitEdges(G, code);
    EmitRegs(G, code, G.nextReg);
  }

  lemma {:induction false} StraightCells(code: seq<Instr>)
    requires forall k :: 0 <= k < |code| ==> Def(code[k]) == {} && Uses(code[k]) == {} && !code[k].Phi?
    ensures Straight(code, {})
  {
    if code != [] { StraightCells(code[1..]); }
  }

  lemma {:induction false} StmtShaped(s: Stmt, G: Gen)
    requires G.Open() && Shaped(G)
    ensures Shaped(GenStmt(s, G))
    decreases s, 1
  {
    hide Shaped;
    match s
    case ExprStmt(None) =>
    case ExprStmt(Some(e)) =>
      ExprAlone(e, G.scope, G.nextReg);
      ShapedEmit(G, ExprCode(e, G.scope, G.nextReg));
    case Return(None) => ShapedRet(G, Const(0));
    case Return(Some(e)) =>
      var c := ExprCode(e, G.scope, G.nextReg);
      ExprAlone(e, G.scope, G.nextReg);
      ShapedEmit(G, c);
      ShapedRet(G.EmitCode(c), c.val);
    case Compound(decls, stmts) => CompoundShaped(decls, stmts, G);
    case If(cond, thenPart, elsePart) => IfShaped(cond, thenPart, elsePart, G);
    case While(cond, body) => WhileShaped(cond, body, G);
  }

  lemma {:induction false} ListShaped(stmts: seq<Stmt>, G: Gen)
    requires G.Open() && Shaped(G)
    ensures Shaped(GenList(stmts, G))
    decreases stmts, 0
  {
    hide Shaped, GenStmt;
    if stmts != [] {
      StmtShaped(stmts[0], G);
      if GenStmt(stmts[0], G).Open() { ListShaped(stmts[1..], GenStmt(stmts[0], G)); }
    }
  }

  lemma CompoundShaped(decls: seq<string>, stmts: seq<Stmt>, G: Gen)
    requires G.Open() && Shaped(G)
    ensures Shaped(GenStmt(Compound(decls, stmts), G))
    decreases stmts, 1
  {
    hide Shaped, GenList, GenDecls, Kept;
    var G1 := GenDecls(decls, G.EnterScope());
    ShapedSame(G, G.EnterScope());
    ShapedDecls(decls, G.EnterScope());
    DeclsKept(decls, G.EnterScope());
    ListShaped(stmts, G1);
    ShapedSame(GenList(stmts, G1), GenList(stmts, G1).ExitScope());
  }

  lemma IfShaped(cond: Expr, thenPart: Stmt, elsePart: Option<Stmt>, G: Gen)
    requires G.Open() && Shaped(G)
    ensures Shaped(GenStmt(If(cond, thenPart, elsePart), G))
    decreases If(cond, thenPart, elsePart), 0
  {
    hide Shaped, Kept, GenCond, GenStmt, AfterThen, GenElse, BeforeThen;
    IfGen(cond, thenPart, elsePart, G);
    var b, B := |G.blocks|, BeforeThen(cond, G);
    BeforeThenShaped(cond, G);
    ThenForked(cond, G);
    ThenShaped(thenPart, G, B);
    ElseShaped(elsePart, G, AfterThen(GenStmt(thenPart, B), b));
  }

  lemma BeforeThenShaped(cond: Expr, G: Gen)
    requires G.Open() && Shaped(G)
    ensures Shaped(BeforeThen(cond, G))
  {
    hide Shaped, GenCond;
    var b := |G.blocks|;
    ShapedAdd(G, 3);
    ShapedCond(cond, G.AddBlocks(3), b, b + 1);
    ShapedSame(GenCond(cond, G.AddBlocks(3), b, b + 1), BeforeThen(cond, G));
  }

  lemma AfterThenShaped(T: Gen, n: Block)
    requires T.Placed() && n + 3 <= |T.blocks| && Shaped(T)
    ensures Shaped(AfterThen(T, n))
  {
    hide Shaped, Gen.Close;
    ShapedSame(T, T.ExitScope());
    ShapedClose(T.ExitScope(), n + 2);
    ShapedSame(T.ExitScope().Close(n + 2), AfterThen(T, n));
  }

  lemma ThenShaped(thenPart: Stmt, G: Gen, B: Gen)
    requires Shaped(B) && Forked(G, B, G.cur, |G.blocks|) && B.cur == |G.blocks|
    requires B.blocks[B.cur + 1] == NEW_BLOCK.(pre := [G.cur]) && B.blocks[B.cur + 2] == NEW_BLOCK
    ensures |G.blocks| + 3 <= |GenStmt(thenPart, B).blocks|
    ensures var A := AfterThen(GenStmt(thenPart, B), |G.blocks|); Shaped(A) && AtElse(G, A, |G.blocks|)
    decreases thenPart, 2
  {
    hide Shaped, GenStmt, AtElse, Kept, AfterThen;
    StmtShaped(thenPart, B);
    StmtKept(thenPart, B);
    ThenKept(G, B, GenStmt(thenPart, B));
    AfterThenShaped(GenStmt(thenPart, B), |G.blocks|);
  }

  lemma ElseShaped(elsePart: Option<Stmt>, G: Gen, A: Gen)
    requires Shaped(A) && AtElse(G, A, |G.blocks|)
    ensures Shaped(GenElse(elsePart, A, |G.blocks|))
    decreases elsePart, 2
  {
    hide Shaped, GenStmt, Kept, Gen.Close, Gen.Branch;
    var b := |G.blocks|;
    match elsePart
    case None =>
      ShapedBranch(A, b + 2);
      ShapedSame(A.Branch(b + 2), A.Branch(b + 2).MoveTo(b + 2));
    case Some(e) =>
      var E := GenStmt(e, A.EnterScope());
      ShapedSame(A, A.EnterScope());
      StmtShaped(e, A.EnterScope());
      ShapedSame(E, E.ExitScope());
      ShapedClose(E.ExitScope(), b + 2);
      ShapedSame(E.ExitScope().Close(b + 2), E.ExitScope().Close(b + 2).MoveTo(b + 2));
  }

  lemma WhileShaped(cond: Expr, body: Stmt, G: Gen)
    requires G.Open() && Shaped(G)
    ensures Shaped(GenStmt(While(cond, body), G))
    decreases While(cond, body), 0
  {
    hide Shaped, GenCond, AfterBody;
    var b := |G.blocks|;
    var G1 := G.AddBlocks(3);
    var G2 := G1.Branch(b).MoveTo(b);
    ShapedAdd(G, 3);
    ShapedBranch(G1, b);
    ShapedSame(G1.Branch(b), G2);
    ShapedCond(cond, G2, b + 1, b + 2);
    ShapedSame(GenCond(cond, G2, b + 1, b + 2), BeforeBody(cond, G));
    BodyForked(cond, G);
    LoopBodyShaped(body, G, BeforeBody(cond, G));
  }

  lemma LoopBodyShaped(body: Stmt, G: Gen, B: Gen)
    requires Shaped(B) && Forked(G, B, G.cur, |G.blocks|)
    ensures |G.blocks| + 3 <= |GenStmt(body, B).blocks|
    ensures Shaped(AfterBody(GenStmt(body, B), |G.blocks|))
    decreases body, 2
  {
    hide Shaped, GenStmt;
    var b, T := |G.blocks|, GenStmt(body, B);
    StmtShaped(body, B);
    ShapedSame(T, T.ExitScope());
    ShapedClose(T.ExitScope(), b);
    ShapedSame(T.ExitScope().Close(b), AfterBody(T, b));
  }

  // ----- terminators and predecessors -----

  /** Of the blocks a statement makes, only the insertion block is left open, and none has more
      than two predecessors. */
  ghost predicate Rounded(G: Gen, G': Gen)
    requires G.Placed()
  {
    && |G.blocks| <= |G'.blocks|
    && (forall b :: |G.blocks| <= b < |G'.blocks| ==> |G'.blocks[b].pre| <= 2)
    && (forall b :: |G.blocks| <= b < |G'.blocks| && b != G'.cur ==> G'.blocks[b].term.Some?)
    && (G'.cur != G.cur ==> G'.blocks[G.cur].term.Some?)
  }

  lemma {:induction false} StmtRounded(s: Stmt, G: Gen)
    requires G.Open()
    ensures Rounded(G, GenStmt(s, G))
    decreases s, 1
  {
    match s
    case Compound(decls, stmts) => CompoundRounded(decls, stmts, G);
    case If(cond, thenPart, elsePart) => IfRounded(cond, thenPart, elsePart, G);
    case While(cond, body) => WhileRounded(cond, body, G);
    case _ =>
  }

  lemma {:induction false} ListRounded(stmts: seq<Stmt>, G: Gen)
    requires G.Open()
    ensures Rounded(G, GenList(stmts, G))
    decreases stmts, 0
  {
    hide GenStmt;
    if stmts != [] {
      var G1 := GenStmt(stmts[0], G);
      StmtRounded(stmts[0], G);
      StmtKept(stmts[0], G);
      if G1.Open() {
        ListRounded(stmts[1..], G1);
        ListKept(stmts[1..], G1);
      }
    }
  }

  lemma CompoundRounded(decls: seq<string>, stmts: seq<Stmt>, G: Gen)
    requires G.Open()
    ensures Rounded(G, GenStmt(Compound(decls, stmts), G))
    decreases stmts, 1
  {
    hide GenList, GenDecls;
    DeclsKept(decls, G.EnterScope());
    ListRounded(stmts, GenDecls(decls, G.EnterScope()));
  }

  /** The first branch is complete, and the second and the end still to be generated. */
  ghost predicate ThenDone(G: Gen, A: Gen) {
    var n := |G.blocks|;
    && AtElse(G, A, n) && A.blocks[G.cur].term.Some?
    && (forall b :: n <= b < |A.blocks| ==> |A.blocks[b].pre| <= 2)
    && (forall b :: n <= b < |A.blocks| && b != n + 1 && b != n + 2 ==> A.blocks[b].term.Some?)
  }

  lemma ThenIsDone(G: Gen, B: Gen, T: Gen)
    requires Forked(G, B, G.cur, |G.blocks|) && B.cur == |G.blocks| && B.blocks[G.cur].term.Some?
    requires B.blocks[B.cur] == B.blocks[B.cur + 1] == NEW_BLOCK.(pre := [G.cur]) && B.blocks[B.cur + 2] == NEW_BLOCK
    requires Kept(B, T) && Rounded(B, T)
    ensures ThenDone(G, AfterThen(T, |G.blocks|))
  {
    ThenKept(G, B, T);
  }

  lemma ElseIsDone(G: Gen, A: Gen, E: Gen)
    requires ThenDone(G, A) && Kept(A.EnterScope(), E) && Rounded(A.EnterScope(), E)
    ensures |G.blocks| + 3 <= |E.blocks|
    ensures Rounded(G, E.ExitScope().Close(|G.blocks| + 2).MoveTo(|G.blocks| + 2))
  {
    var n := |G.blocks|;
    var R := E.ExitScope().Close(n + 2).MoveTo(n + 2);
    assert E.blocks[G.cur] == A.blocks[G.cur];
    forall b | n <= b < |R.blocks| ensures |R.blocks[b].pre| <= 2 && (b != n + 2 ==> R.blocks[b].term.Some?) {
      ElseBlockDone(G, A, E, b);
    }
  }

  lemma ElseBlockDone(G: Gen, A: Gen, E: Gen, b: Block)
    requires ThenDone(G, A) && Kept(A.EnterScope(), E) && Rounded(A.EnterScope(), E) && |G.blocks| <= b < |E.blocks|
    ensures |G.blocks| + 3 <= |E.blocks|
    ensures var d := E.ExitScope().Close(|G.blocks| + 2).blocks[b];
            |d.pre| <= 2 && (b != |G.blocks| + 2 ==> d.term.Some?)
  {
    if b < |A.blocks| && b != |G.blocks| + 1 { assert E.blocks[b] == A.blocks[b]; }
  }

  lemma IfRounded(cond: Expr, thenPart: Stmt, elsePart: Option<Stmt>, G: Gen)
    requires G.Open()
    ensures Rounded(G, GenStmt(If(cond, thenPart, elsePart), G))
    decreases If(cond, thenPart, elsePart), 0
  {
    hide Rounded, Kept, GenStmt, BeforeThen, AfterThen, GenElse;
    IfGen(cond, thenPart, elsePart, G);
    var B := BeforeThen(cond, G);
    ThenForked(cond, G);
    StmtRounded(thenPart, B);
    StmtKept(thenPart, B);
    ThenIsDone(G, B, GenStmt(thenPart, B));
    ElseRounded(elsePart, G, AfterThen(GenStmt(thenPart, B), |G.blocks|));
  }

  lemma ElseRounded(elsePart: Option<Stmt>, G: Gen, A: Gen)
    requires ThenDone(G, A)
    ensures Rounded(G, GenElse(elsePart, A, |G.blocks|))
    decreases elsePart, 2
  {
    hide GenStmt;
    match elsePart
    case None =>
      ElseIsDone(G, A, A.EnterScope());
      assert A.EnterScope().ExitScope() == A by { assert (A.scope + [map[]])[..|A.scope|] == A.scope; }
    case Some(e) =>
      StmtKept(e, A.EnterScope());
      StmtRounded(e, A.EnterScope());
      ElseIsDone(G, A, GenStmt(e, A.EnterScope()));
  }

  lemma WhileRounded(cond: Expr, body: Stmt, G: Gen)
    requires G.Open()
    ensures Rounded(G, GenStmt(While(cond, body), G))
    decreases While(cond, body), 0
  {
    hide Rounded, AfterBody, GenStmt, BeforeBody;
    WhileGen(cond, body, G);
    BodyForked(cond, G);
    LoopBodyRounded(body, G, BeforeBody(cond, G));
  }

  lemma LoopBodyRounded(body: Stmt, G: Gen, B: Gen)
    requires Forked(G, B, G.cur, |G.blocks|) && B.cur == |G.blocks| + 1 && B.blocks[G.cur].term.Some?
    requires B.blocks[|G.blocks|].pre == [G.cur] && B.blocks[|G.blocks|].term.Some?
    requires B.blocks[B.cur] == B.blocks[B.cur + 1] == NEW_BLOCK.(pre := [|G.blocks|])
    ensures |G.blocks| + 3 <= |GenStmt(body, B).blocks|
    ensures Rounded(G, AfterBody(GenStmt(body, B), |G.blocks|))
    decreases body, 2
  {
    hide GenStmt;
    StmtRounded(body, B);
    StmtKept(body, B);
  }
}
