// Renaming preserves meaning: a run with memory cells and a run on renamed values
// proceed block by block in step.
module RenamingMeaning {
  import opened Wrappers
  import opened Cfg
  import opened IdomTree
  import opened IdomFixpoint
  import opened IR
  import opened Renaming

  /** An initialised cell holds the value on top of its variable's stack, and a register
      in scope has the value that replaced it. Registers from `first` on are phis. */
  ghost predicate Related(c: Ctx, first: nat, args: seq<int>, s: State, t: State) {
    && s.world == t.world
    && (forall v :: v in s.cells ==> v in c.cur && Eval(c.cur[v], args, t.env) == Some(s.cells[v]))
    && (forall r :: r in s.env ==> r < first)
    && (forall r :: r in s.env && r in c.scope ==> Eval(Subst(c.sub, Reg(r)), args, t.env) == Some(s.env[r]))
  }

  lemma EvalRelated(c: Ctx, first: nat, args: seq<int>, s: State, t: State, o: Operand)
    requires Related(c, first, args, s, t) && RegsOf(o) <= c.scope && Eval(o, args, s.env).Some?
    ensures Eval(Subst(c.sub, o), args, t.env) == Eval(o, args, s.env)
  {
    if o.Reg? { assert o.id in RegsOf(o); }
  }

  lemma {:induction false} EvalAllRelated(c: Ctx, first: nat, args: seq<int>, s: State, t: State, os: seq<Operand>)
    requires Related(c, first, args, s, t) && RegsOfAll(os) <= c.scope && EvalAll(os, args, s.env).Some?
    ensures EvalAll(SubstAll(c.sub, os), args, t.env) == EvalAll(os, args, s.env)
  {
    if os != [] {
      assert RegsOf(os[0]) <= RegsOfAll(os) by {
        if os[0].Reg? { assert os[0].id in RegsOfAll(os); }
      }
      assert RegsOfAll(os[1..]) <= RegsOfAll(os) by {
        forall r | r in RegsOfAll(os[1..]) ensures r in RegsOfAll(os) {
          var k :| 0 <= k < |os[1..]| && os[1..][k].Reg? && os[1..][k].id == r;
          assert os[k + 1].id == r;
        }
      }
      EvalRelated(c, first, args, s, t, os[0]);
      EvalAllRelated(c, first, args, s, t, os[1..]);
      assert SubstAll(c.sub, os)[1..] == SubstAll(c.sub, os[1..]);
    }
  }

  /** Writing a register out of scope does not change what recorded values evaluate to. */
  lemma WriteOutOfScope(c: Ctx, args: seq<int>, env: Env, r: nat, x: int, o: Operand)
    requires RegsOf(o) <= c.scope && r !in c.scope
    ensures Eval(o, args, env[r := x]) == Eval(o, args, env)
  {
    if o.Reg? { assert o.id in RegsOf(o); }
  }

  /** A value assigned on both sides to a register that was not in scope. */
  lemma AssignRelated(c: Ctx, first: nat, args: seq<int>, s: State, t: State, r: nat, x: int, c': Ctx)
    requires Related(c, first, args, s, t) && WfCtx(c) && r < first && r !in c.scope
    requires c' == c.(scope := c.scope + {r})
    ensures Related(c', first, args, s.(env := s.env[r := x]), t.(env := t.env[r := x]))
  {
    forall v | v in s.cells ensures Eval(c.cur[v], args, t.env[r := x]) == Some(s.cells[v]) {
      WriteOutOfScope(c, args, t.env, r, x, c.cur[v]);
    }
    forall q | q in s.env[r := x] && q in c'.scope
      ensures Eval(Subst(c.sub, Reg(q)), args, t.env[r := x]) == Some(s.env[r := x][q])
    {
      if q != r {
        if q in c.sub { WriteOutOfScope(c, args, t.env, r, x, c.sub[q]); }
      }
    }
  }

  ghost predicate Steps(i: Instr, c: Ctx, first: nat, args: seq<int>, ext: Oracle, s: State, t: State) {
    && Related(c, first, args, s, t) && WfCtx(c) && Exec(i, args, ext, s).Some?
    && !i.Phi? && Uses(i) <= c.scope && Def(i) !! c.scope && forall r :: r in Def(i) ==> r < first
  }

  /** t' is the state after the renamed form of the instruction. */
  ghost predicate Stepped(i: Instr, c: Ctx, first: nat, args: seq<int>, ext: Oracle, s: State, t: State, t': State)
    requires Exec(i, args, ext, s).Some?
  {
    && ExecAll(if Deleted(i, c) then [] else [SubstInstr(c.sub, i)], args, ext, t) == Some(t')
    && Related(Advance(i, c), first, args, Exec(i, args, ext, s).value, t')
  }

  lemma LocalStepRelated(i: Instr, c: Ctx, first: nat, args: seq<int>, ext: Oracle, s: State, t: State) returns (t': State)
    requires Steps(i, c, first, args, ext, s, t)
    requires i.Alloca? || (i.Load? && i.addr.Local?) || (i.Store? && i.addr.Local?)
    ensures Stepped(i, c, first, args, ext, s, t, t')
  {
    var j := SubstInstr(c.sub, i);
    var s' := Exec(i, args, ext, s).value;
    t' := t;
    match i
    case Alloca(slot, _) =>
      t' := t.(cells := t.cells - {slot});
      ExecOne(j, args, ext, t);
    case Load(d, Local(v)) =>
      assert d in Def(i);
      var c' := Advance(i, c);
      forall q | q in s'.env && q in c'.scope
        ensures Eval(Subst(c'.sub, Reg(q)), args, t.env) == Some(s'.env[q])
      {
        if q != d { assert Subst(c'.sub, Reg(q)) == Subst(c.sub, Reg(q)); }
      }
    case Store(o, Local(v)) =>
      EvalRelated(c, first, args, s, t, o);
  }

  lemma MemoryStepRelated(i: Instr, c: Ctx, first: nat, args: seq<int>, ext: Oracle, s: State, t: State) returns (t': State)
    requires Steps(i, c, first, args, ext, s, t)
    requires (i.Load? && i.addr.Memory?) || (i.Store? && i.addr.Memory?)
    ensures Stepped(i, c, first, args, ext, s, t, t')
  {
    var j := SubstInstr(c.sub, i);
    var s' := Exec(i, args, ext, s).value;
    t' := t;
    match i
    case Load(d, Memory(p)) =>
      assert d in Def(i);
      EvalRelated(c, first, args, s, t, p);
      t' := t.(env := t.env[d := s'.env[d]]);
      ExecOne(j, args, ext, t);
      AssignRelated(c, first, args, s, t, d, s'.env[d], Advance(i, c));
    case Store(o, Memory(p)) =>
      EvalRelated(c, first, args, s, t, o);
      EvalRelated(c, first, args, s, t, p);
      t' := t.(world := s'.world);
      ExecOne(j, args, ext, t);
  }

  lemma ValueStepRelated(i: Instr, c: Ctx, first: nat, args: seq<int>, ext: Oracle, s: State, t: State) returns (t': State)
    requires Steps(i, c, first, args, ext, s, t)
    requires i.Bin? || i.Zext? || i.Call?
    ensures Stepped(i, c, first, args, ext, s, t, t')
  {
    var j := SubstInstr(c.sub, i);
    var s' := Exec(i, args, ext, s).value;
    t' := t;
    match i
    case Bin(d, op, a, b) =>
      assert d in Def(i);
      EvalRelated(c, first, args, s, t, a);
      EvalRelated(c, first, args, s, t, b);
      t' := t.(env := t.env[d := s'.env[d]]);
      ExecOne(j, args, ext, t);
      AssignRelated(c, first, args, s, t, d, s'.env[d], Advance(i, c));
    case Zext(d, o) =>
      assert d in Def(i);
      EvalRelated(c, first, args, s, t, o);
      t' := t.(env := t.env[d := s'.env[d]]);
      ExecOne(j, args, ext, t);
      AssignRelated(c, first, args, s, t, d, s'.env[d], Advance(i, c));
    case Call(d, f, os) =>
      assert d in Def(i);
      EvalAllRelated(c, first, args, s, t, os);
      t' := t.(env := t.env[d := s'.env[d]], world := s'.world);
      ExecOne(j, args, ext, t);
      AssignRelated(c, first, args, s, t, d, s'.env[d], Advance(i, c));
  }

  /** One instruction of the original and its renamed form, or nothing when it is deleted. */
  lemma StepRelated(i: Instr, c: Ctx, first: nat, args: seq<int>, ext: Oracle, s: State, t: State) returns (t': State)
    requires Related(c, first, args, s, t) && WfCtx(c)
    requires Exec(i, args, ext, s).Some?
    requires !i.Phi? && Uses(i) <= c.scope && Def(i) !! c.scope && forall r :: r in Def(i) ==> r < first
    ensures ExecAll(if Deleted(i, c) then [] else [SubstInstr(c.sub, i)], args, ext, t) == Some(t')
    ensures Related(Advance(i, c), first, args, Exec(i, args, ext, s).value, t')
  {
    hide Related, Exec, Advance, SubstInstr, WfCtx;
    match i
    case Alloca(_, _) => t' := LocalStepRelated(i, c, first, args, ext, s, t);
    case Load(_, Local(_)) => t' := LocalStepRelated(i, c, first, args, ext, s, t);
    case Store(_, Local(_)) => t' := LocalStepRelated(i, c, first, args, ext, s, t);
    case Load(_, Memory(_)) => t' := MemoryStepRelated(i, c, first, args, ext, s, t);
    case Store(_, Memory(_)) => t' := MemoryStepRelated(i, c, first, args, ext, s, t);
    case _ => t' := ValueStepRelated(i, c, first, args, ext, s, t);
  }

  lemma {:induction false} ExecCores(code: seq<Instr>, args: seq<int>, ext: Oracle, s: State)
    ensures ExecAll(Cores(code), args, ext, s) == ExecAll(code, args, ext, s)
  {
    if code != [] {
      assert Cores(code)[1..] == Cores(code[1..]);
      match Exec(code[0], args, ext, s)
      case None =>
      case Some(s') => ExecCores(code[1..], args, ext, s');
    }
  }

  /** Registers below `first` are those of ordinary instructions. */
  ghost predicate SplitRegs(code: seq<Instr>, first: nat) {
    forall k, r :: 0 <= k < |code| && r in Def(code[k]) ==> (code[k].Phi? <==> first <= r)
  }

  lemma {:induction false} BodyRelated(code: seq<Instr>, c: Ctx, first: nat, args: seq<int>, ext: Oracle, s: State, t: State)
    returns (t': State)
    requires Related(c, first, args, s, t) && WfCtx(c) && Scoped(code, c.scope) && SplitRegs(code, first)
    requires ExecAll(code, args, ext, s).Some?
    ensures ExecAll(RenameAll(code, c), args, ext, t) == Some(t')
    ensures Related(Scan(code, c), first, args, ExecAll(code, args, ext, s).value, t')
  {
    t' := t;
    if code != [] {
      var i := code[0];
      var head := if Deleted(i, c) then [] else [SubstInstr(c.sub, i)];
      var s' := Exec(i, args, ext, s).value;
      assert SplitRegs(code[1..], first) by {
        assert forall k :: 0 <= k < |code[1..]| ==> code[1..][k] == code[k + 1];
      }
      var t1 := t;
      if i.Phi? {
        ExecOne(SubstInstr(c.sub, i), args, ext, t);
      } else {
        t1 := StepRelated(i, c, first, args, ext, s, t);
      }
      AdvanceFacts(i, c);
      t' := BodyRelated(code[1..], Advance(i, c), first, args, ext, s', t1);
      ExecConcat(head, RenameAll(code[1..], Advance(i, c)), args, ext, t);
    }
  }

  // ----- crossing an edge -----

  lemma {:induction false} EnterPhisOther(code: seq<Instr>, prev: Block, args: seq<int>, at: Env, env: Env, r: nat)
    requires forall k :: 0 <= k < |code| && code[k].Phi? ==> code[k].dst != r
    ensures r in EnterPhis(code, prev, args, at, env) <==> r in env
    ensures r in env ==> EnterPhis(code, prev, args, at, env)[r] == env[r]
  {
    if code != [] {
      var env' := if code[0].Phi? then Assign(env, code[0].dst, Eval(PhiValue(code[0].pairs, prev), args, at)) else env;
      assert forall k :: 0 <= k < |code[1..]| ==> code[1..][k] == code[k + 1];
      EnterPhisOther(code[1..], prev, args, at, env', r);
    }
  }

  /** A phi whose register no other phi of the block writes gets the value of its edge. */
  lemma {:induction false} EnterPhisAt(code: seq<Instr>, prev: Block, args: seq<int>, at: Env, env: Env, k: nat)
    requires k < |code| && code[k].Phi?
    requires forall j :: 0 <= j < |code| && j != k && code[j].Phi? ==> code[j].dst != code[k].dst
    ensures Eval(Reg(code[k].dst), args, EnterPhis(code, prev, args, at, env))
         == Eval(PhiValue(code[k].pairs, prev), args, at)
  {
    var env' := if code[0].Phi? then Assign(env, code[0].dst, Eval(PhiValue(code[0].pairs, prev), args, at)) else env;
    assert forall j :: 0 <= j < |code[1..]| ==> code[1..][j] == code[j + 1];
    if k == 0 {
      EnterPhisOther(code[1..], prev, args, at, env', code[0].dst);
    } else {
      EnterPhisAt(code[1..], prev, args, at, env', k - 1);
    }
  }

  lemma {:induction false} PhiValueIs(pairs: seq<(Operand, Block)>, prev: Block, o: Operand)
    requires (o, prev) in pairs && forall q :: (q, prev) in pairs ==> q == o
    ensures PhiValue(pairs, prev) == o
  {
    assert (pairs[0].0, pairs[0].1) in pairs;
    if pairs[0].1 != prev {
      PhiValueIs(pairs[1..], prev, o);
    }
  }

  lemma {:induction false} PhiValueMissing(pairs: seq<(Operand, Block)>, prev: Block)
    requires forall o :: (o, prev) !in pairs
    ensures PhiValue(pairs, prev) == Undef
  {
    if pairs != [] {
      assert (pairs[0].0, pairs[0].1) in pairs;
      PhiValueMissing(pairs[1..], prev);
    }
  }

  function PhisOf(code: seq<Instr>): seq<Instr> {
    if code == [] then []
    else if code[0].Phi? then [code[0]] + PhisOf(code[1..])
    else PhisOf(code[1..])
  }

  lemma {:induction false} PhisOfMembers(code: seq<Instr>)
    ensures forall k :: 0 <= k < |PhisOf(code)| ==> PhisOf(code)[k].Phi? && PhisOf(code)[k] in code
    ensures forall k :: 0 <= k < |code| && code[k].Phi? ==> code[k] in PhisOf(code)
  {
    if code != [] {
      PhisOfMembers(code[1..]);
      assert forall k :: 0 <= k < |code[1..]| ==> code[1..][k] == code[k + 1];
      assert forall i :: i in code[1..] ==> i in code;
    }
  }

  lemma {:induction false} EnterPhisOf(code: seq<Instr>, prev: Block, args: seq<int>, at: Env, env: Env)
    ensures EnterPhis(PhisOf(code), prev, args, at, env) == EnterPhis(code, prev, args, at, env)
  {
    if code != [] {
      if code[0].Phi? {
        var env' := Assign(env, code[0].dst, Eval(PhiValue(code[0].pairs, prev), args, at));
        EnterPhisOf(code[1..], prev, args, at, env');
        assert PhisOf(code)[0] == code[0] && PhisOf(code)[1..] == PhisOf(code[1..]);
      } else {
        EnterPhisOf(code[1..], prev, args, at, env);
      }
    }
  }

  lemma {:induction false} PhiScanOf(code: seq<Instr>, c: Ctx)
    requires PhisFresh(code, c.scope)
    ensures PhiScan(PhisOf(code), c) == PhiScan(code, c) && PhisFresh(PhisOf(code), c.scope)
  {
    if code != [] {
      if code[0].Phi? {
        PhiScanOf(code[1..], Ctx(c.cur[code[0].lval := Reg(code[0].dst)], c.sub, c.scope + {code[0].dst}));
        assert PhisOf(code)[0] == code[0] && PhisOf(code)[1..] == PhisOf(code[1..]);
      } else {
        PhiScanOf(code[1..], c);
      }
    }
  }

  lemma {:induction false} PhisOfCores(code: seq<Instr>)
    ensures PhisOf(Cores(code)) == Cores(PhisOf(code))
  {
    if code != [] {
      PhisOfCores(code[1..]);
      assert Cores(code)[1..] == Cores(code[1..]);
    }
  }

  lemma {:induction false} PhisOfConcat(a: seq<Instr>, b: seq<Instr>)
    ensures PhisOf(a + b) == PhisOf(a) + PhisOf(b)
  {
    if a == [] {
      assert a + b == b;
    } else {
      assert (a + b)[0] == a[0] && (a + b)[1..] == a[1..] + b;
      PhisOfConcat(a[1..], b);
    }
  }

  /** Renaming neither drops nor reorders phis. */
  lemma {:induction false} PhisOfRenamed(code: seq<Instr>, c: Ctx)
    requires forall k :: 0 <= k < |code| && code[k].Phi? ==> code[k].pairs == []
    ensures PhisOf(RenameAll(code, c)) == PhisOf(code)
  {
    if code != [] {
      assert forall k :: 0 <= k < |code[1..]| ==> code[1..][k] == code[k + 1];
      PhisOfRenamed(code[1..], Advance(code[0], c));
      var head := if Deleted(code[0], c) then [] else [SubstInstr(c.sub, code[0])];
      PhisOfConcat(head, RenameAll(code[1..], Advance(code[0], c)));
      if code[0].Phi? {
        assert SubstPairs(c.sub, code[0].pairs) == [];
        assert PhisOf(head) == [code[0]] + PhisOf(head[1..]);
      } else {
        assert PhisOf(head) == [];
      }
    }
  }

  /** Phi registers are distinct and were not in scope. */
  lemma {:induction false} FreshPhis(phis: seq<Instr>, scope: set<nat>)
    requires PhisFresh(phis, scope) && forall k :: 0 <= k < |phis| ==> phis[k].Phi?
    ensures forall k :: 0 <= k < |phis| ==> phis[k].dst !in scope && phis[k].pairs == []
    ensures forall j, k :: 0 <= j < |phis| && 0 <= k < |phis| && j != k ==> phis[j].dst != phis[k].dst
  {
    if phis != [] {
      FreshPhis(phis[1..], scope + {phis[0].dst});
      assert forall k :: 0 < k < |phis| ==> phis[k] == phis[1..][k - 1];
    }
  }

  /** After the phis of a block a variable's value is its phi, or else what it was before. */
  lemma {:induction false} PhiScanCur(phis: seq<Instr>, c: Ctx, v: nat)
    requires forall k :: 0 <= k < |phis| ==> phis[k].Phi?
    ensures HasPhi(phis, v) ==>
              exists k :: 0 <= k < |phis| && phis[k].lval == v && Lookup(PhiScan(phis, c).cur, v) == Some(Reg(phis[k].dst))
    ensures !HasPhi(phis, v) ==> Lookup(PhiScan(phis, c).cur, v) == Lookup(c.cur, v)
  {
    if phis != [] {
      var c' := Ctx(c.cur[phis[0].lval := Reg(phis[0].dst)], c.sub, c.scope + {phis[0].dst});
      var rest := phis[1..];
      PhiScanCur(rest, c', v);
      assert forall k :: 0 <= k < |rest| ==> rest[k] == phis[k + 1];
      if HasPhi(rest, v) {
        var k :| 0 <= k < |rest| && rest[k].lval == v && Lookup(PhiScan(rest, c').cur, v) == Some(Reg(rest[k].dst));
        assert phis[k + 1].lval == v;
      } else if phis[0].lval == v {
        assert Lookup(PhiScan(phis, c).cur, v) == Some(Reg(phis[0].dst));
      } else {
        assert !HasPhi(phis, v);
      }
    }
  }

  lemma {:induction false} PhiScanScope(phis: seq<Instr>, c: Ctx, r: nat)
    requires forall k :: 0 <= k < |phis| ==> phis[k].Phi?
    ensures r in PhiScan(phis, c).scope ==> r in c.scope || exists k :: 0 <= k < |phis| && phis[k].dst == r
  {
    if phis != [] {
      var c' := Ctx(c.cur[phis[0].lval := Reg(phis[0].dst)], c.sub, c.scope + {phis[0].dst});
      PhiScanScope(phis[1..], c', r);
      assert forall k :: 0 <= k < |phis[1..]| ==> phis[1..][k] == phis[k + 1];
    }
  }

  /** The phis of the renamed block, seen from predecessor p. */
  ghost predicate PhisFor(phis: seq<Instr>, out: seq<Instr>, cur: map<nat, Operand>, p: Block) {
    && |out| == |phis|
    && forall k :: 0 <= k < |phis| ==>
         && phis[k].Phi? && out[k].Phi? && out[k].dst == phis[k].dst && out[k].lval == phis[k].lval
         && PhiValue(out[k].pairs, p) == if phis[k].lval in cur then cur[phis[k].lval] else Undef
  }

  /** What a phi's slot holds once the phis of b have run. */
  lemma PhiCellRelated(phis: seq<Instr>, out: seq<Instr>, cp: Ctx, cb: Ctx, p: Block, first: nat,
                       args: seq<int>, s: State, t: State, v: nat)
    requires Related(cp, first, args, s, t) && WfCtx(cb) && Extends(cb, cp) && v in s.cells
    requires PhisFresh(phis, cb.scope) && PhisFor(phis, out, cp.cur, p)
    requires !HasPhi(phis, v) ==> Lookup(cp.cur, v) == Lookup(cb.cur, v)
    requires forall o: Operand :: RegsOf(o) <= cb.scope
               ==> Eval(o, args, EnterPhis(out, p, args, t.env, t.env)) == Eval(o, args, t.env)
    ensures v in PhiScan(phis, cb).cur
    ensures Eval(PhiScan(phis, cb).cur[v], args, EnterPhis(out, p, args, t.env, t.env)) == Some(s.cells[v])
  {
    FreshPhis(phis, cb.scope);
    PhiScanCur(phis, cb, v);
    if HasPhi(phis, v) {
      var k :| 0 <= k < |phis| && phis[k].lval == v && Lookup(PhiScan(phis, cb).cur, v) == Some(Reg(phis[k].dst));
      EnterPhisAt(out, p, args, t.env, t.env, k);
    }
  }

  /** Entering a block from p with its phis: if a variable without phi keeps its value,
      the relation carries over to the block. */
  lemma PhisRelated(phis: seq<Instr>, out: seq<Instr>, cp: Ctx, cb: Ctx, p: Block, first: nat,
                    args: seq<int>, s: State, t: State)
    requires Related(cp, first, args, s, t) && WfCtx(cb) && Extends(cb, cp)
    requires PhisFresh(phis, cb.scope) && PhisFor(phis, out, cp.cur, p)
    requires forall k :: 0 <= k < |phis| ==> first <= phis[k].dst
    requires forall v :: !HasPhi(phis, v) ==> Lookup(cp.cur, v) == Lookup(cb.cur, v)
    ensures Related(PhiScan(phis, cb), first, args, s, t.(env := EnterPhis(out, p, args, t.env, t.env)))
  {
    var env' := EnterPhis(out, p, args, t.env, t.env);
    var c' := PhiScan(phis, cb);
    FreshPhis(phis, cb.scope);
    PhiScanFacts(phis, cb);
    forall o: Operand | RegsOf(o) <= cb.scope ensures Eval(o, args, env') == Eval(o, args, t.env) {
      if o.Reg? {
        assert o.id in RegsOf(o);
        EnterPhisOther(out, p, args, t.env, t.env, o.id);
      }
    }
    forall v | v in s.cells ensures v in c'.cur && Eval(c'.cur[v], args, env') == Some(s.cells[v]) {
      PhiCellRelated(phis, out, cp, cb, p, first, args, s, t, v);
    }
    forall r | r in s.env && r in c'.scope
      ensures Eval(Subst(c'.sub, Reg(r)), args, env') == Some(s.env[r])
    {
      PhiScanScope(phis, cb, r);
      assert r in cb.scope;
      assert Subst(cp.sub, Reg(r)) == Subst(cb.sub, Reg(r));
      assert RegsOf(Subst(cb.sub, Reg(r))) <= cb.scope;
    }
  }

  /** A renamed block offers the phis that PhisRelated asks for. */
  lemma RenamedPhis(code: Code, g: Graph, up: Up, po: Order, p: Block, b: Block, out: seq<Instr>)
    requires Climbs(up, po) && AllScoped(code, up, po) && Edge(g, p, b) && p in up && b in up
    requires RenamedBlock(code, up, po, g, b, out)
    ensures PhisFor(PhisOf(At(code, b)), PhisOf(out), CtxOut(code, up, po, p).cur, p)
  {
    var body := At(code, b);
    var c := CtxOut(code, up, po, p);
    assert BlockScoped(code, up, po, b);
    PhiScanOf(body, CtxIn(code, up, po, b));
    PhisOfMembers(body);
    PhisOfMembers(out);
    FreshPhis(PhisOf(body), CtxIn(code, up, po, b).scope);
    PhisOfRenamed(body, CtxPhi(code, up, po, b));
    PhisOfCores(out);
    var phis, outs := PhisOf(body), PhisOf(out);
    assert Cores(outs) == phis;
    forall k | 0 <= k < |phis|
      ensures PhiValue(outs[k].pairs, p) == if phis[k].lval in c.cur then c.cur[phis[k].lval] else Undef
    {
      assert Cores(outs)[k] == Core(outs[k]);
      assert outs[k] in out;
      var v := phis[k].lval;
      assert PairsFrom(code, up, po, g, up.Keys, b, v, outs[k].pairs);
      if v in c.cur {
        assert (c.cur[v], p) in outs[k].pairs;
        PhiValueIs(outs[k].pairs, p, c.cur[v]);
      } else {
        PhiValueMissing(outs[k].pairs, p);
      }
    }
    forall k | 0 <= k < |phis| ensures outs[k].dst == phis[k].dst && outs[k].lval == phis[k].lval {
      assert Cores(outs)[k] == Core(outs[k]);
    }
  }
}
