// When the partition stays true of an execution as one instruction is placed, and what replacing
// members by leaders does to an instruction.
module GvnSound {
  import opened Wrappers
  import IR
  import opened Gvn
  import opened GvnTransfer

  /** What the transfer function starts from. */
  ghost predicate Numbered(N: Numbering, M: Machine, env: Env, sides: Sides) {
    && Sorted(N.classes) && Disjoint(N.classes) && Sound(N.classes, M, env, sides)
    && forall c :: c in N.classes ==> c.index < N.next
  }

  /** The environment only gains registers. */
  ghost predicate Grows(env: Env, env': Env) {
    forall id :: id in env ==> id in env' && env'[id] == env[id]
  }

  lemma ValGrows(v: Value, M: Machine, env: Env, env': Env)
    requires Grows(env, env') && Val(v, M, env).Some?
    ensures Val(v, M, env') == Val(v, M, env)
  {
  }

  lemma {:induction false} LeafValsGrow(es: seq<Expr>, M: Machine, env: Env, env': Env)
    requires Grows(env, env') && LeafVals(es, M, env).Some?
    ensures LeafVals(es, M, env') == LeafVals(es, M, env)
  {
    if es != [] {
      ValGrows(es[0].c, M, env, env');
      LeafValsGrow(es[1..], M, env, env');
    }
  }

  lemma EvalGrows(e: Expr, M: Machine, env: Env, env': Env)
    requires Grows(env, env') && EvalExpr(e, M, env).Some?
    ensures EvalExpr(e, M, env') == EvalExpr(e, M, env)
  {
    match e
    case Binary(op, Leaf(l), Leaf(r)) => ValGrows(l, M, env, env'); ValGrows(r, M, env, env');
    case Multi(es, ZextKind) => ValGrows(es[0].c, M, env, env');
    case Multi(es, GepKind) => LeafValsGrow(es, M, env, env');
    case Multi(es, PureCall) => LeafValsGrow(es[1..], M, env, env');
    case _ =>
  }

  lemma TrueGrows(c: Class, m: Value, M: Machine, env: Env, env': Env, sides: Sides)
    requires TrueOf(c, m, M, env, sides) && Grows(env, env')
    ensures TrueOf(c, m, M, env', sides)
  {
    ValGrows(m, M, env, env');
    ValGrows(c.leader.value, M, env, env');
    if c.expr.Some? && HasMeaning(c.expr.value) { EvalGrows(c.expr.value, M, env, env'); }
    if c.phi.Some? { ValGrows(Side(c.phi.value, sides(c.index)).c, M, env, env'); }
  }

  lemma SoundGrows(P: Partition, M: Machine, env: Env, env': Env, sides: Sides)
    requires Sound(P, M, env, sides) && Grows(env, env')
    ensures Sound(P, M, env', sides)
  {
    hide TrueOf;
    forall c, m {:trigger TrueOf(c, m, M, env', sides)} | c in P && m in c.members ensures TrueOf(c, m, M, env', sides) {
      assert TrueOf(c, m, M, env, sides);
      TrueGrows(c, m, M, env, env', sides);
    }
  }

  // ----- lookups -----

  lemma {:induction false} FindLeaderIn(P: Partition, v: Value)
    ensures FindLeader(P, v).Some? ==> exists c :: c in P && v in c.members && c.leader == FindLeader(P, v)
    decreases |P|
  {
    if P != [] {
      var n := |P| - 1;
      assert P[n] in P;
      if v !in P[n].members {
        FindLeaderIn(P[..n], v);
        assert forall c :: c in P[..n] ==> c in P;
      }
    }
  }

  /** The leader of a value has the value's value. */
  lemma LeaderVal(P: Partition, M: Machine, env: Env, sides: Sides, v: Value)
    requires Sound(P, M, env, sides)
    ensures Val(LeaderOf(P, v), M, env) == Val(v, M, env)
    ensures v.FuncVar? ==> LeaderOf(P, v) == v
  {
    FindLeaderIn(P, v);
    if FindLeader(P, v).Some? {
      var c :| c in P && v in c.members && c.leader == FindLeader(P, v);
      assert TrueOf(c, v, M, env, sides);
    }
  }

  lemma {:induction false} ConstVal(P: Partition, Q: Partition, M: Machine, env: Env, sides: Sides, v: Value)
    requires Sound(Q, M, env, sides) && forall c :: c in P ==> c in Q
    ensures FindConst(P, v).Some? ==> Val(v, M, env) == FindConst(P, v)
  {
    if !v.IntConst? && P != [] {
      assert P[0] in Q;
      if v in P[0].members {
        assert TrueOf(P[0], v, M, env, sides);
      }
      assert forall c :: c in P[1..] ==> c in P;
      ConstVal(P[1..], Q, M, env, sides, v);
    }
  }

  lemma {:induction false} LeadersVals(P: Partition, M: Machine, env: Env, sides: Sides, vs: seq<Value>)
    requires Sound(P, M, env, sides)
    ensures LeafVals(Leaders(P, vs), M, env) == Vals(vs, M, env)
  {
    if vs != [] {
      LeaderVal(P, M, env, sides, vs[0]);
      assert Leaders(P, vs)[1..] == Leaders(P, vs[1..]);
      LeadersVals(P, M, env, sides, vs[1..]);
    }
  }

  /** The value an instruction has computed. */
  function Computed(i: Inst, s': State): Option<int>
    requires HasValue(i)
  {
    if i.id in s'.env then Some(s'.env[i.id]) else None
  }

  /** The value expression of an instruction means what the instruction computes. */
  lemma ExprMeans(P: Partition, i: Inst, M: Machine, s: State, sides: Sides)
    requires Sound(P, M, s.env, sides) && HasValue(i) && Exec(i, M, s).Some?
    ensures Computed(i, Exec(i, M, s).value).Some?
    ensures HasMeaning(ValueExpr(P, i)) ==> EvalExpr(ValueExpr(P, i), M, s.env) == Computed(i, Exec(i, M, s).value)
  {
    match i
    case Bin(_, op, l, r) => LeaderVal(P, M, s.env, sides, l); LeaderVal(P, M, s.env, sides, r);
    case Zext(_, v) => LeaderVal(P, M, s.env, sides, v);
    case Load(_, _) =>
    case Gep(_, ops) => LeadersVals(P, M, s.env, sides, ops);
    case Call(_, f, pure, _, args) =>
      if pure {
        LeaderVal(P, M, s.env, sides, FuncVar(f));
        var es := Leaders(P, [FuncVar(f)] + args);
        assert es[1..] == Leaders(P, args);
        LeadersVals(P, M, s.env, sides, args);
      }
    case Alloca(_) =>
  }

  /** A folded leader has the value the instruction computes, and folding succeeds. */
  lemma LeaderMeans(P: Partition, i: Inst, M: Machine, s: State, sides: Sides)
    requires Sound(P, M, s.env, sides) && HasValue(i) && Exec(i, M, s).Some?
    ensures NewLeader(P, i).Some?
    ensures Val(NewLeader(P, i).value, M, Exec(i, M, s).value.env) == Computed(i, Exec(i, M, s).value)
  {
    match i
    case Bin(_, op, l, r) => ConstVal(P, P, M, s.env, sides, l); ConstVal(P, P, M, s.env, sides, r);
    case Zext(_, v) => ConstVal(P, P, M, s.env, sides, v);
    case _ =>
  }

  lemma ExecGrows(i: Inst, M: Machine, s: State)
    requires Exec(i, M, s).Some? && (HasValue(i) ==> i.id !in s.env)
    ensures Grows(s.env, Exec(i, M, s).value.env)
    ensures HasValue(i) ==> Exec(i, M, s).value.env.Keys == s.env.Keys + {i.id}
    ensures !HasValue(i) ==> Exec(i, M, s).value.env == s.env
  {
  }

  // ----- one instruction -----

  /** The class the new member goes to, if any. */
  function FirstMatch(P: Partition, ve: Expr, vpf: Option<Expr>): Option<nat> {
    if P == [] then None
    else if Matches(P[0], ve, vpf) then Some(0)
    else match FirstMatch(P[1..], ve, vpf) case None => None case Some(k) => Some(k + 1)
  }

  lemma {:induction false} AddToMatchIs(P: Partition, ve: Expr, vpf: Option<Expr>, v: Value)
    ensures match FirstMatch(P, ve, vpf)
            case None => AddToMatch(P, ve, vpf, v) == None
            case Some(k) => AddToMatch(P, ve, vpf, v).Some? && AddedAt(P, AddToMatch(P, ve, vpf, v).value, k, v)
                            && P[k] in P && Matches(P[k], ve, vpf)
  {
    hide Matches;
    if P != [] && !Matches(P[0], ve, vpf) {
      AddToMatchIs(P[1..], ve, vpf, v);
    }
  }

  /** Class k has the new member v; the others are as before. */
  ghost predicate AddedAt(P: Partition, P': Partition, k: nat, v: Value) {
    k < |P| && P' == P[k := P[k].(members := P[k].members + {v})]
  }

  /** Where the members of a class come from: the same class before, but for registers not yet defined. */
  ghost predicate Traces(P: Partition, P': Partition, env: Env) {
    forall c', v {:trigger v in c'.members, c' in P'} :: c' in P' && v in c'.members && (v.Instr? ==> v.id in env) ==>
      Holder(P, v, c'.leader, c'.phi.Some?)
  }

  ghost predicate Holder(P: Partition, v: Value, leader: Option<Value>, hasPhi: bool) {
    exists c :: c in P && v in c.members && c.leader == leader && c.phi.Some? == hasPhi
  }

  lemma AddNumbered(N: Numbering, P': Partition, k: nat, id: nat, M: Machine, env: Env, env': Env, sides: Sides)
    requires Numbered(N, M, env, sides) && Grows(env, env') && id !in env && id in env' && AddedAt(N.classes, P', k, Instr(id))
    requires TrueOf(N.classes[k], Instr(id), M, env', sides)
    ensures Numbered(N.(classes := P'), M, env', sides) && Traces(N.classes, P', env)
  {
    hide TrueOf, Sound;
    var P := N.classes;
    SoundGrows(P, M, env, env', sides);
    NotMembers(P, id, M, env, sides);
    AddSound(P, P', k, Instr(id), M, env', sides);
    forall i, j | 0 <= i < j < |P'| ensures P'[i].members !! P'[j].members {
      assert P[i] in P && P[j] in P && P[i].members !! P[j].members;
    }
    forall d | d in P' ensures d.index < N.next {
      var j: nat :| j < |P'| && P'[j] == d;
      assert P[j] in P;
    }
    AddTraces(P, P', k, id, env);
  }

  lemma NotMembers(P: Partition, id: nat, M: Machine, env: Env, sides: Sides)
    requires Sound(P, M, env, sides) && id !in env
    ensures forall c :: c in P ==> Instr(id) !in c.members
  {
    forall c | c in P ensures Instr(id) !in c.members { NotYetMember(P, c, id, M, env, sides); }
  }

  lemma AddSound(P: Partition, P': Partition, k: nat, v: Value, M: Machine, env: Env, sides: Sides)
    requires Sound(P, M, env, sides) && AddedAt(P, P', k, v) && TrueOf(P[k], v, M, env, sides) && !v.FuncVar?
    ensures Sound(P', M, env, sides)
  {
    hide TrueOf;
    forall d, m {:trigger TrueOf(d, m, M, env, sides)} | d in P' && m in d.members ensures TrueOf(d, m, M, env, sides) {
      var j: nat :| j < |P'| && P'[j] == d;
      assert P[j] in P;
      if j == k {
        if m != v { assert TrueOf(P[k], m, M, env, sides); }
        SameTruth(P[k], d, m, M, env, sides);
      } else {
        assert TrueOf(P[j], m, M, env, sides);
      }
    }
    forall d | d in P'
      ensures d.members != {} && !(exists f :: FuncVar(f) in d.members)
      ensures d.expr.Some? && d.expr.value.Unique? ==> d.expr.value.id in env
    {
      var j: nat :| j < |P'| && P'[j] == d;
      assert P[j] in P;
    }
  }

  lemma AddTraces(P: Partition, P': Partition, k: nat, id: nat, env: Env)
    requires AddedAt(P, P', k, Instr(id)) && id !in env
    ensures Traces(P, P', env)
  {
    forall d, v {:trigger v in d.members, d in P'} | d in P' && v in d.members && (v.Instr? ==> v.id in env)
      ensures Holder(P, v, d.leader, d.phi.Some?)
    {
      var j: nat :| j < |P'| && P'[j] == d;
      assert P[j] in P && v in P[j].members && P[j].leader == d.leader;
    }
  }

  lemma NotYetMember(P: Partition, c: Class, id: nat, M: Machine, env: Env, sides: Sides)
    requires Sound(P, M, env, sides) && c in P && id !in env
    ensures Instr(id) !in c.members
  {
    forall m | m in c.members ensures m != Instr(id) { assert TrueOf(c, m, M, env, sides); }
  }

  lemma SameTruth(c: Class, d: Class, m: Value, M: Machine, env: Env, sides: Sides)
    requires d.leader == c.leader && d.expr == c.expr && d.phi == c.phi && d.index == c.index
    ensures TrueOf(c, m, M, env, sides) <==> TrueOf(d, m, M, env, sides)
  {
  }

  lemma NewNumbered(N: Numbering, c: Class, id: nat, M: Machine, env: Env, env': Env, sides: Sides)
    requires Numbered(N, M, env, sides) && Grows(env, env') && id !in env && id in env'
    requires c.index == N.next && c.members == {Instr(id)} && c.phi == None && TrueOf(c, Instr(id), M, env', sides)
    requires c.expr.Some? && (c.expr.value.Unique? ==> c.expr.value.id == id)
    ensures Numbered(Numbering(Insert(N.classes, c), N.next + 1), M, env', sides) && Traces(N.classes, Insert(N.classes, c), env)
  {
    hide TrueOf, Sound;
    var P := N.classes;
    InsertLast(P, c);
    SoundGrows(P, M, env, env', sides);
    NotMembers(P, id, M, env, sides);
    SoundSnoc(P, c, Instr(id), M, env', sides);
    var P' := P + [c];
    forall i, j | 0 <= i < j < |P'| ensures P'[i].members !! P'[j].members && P'[i].index < P'[j].index {
      assert P[i] in P;
    }
    forall d, v {:trigger v in d.members, d in P'} | d in P' && v in d.members && (v.Instr? ==> v.id in env)
      ensures Holder(P, v, d.leader, d.phi.Some?)
    {
      assert d in P;
    }
  }

  lemma SoundSnoc(P: Partition, c: Class, v: Value, M: Machine, env: Env, sides: Sides)
    requires Sound(P, M, env, sides) && c.members == {v} && !v.FuncVar? && TrueOf(c, v, M, env, sides)
    requires c.expr.Some? && c.expr.value.Unique? ==> c.expr.value.id in env
    ensures Sound(P + [c], M, env, sides)
  {
    hide TrueOf;
  }

  /** If the instruction goes to a class because of its value phi alone, then what its operation
      yields is what that value phi stands for at the join of that class. */
  ghost predicate Agrees(P: Partition, ve: Expr, vpf: Option<Expr>, M: Machine, env: Env, sides: Sides) {
    match FirstMatch(P, ve, vpf)
    case None => true
    case Some(k) => k < |P| && (P[k].expr != Some(ve) ==>
      vpf.Some? && EvalExpr(ve, M, env) == SideVal(vpf.value, sides(P[k].index), M, env))
  }

  /** An expression that is already in a class is not one of a kind. */
  lemma FreshExprMeans(P: Partition, c: Class, i: Inst, M: Machine, env: Env, sides: Sides)
    requires Sound(P, M, env, sides) && c in P && HasValue(i) && !i.Load? && i.id !in env
    ensures c.expr == Some(ValueExpr(P, i)) ==> HasMeaning(ValueExpr(P, i))
  {
  }

  /** A class that matches is true of the instruction exactly if the instruction agrees. */
  lemma MatchIsTrue(P: Partition, k: nat, i: Inst, vpf: Option<Expr>, M: Machine, s: State, sides: Sides)
    requires Sound(P, M, s.env, sides) && HasValue(i) && !i.Load? && i.id !in s.env && Exec(i, M, s).Some?
    requires vpf.Some? ==> HasMeaning(ValueExpr(P, i))
    requires k < |P| && P[k] in P && FirstMatch(P, ValueExpr(P, i), vpf) == Some(k) && Matches(P[k], ValueExpr(P, i), vpf)
    ensures Agrees(P, ValueExpr(P, i), vpf, M, s.env, sides) <==> TrueOf(P[k], Instr(i.id), M, Exec(i, M, s).value.env, sides)
  {
    hide FirstMatch, ValueExpr;
    var env', c := Exec(i, M, s).value.env, P[k];
    ExprMeans(P, i, M, s, sides);
    ExecGrows(i, M, s);
    var m :| m in c.members;
    assert TrueOf(c, m, M, s.env, sides);
    TrueGrows(c, m, M, s.env, env', sides);
    FreshExprMeans(P, c, i, M, s.env, sides);
  }

  /** Placing one instruction does not fail, and the partition stays true, exactly if the instruction agrees. */
  lemma PlaceExact(N: Numbering, i: Inst, vpf: Option<Expr>, M: Machine, s: State, sides: Sides)
    requires Numbered(N, M, s.env, sides) && HasValue(i) && i.id !in s.env && Exec(i, M, s).Some?
    requires vpf.Some? ==> HasMeaning(ValueExpr(N.classes, i))
    ensures var ve := ValueExpr(N.classes, i); var r := Place(N, i, ve, vpf);
            && r.Some?
            && (i.Load? || Agrees(N.classes, ve, vpf, M, s.env, sides) <==> Numbered(r.value, M, Exec(i, M, s).value.env, sides))
            && (i.Load? || Agrees(N.classes, ve, vpf, M, s.env, sides)
                || Undone(N.classes, r.value.classes, Instr(i.id), M, Exec(i, M, s).value.env, sides))
            && Traces(N.classes, r.value.classes, s.env)
  {
    hide TrueOf, Exec, ValueExpr, NewLeader, Agrees, Traces, FirstMatch;
    ExecGrows(i, M, s);
    var env', ve := Exec(i, M, s).value.env, ValueExpr(N.classes, i);
    AddToMatchIs(N.classes, ve, vpf, Instr(i.id));
    var k := FirstMatch(N.classes, ve, vpf);
    if !i.Load? && k.Some? {
      MatchIsTrue(N.classes, k.value, i, vpf, M, s, sides);
      var P' := AddToMatch(N.classes, ve, vpf, Instr(i.id)).value;
      AddTraces(N.classes, P', k.value, i.id, s.env);
      if Agrees(N.classes, ve, vpf, M, s.env, sides) {
        AddNumbered(N, P', k.value, i.id, M, s.env, env', sides);
      } else {
        AddUntrue(N.classes, P', k.value, Instr(i.id), M, env', sides);
      }
    } else {
      LeaderMeans(N.classes, i, M, s, sides);
      var c := Class(N.next, NewLeader(N.classes, i), Some(ve), None, {Instr(i.id)});
      NewIsTrue(N.classes, i, c, M, s, sides);
      NewNumbered(N, c, i.id, M, s.env, env', sides);
      NoMatchAgrees(N.classes, ve, vpf, M, s.env, sides);
    }
  }

  lemma NoMatchAgrees(P: Partition, ve: Expr, vpf: Option<Expr>, M: Machine, env: Env, sides: Sides)
    ensures FirstMatch(P, ve, vpf) == None ==> Agrees(P, ve, vpf, M, env, sides)
  {
    hide FirstMatch;
  }

  lemma AddUntrue(P: Partition, P': Partition, k: nat, v: Value, M: Machine, env: Env, sides: Sides)
    requires AddedAt(P, P', k, v) && !TrueOf(P[k], v, M, env, sides)
    ensures !Sound(P', M, env, sides) && Undone(P, P', v, M, env, sides)
  {
    assert P'[k] in P' && v in P'[k].members;
    assert !TrueOf(P'[k], v, M, env, sides);
  }

  /** v has been put into a class that is not true of it. */
  ghost predicate Undone(P: Partition, P': Partition, v: Value, M: Machine, env: Env, sides: Sides) {
    exists k: nat :: AddedAt(P, P', k, v) && !TrueOf(P[k], v, M, env, sides)
  }

  /** Without a value phi an instruction agrees. */
  lemma {:induction false} AgreesAlone(P: Partition, ve: Expr, M: Machine, env: Env, sides: Sides)
    ensures Agrees(P, ve, None, M, env, sides)
  {
    AddToMatchIs(P, ve, None, FuncVar(0));
  }

  lemma SameTraces(P: Partition, env: Env)
    ensures Traces(P, P, env)
  {
    forall d, v {:trigger v in d.members, d in P} | d in P && v in d.members ensures Holder(P, v, d.leader, d.phi.Some?) {}
  }

  lemma NewIsTrue(P: Partition, i: Inst, c: Class, M: Machine, s: State, sides: Sides)
    requires Sound(P, M, s.env, sides) && HasValue(i) && Exec(i, M, s).Some? && i.id !in s.env
    requires c.leader == NewLeader(P, i) && c.expr == Some(ValueExpr(P, i)) && c.phi == None
    ensures TrueOf(c, Instr(i.id), M, Exec(i, M, s).value.env, sides)
    ensures c.expr.value.Unique? ==> c.expr.value.id == i.id
  {
    ExprMeans(P, i, M, s, sides);
    LeaderMeans(P, i, M, s, sides);
    ExecGrows(i, M, s);
    if HasMeaning(c.expr.value) { EvalGrows(c.expr.value, M, s.env, Exec(i, M, s).value.env); }
  }

  // ----- blocks -----

  /** Every instruction with a value makes a register of its own. */
  ghost predicate Fresh(block: seq<Inst>, made: set<nat>) {
    block == []
    || (if HasValue(block[0]) then block[0].id !in made && Fresh(block[1..], made + {block[0].id}) else Fresh(block[1..], made))
  }

  lemma TracesTrans(P: Partition, P1: Partition, P2: Partition, env: Env, env1: Env)
    requires Traces(P, P1, env) && Traces(P1, P2, env1) && Grows(env, env1)
    ensures Traces(P, P2, env)
  {
    forall d, v {:trigger v in d.members, d in P2} | d in P2 && v in d.members && (v.Instr? ==> v.id in env)
      ensures Holder(P, v, d.leader, d.phi.Some?)
    {
      assert Holder(P1, v, d.leader, d.phi.Some?);
      var c :| c in P1 && v in c.members && c.leader == d.leader && c.phi.Some? == d.phi.Some?;
      assert Holder(P, v, c.leader, c.phi.Some?);
    }
  }

  // ----- replacing members by leaders -----

  function HolderOf(P: Partition, v: Value): Option<Class> {
    if P == [] then None else if v in P[0].members then Some(P[0]) else HolderOf(P[1..], v)
  }

  /** What stands for v in the block: the leader of its class, but a phi only gives way in a
      class with a value phi. */
  function Replaced(P: Partition, phis: set<nat>, v: Value): Value {
    match HolderOf(P, v)
    case Some(c) => if c.leader.Some? && (c.phi.Some? || !(v.Instr? && v.id in phis)) then c.leader.value else v
    case None => v
  }

  function ReplacedAll(P: Partition, phis: set<nat>, vs: seq<Value>): (r: seq<Value>)
    ensures |r| == |vs| && forall k :: 0 <= k < |vs| ==> r[k] == Replaced(P, phis, vs[k])
  {
    seq(|vs|, k requires 0 <= k < |vs| => Replaced(P, phis, vs[k]))
  }

  function ReplacedInst(P: Partition, phis: set<nat>, i: Inst): Inst {
    match i
    case Bin(id, op, l, r) => Bin(id, op, Replaced(P, phis, l), Replaced(P, phis, r))
    case Zext(id, v) => Zext(id, Replaced(P, phis, v))
    case Load(id, addr) => Load(id, Replaced(P, phis, addr))
    case Gep(id, ops) => Gep(id, ReplacedAll(P, phis, ops))
    case Call(id, f, pure, void, args) => Call(id, f, pure, void, ReplacedAll(P, phis, args))
    case Alloca(id) => i
    case Store(v, addr) => Store(Replaced(P, phis, v), Replaced(P, phis, addr))
    case Phi(_, _, _, _, _) => i
  }

  function ReplacedBlock(P: Partition, phis: set<nat>, block: seq<Inst>): seq<Inst> {
    if block == [] then [] else [ReplacedInst(P, phis, block[0])] + ReplacedBlock(P, phis, block[1..])
  }

  lemma {:induction false} HolderOfIn(P: Partition, v: Value)
    ensures match HolderOf(P, v) case None => true case Some(c) => c in P && v in c.members
  {
    if P != [] && v !in P[0].members {
      HolderOfIn(P[1..], v);
      assert forall c :: c in P[1..] ==> c in P;
    }
  }

  /** At any point of the block, what stands for a value by the partition at its end has its value. */
  lemma ReplacedVal(P: Partition, P1: Partition, M: Machine, env: Env, sides: Sides, phis: set<nat>, v: Value)
    requires Sound(P, M, env, sides) && Traces(P, P1, env) && Val(v, M, env).Some?
    ensures Val(Replaced(P1, phis, v), M, env) == Val(v, M, env)
  {
    HolderOfIn(P1, v);
    if HolderOf(P1, v).Some? {
      var d := HolderOf(P1, v).value;
      assert Holder(P, v, d.leader, d.phi.Some?);
      var c :| c in P && v in c.members && c.leader == d.leader && c.phi.Some? == d.phi.Some?;
      assert TrueOf(c, v, M, env, sides);
    }
  }

  lemma {:induction false} ReplacedVals(P: Partition, P1: Partition, M: Machine, env: Env, sides: Sides, phis: set<nat>, vs: seq<Value>)
    requires Sound(P, M, env, sides) && Traces(P, P1, env) && Vals(vs, M, env).Some?
    ensures Vals(ReplacedAll(P1, phis, vs), M, env) == Vals(vs, M, env)
  {
    hide Sound, Traces, Replaced;
    if vs != [] {
      ReplacedVal(P, P1, M, env, sides, phis, vs[0]);
      assert ReplacedAll(P1, phis, vs)[1..] == ReplacedAll(P1, phis, vs[1..]);
      ReplacedVals(P, P1, M, env, sides, phis, vs[1..]);
    }
  }

  lemma ReplacedExec(P: Partition, P1: Partition, M: Machine, s: State, sides: Sides, phis: set<nat>, i: Inst)
    requires Sound(P, M, s.env, sides) && Traces(P, P1, s.env) && Exec(i, M, s).Some?
    ensures Exec(ReplacedInst(P1, phis, i), M, s) == Exec(i, M, s)
  {
    hide Sound, Traces, Replaced;
    match i
    case Bin(_, _, l, r) =>
      ReplacedVal(P, P1, M, s.env, sides, phis, l);
      ReplacedVal(P, P1, M, s.env, sides, phis, r);
    case Zext(_, v) => ReplacedVal(P, P1, M, s.env, sides, phis, v);
    case Load(_, addr) => ReplacedVal(P, P1, M, s.env, sides, phis, addr);
    case Gep(_, ops) => ReplacedVals(P, P1, M, s.env, sides, phis, ops);
    case Call(_, _, _, _, args) => ReplacedVals(P, P1, M, s.env, sides, phis, args);
    case Alloca(_) =>
    case Store(v, addr) =>
      ReplacedVal(P, P1, M, s.env, sides, phis, v);
      ReplacedVal(P, P1, M, s.env, sides, phis, addr);
    case Phi(_, _, _, _, _) =>
  }

  lemma NumberedParts(N: Numbering, M: Machine, env: Env, sides: Sides)
    requires Numbered(N, M, env, sides)
    ensures Sound(N.classes, M, env, sides)
  {
  }

  // ----- the entry block -----

  /** A class for every argument and global variable. */
  function EntryClasses(vs: seq<Value>, next: nat): Partition {
    if vs == [] then [] else [Class(next, Some(vs[0]), None, None, {vs[0]})] + EntryClasses(vs[1..], next + 1)
  }

  lemma {:induction false} EntryNumbered(vs: seq<Value>, next: nat, M: Machine, env: Env, sides: Sides)
    requires forall v :: v in vs ==> (v.Param? || v.GlobalVar?) && Val(v, M, env).Some?
    requires forall i, j :: 0 <= i < j < |vs| ==> vs[i] != vs[j]
    ensures Numbered(Numbering(EntryClasses(vs, next), next + |vs|), M, env, sides)
    ensures forall c :: c in EntryClasses(vs, next) ==> next <= c.index && c.phi == None && c.members <= set v | v in vs
  {
    if vs != [] {
      assert forall v :: v in vs[1..] ==> v in vs;
      EntryNumbered(vs[1..], next + 1, M, env, sides);
      assert vs[0] in vs && vs[0] !in vs[1..];
      FrontClass(EntryClasses(vs[1..], next + 1), vs[0], next, next + |vs|, M, env, sides);
    }
  }

  /** A class of its own, numbered before the others. */
  lemma FrontClass(P: Partition, v: Value, index: nat, next: nat, M: Machine, env: Env, sides: Sides)
    requires Numbered(Numbering(P, next), M, env, sides) && index < next && !v.FuncVar? && Val(v, M, env).Some?
    requires forall c :: c in P ==> index < c.index && v !in c.members
    ensures Numbered(Numbering([Class(index, Some(v), None, None, {v})] + P, next), M, env, sides)
  {
    hide TrueOf;
    var c := Class(index, Some(v), None, None, {v});
    var Q := [c] + P;
    assert TrueOf(c, v, M, env, sides) by { ItselfIsTrue(v, index, M, env, sides); }
    forall i, j | 0 <= i < j < |Q| ensures Q[i].index < Q[j].index && Q[i].members !! Q[j].members {
      assert Q[j] == P[j - 1] && P[j - 1] in P;
    }
  }

  lemma ItselfIsTrue(v: Value, index: nat, M: Machine, env: Env, sides: Sides)
    requires Val(v, M, env).Some?
    ensures TrueOf(Class(index, Some(v), None, None, {v}), v, M, env, sides)
  {
  }
}
