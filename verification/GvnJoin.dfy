// Value numbering at a block with two predecessors: the join and the value phis.
module GvnJoin {
  import opened Wrappers
  import IR
  import opened Gvn
  import opened GvnTransfer
  import opened GvnSound

  // ----- the join -----

  /** Equal numbers name the same class. */
  ghost predicate Identify(P1: Partition, P2: Partition) {
    forall a, b :: 0 <= a < |P1| && 0 <= b < |P2| && P1[a].index == P2[b].index ==> P1[a].leader == P2[b].leader
  }

  /** The sides after a join, whose numbers start at lo, has been entered. */
  function Entering(sides: Sides, lo: nat, front: bool): Sides {
    (k: nat) => if lo <= k then front else sides(k)
  }

  /** A class of the join is true of its members on either edge: a class numbered at the join has
      the left side of its value phi when the front predecessor was left, the right side otherwise. */
  lemma PairIsTrue(c: Class, P1: Partition, P2: Partition, a: nat, b: nat, lo: nat, next: nat, front: bool,
                   M: Machine, env: Env, sides: Sides, m: Value)
    requires Valid(P1, lo) && Valid(P2, lo) && Identify(P1, P2) && FromPair(c, P1, P2, a, b, lo, next) && m in c.members
    requires Sound(if front then P1 else P2, M, env, sides)
    ensures TrueOf(c, m, M, env, Entering(sides, lo, front))
  {
    assert P1[a] in P1 && P2[b] in P2;
    var d := if front then P1[a] else P2[b];
    assert TrueOf(d, m, M, env, sides);
    if c.leader.Some? && c.leader.value in c.members { assert TrueOf(d, c.leader.value, M, env, sides); }
  }

  /** The join of two partitions, each true at the end of its predecessor, is true on entry. */
  lemma JoinIsSound(P: Partition, P1: Partition, P2: Partition, lo: nat, next: nat, front: bool, M: Machine, env: Env, sides: Sides)
    requires Valid(P1, lo) && Valid(P2, lo) && Identify(P1, P2) && IsJoin(P, P1, P2, lo, next)
    requires Sound(if front then P1 else P2, M, env, sides)
    ensures Numbered(Numbering(P, next), M, env, Entering(sides, lo, front))
  {
    hide TrueOf, Valid, Identify, HasPair, HasClass, Meets;
    JoinIsValid(P, P1, P2, lo, next);
    var sides' := Entering(sides, lo, front);
    forall c, m {:trigger TrueOf(c, m, M, env, sides')} | c in P && m in c.members ensures TrueOf(c, m, M, env, sides') {
      assert HasPair(c, P1, P2, |P1|, 0, lo, next);
      var a, b := PairOf(c, P1, P2, |P1|, 0, lo, next);
      PairIsTrue(c, P1, P2, a, b, lo, next, front, M, env, sides, m);
    }
    forall c | c in P
      ensures c.members != {} && !(exists f :: FuncVar(f) in c.members)
      ensures c.expr.Some? && c.expr.value.Unique? ==> c.expr.value.id in env
    {
      assert HasPair(c, P1, P2, |P1|, 0, lo, next);
      var a, b := PairOf(c, P1, P2, |P1|, 0, lo, next);
    }
  }

  // ----- value phis -----

  /** The leader of the first class with this expression. */
  function GetVN(P: Partition, e: Expr): Option<Expr> {
    if P == [] then None
    else if P[0].expr == Some(e) && P[0].leader.Some? then Some(Leaf(P[0].leader.value))
    else GetVN(P[1..], e)
  }

  /** The last class with this leader and a value phi. */
  function PhiClass(P: Partition, l: Value): Option<Class> {
    if P == [] then None
    else
      var c := P[|P| - 1];
      if c.phi.Some? && c.leader == Some(l) then Some(c) else PhiClass(P[..|P| - 1], l)
  }

  /** The first class with this value phi. */
  function ClassWithPhi(P: Partition, phi: Expr): Option<Class> {
    if P == [] then None else if P[0].phi == Some(phi) then Some(P[0]) else ClassWithPhi(P[1..], phi)
  }

  /** Predecessors in list order, and the partitions at the ends of the blocks. */
  datatype Ends = Ends(preds: map<nat, seq<nat>>, pout: map<nat, Partition>) {
    function Preds(b: nat): seq<nat> { if b in preds then preds[b] else [] }

    function Out(b: nat): Partition { if b in pout then pout[b] else [] }
  }

  /** The search for a value phi goes from join to join; it need not come to an end. */
  datatype Found = TooDeep | Answer(expr: Option<Expr>)

  /** The value phis of the operands, if the expression is an operation on two values that have them. */
  function OperandPhis(ve: Expr, P: Partition): Option<(Class, Class)> {
    match ve
    case Binary(op, Leaf(l), Leaf(r)) =>
      if op.Cmp? || l.IntConst? || r.IntConst? then None
      else (match (PhiClass(P, l), PhiClass(P, r)) case (Some(c), Some(d)) => Some((c, d)) case _ => None)
    case _ => None
  }

  /** The operation on the same side of both value phis. */
  function OnSide(ve: Expr, phis: (Class, Class), front: bool): Option<Expr> {
    if ve.Binary? && phis.0.phi.Some? && phis.1.phi.Some? && phis.0.phi.value.PhiOf? && phis.1.phi.value.PhiOf? then
      Some(Binary(ve.op, Side(phis.0.phi.value, front), Side(phis.1.phi.value, front)))
    else None
  }

  /** The value phi of an expression in block b whose partition is P: made of the numbers that the
      operation has at the ends of the two predecessors. */
  function ValuePhi(G: Ends, b: nat, ve: Expr, P: Partition, fuel: nat): Found
    decreases fuel, 1
  {
    match OperandPhis(ve, P)
    case None => Answer(None)
    case Some(phis) =>
      (match (OnSide(ve, phis, true), OnSide(ve, phis, false))
       case (Some(e1), Some(e2)) =>
         if |G.Preds(b)| != 2 then Answer(None)
         else (match (Number(G, G.Preds(b)[0], e1, fuel), Number(G, G.Preds(b)[1], e2, fuel))
               case (Answer(Some(vi)), Answer(Some(vj))) => Answer(Some(PhiOf(vi, vj)))
               case (TooDeep, _) => TooDeep
               case (_, TooDeep) => TooDeep
               case _ => Answer(None))
       case _ => Answer(None))
  }

  /** What names e at the end of block p: the leader of the class with that expression or, failing
      that, of the class with its value phi, or the value phi itself. */
  function Number(G: Ends, p: nat, e: Expr, fuel: nat): Found
    decreases fuel, 0
  {
    match GetVN(G.Out(p), e)
    case Some(v) => Answer(Some(v))
    case None =>
      if fuel == 0 then TooDeep
      else (match ValuePhi(G, p, e, G.Out(p), fuel - 1)
            case Answer(Some(phi)) =>
              (match ClassWithPhi(G.Out(p), phi)
               case Some(c) => if c.leader.Some? then Answer(Some(Leaf(c.leader.value))) else Answer(None)
               case None => Answer(Some(phi)))
            case other => other)
  }

  lemma {:induction false} GetVNTrue(P: Partition, Q: Partition, e: Expr, M: Machine, env: Env, sides: Sides)
    requires Sound(Q, M, env, sides) && HasMeaning(e) && forall c :: c in P ==> c in Q
    ensures GetVN(P, e).Some? ==> GetVN(P, e).value.Leaf? && Val(GetVN(P, e).value.c, M, env) == EvalExpr(e, M, env)
  {
    if P != [] {
      assert P[0] in Q;
      if P[0].expr == Some(e) && P[0].leader.Some? {
        var m :| m in P[0].members;
        assert TrueOf(P[0], m, M, env, sides);
      } else {
        assert forall c :: c in P[1..] ==> c in P;
        GetVNTrue(P[1..], Q, e, M, env, sides);
      }
    }
  }

  lemma {:induction false} PhiClassIs(P: Partition, l: Value)
    ensures match PhiClass(P, l) case None => true case Some(c) => c in P && c.phi.Some? && c.leader == Some(l)
    decreases |P|
  {
    if P != [] {
      assert P[|P| - 1] in P;
      PhiClassIs(P[..|P| - 1], l);
      assert forall d :: d in P[..|P| - 1] ==> d in P;
    }
  }

  lemma {:induction false} ClassWithPhiIs(P: Partition, phi: Expr)
    ensures match ClassWithPhi(P, phi) case None => true case Some(c) => c in P && c.phi == Some(phi)
  {
    if P != [] {
      ClassWithPhiIs(P[1..], phi);
      assert forall d :: d in P[1..] ==> d in P;
    }
  }

  /** The value phi of a class has, on the side by which its join was entered, the leader's value. */
  lemma PhiIsTrue(P: Partition, c: Class, M: Machine, env: Env, sides: Sides)
    requires Sound(P, M, env, sides) && c in P && c.phi.Some?
    ensures c.leader.Some? && SideVal(c.phi.value, sides(c.index), M, env) == Val(c.leader.value, M, env) != None
  {
    var m :| m in c.members;
    assert TrueOf(c, m, M, env, sides);
  }

  // ----- the block after the join -----

  /** One instruction of block b; None also if the search for its value phi is too deep. */
  function JoinOne(G: Ends, b: nat, N: Numbering, i: Inst, fuel: nat): Option<Numbering> {
    if !HasValue(i) then Some(N)
    else
      var P := Without(N.classes, Instr(i.id));
      var ve := ValueExpr(P, i);
      match ValuePhi(G, b, ve, P, fuel)
      case TooDeep => None
      case Answer(vpf) => Place(N.(classes := P), i, ve, vpf)
  }

  function TransferJoin(G: Ends, b: nat, N: Numbering, block: seq<Inst>, fuel: nat): Option<Numbering>
    decreases block
  {
    if block == [] then Some(N)
    else
      var N' :- JoinOne(G, b, N, block[0], fuel);
      TransferJoin(G, b, N', block[1..], fuel)
  }

  /** The search ends, and the instruction agrees with the class it goes to. */
  ghost predicate AgreesHere(G: Ends, b: nat, N: Numbering, i: Inst, fuel: nat, M: Machine, env: Env, sides: Sides) {
    HasValue(i) ==>
      var ve := ValueExpr(N.classes, i);
      match ValuePhi(G, b, ve, N.classes, fuel)
      case TooDeep => false
      case Answer(vpf) => i.Load? || Agrees(N.classes, ve, vpf, M, env, sides)
  }

  lemma PhiMeans(G: Ends, b: nat, ve: Expr, P: Partition, fuel: nat)
    ensures match ValuePhi(G, b, ve, P, fuel) case Answer(Some(phi)) => ve.Binary? && phi.PhiOf? case _ => true
  {
  }

  lemma JoinOneExact(G: Ends, b: nat, N: Numbering, i: Inst, fuel: nat, M: Machine, s: State, sides: Sides)
    requires Numbered(N, M, s.env, sides) && Exec(i, M, s).Some? && (HasValue(i) ==> i.id !in s.env)
    ensures AgreesHere(G, b, N, i, fuel, M, s.env, sides) <==>
              JoinOne(G, b, N, i, fuel).Some? && Numbered(JoinOne(G, b, N, i, fuel).value, M, Exec(i, M, s).value.env, sides)
    ensures JoinOne(G, b, N, i, fuel).Some? ==> Traces(N.classes, JoinOne(G, b, N, i, fuel).value.classes, s.env)
    ensures JoinOne(G, b, N, i, fuel).Some? && !AgreesHere(G, b, N, i, fuel, M, s.env, sides) ==>
              HasValue(i) && Undone(N.classes, JoinOne(G, b, N, i, fuel).value.classes, Instr(i.id), M, Exec(i, M, s).value.env, sides)
  {
    hide Exec, ValueExpr, Place, Sound, ValuePhi, Agrees, Traces, Undone;
    ExecGrows(i, M, s);
    if HasValue(i) {
      NumberedParts(N, M, s.env, sides);
      NotMembers(N.classes, i.id, M, s.env, sides);
      WithoutNothing(N.classes, Instr(i.id));
      var ve := ValueExpr(N.classes, i);
      PhiMeans(G, b, ve, N.classes, fuel);
      match ValuePhi(G, b, ve, N.classes, fuel) {
        case TooDeep =>
        case Answer(vpf) => PlaceExact(N, i, vpf, M, s, sides);
      }
    } else {
      SameTraces(N.classes, s.env);
    }
  }

  /** Every instruction agrees with the class it goes to, one after the other. */
  ghost predicate AllAgree(G: Ends, b: nat, N: Numbering, block: seq<Inst>, fuel: nat, M: Machine, s: State, sides: Sides)
    decreases block
  {
    block == []
    || (AgreesHere(G, b, N, block[0], fuel, M, s.env, sides)
        && (match (JoinOne(G, b, N, block[0], fuel), Exec(block[0], M, s))
            case (Some(N'), Some(s')) => AllAgree(G, b, N', block[1..], fuel, M, s', sides)
            case _ => false))
  }

  // ----- an untrue class stays untrue -----

  /** Members are registers already made, numbers are below the next. */
  ghost predicate Bound(N: Numbering, env: Env) {
    && (forall c :: c in N.classes ==> c.index < N.next)
    && (forall c, id :: c in N.classes && Instr(id) in c.members ==> id in env)
  }

  /** The class has become d. */
  ghost predicate Becomes(c: Class, d: Class) {
    d.index == c.index && d.leader == c.leader && d.expr == c.expr && d.phi == c.phi && c.members <= d.members
  }

  ghost predicate AllBecome(P: Partition, Q: Partition) {
    forall c :: c in P ==> exists d :: d in Q && Becomes(c, d)
  }

  lemma AddedBecomes(N: Numbering, Q: Partition, k: nat, id: nat, env: Env, env': Env)
    requires Bound(N, env) && Grows(env, env') && id in env' && AddedAt(N.classes, Q, k, Instr(id))
    ensures Bound(N.(classes := Q), env') && AllBecome(N.classes, Q)
  {
    var P := N.classes;
    forall c | c in P ensures exists d :: d in Q && Becomes(c, d) {
      var j: nat :| j < |P| && P[j] == c;
      assert Q[j] in Q && Becomes(c, Q[j]);
    }
    forall d | d in Q ensures d.index < N.next && forall id :: Instr(id) in d.members ==> id in env' {
      var j: nat :| j < |Q| && Q[j] == d;
      assert P[j] in P;
    }
  }

  lemma InsertedBecomes(N: Numbering, c: Class, id: nat, env: Env, env': Env)
    requires Bound(N, env) && Grows(env, env') && id in env' && c.index == N.next && c.members == {Instr(id)}
    ensures Bound(Numbering(Insert(N.classes, c), N.next + 1), env') && AllBecome(N.classes, Insert(N.classes, c))
  {
    var P, Q := N.classes, Insert(N.classes, c);
    InsertLast(P, c);
    forall d | d in P ensures exists e :: e in Q && Becomes(d, e) { assert d in Q && Becomes(d, d); }
  }

  lemma PlaceBecomes(N: Numbering, i: Inst, ve: Expr, vpf: Option<Expr>, env: Env, env': Env)
    requires Bound(N, env) && HasValue(i) && Grows(env, env') && i.id in env' && Place(N, i, ve, vpf).Some?
    ensures Bound(Place(N, i, ve, vpf).value, env') && AllBecome(N.classes, Place(N, i, ve, vpf).value.classes)
  {
    hide NewLeader, FirstMatch, AddedAt, Bound, AllBecome, Matches;
    AddToMatchIs(N.classes, ve, vpf, Instr(i.id));
    var k := FirstMatch(N.classes, ve, vpf);
    if !i.Load? && k.Some? {
      AddedBecomes(N, Place(N, i, ve, vpf).value.classes, k.value, i.id, env, env');
    } else {
      InsertedBecomes(N, Class(N.next, NewLeader(N.classes, i), Some(ve), None, {Instr(i.id)}), i.id, env, env');
    }
  }

  lemma JoinOneBecomes(G: Ends, b: nat, N: Numbering, i: Inst, fuel: nat, M: Machine, s: State)
    requires Bound(N, s.env) && Exec(i, M, s).Some? && (HasValue(i) ==> i.id !in s.env) && JoinOne(G, b, N, i, fuel).Some?
    ensures Bound(JoinOne(G, b, N, i, fuel).value, Exec(i, M, s).value.env)
    ensures AllBecome(N.classes, JoinOne(G, b, N, i, fuel).value.classes) && Grows(s.env, Exec(i, M, s).value.env)
  {
    hide Exec, ValueExpr, Place, ValuePhi;
    ExecGrows(i, M, s);
    if HasValue(i) {
      WithoutNothing(N.classes, Instr(i.id));
      var ve := ValueExpr(N.classes, i);
      match ValuePhi(G, b, ve, N.classes, fuel) {
        case TooDeep =>
        case Answer(vpf) => PlaceBecomes(N, i, ve, vpf, s.env, Exec(i, M, s).value.env);
      }
    } else {
      forall c | c in N.classes ensures exists d :: d in N.classes && Becomes(c, d) { assert Becomes(c, c); }
    }
  }

  lemma {:induction false} BlockBecomes(G: Ends, b: nat, N: Numbering, block: seq<Inst>, fuel: nat, M: Machine, s: State)
    requires Bound(N, s.env) && Fresh(block, s.env.Keys) && ExecAll(block, M, s).Some? && TransferJoin(G, b, N, block, fuel).Some?
    ensures AllBecome(N.classes, TransferJoin(G, b, N, block, fuel).value.classes) && Grows(s.env, ExecAll(block, M, s).value.env)
    decreases block
  {
    hide Exec, JoinOne, Bound;
    if block != [] {
      JoinOneBecomes(G, b, N, block[0], fuel, M, s);
      ExecGrows(block[0], M, s);
      var N1 := JoinOne(G, b, N, block[0], fuel).value;
      BlockBecomes(G, b, N1, block[1..], fuel, M, Exec(block[0], M, s).value);
      BecomesTrans(N.classes, N1.classes, TransferJoin(G, b, N, block, fuel).value.classes);
    } else {
      forall c | c in N.classes ensures exists d :: d in N.classes && Becomes(c, d) { assert Becomes(c, c); }
    }
  }

  lemma BecomesTrans(P: Partition, Q: Partition, R: Partition)
    requires AllBecome(P, Q) && AllBecome(Q, R)
    ensures AllBecome(P, R)
  {
    forall c | c in P ensures exists e :: e in R && Becomes(c, e) {
      var d :| d in Q && Becomes(c, d);
      var e :| e in R && Becomes(d, e);
      assert Becomes(c, e);
    }
  }

  /** A partition that is true at the end of a block was true of every class before. */
  lemma TrueBefore(P: Partition, Q: Partition, M: Machine, env: Env, env': Env, sides: Sides)
    requires AllBecome(P, Q) && Sound(Q, M, env', sides) && Grows(env, env')
    requires forall c :: c in P ==> WellPlaced(c, M, env, sides)
    ensures forall c, m :: c in P && m in c.members ==> TrueOf(c, m, M, env, sides)
  {
    hide TrueOf, WellPlaced;
    forall c, m | c in P && m in c.members ensures TrueOf(c, m, M, env, sides) {
      var d :| d in Q && Becomes(c, d);
      assert TrueOf(d, m, M, env', sides);
      ShrinkTrue(c, d, m, M, env, env', sides);
    }
  }

  /** Members, leader, expression and value phi have values already. */
  ghost predicate WellPlaced(c: Class, M: Machine, env: Env, sides: Sides) {
    && c.leader.Some? && Val(c.leader.value, M, env).Some?
    && (forall m :: m in c.members ==> Val(m, M, env).Some?)
    && (c.expr.Some? && HasMeaning(c.expr.value) ==> EvalExpr(c.expr.value, M, env).Some?)
    && (c.phi.Some? ==> SideVal(c.phi.value, sides(c.index), M, env).Some?)
  }

  lemma ShrinkTrue(c: Class, d: Class, m: Value, M: Machine, env: Env, env': Env, sides: Sides)
    requires Becomes(c, d) && TrueOf(d, m, M, env', sides) && Grows(env, env') && WellPlaced(c, M, env, sides) && m in c.members
    ensures TrueOf(c, m, M, env, sides)
  {
    ValGrows(m, M, env, env');
    ValGrows(c.leader.value, M, env, env');
    if c.expr.Some? && HasMeaning(c.expr.value) { EvalGrows(c.expr.value, M, env, env'); }
    if c.phi.Some? { ValGrows(Side(c.phi.value, sides(c.index)).c, M, env, env'); }
  }

  lemma SoundIsWellPlaced(P: Partition, c: Class, M: Machine, env: Env, env': Env, sides: Sides)
    requires Sound(P, M, env, sides) && c in P && Grows(env, env')
    ensures WellPlaced(c, M, env', sides)
  {
    hide TrueOf;
    forall m | m in c.members ensures TrueOf(c, m, M, env', sides) {
      assert TrueOf(c, m, M, env, sides);
      TrueGrows(c, m, M, env, env', sides);
    }
    AllTrueWellPlaced(c, M, env', sides);
  }

  lemma AllTrueWellPlaced(c: Class, M: Machine, env: Env, sides: Sides)
    requires c.members != {} && forall m :: m in c.members ==> TrueOf(c, m, M, env, sides)
    ensures WellPlaced(c, M, env, sides)
  {
    var m :| m in c.members;
    assert TrueOf(c, m, M, env, sides);
  }

  /** Once an instruction is in a class that is not true of it, the partition is not true at the end of the block. */
  lemma UndoneStays(P: Partition, P1: Partition, id: nat, Q: Partition, M: Machine, env: Env, env1: Env, env2: Env, sides: Sides)
    requires Sound(P, M, env, sides) && Grows(env, env1) && Grows(env1, env2) && id in env1
    requires Undone(P, P1, Instr(id), M, env1, sides) && AllBecome(P1, Q)
    ensures !Sound(Q, M, env2, sides)
  {
    hide TrueOf, Sound, WellPlaced;
    if Sound(Q, M, env2, sides) {
      var k: nat :| AddedAt(P, P1, k, Instr(id)) && !TrueOf(P[k], Instr(id), M, env1, sides);
      forall c | c in P1 ensures WellPlaced(c, M, env1, sides) {
        var j: nat :| j < |P1| && P1[j] == c;
        assert P[j] in P;
        SoundIsWellPlaced(P, P[j], M, env, env1, sides);
        OneMore(P[j], c, id, M, env1, sides);
      }
      TrueBefore(P1, Q, M, env1, env2, sides);
      assert P1[k] in P1;
      SameTruth(P[k], P1[k], Instr(id), M, env1, sides);
    }
  }

  lemma OneMore(c: Class, d: Class, id: nat, M: Machine, env: Env, sides: Sides)
    requires WellPlaced(c, M, env, sides) && id in env && (d == c || d == c.(members := c.members + {Instr(id)}))
    ensures WellPlaced(d, M, env, sides)
  {
  }

  lemma NumberedIsBound(N: Numbering, M: Machine, env: Env, sides: Sides)
    requires Numbered(N, M, env, sides)
    ensures Bound(N, env)
  {
    forall c, id | c in N.classes && Instr(id) in c.members ensures id in env { assert TrueOf(c, Instr(id), M, env, sides); }
  }

  /** The exact condition: along a block after a join the partition stays true of the execution if
      and only if every instruction agrees with the class it is put into. */
  lemma {:induction false} JoinBlockExact(G: Ends, b: nat, N: Numbering, block: seq<Inst>, fuel: nat, M: Machine, s: State, sides: Sides)
    requires Numbered(N, M, s.env, sides) && Fresh(block, s.env.Keys) && ExecAll(block, M, s).Some?
    ensures AllAgree(G, b, N, block, fuel, M, s, sides) <==>
              TransferJoin(G, b, N, block, fuel).Some?
              && Numbered(TransferJoin(G, b, N, block, fuel).value, M, ExecAll(block, M, s).value.env, sides)
    ensures AllAgree(G, b, N, block, fuel, M, s, sides) ==>
              Traces(N.classes, TransferJoin(G, b, N, block, fuel).value.classes, s.env)
    decreases block
  {
    hide Numbered, JoinOne, Exec, Traces, Undone, AgreesHere;
    if block == [] {
      SameTraces(N.classes, s.env);
    } else {
      var i := block[0];
      var s1 := Exec(i, M, s).value;
      JoinOneExact(G, b, N, i, fuel, M, s, sides);
      ExecGrows(i, M, s);
      if JoinOne(G, b, N, i, fuel).Some? {
        var N1 := JoinOne(G, b, N, i, fuel).value;
        if AgreesHere(G, b, N, i, fuel, M, s.env, sides) {
          JoinBlockExact(G, b, N1, block[1..], fuel, M, s1, sides);
          if AllAgree(G, b, N, block, fuel, M, s, sides) {
            TracesTrans(N.classes, N1.classes, TransferJoin(G, b, N, block, fuel).value.classes, s.env, s1.env);
          }
        } else if TransferJoin(G, b, N, block, fuel).Some? {
          NumberedIsBound(N, M, s.env, sides);
          JoinOneBecomes(G, b, N, i, fuel, M, s);
          BlockBecomes(G, b, N1, block[1..], fuel, M, s1);
          NumberedParts(N, M, s.env, sides);
          var Q, env2 := TransferJoin(G, b, N, block, fuel).value, ExecAll(block, M, s).value.env;
          UndoneStays(N.classes, N1.classes, i.id, Q.classes, M, s.env, s1.env, env2, sides);
          NotSound(Q, M, env2, sides);
        }
      }
    }
  }

  lemma NotSound(N: Numbering, M: Machine, env: Env, sides: Sides)
    requires !Sound(N.classes, M, env, sides)
    ensures !Numbered(N, M, env, sides)
  {
  }

  /** The block with its operands replaced by a partition that traces back to the one at its end runs
      as before. */
  lemma {:induction false} JoinBlockReplaced(G: Ends, b: nat, N: Numbering, block: seq<Inst>, fuel: nat, M: Machine, s: State,
                                             sides: Sides, P1: Partition, phis: set<nat>)
    requires Numbered(N, M, s.env, sides) && Fresh(block, s.env.Keys) && ExecAll(block, M, s).Some?
    requires AllAgree(G, b, N, block, fuel, M, s, sides) && TransferJoin(G, b, N, block, fuel).Some?
    requires Traces(TransferJoin(G, b, N, block, fuel).value.classes, P1, ExecAll(block, M, s).value.env)
    ensures ExecAll(ReplacedBlock(P1, phis, block), M, s) == ExecAll(block, M, s)
    decreases block
  {
    hide Numbered, JoinOne, Exec, Traces, ReplacedInst, Sound, AgreesHere;
    JoinBlockExact(G, b, N, block, fuel, M, s, sides);
    if block != [] {
      var i, N1 := block[0], TransferJoin(G, b, N, block, fuel).value;
      NumberedParts(N, M, s.env, sides);
      BlockGrows(block, M, s);
      TracesTrans(N.classes, N1.classes, P1, s.env, ExecAll(block, M, s).value.env);
      ReplacedExec(N.classes, P1, M, s, sides, phis, i);
      JoinOneExact(G, b, N, i, fuel, M, s, sides);
      ExecGrows(i, M, s);
      JoinBlockReplaced(G, b, JoinOne(G, b, N, i, fuel).value, block[1..], fuel, M, Exec(i, M, s).value, sides, P1, phis);
      assert ReplacedBlock(P1, phis, block)[1..] == ReplacedBlock(P1, phis, block[1..]);
    }
  }

  lemma {:induction false} BlockGrows(block: seq<Inst>, M: Machine, s: State)
    requires Fresh(block, s.env.Keys) && ExecAll(block, M, s).Some?
    ensures Grows(s.env, ExecAll(block, M, s).value.env)
    decreases block
  {
    hide Exec;
    if block != [] {
      ExecGrows(block[0], M, s);
      BlockGrows(block[1..], M, Exec(block[0], M, s).value);
    }
  }

  // ----- when instructions agree -----

  /** How the execution came to a block: from `pred`, at whose end its partition was true with
      these sides, by the front edge or the back one; and how it came there. */
  datatype History = Origin | Via(pred: nat, front: bool, sides: Sides, before: History)

  ghost predicate Came(G: Ends, b: nat, h: History, M: Machine, env: Env)
    decreases h
  {
    match h
    case Origin => |G.Preds(b)| != 2
    case Via(p, front, sides, before) =>
      && (|G.Preds(b)| == 2 ==> p == G.Preds(b)[if front then 0 else 1])
      && Sound(G.Out(p), M, env, sides) && Came(G, p, before, M, env)
  }

  /** The joins of the value phis consulted for an expression were entered by the same side as b. */
  ghost predicate SameSides(G: Ends, b: nat, ve: Expr, P: Partition, fuel: nat, h: History, sides: Sides)
    decreases fuel, 1
  {
    h.Via? && |G.Preds(b)| == 2 ==>
      match OperandPhis(ve, P)
      case None => true
      case Some(phis) =>
        && sides(phis.0.index) == h.front && sides(phis.1.index) == h.front
        && (match OnSide(ve, phis, h.front) case None => true case Some(e) => SameSidesAt(G, h.pred, e, fuel, h.before, h.sides))
  }

  ghost predicate SameSidesAt(G: Ends, p: nat, e: Expr, fuel: nat, h: History, sides: Sides)
    decreases fuel, 0
  {
    GetVN(G.Out(p), e).None? && 0 < fuel ==>
      && SameSides(G, p, e, G.Out(p), fuel - 1, h, sides)
      && (match ValuePhi(G, p, e, G.Out(p), fuel - 1)
          case Answer(Some(phi)) =>
            (match ClassWithPhi(G.Out(p), phi) case None => true case Some(c) => h.Via? && sides(c.index) == h.front)
          case _ => true)
  }

  lemma OperandPhisTrue(ve: Expr, P: Partition, front: bool, M: Machine, env: Env, sides: Sides)
    requires Sound(P, M, env, sides) && OperandPhis(ve, P).Some?
    requires sides(OperandPhis(ve, P).value.0.index) == front && sides(OperandPhis(ve, P).value.1.index) == front
    ensures OnSide(ve, OperandPhis(ve, P).value, front).Some?
    ensures var e := OnSide(ve, OperandPhis(ve, P).value, front).value; HasMeaning(e) && EvalExpr(e, M, env) == EvalExpr(ve, M, env)
  {
    var (c, d) := OperandPhis(ve, P).value;
    PhiClassIs(P, ve.lhs.c);
    PhiClassIs(P, ve.rhs.c);
    PhiIsTrue(P, c, M, env, sides);
    PhiIsTrue(P, d, M, env, sides);
  }

  /** With all joins entered by the same side, a value phi has the value of its expression. */
  lemma {:induction false} ValuePhiTrue(G: Ends, b: nat, ve: Expr, P: Partition, fuel: nat, h: History, M: Machine, env: Env, sides: Sides)
    requires Sound(P, M, env, sides) && Came(G, b, h, M, env) && SameSides(G, b, ve, P, fuel, h, sides)
    ensures match ValuePhi(G, b, ve, P, fuel)
            case Answer(Some(phi)) => h.Via? && (SideVal(phi, h.front, M, env) != None ==> SideVal(phi, h.front, M, env) == EvalExpr(ve, M, env))
            case _ => true
    decreases fuel, 1
  {
    match ValuePhi(G, b, ve, P, fuel)
    case Answer(Some(phi)) =>
      OperandPhisTrue(ve, P, h.front, M, env, sides);
      NumberTrue(G, h.pred, OnSide(ve, OperandPhis(ve, P).value, h.front).value, fuel, h.before, M, env, h.sides);
    case _ =>
  }

  lemma {:induction false} NumberTrue(G: Ends, p: nat, e: Expr, fuel: nat, h: History, M: Machine, env: Env, sides: Sides)
    requires Sound(G.Out(p), M, env, sides) && Came(G, p, h, M, env) && SameSidesAt(G, p, e, fuel, h, sides) && HasMeaning(e)
    ensures match Number(G, p, e, fuel)
            case Answer(Some(Leaf(v))) => Val(v, M, env) != None ==> Val(v, M, env) == EvalExpr(e, M, env)
            case _ => true
    decreases fuel, 0
  {
    var P := G.Out(p);
    GetVNTrue(P, P, e, M, env, sides);
    if GetVN(P, e).None? && 0 < fuel {
      ValuePhiTrue(G, p, e, P, fuel - 1, h, M, env, sides);
      match ValuePhi(G, p, e, P, fuel - 1)
      case Answer(Some(phi)) =>
        PhiMeans(G, p, e, P, fuel - 1);
        ClassWithPhiIs(P, phi);
        if ClassWithPhi(P, phi).Some? { PhiIsTrue(P, ClassWithPhi(P, phi).value, M, env, sides); }
      case _ =>
    }
  }

  /** The guard a value phi would need: the joins of the operands' value phis, and that of the class
      the instruction goes to, were entered by the same side as this one. */
  ghost predicate Guarded(G: Ends, b: nat, N: Numbering, i: Inst, fuel: nat, h: History, sides: Sides) {
    HasValue(i) && !i.Load? ==>
      var ve := ValueExpr(N.classes, i);
      && SameSides(G, b, ve, N.classes, fuel, h, sides)
      && match ValuePhi(G, b, ve, N.classes, fuel)
         case TooDeep => false
         case Answer(vpf) =>
           (match FirstMatch(N.classes, ve, vpf)
            case Some(k) => k < |N.classes| && (N.classes[k].expr == Some(ve) || (h.Via? && sides(N.classes[k].index) == h.front))
            case None => true)
  }

  lemma LoadHasNoPhi(G: Ends, b: nat, P: Partition, i: Inst, fuel: nat)
    requires i.Load?
    ensures ValuePhi(G, b, ValueExpr(P, i), P, fuel) == Answer(None)
  {
  }

  /** A guarded instruction agrees. */
  lemma GuardedAgrees(G: Ends, b: nat, N: Numbering, i: Inst, fuel: nat, h: History, M: Machine, env: Env, sides: Sides)
    requires Sound(N.classes, M, env, sides) && Came(G, b, h, M, env) && Guarded(G, b, N, i, fuel, h, sides)
    ensures AgreesHere(G, b, N, i, fuel, M, env, sides)
  {
    hide ValueExpr, ValuePhi, SameSides, Came, FirstMatch, Sound;
    if HasValue(i) {
      var P, ve := N.classes, ValueExpr(N.classes, i);
      if i.Load? {
        LoadHasNoPhi(G, b, P, i, fuel);
      } else {
        ValuePhiTrue(G, b, ve, P, fuel, h, M, env, sides);
        var vpf := ValuePhi(G, b, ve, P, fuel).expr;
        AddToMatchIs(P, ve, vpf, Instr(i.id));
        var k := FirstMatch(P, ve, vpf);
        if k.Some? && P[k.value].expr != Some(ve) { PhiIsTrue(P, P[k.value], M, env, sides); }
      }
    }
  }

  /** Every instruction of the block is guarded, one after the other. */
  ghost predicate AllGuarded(G: Ends, b: nat, N: Numbering, block: seq<Inst>, fuel: nat, h: History, sides: Sides)
    decreases block
  {
    block == []
    || (Guarded(G, b, N, block[0], fuel, h, sides)
        && (match JoinOne(G, b, N, block[0], fuel)
            case Some(N') => AllGuarded(G, b, N', block[1..], fuel, h, sides)
            case None => true))
  }

  /** Along a block whose instructions are guarded the partition stays true. */
  lemma {:induction false} JoinBlockSound(G: Ends, b: nat, N: Numbering, block: seq<Inst>, fuel: nat, h: History,
                                          M: Machine, s: State, sides: Sides)
    requires Numbered(N, M, s.env, sides) && Came(G, b, h, M, s.env)
    requires Fresh(block, s.env.Keys) && ExecAll(block, M, s).Some? && AllGuarded(G, b, N, block, fuel, h, sides)
    ensures AllAgree(G, b, N, block, fuel, M, s, sides)
    ensures TransferJoin(G, b, N, block, fuel).Some?
    ensures Numbered(TransferJoin(G, b, N, block, fuel).value, M, ExecAll(block, M, s).value.env, sides)
    decreases block
  {
    hide Numbered, JoinOne, Exec, Guarded, AgreesHere, Came;
    if block != [] {
      var i := block[0];
      NumberedParts(N, M, s.env, sides);
      GuardedAgrees(G, b, N, i, fuel, h, M, s.env, sides);
      JoinOneExact(G, b, N, i, fuel, M, s, sides);
      ExecGrows(i, M, s);
      CameGrows(G, b, h, M, s.env, Exec(i, M, s).value.env);
      JoinBlockSound(G, b, JoinOne(G, b, N, i, fuel).value, block[1..], fuel, h, M, Exec(i, M, s).value, sides);
    }
  }

  lemma {:induction false} CameGrows(G: Ends, b: nat, h: History, M: Machine, env: Env, env': Env)
    requires Came(G, b, h, M, env) && Grows(env, env')
    ensures Came(G, b, h, M, env')
    decreases h
  {
    match h
    case Origin =>
    case Via(p, front, sides, before) =>
      SoundGrows(G.Out(p), M, env, env', sides);
      CameGrows(G, p, before, M, env, env');
  }

  // ----- the condition in terms of the operands -----

  /** An instruction put into a class for its value phi agrees if and only if the operation on the
      operands' sides, each by its own join, yields what the value phi stands for at the class's join. */
  lemma AgreesBySides(G: Ends, b: nat, ve: Expr, P: Partition, fuel: nat, k: nat, M: Machine, env: Env, sides: Sides)
    requires Sound(P, M, env, sides) && ValuePhi(G, b, ve, P, fuel).Answer? && ValuePhi(G, b, ve, P, fuel).expr.Some?
    requires FirstMatch(P, ve, ValuePhi(G, b, ve, P, fuel).expr) == Some(k) && k < |P| && P[k].expr != Some(ve)
    ensures OperandPhis(ve, P).Some?
    ensures var (c, d) := OperandPhis(ve, P).value;
            && ve.Binary? && c.phi.Some? && d.phi.Some?
            && (Agrees(P, ve, ValuePhi(G, b, ve, P, fuel).expr, M, env, sides) <==>
                  Yields(ve.op, SideVal(c.phi.value, sides(c.index), M, env), SideVal(d.phi.value, sides(d.index), M, env))
                  == SideVal(ValuePhi(G, b, ve, P, fuel).expr.value, sides(P[k].index), M, env))
  {
    hide FirstMatch, Sound;
    var (c, d) := OperandPhis(ve, P).value;
    PhiClassIs(P, ve.lhs.c);
    PhiClassIs(P, ve.rhs.c);
    PhiIsTrue(P, c, M, env, sides);
    PhiIsTrue(P, d, M, env, sides);
  }

  function Yields(op: IR.BinOp, a: Option<int>, b: Option<int>): Option<int> {
    match (a, b) case (Some(x), Some(y)) => IR.Compute(op, x, y) case _ => None
  }

  /** An instruction of block b goes to class k for its value phi. The class belongs to a join entered
      by the same side as b, and the search for the number on that side went through such joins only;
      a number that is looked up needs no search. */
  ghost predicate PlacedByPhi(G: Ends, b: nat, ve: Expr, P: Partition, fuel: nat, k: nat, h: History, sides: Sides) {
    && |G.Preds(b)| == 2 && h.Via?
    && ValuePhi(G, b, ve, P, fuel).Answer? && ValuePhi(G, b, ve, P, fuel).expr.Some?
    && FirstMatch(P, ve, ValuePhi(G, b, ve, P, fuel).expr) == Some(k) && k < |P| && P[k].expr != Some(ve)
    && sides(P[k].index) == h.front
    && OperandPhis(ve, P).Some? && OnSide(ve, OperandPhis(ve, P).value, h.front).Some?
    && SameSidesAt(G, h.pred, OnSide(ve, OperandPhis(ve, P).value, h.front).value, fuel, h.before, h.sides)
  }

  /** The value phi found has, on the side taken, the value of the operation on that side. */
  lemma PlacedPhiIs(G: Ends, b: nat, ve: Expr, P: Partition, fuel: nat, k: nat, h: History, M: Machine, env: Env, sides: Sides)
    requires Sound(P, M, env, sides) && Came(G, b, h, M, env) && PlacedByPhi(G, b, ve, P, fuel, k, h, sides)
    ensures var (c, d) := OperandPhis(ve, P).value;
            && ve.Binary? && c.phi.Some? && d.phi.Some?
            && SideVal(ValuePhi(G, b, ve, P, fuel).expr.value, h.front, M, env)
               == Yields(ve.op, SideVal(c.phi.value, h.front, M, env), SideVal(d.phi.value, h.front, M, env))
  {
    hide FirstMatch, Sound, SameSidesAt, Number;
    var (c, d) := OperandPhis(ve, P).value;
    AddToMatchIs(P, ve, ValuePhi(G, b, ve, P, fuel).expr, FuncVar(0));
    PhiIsTrue(P, P[k], M, env, sides);
    NumberTrue(G, h.pred, OnSide(ve, (c, d), h.front).value, fuel, h.before, M, env, h.sides);
  }

  /** Such an instruction agrees if and only if the operation yields the same on the sides of its
      operands' joins as on the side by which b was entered; and whatever values stand on the two sides
      of the two operands, it does so if and only if the operands' joins were entered by that side. */
  lemma SidesDecide(G: Ends, b: nat, ve: Expr, P: Partition, fuel: nat, k: nat, h: History, M: Machine, env: Env, sides: Sides)
    requires Sound(P, M, env, sides) && Came(G, b, h, M, env) && PlacedByPhi(G, b, ve, P, fuel, k, h, sides)
    ensures var (c, d) := OperandPhis(ve, P).value; var l, r := sides(c.index), sides(d.index);
            && ve.Binary? && c.phi.Some? && d.phi.Some?
            && (Agrees(P, ve, ValuePhi(G, b, ve, P, fuel).expr, M, env, sides) <==>
                  Yields(ve.op, SideVal(c.phi.value, l, M, env), SideVal(d.phi.value, r, M, env))
                  == Yields(ve.op, SideVal(c.phi.value, h.front, M, env), SideVal(d.phi.value, h.front, M, env)))
            && (forall v: Four :: v.Of(c.phi.value, d.phi.value, M, env) ==>
                  (Agrees(P, ve, ValuePhi(G, b, ve, P, fuel).expr, M, env, sides) <==> v.Comes(ve.op, l, r, h.front)))
            && ((forall v: Four :: v.Comes(ve.op, l, r, h.front)) <==> l == r == h.front)
  {
    var (c, d) := OperandPhis(ve, P).value;
    assert !ve.op.Cmp?;
    hide FirstMatch, Sound, Came, ValuePhi, Number, PhiClass, SameSidesAt, Agrees;
    AgreesBySides(G, b, ve, P, fuel, k, M, env, sides);
    PlacedPhiIs(G, b, ve, P, fuel, k, h, M, env, sides);
    OneSide(ve.op, sides(c.index), sides(d.index), h.front);
  }

  /** The values on the front and the back sides of the operands' value phis. */
  datatype Four = Four(front1: int, front2: int, back1: int, back2: int) {
    ghost predicate Of(phi1: Expr, phi2: Expr, M: Machine, env: Env) {
      && SideVal(phi1, true, M, env) == Some(front1) && SideVal(phi2, true, M, env) == Some(front2)
      && SideVal(phi1, false, M, env) == Some(back1) && SideVal(phi2, false, M, env) == Some(back2)
    }

    /** The operation comes out the same on sides l and r as on side k of both. */
    predicate Comes(op: IR.BinOp, l: bool, r: bool, k: bool) {
      IR.Compute(op, if l then front1 else back1, if r then front2 else back2)
      == IR.Compute(op, if k then front1 else back1, if k then front2 else back2)
    }
  }

  lemma OneSide(op: IR.BinOp, l: bool, r: bool, k: bool)
    requires !op.Cmp?
    ensures (forall v: Four :: v.Comes(op, l, r, k)) <==> l == r == k
  {
    if l != k {
      assert !Four(0, 1, 1, 1).Comes(op, l, r, k);
    } else if r != k {
      assert !Four(2, 1, 2, 2).Comes(op, l, r, k);
    }
  }
}
