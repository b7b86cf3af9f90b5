// Value numbering as the pass performs it: loops over the classes of a partition, new classes
// numbered by a counter, uses rewritten class by class.
module GvnPass {
  import opened Wrappers
  import IR
  import opened Gvn
  import opened GvnTransfer
  import opened GvnSound
  import opened GvnJoin
  import opened GvnPath
  import opened GvnTidy
  import opened GvnRedirect
  import opened GvnValues
  import opened GvnFlow
  import opened GvnRound
  import opened GvnWhole
  import opened GvnCongruent

  // ----- one class after the other -----

  /** A use of v after the uses of one class's members have been redirected to its leader. */
  function ReplacedBy(c: Class, phis: set<nat>, v: Value): Value {
    if v in c.members && c.leader.Some? && (c.phi.Some? || !(v.Instr? && v.id in phis)) then c.leader.value else v
  }

  /** The classes redirect one after the other. */
  function ReplacedInTurn(P: Partition, phis: set<nat>, v: Value): Value {
    if P == [] then v else ReplacedInTurn(P[1..], phis, ReplacedBy(P[0], phis, v))
  }

  lemma {:induction false} NoneReplaces(P: Partition, phis: set<nat>, v: Value)
    requires forall c :: c in P ==> v !in c.members
    ensures ReplacedInTurn(P, phis, v) == v && HolderOf(P, v) == None
  {
    if P != [] {
      assert P[0] in P;
      assert forall c :: c in P[1..] ==> c in P;
      NoneReplaces(P[1..], phis, v);
    }
  }

  /** Redirecting class by class is redirecting all at once: a use already redirected is not
      redirected again. */
  lemma {:induction false} InTurnIsAtOnce(P: Partition, phis: set<nat>, v: Value)
    requires Disjoint(P) && Home(P)
    ensures ReplacedInTurn(P, phis, v) == Replaced(P, phis, v)
  {
    if P != [] {
      var rest := P[1..];
      assert forall i :: 0 <= i < |rest| ==> rest[i] == P[i + 1];
      if v in P[0].members {
        forall c | c in rest ensures ReplacedBy(P[0], phis, v) !in c.members {
          var j: nat :| j < |rest| && rest[j] == c;
          assert P[0].members !! P[j + 1].members;
        }
        NoneReplaces(rest, phis, ReplacedBy(P[0], phis, v));
      } else {
        InTurnIsAtOnce(rest, phis, v);
      }
    }
  }

  // ----- the loops -----

  /** Instructions rewritten by one class. */
  function RewrittenBy(c: Class, phis: set<nat>, i: Inst): Inst {
    match i
    case Bin(id, op, l, r) => Bin(id, op, ReplacedBy(c, phis, l), ReplacedBy(c, phis, r))
    case Zext(id, v) => Zext(id, ReplacedBy(c, phis, v))
    case Load(id, addr) => Load(id, ReplacedBy(c, phis, addr))
    case Gep(id, ops) => Gep(id, seq(|ops|, k requires 0 <= k < |ops| => ReplacedBy(c, phis, ops[k])))
    case Call(id, f, pure, void, args) => Call(id, f, pure, void, seq(|args|, k requires 0 <= k < |args| => ReplacedBy(c, phis, args[k])))
    case Alloca(_) => i
    case Store(v, addr) => Store(ReplacedBy(c, phis, v), ReplacedBy(c, phis, addr))
    case Phi(_, _, _, _, _) => i
  }

  function RewrittenInTurn(P: Partition, phis: set<nat>, i: Inst): Inst {
    if P == [] then i else RewrittenInTurn(P[1..], phis, RewrittenBy(P[0], phis, i))
  }

  /** The operands of an instruction, in order. */
  function Operands(i: Inst): seq<Value> {
    match i
    case Bin(_, _, l, r) => [l, r]
    case Zext(_, v) => [v]
    case Load(_, addr) => [addr]
    case Gep(_, ops) => ops
    case Call(_, _, _, _, args) => args
    case Store(v, addr) => [v, addr]
    case _ => []
  }

  /** Everything but the operands. */
  ghost predicate SameShape(i: Inst, j: Inst) {
    match i
    case Bin(id, op, _, _) => j.Bin? && j.id == id && j.op == op
    case Zext(id, _) => j.Zext? && j.id == id
    case Load(id, _) => j.Load? && j.id == id
    case Gep(id, _) => j.Gep? && j.id == id
    case Call(id, f, pure, void, _) => j.Call? && j.id == id && j.callee == f && j.pure == pure && j.void == void
    case Alloca(_) => j == i
    case Store(_, _) => j.Store?
    case Phi(_, _, _, _, _) => j == i
  }

  lemma ShapeAndOperands(i: Inst, j: Inst)
    requires SameShape(i, j) && Operands(i) == Operands(j)
    ensures i == j
  {
    match i
    case Bin(_, _, l, r) => assert Operands(i)[0] == l && Operands(i)[1] == r && Operands(j)[0] == j.lhs && Operands(j)[1] == j.rhs;
    case Zext(_, v) => assert Operands(i)[0] == v && Operands(j)[0] == j.val;
    case Load(_, a) => assert Operands(i)[0] == a && Operands(j)[0] == j.addr;
    case Store(v, a) => assert Operands(i)[0] == v && Operands(i)[1] == a && Operands(j)[0] == j.val && Operands(j)[1] == j.addr;
    case _ =>
  }

  lemma {:induction false} InTurnOperands(P: Partition, phis: set<nat>, i: Inst)
    ensures var j := RewrittenInTurn(P, phis, i);
            && SameShape(i, j) && |Operands(j)| == |Operands(i)|
            && forall k :: 0 <= k < |Operands(i)| ==> Operands(j)[k] == ReplacedInTurn(P, phis, Operands(i)[k])
  {
    if P != [] {
      InTurnOperands(P[1..], phis, RewrittenBy(P[0], phis, i));
    }
  }

  lemma InTurnInst(P: Partition, phis: set<nat>, i: Inst)
    requires Disjoint(P) && Home(P)
    ensures RewrittenInTurn(P, phis, i) == ReplacedInst(P, phis, i)
  {
    hide Replaced, ReplacedInTurn, RewrittenInTurn, Disjoint, Home;
    var j, r := RewrittenInTurn(P, phis, i), ReplacedInst(P, phis, i);
    InTurnOperands(P, phis, i);
    forall k | 0 <= k < |Operands(i)| ensures Operands(j)[k] == Operands(r)[k] {
      InTurnIsAtOnce(P, phis, Operands(i)[k]);
    }
    assert SameShape(j, r);
    ShapeAndOperands(j, r);
  }

  lemma {:induction false} ReplacedBlockAt(P: Partition, phis: set<nat>, block: seq<Inst>)
    ensures |ReplacedBlock(P, phis, block)| == |block|
    ensures forall k :: 0 <= k < |block| ==> ReplacedBlock(P, phis, block)[k] == ReplacedInst(P, phis, block[k])
  {
    if block != [] { ReplacedBlockAt(P, phis, block[1..]); }
  }

  lemma {:induction false} TurnsSnoc(P: Partition, phis: set<nat>, i: Inst, k: nat)
    requires k < |P|
    ensures RewrittenInTurn(P[..k + 1], phis, i) == RewrittenBy(P[k], phis, RewrittenInTurn(P[..k], phis, i))
    decreases k
  {
    if k == 0 {
      assert P[..1][1..] == [] && P[..0] == [];
    } else {
      assert P[..k + 1][1..] == P[1..][..k] && P[..k][1..] == P[1..][..k - 1];
      TurnsSnoc(P[1..], phis, RewrittenBy(P[0], phis, i), k - 1);
    }
  }

  lemma {:induction false} ReplacedSnoc(P: Partition, phis: set<nat>, v: Value, k: nat)
    requires k < |P|
    ensures ReplacedInTurn(P[..k + 1], phis, v) == ReplacedBy(P[k], phis, ReplacedInTurn(P[..k], phis, v))
    decreases k
  {
    hide ReplacedBy;
    if k == 0 {
      assert P[..1][1..] == [] && P[..0] == [];
    } else {
      assert P[..k + 1][1..] == P[1..][..k] && P[..k][1..] == P[1..][..k - 1];
      ReplacedSnoc(P[1..], phis, ReplacedBy(P[0], phis, v), k - 1);
    }
  }

  lemma UsesRedirected(P: Partition, phis: set<nat>, block: seq<Inst>, tail: seq<Value>, r: seq<Inst>, t: seq<Value>)
    requires Disjoint(P) && Home(P) && r == ReplacedBlock(P, phis, block) && t == ReplacedAll(P, phis, tail)
    ensures |r| == |block| && forall k :: 0 <= k < |block| ==> Redirected(P, phis, block[k], r[k])
    ensures AllTakePlace(P, phis, tail, t)
    ensures forall c, v :: c in P && Redirects(c, phis, v) ==> (forall j :: j in r ==> !Uses(j, v)) && v !in t
  {
    hide Redirects, Redirected, TakesPlace, Home, Disjoint, Uses, Replaced, ReplacedBlock;
    BlockRedirected(P, phis, block);
    ReplacedAllBecome(P, phis, tail);
    forall c, v | c in P && Redirects(c, phis, v) ensures (forall j :: j in r ==> !Uses(j, v)) && v !in t {
      forall j | j in r ensures !Uses(j, v) {
        var k :| 0 <= k < |r| && r[k] == j;
        NoUseLeft(P, phis, block[k], j, c, v);
      }
      if v in t {
        var k :| 0 <= k < |t| && t[k] == v;
        NotAgain(P, phis, tail[k], v, c);
      }
    }
  }

  /** Classes that do not match are passed over. */
  lemma {:induction false} AddToMatchFrom(P: Partition, ve: Expr, vpf: Option<Expr>, v: Value, k: nat)
    requires k <= |P| && forall j :: 0 <= j < k ==> !Matches(P[j], ve, vpf)
    ensures AddToMatch(P, ve, vpf, v)
         == match AddToMatch(P[k..], ve, vpf, v) case None => None case Some(Q) => Some(P[..k] + Q)
    decreases k
  {
    hide Matches;
    var rest := AddToMatch(P[k..], ve, vpf, v);
    if k == 0 {
      assert P[0..] == P;
      if rest.Some? { assert P[..0] + rest.value == rest.value; }
    } else {
      assert P[1..][k - 1..] == P[k..];
      AddToMatchFrom(P[1..], ve, vpf, v, k - 1);
      if rest.Some? { assert [P[0]] + (P[1..][..k - 1] + rest.value) == P[..k] + rest.value; }
    }
  }

  lemma WithoutFrom(P: Partition, v: Value, k: nat, Q: Partition)
    requires k < |P|
    ensures var more := if v !in P[k].members then [P[k]]
                        else if P[k].members == {v} then [] else [P[k].(members := P[k].members - {v})];
            Q + Without(P[k..], v) == Q + more + Without(P[k + 1..], v)
  {
    assert P[k..][1..] == P[k + 1..];
  }

  lemma NothingTaken(P: Partition, v: Value, phi: nat)
    requires !(exists j :: 0 <= j < |P| && Takes(P[j], v))
    ensures !Taken(P, v)
  {
  }

  /** What the source compares: the number of classes, and their leaders. */
  predicate SameLeaders(P: Partition, Q: Partition) {
    |P| == |Q| && forall c :: c in P ==> exists d :: d in Q && d.leader == c.leader
  }

  /** The number of classes is another, or a leader is gone. */
  ghost predicate LeadersMoved(P: Partition, Q: Partition) {
    |Q| != |P| || exists c :: c in P && forall d :: d in Q ==> d.leader != c.leader
  }

  /** At the end of one of the first k blocks. */
  ghost predicate LeadersChanged(before: map<nat, Partition>, after: map<nat, Partition>, k: nat) {
    exists b: nat {:trigger Part(after, b)} :: b < k && LeadersMoved(Part(before, b), Part(after, b))
  }

  lemma MovedIsNotSame(P: Partition, Q: Partition)
    ensures LeadersMoved(P, Q) <==> !SameLeaders(P, Q)
  {
  }

  lemma LeadersChangedStep(start: map<nat, Partition>, before: map<nat, Partition>, after: map<nat, Partition>, b: nat)
    requires Part(before, b) == Part(start, b) && forall a: nat :: a != b ==> Part(after, a) == Part(before, a)
    ensures LeadersChanged(start, after, b + 1) <==> LeadersChanged(start, before, b) || LeadersMoved(Part(before, b), Part(after, b))
  {
    hide LeadersMoved;
    assert Part(after, b) == Part(after, b);
    forall a: nat | a < b ensures Part(after, a) == Part(before, a) {}
  }

  lemma NoneChanged(pout: map<nat, Partition>)
    ensures !LeadersChanged(pout, pout, 0)
  {
  }

  lemma NotMoved(P: Partition)
    ensures !LeadersMoved(P, P)
  {
  }

  /** How rounds end: all blocks visited; at a join that reads the first class of an empty
      partition; or at a visit that fails otherwise: folding divides by zero, the search for a value phi
      is too deep, or numbers have run into that of the top class. */
  datatype Outcome = Done | EmptyRead(block: nat) | Stuck(block: nat)

  class GVN {
    var nextValueNumber: nat
    var pin: map<nat, Partition>     // the partitions on entry to the blocks
    var pout: map<nat, Partition>    // and those at their ends
    ghost var starts: map<nat, nat>  // the next number when a block was visited last
    ghost var joins: map<nat, nat>   // and the next one after its join

    constructor ()
      ensures nextValueNumber == 1 && pin == map[] && pout == map[]
    {
      nextValueNumber, pin, pout := 1, map[], map[];
    }

    /** What rounds have computed so far. */
    ghost function Computed(): Tables
      reads this
    {
      Tables(pin, pout, starts, joins)
    }

    /** The class of the values two classes have in common, if any. */
    method Intersect(a: Class, b: Class) returns (c: Option<Class>)
      requires a.members * b.members != {} ==> 0 < a.index && 0 < b.index && a.leader.Some? && b.leader.Some?
      modifies this`nextValueNumber
      ensures c.None? <==> a.members * b.members == {}
      ensures c.Some? ==> Intersection(c.value, a, b, old(nextValueNumber))
      ensures nextValueNumber == old(nextValueNumber) + if c.Some? && a.index != b.index then 1 else 0
    {
      var index, leader, expr, phi := 0, None, None, None;
      if a.index == b.index { index := a.index; }
      if a.leader == b.leader { leader := a.leader; }
      if a.expr == b.expr { expr := a.expr; }
      if a.phi == b.phi { phi := a.phi; }
      var members := a.members * b.members;
      if members == {} {
        return None;
      }
      if index == 0 {
        index := nextValueNumber;
        nextValueNumber := nextValueNumber + 1;
        if leader.None? {
          var m :| m in members;
          leader := Some(m);
        }
        phi := Some(PhiOf(Leaf(a.leader.value), Leaf(b.leader.value)));
      }
      c := Some(Class(index, leader, expr, phi, members));
    }

    /** All pairwise intersections; a partition not computed yet is neutral. False where the source reads
        the first class of a partition that has none. */
    method Join(P1: Partition, P2: Partition) returns (P: Partition, ok: bool)
      requires P1 != [] && P2 != [] && P1[0].index != TOP_INDEX && P2[0].index != TOP_INDEX ==>
                 Orderly(P1, nextValueNumber) && Orderly(P2, nextValueNumber)
      modifies this`nextValueNumber
      ensures ok <==> P1 != [] && (P1[0].index == TOP_INDEX || P2 != [])
      ensures ok && P1[0].index == TOP_INDEX ==> P == P2 && nextValueNumber == old(nextValueNumber)
      ensures ok && P1[0].index != TOP_INDEX && P2[0].index == TOP_INDEX ==> P == P1 && nextValueNumber == old(nextValueNumber)
      ensures ok && P1[0].index != TOP_INDEX && P2[0].index != TOP_INDEX ==>
                && Paired(P, P1, P2, |P1|, 0, old(nextValueNumber), nextValueNumber)
                && (Disjoint(P1) && Disjoint(P2) ==> IsJoin(P, P1, P2, old(nextValueNumber), nextValueNumber))
      ensures !ok ==> P == [] && nextValueNumber == old(nextValueNumber)
    {
      P, ok := [], true;
      if P1 == [] {
        return [], false;
      }
      if P1[0].index == TOP_INDEX {
        return P2, true;
      }
      if P2 == [] {
        return [], false;
      }
      if P2[0].index == TOP_INDEX {
        return P1, true;
      }
      for i := 0 to |P1|
        invariant Paired(P, P1, P2, i, 0, old(nextValueNumber), nextValueNumber)
        invariant Disjoint(P1) && Disjoint(P2) ==> Apart(P)
      {
        for j := 0 to |P2|
          invariant Paired(P, P1, P2, i, j, old(nextValueNumber), nextValueNumber)
          invariant Disjoint(P1) && Disjoint(P2) ==> Apart(P)
        {
          assert P1[i] in P1 && P2[j] in P2;
          ghost var before := nextValueNumber;
          var c := Intersect(P1[i], P2[j]);
          if c.Some? {
            PairedStep(P, P1, P2, i, j, old(nextValueNumber), before, c.value, nextValueNumber);
            P := Insert(P, c.value);
          } else {
            PairedMove(P, P1, P2, i, j, i, j + 1, old(nextValueNumber), nextValueNumber);
          }
        }
        PairedMove(P, P1, P2, i, |P2|, i + 1, 0, old(nextValueNumber), nextValueNumber);
      }
    }

    method LookupLeader(P: Partition, v: Value) returns (l: Value)
      ensures l == LeaderOf(P, v)
    {
      var found: Option<Value> := None;
      for k := 0 to |P|
        invariant found == FindLeader(P[..k], v)
      {
        assert P[..k + 1][..k] == P[..k];
        if v in P[k].members {
          found := P[k].leader;
        }
      }
      assert P[..|P|] == P;
      l := match found case None => v case Some(x) => x;
    }

    method LookupAll(P: Partition, vs: seq<Value>) returns (es: seq<Expr>)
      ensures es == Leaders(P, vs)
    {
      es := [];
      for k := 0 to |vs|
        invariant |es| == k && forall j :: 0 <= j < k ==> es[j] == Leaf(LeaderOf(P, vs[j]))
      {
        var l := LookupLeader(P, vs[k]);
        es := es + [Leaf(l)];
      }
    }

    method MakeExpr(P: Partition, i: Inst) returns (ve: Expr)
      requires HasValue(i)
      ensures ve == ValueExpr(P, i)
    {
      match i
      case Bin(_, op, l, r) =>
        var lhs := LookupLeader(P, l);
        var rhs := LookupLeader(P, r);
        ve := Binary(op, Leaf(lhs), Leaf(rhs));
      case Zext(_, v) =>
        var l := LookupLeader(P, v);
        ve := Multi([Leaf(l)], ZextKind);
      case Load(_, addr) => ve := Leaf(addr);
      case Gep(_, ops) =>
        var es := LookupAll(P, ops);
        ve := Multi(es, GepKind);
      case Call(id, f, pure, _, args) =>
        var es := LookupAll(P, [FuncVar(f)] + args);
        ve := if pure then Multi(es, PureCall) else Unique(es, id);
      case Alloca(id) => ve := Unique([], id);
    }

    method LookupConst(P: Partition, v: Value) returns (n: Option<int>)
      ensures n == FindConst(P, v)
    {
      if v.IntConst? {
        return Some(v.n);
      }
      for k := 0 to |P|
        invariant FindConst(P[k..], v) == FindConst(P, v)
      {
        assert P[k..][1..] == P[k + 1..];
        if v in P[k].members && P[k].leader.Some? && P[k].leader.value.IntConst? {
          return Some(P[k].leader.value.n);
        }
      }
      n := None;
    }

    /** None: folding would divide by zero. */
    method MakeLeader(P: Partition, i: Inst) returns (l: Option<Value>)
      requires HasValue(i)
      ensures l == NewLeader(P, i)
    {
      l := Some(Instr(i.id));
      match i
      case Bin(_, op, lhs, rhs) =>
        var a := LookupConst(P, lhs);
        var b := LookupConst(P, rhs);
        if a.Some? && b.Some? {
          var n := IR.Compute(op, a.value, b.value);
          l := if n.Some? then Some(IntConst(n.value)) else None;
        }
      case Zext(_, v) =>
        var a := LookupConst(P, v);
        if a.Some? {
          l := Some(IntConst(a.value));
        }
      case _ =>
    }

    /** The first class that matches gets the instruction. */
    method JoinClass(P: Partition, ve: Expr, vpf: Option<Expr>, v: Value) returns (r: Option<Partition>)
      ensures r == AddToMatch(P, ve, vpf, v)
    {
      for k := 0 to |P|
        invariant forall j :: 0 <= j < k ==> !Matches(P[j], ve, vpf)
      {
        if Matches(P[k], ve, vpf) {
          AddToMatchFrom(P, ve, vpf, v, k);
          r := Some(P[k := P[k].(members := P[k].members + {v})]);
          assert r.value == P[..k] + ([P[k].(members := P[k].members + {v})] + P[k..][1..]);
          return;
        }
      }
      AddToMatchFrom(P, ve, vpf, v, |P|);
      r := None;
    }

    /** Takes v out of its class, and the class out of the partition if nothing is left in it. */
    method Remove(P: Partition, v: Value) returns (Q: Partition)
      ensures Q == Without(P, v)
    {
      Q := [];
      for k := 0 to |P|
        invariant Q + Without(P[k..], v) == Without(P, v)
      {
        WithoutFrom(P, v, k, Q);
        if v !in P[k].members {
          Q := Q + [P[k]];
        } else if P[k].members != {v} {
          Q := Q + [P[k].(members := P[k].members - {v})];
        }
      }
    }

    method LookupNumber(P: Partition, e: Expr) returns (r: Option<Expr>)
      ensures r == GetVN(P, e)
    {
      for k := 0 to |P|
        invariant GetVN(P[k..], e) == GetVN(P, e)
      {
        assert P[k..][1..] == P[k + 1..];
        if P[k].expr == Some(e) && P[k].leader.Some? {
          return Some(Leaf(P[k].leader.value));
        }
      }
      r := None;
    }

    method LookupPhiClass(P: Partition, l: Value) returns (c: Option<Class>)
      ensures c == PhiClass(P, l)
    {
      c := None;
      for k := 0 to |P|
        invariant c == PhiClass(P[..k], l)
      {
        assert P[..k + 1][..k] == P[..k];
        if P[k].phi.Some? && P[k].leader == Some(l) {
          c := Some(P[k]);
        }
      }
      assert P[..|P|] == P;
    }

    method LookupByPhi(P: Partition, phi: Expr) returns (c: Option<Class>)
      ensures c == ClassWithPhi(P, phi)
    {
      for k := 0 to |P|
        invariant ClassWithPhi(P[k..], phi) == ClassWithPhi(P, phi)
      {
        assert P[k..][1..] == P[k + 1..];
        if P[k].phi == Some(phi) {
          return Some(P[k]);
        }
      }
      c := None;
    }

    /** The value phi of an expression, searched for through at most `fuel` joins. */
    method ValuePhiFunc(G: Ends, b: nat, ve: Expr, P: Partition, fuel: nat) returns (r: Found)
      ensures r == ValuePhi(G, b, ve, P, fuel)
      decreases fuel, 1
    {
      r := Answer(None);
      if ve.Binary? && ve.lhs.Leaf? && ve.rhs.Leaf? && !ve.op.Cmp? && !ve.lhs.c.IntConst? && !ve.rhs.c.IntConst? {
        var c := LookupPhiClass(P, ve.lhs.c);
        var d := LookupPhiClass(P, ve.rhs.c);
        if c.Some? && d.Some? && |G.Preds(b)| == 2 {
          var phis := (c.value, d.value);
          var e1, e2 := OnSide(ve, phis, true), OnSide(ve, phis, false);
          if e1.Some? && e2.Some? {
            var vi := NumberAt(G, G.Preds(b)[0], e1.value, fuel);
            var vj := NumberAt(G, G.Preds(b)[1], e2.value, fuel);
            if vi == TooDeep || vj == TooDeep {
              r := TooDeep;
            } else if vi.expr.Some? && vj.expr.Some? {
              r := Answer(Some(PhiOf(vi.expr.value, vj.expr.value)));
            }
          }
        }
      }
    }

    method NumberAt(G: Ends, p: nat, e: Expr, fuel: nat) returns (r: Found)
      ensures r == Number(G, p, e, fuel)
      decreases fuel, 0
    {
      var v := LookupNumber(G.Out(p), e);
      if v.Some? {
        return Answer(v);
      }
      if fuel == 0 {
        return TooDeep;
      }
      r := ValuePhiFunc(G, p, e, G.Out(p), fuel - 1);
      if r.Answer? && r.expr.Some? {
        var c := LookupByPhi(G.Out(p), r.expr.value);
        if c.Some? {
          r := if c.value.leader.Some? then Answer(Some(Leaf(c.value.leader.value))) else Answer(None);
        }
      }
    }

    /** One instruction of the transfer function; false if folding would divide by zero, or the
        search for a value phi is too deep. */
    method Visit(G: Ends, b: nat, P: Partition, i: Inst, fuel: nat) returns (Q: Partition, ok: bool)
      modifies this`nextValueNumber
      ensures var r := JoinOne(G, b, Numbering(P, old(nextValueNumber)), i, fuel);
              ok == r.Some? && (ok ==> Numbering(Q, nextValueNumber) == r.value)
    {
      hide ValuePhi, Without;
      Q, ok := P, true;
      if HasValue(i) {
        Q := Remove(P, Instr(i.id));
        var ve := MakeExpr(Q, i);
        var vpf := ValuePhiFunc(G, b, ve, Q, fuel);
        if vpf == TooDeep {
          return P, false;
        }
        if !i.Load? {
          var found := JoinClass(Q, ve, vpf.expr, Instr(i.id));
          if found.Some? {
            return found.value, true;
          }
        }
        var leader := MakeLeader(Q, i);
        if leader.None? {
          return P, false;
        }
        Q := Insert(Q, Class(nextValueNumber, leader, Some(ve), None, {Instr(i.id)}));
        nextValueNumber := nextValueNumber + 1;
      }
    }

    /** The transfer function of block b. */
    method TransferFunction(G: Ends, b: nat, pin: Partition, block: seq<Inst>, fuel: nat) returns (pout: Partition, ok: bool)
      modifies this`nextValueNumber
      ensures var r := TransferJoin(G, b, Numbering(pin, old(nextValueNumber)), block, fuel);
              ok == r.Some? && (ok ==> Numbering(pout, nextValueNumber) == r.value)
    {
      hide JoinOne;
      pout, ok := pin, true;
      ghost var start := TransferJoin(G, b, Numbering(pin, nextValueNumber), block, fuel);
      assert block[0..] == block;
      for k := 0 to |block|
        invariant ok && TransferJoin(G, b, Numbering(pout, nextValueNumber), block[k..], fuel) == start
      {
        assert block[k..][0] == block[k] && block[k..][1..] == block[k + 1..];
        pout, ok := Visit(G, b, pout, block[k], fuel);
        if !ok {
          return;
        }
      }
      assert block[|block|..] == [];
    }

    /** The statement phi := v at the end of a block. */
    method CopyInto(P: Partition, phi: nat, v: Value) returns (Q: Partition)
      modifies this`nextValueNumber
      ensures Numbering(Q, nextValueNumber) == Copy(Numbering(P, old(nextValueNumber)), phi, v)
    {
      hide Takes, Without;
      var R := Remove(P, Instr(phi));
      Q := R;
      var flag := false;
      for k := 0 to |R|
        invariant |Q| == |R| && (flag <==> exists j :: 0 <= j < k && Takes(R[j], v))
        invariant forall j :: 0 <= j < |R| ==> Q[j] == if j < k then AddCopy(R, v, phi)[j] else R[j]
      {
        if Takes(R[k], v) {
          flag := true;
          Q := Q[k := R[k].(members := R[k].members + {Instr(phi)})];
        }
      }
      assert Q == AddCopy(R, v, phi);
      if !flag {
        NothingTaken(R, v, phi);
        Q := Insert(R, Class(nextValueNumber, Some(v), Some(Leaf(v)), None, {Instr(phi)}));
        nextValueNumber := nextValueNumber + 1;
      }
    }

    /** Copies for the phis of a successor of block b. */
    method CopyStmt(P: Partition, succ: seq<Inst>, b: nat) returns (Q: Partition)
      modifies this`nextValueNumber
      ensures Numbering(Q, nextValueNumber) == Copies(Numbering(P, old(nextValueNumber)), succ, b)
    {
      hide Copy;
      Q := P;
      ghost var end := Copies(Numbering(P, nextValueNumber), succ, b);
      assert succ[0..] == succ;
      for k := 0 to |succ|
        invariant Copies(Numbering(Q, nextValueNumber), succ[k..], b) == end
      {
        assert succ[k..][0] == succ[k] && succ[k..][1..] == succ[k + 1..];
        if succ[k].Phi? {
          if succ[k].from1 == b {
            Q := CopyInto(Q, succ[k].id, succ[k].val1);
          }
          if succ[k].from2 == b {
            Q := CopyInto(Q, succ[k].id, succ[k].val2);
          }
        }
      }
      assert succ[|succ|..] == [];
    }

    /** A class for every argument and global variable. */
    method NewClasses(vs: seq<Value>) returns (P: Partition)
      requires 0 < nextValueNumber
      modifies this`nextValueNumber
      ensures P == EntryClasses(vs, old(nextValueNumber)) && nextValueNumber == old(nextValueNumber) + |vs|
      ensures Orderly(P, nextValueNumber) && TOP !in P && Members(P) == (set v | v in vs) && Carried([], P, old(nextValueNumber))
    {
      P := [];
      EntryAt(vs, nextValueNumber);
      for k := 0 to |vs|
        invariant nextValueNumber == old(nextValueNumber) + k && |P| == k
        invariant forall j :: 0 <= j < k ==> P[j] == EntryClasses(vs, old(nextValueNumber))[j]
      {
        P := P + [Class(nextValueNumber, Some(vs[k]), None, None, {vs[k]})];
        nextValueNumber := nextValueNumber + 1;
      }
      assert P == EntryClasses(vs, old(nextValueNumber));
      EntryOrderly(vs, P, old(nextValueNumber));
    }

    /** A block without predecessors: classes for arguments and globals, the transfer function, the copies. */
    method VisitEntry(F: Fn, b: nat, fuel: nat) returns (ok: bool)
      requires F.Valid() && b < |F.code| && F.Root(b) && 0 < nextValueNumber
      modifies this
      ensures ok ==> b in pout && Computed() == old(Computed()).With(b, EntryClasses(F.vars, old(nextValueNumber)), pout[b],
                                                        old(nextValueNumber), old(nextValueNumber) + |F.vars|)
      ensures var n := old(nextValueNumber);
              var r := TransferJoin(Ends(F.Preds(), old(pout)), b, Numbering(EntryClasses(F.vars, n), n + |F.vars|), F.code[b], fuel);
              ok == r.Some? && (ok ==> pout == old(pout)[b := Copies(r.value, F.PhisAfter(b), b).classes]
                                       && nextValueNumber == Copies(r.value, F.PhisAfter(b), b).next)
      ensures ok ==> Kept(F, b, pout[b], nextValueNumber) && TOP !in pout[b] && Carried([], pout[b], old(nextValueNumber))
                     && old(nextValueNumber) <= nextValueNumber
      ensures Undivided(F.code[b]) ==> ok
      ensures ok && SsaForm(F) && UsesMade(F, b) ==> FindsEqual(F, b, pout[b])
    {
      hide TransferJoin, Copies, Kept, Orderly, Carried, EntryClasses, Valued, Copied, Adds, SsaForm, UsesMade, FindsEqual;
      ghost var n := nextValueNumber;
      var P := NewClasses(F.vars);
      pin, starts, joins := pin[b := P], starts[b := n], joins[b := nextValueNumber];
      if Undivided(F.code[b]) { UndividedTransfers(Ends(F.Preds(), pout), b, Numbering(P, nextValueNumber), F.code[b], fuel); }
      var Q;
      Q, ok := PassThrough(F, b, P, fuel);
      if ok {
        if SsaForm(F) && UsesMade(F, b) { EntryFinds(F, Ends(F.Preds(), pout), b, n, fuel); }
        pout := pout[b := Q];
        RootVisited(F, b, P, n, Q, nextValueNumber);
      }
    }

    /** From the start of block b to its end: the transfer function and the copies. False also if numbers have
        run into that of the top class. */
    method PassThrough(F: Fn, b: nat, P: Partition, fuel: nat) returns (Q: Partition, ok: bool)
      requires F.Valid() && b < |F.code| && Orderly(P, nextValueNumber) && 0 < nextValueNumber
      modifies this`nextValueNumber
      ensures var n := old(nextValueNumber); var t := TransferJoin(Ends(F.Preds(), pout), b, Numbering(P, n), F.code[b], fuel);
              && (TOP !in P ==> ok == t.Some?)
              && (ok ==> t.Some? && Numbering(Q, nextValueNumber) == Copies(t.value, F.PhisAfter(b), b) && n <= nextValueNumber
                         && Adds(Numbering(P, n), Numbering(Q, nextValueNumber), Valued(F.code[b]) + Copied(F.PhisAfter(b), b)))
      ensures ok ==> FindsFrom(F, b, Numbering(P, old(nextValueNumber)), Q)
    {
      hide FindsFrom, TransferJoin, Copies, Orderly, Carried, Valued, Copied, Members;
      ghost var n, G := nextValueNumber, Ends(F.Preds(), pout);
      Q, ok := TransferFunction(Ends(F.Preds(), pout), b, P, F.code[b], fuel);
      if !ok {
        return;
      }
      Q := CopyStmt(Q, F.PhisAfter(b), b);
      if TOP in P && TOP_INDEX < nextValueNumber {
        return Q, false;
      }
      BlockAdds(G, b, Numbering(P, n), F.code[b], F.PhisAfter(b), fuel);
      VisitFindsFrom(F, G, b, Numbering(P, n), fuel);
    }

    /** On entry to a block with one predecessor or two: the partition cloned or joined. */
    method EnterBlock(F: Fn, b: nat, ghost first: bool) returns (r: Outcome, P: Partition)
      requires F.Valid() && InRound(F, b, pout, nextValueNumber, first) && b < |F.code| && F.Visited(b)
      modifies this`nextValueNumber
      ensures r.EmptyRead? ==> r.block == b && LooksIntoEmpty(F, b)
      ensures r.Stuck? ==> r.block == b && !Calm(F, b)
      ensures r.Done? ==> !LooksIntoEmpty(F, b) && Entered(F, b, P, nextValueNumber) && old(nextValueNumber) <= nextValueNumber
      ensures r.Done? ==> forall a: nat :: a < |F.code| && Past(F, a, b) ==> Alike(P, Part(pout, a))
      ensures r.Done? ==> EntersBy(F, b, pout, P, old(nextValueNumber), nextValueNumber)
    {
      hide Carries, Orderly, NothingAt, Paired, IsJoin, Missing, Fn.Made, InRound, Entered, Alike, Disjoint;
      var front, back := F.preds[b][0], F.preds[b][|F.preds[b]| - 1];
      PredKnown(F, b, pout, nextValueNumber, front, first);
      PredKnown(F, b, pout, nextValueNumber, back, first);
      if |F.preds[b]| == 1 {
        P, r := pout[front], Done;
        CloneEntered(F, b, pout, nextValueNumber, first);
        return;
      }
      if pout[front] != [] && TOP_INDEX < nextValueNumber {
        return Stuck(b), [];
      }
      var ok;
      ghost var lo := nextValueNumber;
      P, ok := Join(pout[front], pout[back]);
      r := if ok then Done else EmptyRead(b);
      if ok {
        JoinEntered(F, b, pout, P, lo, nextValueNumber, first);
      } else {
        NothingIsKnown(F, if pout[front] == [] then front else back);
      }
    }

    /** One visit of a block with one predecessor or two: the partition on entry, the transfer function,
        and the copies. */
    method VisitBlock(F: Fn, b: nat, fuel: nat, ghost first: bool) returns (r: Outcome, ghost n: nat)
      requires F.Valid() && InRound(F, b, pout, nextValueNumber, first) && b < |F.code| && F.Visited(b)
      modifies this
      ensures r.EmptyRead? ==> r.block == b && LooksIntoEmpty(F, b)
      ensures r.Stuck? ==> r.block == b && !Calm(F, b)
      ensures r.Done? ==> !LooksIntoEmpty(F, b) && InRound(F, b + 1, pout, nextValueNumber, first)
      ensures r.Done? ==> b in pin && b in pout && Computed() == old(Computed()).With(b, pin[b], pout[b], old(nextValueNumber), n)
                          && old(nextValueNumber) <= n <= nextValueNumber && EntersBy(F, b, old(pout), pin[b], old(nextValueNumber), n)
      ensures r.Done? ==>
                var t := TransferJoin(Ends(F.Preds(), old(pout)), b, Numbering(pin[b], n), F.code[b], fuel);
                t.Some? && pout == old(pout)[b := Copies(t.value, F.PhisAfter(b), b).classes]
                && nextValueNumber == Copies(t.value, F.PhisAfter(b), b).next
      ensures r.Done? ==> FindsFrom(F, b, Numbering(pin[b], n), pout[b])
    {
      ghost var next := nextValueNumber;
      assert 0 < next;
      hide FindsFrom, Carries, Orderly, EntersBy, TransferJoin, Copies, LooksIntoEmpty, InRound, Kept, Entered, Alike, Carried, Adds, Calm;
      var P;
      r, P := EnterBlock(F, b, first);
      n := nextValueNumber;
      if !r.Done? {
        return;
      }
      EnteredOrderly(F, b, P, n);
      if Calm(F, b) { CalmTransfers(F, b, pout, next, P, n, fuel, first); }
      var Q, ok := PassThrough(F, b, P, fuel);
      if !ok {
        return Stuck(b), n;
      }
      BlockVisited(F, b, pout, next, P, n, Q, nextValueNumber, first);
      pin, pout, starts, joins := pin[b := P], pout[b := Q], starts[b := next], joins[b := n];
    }

    /** The initial partition of one block. */
    method InitializeBlock(F: Fn, b: nat, fuel: nat) returns (ok: bool)
      requires F.Valid() && b < |F.code| && Starting(F, b, pout, nextValueNumber) && 0 < nextValueNumber
      requires RootsSolved(F, Computed(), b, nextValueNumber, fuel)
      modifies this
      ensures ok ==> Starting(F, b + 1, pout, nextValueNumber) && 0 < nextValueNumber
      ensures ok ==> RootsSolved(F, Computed(), b + 1, nextValueNumber, fuel)
      ensures !ok ==> F.Root(b) && !Calm(F, b)
    {
      hide Starting, Kept, Calm, Undivided, Carried, SolvedAt, SsaForm, TransferJoin, Copies, EntryClasses, RootsSolved, Orderly;
      ghost var next, T := nextValueNumber, Computed();
      ok := true;
      if |F.preds[b]| == 0 {
        ok := VisitEntry(F, b, fuel);
        if !ok {
          StuckIsNotCalm(F, b);
          return;
        }
        if SsaForm(F) { SolvedRoot(F, T, b, next, pout[b], nextValueNumber, fuel); }
      } else {
        pout := pout[b := [TOP]];
      }
      StartingStep(F, b, T.pout, next, pout[b], nextValueNumber);
      RootsStep(F, T, b, next, fuel, Computed(), nextValueNumber);
    }

    /** The partitions before the first round: those of the blocks without predecessors, and the top class. */
    method Initialize(F: Fn, fuel: nat) returns (r: Outcome)
      requires F.Valid() && nextValueNumber == 1 && pin == map[] && pout == map[]
      modifies this
      ensures r.Done? ==> Starting(F, |F.code|, pout, nextValueNumber) && 0 < nextValueNumber
      ensures r.Done? ==> RootsSolved(F, Computed(), |F.code|, nextValueNumber, fuel)
      ensures !r.EmptyRead? && (r.Stuck? ==> r.block < |F.code| && F.Root(r.block) && !Calm(F, r.block))
    {
      StartingNothing(F);
      hide Starting, Calm, SolvedAt, SsaForm;
      for b := 0 to |F.code|
        invariant Starting(F, b, pout, nextValueNumber) && 0 < nextValueNumber
        invariant RootsSolved(F, Computed(), b, nextValueNumber, fuel)
      {
        var ok := InitializeBlock(F, b, fuel);
        if !ok {
          return Stuck(b);
        }
      }
      r := Done;
    }

    /** Block b in its turn of a round. */
    method RoundBlock(F: Fn, b: nat, fuel: nat, ghost first: bool) returns (r: Outcome, changed: bool)
      requires F.Valid() && b < |F.code| && InRound(F, b, pout, nextValueNumber, first)
      requires SolvedTo(F, Computed(), b, nextValueNumber, fuel)
      modifies this
      ensures r.EmptyRead? ==> r.block == b && LooksIntoEmpty(F, b)
      ensures r.Stuck? ==> r.block == b && !Calm(F, b)
      ensures r.Done? ==> !LooksIntoEmpty(F, b) && InRound(F, b + 1, pout, nextValueNumber, first)
      ensures r.Done? ==> SolvedTo(F, Computed(), b + 1, nextValueNumber, fuel)
      ensures r.Done? ==> SameRoots(F, old(Computed()), Computed()) && UnvisitedStay(F, old(pout), pout)
      ensures r.Done? ==> changed == LeadersMoved(Part(old(pout), b), Part(pout, b))
      ensures r.Done? ==> forall a: nat :: a != b ==> Part(pout, a) == Part(old(pout), a)
    {
      ghost var T, next := Computed(), nextValueNumber;
      assert b in pout && 0 < next;
      hide LooksIntoEmpty, Calm, InRound, SolvedTo, EntersBy, TransferJoin, Copies, SameRoots, UnvisitedStay, SameLeaders, LeadersMoved;
      changed := false;
      if |F.preds[b]| == 1 || |F.preds[b]| == 2 {
        var before := pout[b];
        ghost var n;
        r, n := VisitBlock(F, b, fuel, first);
        if r.Done? {
          SolvedStep(F, T, b, next, fuel, first, pin[b], n, pout[b], nextValueNumber);
          RoundStays(F, T, b, pin[b], pout[b], next, n);
          changed := !SameLeaders(before, pout[b]);
        MovedIsNotSame(before, pout[b]);
        }
      } else {
        RoundSkip(F, b, pout, nextValueNumber, first);
        SolvedSkip(F, Computed(), b, nextValueNumber, fuel);
        SameRootsSelf(F, T);
        UnvisitedSelf(F, pout);
        NotMoved(pout[b]);
        r := Done;
      }
    }

    /** One round over the blocks in list order; `changed` tells whether a partition has changed. */
    method OneRound(F: Fn, fuel: nat, ghost first: bool) returns (r: Outcome, changed: bool)
      requires F.Valid() && InRound(F, 0, pout, nextValueNumber, first) && SolvedTo(F, Computed(), 0, nextValueNumber, fuel)
      modifies this
      ensures r.EmptyRead? ==> LooksIntoEmpty(F, r.block)
      ensures r.Done? ==> forall c :: !LooksIntoEmpty(F, c)
      ensures r.Stuck? ==> r.block < |F.code| && !Calm(F, r.block)
      ensures !r.Done? ==> forall c: nat :: c < r.block ==> !LooksIntoEmpty(F, c)
      ensures r.Done? ==> InRound(F, |F.code|, pout, nextValueNumber, first)
      ensures r.Done? ==> SolvedTo(F, Computed(), |F.code|, nextValueNumber, fuel)
      ensures r.Done? ==> SameRoots(F, old(Computed()), Computed()) && UnvisitedStay(F, old(pout), pout)
      ensures r.Done? ==> changed == LeadersChanged(old(pout), pout, |F.code|)
    {
      hide LooksIntoEmpty, Calm, InRound, SolvedTo, SameRoots, UnvisitedStay, LeadersMoved, LeadersChanged;
      changed := false;
      SameRootsSelf(F, Computed());
      UnvisitedSelf(F, pout);
      NoneChanged(pout);
      for b := 0 to |F.code|
        invariant InRound(F, b, pout, nextValueNumber, first) && SolvedTo(F, Computed(), b, nextValueNumber, fuel)
        invariant changed == LeadersChanged(old(pout), pout, b) && forall a: nat :: b <= a ==> Part(pout, a) == Part(old(pout), a)
        invariant SameRoots(F, old(Computed()), Computed()) && UnvisitedStay(F, old(pout), pout)
        invariant forall c: nat :: c < b ==> !LooksIntoEmpty(F, c)
      {
        ghost var T := Computed();
        var now;
        r, now := RoundBlock(F, b, fuel, first);
        if !r.Done? {
          return;
        }
        changed := changed || now;
        LeadersChangedStep(old(pout), T.pout, pout, b);
        SameRootsTrans(F, old(Computed()), T, Computed());
        UnvisitedTrans(F, old(pout), T.pout, pout);
      }
      LooksOnlyInside(F);
      r := Done;
    }

    /** The initial partitions and the first round. It reads the first class of an empty partition exactly
        where the paths say so: at the first such join, unless it gets stuck before. What it computes for
        settled blocks is what walks through the function rely on. */
    method FirstRound(F: Fn, fuel: nat) returns (r: Outcome, changed: bool)
      requires F.Valid() && nextValueNumber == 1 && pin == map[] && pout == map[]
      modifies this
      ensures r.EmptyRead? ==> LooksIntoEmpty(F, r.block) && forall c: nat :: c < r.block ==> !LooksIntoEmpty(F, c)
      ensures r.Done? ==> forall c :: !LooksIntoEmpty(F, c)
      ensures r.Stuck? ==> r.block < |F.code| && !Calm(F, r.block)
      ensures r.Stuck? && !F.Root(r.block) ==> forall c: nat :: c < r.block ==> !LooksIntoEmpty(F, c)
      ensures r.Done? ==> SolvedTo(F, Computed(), |F.code|, nextValueNumber, fuel)
      ensures r.Done? ==> FindsAll(F, pout)
    {
      hide LooksIntoEmpty, InRound, Starting, Calm, SolvedTo, RootsSolved, FindsAll;
      changed := true;
      r := Initialize(F, fuel);
      if r.Done? {
        StartingIsRound(F, pout, nextValueNumber);
        RootsAreSolved(F, Computed(), nextValueNumber, fuel, Computed());
        r, changed := OneRound(F, fuel, true);
        if r.Done? { RoundFindsAll(F, Computed(), nextValueNumber, fuel); }
      }
    }

    /** At most so many rounds, until one changes nothing. On a function whose blocks come after their
        predecessors, no round reads an empty partition unless the first one does. */
    method DetectEquivalences(F: Fn, fuel: nat, rounds: nat) returns (r: Outcome)
      requires F.Valid() && nextValueNumber == 1 && pin == map[] && pout == map[] && InListOrder(F)
      modifies this
      ensures r.EmptyRead? ==> LooksIntoEmpty(F, r.block) && forall c: nat :: c < r.block ==> !LooksIntoEmpty(F, c)
      ensures r.Done? && 0 < rounds ==> forall c :: !LooksIntoEmpty(F, c)
      ensures r.Done? && 0 < rounds ==> SolvedTo(F, Computed(), |F.code|, nextValueNumber, fuel) && FindsAll(F, pout)
      ensures r.Stuck? ==> r.block < |F.code| && !Calm(F, r.block)
    {
      hide LooksIntoEmpty, InRound, Starting, Calm, InListOrder, SolvedTo, RootsSolved, SameRoots, UnvisitedStay, FindsAll;
      r := Initialize(F, fuel);
      if !r.Done? {
        return;
      }
      StartingIsRound(F, pout, nextValueNumber);
      var start, changed, k := nextValueNumber, true, 0;
      ghost var initial := Computed();
      SameRootsSelf(F, initial);
      UnvisitedSelf(F, pout);
      while changed && k < rounds
        invariant r.Done? && (0 < k ==> forall c :: !LooksIntoEmpty(F, c)) && k <= rounds && (k == 0 ==> changed)
        invariant 0 < k ==> SolvedTo(F, Computed(), |F.code|, nextValueNumber, fuel)
        invariant UnvisitedStay(F, initial.pout, pout)
        invariant SameRoots(F, initial, Computed()) && (k == 0 ==> Computed() == initial)
      {
        ghost var T := Computed();
        nextValueNumber := start;
        if k > 0 { RestartRound(F, initial.pout, pout, start); }
        RootsAreSolved(F, initial, start, fuel, Computed());
        r, changed := OneRound(F, fuel, k == 0);
        if !r.Done? {
          return;
        }
        SameRootsTrans(F, initial, T, Computed());
        UnvisitedTrans(F, initial.pout, T.pout, pout);
        k := k + 1;
      }
      if 0 < rounds { RoundFindsAll(F, Computed(), nextValueNumber, fuel); }
    }

    /** Redirects the uses in a block, class by class: those of its instructions, and of its terminator. None is left
        of a member whose class redirects it. */
    method ReplaceMembers(P: Partition, phis: set<nat>, block: seq<Inst>, tail: seq<Value>) returns (r: seq<Inst>, t: seq<Value>)
      requires Disjoint(P) && Home(P)
      ensures r == ReplacedBlock(P, phis, block) && t == ReplacedAll(P, phis, tail)
      ensures |r| == |block| && forall k :: 0 <= k < |block| ==> Redirected(P, phis, block[k], r[k])
      ensures AllTakePlace(P, phis, tail, t)
      ensures forall c, v :: c in P && Redirects(c, phis, v) ==> (forall j :: j in r ==> !Uses(j, v)) && v !in t
    {
      hide RewrittenBy, Redirects, Redirected, AllTakePlace, TakesPlace, Home, Disjoint, Uses, Replaced, ReplacedBy, ReplacedBlock;
      r, t := block, tail;
      for k := 0 to |P|
        invariant |r| == |block| && forall j :: 0 <= j < |block| ==> r[j] == RewrittenInTurn(P[..k], phis, block[j])
        invariant |t| == |tail| && forall j :: 0 <= j < |tail| ==> t[j] == ReplacedInTurn(P[..k], phis, tail[j])
      {
        ghost var before, last := r, t;
        for j := 0 to |block|
          invariant |r| == |block|
          invariant forall m :: 0 <= m < |block| ==> r[m] == if m < j then RewrittenBy(P[k], phis, before[m]) else before[m]
        {
          r := r[j := RewrittenBy(P[k], phis, r[j])];
        }
        for j := 0 to |tail|
          invariant |t| == |tail|
          invariant forall m :: 0 <= m < |tail| ==> t[m] == if m < j then ReplacedBy(P[k], phis, last[m]) else last[m]
        {
          t := t[j := ReplacedBy(P[k], phis, t[j])];
        }
        forall j | 0 <= j < |block| ensures r[j] == RewrittenInTurn(P[..k + 1], phis, block[j]) { TurnsSnoc(P, phis, block[j], k); }
        forall j | 0 <= j < |tail| ensures t[j] == ReplacedInTurn(P[..k + 1], phis, tail[j]) { ReplacedSnoc(P, phis, tail[j], k); }
      }
      assert P[..|P|] == P;
      ReplacedBlockAt(P, phis, block);
      forall j | 0 <= j < |block| ensures r[j] == ReplacedBlock(P, phis, block)[j] { InTurnInst(P, phis, block[j]); }
      forall j | 0 <= j < |tail| ensures t[j] == ReplacedAll(P, phis, tail)[j] { InTurnIsAtOnce(P, phis, tail[j]); }
      UsesRedirected(P, phis, block, tail, r, t);
    }
  }
}
