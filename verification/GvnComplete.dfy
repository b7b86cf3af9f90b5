// What the transfer function finds equal: to which class an instruction goes, and that instructions of a
// block that do the same to the same values meet in one class.
module GvnComplete {
  import opened Wrappers
  import IR
  import ArithLaws
  import opened Gvn
  import opened GvnTransfer
  import opened GvnSound
  import opened GvnJoin
  import opened GvnPath
  import opened GvnTidy
  import opened GvnRedirect

  // ----- one instruction -----

  /** The value is known under the name l: the leader of its class, or itself if it is in none. */
  ghost predicate KnownAs(P: Partition, v: Value, l: Value) {
    (exists c :: c in P && v in c.members && c.leader == Some(l)) || (l == v && forall c :: c in P ==> v !in c.members)
  }

  ghost predicate LeafOf(P: Partition, v: Value, e: Expr) {
    e.Leaf? && KnownAs(P, v, e.c)
  }

  ghost predicate LeavesOf(P: Partition, vs: seq<Value>, es: seq<Expr>) {
    |es| == |vs| && forall k :: 0 <= k < |vs| ==> LeafOf(P, vs[k], es[k])
  }

  /** e is the operation of i on what its operands are known as. */
  ghost predicate Expresses(P: Partition, i: Inst, e: Expr) {
    match i
    case Bin(_, op, l, r) => e.Binary? && e.op == op && LeafOf(P, l, e.lhs) && LeafOf(P, r, e.rhs)
    case Zext(_, v) => e.Multi? && e.kind == ZextKind && LeavesOf(P, [v], e.ops)
    case Load(_, addr) => e == Leaf(addr)
    case Gep(_, ops) => e.Multi? && e.kind == GepKind && LeavesOf(P, ops, e.ops)
    case Call(id, f, pure, _, args) =>
      if pure then e.Multi? && e.kind == PureCall && LeavesOf(P, [FuncVar(f)] + args, e.ops)
      else e.Unique? && e.id == id && LeavesOf(P, [FuncVar(f)] + args, e.ops)
    case Alloca(id) => e == Unique([], id)
    case _ => false
  }

  /** The value is the constant n, or in a class led by it. */
  ghost predicate IsConstant(P: Partition, v: Value, n: int) {
    v == IntConst(n) || exists c :: c in P && v in c.members && c.leader == Some(IntConst(n))
  }

  ghost predicate Varies(P: Partition, v: Value) {
    forall n: int :: !IsConstant(P, v, n)
  }

  /** The leader of a new class for i: the constant computed from constant operands, else i itself. */
  ghost predicate Leads(P: Partition, i: Inst, l: Value) {
    match i
    case Bin(id, op, a, b) =>
      && ((Varies(P, a) || Varies(P, b)) ==> l == Instr(id))
      && (forall m: int, n: int {:trigger IsConstant(P, a, m), IsConstant(P, b, n)} :: IsConstant(P, a, m) && IsConstant(P, b, n) ==>
            l.IntConst? && ArithLaws.Results(op, m, n, Some(l.n)))
    case Zext(id, a) =>
      (Varies(P, a) ==> l == Instr(id)) && (forall n: int {:trigger IsConstant(P, a, n)} :: IsConstant(P, a, n) ==> l == IntConst(n))
    case _ => HasValue(i) && l == Instr(i.id)
  }

  /** The class has the expression or the value phi. */
  ghost predicate Fits(c: Class, e: Expr, phi: Option<Expr>) {
    c.expr == Some(e) || (phi != None && c.phi == phi)
  }

  /** Class k is the first that fits. */
  ghost predicate FirstAt(P: Partition, e: Expr, phi: Option<Expr>, k: nat) {
    k < |P| && Fits(P[k], e, phi) && forall j {:trigger P[j]} :: 0 <= j < k ==> !Fits(P[j], e, phi)
  }

  ghost predicate NoneFits(P: Partition, e: Expr, phi: Option<Expr>) {
    forall k {:trigger P[k]} :: 0 <= k < |P| ==> !Fits(P[k], e, phi)
  }

  /** What becomes of a partition that does not know i yet: the first class that fits i takes it in; a load, and
      what fits no class, gets a class of its own, with a new number. */
  ghost predicate Settles(N: Numbering, i: Inst, e: Expr, phi: Option<Expr>, N': Numbering) {
    var P := N.classes;
    && (forall k: nat :: !i.Load? && FirstAt(P, e, phi, k) ==>
          HasValue(i) && N' == Numbering(P[k := P[k].(members := P[k].members + {Instr(i.id)})], N.next))
    && (i.Load? || NoneFits(P, e, phi) ==>
          && HasValue(i) && N'.next == N.next + 1 && |N'.classes| == |P| + 1 && N'.classes[..|P|] == P
          && var c := N'.classes[|P|]; c.leader.Some? && Leads(P, i, c.leader.value) && c == Class(N.next, c.leader, Some(e), None, {Instr(i.id)}))
  }

  lemma KnownAsLeader(P: Partition, v: Value, l: Value)
    requires Disjoint(P) && forall c :: c in P ==> c.leader.Some?
    ensures KnownAs(P, v, l) <==> l == LeaderOf(P, v)
  {
    FindLeaderIn(P, v);
    if exists c :: c in P && v in c.members {
      var c :| c in P && v in c.members;
      var k :| 0 <= k < |P| && P[k] == c;
      FindLeaderAt(P, v, k);
      forall d | d in P && v in d.members ensures d == c {
        var j :| 0 <= j < |P| && P[j] == d;
      }
    }
  }

  lemma {:induction false} FindLeaderAt(P: Partition, v: Value, k: nat)
    requires Disjoint(P) && k < |P| && v in P[k].members
    ensures FindLeader(P, v) == P[k].leader
    decreases |P|
  {
    var n := |P| - 1;
    if k < n {
      assert P[k].members !! P[n].members;
      FindLeaderAt(P[..n], v, k);
    }
  }

  lemma LeafOfIs(P: Partition, v: Value, e: Expr)
    requires Disjoint(P) && forall c :: c in P ==> c.leader.Some?
    ensures LeafOf(P, v, e) <==> e == Leaf(LeaderOf(P, v))
  {
    if e.Leaf? { KnownAsLeader(P, v, e.c); }
  }

  lemma LeavesOfIs(P: Partition, vs: seq<Value>, es: seq<Expr>)
    requires Disjoint(P) && forall c :: c in P ==> c.leader.Some?
    ensures LeavesOf(P, vs, es) <==> es == Leaders(P, vs)
  {
    hide LeafOf, Disjoint;
    if |es| == |vs| {
      forall k | 0 <= k < |vs| ensures LeafOf(P, vs[k], es[k]) <==> es[k] == Leaders(P, vs)[k] { LeafOfIs(P, vs[k], es[k]); }
    }
  }

  /** The value expression is the one that expresses the instruction. */
  lemma ExpressesIs(P: Partition, i: Inst, e: Expr)
    requires Disjoint(P) && (forall c :: c in P ==> c.leader.Some?) && HasValue(i)
    ensures Expresses(P, i, e) <==> e == ValueExpr(P, i)
  {
    hide LeafOf, LeavesOf, Disjoint;
    forall v, x ensures LeafOf(P, v, x) <==> x == Leaf(LeaderOf(P, v)) { LeafOfIs(P, v, x); }
    forall vs, es ensures LeavesOf(P, vs, es) <==> es == Leaders(P, vs) { LeavesOfIs(P, vs, es); }
    if i.Zext? { assert Leaders(P, [i.val]) == [Leaf(LeaderOf(P, i.val))]; }
  }

  lemma {:induction false} FindConstIs(P: Partition, v: Value, n: int)
    requires Disjoint(P)
    ensures (FindConst(P, v) == Some(n)) == (if v.IntConst? then v == IntConst(n) else IsConstant(P, v, n))
  {
    if !v.IntConst? && P != [] {
      var rest := P[1..];
      assert forall k :: 0 <= k < |rest| ==> rest[k] == P[k + 1];
      FindConstIs(rest, v, n);
      if v in P[0].members {
        forall c | c in rest ensures v !in c.members {
          var k :| 0 <= k < |rest| && rest[k] == c;
          assert P[0].members !! P[k + 1].members;
        }
      }
      assert forall c :: c in P <==> c == P[0] || c in rest;
    }
  }

  /** Constants are members of no class, so a value has one constant at most. */
  lemma ConstantIs(P: Partition, v: Value, n: int)
    requires Disjoint(P) && Home(P)
    ensures IsConstant(P, v, n) <==> FindConst(P, v) == Some(n)
  {
    FindConstIs(P, v, n);
    if v.IntConst? {
      forall c | c in P ensures v !in c.members {
        var k :| 0 <= k < |P| && P[k] == c;
        assert IntConst(v.n) !in P[k].members;
      }
    }
  }

  lemma VariesIs(P: Partition, v: Value)
    requires Disjoint(P) && Home(P)
    ensures Varies(P, v) <==> FindConst(P, v) == None
  {
    hide IsConstant, Disjoint, Home;
    forall n: int ensures IsConstant(P, v, n) <==> FindConst(P, v) == Some(n) { ConstantIs(P, v, n); }
    if FindConst(P, v).Some? { assert IsConstant(P, v, FindConst(P, v).value); }
  }

  lemma NewLeads(P: Partition, i: Inst)
    requires Disjoint(P) && Home(P) && HasValue(i) && NewLeader(P, i).Some?
    ensures Leads(P, i, NewLeader(P, i).value)
  {
    hide IsConstant, Varies, Disjoint, Home, IR.Compute, ArithLaws.Results, FindConst;
    forall v, n: int ensures IsConstant(P, v, n) <==> FindConst(P, v) == Some(n) { ConstantIs(P, v, n); }
    forall v ensures Varies(P, v) <==> FindConst(P, v) == None { VariesIs(P, v); }
    if i.Bin? {
      forall m: int, n: int { ArithLaws.ComputeResults(i.op, m, n, IR.Compute(i.op, m, n)); }
    }
  }

  lemma {:induction false} FirstMatchIs(P: Partition, e: Expr, phi: Option<Expr>)
    ensures match FirstMatch(P, e, phi) case None => NoneFits(P, e, phi) case Some(k) => FirstAt(P, e, phi, k)
  {
    if P != [] && !Matches(P[0], e, phi) {
      FirstMatchIs(P[1..], e, phi);
      assert forall k {:trigger P[k]} :: 1 <= k < |P| ==> P[k] == P[1..][k - 1];
    }
  }

  lemma OneFirst(P: Partition, e: Expr, phi: Option<Expr>, k: nat, j: nat)
    requires FirstAt(P, e, phi, k) && FirstAt(P, e, phi, j)
    ensures k == j
  {
    hide Fits;
  }

  lemma FitSettles(N: Numbering, i: Inst, e: Expr, phi: Option<Expr>, k: nat, N': Numbering)
    requires HasValue(i) && !i.Load? && AddedAt(N.classes, N'.classes, k, Instr(i.id)) && N'.next == N.next
    requires FirstAt(N.classes, e, phi, k)
    ensures Settles(N, i, e, phi, N')
  {
    hide Fits, Leads;
    forall j: nat | FirstAt(N.classes, e, phi, j) ensures j == k { OneFirst(N.classes, e, phi, j, k); }
  }

  lemma NewSettles(N: Numbering, i: Inst, e: Expr, phi: Option<Expr>, l: Value)
    requires HasValue(i) && Leads(N.classes, i, l) && (i.Load? || NoneFits(N.classes, e, phi))
    ensures Settles(N, i, e, phi, Numbering(N.classes + [Class(N.next, Some(l), Some(e), None, {Instr(i.id)})], N.next + 1))
  {
    hide Fits, Leads;
  }

  /** Placing an instruction that no class knows settles it. */
  lemma PlaceSettles(N: Numbering, i: Inst, e: Expr, phi: Option<Expr>)
    requires Tidy(N) && HasValue(i) && Place(N, i, e, phi).Some?
    ensures Settles(N, i, e, phi, Place(N, i, e, phi).value)
  {
    hide FirstMatch, Settles, Fits, Leads, NewLeader;
    var P := N.classes;
    AddToMatchIs(P, e, phi, Instr(i.id));
    FirstMatchIs(P, e, phi);
    var k := FirstMatch(P, e, phi);
    if !i.Load? && k.Some? {
      FitSettles(N, i, e, phi, k.value, Place(N, i, e, phi).value);
    } else {
      NewLeads(P, i);
      var l := NewLeader(P, i).value;
      InsertLast(P, Class(N.next, Some(l), Some(e), None, {Instr(i.id)}));
      NewSettles(N, i, e, phi, l);
    }
  }

  /** One step of the transfer function: an instruction that no class knows yet goes to the first class with its operation
      on what its operands are known as, or with its value phi; if there is none, and for a load, to a new class. */
  lemma StepSettles(G: Ends, b: nat, N: Numbering, i: Inst, fuel: nat, e: Expr)
    requires Tidy(N) && HasValue(i) && NewTo(N.classes, i.id) && JoinOne(G, b, N, i, fuel).Some? && Expresses(N.classes, i, e)
    ensures ValuePhi(G, b, e, N.classes, fuel).Answer?
    ensures Settles(N, i, e, ValuePhi(G, b, e, N.classes, fuel).expr, JoinOne(G, b, N, i, fuel).value)
  {
    hide Place, ValueExpr, ValuePhi, Expresses, Settles, ConstantsLead, Home, NewTo;
    NewIsAbsent(N.classes, i.id);
    ExpressesIs(N.classes, i, e);
    match ValuePhi(G, b, e, N.classes, fuel) {
      case TooDeep =>
      case Answer(phi) => PlaceSettles(N, i, e, phi);
    }
  }

  // ----- a block -----

  /** The classes of P stay what they are, in their places, and take in only values of A; classes that come after them
      have no value phi, and only values of A. */
  ghost predicate GrowsBy(P: Partition, Q: Partition, A: set<Value>) {
    && |P| <= |Q|
    && (forall k {:trigger Q[k]} :: 0 <= k < |P| ==>
          Q[k] == P[k].(members := Q[k].members) && P[k].members <= Q[k].members <= P[k].members + A)
    && (forall k {:trigger Q[k]} :: |P| <= k < |Q| ==> Q[k].phi == None && Q[k].members <= A)
  }

  /** The registers the block makes, as values. */
  function MadeIn(block: seq<Inst>): (r: set<Value>)
    ensures forall v :: v in r <==> exists i :: i in block && HasValue(i) && v == Instr(i.id)
  {
    set i | i in block && HasValue(i) :: Instr(i.id)
  }

  lemma GrowsMore(P: Partition, Q: Partition, R: Partition, A: set<Value>, B: set<Value>, C: set<Value>)
    requires GrowsBy(P, Q, A) && GrowsBy(Q, R, B) && A <= C && B <= C
    ensures GrowsBy(P, R, C)
  {
    forall k {:trigger R[k]} | 0 <= k < |Q| ensures R[k] == Q[k].(members := R[k].members) && Q[k].members <= R[k].members <= Q[k].members + B {}
  }

  lemma SettlesGrows(N: Numbering, i: Inst, e: Expr, phi: Option<Expr>, N': Numbering)
    requires Settles(N, i, e, phi, N') && HasValue(i)
    ensures GrowsBy(N.classes, N'.classes, {Instr(i.id)})
  {
    hide FirstAt, NoneFits, Leads;
    var k := FitOrNone(N.classes, e, phi);
    if i.Load? || k.None? {
      assert forall j {:trigger N'.classes[j]} :: 0 <= j < |N.classes| ==> N'.classes[j] == N'.classes[..|N.classes|][j];
    } else {
      FirstIn(N.classes, e, phi, k.value);
    }
  }

  lemma FirstIn(P: Partition, e: Expr, phi: Option<Expr>, k: nat)
    requires FirstAt(P, e, phi, k)
    ensures k < |P|
  {
  }

  lemma FitOrNone(P: Partition, e: Expr, phi: Option<Expr>) returns (k: Option<nat>)
    ensures match k case None => NoneFits(P, e, phi) case Some(j) => FirstAt(P, e, phi, j)
  {
    k := FirstMatch(P, e, phi);
    FirstMatchIs(P, e, phi);
  }

  lemma StepGrows(G: Ends, b: nat, N: Numbering, i: Inst, fuel: nat)
    requires Tidy(N) && (HasValue(i) ==> NewTo(N.classes, i.id)) && JoinOne(G, b, N, i, fuel).Some?
    ensures GrowsBy(N.classes, JoinOne(G, b, N, i, fuel).value.classes, if HasValue(i) then {Instr(i.id)} else {})
  {
    hide ValueExpr, ValuePhi, Place, Settles, ConstantsLead, Home, NewTo, Expresses;
    if HasValue(i) {
      var e := ValueExpr(N.classes, i);
      ExpressesIs(N.classes, i, e);
      StepSettles(G, b, N, i, fuel, e);
      SettlesGrows(N, i, e, ValuePhi(G, b, e, N.classes, fuel).expr, JoinOne(G, b, N, i, fuel).value);
    }
  }

  /** What a block starts from. */
  ghost predicate Begins(N: Numbering, block: seq<Inst>) {
    Tidy(N) && 0 < N.next && AllNew(N.classes, block) && Fresh(block, {}) && AddressesVary(block)
  }

  lemma {:induction false} FreshLess(block: seq<Inst>, made: set<nat>, less: set<nat>)
    requires Fresh(block, made) && less <= made
    ensures Fresh(block, less)
  {
    if block != [] {
      if HasValue(block[0]) { FreshLess(block[1..], made + {block[0].id}, less + {block[0].id}); } else { FreshLess(block[1..], made, less); }
    }
  }

  lemma BeginsNext(G: Ends, b: nat, N: Numbering, block: seq<Inst>, fuel: nat)
    requires Begins(N, block) && block != [] && JoinOne(G, b, N, block[0], fuel).Some?
    ensures Begins(JoinOne(G, b, N, block[0], fuel).value, block[1..])
    ensures HasValue(block[0]) ==> NewTo(N.classes, block[0].id)
  {
    hide Tidy, NewTo, JoinOne;
    var i := block[0];
    assert i in block && forall j :: j in block[1..] ==> j in block;
    JoinOneTidy(G, b, N, i, fuel);
    var made := if HasValue(i) then {i.id} else {};
    assert Fresh(block[1..], made) by { assert {} + made == made; }
    FreshLess(block[1..], made, {});
    FreshLater(block[1..], made);
  }

  lemma {:induction false} BlockGrows(G: Ends, b: nat, N: Numbering, block: seq<Inst>, fuel: nat)
    requires Begins(N, block) && TransferJoin(G, b, N, block, fuel).Some?
    ensures GrowsBy(N.classes, TransferJoin(G, b, N, block, fuel).value.classes, MadeIn(block))
    ensures Tidy(TransferJoin(G, b, N, block, fuel).value)
    decreases block
  {
    hide JoinOne, GrowsBy, Tidy, NewTo;
    if block == [] {
      GrowsNot(N.classes, MadeIn(block));
    } else {
      var i := block[0];
      var N1 := JoinOne(G, b, N, i, fuel).value;
      BeginsNext(G, b, N, block, fuel);
      StepGrows(G, b, N, i, fuel);
      BlockGrows(G, b, N1, block[1..], fuel);
      assert i in block && forall j :: j in block[1..] ==> j in block;
      GrowsMore(N.classes, N1.classes, TransferJoin(G, b, N, block, fuel).value.classes,
                if HasValue(i) then {Instr(i.id)} else {}, MadeIn(block[1..]), MadeIn(block));
    }
  }

  lemma GrowsNot(P: Partition, A: set<Value>)
    ensures GrowsBy(P, P, A)
  {
  }

  // ----- what stays while a partition grows -----

  /** v has a class led by l. */
  ghost predicate LedBy(P: Partition, v: Value, l: Option<Value>) {
    exists k :: 0 <= k < |P| && v in P[k].members && P[k].leader == l
  }

  lemma KnownIs(P: Partition, v: Value, l: Value)
    ensures KnownAs(P, v, l) <==> LedBy(P, v, Some(l)) || (l == v && forall x :: !LedBy(P, v, x))
  {
    forall c | c in P && v in c.members ensures LedBy(P, v, c.leader) {
      var k :| 0 <= k < |P| && P[k] == c;
    }
    forall x | LedBy(P, v, x) ensures exists c :: c in P && v in c.members && c.leader == x {
      var k :| 0 <= k < |P| && v in P[k].members && P[k].leader == x;
      assert P[k] in P;
    }
  }

  lemma LedStays(P: Partition, Q: Partition, A: set<Value>, v: Value, l: Option<Value>)
    requires GrowsBy(P, Q, A) && v !in A
    ensures LedBy(P, v, l) <==> LedBy(Q, v, l)
  {
    assert forall k :: 0 <= k < |P| ==> (v in P[k].members <==> v in Q[k].members) && P[k].leader == Q[k].leader;
  }

  lemma KnownStays(P: Partition, Q: Partition, A: set<Value>, v: Value, l: Value)
    requires GrowsBy(P, Q, A) && v !in A
    ensures KnownAs(P, v, l) <==> KnownAs(Q, v, l)
  {
    hide KnownAs, LedBy, GrowsBy;
    KnownIs(P, v, l);
    KnownIs(Q, v, l);
    forall x ensures LedBy(P, v, x) <==> LedBy(Q, v, x) { LedStays(P, Q, A, v, x); }
  }

  lemma LeavesStay(P: Partition, Q: Partition, A: set<Value>, vs: seq<Value>, es: seq<Expr>)
    requires GrowsBy(P, Q, A) && forall v :: v in vs ==> v !in A
    ensures LeavesOf(P, vs, es) <==> LeavesOf(Q, vs, es)
  {
    hide KnownAs, GrowsBy;
    forall v, l | v in vs ensures KnownAs(P, v, l) <==> KnownAs(Q, v, l) { KnownStays(P, Q, A, v, l); }
  }

  lemma ExpressesStays(P: Partition, Q: Partition, A: set<Value>, i: Inst, e: Expr)
    requires GrowsBy(P, Q, A) && (forall v :: Uses(i, v) ==> v !in A) && (forall f :: FuncVar(f) !in A)
    ensures Expresses(P, i, e) <==> Expresses(Q, i, e)
  {
    hide KnownAs, GrowsBy, LeavesOf;
    match i
    case Bin(_, _, a, b) =>
      if e.Binary? && e.lhs.Leaf? { KnownStays(P, Q, A, a, e.lhs.c); }
      if e.Binary? && e.rhs.Leaf? { KnownStays(P, Q, A, b, e.rhs.c); }
    case Zext(_, a) => if e.Multi? { LeavesStay(P, Q, A, [a], e.ops); }
    case Gep(_, ops) => if e.Multi? { LeavesStay(P, Q, A, ops, e.ops); }
    case Call(_, f, _, _, args) => if e.Multi? || e.Unique? { LeavesStay(P, Q, A, [FuncVar(f)] + args, e.ops); }
    case _ =>
  }

  lemma {:induction false} PhiClassStays(P: Partition, Q: Partition, A: set<Value>, l: Value)
    requires GrowsBy(P, Q, A)
    ensures PhiClass(P, l).Some? == PhiClass(Q, l).Some?
    ensures PhiClass(P, l).Some? ==> PhiClass(P, l).value.phi == PhiClass(Q, l).value.phi
    decreases |Q|
  {
    if Q != [] {
      var n := |Q| - 1;
      if |P| == |Q| {
        PhiClassStays(P[..n], Q[..n], A, l);
      } else {
        PhiClassStays(P, Q[..n], A, l);
      }
    }
  }

  /** The search for a value phi looks only at leaders and value phis. */
  lemma ValuePhiStays(G: Ends, b: nat, e: Expr, P: Partition, Q: Partition, A: set<Value>, fuel: nat)
    requires GrowsBy(P, Q, A)
    ensures ValuePhi(G, b, e, P, fuel) == ValuePhi(G, b, e, Q, fuel)
  {
    hide GrowsBy, Number, PhiClass;
    forall l ensures PhiClass(P, l).Some? == PhiClass(Q, l).Some? && (PhiClass(P, l).Some? ==> PhiClass(P, l).value.phi == PhiClass(Q, l).value.phi) {
      PhiClassStays(P, Q, A, l);
    }
  }

  // ----- equal instructions -----

  /** One value, or two of one class, or two that are the same constant. */
  ghost predicate Equal(P: Partition, v: Value, w: Value) {
    v == w || InOne(P, v, w) || exists n: int :: IsConstant(P, v, n) && IsConstant(P, w, n)
  }

  ghost predicate AllEqual(P: Partition, vs: seq<Value>, ws: seq<Value>) {
    |vs| == |ws| && forall k :: 0 <= k < |vs| ==> Equal(P, vs[k], ws[k])
  }

  /** The instructions do the same to equal operands, and what they yield depends on nothing else. */
  ghost predicate DoTheSame(P: Partition, i: Inst, j: Inst) {
    match i
    case Bin(_, op, a, b) => j.Bin? && j.op == op && Equal(P, a, j.lhs) && Equal(P, b, j.rhs)
    case Zext(_, a) => j.Zext? && Equal(P, a, j.val)
    case Gep(_, ops) => j.Gep? && AllEqual(P, ops, j.ops)
    case Call(_, f, pure, void, args) => j.Call? && pure && !void && j.pure && !j.void && j.callee == f && AllEqual(P, args, j.args)
    case _ => false
  }

  lemma EqualKnown(P: Partition, v: Value, w: Value, l: Value)
    requires Disjoint(P) && Home(P) && (forall c :: c in P ==> c.leader.Some?) && Equal(P, v, w) && KnownAs(P, v, l)
    ensures KnownAs(P, w, l)
  {
    forall x, y ensures KnownAs(P, x, y) <==> y == LeaderOf(P, x) { KnownAsLeader(P, x, y); }
    if InOne(P, v, w) {
      var c :| c in P && v in c.members && w in c.members;
      assert KnownAs(P, v, c.leader.value) && KnownAs(P, w, c.leader.value);
    } else if v != w {
      var n: int :| IsConstant(P, v, n) && IsConstant(P, w, n);
      ConstantKnown(P, v, n);
      ConstantKnown(P, w, n);
    }
  }

  lemma ConstantKnown(P: Partition, v: Value, n: int)
    requires Home(P) && IsConstant(P, v, n)
    ensures KnownAs(P, v, IntConst(n))
  {
    if v == IntConst(n) {
      forall c | c in P ensures v !in c.members {
        var k :| 0 <= k < |P| && P[k] == c;
        assert IntConst(n) !in P[k].members;
      }
    }
  }

  lemma SameExpresses(P: Partition, i: Inst, j: Inst, e: Expr)
    requires Disjoint(P) && Home(P) && (forall c :: c in P ==> c.leader.Some?) && DoTheSame(P, i, j) && Expresses(P, i, e)
    ensures Expresses(P, j, e)
  {
    hide KnownAs, Equal, Disjoint, Home;
    forall v, w, l | Equal(P, v, w) && KnownAs(P, v, l) ensures KnownAs(P, w, l) { EqualKnown(P, v, w, l); }
    match i
    case Call(_, f, _, _, args) =>
      forall k | 0 <= k < |e.ops| ensures LeafOf(P, ([FuncVar(f)] + j.args)[k], e.ops[k]) {
        assert LeafOf(P, ([FuncVar(f)] + args)[k], e.ops[k]);
        if k > 0 { assert Equal(P, args[k - 1], j.args[k - 1]); }
      }
    case _ =>
  }

  /** No instruction has an operand that the block makes later, or that is of A. */
  ghost predicate MadeBefore(block: seq<Inst>, A: set<Value>) {
    && (forall x, y :: 0 <= x <= y < |block| && HasValue(block[y]) ==> !Uses(block[x], Instr(block[y].id)))
    && (forall x, v :: 0 <= x < |block| && v in A ==> !Uses(block[x], v))
  }

  /** The visit of a block up to instruction x, its step, and the rest. */
  lemma {:induction false} StateAt(G: Ends, b: nat, N: Numbering, block: seq<Inst>, fuel: nat, x: nat) returns (N1: Numbering, N2: Numbering)
    requires Begins(N, block) && TransferJoin(G, b, N, block, fuel).Some? && x < |block|
    ensures Begins(N1, block[x..]) && GrowsBy(N.classes, N1.classes, MadeIn(block[..x]))
    ensures JoinOne(G, b, N1, block[x], fuel) == Some(N2) && TransferJoin(G, b, N2, block[x + 1..], fuel) == TransferJoin(G, b, N, block, fuel)
    decreases x
  {
    hide JoinOne, Begins, GrowsBy;
    if x == 0 {
      N1, N2 := N, JoinOne(G, b, N, block[0], fuel).value;
      GrowsNot(N.classes, MadeIn(block[..0]));
      assert block[0..] == block;
    } else {
      var i := block[0];
      var M := JoinOne(G, b, N, i, fuel).value;
      BeginsNext(G, b, N, block, fuel);
      StepGrowsAt(G, b, N, block, fuel);
      N1, N2 := StateAt(G, b, M, block[1..], fuel, x - 1);
      assert block[1..][x - 1..] == block[x..] && block[1..][x..] == block[x + 1..];
      assert block[..x] == [i] + block[1..][..x - 1];
      GrowsMore(N.classes, M.classes, N1.classes, if HasValue(i) then {Instr(i.id)} else {}, MadeIn(block[1..][..x - 1]), MadeIn(block[..x]));
    }
  }

  lemma StepGrowsAt(G: Ends, b: nat, N: Numbering, block: seq<Inst>, fuel: nat)
    requires Begins(N, block) && block != [] && JoinOne(G, b, N, block[0], fuel).Some?
    ensures GrowsBy(N.classes, JoinOne(G, b, N, block[0], fuel).value.classes, if HasValue(block[0]) then {Instr(block[0].id)} else {})
  {
    hide Tidy, NewTo, JoinOne;
    assert block[0] in block;
    StepGrows(G, b, N, block[0], fuel);
  }

  /** v is in the first class that has the expression or the value phi. */
  ghost predicate InFirst(P: Partition, v: Value, e: Expr, phi: Option<Expr>) {
    exists k: nat :: FirstAt(P, e, phi, k) && v in P[k].members
  }

  lemma SettledFirst(N: Numbering, i: Inst, e: Expr, phi: Option<Expr>, N': Numbering)
    requires Settles(N, i, e, phi, N') && HasValue(i) && !i.Load?
    ensures InFirst(N'.classes, Instr(i.id), e, phi)
  {
    hide Leads;
    var P, Q := N.classes, N'.classes;
    var k := FitOrNone(P, e, phi);
    if k.Some? {
      assert FirstAt(Q, e, phi, k.value);
    } else {
      assert forall j {:trigger Q[j]} :: 0 <= j < |P| ==> Q[j] == Q[..|P|][j];
      assert FirstAt(Q, e, phi, |P|);
    }
  }

  lemma FirstStays(P: Partition, Q: Partition, A: set<Value>, v: Value, e: Expr, phi: Option<Expr>)
    requires GrowsBy(P, Q, A) && InFirst(P, v, e, phi)
    ensures InFirst(Q, v, e, phi)
  {
    var k: nat :| FirstAt(P, e, phi, k) && v in P[k].members;
    assert Q[k] == P[k].(members := Q[k].members);
    forall j {:trigger Q[j]} | 0 <= j < k ensures !Fits(Q[j], e, phi) { assert !Fits(P[j], e, phi); }
    assert FirstAt(Q, e, phi, k);
  }

  /** At the end of a block, an instruction is in the first class that has its operation on what its operands are known as
      there, or its value phi. */
  lemma BlockPlaces(G: Ends, b: nat, N: Numbering, block: seq<Inst>, fuel: nat, x: nat, e: Expr)
    requires Begins(N, block) && TransferJoin(G, b, N, block, fuel).Some? && MadeBefore(block, {})
    requires x < |block| && HasValue(block[x]) && !block[x].Load? && Expresses(TransferJoin(G, b, N, block, fuel).value.classes, block[x], e)
    ensures var Q := TransferJoin(G, b, N, block, fuel).value.classes; var phi := ValuePhi(G, b, e, Q, fuel);
            phi.Answer? && InFirst(Q, Instr(block[x].id), e, phi.expr)
  {
    hide JoinOne, ValuePhi, GrowsBy, Expresses, Settles, InFirst, Tidy, NewTo;
    var Q, i := TransferJoin(G, b, N, block, fuel).value.classes, block[x];
    var N1, N2 := StateAt(G, b, N, block, fuel, x);
    assert block[x..][0] == i && block[x..][1..] == block[x + 1..];
    BlockGrows(G, b, N1, block[x..], fuel);
    assert TransferJoin(G, b, N1, block[x..], fuel).value.classes == Q;
    OperandsBefore(block, x);
    ExpressesStays(N1.classes, Q, MadeIn(block[x..]), i, e);
    ValuePhiStays(G, b, e, N1.classes, Q, MadeIn(block[x..]), fuel);
    BeginsNext(G, b, N1, block[x..], fuel);
    StepSettles(G, b, N1, i, fuel, e);
    var phi := ValuePhi(G, b, e, N1.classes, fuel).expr;
    SettledFirst(N1, i, e, phi, N2);
    BlockGrows(G, b, N2, block[x + 1..], fuel);
    FirstStays(N2.classes, Q, MadeIn(block[x + 1..]), Instr(i.id), e, phi);
  }

  lemma OperandsBefore(block: seq<Inst>, x: nat)
    requires MadeBefore(block, {}) && x < |block|
    ensures forall v :: Uses(block[x], v) ==> v !in MadeIn(block[x..])
    ensures forall f :: FuncVar(f) !in MadeIn(block[x..])
  {
    hide Uses;
    forall v | v in MadeIn(block[x..]) ensures !Uses(block[x], v) {
      var i :| i in block[x..] && HasValue(i) && v == Instr(i.id);
      var y :| 0 <= y < |block[x..]| && block[x..][y] == i;
      assert block[x + y] == i;
    }
  }

  lemma SameFirst(P: Partition, v: Value, w: Value, e: Expr, phi: Option<Expr>)
    requires InFirst(P, v, e, phi) && InFirst(P, w, e, phi)
    ensures InOne(P, v, w)
  {
    var k: nat :| FirstAt(P, e, phi, k) && v in P[k].members;
    var j: nat :| FirstAt(P, e, phi, j) && w in P[j].members;
    OneFirst(P, e, phi, k, j);
    assert P[k] in P;
  }

  /** Instructions of a block that do the same to equal operands are in one class at its end. */
  lemma BlockCongruent(G: Ends, b: nat, N: Numbering, block: seq<Inst>, fuel: nat, x: nat, y: nat)
    requires Begins(N, block) && TransferJoin(G, b, N, block, fuel).Some? && MadeBefore(block, {}) && x < |block| && y < |block|
    requires DoTheSame(TransferJoin(G, b, N, block, fuel).value.classes, block[x], block[y])
    ensures InOne(TransferJoin(G, b, N, block, fuel).value.classes, Instr(block[x].id), Instr(block[y].id))
  {
    hide JoinOne, ValuePhi, Expresses, InFirst, NewTo, Equal, ConstantsLead, Home, MadeBefore;
    var Q, i := TransferJoin(G, b, N, block, fuel).value.classes, block[x];
    BlockGrows(G, b, N, block, fuel);
    var e := ValueExpr(Q, i);
    ExpressesIs(Q, i, e);
    SameExpresses(Q, i, block[y], e);
    BlockPlaces(G, b, N, block, fuel, x, e);
    BlockPlaces(G, b, N, block, fuel, y, e);
    SameFirst(Q, Instr(i.id), Instr(block[y].id), e, ValuePhi(G, b, e, Q, fuel).expr);
  }

  /** Instructions that make a value and are no phi. */
  predicate MakesValue(i: Inst) {
    i.Bin? || i.Zext? || i.Load? || i.Gep? || i.Alloca? || (i.Call? && !i.void)
  }

  lemma SettlesKnown(N: Numbering, i: Inst, e: Expr, phi: Option<Expr>, N': Numbering)
    requires Settles(N, i, e, phi, N') && HasValue(i)
    ensures InOne(N'.classes, Instr(i.id), Instr(i.id))
  {
    hide Leads, FirstAt, NoneFits;
    var k := FitOrNone(N.classes, e, phi);
    if i.Load? || k.None? {
      assert N'.classes[|N.classes|] in N'.classes;
    } else {
      FirstIn(N.classes, e, phi, k.value);
      assert N'.classes[k.value] in N'.classes;
    }
  }

  lemma TogetherStay(P: Partition, Q: Partition, A: set<Value>, v: Value, w: Value)
    requires GrowsBy(P, Q, A) && InOne(P, v, w)
    ensures InOne(Q, v, w)
  {
    var k := ClassesOf(P, v, w);
    assert Q[k] == P[k].(members := Q[k].members) && Q[k] in Q;
  }

  /** Every instruction that makes a value is in a class at the end of its block. */
  lemma BlockKnows(G: Ends, b: nat, N: Numbering, block: seq<Inst>, fuel: nat, x: nat)
    requires Begins(N, block) && TransferJoin(G, b, N, block, fuel).Some? && x < |block| && MakesValue(block[x])
    ensures InOne(TransferJoin(G, b, N, block, fuel).value.classes, Instr(block[x].id), Instr(block[x].id))
  {
    hide JoinOne, ValuePhi, GrowsBy, Expresses, Settles, NewTo, ConstantsLead, Home;
    var Q, i := TransferJoin(G, b, N, block, fuel).value.classes, block[x];
    var N1, N2 := StateAt(G, b, N, block, fuel, x);
    assert block[x..][0] == i && block[x..][1..] == block[x + 1..];
    var e := ValueExpr(N1.classes, i);
    ExpressesIs(N1.classes, i, e);
    BeginsNext(G, b, N1, block[x..], fuel);
    StepSettles(G, b, N1, i, fuel, e);
    SettlesKnown(N1, i, e, ValuePhi(G, b, e, N1.classes, fuel).expr, N2);
    BlockGrows(G, b, N2, block[x + 1..], fuel);
    TogetherStay(N2.classes, Q, MadeIn(block[x + 1..]), Instr(i.id), Instr(i.id));
  }

  /** An instruction whose operation a class has from before the block joins it, unless a class with a smaller number has
      its operation or its value phi. */
  lemma BlockFinds(G: Ends, b: nat, N: Numbering, block: seq<Inst>, fuel: nat, x: nat, e: Expr, k: nat)
    requires Begins(N, block) && TransferJoin(G, b, N, block, fuel).Some? && MadeBefore(block, {})
    requires x < |block| && HasValue(block[x]) && !block[x].Load? && Expresses(TransferJoin(G, b, N, block, fuel).value.classes, block[x], e)
    requires k < |N.classes| && N.classes[k].expr == Some(e)
    requires forall j :: 0 <= j < k ==>
               N.classes[j].expr != Some(e) && (N.classes[j].phi == None || Answer(N.classes[j].phi) != ValuePhi(G, b, e, N.classes, fuel))
    ensures var Q := TransferJoin(G, b, N, block, fuel).value.classes;
            |N.classes| <= |Q| && Instr(block[x].id) in Q[k].members && N.classes[k].members <= Q[k].members
  {
    hide JoinOne, ValuePhi, Expresses, Begins, MadeBefore;
    var Q := TransferJoin(G, b, N, block, fuel).value.classes;
    BlockPlaces(G, b, N, block, fuel, x, e);
    BlockGrows(G, b, N, block, fuel);
    ValuePhiStays(G, b, e, N.classes, Q, MadeIn(block), fuel);
    var phi := ValuePhi(G, b, e, Q, fuel).expr;
    forall j {:trigger Q[j]} | 0 <= j < k ensures !Fits(Q[j], e, phi) { assert Q[j] == N.classes[j].(members := Q[j].members); }
    assert Q[k] == N.classes[k].(members := Q[k].members);
    var m: nat :| FirstAt(Q, e, phi, m) && Instr(block[x].id) in Q[m].members;
    OneFirst(Q, e, phi, k, m);
  }

  // ----- value phis -----

  /** Classes led by l have the value phi, if they have one, and one of them has it. */
  ghost predicate PhiOfLeader(P: Partition, l: Value, phi: Expr) {
    && (exists c :: c in P && c.leader == Some(l) && c.phi == Some(phi))
    && (forall c :: c in P && c.leader == Some(l) && c.phi != None ==> c.phi == Some(phi))
  }

  /** The first class with the expression is led by l. */
  ghost predicate NamedFirst(P: Partition, e: Expr, l: Value) {
    exists k {:trigger P[k]} :: 0 <= k < |P| && P[k].expr == Some(e) && P[k].leader == Some(l)
                && forall j {:trigger P[j]} :: 0 <= j < k ==> P[j].expr != Some(e)
  }

  lemma {:induction false} PhiClassHas(P: Partition, l: Value, phi: Expr)
    requires PhiOfLeader(P, l, phi)
    ensures PhiClass(P, l).Some? && PhiClass(P, l).value.phi == Some(phi)
    decreases |P|
  {
    var n := |P| - 1;
    assert P[n] in P && forall c :: c in P <==> c == P[n] || c in P[..n];
    if P[n].leader != Some(l) || P[n].phi == None { PhiClassHas(P[..n], l, phi); }
  }

  lemma {:induction false} GetVNFirst(P: Partition, e: Expr, l: Value)
    requires NamedFirst(P, e, l)
    ensures GetVN(P, e) == Some(Leaf(l))
  {
    if P[0].expr != Some(e) {
      var rest := P[1..];
      assert forall k {:trigger P[k]} :: 0 < k < |P| ==> P[k] == rest[k - 1];
      var k {:trigger P[k]} :| 0 <= k < |P| && P[k].expr == Some(e) && P[k].leader == Some(l)
                               && forall j {:trigger P[j]} :: 0 <= j < k ==> P[j].expr != Some(e);
      assert rest[k - 1].expr == Some(e);
      assert forall j {:trigger rest[j]} :: 0 <= j < k - 1 ==> rest[j] == P[j + 1];
      GetVNFirst(rest, e, l);
    }
  }

  /** The first class with the value phi is led by l. */
  ghost predicate PhiNamedFirst(P: Partition, phi: Expr, l: Value) {
    exists k {:trigger P[k]} :: 0 <= k < |P| && P[k].phi == Some(phi) && P[k].leader == Some(l)
                && forall j {:trigger P[j]} :: 0 <= j < k ==> P[j].phi != Some(phi)
  }

  /** What names e at the end of block p: the leader of the first class with that expression; if there is no such class,
      that of the first with its value phi; and if there is none either, the value phi itself. */
  ghost predicate Names(G: Ends, p: nat, e: Expr, fuel: nat, x: Expr) {
    var P := G.Out(p);
    || (x.Leaf? && NamedFirst(P, e, x.c))
    || (0 < fuel && (forall c :: c in P ==> c.expr != Some(e))
        && var r := ValuePhi(G, p, e, P, fuel - 1);
           r.Answer? && r.expr.Some?
           && if forall c :: c in P ==> c.phi != r.expr then x == r.expr.value else x.Leaf? && PhiNamedFirst(P, r.expr.value, x.c))
  }

  lemma {:induction false} GetVNNone(P: Partition, e: Expr)
    requires forall c :: c in P ==> c.expr != Some(e)
    ensures GetVN(P, e) == None
  {
    if P != [] {
      assert P[0] in P && forall c :: c in P[1..] ==> c in P;
      GetVNNone(P[1..], e);
    }
  }

  lemma {:induction false} ClassWithPhiFirst(P: Partition, phi: Expr, l: Value)
    requires PhiNamedFirst(P, phi, l)
    ensures ClassWithPhi(P, phi).Some? && ClassWithPhi(P, phi).value.leader == Some(l)
  {
    if P[0].phi != Some(phi) {
      var rest := P[1..];
      assert forall k {:trigger P[k]} :: 0 < k < |P| ==> P[k] == rest[k - 1];
      var k {:trigger P[k]} :| 0 <= k < |P| && P[k].phi == Some(phi) && P[k].leader == Some(l)
                               && forall j {:trigger P[j]} :: 0 <= j < k ==> P[j].phi != Some(phi);
      assert rest[k - 1].phi == Some(phi);
      assert forall j {:trigger rest[j]} :: 0 <= j < k - 1 ==> rest[j] == P[j + 1];
      ClassWithPhiFirst(rest, phi, l);
    }
  }

  lemma NamesNumber(G: Ends, p: nat, e: Expr, fuel: nat, x: Expr)
    requires Names(G, p, e, fuel, x)
    ensures Number(G, p, e, fuel) == Answer(Some(x))
  {
    hide NamedFirst, PhiNamedFirst, ValuePhi;
    var P := G.Out(p);
    if x.Leaf? && NamedFirst(P, e, x.c) {
      GetVNFirst(P, e, x.c);
    } else {
      GetVNNone(P, e);
      var phi := ValuePhi(G, p, e, P, fuel - 1).expr.value;
      if forall c :: c in P ==> c.phi != Some(phi) {
        ClassWithPhiIs(P, phi);
      } else {
        ClassWithPhiFirst(P, phi, x.c);
      }
    }
  }

  /** At a join: if both operands have value phis, and the operation on the sides that come from either predecessor has a
      name at its end, then its value phi is made of these names. */
  lemma ValuePhiAtJoin(G: Ends, b: nat, P: Partition, op: IR.BinOp, l: Value, r: Value, x: (Expr, Expr), y: (Expr, Expr),
                       v: Expr, w: Expr, fuel: nat)
    requires |G.Preds(b)| == 2 && !op.Cmp? && !l.IntConst? && !r.IntConst?
    requires PhiOfLeader(P, l, PhiOf(x.0, x.1)) && PhiOfLeader(P, r, PhiOf(y.0, y.1))
    requires Names(G, G.Preds(b)[0], Binary(op, x.0, y.0), fuel, v) && Names(G, G.Preds(b)[1], Binary(op, x.1, y.1), fuel, w)
    ensures ValuePhi(G, b, Binary(op, Leaf(l), Leaf(r)), P, fuel) == Answer(Some(PhiOf(v, w)))
  {
    hide PhiOfLeader, Names;
    PhiClassHas(P, l, PhiOf(x.0, x.1));
    PhiClassHas(P, r, PhiOf(y.0, y.1));
    NamesNumber(G, G.Preds(b)[0], Binary(op, x.0, y.0), fuel, v);
    NamesNumber(G, G.Preds(b)[1], Binary(op, x.1, y.1), fuel, w);
  }

  /** And the first class with that value phi gets the instruction, unless one before it has its operation. */
  lemma JoinsByPhi(G: Ends, b: nat, N: Numbering, i: Inst, fuel: nat, l: Value, r: Value, x: (Expr, Expr), y: (Expr, Expr),
                   v: Expr, w: Expr, g: nat)
    requires Tidy(N) && i.Bin? && NewTo(N.classes, i.id) && JoinOne(G, b, N, i, fuel).Some?
    requires KnownAs(N.classes, i.lhs, l) && KnownAs(N.classes, i.rhs, r)
    requires |G.Preds(b)| == 2 && !i.op.Cmp? && !l.IntConst? && !r.IntConst?
    requires PhiOfLeader(N.classes, l, PhiOf(x.0, x.1)) && PhiOfLeader(N.classes, r, PhiOf(y.0, y.1))
    requires Names(G, G.Preds(b)[0], Binary(i.op, x.0, y.0), fuel, v) && Names(G, G.Preds(b)[1], Binary(i.op, x.1, y.1), fuel, w)
    requires g < |N.classes| && N.classes[g].phi == Some(PhiOf(v, w))
    requires forall j {:trigger N.classes[j]} :: 0 <= j < g ==>
               N.classes[j].phi != Some(PhiOf(v, w)) && N.classes[j].expr != Some(Binary(i.op, Leaf(l), Leaf(r)))
    ensures var c := N.classes[g];
            JoinOne(G, b, N, i, fuel) == Some(Numbering(N.classes[g := c.(members := c.members + {Instr(i.id)})], N.next))
  {
    hide PhiOfLeader, Names, KnownAs, JoinOne, ValuePhi, Tidy, NewTo, Leads;
    ValuePhiAtJoin(G, b, N.classes, i.op, l, r, x, y, v, w, fuel);
    var e := Binary(i.op, Leaf(l), Leaf(r));
    StepSettles(G, b, N, i, fuel, e);
    assert FirstAt(N.classes, e, Some(PhiOf(v, w)), g);
  }

  // ----- copies -----

  /** v is known by the name that w has in Q. */
  ghost predicate NamedAs(P: Partition, v: Value, Q: Partition, w: Value) {
    exists l :: KnownAs(P, v, l) && KnownAs(Q, w, l)
  }

  /** A phi is known, at the end of the block, as the value it takes from there. */
  lemma CopyIsKnown(N: Numbering, phi: nat, v: Value)
    requires Tidy(N) && NewTo(N.classes, phi) && v != Instr(phi)
    ensures GrowsBy(N.classes, Copy(N, phi, v).classes, {Instr(phi)})
    ensures NamedAs(N.classes, v, Copy(N, phi, v).classes, Instr(phi))
  {
    hide Takes, ConstantsLead, NewTo, Home, GrowsBy, NamedAs;
    var P := N.classes;
    NewIsAbsent(P, phi);
    if Taken(P, v) {
      var k: nat :| k < |P| && Takes(P[k], v);
      AddCopyIs(P, v, phi, k);
      assert P[k] in P;
      TakerKnows(P, P[k], v);
      AddedKnown(P, AddCopy(P, v, phi), k, v, Instr(phi));
    } else {
      var c := Class(N.next, Some(v), Some(Leaf(v)), None, {Instr(phi)});
      InsertLast(P, c);
      NotMember(P, v);
      SnocKnown(P, c, v, Instr(phi));
    }
  }

  lemma AddedKnown(P: Partition, Q: Partition, k: nat, v: Value, w: Value)
    requires AddedAt(P, Q, k, w) && P[k].leader.Some? && KnownAs(P, v, P[k].leader.value)
    ensures GrowsBy(P, Q, {w}) && NamedAs(P, v, Q, w)
  {
    assert Q[k] in Q && w in Q[k].members && Q[k].leader == P[k].leader;
    assert KnownAs(Q, w, P[k].leader.value);
  }

  lemma SnocKnown(P: Partition, c: Class, v: Value, w: Value)
    requires c.leader == Some(v) && c.phi == None && c.members == {w} && forall j :: 0 <= j < |P| ==> v !in P[j].members
    ensures GrowsBy(P, P + [c], {w}) && NamedAs(P, v, P + [c], w)
  {
    assert c in P + [c];
    assert KnownAs(P, v, v) && KnownAs(P + [c], w, v);
  }

  lemma TakerKnows(P: Partition, c: Class, v: Value)
    requires ConstantsLead(P) && Home(P) && c in P && c.leader.Some? && Takes(c, v)
    ensures KnownAs(P, v, c.leader.value)
  {
    if v !in c.members { ConstantKnown(P, v, v.n); }
  }

  /** The registers of the phis, as values. */
  function PhisOf(succ: seq<Inst>): (r: set<Value>)
    ensures forall v :: v in r <==> exists i :: i in succ && i.Phi? && v == Instr(i.id)
  {
    set i | i in succ && i.Phi? :: Instr(i.id)
  }

  lemma NamedLater(P: Partition, v: Value, Q: Partition, w: Value, R: Partition, A: set<Value>)
    requires NamedAs(P, v, Q, w) && GrowsBy(Q, R, A) && w !in A
    ensures NamedAs(P, v, R, w)
  {
    hide GrowsBy, KnownAs;
    var l :| KnownAs(P, v, l) && KnownAs(Q, w, l);
    KnownStays(Q, R, A, w, l);
  }

  lemma NamedEarlier(P: Partition, v: Value, Q: Partition, w: Value, R: Partition, A: set<Value>)
    requires NamedAs(Q, v, R, w) && GrowsBy(P, Q, A) && v !in A
    ensures NamedAs(P, v, R, w)
  {
    hide GrowsBy, KnownAs;
    var l :| KnownAs(Q, v, l) && KnownAs(R, w, l);
    KnownStays(P, Q, A, v, l);
  }

  /** The phis of succ are known in R as what they take from block b has been known in P. */
  ghost predicate TakenFrom(P: Partition, succ: seq<Inst>, b: nat, R: Partition) {
    forall i :: i in succ && i.Phi? ==>
      (i.from1 == b ==> NamedAs(P, i.val1, R, Instr(i.id))) && (i.from2 == b ==> NamedAs(P, i.val2, R, Instr(i.id)))
  }

  lemma CopyThen(P: Partition, Q: Partition, R: Partition, succ: seq<Inst>, b: nat, v: Value)
    requires succ != [] && succ[0].Phi? && PhisApart(P, succ)
    requires (succ[0].from1 == b && v == succ[0].val1) || (succ[0].from1 != b && succ[0].from2 == b && v == succ[0].val2)
    requires GrowsBy(P, Q, {Instr(succ[0].id)}) && NamedAs(P, v, Q, Instr(succ[0].id))
    requires GrowsBy(Q, R, PhisOf(succ[1..])) && TakenFrom(Q, succ[1..], b, R)
    ensures GrowsBy(P, R, PhisOf(succ)) && TakenFrom(P, succ, b, R)
  {
    hide GrowsBy, NamedAs, NewTo;
    var i, rest := succ[0], succ[1..];
    assert i in succ && forall k :: 0 <= k < |rest| ==> rest[k] == succ[k + 1] && rest[k] in succ;
    assert Instr(i.id) !in PhisOf(rest);
    GrowsMore(P, Q, R, {Instr(i.id)}, PhisOf(rest), PhisOf(succ));
    NamedLater(P, v, Q, Instr(i.id), R, PhisOf(rest));
    forall j | j in succ && j.Phi?
      ensures (j.from1 == b ==> NamedAs(P, j.val1, R, Instr(j.id))) && (j.from2 == b ==> NamedAs(P, j.val2, R, Instr(j.id)))
    {
      if j in rest {
        if j.from1 == b { NamedEarlier(P, j.val1, Q, Instr(j.id), R, {Instr(i.id)}); }
        if j.from2 == b { NamedEarlier(P, j.val2, Q, Instr(j.id), R, {Instr(i.id)}); }
      } else {
        assert j == i && i.from1 != i.from2;
      }
    }
  }

  lemma ApartNext(N: Numbering, succ: seq<Inst>, v: Value)
    requires Tidy(N) && 0 < N.next && PhisApart(N.classes, succ) && succ != [] && succ[0].Phi? && (v == succ[0].val1 || v == succ[0].val2)
    ensures var N1 := Copy(N, succ[0].id, v); Tidy(N1) && 0 < N1.next && PhisApart(N1.classes, succ[1..])
    ensures NewTo(N.classes, succ[0].id) && v != Instr(succ[0].id)
  {
    hide Tidy, NewTo, Copy;
    assert succ[0] in succ && forall k :: 0 <= k < |succ[1..]| ==> succ[1..][k] == succ[k + 1] && succ[1..][k] in succ;
    CopyTidy(N, succ[0].id, v);
  }

  /** The copies at the end of block b, when the phis are apart: each phi is known as what it takes from b. */
  lemma {:induction false} CopiesAreKnown(N: Numbering, succ: seq<Inst>, b: nat)
    requires Tidy(N) && 0 < N.next && PhisApart(N.classes, succ)
    ensures GrowsBy(N.classes, Copies(N, succ, b).classes, PhisOf(succ))
    ensures TakenFrom(N.classes, succ, b, Copies(N, succ, b).classes)
    ensures Tidy(Copies(N, succ, b))
    decreases succ
  {
    hide Tidy, NewTo, Copy, GrowsBy, NamedAs;
    if succ == [] {
      GrowsNot(N.classes, PhisOf(succ));
    } else {
      var i := succ[0];
      assert i in succ && forall k :: 0 <= k < |succ[1..]| ==> succ[1..][k] == succ[k + 1] && succ[1..][k] in succ;
      if i.Phi? && (i.from1 == b || i.from2 == b) {
        assert i.from1 != i.from2;
        var v := if i.from1 == b then i.val1 else i.val2;
        ApartNext(N, succ, v);
        CopyIsKnown(N, i.id, v);
        CopiesAreKnown(Copy(N, i.id, v), succ[1..], b);
        CopyThen(N.classes, Copy(N, i.id, v).classes, Copies(N, succ, b).classes, succ, b, v);
      } else {
        CopiesAreKnown(N, succ[1..], b);
        assert forall j :: j in succ ==> j == i || j in succ[1..];
        GrowsNot(N.classes, PhisOf(succ));
        GrowsMore(N.classes, N.classes, Copies(N, succ, b).classes, PhisOf(succ), PhisOf(succ[1..]), PhisOf(succ));
      }
    }
  }
}
