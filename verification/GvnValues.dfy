// Which values a partition has and what its numbers stand for, whatever is executed: the visit of a
// block adds the values it makes, and a join keeps what both sides have.
module GvnValues {
  import opened Wrappers
  import IR
  import opened Gvn
  import opened GvnTransfer
  import opened GvnSound
  import opened GvnJoin
  import opened GvnPath

  // ----- numbers -----

  /** Everything about a class but its members. */
  function Label(c: Class): Class { c.(members := {}) }

  /** Where both partitions have a number, it stands for the same class. */
  ghost predicate Alike(P: Partition, Q: Partition) {
    forall c, d :: c in P && d in Q && c != TOP && d != TOP && c.index == d.index ==> Label(c) == Label(d)
  }

  /** Every number of Q below lo is one of P. */
  ghost predicate Carried(P: Partition, Q: Partition, lo: nat) {
    forall d :: d in Q && d != TOP && d.index < lo ==> exists c :: c in P && c != TOP && Label(c) == Label(d)
  }

  lemma AlikeCarried(P: Partition, Q: Partition, R: Partition, lo: nat)
    requires Alike(P, R) && Carried(P, Q, lo) && Orderly(R, lo)
    ensures Alike(Q, R) && Alike(R, Q)
  {
    forall d, e | d in Q && e in R && d != TOP && e != TOP && d.index == e.index ensures Label(d) == Label(e) {
      var c :| c in P && c != TOP && Label(c) == Label(d);
    }
  }

  lemma AlikeSelf(P: Partition, next: nat)
    requires Orderly(P, next)
    ensures Alike(P, P)
  {
    forall c, d | c in P && d in P && c.index == d.index ensures c == d {
      var i: nat :| i < |P| && P[i] == c;
      var j: nat :| j < |P| && P[j] == d;
      assert !(i < j) && !(j < i);
    }
  }

  lemma CarriedTrans(P: Partition, Q: Partition, R: Partition, lo: nat, mid: nat)
    requires Carried(P, Q, lo) && Carried(Q, R, mid) && lo <= mid
    ensures Carried(P, R, lo)
  {
    forall d | d in R && d != TOP && d.index < lo ensures exists c :: c in P && c != TOP && Label(c) == Label(d) {
      var e :| e in Q && e != TOP && Label(e) == Label(d);
    }
  }

  // ----- the join -----

  /** A join has the values of both sides, and numbers of theirs below lo. */
  lemma JoinValues(P: Partition, P1: Partition, P2: Partition, lo: nat, next: nat)
    requires Orderly(P1, lo) && Orderly(P2, lo) && Alike(P1, P2) && Paired(P, P1, P2, |P1|, 0, lo, next)
    ensures Orderly(P, next) && lo <= next && Members(P) == Members(P1) * Members(P2) && TOP !in P && Carried(P1, P, lo)
  {
    hide HasPair, HasClass;
    forall c | c in P
      ensures 0 < c.index < next && c.leader.Some? && c.members != {} && c.members <= Members(P1) * Members(P2)
      ensures c.index < lo ==> exists d :: d in P1 && d != TOP && Label(d) == Label(c)
    {
      assert HasPair(c, P1, P2, |P1|, 0, lo, next);
      var a, b := PairOf(c, P1, P2, |P1|, 0, lo, next);
      PairLabel(c, P1, P2, a, b, lo, next);
    }
    forall v | v in Members(P1) && v in Members(P2) ensures v in Members(P) {
      var c :| c in P1 && v in c.members;
      var d :| d in P2 && v in d.members;
      var a: nat :| a < |P1| && P1[a] == c;
      var b: nat :| b < |P2| && P2[b] == d;
      assert v in P1[a].members * P2[b].members;
      assert Meets(P1, P2, a, b) && Before(a, b, |P1|, 0);
      assert HasClass(P, P1, P2, a, b, lo, next);
      ClassHas(P, P1, P2, a, b, lo, next, v);
    }
  }

  lemma PairLabel(c: Class, P1: Partition, P2: Partition, a: nat, b: nat, lo: nat, next: nat)
    requires Orderly(P1, lo) && Orderly(P2, lo) && Alike(P1, P2) && FromPair(c, P1, P2, a, b, lo, next) && lo <= next
    ensures 0 < c.index < next && c.leader.Some? && P1[a] != TOP && c.members <= P1[a].members * P2[b].members
    ensures c.index < lo ==> Label(P1[a]) == Label(c)
  {
    assert P1[a] in P1 && P2[b] in P2;
    assert P1[a] != TOP && P2[b] != TOP;
    if P1[a].index == P2[b].index { assert Label(P1[a]) == Label(P2[b]); }
  }

  lemma ClassHas(P: Partition, P1: Partition, P2: Partition, a: nat, b: nat, lo: nat, next: nat, v: Value)
    requires HasClass(P, P1, P2, a, b, lo, next) && Meets(P1, P2, a, b) && v in P1[a].members * P2[b].members
    ensures v in Members(P)
  {
    var c :| c in P && FromPair(c, P1, P2, a, b, lo, next);
  }

  // ----- one value more -----

  /** The step from N to N' has added the values, and new numbers only. */
  ghost predicate Adds(N: Numbering, N': Numbering, made: set<Value>) {
    && Orderly(N'.classes, N'.next) && N.next <= N'.next
    && Members(N'.classes) == Members(N.classes) + made
    && Carried(N.classes, N'.classes, N.next)
    && (TOP in N'.classes <==> TOP in N.classes)
  }

  lemma AddsNothing(N: Numbering)
    requires Orderly(N.classes, N.next)
    ensures Adds(N, N, {})
  {
  }

  lemma AddsTrans(N: Numbering, N1: Numbering, N2: Numbering, made1: set<Value>, made2: set<Value>)
    requires Adds(N, N1, made1) && Adds(N1, N2, made2)
    ensures Adds(N, N2, made1 + made2)
  {
    hide Orderly, Carried;
    CarriedTrans(N.classes, N1.classes, N2.classes, N.next, N1.next);
  }

  /** The class without v. */
  function Less(c: Class, v: Value): Class { c.(members := c.members - {v}) }

  lemma {:induction false} WithoutIs(P: Partition, v: Value)
    ensures forall d :: d in Without(P, v) ==> exists c :: c in P && d == Less(c, v) && (d.members == {} ==> c == d)
    ensures forall c :: c in P && c.members != {v} ==> Less(c, v) in Without(P, v)
  {
    if P != [] {
      WithoutIs(P[1..], v);
      var Q := Without(P[1..], v);
      assert forall c :: c in P <==> c == P[0] || c in P[1..];
      assert v !in P[0].members ==> Less(P[0], v) == P[0];
      forall d | d in Without(P, v) ensures exists c :: c in P && d == Less(c, v) && (d.members == {} ==> c == d) {
        if d in Q {
          var c :| c in P[1..] && d == Less(c, v) && (d.members == {} ==> c == d);
        } else {
          assert d == Less(P[0], v);
        }
      }
    }
  }

  lemma {:induction false} WithoutAbove(P: Partition, v: Value, lo: nat)
    requires forall j :: 0 <= j < |P| ==> lo < P[j].index
    ensures forall j :: 0 <= j < |Without(P, v)| ==> lo < Without(P, v)[j].index
  {
    if P != [] { WithoutAbove(P[1..], v, lo); }
  }

  lemma {:induction false} WithoutSorted(P: Partition, v: Value)
    requires Sorted(P)
    ensures Sorted(Without(P, v))
  {
    if P != [] {
      WithoutSorted(P[1..], v);
      WithoutAbove(P[1..], v, P[0].index);
    }
  }

  /** What Orderly asks of one class. */
  ghost predicate InOrder(c: Class, next: nat) {
    c == TOP || (0 < c.index < next && c.leader.Some? && c.members != {})
  }

  lemma WithoutOrderly(P: Partition, v: Value, next: nat)
    requires Orderly(P, next)
    ensures var Q := Without(P, v); Orderly(Q, next) && (TOP in Q <==> TOP in P) && forall lo: nat :: Carried(P, Q, lo)
  {
    hide Sorted;
    var Q := Without(P, v);
    WithoutIs(P, v);
    WithoutSorted(P, v);
    forall d | d in Q ensures InOrder(d, next) && (d == TOP ==> TOP in P) && (d != TOP ==> exists c :: c in P && c != TOP && Label(c) == Label(d)) {
      var c :| c in P && d == Less(c, v) && (d.members == {} ==> c == d);
    }
    if TOP in P { assert Less(TOP, v) == TOP; }
  }

  /** Taking a value out keeps the numbers, except that of a class it was alone in. */
  lemma WithoutValues(P: Partition, v: Value, next: nat)
    requires Orderly(P, next)
    ensures var Q := Without(P, v);
            && Orderly(Q, next) && Members(Q) == Members(P) - {v} && (TOP in Q <==> TOP in P)
            && forall lo: nat :: Carried(P, Q, lo)
  {
    hide Orderly, Carried, Without;
    WithoutOrderly(P, v, next);
    var Q := Without(P, v);
    WithoutIs(P, v);
    forall x | x in Members(P) && x != v ensures x in Members(Q) {
      var c :| c in P && x in c.members;
      assert Less(c, v) in Q;
    }
    forall x | x in Members(Q) ensures x in Members(P) && x != v {
      var d :| d in Q && x in d.members;
      var c :| c in P && d == Less(c, v);
    }
  }

  /** Some classes have v for a new member, the top class does not. */
  ghost predicate Grown(P: Partition, Q: Partition, v: Value) {
    && |Q| == |P| && (exists k :: 0 <= k < |Q| && v in Q[k].members)
    && forall j :: 0 <= j < |P| ==> Q[j] == P[j] || (P[j] != TOP && Q[j] == P[j].(members := P[j].members + {v}))
  }

  lemma GrownOrderly(P: Partition, Q: Partition, v: Value, next: nat)
    requires Orderly(P, next) && Grown(P, Q, v)
    ensures Orderly(Q, next) && (TOP in Q <==> TOP in P) && Carried(P, Q, next)
  {
    forall i, j | 0 <= i < j < |Q| ensures Q[i].index < Q[j].index { assert P[i].index < P[j].index; }
    hide Sorted;
    forall d | d in Q ensures InOrder(d, next) && (d == TOP ==> TOP in P) && (d != TOP ==> exists c :: c in P && c != TOP && Label(c) == Label(d)) {
      var j: nat :| j < |Q| && Q[j] == d;
      GrownAt(P, Q, v, next, j);
    }
    if TOP in P {
      var j: nat :| j < |P| && P[j] == TOP;
      assert Q[j] in Q;
    }
  }

  lemma GrownAt(P: Partition, Q: Partition, v: Value, next: nat, j: nat)
    requires Orderly(P, next) && Grown(P, Q, v) && j < |Q|
    ensures P[j] in P && InOrder(Q[j], next) && (Q[j] == TOP <==> P[j] == TOP) && Label(P[j]) == Label(Q[j])
  {
    assert P[j] in P;
  }

  lemma GrownMembers(P: Partition, Q: Partition, v: Value)
    requires Grown(P, Q, v)
    ensures Members(Q) == Members(P) + {v}
  {
    forall x | x in Members(Q) && x != v ensures x in Members(P) {
      var d :| d in Q && x in d.members;
      var j: nat :| j < |Q| && Q[j] == d;
      assert P[j] in P;
    }
    forall x | x in Members(P) ensures x in Members(Q) {
      var c :| c in P && x in c.members;
      var j: nat :| j < |P| && P[j] == c;
      assert Q[j] in Q;
    }
    var k :| 0 <= k < |Q| && v in Q[k].members;
    assert Q[k] in Q;
  }

  lemma GrownValues(N: Numbering, Q: Partition, v: Value)
    requires Orderly(N.classes, N.next) && Grown(N.classes, Q, v)
    ensures Adds(N, N.(classes := Q), {v})
  {
    hide Orderly, Grown, Carried;
    GrownOrderly(N.classes, Q, v, N.next);
    GrownMembers(N.classes, Q, v);
  }

  /** A class of its own, with the next number. */
  lemma InsertValues(N: Numbering, c: Class, v: Value)
    requires Orderly(N.classes, N.next) && 0 < N.next && c.index == N.next && c.leader.Some? && c.members == {v}
    requires TOP in N.classes ==> N.next < TOP_INDEX
    ensures Adds(N, Numbering(Insert(N.classes, c), N.next + 1), {v})
  {
    InsertMembers(N.classes, c);
  }

  lemma MatchIsNotTop(c: Class, ve: Expr, vpf: Option<Expr>)
    requires Matches(c, ve, vpf)
    ensures c != TOP
  {
  }

  lemma MatchGrows(P: Partition, Q: Partition, k: nat, v: Value)
    requires AddedAt(P, Q, k, v) && k < |P| && P[k] != TOP
    ensures Grown(P, Q, v)
  {
    assert v in Q[k].members;
  }

  lemma PlaceValues(N: Numbering, i: Inst, ve: Expr, vpf: Option<Expr>)
    requires Orderly(N.classes, N.next) && 0 < N.next && HasValue(i) && Place(N, i, ve, vpf).Some?
    requires TOP in N.classes ==> Place(N, i, ve, vpf).value.next <= TOP_INDEX
    ensures Adds(N, Place(N, i, ve, vpf).value, {Instr(i.id)})
  {
    hide FirstMatch, NewLeader, Orderly, Adds, Matches;
    AddToMatchIs(N.classes, ve, vpf, Instr(i.id));
    var k := FirstMatch(N.classes, ve, vpf);
    if !i.Load? && k.Some? {
      MatchIsNotTop(N.classes[k.value], ve, vpf);
      MatchGrows(N.classes, Place(N, i, ve, vpf).value.classes, k.value, Instr(i.id));
      GrownValues(N, Place(N, i, ve, vpf).value.classes, Instr(i.id));
    } else {
      InsertValues(N, Class(N.next, NewLeader(N.classes, i), Some(ve), None, {Instr(i.id)}), Instr(i.id));
    }
  }

  /** What Without takes out is put back. */
  lemma AddsBack(N: Numbering, v: Value, N': Numbering)
    requires Orderly(N.classes, N.next) && Adds(N.(classes := Without(N.classes, v)), N', {v})
    ensures Adds(N, N', {v})
  {
    hide Orderly, Carried;
    WithoutValues(N.classes, v, N.next);
    CarriedTrans(N.classes, Without(N.classes, v), N'.classes, N.next, N.next);
  }

  /** The values the transfer function adds. */
  function Valued(block: seq<Inst>): (r: set<Value>)
    ensures forall v :: v in r <==> exists i :: i in block && HasValue(i) && v == Instr(i.id)
  {
    set i | i in block && HasValue(i) :: Instr(i.id)
  }

  lemma JoinOneValues(G: Ends, b: nat, N: Numbering, i: Inst, fuel: nat)
    requires Orderly(N.classes, N.next) && 0 < N.next && JoinOne(G, b, N, i, fuel).Some?
    requires TOP in N.classes ==> JoinOne(G, b, N, i, fuel).value.next <= TOP_INDEX
    ensures Adds(N, JoinOne(G, b, N, i, fuel).value, if HasValue(i) then {Instr(i.id)} else {})
  {
    hide Orderly, Adds, Place, ValueExpr, ValuePhi;
    if HasValue(i) {
      var P := Without(N.classes, Instr(i.id));
      WithoutValues(N.classes, Instr(i.id), N.next);
      match ValuePhi(G, b, ValueExpr(P, i), P, fuel) {
        case TooDeep =>
        case Answer(vpf) =>
          PlaceValues(N.(classes := P), i, ValueExpr(P, i), vpf);
          AddsBack(N, Instr(i.id), JoinOne(G, b, N, i, fuel).value);
      }
    } else {
      AddsNothing(N);
    }
  }

  lemma PlaceGrows(N: Numbering, i: Inst, ve: Expr, vpf: Option<Expr>)
    requires HasValue(i)
    ensures Place(N, i, ve, vpf).Some? ==> N.next <= Place(N, i, ve, vpf).value.next
  {
  }

  lemma JoinOneGrows(G: Ends, b: nat, N: Numbering, i: Inst, fuel: nat)
    ensures JoinOne(G, b, N, i, fuel).Some? ==> N.next <= JoinOne(G, b, N, i, fuel).value.next
  {
    hide Place, ValuePhi, ValueExpr;
    if HasValue(i) {
      var P := Without(N.classes, Instr(i.id));
      match ValuePhi(G, b, ValueExpr(P, i), P, fuel) {
        case TooDeep =>
        case Answer(vpf) => PlaceGrows(N.(classes := P), i, ValueExpr(P, i), vpf);
      }
    }
  }

  lemma {:induction false} TransferGrows(G: Ends, b: nat, N: Numbering, block: seq<Inst>, fuel: nat)
    ensures TransferJoin(G, b, N, block, fuel).Some? ==> N.next <= TransferJoin(G, b, N, block, fuel).value.next
    decreases block
  {
    hide JoinOne;
    if block != [] && JoinOne(G, b, N, block[0], fuel).Some? {
      JoinOneGrows(G, b, N, block[0], fuel);
      TransferGrows(G, b, JoinOne(G, b, N, block[0], fuel).value, block[1..], fuel);
    }
  }

  /** The transfer function adds the values of the block. */
  lemma {:induction false} TransferValues(G: Ends, b: nat, N: Numbering, block: seq<Inst>, fuel: nat)
    requires Orderly(N.classes, N.next) && 0 < N.next && TransferJoin(G, b, N, block, fuel).Some?
    requires TOP in N.classes ==> TransferJoin(G, b, N, block, fuel).value.next <= TOP_INDEX
    ensures Adds(N, TransferJoin(G, b, N, block, fuel).value, Valued(block))
    decreases block
  {
    hide JoinOne, Orderly, Carried;
    if block == [] {
      AddsNothing(N);
    } else {
      var i := block[0];
      var N1 := JoinOne(G, b, N, i, fuel).value;
      TransferGrows(G, b, N1, block[1..], fuel);
      JoinOneValues(G, b, N, i, fuel);
      TransferValues(G, b, N1, block[1..], fuel);
      var made := if HasValue(i) then {Instr(i.id)} else {};
      AddsTrans(N, N1, TransferJoin(G, b, N, block, fuel).value, made, Valued(block[1..]));
      assert forall j :: j in block <==> j == i || j in block[1..];
      assert made + Valued(block[1..]) == Valued(block);
    }
  }

  // ----- copies -----

  /** The phis that take a value from block b. */
  function Copied(succ: seq<Inst>, b: nat): (r: set<Value>)
    ensures forall v :: v in r <==> exists i :: i in succ && i.Phi? && (i.from1 == b || i.from2 == b) && v == Instr(i.id)
  {
    set i | i in succ && i.Phi? && (i.from1 == b || i.from2 == b) :: Instr(i.id)
  }

  lemma AddCopyGrows(P: Partition, v: Value, phi: nat)
    requires Taken(P, v)
    ensures Grown(P, AddCopy(P, v, phi), Instr(phi))
  {
    var Q := AddCopy(P, v, phi);
    var k: nat :| k < |P| && Takes(P[k], v);
    assert Instr(phi) in Q[k].members;
  }

  lemma CopyValues(N: Numbering, phi: nat, v: Value)
    requires Orderly(N.classes, N.next) && 0 < N.next && (TOP in N.classes ==> Copy(N, phi, v).next <= TOP_INDEX)
    ensures Adds(N, Copy(N, phi, v), {Instr(phi)})
  {
    hide Orderly, Adds, Takes, Taken;
    var P := Without(N.classes, Instr(phi));
    WithoutValues(N.classes, Instr(phi), N.next);
    if Taken(P, v) {
      AddCopyGrows(P, v, phi);
      GrownValues(N.(classes := P), AddCopy(P, v, phi), Instr(phi));
    } else {
      InsertValues(N.(classes := P), Class(N.next, Some(v), Some(Leaf(v)), None, {Instr(phi)}), Instr(phi));
    }
    AddsBack(N, Instr(phi), Copy(N, phi, v));
  }

  lemma {:induction false} CopiesGrow(N: Numbering, succ: seq<Inst>, b: nat)
    ensures N.next <= Copies(N, succ, b).next
    decreases succ
  {
    if succ != [] {
      if succ[0].Phi? {
        var N1 := if succ[0].from1 == b then Copy(N, succ[0].id, succ[0].val1) else N;
        var N2 := if succ[0].from2 == b then Copy(N1, succ[0].id, succ[0].val2) else N1;
        CopiesGrow(N2, succ[1..], b);
      } else {
        CopiesGrow(N, succ[1..], b);
      }
    }
  }

  /** The copies add the phis they are made for. */
  lemma {:induction false} CopiesValues(N: Numbering, succ: seq<Inst>, b: nat)
    requires Orderly(N.classes, N.next) && 0 < N.next && (TOP in N.classes ==> Copies(N, succ, b).next <= TOP_INDEX)
    ensures Adds(N, Copies(N, succ, b), Copied(succ, b))
    decreases succ
  {
    hide Orderly, Carried, Copy;
    if succ == [] {
      AddsNothing(N);
    } else {
      var i := succ[0];
      assert forall j :: j in succ <==> j == i || j in succ[1..];
      var N1, N2, made := PhiValues(N, i, succ[1..], b);
      CopiesGrow(N2, succ[1..], b);
      CopiesValues(N2, succ[1..], b);
      AddsTrans(N, N2, Copies(N, succ, b), made, Copied(succ[1..], b));
      assert made + Copied(succ[1..], b) == Copied(succ, b);
    }
  }

  /** The copies for one phi. */
  lemma PhiValues(N: Numbering, i: Inst, rest: seq<Inst>, b: nat) returns (N1: Numbering, N2: Numbering, made: set<Value>)
    requires Orderly(N.classes, N.next) && 0 < N.next && (TOP in N.classes ==> Copies(N, [i] + rest, b).next <= TOP_INDEX)
    ensures Copies(N, [i] + rest, b) == Copies(N2, rest, b) && Adds(N, N2, made)
    ensures made == if i.Phi? && (i.from1 == b || i.from2 == b) then {Instr(i.id)} else {}
  {
    hide Orderly, Carried, Copy;
    assert ([i] + rest)[1..] == rest;
    N1, N2, made := N, N, {};
    AddsNothing(N);
    if i.Phi? && i.from1 == b {
      N1 := Copy(N, i.id, i.val1);
      N2 := if i.from2 == b then Copy(N1, i.id, i.val2) else N1;
      CopiesGrow(N2, rest, b);
      CopyGrows(N1, i.id, i.val2);
      CopyValues(N, i.id, i.val1);
      made := {Instr(i.id)};
      if i.from2 == b {
        CopyValues(N1, i.id, i.val2);
        AddsTrans(N, N1, N2, made, made);
        assert made + made == made;
      }
    } else if i.Phi? && i.from2 == b {
      N2 := Copy(N, i.id, i.val2);
      CopiesGrow(N2, rest, b);
      CopyValues(N, i.id, i.val2);
      made := {Instr(i.id)};
    }
  }

  lemma CopyGrows(N: Numbering, phi: nat, v: Value)
    ensures N.next <= Copy(N, phi, v).next
  {
  }
}
