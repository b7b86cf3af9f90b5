// A function on which value numbering replaces a value by a different one: a value phi made at an
// earlier join is taken for one of a later join.
module GvnExample {
  import opened Wrappers
  import IR
  import opened Gvn
  import opened GvnTransfer
  import opened GvnSound
  import opened GvnJoin
  import opened GvnPath

  // if (a < c) { x = a; y = b; } else { x = c; y = d; }
  // if (b > d) { w = a + b; } else { w = c + d; }
  // s = x + y; t = s * s;
  const A := Param(0)
  const B := Param(1)
  const C := Param(2)
  const D := Param(3)
  const Q := Instr(0)
  const X := Instr(1)
  const Y := Instr(2)
  const U := Instr(3)
  const V := Instr(4)
  const R := Instr(5)
  const W := Instr(6)
  const S := Instr(7)
  const T := Instr(8)

  const TEST1: seq<Inst> := [Bin(0, IR.Cmp(IR.LT), A, C)]
  const JOIN1: seq<Inst> := [Phi(1, A, 1, C, 2), Phi(2, B, 1, D, 2), Bin(3, IR.Cmp(IR.GT), B, D)]
  const LEFT: seq<Inst> := [Bin(4, IR.Add, A, B)]
  const RIGHT: seq<Inst> := [Bin(5, IR.Add, C, D)]
  const JOIN2: seq<Inst> := [Phi(6, V, 4, R, 5), Bin(7, IR.Add, X, Y), Bin(8, IR.Mul, S, S)]

  // ----- the partitions the pass computes -----

  function Own(index: nat, v: Value, members: set<Value>): Class {
    Class(index, Some(v), None, None, members)
  }

  const KQ := Class(5, Some(Q), Some(Binary(IR.Cmp(IR.LT), Leaf(A), Leaf(C))), None, {Q})
  const KX := Class(6, Some(X), None, Some(PhiOf(Leaf(A), Leaf(C))), {X})
  const KY := Class(7, Some(Y), None, Some(PhiOf(Leaf(B), Leaf(D))), {Y})
  const KU := Class(8, Some(U), Some(Binary(IR.Cmp(IR.GT), Leaf(B), Leaf(D))), None, {U})
  const KV := Class(9, Some(V), Some(Binary(IR.Add, Leaf(A), Leaf(B))), None, {V, W})
  const KR := Class(10, Some(R), Some(Binary(IR.Add, Leaf(C), Leaf(D))), None, {R, W})
  const KW := Class(11, Some(W), None, Some(PhiOf(Leaf(V), Leaf(R))), {W})
  const KT := Class(12, Some(T), Some(Binary(IR.Mul, Leaf(W), Leaf(W))), None, {T})

  const ARGS: Partition := [Own(1, A, {A}), Own(2, B, {B}), Own(3, C, {C}), Own(4, D, {D})]
  const OUT0: Partition := ARGS + [KQ]
  const OUT1: Partition := [Own(1, A, {A, X}), Own(2, B, {B, Y}), Own(3, C, {C}), Own(4, D, {D}), KQ]
  const OUT2: Partition := [Own(1, A, {A}), Own(2, B, {B}), Own(3, C, {C, X}), Own(4, D, {D, Y}), KQ]
  const PIN3: Partition := [Own(1, A, {A}), Own(2, B, {B}), Own(3, C, {C}), Own(4, D, {D}), KQ, KX, KY]
  const OUT3: Partition := [Own(1, A, {A}), Own(2, B, {B}), Own(3, C, {C}), Own(4, D, {D}), KQ, KX, KY, KU]
  const OUT4: Partition := OUT3 + [KV]
  const OUT5: Partition := OUT3 + [KR]
  const PIN6: Partition := OUT3 + [KW]
  const OUT6: Partition := OUT3 + [KW.(members := {W, S}), KT]

  const ENDS := Ends(map[1 := [0], 2 := [0], 3 := [1, 2], 4 := [3], 5 := [3], 6 := [4, 5]],
                     map[0 := OUT0, 1 := OUT1, 2 := OUT2, 3 := OUT3, 4 := OUT4, 5 := OUT5, 6 := OUT6])

  const PROGRAM := Program(
    map[0 := TEST1, 3 := JOIN1, 4 := LEFT, 5 := RIGHT, 6 := JOIN2], map[0 := [Q], 3 := [U], 6 := [T]], ENDS,
    map[1 := JOIN1[..2], 2 := JOIN1[..2], 4 := JOIN2[..1], 5 := JOIN2[..1]],
    map[3 := 6, 6 := 11],
    map[0 := Numbering(ARGS, 5), 1 := Numbering(OUT0, 6), 2 := Numbering(OUT0, 6), 3 := Numbering(PIN3, 8),
        4 := Numbering(OUT3, 9), 5 := Numbering(OUT3, 10), 6 := Numbering(PIN6, 12)])

  // ----- finding classes -----

  lemma {:induction false} LeaderAt(P: Partition, k: nat, v: Value)
    requires k < |P| && v in P[k].members && P[k].leader.Some? && forall j :: k < j < |P| ==> v !in P[j].members
    ensures LeaderOf(P, v) == P[k].leader.value
    decreases |P|
  {
    if k < |P| - 1 { LeaderAt(P[..|P| - 1], k, v); }
  }

  lemma {:induction false} PhiClassAt(P: Partition, k: nat, l: Value)
    requires k < |P| && P[k].phi.Some? && P[k].leader == Some(l)
    requires forall j :: k < j < |P| ==> P[j].phi == None || P[j].leader != Some(l)
    ensures PhiClass(P, l) == Some(P[k])
    decreases |P|
  {
    if k < |P| - 1 { PhiClassAt(P[..|P| - 1], k, l); }
  }

  lemma {:induction false} NoPhiClass(P: Partition, l: Value)
    requires forall j :: 0 <= j < |P| ==> P[j].phi == None || P[j].leader != Some(l)
    ensures PhiClass(P, l) == None
    decreases |P|
  {
    if P != [] { NoPhiClass(P[..|P| - 1], l); }
  }

  lemma {:induction false} NumberAt(P: Partition, k: nat, e: Expr)
    requires k < |P| && P[k].expr == Some(e) && P[k].leader.Some? && forall j :: 0 <= j < k ==> P[j].expr != Some(e)
    ensures GetVN(P, e) == Some(Leaf(P[k].leader.value))
  {
    if k > 0 { NumberAt(P[1..], k - 1, e); }
  }

  lemma {:induction false} NoNumber(P: Partition, e: Expr)
    requires forall j :: 0 <= j < |P| ==> P[j].expr != Some(e)
    ensures GetVN(P, e) == None
  {
    if P != [] { NoNumber(P[1..], e); }
  }

  lemma {:induction false} MatchAt(P: Partition, k: nat, ve: Expr, vpf: Option<Expr>)
    requires k < |P| && Matches(P[k], ve, vpf) && forall j :: 0 <= j < k ==> !Matches(P[j], ve, vpf)
    ensures FirstMatch(P, ve, vpf) == Some(k)
  {
    if k > 0 { MatchAt(P[1..], k - 1, ve, vpf); }
  }

  lemma {:induction false} NoMatch(P: Partition, ve: Expr, vpf: Option<Expr>)
    requires forall j :: 0 <= j < |P| ==> !Matches(P[j], ve, vpf)
    ensures FirstMatch(P, ve, vpf) == None
  {
    if P != [] { NoMatch(P[1..], ve, vpf); }
  }

  lemma {:induction false} NoConst(P: Partition, v: Value)
    requires !v.IntConst? && forall j :: 0 <= j < |P| ==> !(v in P[j].members && P[j].leader.Some? && P[j].leader.value.IntConst?)
    ensures FindConst(P, v) == None
  {
    if P != [] { NoConst(P[1..], v); }
  }

  /** A binary instruction that matches nothing gets a class of its own. */
  lemma OwnClass(N: Numbering, i: Inst, l: Value, r: Value, ve: Expr, vpf: Option<Expr>)
    requires i.Bin? && ve == Binary(i.op, Leaf(l), Leaf(r))
    requires FirstMatch(N.classes, ve, vpf) == None && FindConst(N.classes, i.lhs) == None
    requires forall c :: c in N.classes ==> c.index < N.next
    ensures Place(N, i, ve, vpf) == Some(Numbering(N.classes + [Class(N.next, Some(Instr(i.id)), Some(ve), None, {Instr(i.id)})], N.next + 1))
  {
    AddToMatchIs(N.classes, ve, vpf, Instr(i.id));
    InsertLast(N.classes, Class(N.next, Some(Instr(i.id)), Some(ve), None, {Instr(i.id)}));
  }

  /** All numbers are below the next, and the instruction is in no class. */
  ghost predicate Roomy(P: Partition, next: nat, id: nat) {
    forall j :: 0 <= j < |P| ==> P[j].index < next && Instr(id) !in P[j].members
  }

  lemma RoomyOut3(next: nat, id: nat)
    requires 9 <= next && 4 <= id <= 8
    ensures Roomy(OUT3, next, id)
  {
  }

  lemma RoomyMore(P: Partition, c: Class, next: nat, id: nat)
    requires Roomy(P, next, id) && c.index < next && Instr(id) !in c.members
    ensures Roomy(P + [c], next, id)
  {
  }

  /** A binary instruction without value phi that matches nothing. */
  lemma OneOwn(G: Ends, b: nat, N: Numbering, i: Inst, fuel: nat, l: Value, r: Value)
    requires i.Bin? && LeaderOf(N.classes, i.lhs) == l && LeaderOf(N.classes, i.rhs) == r
    requires Roomy(N.classes, N.next, i.id)
    requires ValuePhi(G, b, Binary(i.op, Leaf(l), Leaf(r)), N.classes, fuel) == Answer(None)
    requires FirstMatch(N.classes, Binary(i.op, Leaf(l), Leaf(r)), None) == None && FindConst(N.classes, i.lhs) == None
    ensures JoinOne(G, b, N, i, fuel)
         == Some(Numbering(N.classes + [Class(N.next, Some(Instr(i.id)), Some(Binary(i.op, Leaf(l), Leaf(r))), None, {Instr(i.id)})], N.next + 1))
  {
    hide ValuePhi, FirstMatch, Place, FindConst;
    WithoutNothing(N.classes, Instr(i.id));
    OwnClass(N, i, l, r, Binary(i.op, Leaf(l), Leaf(r)), None);
  }

  lemma OneInstruction(G: Ends, b: nat, N: Numbering, i: Inst, fuel: nat)
    ensures TransferJoin(G, b, N, [i], fuel) == JoinOne(G, b, N, i, fuel)
  {
    assert [i][1..] == [];
  }

  lemma Transfer0()
    ensures TransferJoin(ENDS, 0, Numbering(ARGS, 5), TEST1, 1) == Some(Numbering(OUT0, 6))
  {
    hide JoinOne, TransferJoin;
    var i := Bin(0, IR.Cmp(IR.LT), A, C);
    LeaderAt(ARGS, 0, A);
    LeaderAt(ARGS, 2, C);
    NoMatch(ARGS, Binary(i.op, Leaf(A), Leaf(C)), None);
    NoConst(ARGS, A);
    OneOwn(ENDS, 0, Numbering(ARGS, 5), i, 1, A, C);
    OneInstruction(ENDS, 0, Numbering(ARGS, 5), i, 1);
  }

  lemma Transfer3()
    ensures TransferJoin(ENDS, 3, Numbering(PIN3, 8), JOIN1, 1) == Some(Numbering(OUT3, 9))
  {
    var i := Bin(3, IR.Cmp(IR.GT), B, D);
    LeaderAt(PIN3, 1, B);
    LeaderAt(PIN3, 3, D);
    NoMatch(PIN3, Binary(i.op, Leaf(B), Leaf(D)), None);
    NoConst(PIN3, B);
    OneOwn(ENDS, 3, Numbering(PIN3, 8), i, 1, B, D);
    assert PIN3 + [KU] == OUT3;
    assert JOIN1[1..][1..] == [i];
    SkipPhis(ENDS, 3, Numbering(PIN3, 8), JOIN1, 1);
    SkipPhis(ENDS, 3, Numbering(PIN3, 8), JOIN1[1..], 1);
    OneInstruction(ENDS, 3, Numbering(PIN3, 8), i, 1);
  }

  lemma SkipPhis(G: Ends, b: nat, N: Numbering, block: seq<Inst>, fuel: nat)
    requires block != [] && block[0].Phi?
    ensures TransferJoin(G, b, N, block, fuel) == TransferJoin(G, b, N, block[1..], fuel)
  {
  }

  lemma Transfer4()
    ensures TransferJoin(ENDS, 4, Numbering(OUT3, 9), LEFT, 1) == Some(Numbering(OUT3 + [KV.(members := {V})], 10))
  {
    hide JoinOne, TransferJoin, Roomy;
    var i := Bin(4, IR.Add, A, B);
    RoomyOut3(9, 4);
    LeaderAt(OUT3, 0, A);
    LeaderAt(OUT3, 1, B);
    NoPhiClass(OUT3, A);
    NoMatch(OUT3, Binary(i.op, Leaf(A), Leaf(B)), None);
    NoConst(OUT3, A);
    OneOwn(ENDS, 4, Numbering(OUT3, 9), i, 1, A, B);
    OneInstruction(ENDS, 4, Numbering(OUT3, 9), i, 1);
  }

  lemma Transfer5()
    ensures TransferJoin(ENDS, 5, Numbering(OUT3, 10), RIGHT, 1) == Some(Numbering(OUT3 + [KR.(members := {R})], 11))
  {
    hide JoinOne, TransferJoin, Roomy;
    var i := Bin(5, IR.Add, C, D);
    RoomyOut3(10, 5);
    LeaderAt(OUT3, 2, C);
    LeaderAt(OUT3, 3, D);
    NoPhiClass(OUT3, C);
    NoMatch(OUT3, Binary(i.op, Leaf(C), Leaf(D)), None);
    NoConst(OUT3, C);
    OneOwn(ENDS, 5, Numbering(OUT3, 10), i, 1, C, D);
    OneInstruction(ENDS, 5, Numbering(OUT3, 10), i, 1);
  }

  /** x + y has the value phi of w. */
  lemma SumHasPhi()
    ensures ValueExpr(PIN6, Bin(7, IR.Add, X, Y)) == Binary(IR.Add, Leaf(X), Leaf(Y))
    ensures ValuePhi(ENDS, 6, Binary(IR.Add, Leaf(X), Leaf(Y)), PIN6, 1) == Answer(KW.phi)
  {
    LeaderAt(PIN6, 5, X);
    LeaderAt(PIN6, 6, Y);
    PhiClassAt(PIN6, 5, X);
    PhiClassAt(PIN6, 6, Y);
    var e1, e2 := Binary(IR.Add, Leaf(A), Leaf(B)), Binary(IR.Add, Leaf(C), Leaf(D));
    NumberAt(OUT4, 8, e1);
    NumberAt(OUT5, 8, e2);
    assert Number(ENDS, 4, e1, 1) == Answer(Some(Leaf(V)));
    assert Number(ENDS, 5, e2, 1) == Answer(Some(Leaf(R)));
  }

  const MID: Partition := OUT3 + [KW.(members := {W, S})]

  /** A binary instruction that goes to the last class. */
  lemma OneLast(G: Ends, b: nat, P: Partition, c: Class, next: nat, i: Inst, ve: Expr, vpf: Option<Expr>, fuel: nat)
    requires i.Bin? && ValueExpr(P + [c], i) == ve && ValuePhi(G, b, ve, P + [c], fuel) == Answer(vpf)
    requires Roomy(P + [c], next, i.id) && FirstMatch(P + [c], ve, vpf) == Some(|P|)
    ensures JoinOne(G, b, Numbering(P + [c], next), i, fuel) == Some(Numbering(P + [c.(members := c.members + {Instr(i.id)})], next))
  {
    hide ValuePhi, FirstMatch, ValueExpr, Place;
    var N := Numbering(P + [c], next);
    WithoutNothing(N.classes, Instr(i.id));
    AddToMatchIs(N.classes, ve, vpf, Instr(i.id));
    var d := c.(members := c.members + {Instr(i.id)});
    assert (P + [c])[|P| := d] == P + [d];
    PlaceAt(N, i, ve, vpf, P + [d]);
  }

  lemma PlaceAt(N: Numbering, i: Inst, ve: Expr, vpf: Option<Expr>, Q: Partition)
    requires i.Bin? && AddToMatch(N.classes, ve, vpf, Instr(i.id)) == Some(Q)
    ensures Place(N, i, ve, vpf) == Some(N.(classes := Q))
  {
  }

  lemma SumJoins()
    ensures JoinOne(ENDS, 6, Numbering(PIN6, 12), Bin(7, IR.Add, X, Y), 1) == Some(Numbering(MID, 12))
  {
    hide ValuePhi, ValueExpr, JoinOne, Roomy, FirstMatch;
    SumHasPhi();
    var ve := Binary(IR.Add, Leaf(X), Leaf(Y));
    SumMatches();
    RoomyOut3(12, 7);
    RoomyMore(OUT3, KW, 12, 7);
    assert {W} + {S} == {W, S};
    OneLast(ENDS, 6, OUT3, KW, 12, Bin(7, IR.Add, X, Y), ve, KW.phi, 1);
  }

  lemma SumMatches()
    ensures FirstMatch(PIN6, Binary(IR.Add, Leaf(X), Leaf(Y)), KW.phi) == Some(8)
  {
    MatchAt(PIN6, 8, Binary(IR.Add, Leaf(X), Leaf(Y)), KW.phi);
  }

  /** s * s, whose operands' leader is w now, has no value phi. */
  lemma SquareHasNoPhi()
    ensures LeaderOf(MID, S) == W
    ensures ValuePhi(ENDS, 6, Binary(IR.Mul, Leaf(W), Leaf(W)), MID, 1) == Answer(None)
  {
    LeaderAt(MID, 8, S);
    PhiClassAt(MID, 8, W);
    var e1, e2 := Binary(IR.Mul, Leaf(V), Leaf(V)), Binary(IR.Mul, Leaf(R), Leaf(R));
    NoNumber(OUT4, e1);
    NoNumber(OUT5, e2);
    NoPhiClass(OUT4, V);
    NoPhiClass(OUT5, R);
    assert ValuePhi(ENDS, 4, e1, OUT4, 0) == Answer(None) && ValuePhi(ENDS, 5, e2, OUT5, 0) == Answer(None);
    assert Number(ENDS, 4, e1, 1) == Answer(None) && Number(ENDS, 5, e2, 1) == Answer(None);
  }

  lemma SquareOwn()
    ensures JoinOne(ENDS, 6, Numbering(MID, 12), Bin(8, IR.Mul, S, S), 1) == Some(Numbering(OUT6, 13))
  {
    hide JoinOne, ValuePhi, Roomy;
    SquareHasNoPhi();
    RoomyOut3(12, 8);
    RoomyMore(OUT3, KW.(members := {W, S}), 12, 8);
    NoMatch(MID, Binary(IR.Mul, Leaf(W), Leaf(W)), None);
    NoConst(MID, S);
    OneOwn(ENDS, 6, Numbering(MID, 12), Bin(8, IR.Mul, S, S), 1, W, W);
    assert MID + [KT] == OUT6;
  }

  lemma Transfer6()
    ensures TransferJoin(ENDS, 6, Numbering(PIN6, 12), JOIN2, 1) == Some(Numbering(OUT6, 13))
  {
    hide JoinOne, TransferJoin;
    SumJoins();
    SquareOwn();
    SkipPhis(ENDS, 6, Numbering(PIN6, 12), JOIN2, 1);
    var i, j := Bin(7, IR.Add, X, Y), Bin(8, IR.Mul, S, S);
    assert JOIN2[1..] == [i, j];
    TwoInstructions(ENDS, 6, Numbering(PIN6, 12), i, j, 1);
  }

  lemma TwoInstructions(G: Ends, b: nat, N: Numbering, i: Inst, j: Inst, fuel: nat)
    requires JoinOne(G, b, N, i, fuel).Some?
    ensures TransferJoin(G, b, N, [i, j], fuel) == JoinOne(G, b, JoinOne(G, b, N, i, fuel).value, j, fuel)
  {
    hide JoinOne;
    assert [i, j][1..] == [j];
    OneInstruction(G, b, JoinOne(G, b, N, i, fuel).value, j, fuel);
  }

  // ----- copies -----

  /** A copy of a member of class k alone. */
  lemma CopyAt(P: Partition, next: nat, phi: nat, v: Value, k: nat)
    requires k < |P| && v in P[k].members && !v.IntConst? && (forall j :: 0 <= j < |P| && j != k ==> v !in P[j].members)
    requires Roomy(P, next, phi)
    ensures Copy(Numbering(P, next), phi, v) == Numbering(P[k := P[k].(members := P[k].members + {Instr(phi)})], next)
  {
    WithoutNothing(P, Instr(phi));
    assert Takes(P[k], v);
    assert AddCopy(P, v, phi) == P[k := P[k].(members := P[k].members + {Instr(phi)})];
  }

  /** The value the phi takes on the edge from b. */
  predicate TakesFrom(i: Inst, b: nat, v: Value) {
    i.Phi? && ((i.from1 == b && i.from2 != b && i.val1 == v) || (i.from2 == b && i.from1 != b && i.val2 == v))
  }

  lemma OneCopy(N: Numbering, i: Inst, b: nat, v: Value)
    requires TakesFrom(i, b, v)
    ensures Copies(N, [i], b) == Copy(N, i.id, v)
  {
    hide Copy;
    assert [i][1..] == [];
  }

  lemma TwoCopies(N: Numbering, i: Inst, j: Inst, b: nat, v: Value, u: Value)
    requires TakesFrom(i, b, v) && TakesFrom(j, b, u)
    ensures Copies(N, [i, j], b) == Copy(Copy(N, i.id, v), j.id, u)
  {
    hide Copy;
    assert [i, j][1..] == [j];
    OneCopy(Copy(N, i.id, v), j, b, u);
  }

  lemma RoomyCopies(P: Partition)
    requires P == OUT0[0 := Own(1, A, {A, X})] || P == OUT0[2 := Own(3, C, {C, X})]
    ensures Roomy(OUT0, 6, 1) && Roomy(P, 6, 2)
  {
  }

  lemma Copies1()
    ensures Copies(Numbering(OUT0, 6), JOIN1[..2], 1) == Numbering(OUT1, 6)
  {
    hide Copy, Copies, Roomy;
    var P := OUT0[0 := Own(1, A, {A, X})];
    assert {A} + {X} == {A, X} && {B} + {Y} == {B, Y};
    RoomyCopies(P);
    CopyAt(OUT0, 6, 1, A, 0);
    CopyAt(P, 6, 2, B, 1);
    assert P[1 := Own(2, B, {B, Y})] == OUT1;
    assert JOIN1[..2] == [JOIN1[0], JOIN1[1]];
    TwoCopies(Numbering(OUT0, 6), JOIN1[0], JOIN1[1], 1, A, B);
  }

  lemma Copies2()
    ensures Copies(Numbering(OUT0, 6), JOIN1[..2], 2) == Numbering(OUT2, 6)
  {
    hide Copy, Copies, Roomy;
    var P := OUT0[2 := Own(3, C, {C, X})];
    assert {C} + {X} == {C, X} && {D} + {Y} == {D, Y};
    RoomyCopies(P);
    CopyAt(OUT0, 6, 1, C, 2);
    CopyAt(P, 6, 2, D, 3);
    assert P[3 := Own(4, D, {D, Y})] == OUT2;
    assert JOIN1[..2] == [JOIN1[0], JOIN1[1]];
    TwoCopies(Numbering(OUT0, 6), JOIN1[0], JOIN1[1], 2, C, D);
  }

  /** The copy for w goes to the last class, that of its operand. */
  lemma CopyLast(c: Class, next: nat, v: Value)
    requires v == V || v == R
    requires c.members == {v} && c.index < next && 9 <= next
    ensures Copy(Numbering(OUT3 + [c], next), 6, v) == Numbering(OUT3 + [c.(members := {v, W})], next)
  {
    hide Copy;
    RoomyOut3(next, 6);
    RoomyMore(OUT3, c, next, 6);
    assert forall j :: 0 <= j < |OUT3| ==> v !in OUT3[j].members;
    CopyAt(OUT3 + [c], next, 6, v, 8);
    assert {v} + {W} == {v, W};
    assert (OUT3 + [c])[8 := c.(members := {v, W})] == OUT3 + [c.(members := {v, W})];
  }

  lemma Copies4()
    ensures Copies(Numbering(OUT3 + [KV.(members := {V})], 10), JOIN2[..1], 4) == Numbering(OUT4, 10)
  {
    CopyLast(KV.(members := {V}), 10, V);
    assert JOIN2[..1] == [JOIN2[0]];
    OneCopy(Numbering(OUT3 + [KV.(members := {V})], 10), JOIN2[0], 4, V);
  }

  lemma Copies5()
    ensures Copies(Numbering(OUT3 + [KR.(members := {R})], 11), JOIN2[..1], 5) == Numbering(OUT5, 11)
  {
    CopyLast(KR.(members := {R}), 11, R);
    assert JOIN2[..1] == [JOIN2[0]];
    OneCopy(Numbering(OUT3 + [KR.(members := {R})], 11), JOIN2[0], 5, R);
  }

  // ----- joins -----

  /** A join given by the pairs its classes come from. */
  lemma JoinByPairs(P: Partition, P1: Partition, P2: Partition, lo: nat, next: nat, pairs: seq<(nat, nat)>)
    requires Sorted(P) && Apart(P) && lo <= next && |pairs| == |P|
    requires forall k :: 0 <= k < |P| ==> FromPair(P[k], P1, P2, pairs[k].0, pairs[k].1, lo, next)
    requires forall a: nat, b: nat :: Meets(P1, P2, a, b) ==> (a, b) in pairs
    ensures IsJoin(P, P1, P2, lo, next)
  {
    forall c {:trigger HasPair(c, P1, P2, |P1|, 0, lo, next)} | c in P ensures HasPair(c, P1, P2, |P1|, 0, lo, next) {
      var k: nat :| k < |P| && P[k] == c;
      assert Before(pairs[k].0, pairs[k].1, |P1|, 0);
    }
    forall a: nat, b: nat {:trigger HasClass(P, P1, P2, a, b, lo, next)} | Meets(P1, P2, a, b) && Before(a, b, |P1|, 0)
      ensures HasClass(P, P1, P2, a, b, lo, next)
    {
      var k: nat :| k < |pairs| && pairs[k] == (a, b);
      assert P[k] in P && FromPair(P[k], P1, P2, a, b, lo, next);
    }
  }

  const PAIRS: seq<(nat, nat)> := [(0, 0), (1, 1), (2, 2), (3, 3), (4, 4), (0, 2), (1, 3)]

  lemma MeetsAre(a: nat, b: nat)
    requires Meets(OUT1, OUT2, a, b)
    ensures (a, b) in PAIRS
  {
    assert PAIRS[0] == (0, 0) && PAIRS[1] == (1, 1) && PAIRS[2] == (2, 2) && PAIRS[3] == (3, 3) && PAIRS[4] == (4, 4);
    assert PAIRS[5] == (0, 2) && PAIRS[6] == (1, 3);
  }

  lemma PairsAre(k: nat)
    requires k < 7
    ensures FromPair(PIN3[k], OUT1, OUT2, PAIRS[k].0, PAIRS[k].1, 6, 8)
  {
    assert {A, X} * {A} == {A} && {B, Y} * {B} == {B} && {C} * {C, X} == {C} && {D} * {D, Y} == {D};
    assert {A, X} * {C, X} == {X} && {B, Y} * {D, Y} == {Y};
  }

  lemma Outs1Valid()
    ensures Valid(OUT1, 6)
  {
  }

  lemma Outs2Valid()
    ensures Valid(OUT2, 6)
  {
  }

  lemma Pin3Apart()
    ensures Sorted(PIN3) && Apart(PIN3)
  {
    hide Disjoint, Apart;
    Pin3Valid();
    DisjointApart(PIN3);
  }

  lemma DisjointApart(P: Partition)
    requires Disjoint(P)
    ensures Apart(P)
  {
    forall x, y | x in P && y in P && x != y ensures x.members !! y.members {
      var i: nat :| i < |P| && P[i] == x;
      var j: nat :| j < |P| && P[j] == y;
      assert i < j ==> P[i].members !! P[j].members;
      assert j < i ==> P[j].members !! P[i].members;
    }
  }

  lemma Pin3Valid()
    ensures Valid(PIN3, 8)
  {
    hide Valid;
    var P: Partition := PIN3[..5];
    assert Valid(P, 6) by { Pin3Start(); }
    MoreValid(P, KX, 6);
    MoreValid(P + [KX], KY, 7);
    assert PIN3 == P + [KX] + [KY];
  }

  lemma Pin3Start()
    ensures Valid(PIN3[..5], 6)
  {
    assert PIN3[..5] == [Own(1, A, {A}), Own(2, B, {B}), Own(3, C, {C}), Own(4, D, {D}), KQ];
  }

  lemma OutsIdentify()
    ensures Identify(OUT1, OUT2)
  {
  }

  lemma Join3()
    ensures IsJoin(PIN3, OUT1, OUT2, 6, 8)
  {
    hide FromPair, Meets, Sorted, Apart, IsJoin;
    Pin3Apart();
    forall a: nat, b: nat | Meets(OUT1, OUT2, a, b) ensures (a, b) in PAIRS { MeetsAre(a, b); }
    forall k | 0 <= k < |PIN3| ensures FromPair(PIN3[k], OUT1, OUT2, PAIRS[k].0, PAIRS[k].1, 6, 8) { PairsAre(k); }
    JoinByPairs(PIN3, OUT1, OUT2, 6, 8, PAIRS);
  }

  /** The join of two partitions that differ in their last class only. */
  lemma JoinCommon(P: Partition, c1: Class, c2: Class, c: Class, lo: nat)
    requires Valid(P + [c1], lo) && Valid(P + [c2], lo) && Intersection(c, c1, c2, lo) && c1.index != c2.index
    ensures IsJoin(P + [c], P + [c1], P + [c2], lo, lo + 1)
  {
    hide FromPair, Meets, IsJoin;
    var P1, P2, Q := P + [c1], P + [c2], P + [c];
    var pairs := seq(|Q|, k => (k, k));
    forall k | 0 <= k < |Q| ensures FromPair(Q[k], P1, P2, pairs[k].0, pairs[k].1, lo, lo + 1) {
      assert P1[k] in P1 && P2[k] in P2;
      SameFromPair(P, c1, c2, c, lo, k);
    }
    forall a: nat, b: nat | Meets(P1, P2, a, b) ensures (a, b) in pairs {
      MeetsSame(P, c1, c2, lo, a, b);
      assert pairs[a] == (a, a);
    }
    CommonApart(P, c1, c2, c, lo);
    JoinByPairs(Q, P1, P2, lo, lo + 1, pairs);
  }

  lemma SameFromPair(P: Partition, c1: Class, c2: Class, c: Class, lo: nat, k: nat)
    requires Valid(P + [c1], lo) && Intersection(c, c1, c2, lo) && c1.index != c2.index && k <= |P|
    ensures FromPair((P + [c])[k], P + [c1], P + [c2], k, k, lo, lo + 1)
  {
    assert (P + [c1])[k] in P + [c1];
    if k < |P| { assert P[k].members * P[k].members == P[k].members; }
  }

  lemma MeetsSame(P: Partition, c1: Class, c2: Class, lo: nat, a: nat, b: nat)
    requires Valid(P + [c1], lo) && Valid(P + [c2], lo) && Meets(P + [c1], P + [c2], a, b)
    ensures a == b && a <= |P|
  {
    var P1, P2 := P + [c1], P + [c2];
    if a < |P| { assert P1[a] == P2[a]; }
    if b < |P| { assert P1[b] == P2[b]; }
  }

  lemma CommonApart(P: Partition, c1: Class, c2: Class, c: Class, lo: nat)
    requires Valid(P + [c1], lo) && Valid(P + [c2], lo) && Intersection(c, c1, c2, lo) && c1.index != c2.index
    ensures Sorted(P + [c]) && Apart(P + [c])
  {
    var P1, Q := P + [c1], P + [c];
    forall i, j | 0 <= i < j < |Q| ensures Q[i].index < Q[j].index && Q[i].members !! Q[j].members {
      assert P1[i] in P1 && P1[j] in P1 && P1[i].index < P1[j].index && P1[i].members !! P1[j].members;
    }
    DisjointApart(Q);
  }

  lemma Outs3Valid()
    ensures Valid(OUT3, 9)
  {
    hide Valid;
    Pin3Valid();
    MoreValid(PIN3, KU, 8);
    assert OUT3 == PIN3 + [KU];
  }

  lemma MoreValid(P: Partition, c: Class, lo: nat)
    requires Valid(P, lo) && (forall j :: 0 <= j < |P| ==> P[j].members !! c.members) && c.leader.Some? && c.members != {} && 0 < lo <= c.index
    ensures Valid(P + [c], c.index + 1)
  {
    var Q := P + [c];
    forall i, j | 0 <= i < j < |Q| ensures Q[i].index < Q[j].index && Q[i].members !! Q[j].members {
      assert P[i] in P;
    }
  }

  lemma ValidWiden(P: Partition, lo: nat, hi: nat)
    requires Valid(P, lo) && lo <= hi
    ensures Valid(P, hi)
  {
  }

  lemma Join6()
    ensures Valid(OUT4, 11) && Valid(OUT5, 11) && IsJoin(PIN6, OUT4, OUT5, 11, 12)
  {
    hide Valid, IsJoin;
    Outs3Valid();
    OutsideOut3();
    MoreValid(OUT3, KV, 9);
    ValidWiden(OUT4, 10, 11);
    MoreValid(OUT3, KR, 9);
    KWIsIntersection();
    JoinCommon(OUT3, KV, KR, KW, 11);
  }

  lemma OutsideOut3()
    ensures forall j :: 0 <= j < |OUT3| ==> OUT3[j].members !! KV.members && OUT3[j].members !! KR.members
  {
  }

  lemma KWIsIntersection()
    ensures Intersection(KW, KV, KR, 11)
  {
    assert KV.members * KR.members == {W};
  }

  lemma Identify6()
    ensures Identify(OUT4, OUT5)
  {
    IdentifyCommon(OUT3, KV, KR, 9) by { Outs3Valid(); }
  }

  lemma IdentifyCommon(P: Partition, c1: Class, c2: Class, lo: nat)
    requires Valid(P, lo) && lo <= c1.index && lo <= c2.index && c1.index != c2.index
    ensures Identify(P + [c1], P + [c2])
  {
    var P1, P2 := P + [c1], P + [c2];
    forall a, b | 0 <= a < |P1| && 0 <= b < |P2| && P1[a].index == P2[b].index ensures P1[a].leader == P2[b].leader {
      if a < |P| { assert P[a] in P; }
      if b < |P| { assert P[b] in P; }
    }
  }

  // ----- the whole -----

  lemma PhisOfJoins()
    ensures PhisIn(JOIN1) == JOIN1[..2] && PhisIn(JOIN2) == JOIN2[..1]
    ensures PhisIn(TEST1) == [] && PhisIn(LEFT) == [] && PhisIn(RIGHT) == [] && PhisIn([]) == []
  {
    assert JOIN1[1..][1..][1..] == [] && JOIN2[1..][1..][1..] == [] && TEST1[1..] == [] && LEFT[1..] == [] && RIGHT[1..] == [];
    assert PhisIn(JOIN1[1..][1..]) == [] && PhisIn(JOIN2[1..][1..]) == [];
    assert PhisIn(JOIN1[1..]) == [JOIN1[1]] && PhisIn(JOIN2[1..]) == [];
  }

  lemma NoCopies(N: Numbering, b: nat)
    ensures Copies(N, [], b) == N
  {
  }

  lemma LeavesConstants(P: Partition)
    requires forall j :: 0 <= j < |P| ==> (P[j].expr == None || P[j].expr.value.Binary?) && forall n: int :: IntConst(n) !in P[j].members
    ensures ConstantsLead(P)
  {
  }

  lemma Below(P: Partition, next: nat, id: nat)
    requires Roomy(P, next, id)
    ensures forall c :: c in P ==> c.index < next
  {
  }

  lemma Solved0()
    ensures Solved(PROGRAM, 0, 1)
  {
    hide TransferJoin, Copies, IsJoin, Valid, Identify, ConstantsLead;
    Transfer0();
    NoCopies(Numbering(OUT0, 6), 0);
  }

  lemma Solved1(b: nat)
    requires b == 1 || b == 2
    ensures Solved(PROGRAM, b, 1)
  {
    hide TransferJoin, Copies, IsJoin, Valid, Identify, ConstantsLead;
    Nothing(b, Numbering(OUT0, 6));
    Below(OUT0, 6, 8);
    Copies1();
    Copies2();
    PinOf1(b);
  }

  lemma Solved3()
    ensures Solved(PROGRAM, 3, 1)
  {
    hide TransferJoin, Copies, IsJoin, Valid, Identify, ConstantsLead;
    Transfer3();
    NoCopies(Numbering(OUT3, 9), 3);
    Outs1Valid();
    Outs2Valid();
    ConstantsOut12();
    OutsIdentify();
    Join3();
    PinOf3();
  }

  lemma Solved4()
    ensures Solved(PROGRAM, 4, 1)
  {
    hide TransferJoin, Copies, IsJoin, Valid, Identify, ConstantsLead, Roomy;
    RoomyOut3(9, 8);
    Below(OUT3, 9, 8);
    Transfer4();
    Copies4();
  }

  lemma Solved5()
    ensures Solved(PROGRAM, 5, 1)
  {
    hide TransferJoin, Copies, IsJoin, Valid, Identify, ConstantsLead, Roomy;
    RoomyOut3(10, 8);
    Below(OUT3, 10, 8);
    Transfer5();
    Copies5();
  }

  lemma Solved6()
    ensures Solved(PROGRAM, 6, 1)
  {
    hide TransferJoin, Copies, IsJoin, Valid, Identify, ConstantsLead;
    Transfer6();
    NoCopies(Numbering(OUT6, 13), 6);
    ConstantsOut45();
    Identify6();
    Join6();
    PinOf6();
  }

  lemma ConstantsOut45()
    ensures ConstantsLead(OUT4) && ConstantsLead(OUT5)
  {
    hide ConstantsLead;
    LeavesConstants(OUT4);
    LeavesConstants(OUT5);
  }

  lemma ConstantsOut12()
    ensures ConstantsLead(OUT1) && ConstantsLead(OUT2)
  {
    hide ConstantsLead;
    LeavesConstants(OUT1);
    LeavesConstants(OUT2);
  }

  lemma PinOf1(b: nat)
    requires b == 1 || b == 2
    ensures PROGRAM.ends.Preds(b) == [0] && PROGRAM.Pin(b) == Numbering(OUT0, 6) && PROGRAM.Block(b) == []
    ensures PROGRAM.PhisAfter(b) == JOIN1[..2] && PROGRAM.ends == ENDS && ENDS.Out(0) == OUT0
    ensures ENDS.Out(1) == OUT1 && ENDS.Out(2) == OUT2
  {
  }

  lemma PinOf3()
    ensures PROGRAM.ends.Preds(3) == [1, 2] && PROGRAM.Pin(3) == Numbering(PIN3, 8) && PROGRAM.First(3) == 6
    ensures PROGRAM.Block(3) == JOIN1 && PROGRAM.PhisAfter(3) == [] && PROGRAM.ends == ENDS
    ensures ENDS.Out(1) == OUT1 && ENDS.Out(2) == OUT2 && ENDS.Out(3) == OUT3
  {
  }

  lemma PinOf6()
    ensures PROGRAM.ends.Preds(6) == [4, 5] && PROGRAM.Pin(6) == Numbering(PIN6, 12) && PROGRAM.First(6) == 11
    ensures PROGRAM.Block(6) == JOIN2 && PROGRAM.PhisAfter(6) == [] && PROGRAM.ends == ENDS
    ensures ENDS.Out(4) == OUT4 && ENDS.Out(5) == OUT5 && ENDS.Out(6) == OUT6
  {
  }

  /** The partitions are those the pass computes: every block's from those of its predecessors. */
  lemma ProgramSolved(b: nat)
    requires b <= 6
    ensures Solved(PROGRAM, b, 1)
  {
    hide Solved;
    if b == 0 { Solved0(); }
    if b == 1 || b == 2 { Solved1(b); }
    if b == 3 { Solved3(); }
    if b == 4 { Solved4(); }
    if b == 5 { Solved5(); }
    if b == 6 { Solved6(); }
  }

  lemma Nothing(b: nat, N: Numbering)
    ensures TransferJoin(ENDS, b, N, [], 1) == Some(N)
  {
  }

  lemma EntryArgs()
    ensures EntryClasses([A, B, C, D], 1) == ARGS
  {
    assert [A, B, C, D][1..] == [B, C, D] && [B, C, D][1..] == [C, D] && [C, D][1..] == [D] && [D][1..] == [];
    assert EntryClasses([D], 4) == [Own(4, D, {D})];
    assert EntryClasses([C, D], 3) == [Own(3, C, {C}), Own(4, D, {D})];
    assert EntryClasses([B, C, D], 2) == [Own(2, B, {B}), Own(3, C, {C}), Own(4, D, {D})];
  }

  // ----- the execution -----

  const BEFORE := Step(Step(Step(Start(0), 1, true), 3, true), 5, true)
  const WALK := Step(BEFORE, 6, false)

  const ARGUMENTS: seq<int> := [1, 2, 3, 4]
  const PHIS: set<nat> := {1, 2, 6}
  const ENV1: Env := map[0 := 1]
  const ENV3: Env := map[0 := 1, 1 := 1, 2 := 2, 3 := 0]
  const ENV5: Env := map[0 := 1, 1 := 1, 2 := 2, 3 := 0, 5 := 7]
  const ENV6: Env := map[0 := 1, 1 := 1, 2 := 2, 3 := 0, 5 := 7, 6 := 7, 7 := 3, 8 := 9]

  lemma RunTest1(M: Machine, w: IR.World)
    requires M.params == ARGUMENTS
    ensures ExecAll(TEST1, M, State(map[], w)) == Some(State(ENV1, w))
  {
    assert TEST1[1..] == [];
    assert Exec(TEST1[0], M, State(map[], w)) == Some(State(ENV1, w));
    assert ExecAll([], M, State(ENV1, w)) == Some(State(ENV1, w));
  }

  lemma RunTo1(M: Machine, w: IR.World)
    requires M.params == ARGUMENTS
    ensures ExecWalk(PROGRAM, Step(Start(0), 1, true), M, State(map[], w)) == Some(State(ENV1, w))
  {
    RunTest1(M, w);
    assert EntryState(PROGRAM, Start(0), M, State(map[], w)) == Some(State(map[], w));
    assert ExecWalk(PROGRAM, Start(0), M, State(map[], w)) == Some(State(ENV1, w));
    assert Enter([], 0, M, ENV1, ENV1) == Some(ENV1);
    WalkOn(PROGRAM, Step(Start(0), 1, true), M, State(map[], w), ENV1, State(ENV1, w));
  }

  lemma RunTo3(M: Machine, w: IR.World)
    requires M.params == ARGUMENTS
    ensures ExecWalk(PROGRAM, BEFORE.before, M, State(map[], w)) == Some(State(ENV3, w))
  {
    hide ExecWalk, ExecAll, Enter;
    RunTo1(M, w);
    EnterJoin1(M);
    RunJoin1(M, w);
    WalkOn(PROGRAM, BEFORE.before, M, State(map[], w), ENV1[1 := 1][2 := 2], State(ENV1, w));
  }

  lemma EnterJoin1(M: Machine)
    requires M.params == ARGUMENTS
    ensures Enter(JOIN1, 1, M, ENV1, ENV1) == Some(ENV1[1 := 1][2 := 2])
  {
    assert JOIN1[1..][0] == JOIN1[1] && JOIN1[1..][1..][0] == JOIN1[2] && JOIN1[1..][1..][1..] == [];
    var env := ENV1[1 := 1][2 := 2];
    assert Enter(JOIN1[1..][1..], 1, M, ENV1, env) == Some(env);
    assert Enter(JOIN1[1..], 1, M, ENV1, ENV1[1 := 1]) == Some(env);
  }

  lemma RunJoin1(M: Machine, w: IR.World)
    requires M.params == ARGUMENTS
    ensures ExecAll(JOIN1, M, State(ENV1[1 := 1][2 := 2], w)) == Some(State(ENV3, w))
  {
    var s := State(ENV1[1 := 1][2 := 2], w);
    assert JOIN1[1..][0] == JOIN1[1] && JOIN1[1..][1..][0] == JOIN1[2] && JOIN1[1..][1..][1..] == [];
    assert Exec(JOIN1[2], M, s) == Some(State(ENV3, w));
    assert ExecAll(JOIN1[1..][1..], M, s) == Some(State(ENV3, w));
    assert ExecAll(JOIN1[1..], M, s) == Some(State(ENV3, w));
  }

  /** One more block. */
  lemma WalkOn(p: Program, w: Walk, M: Machine, s: State, env: Env, s1: State)
    requires w.Step? && ExecWalk(p, w.before, M, s) == Some(s1)
    requires Enter(p.Block(w.b), w.before.b, M, s1.env, s1.env) == Some(env)
    ensures ExecWalk(p, w, M, s) == ExecAll(p.Block(w.b), M, s1.(env := env)) && EntryState(p, w, M, s) == Some(s1.(env := env))
  {
    hide ExecAll, Enter;
  }

  lemma RunTo5(M: Machine, w: IR.World)
    requires M.params == ARGUMENTS
    ensures ExecWalk(PROGRAM, BEFORE, M, State(map[], w)) == Some(State(ENV5, w))
  {
    RunTo3(M, w);
    assert RIGHT[1..] == [];
    assert Exec(RIGHT[0], M, State(ENV3, w)) == Some(State(ENV5, w));
    assert Enter(RIGHT, 3, M, ENV3, ENV3) == Some(ENV3);
    assert ExecAll(RIGHT, M, State(ENV3, w)) == Some(State(ENV5, w));
    WalkOn(PROGRAM, BEFORE, M, State(map[], w), ENV3, State(ENV3, w));
  }

  lemma EnterJoin2(M: Machine)
    ensures Enter(JOIN2, 5, M, ENV5, ENV5) == Some(ENV5[6 := 7])
  {
    assert JOIN2[1..][0] == JOIN2[1] && JOIN2[1..][1..][0] == JOIN2[2] && JOIN2[1..][1..][1..] == [];
    assert Enter(JOIN2[1..][1..], 5, M, ENV5, ENV5[6 := 7]) == Some(ENV5[6 := 7]);
    assert Enter(JOIN2[1..], 5, M, ENV5, ENV5[6 := 7]) == Some(ENV5[6 := 7]);
  }

  lemma RunJoin2(M: Machine, w: IR.World)
    ensures ExecAll(JOIN2, M, State(ENV5[6 := 7], w)) == Some(State(ENV6, w))
    ensures ExecAll(LAST, M, State(ENV5[6 := 7], w)) == Some(State(ENV6[8 := 49], w))
  {
    var s, s1 := State(ENV5[6 := 7], w), State(ENV5[6 := 7][7 := 3], w);
    assert JOIN2[1..][0] == JOIN2[1] && JOIN2[1..][1..][0] == JOIN2[2] && JOIN2[1..][1..][1..] == [];
    assert Exec(JOIN2[1], M, s) == Some(s1) && Exec(JOIN2[2], M, s1) == Some(State(ENV6, w));
    assert ExecAll(JOIN2[1..][1..], M, s1) == Some(State(ENV6, w));
    assert ExecAll(JOIN2[1..], M, s) == Some(State(ENV6, w));
    var r := LAST;
    assert r[1..][0] == r[1] && r[1..][1..][0] == r[2] && r[1..][1..][1..] == [];
    assert s1.env[8 := 49] == ENV6[8 := 49];
    assert Exec(r[1], M, s) == Some(s1) && Exec(r[2], M, s1) == Some(State(ENV6[8 := 49], w));
    assert ExecAll(r[1..][1..], M, s1) == Some(State(ENV6[8 := 49], w));
    assert ExecAll(r[1..], M, s) == Some(State(ENV6[8 := 49], w));
  }

  /** The uses of s are redirected to w. */
  lemma ReplacedJoin2()
    ensures ReplacedBlock(OUT6, PHIS, JOIN2) == LAST
  {
    HolderAt(OUT6, 5, X);
    HolderAt(OUT6, 6, Y);
    HolderAt(OUT6, 8, S);
    assert JOIN2[1..][0] == JOIN2[1] && JOIN2[1..][1..][0] == JOIN2[2] && JOIN2[1..][1..][1..] == [];
    assert ReplacedBlock(OUT6, PHIS, JOIN2[1..][1..]) == [Bin(8, IR.Mul, W, W)];
    assert ReplacedBlock(OUT6, PHIS, JOIN2[1..]) == [Bin(7, IR.Add, X, Y), Bin(8, IR.Mul, W, W)];
  }

  lemma {:induction false} HolderAt(P: Partition, k: nat, v: Value)
    requires k < |P| && v in P[k].members && forall j :: 0 <= j < k ==> v !in P[j].members
    ensures HolderOf(P, v) == Some(P[k])
  {
    if k > 0 { HolderAt(P[1..], k - 1, v); }
  }

  lemma KeptTest1()
    ensures ReplacedBlock(OUT0, PHIS, TEST1) == TEST1
  {
    HolderAt(OUT0, 0, A);
    HolderAt(OUT0, 2, C);
    OneReplaced(OUT0, TEST1[0]);
  }

  lemma KeptJoin1()
    ensures ReplacedBlock(OUT3, PHIS, JOIN1) == JOIN1
  {
    HolderAt(OUT3, 1, B);
    HolderAt(OUT3, 3, D);
    assert JOIN1[1..][0] == JOIN1[1] && JOIN1[1..][1..] == [JOIN1[2]];
    OneReplaced(OUT3, JOIN1[2]);
    assert ReplacedBlock(OUT3, PHIS, JOIN1[1..]) == [JOIN1[1], JOIN1[2]];
  }

  lemma KeptRight()
    ensures ReplacedBlock(OUT5, PHIS, RIGHT) == RIGHT
  {
    HolderAt(OUT5, 2, C);
    HolderAt(OUT5, 3, D);
    OneReplaced(OUT5, RIGHT[0]);
  }

  /** The phi's operands lead their classes at the ends of the blocks they come from. */
  predicate KeptPhi(b: nat, i: Inst) {
    i.Phi? ==> ReplacedOperand(ENDS, b, PHIS, i.from1, i.val1) == i.val1 && ReplacedOperand(ENDS, b, PHIS, i.from2, i.val2) == i.val2
  }

  lemma {:induction false} KeptPhis(b: nat, block: seq<Inst>)
    requires forall k :: 0 <= k < |block| ==> KeptPhi(b, block[k])
    ensures ReplacedPhis(ENDS, b, PHIS, block) == block
  {
    if block != [] {
      assert KeptPhi(b, block[0]);
      assert forall k :: 0 <= k < |block[1..]| ==> block[1..][k] == block[k + 1];
      KeptPhis(b, block[1..]);
    }
  }

  lemma KeptPhisOfJoins()
    ensures KeptPhi(3, JOIN1[0]) && KeptPhi(3, JOIN1[1]) && KeptPhi(6, JOIN2[0])
  {
    HolderAt(OUT1, 0, A);
    HolderAt(OUT1, 1, B);
    HolderAt(OUT2, 2, C);
    HolderAt(OUT2, 3, D);
    HolderAt(OUT4, 8, V);
    HolderAt(OUT5, 8, R);
  }

  lemma PhisKept(b: nat)
    requires b == 0 || b == 1 || b == 3 || b == 5
    ensures ReplacedPhis(ENDS, b, PHIS, PROGRAM.Block(b)) == PROGRAM.Block(b)
  {
    KeptPhisOfJoins();
    hide ReplacedOperand, ReplacedPhis;
    KeptPhis(b, PROGRAM.Block(b));
  }

  /** Before the second join nothing is replaced. */
  lemma NothingReplaced(b: nat)
    requires b == 0 || b == 1 || b == 3 || b == 5
    ensures ReplacedProgram(PROGRAM, PHIS).Block(b) == PROGRAM.Block(b)
  {
    hide ReplacedBlock, ReplacedPhis, ReplacedProgram;
    PhisKept(b);
    BlockKept(b);
    ReplacedBlockIs(PROGRAM, b, PHIS);
  }

  lemma BlockKept(b: nat)
    requires b == 0 || b == 1 || b == 3 || b == 5
    ensures ReplacedBlock(PROGRAM.ends.Out(b), PHIS, PROGRAM.Block(b)) == PROGRAM.Block(b) && PROGRAM.ends == ENDS
  {
    hide ReplacedBlock;
    if b == 0 { KeptTest1(); }
    if b == 1 { assert PROGRAM.Block(1) == []; KeptNothing(PROGRAM.ends.Out(1)); }
    if b == 3 { KeptJoin1(); }
    if b == 5 { KeptRight(); }
  }

  lemma KeptNothing(P: Partition)
    ensures ReplacedBlock(P, PHIS, []) == []
  {
  }

  /** The last block as the pass leaves it. */
  const LAST: seq<Inst> := [JOIN2[0], Bin(7, IR.Add, X, Y), Bin(8, IR.Mul, W, W)]

  lemma LastReplaced()
    ensures ReplacedProgram(PROGRAM, PHIS).Block(6) == LAST
  {
    ReplacedJoin2();
    KeptPhisOfJoins();
    hide ReplacedOperand, ReplacedPhis, ReplacedBlock;
    KeptPhis(6, LAST);
    assert PROGRAM.ends == ENDS && PROGRAM.Block(6) == JOIN2 && ENDS.Out(6) == OUT6;
    ReplacedBlockIs(PROGRAM, 6, PHIS);
  }

  lemma OneReplaced(P: Partition, i: Inst)
    ensures ReplacedBlock(P, PHIS, [i]) == [ReplacedInst(P, PHIS, i)]
  {
    assert [i][1..] == [];
  }

  predicate Visits(w: Walk, b: nat) {
    w.b == b || (w.Step? && Visits(w.before, b))
  }

  lemma {:induction false} SameWalk(p: Program, q: Program, w: Walk, M: Machine, s: State)
    requires forall b :: Visits(w, b) ==> p.Block(b) == q.Block(b)
    ensures ExecWalk(p, w, M, s) == ExecWalk(q, w, M, s)
  {
    hide ExecAll, Enter;
    if w.Step? { SameWalk(p, q, w.before, M, s); }
    assert Visits(w, w.b);
  }

  lemma ReplacedBefore(M: Machine, w: IR.World)
    requires M.params == ARGUMENTS
    ensures ExecWalk(ReplacedProgram(PROGRAM, PHIS), BEFORE, M, State(map[], w)) == Some(State(ENV5, w))
  {
    hide ExecWalk, ReplacedBlock;
    forall b | Visits(BEFORE, b) ensures ReplacedProgram(PROGRAM, PHIS).Block(b) == PROGRAM.Block(b) {
      VisitsBefore(b);
      NothingReplaced(b);
    }
    SameWalk(ReplacedProgram(PROGRAM, PHIS), PROGRAM, BEFORE, M, State(map[], w));
    RunTo5(M, w);
  }

  lemma VisitsBefore(b: nat)
    requires Visits(BEFORE, b)
    ensures b == 0 || b == 1 || b == 3 || b == 5
  {
    assert Visits(BEFORE, b) <==> b == 5 || Visits(BEFORE.before, b);
    assert Visits(BEFORE.before, b) <==> b == 3 || Visits(BEFORE.before.before, b);
    assert Visits(BEFORE.before.before, b) <==> b == 1 || Visits(Start(0), b);
  }

  lemma EnterReplacedJoin2(M: Machine)
    ensures Enter(LAST, 5, M, ENV5, ENV5) == Some(ENV5[6 := 7])
  {
    assert LAST[1..][0] == LAST[1] && LAST[1..][1..][0] == LAST[2] && LAST[1..][1..][1..] == [];
    assert Enter(LAST[1..][1..], 5, M, ENV5, ENV5[6 := 7]) == Some(ENV5[6 := 7]);
    assert Enter(LAST[1..], 5, M, ENV5, ENV5[6 := 7]) == Some(ENV5[6 := 7]);
  }

  lemma Steps()
    ensures Along(PROGRAM, 0, 1, true) && Along(PROGRAM, 1, 3, true) && Along(PROGRAM, 3, 5, true) && Along(PROGRAM, 5, 6, false)
  {
    PhisOfJoins();
  }

  lemma WalkIsSolved()
    ensures WalkSolved(PROGRAM, WALK, 1)
  {
    hide Solved, Along;
    Steps();
    forall b: nat | b <= 6 ensures Solved(PROGRAM, b, 1) { ProgramSolved(b); }
    assert WalkSolved(PROGRAM, Start(0), 1);
    assert WalkSolved(PROGRAM, BEFORE.before.before, 1);
    assert WalkSolved(PROGRAM, BEFORE.before, 1);
    assert WalkSolved(PROGRAM, BEFORE, 1);
  }

  lemma RunTo6(M: Machine, w: IR.World)
    requires M.params == ARGUMENTS
    ensures ExecWalk(PROGRAM, WALK, M, State(map[], w)) == Some(State(ENV6, w))
  {
    hide ExecWalk, ExecAll, Enter;
    RunTo5(M, w);
    EnterJoin2(M);
    RunJoin2(M, w);
    WalkOn(PROGRAM, WALK, M, State(map[], w), ENV5[6 := 7], State(ENV5, w));
  }

  lemma RunReplaced(M: Machine, w: IR.World)
    requires M.params == ARGUMENTS
    ensures ExecWalk(ReplacedProgram(PROGRAM, PHIS), WALK, M, State(map[], w)) == Some(State(ENV6[8 := 49], w))
  {
    hide ExecWalk, ExecAll, Enter, ReplacedBlock;
    RunJoin2(M, w);
    ReplacedBefore(M, w);
    EnterReplacedJoin2(M);
    LastReplaced();
    var q := ReplacedProgram(PROGRAM, PHIS);
    WalkOn(q, WALK, M, State(map[], w), ENV5[6 := 7], State(ENV5, w));
  }

  lemma TogetherInOne()
    ensures InOne(PROGRAM.ends.Out(6), S, W)
  {
    assert OUT6[8] in OUT6;
  }

  /** On the arguments 1, 2, 3, 4 the program computes t = 9. The pass, whose partitions are as
      computed from block to block, puts s = x + y, which is 3, into the class of w, which is 7;
      with the uses of s replaced by w the program computes t = 49. */
  lemma InheritedPhiMisleads(M: Machine, w: IR.World)
    requires M.params == ARGUMENTS
    ensures PROGRAM.Pin(0) == Numbering(EntryClasses([A, B, C, D], 1), 5) && WalkSolved(PROGRAM, WALK, 1)
    ensures InOne(PROGRAM.ends.Out(6), S, W)
    ensures ExecWalk(PROGRAM, WALK, M, State(map[], w)) == Some(State(ENV6, w))
    ensures Val(S, M, ENV6) == Some(3) && Val(W, M, ENV6) == Some(7) && Val(T, M, ENV6) == Some(9)
    ensures var s := ExecWalk(ReplacedProgram(PROGRAM, PHIS), WALK, M, State(map[], w));
            s.Some? && Val(T, M, s.value.env) == Some(49)
  {
    hide ExecWalk, WalkSolved, ReplacedProgram, EntryClasses, InOne;
    EntryArgs();
    WalkIsSolved();
    TogetherInOne();
    RunTo6(M, w);
    RunReplaced(M, w);
  }
}
