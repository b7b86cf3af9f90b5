// Global value numbering: values, value expressions, congruence classes and their join.
module Gvn {
  import opened Wrappers
  import IR

  /** What an operand can be; an instruction is named by its number. */
  datatype Value = IntConst(n: int) | Param(k: nat) | GlobalVar(g: nat) | FuncVar(f: nat) | Instr(id: nat)

  datatype Kind = GepKind | PureCall | ZextKind

  /** A value expression. The expression of an impure call or an alloca is like no other, so it
      carries the instruction it was made for. */
  datatype Expr =
    | Leaf(c: Value)
    | Binary(op: IR.BinOp, lhs: Expr, rhs: Expr)
    | PhiOf(lhs: Expr, rhs: Expr)
    | Multi(ops: seq<Expr>, kind: Kind)
    | Unique(ops: seq<Expr>, id: nat)

  /** The index of the class that stands for "not computed yet". */
  const TOP_INDEX: nat := 0xFFFF_FFFF_FFFF_FFFF

  datatype Class = Class(index: nat, leader: Option<Value>, expr: Option<Expr>, phi: Option<Expr>, members: set<Value>)

  /** Classes in the order of their value numbers. */
  type Partition = seq<Class>

  ghost predicate Sorted(P: Partition) {
    forall i, j :: 0 <= i < j < |P| ==> P[i].index < P[j].index
  }

  /** A class is lost if its number is taken. */
  function Insert(P: Partition, c: Class): Partition {
    if P == [] then [c]
    else if c.index < P[0].index then [c] + P
    else if c.index == P[0].index then P
    else [P[0]] + Insert(P[1..], c)
  }

  lemma {:induction false} InsertMembers(P: Partition, c: Class)
    requires Sorted(P) && forall x :: x in P ==> x.index != c.index
    ensures Sorted(Insert(P, c)) && forall x :: x in Insert(P, c) <==> x in P || x == c
  {
    if P != [] && c.index > P[0].index {
      assert P[0] in P;
      assert forall x :: x in P[1..] ==> x in P;
      InsertMembers(P[1..], c);
      var Q := Insert(P[1..], c);
      forall i, j | 0 <= i < j < |[P[0]] + Q| ensures ([P[0]] + Q)[i].index < ([P[0]] + Q)[j].index {
        if i == 0 {
          assert Q[j - 1] in Q;
          if Q[j - 1] in P[1..] { var m :| 0 <= m < |P[1..]| && P[1..][m] == Q[j - 1]; assert P[m + 1] == Q[j - 1]; }
        }
      }
      assert forall x :: x in P <==> x == P[0] || x in P[1..];
    } else if P != [] {
      assert P[0] in P;
    }
  }

  lemma {:induction false} InsertLast(P: Partition, c: Class)
    requires forall x :: x in P ==> x.index < c.index
    ensures Insert(P, c) == P + [c]
  {
    if P != [] {
      assert P[0] in P;
      assert forall x :: x in P[1..] ==> x in P;
      InsertLast(P[1..], c);
      assert [P[0]] + (P[1..] + [c]) == P + [c];
    }
  }

  ghost predicate Disjoint(P: Partition) {
    forall i, j :: 0 <= i < j < |P| ==> P[i].members !! P[j].members
  }

  ghost predicate InOne(P: Partition, x: Value, y: Value) {
    exists c :: c in P && x in c.members && y in c.members
  }

  /** Classes with numbers of their own below `next`, no value in two of them. */
  ghost predicate Valid(P: Partition, next: nat) {
    && Sorted(P) && Disjoint(P)
    && forall c :: c in P ==> 0 < c.index < next && c.leader.Some? && c.members != {}
  }

  /** The class of a partition that has not been computed yet. */
  const TOP: Class := Class(TOP_INDEX, None, None, None, {})

  /** Classes in order below `next`; the top class may stand behind them. */
  ghost predicate Orderly(P: Partition, next: nat) {
    && Sorted(P)
    && forall c :: c in P ==> c == TOP || (0 < c.index < next && c.leader.Some? && c.members != {})
  }

  function Members(P: Partition): (r: set<Value>)
    ensures forall v :: v in r <==> exists c :: c in P && v in c.members
  {
    set c, v | c in P && v in c.members :: v
  }

  /** c is what intersecting a and b yields; `number` is the one it gets if theirs differ. */
  ghost predicate Intersection(c: Class, a: Class, b: Class, number: nat) {
    && a.leader.Some? && b.leader.Some?
    && c.members == a.members * b.members && c.members != {}
    && c.expr == (if a.expr == b.expr then a.expr else None)
    && (if a.index == b.index
        then c.index == a.index && c.leader == (if a.leader == b.leader then a.leader else None)
             && c.phi == (if a.phi == b.phi then a.phi else None)
        else c.index == number && c.phi == Some(PhiOf(Leaf(a.leader.value), Leaf(b.leader.value)))
             && c.leader.Some? && (if a.leader == b.leader then c.leader == a.leader else c.leader.value in c.members))
  }

  /** Pairs before (i, j) in the order of the two nested loops. */
  predicate Before(a: nat, b: nat, i: nat, j: nat) {
    a < i || (a == i && b < j)
  }

  ghost predicate FromPair(c: Class, P1: Partition, P2: Partition, a: nat, b: nat, lo: nat, next: nat)
  {
    && a < |P1| && b < |P2|
    && Intersection(c, P1[a], P2[b], c.index)
    && (P1[a].index != P2[b].index ==> lo <= c.index < next)
  }

  ghost predicate Apart(P: Partition) {
    forall c, d :: c in P && d in P && c != d ==> c.members !! d.members
  }

  /** The class comes from a pair before (i, j). */
  ghost predicate HasPair(c: Class, P1: Partition, P2: Partition, i: nat, j: nat, lo: nat, next: nat) {
    exists a: nat, b: nat :: Before(a, b, i, j) && FromPair(c, P1, P2, a, b, lo, next)
  }

  /** The pair has left a class. */
  ghost predicate HasClass(P: Partition, P1: Partition, P2: Partition, a: nat, b: nat, lo: nat, next: nat) {
    exists c :: c in P && FromPair(c, P1, P2, a, b, lo, next)
  }

  ghost predicate Meets(P1: Partition, P2: Partition, a: nat, b: nat) {
    a < |P1| && b < |P2| && P1[a].members * P2[b].members != {}
  }

  /** The classes made from the pairs before (i, j). */
  ghost predicate Paired(P: Partition, P1: Partition, P2: Partition, i: nat, j: nat, lo: nat, next: nat) {
    && Sorted(P) && lo <= next
    && (forall c {:trigger HasPair(c, P1, P2, i, j, lo, next)} :: c in P ==> HasPair(c, P1, P2, i, j, lo, next))
    && (forall a: nat, b: nat {:trigger HasClass(P, P1, P2, a, b, lo, next)} ::
          Meets(P1, P2, a, b) && Before(a, b, i, j) ==> HasClass(P, P1, P2, a, b, lo, next))
  }

  /** The same, with nothing in common. */
  ghost predicate Joined(P: Partition, P1: Partition, P2: Partition, i: nat, j: nat, lo: nat, next: nat) {
    Paired(P, P1, P2, i, j, lo, next) && Apart(P)
  }

  lemma PairOf(c: Class, P1: Partition, P2: Partition, i: nat, j: nat, lo: nat, next: nat) returns (a: nat, b: nat)
    requires HasPair(c, P1, P2, i, j, lo, next)
    ensures Before(a, b, i, j) && FromPair(c, P1, P2, a, b, lo, next) && P1[a] in P1 && P2[b] in P2
  {
    a, b :| Before(a, b, i, j) && FromPair(c, P1, P2, a, b, lo, next);
  }

  lemma NumberIsFree(P: Partition, P1: Partition, P2: Partition, i: nat, j: nat, lo: nat, next: nat, index: nat)
    requires Orderly(P1, lo) && Orderly(P2, lo) && Paired(P, P1, P2, i, j, lo, next) && Meets(P1, P2, i, j)
    requires if P1[i].index == P2[j].index then index == P1[i].index else index == next
    ensures forall c :: c in P ==> c.index != index
  {
    hide HasPair;
    forall c | c in P ensures c.index != index {
      assert HasPair(c, P1, P2, i, j, lo, next);
      var a, b := PairOf(c, P1, P2, i, j, lo, next);
      assert P1[i] in P1 && P2[j] in P2;
    }
  }

  /** A new class has nothing in common with those made before. */
  lemma NewIsApart(P: Partition, P1: Partition, P2: Partition, i: nat, j: nat, lo: nat, next: nat, c: Class)
    requires Disjoint(P1) && Disjoint(P2) && i < |P1| && j < |P2| && Paired(P, P1, P2, i, j, lo, next)
    requires c.members == P1[i].members * P2[j].members
    ensures forall x :: x in P ==> x.members !! c.members
  {
    hide HasPair, HasClass, Sorted, Apart;
    forall x | x in P ensures x.members !! c.members {
      assert HasPair(x, P1, P2, i, j, lo, next);
      var a, b := PairOf(x, P1, P2, i, j, lo, next);
    }
  }

  /** What was made from earlier pairs stays so. */
  lemma HasPairMore(c: Class, P1: Partition, P2: Partition, i: nat, j: nat, i': nat, j': nat, lo: nat, next: nat, next': nat)
    requires HasPair(c, P1, P2, i, j, lo, next) && next <= next'
    requires forall a: nat, b: nat :: Before(a, b, i, j) && b < |P2| ==> Before(a, b, i', j')
    ensures HasPair(c, P1, P2, i', j', lo, next')
  {
    var a, b := PairOf(c, P1, P2, i, j, lo, next);
    assert Before(a, b, i', j') && FromPair(c, P1, P2, a, b, lo, next');
  }

  lemma HasClassMore(P: Partition, Q: Partition, P1: Partition, P2: Partition, a: nat, b: nat, lo: nat, next: nat, next': nat)
    requires HasClass(P, P1, P2, a, b, lo, next) && next <= next' && forall x :: x in P ==> x in Q
    ensures HasClass(Q, P1, P2, a, b, lo, next')
  {
    var c :| c in P && FromPair(c, P1, P2, a, b, lo, next);
    assert c in Q && FromPair(c, P1, P2, a, b, lo, next');
  }

  /** One more pair, with a class. */
  lemma PairedStep(P: Partition, P1: Partition, P2: Partition, i: nat, j: nat, lo: nat, next: nat, c: Class, next': nat)
    requires Orderly(P1, lo) && Orderly(P2, lo) && i < |P1| && j < |P2| && Paired(P, P1, P2, i, j, lo, next)
    requires Intersection(c, P1[i], P2[j], next) && next' == (if P1[i].index == P2[j].index then next else next + 1)
    ensures Paired(Insert(P, c), P1, P2, i, j + 1, lo, next')
    ensures Disjoint(P1) && Disjoint(P2) && Apart(P) ==> Apart(Insert(P, c))
  {
    hide HasPair, HasClass, Orderly, Insert;
    NumberIsFree(P, P1, P2, i, j, lo, next, c.index);
    InsertMembers(P, c);
    if Disjoint(P1) && Disjoint(P2) && Apart(P) { NewIsApart(P, P1, P2, i, j, lo, next, c); }
    var Q := Insert(P, c);
    assert FromPair(c, P1, P2, i, j, lo, next');
    forall x {:trigger HasPair(x, P1, P2, i, j + 1, lo, next')} | x in Q ensures HasPair(x, P1, P2, i, j + 1, lo, next') {
      if x in P {
        assert HasPair(x, P1, P2, i, j, lo, next);
        HasPairMore(x, P1, P2, i, j, i, j + 1, lo, next, next');
      } else {
        PairIs(x, P1, P2, i, j, lo, next');
      }
    }
    forall a: nat, b: nat {:trigger HasClass(Q, P1, P2, a, b, lo, next')} | Meets(P1, P2, a, b) && Before(a, b, i, j + 1)
      ensures HasClass(Q, P1, P2, a, b, lo, next')
    {
      if Before(a, b, i, j) {
        assert HasClass(P, P1, P2, a, b, lo, next);
        HasClassMore(P, Q, P1, P2, a, b, lo, next, next');
      } else {
        ClassIs(Q, c, P1, P2, a, b, lo, next');
      }
    }
  }

  lemma PairIs(c: Class, P1: Partition, P2: Partition, i: nat, j: nat, lo: nat, next: nat)
    requires FromPair(c, P1, P2, i, j, lo, next)
    ensures HasPair(c, P1, P2, i, j + 1, lo, next)
  {
    assert Before(i, j, i, j + 1);
  }

  lemma ClassIs(P: Partition, c: Class, P1: Partition, P2: Partition, a: nat, b: nat, lo: nat, next: nat)
    requires c in P && FromPair(c, P1, P2, a, b, lo, next)
    ensures HasClass(P, P1, P2, a, b, lo, next)
  {
  }

  /** Moving past pairs that have nothing in common. */
  lemma PairedMove(P: Partition, P1: Partition, P2: Partition, i: nat, j: nat, i': nat, j': nat, lo: nat, next: nat)
    requires Paired(P, P1, P2, i, j, lo, next)
    requires forall a: nat, b: nat :: Before(a, b, i, j) && b < |P2| ==> Before(a, b, i', j')
    requires forall a: nat, b: nat :: Before(a, b, i', j') && Meets(P1, P2, a, b) ==> Before(a, b, i, j)
    ensures Paired(P, P1, P2, i', j', lo, next)
  {
    hide HasPair, HasClass, Meets;
    forall x {:trigger HasPair(x, P1, P2, i', j', lo, next)} | x in P ensures HasPair(x, P1, P2, i', j', lo, next) {
      assert HasPair(x, P1, P2, i, j, lo, next);
      HasPairMore(x, P1, P2, i, j, i', j', lo, next, next);
    }
  }

  /** All pairs have been intersected. */
  ghost predicate IsJoin(P: Partition, P1: Partition, P2: Partition, lo: nat, next: nat) {
    Joined(P, P1, P2, |P1|, 0, lo, next)
  }

  lemma ClassesOf(P: Partition, x: Value, y: Value) returns (a: nat)
    requires InOne(P, x, y)
    ensures a < |P| && P[a] in P && x in P[a].members && y in P[a].members
  {
    var c :| c in P && x in c.members && y in c.members;
    a :| a < |P| && P[a] == c;
  }

  /** The join is the meet of the two partitions: two values share a class of it exactly if they
      share one in both. */
  lemma JoinIsMeet(P: Partition, P1: Partition, P2: Partition, lo: nat, next: nat, x: Value, y: Value)
    requires Valid(P1, lo) && Valid(P2, lo) && IsJoin(P, P1, P2, lo, next)
    ensures InOne(P, x, y) <==> InOne(P1, x, y) && InOne(P2, x, y)
  {
    hide HasPair, HasClass, Valid, Sorted;
    if InOne(P, x, y) {
      var k := ClassesOf(P, x, y);
      assert HasPair(P[k], P1, P2, |P1|, 0, lo, next);
      var a, b := PairOf(P[k], P1, P2, |P1|, 0, lo, next);
    }
    if InOne(P1, x, y) && InOne(P2, x, y) {
      var a := ClassesOf(P1, x, y);
      var b := ClassesOf(P2, x, y);
      assert x in P1[a].members * P2[b].members;
      assert Meets(P1, P2, a, b) && Before(a, b, |P1|, 0);
      assert HasClass(P, P1, P2, a, b, lo, next);
      ClassShares(P, P1, P2, a, b, lo, next, x, y);
    }
  }

  lemma ClassShares(P: Partition, P1: Partition, P2: Partition, a: nat, b: nat, lo: nat, next: nat, x: Value, y: Value)
    requires HasClass(P, P1, P2, a, b, lo, next) && Meets(P1, P2, a, b)
    requires x in P1[a].members && y in P1[a].members && x in P2[b].members && y in P2[b].members
    ensures InOne(P, x, y)
  {
    var c :| c in P && FromPair(c, P1, P2, a, b, lo, next);
    assert c in P && x in c.members && y in c.members;
  }

  /** The class of a value in the join, from its classes in the two partitions: what both say is kept; a class whose
      number differs gets a new one, and the two leaders, front first, for its value phi. */
  lemma JoinKeeps(P: Partition, P1: Partition, P2: Partition, lo: nat, next: nat, v: Value, a: Class, b: Class, c: Class)
    requires Valid(P1, lo) && Valid(P2, lo) && IsJoin(P, P1, P2, lo, next)
    requires a in P1 && b in P2 && c in P && v in a.members && v in b.members && v in c.members
    ensures forall w :: w in c.members <==> w in a.members && w in b.members
    ensures c.expr == (if a.expr == b.expr then a.expr else None) && (a.leader == b.leader ==> c.leader == a.leader)
    ensures a.index == b.index ==> c.index == a.index && (a.phi == b.phi ==> c.phi == a.phi)
    ensures a.index != b.index ==>
              && lo <= c.index < next && c.phi == Some(PhiOf(Leaf(a.leader.value), Leaf(b.leader.value)))
              && c.leader.Some? && (a.leader != b.leader ==> c.leader.value in c.members)
  {
    hide HasPair, HasClass, Sorted;
    assert HasPair(c, P1, P2, |P1|, 0, lo, next);
    var i, j := PairOf(c, P1, P2, |P1|, 0, lo, next);
    OneClass(P1, P1[i], a, v);
    OneClass(P2, P2[j], b, v);
  }

  lemma OneClass(P: Partition, c: Class, d: Class, v: Value)
    requires Disjoint(P) && c in P && d in P && v in c.members && v in d.members
    ensures c == d
  {
    var i, j :| 0 <= i < |P| && 0 <= j < |P| && P[i] == c && P[j] == d;
  }

  /** The classes of the join are disjoint, not empty, and numbered apart. */
  lemma JoinIsValid(P: Partition, P1: Partition, P2: Partition, lo: nat, next: nat)
    requires Valid(P1, lo) && Valid(P2, lo) && IsJoin(P, P1, P2, lo, next)
    ensures Sorted(P) && Disjoint(P)
    ensures forall c :: c in P ==> 0 < c.index < next && c.members != {}
  {
    hide HasPair, HasClass;
    forall c | c in P ensures 0 < c.index < next && c.members != {} {
      assert HasPair(c, P1, P2, |P1|, 0, lo, next);
      var a, b := PairOf(c, P1, P2, |P1|, 0, lo, next);
    }
    forall i, j | 0 <= i < j < |P| ensures P[i].members !! P[j].members {
      assert P[i] in P && P[j] in P && P[i].index < P[j].index;
    }
  }
}
