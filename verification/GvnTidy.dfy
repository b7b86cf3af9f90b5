// What every partition of the pass keeps, whatever is executed: classes apart, numbers in order,
// leaders at home.
module GvnTidy {
  import opened Wrappers
  import opened Gvn
  import opened GvnTransfer
  import opened GvnSound
  import opened GvnJoin
  import opened GvnPath

  /** The leader of a class is a member of no other class, and constants are members of none. */
  ghost predicate Home(P: Partition) {
    && (forall i, j :: 0 <= i < |P| && 0 <= j < |P| && P[i].leader.Some? && P[i].leader.value in P[j].members ==> i == j)
    && (forall i, n: int :: 0 <= i < |P| ==> IntConst(n) !in P[i].members)
  }

  /** No class knows the instruction yet. */
  ghost predicate NewTo(P: Partition, id: nat) {
    forall i :: 0 <= i < |P| ==> Instr(id) !in P[i].members && P[i].leader != Some(Instr(id))
  }

  ghost predicate Tidy(N: Numbering) {
    Valid(N.classes, N.next) && ConstantsLead(N.classes) && Home(N.classes)
  }

  // ----- placing an instruction -----

  lemma AddedTidy(N: Numbering, P': Partition, k: nat, id: nat)
    requires Tidy(N) && NewTo(N.classes, id) && AddedAt(N.classes, P', k, Instr(id))
    ensures Tidy(N.(classes := P'))
    ensures forall x :: x != id && NewTo(N.classes, x) ==> NewTo(P', x)
  {
    hide ConstantsLead, Home;
    var P := N.classes;
    AddedConstantsLead(P, P', k, id);
    AddedHome(P, P', k, id);
    forall i, j | 0 <= i < j < |P'| ensures P'[i].members !! P'[j].members && P'[i].index < P'[j].index {
      assert P[i].members !! P[j].members;
    }
    forall c | c in P' ensures 0 < c.index < N.next && c.leader.Some? && c.members != {} {
      var i: nat :| i < |P'| && P'[i] == c;
      assert P[i] in P;
    }
  }

  lemma AddedHome(P: Partition, P': Partition, k: nat, id: nat)
    requires Home(P) && NewTo(P, id) && AddedAt(P, P', k, Instr(id))
    ensures Home(P')
  {
  }

  lemma SnocTidy(N: Numbering, c: Class, id: nat)
    requires Tidy(N) && NewTo(N.classes, id) && c.members == {Instr(id)} && c.index == N.next && 0 < N.next
    requires ConstantsLead(N.classes + [c])
    requires c.leader.Some? && (c.leader.value == Instr(id) || forall j :: 0 <= j < |N.classes| ==> c.leader.value !in N.classes[j].members)
    ensures Tidy(Numbering(N.classes + [c], N.next + 1))
    ensures forall x :: x != id && NewTo(N.classes, x) && c.leader != Some(Instr(x)) ==> NewTo(N.classes + [c], x)
  {
    hide ConstantsLead;
    var P := N.classes;
    var Q := P + [c];
    forall i, j | 0 <= i < j < |Q| ensures Q[i].members !! Q[j].members && Q[i].index < Q[j].index {
      assert P[i] in P;
    }
  }

  lemma LeaderIs(P: Partition, i: Inst)
    requires HasValue(i) && NewLeader(P, i).Some?
    ensures NewLeader(P, i).value == Instr(i.id) || NewLeader(P, i).value.IntConst?
  {
  }

  lemma PlaceTidy(N: Numbering, i: Inst, vpf: Option<Expr>)
    requires Tidy(N) && 0 < N.next && HasValue(i) && NewTo(N.classes, i.id) && (i.Load? ==> !i.addr.IntConst?)
    requires Place(N, i, ValueExpr(N.classes, i), vpf).Some?
    ensures var r := Place(N, i, ValueExpr(N.classes, i), vpf).value;
            Tidy(r) && N.next <= r.next && forall x :: x != i.id && NewTo(N.classes, x) ==> NewTo(r.classes, x)
  {
    hide FirstMatch, ConstantsLead, NewLeader, Home, NewTo, ValueExpr;
    var P, ve := N.classes, ValueExpr(N.classes, i);
    PlaceConstantsLead(N, i, vpf);
    AddToMatchIs(P, ve, vpf, Instr(i.id));
    if !i.Load? && FirstMatch(P, ve, vpf).Some? {
      AddedTidy(N, AddToMatch(P, ve, vpf, Instr(i.id)).value, FirstMatch(P, ve, vpf).value, i.id);
    } else {
      var c := Class(N.next, NewLeader(P, i), Some(ve), None, {Instr(i.id)});
      InsertLast(P, c);
      LeaderIs(P, i);
      NoConstants(P);
      SnocTidy(N, c, i.id);
    }
  }

  lemma NoConstants(P: Partition)
    requires Home(P)
    ensures forall j, n: int :: 0 <= j < |P| ==> IntConst(n) !in P[j].members
  {
  }

  lemma NewIsAbsent(P: Partition, id: nat)
    requires NewTo(P, id)
    ensures Without(P, Instr(id)) == P
  {
    WithoutNothing(P, Instr(id));
  }

  lemma JoinOneTidy(G: Ends, b: nat, N: Numbering, i: Inst, fuel: nat)
    requires Tidy(N) && 0 < N.next && (HasValue(i) ==> NewTo(N.classes, i.id)) && (i.Load? ==> !i.addr.IntConst?)
    requires JoinOne(G, b, N, i, fuel).Some?
    ensures var r := JoinOne(G, b, N, i, fuel).value;
            Tidy(r) && N.next <= r.next && forall x :: (HasValue(i) ==> x != i.id) && NewTo(N.classes, x) ==> NewTo(r.classes, x)
  {
    hide Tidy, NewTo, Place, ValueExpr, ValuePhi;
    if HasValue(i) {
      NewIsAbsent(N.classes, i.id);
      match ValuePhi(G, b, ValueExpr(N.classes, i), N.classes, fuel) {
        case TooDeep =>
        case Answer(vpf) => PlaceTidy(N, i, vpf);
      }
    }
  }

  /** The registers of the block are new to the partition. */
  ghost predicate AllNew(P: Partition, block: seq<Inst>) {
    forall i :: i in block && HasValue(i) ==> NewTo(P, i.id)
  }

  /** The transfer function keeps partitions tidy. */
  lemma {:induction false} BlockTidy(G: Ends, b: nat, N: Numbering, block: seq<Inst>, fuel: nat, made: set<nat>)
    requires Tidy(N) && 0 < N.next && AllNew(N.classes, block) && Fresh(block, made) && AddressesVary(block)
    requires TransferJoin(G, b, N, block, fuel).Some?
    ensures Tidy(TransferJoin(G, b, N, block, fuel).value) && N.next <= TransferJoin(G, b, N, block, fuel).value.next
    ensures forall x :: x in made && NewTo(N.classes, x) ==> NewTo(TransferJoin(G, b, N, block, fuel).value.classes, x)
    decreases block
  {
    hide Tidy, NewTo, JoinOne;
    if block != [] {
      var i := block[0];
      assert i in block && forall j :: j in block[1..] ==> j in block;
      JoinOneTidy(G, b, N, i, fuel);
      var made' := if HasValue(i) then made + {i.id} else made;
      FreshLater(block[1..], made');
      BlockTidy(G, b, JoinOne(G, b, N, i, fuel).value, block[1..], fuel, made');
    }
  }

  lemma {:induction false} FreshLater(block: seq<Inst>, made: set<nat>)
    requires Fresh(block, made)
    ensures forall i :: i in block && HasValue(i) ==> i.id !in made
  {
    if block != [] {
      FreshLater(block[1..], if HasValue(block[0]) then made + {block[0].id} else made);
      assert forall i :: i in block ==> i == block[0] || i in block[1..];
    }
  }

  // ----- copies -----

  /** The registers of the phis. */
  function PhiIds(block: seq<Inst>): (r: set<nat>)
    ensures forall i :: i in block && i.Phi? ==> i.id in r
  {
    set i | i in block && i.Phi? :: i.id
  }

  /** The registers among the operands of the phis. */
  function PhiOperands(block: seq<Inst>): (r: set<nat>)
    ensures forall i :: i in block && i.Phi? ==> (i.val1.Instr? ==> i.val1.id in r) && (i.val2.Instr? ==> i.val2.id in r)
  {
    (set i | i in block && i.Phi? && i.val1.Instr? :: i.val1.id) + (set i | i in block && i.Phi? && i.val2.Instr? :: i.val2.id)
  }

  /** The phis are new to the partition, and no phi takes the value of another. */
  ghost predicate PhisApart(P: Partition, succ: seq<Inst>) {
    && PhisNew(succ, {})
    && (forall i :: i in succ && i.Phi? ==> NewTo(P, i.id))
    && (forall i, j :: i in succ && j in succ && i.Phi? && j.Phi? ==> i.val1 != Instr(j.id) && i.val2 != Instr(j.id))
  }

  lemma CopyTidy(N: Numbering, phi: nat, v: Value)
    requires Tidy(N) && 0 < N.next && NewTo(N.classes, phi) && v != Instr(phi)
    ensures Tidy(Copy(N, phi, v)) && N.next <= Copy(N, phi, v).next
    ensures forall x :: x != phi && NewTo(N.classes, x) && v != Instr(x) ==> NewTo(Copy(N, phi, v).classes, x)
  {
    hide Takes, ConstantsLead, Home, NewTo;
    var P := N.classes;
    NewIsAbsent(P, phi);
    if Taken(P, v) {
      var k: nat :| k < |P| && Takes(P[k], v);
      AddCopyIs(P, v, phi, k);
      AddedTidy(N, AddCopy(P, v, phi), k, phi);
    } else {
      var c := Class(N.next, Some(v), Some(Leaf(v)), None, {Instr(phi)});
      assert forall d :: d in P ==> d.index < N.next;
      InsertLast(P, c);
      forall d | d in P ensures v.IntConst? ==> d.expr != Some(Leaf(v)) {
        var j: nat :| j < |P| && P[j] == d;
        NotTaken(P, v, j);
      }
      SnocConstantsLead(P, c);
      NotMember(P, v);
      SnocTidy(N, c, phi);
    }
  }

  lemma NotMember(P: Partition, v: Value)
    requires !Taken(P, v)
    ensures forall j :: 0 <= j < |P| ==> v !in P[j].members
  {
    forall j | 0 <= j < |P| ensures v !in P[j].members { assert !Takes(P[j], v); }
  }

  /** The copies at the end of a block keep partitions tidy. */
  lemma {:induction false} CopiesTidy(N: Numbering, succ: seq<Inst>, b: nat)
    requires Tidy(N) && 0 < N.next && PhisApart(N.classes, succ)
    ensures Tidy(Copies(N, succ, b)) && N.next <= Copies(N, succ, b).next
    ensures forall x :: NewTo(N.classes, x) && (forall i :: i in succ && i.Phi? ==> i.id != x && i.val1 != Instr(x) && i.val2 != Instr(x)) ==>
              NewTo(Copies(N, succ, b).classes, x)
    decreases succ
  {
    hide Tidy, NewTo, Copy;
    if succ != [] {
      var i := succ[0];
      assert i in succ && forall k :: 0 <= k < |succ[1..]| ==> succ[1..][k] == succ[k + 1] && succ[1..][k] in succ;
      if i.Phi? && i.from1 == b {
        CopyTidy(N, i.id, i.val1);
        CopiesTidy(Copy(N, i.id, i.val1), succ[1..], b);
      } else if i.Phi? && i.from2 == b {
        CopyTidy(N, i.id, i.val2);
        CopiesTidy(Copy(N, i.id, i.val2), succ[1..], b);
      } else {
        CopiesTidy(N, succ[1..], b);
      }
    }
  }

  // ----- the join and the entry -----

  lemma PairHome(c: Class, d: Class, P1: Partition, P2: Partition, a: nat, b: nat, a': nat, b': nat, lo: nat, next: nat)
    requires Home(P1) && Home(P2) && Disjoint(P1) && Disjoint(P2) && Identify(P1, P2)
    requires FromPair(c, P1, P2, a, b, lo, next) && FromPair(d, P1, P2, a', b', lo, next)
    requires c.leader.Some? && c.leader.value in d.members
    ensures a == a' && b == b'
  {
  }

  /** The join keeps partitions tidy. */
  lemma JoinTidy(P: Partition, P1: Partition, P2: Partition, lo: nat, next: nat)
    requires Tidy(Numbering(P1, lo)) && Tidy(Numbering(P2, lo)) && Identify(P1, P2) && IsJoin(P, P1, P2, lo, next)
    ensures Tidy(Numbering(P, next)) && lo <= next
    ensures forall x :: NewTo(P1, x) && NewTo(P2, x) ==> NewTo(P, x)
  {
    hide HasPair, HasClass, Meets, ConstantsLead, Home, Identify;
    JoinConstantsLead(P, P1, P2, lo, next);
    JoinIsValid(P, P1, P2, lo, next);
    forall c | c in P ensures c.leader.Some? {
      assert HasPair(c, P1, P2, |P1|, 0, lo, next);
      var a, b := PairOf(c, P1, P2, |P1|, 0, lo, next);
      PairLeader(c, P1, P2, a, b, lo, next);
    }
    forall i: nat, j: nat | i < |P| && j < |P| && P[i].leader.Some? && P[i].leader.value in P[j].members ensures i == j {
      assert P[i] in P && P[j] in P;
      assert HasPair(P[i], P1, P2, |P1|, 0, lo, next) && HasPair(P[j], P1, P2, |P1|, 0, lo, next);
      var a, b := PairOf(P[i], P1, P2, |P1|, 0, lo, next);
      var a', b' := PairOf(P[j], P1, P2, |P1|, 0, lo, next);
      PairHome(P[i], P[j], P1, P2, a, b, a', b', lo, next);
      SamePair(P, P1, P2, lo, next, i, j, a, b);
    }
    NoConstantMembers(P);
    HomeBy(P);
    forall x | NewTo(P1, x) && NewTo(P2, x) ensures NewTo(P, x) {
      forall i: nat | i < |P| ensures Instr(x) !in P[i].members && P[i].leader != Some(Instr(x)) {
        assert P[i] in P;
        assert HasPair(P[i], P1, P2, |P1|, 0, lo, next);
        var a, b := PairOf(P[i], P1, P2, |P1|, 0, lo, next);
      }
    }
  }

  lemma NoConstantMembers(P: Partition)
    requires ConstantsLead(P)
    ensures forall i, n: int :: 0 <= i < |P| ==> IntConst(n) !in P[i].members
  {
  }

  lemma HomeBy(P: Partition)
    requires forall i: nat, j: nat :: i < |P| && j < |P| && P[i].leader.Some? && P[i].leader.value in P[j].members ==> i == j
    requires forall i, n: int :: 0 <= i < |P| ==> IntConst(n) !in P[i].members
    ensures Home(P)
  {
  }

  lemma PairLeader(c: Class, P1: Partition, P2: Partition, a: nat, b: nat, lo: nat, next: nat)
    requires Identify(P1, P2) && FromPair(c, P1, P2, a, b, lo, next)
    ensures c.leader.Some?
  {
  }

  /** The classes of arguments and globals are tidy. */
  lemma {:induction false} EntryTidy(vs: seq<Value>, next: nat)
    requires 0 < next && (forall v :: v in vs ==> v.Param? || v.GlobalVar?) && (forall i, j :: 0 <= i < j < |vs| ==> vs[i] != vs[j])
    ensures Tidy(Numbering(EntryClasses(vs, next), next + |vs|))
    ensures forall id :: NewTo(EntryClasses(vs, next), id)
    ensures |EntryClasses(vs, next)| == |vs|
    ensures forall k :: 0 <= k < |vs| ==> EntryClasses(vs, next)[k] == Class(next + k, Some(vs[k]), None, None, {vs[k]})
  {
    hide Home, ConstantsLead;
    EntryAt(vs, next);
    EntryConstants(vs, next);
    var P := EntryClasses(vs, next);
    OwnHome(P, vs, next);
    forall c | c in P ensures 0 < c.index < next + |vs| && c.leader.Some? && c.members != {} {
      var k: nat :| k < |P| && P[k] == c;
    }
    forall i | 0 <= i < |P| ensures vs[i] in vs {}
  }

  lemma OwnHome(P: Partition, vs: seq<Value>, next: nat)
    requires (forall v :: v in vs ==> v.Param? || v.GlobalVar?) && (forall i, j :: 0 <= i < j < |vs| ==> vs[i] != vs[j])
    requires |P| == |vs| && forall k :: 0 <= k < |vs| ==> P[k] == Class(next + k, Some(vs[k]), None, None, {vs[k]})
    ensures Home(P)
  {
    forall i | 0 <= i < |P| ensures vs[i] in vs {}
  }

  lemma {:induction false} EntryAt(vs: seq<Value>, next: nat)
    ensures |EntryClasses(vs, next)| == |vs|
    ensures forall k :: 0 <= k < |vs| ==> EntryClasses(vs, next)[k] == Class(next + k, Some(vs[k]), None, None, {vs[k]})
  {
    if vs != [] { EntryAt(vs[1..], next + 1); }
  }
}
