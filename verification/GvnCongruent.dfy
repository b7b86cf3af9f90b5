// What a round of value numbering finds equal in settled blocks.
module GvnCongruent {
  import opened Wrappers
  import opened Gvn
  import opened GvnTransfer
  import opened GvnSound
  import opened GvnJoin
  import opened GvnPath
  import opened GvnTidy
  import opened GvnRedirect
  import opened GvnComplete
  import opened GvnFlow
  import opened GvnRound
  import opened GvnWhole

  /** At the end of b each instruction that makes a value is in a class, those that do the same to equal operands are in
      one, and the phis of the successors are known as what they take from b. */
  ghost predicate FindsEqual(F: Fn, b: nat, P: Partition)
    requires F.Valid() && b < |F.code|
  {
    && (forall i, j :: i in F.code[b] && j in F.code[b] && DoTheSame(P, i, j) ==> InOne(P, Instr(i.id), Instr(j.id)))
    && (forall i :: i in F.code[b] && MakesValue(i) ==> InOne(P, Instr(i.id), Instr(i.id)))
    && TakenFrom(P, F.PhisAfter(b), b, P)
  }

  /** Nothing is used in b before it has been made: nothing that the block makes later, and no phi of a successor. */
  ghost predicate UsesMade(F: Fn, b: nat)
    requires F.Valid() && b < |F.code|
  {
    MadeBefore(F.code[b], PhisOf(F.PhisAfter(b)))
  }

  /** Block b from its start to its end, when it is in SSA form and its partition on entry is tidy. */
  lemma BlockPassed(F: Fn, G: Ends, b: nat, N: Numbering, fuel: nat)
    requires F.Valid() && b < |F.code| && BlockForm(F, b) && TidyBefore(F, b, N.classes, N.next) && 0 < N.next
    requires TransferJoin(G, b, N, F.code[b], fuel).Some?
    ensures var N1 := TransferJoin(G, b, N, F.code[b], fuel).value;
            Begins(N, F.code[b]) && PhisApart(N1.classes, F.PhisAfter(b)) && Tidy(N1) && 0 < N1.next
    ensures Tidy(Copies(TransferJoin(G, b, N, F.code[b], fuel).value, F.PhisAfter(b), b))
  {
    hide Tidy, NewTo, NamedBefore, NamedBy, TransferJoin, Copies, Fn.PhisAfter;
    NewBefore(F, b, N.classes, N.next);
    BlockTidy(G, b, N, F.code[b], fuel, PhiIds(F.PhisAfter(b)));
    FreshLess(F.code[b], PhiIds(F.PhisAfter(b)), {});
    CopiesTidy(TransferJoin(G, b, N, F.code[b], fuel).value, F.PhisAfter(b), b);
  }

  /** Names of what is no phi of a successor are the same before the copies and after them. */
  lemma CopiesLeave(N: Numbering, succ: seq<Inst>, b: nat)
    requires Tidy(N) && 0 < N.next && PhisApart(N.classes, succ)
    ensures TakenFrom(Copies(N, succ, b).classes, succ, b, Copies(N, succ, b).classes)
  {
    hide Tidy, NewTo, Copies, GrowsBy, NamedAs;
    CopiesAreKnown(N, succ, b);
    var P, R := N.classes, Copies(N, succ, b).classes;
    forall i | i in succ && i.Phi?
      ensures (i.from1 == b ==> NamedAs(R, i.val1, R, Instr(i.id))) && (i.from2 == b ==> NamedAs(R, i.val2, R, Instr(i.id)))
    {
      if i.from1 == b { NamedThen(P, i.val1, R, Instr(i.id), PhisOf(succ)); }
      if i.from2 == b { NamedThen(P, i.val2, R, Instr(i.id), PhisOf(succ)); }
    }
  }

  lemma NamedThen(P: Partition, v: Value, R: Partition, w: Value, A: set<Value>)
    requires NamedAs(P, v, R, w) && GrowsBy(P, R, A) && v !in A
    ensures NamedAs(R, v, R, w)
  {
    hide GrowsBy, KnownAs;
    var l :| KnownAs(P, v, l) && KnownAs(R, w, l);
    KnownStays(P, R, A, v, l);
  }

  /** At the end of a block, after the copies, an instruction is in the first class that has its operation on what its
      operands are known as there, or its value phi. */
  lemma VisitPlaces(F: Fn, G: Ends, b: nat, N: Numbering, fuel: nat, x: nat, e: Expr)
    requires F.Valid() && b < |F.code| && BlockForm(F, b) && TidyBefore(F, b, N.classes, N.next) && 0 < N.next && UsesMade(F, b)
    requires TransferJoin(G, b, N, F.code[b], fuel).Some? && x < |F.code[b]| && HasValue(F.code[b][x]) && !F.code[b][x].Load?
    requires Expresses(Copies(TransferJoin(G, b, N, F.code[b], fuel).value, F.PhisAfter(b), b).classes, F.code[b][x], e)
    ensures var R := Copies(TransferJoin(G, b, N, F.code[b], fuel).value, F.PhisAfter(b), b).classes;
            var phi := ValuePhi(G, b, e, R, fuel);
            phi.Answer? && InFirst(R, Instr(F.code[b][x].id), e, phi.expr)
  {
    hide TransferJoin, Copies, Expresses, InFirst, GrowsBy, ValuePhi, Fn.PhisAfter, Begins, Tidy, NewTo, Uses;
    BlockPassed(F, G, b, N, fuel);
    var N1, succ, i := TransferJoin(G, b, N, F.code[b], fuel).value, F.PhisAfter(b), F.code[b][x];
    var R := Copies(N1, succ, b).classes;
    CopiesAreKnown(N1, succ, b);
    assert forall v :: Uses(i, v) ==> v !in PhisOf(succ);
    ExpressesStays(N1.classes, R, PhisOf(succ), i, e);
    ValuePhiStays(G, b, e, N1.classes, R, PhisOf(succ), fuel);
    BlockPlaces(G, b, N, F.code[b], fuel, x, e);
    FirstStays(N1.classes, R, PhisOf(succ), Instr(i.id), e, ValuePhi(G, b, e, N1.classes, fuel).expr);
  }

  /** Instructions of a block that do the same to equal operands are in one class at its end. */
  lemma VisitCongruent(F: Fn, G: Ends, b: nat, N: Numbering, fuel: nat, x: nat, y: nat)
    requires F.Valid() && b < |F.code| && BlockForm(F, b) && TidyBefore(F, b, N.classes, N.next) && 0 < N.next && UsesMade(F, b)
    requires TransferJoin(G, b, N, F.code[b], fuel).Some? && x < |F.code[b]| && y < |F.code[b]|
    requires DoTheSame(Copies(TransferJoin(G, b, N, F.code[b], fuel).value, F.PhisAfter(b), b).classes, F.code[b][x], F.code[b][y])
    ensures InOne(Copies(TransferJoin(G, b, N, F.code[b], fuel).value, F.PhisAfter(b), b).classes,
                  Instr(F.code[b][x].id), Instr(F.code[b][y].id))
  {
    hide TransferJoin, Copies, Expresses, InFirst, Equal, ValuePhi, Fn.PhisAfter, BlockForm, Tidy, TidyBefore, UsesMade;
    var N2 := Copies(TransferJoin(G, b, N, F.code[b], fuel).value, F.PhisAfter(b), b);
    var i, j, R := F.code[b][x], F.code[b][y], N2.classes;
    BlockPassed(F, G, b, N, fuel);
    TidyParts(N2);
    var e := ValueExpr(R, i);
    ExpressesIs(R, i, e);
    SameExpresses(R, i, j, e);
    VisitPlaces(F, G, b, N, fuel, x, e);
    VisitPlaces(F, G, b, N, fuel, y, e);
    SameFirst(R, Instr(i.id), Instr(j.id), e, ValuePhi(G, b, e, R, fuel).expr);
  }

  lemma TidyParts(N: Numbering)
    requires Tidy(N)
    ensures Disjoint(N.classes) && Home(N.classes) && forall c :: c in N.classes ==> c.leader.Some?
  {
  }

  /** The visit of a block finds what is equal in it. */
  lemma VisitFinds(F: Fn, G: Ends, b: nat, N: Numbering, fuel: nat)
    requires F.Valid() && b < |F.code| && BlockForm(F, b) && TidyBefore(F, b, N.classes, N.next) && 0 < N.next && UsesMade(F, b)
    requires TransferJoin(G, b, N, F.code[b], fuel).Some?
    ensures FindsEqual(F, b, Copies(TransferJoin(G, b, N, F.code[b], fuel).value, F.PhisAfter(b), b).classes)
  {
    hide UsesMade, BlockForm, TidyBefore, Equal, InOne, GrowsBy, TransferJoin, Copies, Fn.PhisAfter, Begins, Tidy, NewTo;
    var N1 := TransferJoin(G, b, N, F.code[b], fuel).value;
    var P := Copies(N1, F.PhisAfter(b), b).classes;
    BlockPassed(F, G, b, N, fuel);
    CopiesLeave(N1, F.PhisAfter(b), b);
    CopiesAreKnown(N1, F.PhisAfter(b), b);
    forall i | i in F.code[b] && MakesValue(i) ensures InOne(P, Instr(i.id), Instr(i.id)) {
      var x :| 0 <= x < |F.code[b]| && F.code[b][x] == i;
      BlockKnows(G, b, N, F.code[b], fuel, x);
      TogetherStay(N1.classes, P, PhisOf(F.PhisAfter(b)), Instr(i.id), Instr(i.id));
    }
    forall i, j | i in F.code[b] && j in F.code[b] && DoTheSame(P, i, j) ensures InOne(P, Instr(i.id), Instr(j.id)) {
      var x, y :| 0 <= x < |F.code[b]| && 0 <= y < |F.code[b]| && F.code[b][x] == i && F.code[b][y] == j;
      VisitCongruent(F, G, b, N, fuel, x, y);
    }
  }

  /** From a tidy partition, a block in SSA form. */
  ghost predicate FindsFrom(F: Fn, b: nat, N: Numbering, P: Partition)
    requires F.Valid() && b < |F.code|
  {
    BlockForm(F, b) && UsesMade(F, b) && TidyBefore(F, b, N.classes, N.next) ==> FindsEqual(F, b, P)
  }

  lemma VisitFindsFrom(F: Fn, G: Ends, b: nat, N: Numbering, fuel: nat)
    requires F.Valid() && b < |F.code| && 0 < N.next && TransferJoin(G, b, N, F.code[b], fuel).Some?
    ensures FindsFrom(F, b, N, Copies(TransferJoin(G, b, N, F.code[b], fuel).value, F.PhisAfter(b), b).classes)
  {
    hide UsesMade, BlockForm, TidyBefore, FindsEqual, TransferJoin, Copies, Fn.PhisAfter;
    if BlockForm(F, b) && UsesMade(F, b) && TidyBefore(F, b, N.classes, N.next) { VisitFinds(F, G, b, N, fuel); }
  }

  /** A visit that starts from classes for arguments and global variables. */
  lemma EntryFinds(F: Fn, G: Ends, b: nat, next: nat, fuel: nat)
    requires F.Valid() && SsaForm(F) && b < |F.code| && 0 < next && UsesMade(F, b)
    requires TransferJoin(G, b, Numbering(EntryClasses(F.vars, next), next + |F.vars|), F.code[b], fuel).Some?
    ensures var N := Numbering(EntryClasses(F.vars, next), next + |F.vars|);
            FindsEqual(F, b, Copies(TransferJoin(G, b, N, F.code[b], fuel).value, F.PhisAfter(b), b).classes)
  {
    hide UsesMade, FindsEqual, TransferJoin, Copies, Fn.PhisAfter, Tidy, NewTo, EntryClasses;
    assert BlockForm(F, b);
    EntryTidy(F.vars, next);
    VisitFinds(F, G, b, Numbering(EntryClasses(F.vars, next), next + |F.vars|), fuel);
  }

  /** After a round, what is equal in a settled block has been found. */
  lemma RoundFinds(F: Fn, T: Tables, next: nat, fuel: nat, b: nat)
    requires F.Valid() && SsaForm(F) && SolvedTo(F, T, |F.code|, next, fuel) && b < |F.code| && Settled(F, b) && UsesMade(F, b)
    ensures FindsEqual(F, b, Part(T.pout, b))
  {
    hide TidyAt, TidyBefore, UsesMade, FindsEqual, TransferJoin, Copies, Fn.PhisAfter;
    assert SolvedAt(F, T, b, next, fuel) && BlockForm(F, b);
    VisitFinds(F, Ends(F.Preds(), T.pout), b, Numbering(T.pin[b], T.joins[b]), fuel);
  }

  /** What a round finds in all settled blocks. */
  ghost predicate FindsAll(F: Fn, pout: map<nat, Partition>)
    requires F.Valid()
  {
    SsaForm(F) ==> forall b: nat {:trigger FindsEqual(F, b, Part(pout, b))} ::
      b < |F.code| && Settled(F, b) && UsesMade(F, b) ==> FindsEqual(F, b, Part(pout, b))
  }

  lemma RoundFindsAll(F: Fn, T: Tables, next: nat, fuel: nat)
    requires F.Valid() && SolvedTo(F, T, |F.code|, next, fuel)
    ensures FindsAll(F, T.pout)
  {
    hide SolvedTo, Settled, SsaForm, UsesMade, FindsEqual;
    if SsaForm(F) {
      forall b: nat {:trigger FindsEqual(F, b, Part(T.pout, b))} | b < |F.code| && Settled(F, b) && UsesMade(F, b)
        ensures FindsEqual(F, b, Part(T.pout, b))
      {
        RoundFinds(F, T, next, fuel, b);
      }
    }
  }
}
