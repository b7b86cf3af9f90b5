// One visit of a block in the first round: from what is known at its predecessors to what is known at
// its end.
module GvnRound {
  import opened Wrappers
  import IR
  import opened Gvn
  import opened GvnTransfer
  import opened GvnSound
  import opened GvnJoin
  import opened GvnPath
  import opened GvnValues
  import opened GvnFlow

  // ----- at the end of a block -----

  /** The partition at the end of b has exactly the values not missing there, or is the one of blocks not
      computed yet if nothing is known. */
  ghost predicate Kept(F: Fn, b: nat, P: Partition, next: nat)
    requires F.Valid()
  {
    && Orderly(P, next)
    && (if Carries(F, b) then (forall v :: v in Members(P) <==> !Missing(F, b, v)) && (TOP in P ==> Members(P) != {})
        else P == [TOP])
  }

  lemma KeptLater(F: Fn, b: nat, P: Partition, next: nat, next': nat)
    requires F.Valid() && Kept(F, b, P, next) && next <= next'
    ensures Kept(F, b, P, next')
  {
  }

  lemma TopOnly(P: Partition, next: nat)
    requires Orderly(P, next) && TOP in P && Members(P) == {}
    ensures P == [TOP]
  {
    assert forall c, v :: c in P && v in c.members ==> v in Members(P);
    forall i | 0 <= i < |P| ensures P[i] == TOP { assert P[i] in P; }
    OneNumber(P);
  }

  lemma OneNumber(P: Partition)
    requires Sorted(P) && P != [] && forall i :: 0 <= i < |P| ==> P[i].index == P[0].index
    ensures |P| == 1
  {
    var n := |P| - 1;
    assert P[n].index == P[0].index;
  }

  lemma EmptyIff(P: Partition, next: nat)
    requires Orderly(P, next) && TOP !in P
    ensures P == [] <==> Members(P) == {}
  {
    if P != [] {
      assert P[0] in P;
      var v :| v in P[0].members;
      assert v in Members(P);
    }
  }

  /** The join reads a first class that is not there exactly where every value is missing, and finds the
      top class exactly where nothing is known. */
  lemma KeptMeans(F: Fn, b: nat, P: Partition, next: nat)
    requires F.Valid() && Kept(F, b, P, next)
    ensures P == [] <==> NothingAt(F, b)
    ensures P == [TOP] <==> !Carries(F, b)
    ensures P != [] && next <= TOP_INDEX ==> (P[0].index == TOP_INDEX <==> P == [TOP])
  {
    hide Carries, Missing;
    if P != [] { FirstIsTop(P, next); }
    if Carries(F, b) {
      assert forall v :: v in Members(P) <==> !Missing(F, b, v);
      if TOP !in P { EmptyIff(P, next); }
    }
  }

  lemma FirstIsTop(P: Partition, next: nat)
    requires Orderly(P, next) && P != []
    ensures next <= TOP_INDEX ==> (P[0].index == TOP_INDEX <==> P == [TOP])
  {
    assert P[0] in P;
    if 2 <= |P| { assert P[1] in P && P[0].index < P[1].index; }
  }

  // ----- on entry -----

  /** A value is missing on entry to b: at one of the known predecessors. */
  ghost predicate MissingBefore(F: Fn, b: nat, v: Value)
    requires F.Valid()
  {
    exists a: nat :: Arc(F, a, b) && Carries(F, a) && Missing(F, a, v)
  }

  /** The partition on entry to b. */
  ghost predicate Entered(F: Fn, b: nat, P: Partition, next: nat)
    requires F.Valid()
  {
    && Orderly(P, next)
    && (if Starts(F, b) then P == [TOP]
        else (forall v :: v in Members(P) <==> !MissingBefore(F, b, v)) && (TOP in P ==> Members(P) != {}))
  }

  /** What is known at predecessor a when b is visited. */
  ghost predicate KeptFor(F: Fn, a: nat, b: nat, P: Partition, next: nat)
    requires F.Valid()
  {
    if Arc(F, a, b) then Kept(F, a, P, next) else P == [TOP]
  }

  lemma OneEntered(F: Fn, b: nat, P: Partition, next: nat)
    requires F.Valid() && b < |F.code| && |F.preds[b]| == 1 && KeptFor(F, F.preds[b][0], b, P, next)
    ensures Entered(F, b, P, next)
  {
    hide Carries, Missing;
    var a := F.preds[b][0];
    assert forall x: nat :: Arc(F, x, b) ==> x == a;
    if Arc(F, a, b) && Carries(F, a) {
      assert !Starts(F, b);
      forall v ensures MissingBefore(F, b, v) <==> Missing(F, a, v) {}
    }
  }

  /** The join where the front predecessor is not known: what is known at the back one. */
  lemma BackEntered(F: Fn, b: nat, P: Partition, next: nat)
    requires F.Valid() && b < |F.code| && |F.preds[b]| == 2 && KeptFor(F, F.preds[b][1], b, P, next)
    requires Arc(F, F.preds[b][0], b) ==> !Carries(F, F.preds[b][0])
    ensures Entered(F, b, P, next)
  {
    hide Carries, Missing;
    OtherEntered(F, b, F.preds[b][0], F.preds[b][1], P, next);
  }

  lemma FrontEntered(F: Fn, b: nat, P: Partition, next: nat)
    requires F.Valid() && b < |F.code| && |F.preds[b]| == 2 && KeptFor(F, F.preds[b][0], b, P, next)
    requires Arc(F, F.preds[b][1], b) ==> !Carries(F, F.preds[b][1])
    ensures Entered(F, b, P, next)
  {
    hide Carries, Missing;
    OtherEntered(F, b, F.preds[b][1], F.preds[b][0], P, next);
  }

  lemma OtherEntered(F: Fn, b: nat, unknown: nat, a: nat, P: Partition, next: nat)
    requires F.Valid() && b < |F.code| && |F.preds[b]| == 2 && KeptFor(F, a, b, P, next)
    requires F.preds[b] == [unknown, a] || F.preds[b] == [a, unknown]
    requires Arc(F, unknown, b) ==> !Carries(F, unknown)
    ensures Entered(F, b, P, next)
  {
    hide Carries, Missing;
    assert forall x: nat :: Arc(F, x, b) ==> x == a || x == unknown;
    if Arc(F, a, b) && Carries(F, a) {
      assert !Starts(F, b);
      forall v ensures MissingBefore(F, b, v) <==> Missing(F, a, v) {}
    }
  }

  /** The join of two known partitions. */
  lemma BothEntered(F: Fn, b: nat, P: Partition, P1: Partition, P2: Partition, lo: nat, next: nat)
    requires F.Valid() && b < |F.code| && |F.preds[b]| == 2
    requires Arc(F, F.preds[b][0], b) && Kept(F, F.preds[b][0], P1, lo) && Carries(F, F.preds[b][0])
    requires Arc(F, F.preds[b][1], b) && Kept(F, F.preds[b][1], P2, lo) && Carries(F, F.preds[b][1])
    requires Alike(P1, P2) && Paired(P, P1, P2, |P1|, 0, lo, next)
    ensures Entered(F, b, P, next)
  {
    hide Carries, Missing, Paired, Orderly;
    var a, c := F.preds[b][0], F.preds[b][1];
    JoinValues(P, P1, P2, lo, next);
    assert forall x: nat :: Arc(F, x, b) ==> x == a || x == c;
    assert !Starts(F, b);
    forall v ensures MissingBefore(F, b, v) <==> Missing(F, a, v) || Missing(F, c, v) {}
  }

  // ----- through the block -----

  /** The visit of a block with predecessors. */
  lemma VisitKept(F: Fn, b: nat, N: Numbering, N': Numbering)
    requires F.Valid() && b < |F.code| && F.Visited(b) && Entered(F, b, N.classes, N.next)
    requires Adds(N, N', F.Made(b))
    ensures Kept(F, b, N'.classes, N'.next)
  {
    hide Carries, Missing, Orderly, Carried, Fn.Made;
    CarriesStep(F, b);
    if Starts(F, b) {
      if F.Made(b) == {} {
        TopOnly(N'.classes, N'.next);
      } else {
        forall v ensures v in Members(N'.classes) <==> !Missing(F, b, v) { MissingStep(F, b, v); }
      }
    } else {
      forall v ensures v in Members(N'.classes) <==> !Missing(F, b, v) { MissingStep(F, b, v); }
    }
  }

  lemma MadeIs(F: Fn, b: nat)
    requires F.Valid() && b < |F.code| && !F.Root(b)
    ensures F.Made(b) == Valued(F.code[b]) + Copied(F.PhisAfter(b), b)
  {
  }

  /** The visit of a block without predecessors. */
  lemma RootKept(F: Fn, b: nat, N: Numbering, N': Numbering, made: set<Value>)
    requires F.Valid() && b < |F.code| && F.Root(b) && Orderly(N.classes, N.next) && TOP !in N.classes
    requires Adds(N, N', made) && Members(N.classes) + made == F.Made(b)
    ensures Kept(F, b, N'.classes, N'.next)
  {
    hide Carries, Missing, Orderly, Carried, Fn.Made;
    CarriesStep(F, b);
    assert Starts(F, b);
    forall v ensures v in Members(N'.classes) <==> !Missing(F, b, v) { MissingStep(F, b, v); }
  }

  /** A class for every argument and global variable, in order. */
  lemma EntryOrderly(vs: seq<Value>, P: Partition, next: nat)
    requires 0 < next && |P| == |vs|
    requires forall k :: 0 <= k < |vs| ==> P[k] == Class(next + k, Some(vs[k]), None, None, {vs[k]})
    ensures Orderly(P, next + |vs|) && TOP !in P && Members(P) == (set v | v in vs) && Carried([], P, next)
  {
    forall v | v in vs ensures v in Members(P) {
      var k: nat :| k < |vs| && vs[k] == v;
      assert P[k] in P;
    }
  }

  /** A block is visited: the transfer function and the copies. */
  lemma BlockAdds(G: Ends, b: nat, N: Numbering, block: seq<Inst>, succ: seq<Inst>, fuel: nat)
    requires Orderly(N.classes, N.next) && 0 < N.next && TransferJoin(G, b, N, block, fuel).Some?
    requires TOP in N.classes ==> Copies(TransferJoin(G, b, N, block, fuel).value, succ, b).next <= TOP_INDEX
    ensures Adds(N, Copies(TransferJoin(G, b, N, block, fuel).value, succ, b), Valued(block) + Copied(succ, b))
  {
    hide TransferJoin, Copies, Orderly, Carried;
    var N1 := TransferJoin(G, b, N, block, fuel).value;
    CopiesGrow(N1, succ, b);
    TransferValues(G, b, N, block, fuel);
    CopiesValues(N1, succ, b);
    AddsTrans(N, N1, Copies(N1, succ, b), Valued(block), Copied(succ, b));
  }

  // ----- visits that cannot fail -----

  predicate Undivided(block: seq<Inst>) {
    forall i :: i in block && i.Bin? ==> !i.op.SDiv?
  }

  lemma {:induction false} UndividedTransfers(G: Ends, b: nat, N: Numbering, block: seq<Inst>, fuel: nat)
    requires |G.Preds(b)| != 2 && Undivided(block)
    ensures TransferJoin(G, b, N, block, fuel).Some?
    decreases block
  {
    hide JoinOne;
    if block != [] {
      var i := block[0];
      assert i in block && forall j :: j in block[1..] ==> j in block;
      UndividedOne(G, b, N, i, fuel);
      UndividedTransfers(G, b, JoinOne(G, b, N, i, fuel).value, block[1..], fuel);
    }
  }

  lemma UndividedOne(G: Ends, b: nat, N: Numbering, i: Inst, fuel: nat)
    requires |G.Preds(b)| != 2 && (i.Bin? ==> !i.op.SDiv?)
    ensures JoinOne(G, b, N, i, fuel).Some?
  {
    hide ValueExpr;
    if HasValue(i) { NoPhiWithoutJoin(G, b, ValueExpr(Without(N.classes, Instr(i.id)), i), Without(N.classes, Instr(i.id)), fuel); }
  }

  // ----- the round -----

  function Part(pout: map<nat, Partition>, a: nat): Partition { if a in pout then pout[a] else [] }

  /** Block a has been visited, in this round or before all rounds. */
  predicate Past(F: Fn, a: nat, k: nat) { F.Root(a) || a < k }

  /** What is known at block a when the blocks before k have been visited. In the first round the others
      have not been computed yet; those with more than two predecessors never are. */
  ghost predicate KnownAt(F: Fn, a: nat, k: nat, P: Partition, next: nat, first: bool)
    requires F.Valid()
  {
    if Past(F, a, k) then Kept(F, a, P, next) && (F.Root(a) ==> TOP !in P) else (first || !F.Visited(a) ==> P == [TOP])
  }

  /** Every block comes after its predecessors, but for those without predecessors of their own. */
  ghost predicate InListOrder(F: Fn) {
    forall a: nat, b: nat :: b < |F.preds| && F.Visited(b) && a in F.preds[b] ==> Arc(F, a, b)
  }

  /** The partitions when the blocks before k have been visited. */
  ghost predicate InRound(F: Fn, k: nat, pout: map<nat, Partition>, next: nat, first: bool)
    requires F.Valid()
  {
    && k <= |F.code| && 0 < next && (first || InListOrder(F))
    && (forall a: nat :: a < |F.code| ==> a in pout)
    && (forall a: nat {:trigger KnownAt(F, a, k, Part(pout, a), next, first)} :: a < |F.code| ==> KnownAt(F, a, k, Part(pout, a), next, first))
    && (forall a: nat, c: nat {:trigger Alike(Part(pout, a), Part(pout, c))} ::
          a < |F.code| && c < |F.code| && Past(F, a, k) && Past(F, c, k) ==> Alike(Part(pout, a), Part(pout, c)))
  }

  /** What join or clone find at a predecessor. */
  lemma PredKnown(F: Fn, b: nat, pout: map<nat, Partition>, next: nat, a: nat, first: bool)
    requires F.Valid() && InRound(F, b, pout, next, first) && b < |F.code| && F.Visited(b) && a in F.preds[b]
    ensures a < |F.code| && a in pout && KeptFor(F, a, b, Part(pout, a), next) && Orderly(Part(pout, a), next)
    ensures Part(pout, a) == [] <==> Arc(F, a, b) && NothingAt(F, a)
    ensures Part(pout, a) == [TOP] <==> !(Arc(F, a, b) && Carries(F, a))
    ensures Part(pout, a) != [] && next <= TOP_INDEX ==> (Part(pout, a)[0].index == TOP_INDEX <==> Part(pout, a) == [TOP])
    ensures F.Root(a) ==> TOP !in Part(pout, a)
  {
    hide Carries, NothingAt, Kept;
    assert KnownAt(F, a, b, Part(pout, a), next, first);
    if Arc(F, a, b) {
      KeptMeans(F, a, Part(pout, a), next);
      KeptOrderly(F, a, Part(pout, a), next);
    }
  }

  lemma KeptOrderly(F: Fn, a: nat, P: Partition, next: nat)
    requires F.Valid() && Kept(F, a, P, next)
    ensures Orderly(P, next)
  {
  }

  lemma NothingIsKnown(F: Fn, a: nat)
    requires F.Valid() && NothingAt(F, a)
    ensures Carries(F, a)
  {
  }

  lemma TopAlike(P: Partition)
    ensures Alike([TOP], P) && Alike(P, [TOP])
  {
  }

  /** The partition of a predecessor stands for the same classes as the others. */
  lemma PredAlike(F: Fn, b: nat, pout: map<nat, Partition>, next: nat, a: nat, first: bool)
    requires F.Valid() && InRound(F, b, pout, next, first) && b < |F.code| && F.Visited(b) && a in F.preds[b]
    ensures forall c: nat :: c < |F.code| && Past(F, c, b) ==> Alike(Part(pout, a), Part(pout, c))
  {
    hide Alike, Carries, Kept;
    PredKnown(F, b, pout, next, a, first);
    forall c: nat | c < |F.code| && Past(F, c, b) ensures Alike(Part(pout, a), Part(pout, c)) {
      if !Arc(F, a, b) { TopAlike(Part(pout, c)); } else { assert Past(F, a, b); }
    }
  }

  /** What the join makes of its two sides is what is known on entry. */
  lemma JoinEntered(F: Fn, b: nat, pout: map<nat, Partition>, P: Partition, lo: nat, next: nat, first: bool)
    requires F.Valid() && InRound(F, b, pout, lo, first) && b < |F.code| && |F.preds[b]| == 2 && lo <= next
    requires var front, back := F.preds[b][0], F.preds[b][1];
             && front < |F.code| && back < |F.code|
             && (if Part(pout, front) == [TOP] then P == Part(pout, back) else if Part(pout, back) == [TOP] then P == Part(pout, front)
                 else Paired(P, Part(pout, front), Part(pout, back), |Part(pout, front)|, 0, lo, next))
    ensures Entered(F, b, P, next)
    ensures forall a: nat :: a < |F.code| && Past(F, a, b) ==> Alike(P, Part(pout, a))
  {
    hide Carries, NothingAt, Kept, Orderly, Alike, Missing, Paired, Entered;
    var front, back := F.preds[b][0], F.preds[b][1];
    PredKnown(F, b, pout, lo, front, first);
    PredKnown(F, b, pout, lo, back, first);
    PredAlike(F, b, pout, lo, front, first);
    PredAlike(F, b, pout, lo, back, first);
    if Part(pout, front) == [TOP] {
      KeptForLater(F, back, b, P, lo, next);
      BackEntered(F, b, P, next);
    } else if Part(pout, back) == [TOP] {
      KeptForLater(F, front, b, P, lo, next);
      FrontEntered(F, b, P, next);
    } else {
      assert KeptFor(F, front, b, Part(pout, front), lo) && KeptFor(F, back, b, Part(pout, back), lo);
      assert Alike(Part(pout, front), Part(pout, back));
      BothEntered(F, b, P, Part(pout, front), Part(pout, back), lo, next);
      JoinValues(P, Part(pout, front), Part(pout, back), lo, next);
      forall a: nat | a < |F.code| && Past(F, a, b) ensures Alike(P, Part(pout, a)) {
        assert Alike(Part(pout, front), Part(pout, a));
        RoundOrderly(F, b, pout, lo, a, first);
        AlikeCarried(Part(pout, front), P, Part(pout, a), lo);
      }
    }
  }

  lemma KeptForLater(F: Fn, a: nat, b: nat, P: Partition, next: nat, next': nat)
    requires F.Valid() && KeptFor(F, a, b, P, next) && next <= next'
    ensures KeptFor(F, a, b, P, next')
  {
    if Arc(F, a, b) { KeptLater(F, a, P, next, next'); }
  }

  lemma RoundOrderly(F: Fn, k: nat, pout: map<nat, Partition>, next: nat, a: nat, first: bool)
    requires F.Valid() && InRound(F, k, pout, next, first) && a < |F.code|
    ensures a in pout && (Past(F, a, k) ==> Orderly(Part(pout, a), next))
  {
    hide Carries, Missing;
    assert KnownAt(F, a, k, Part(pout, a), next, first);
  }

  /** Block b has been visited. */
  lemma RoundStep(F: Fn, b: nat, pout: map<nat, Partition>, next: nat, P: Partition, n: nat, Q: Partition, next': nat, first: bool)
    requires F.Valid() && InRound(F, b, pout, next, first) && b < |F.code| && F.Visited(b) && next <= n <= next'
    requires (forall a: nat :: a < |F.code| && Past(F, a, b) ==> Alike(P, Part(pout, a))) && Carried(P, Q, n) && Kept(F, b, Q, next')
    ensures InRound(F, b + 1, pout[b := Q], next', first)
  {
    hide Kept, Alike, Carried, Orderly, Carries;
    var pout' := pout[b := Q];
    KeptOrderly(F, b, Q, next');
    forall a: nat {:trigger KnownAt(F, a, b + 1, Part(pout', a), next', first)} | a < |F.code|
      ensures KnownAt(F, a, b + 1, Part(pout', a), next', first)
    {
      assert KnownAt(F, a, b, Part(pout, a), next, first);
      if a != b && (F.Root(a) || a < b) { KeptLater(F, a, Part(pout, a), next, next'); }
    }
    forall a: nat | a < |F.code| && Past(F, a, b) ensures Alike(Q, Part(pout, a)) && Alike(Part(pout, a), Q) {
      RoundOrderly(F, b, pout, next, a, first);
      OrderlyLater(Part(pout, a), next, n);
      AlikeCarried(P, Q, Part(pout, a), n);
    }
    AlikeSelf(Q, next');
    forall a: nat, c: nat {:trigger Alike(Part(pout', a), Part(pout', c))} |
      a < |F.code| && c < |F.code| && Past(F, a, b + 1) && Past(F, c, b + 1) ensures Alike(Part(pout', a), Part(pout', c))
    {
      AlikeUpdated(F, pout, b, Q, a, c);
    }
  }

  lemma AlikeUpdated(F: Fn, pout: map<nat, Partition>, b: nat, Q: Partition, a: nat, c: nat)
    requires a == b || Past(F, a, b)
    requires c == b || Past(F, c, b)
    requires a != b && c != b ==> Alike(Part(pout, a), Part(pout, c))
    requires a != b ==> Alike(Part(pout, a), Q)
    requires c != b ==> Alike(Q, Part(pout, c))
    requires Alike(Q, Q)
    ensures Alike(Part(pout[b := Q], a), Part(pout[b := Q], c))
  {
  }

  lemma OrderlyLater(P: Partition, next: nat, next': nat)
    requires Orderly(P, next) && next <= next'
    ensures Orderly(P, next')
  {
  }

  /** A block the round does not visit: one without predecessors, or with more than two. */
  lemma RoundSkip(F: Fn, b: nat, pout: map<nat, Partition>, next: nat, first: bool)
    requires F.Valid() && InRound(F, b, pout, next, first) && b < |F.code| && !F.Visited(b)
    ensures InRound(F, b + 1, pout, next, first) && !LooksIntoEmpty(F, b)
  {
    hide Kept, Alike, Carries;
    assert KnownAt(F, b, b, Part(pout, b), next, first);
    if !F.Root(b) { UnknownKept(F, b, next); }
    forall a: nat, c: nat {:trigger Alike(Part(pout, a), Part(pout, c))} |
      a < |F.code| && c < |F.code| && Past(F, a, b + 1) && Past(F, c, b + 1) ensures Alike(Part(pout, a), Part(pout, c))
    {
      TopAlike(Part(pout, a));
      TopAlike(Part(pout, c));
      assert Past(F, a, b) && Past(F, c, b) ==> Alike(Part(pout, a), Part(pout, c));
    }
    forall a: nat {:trigger KnownAt(F, a, b + 1, Part(pout, a), next, first)} | a < |F.code|
      ensures KnownAt(F, a, b + 1, Part(pout, a), next, first)
    {
      assert KnownAt(F, a, b, Part(pout, a), next, first);
    }
  }

  lemma UnknownKept(F: Fn, b: nat, next: nat)
    requires F.Valid() && b < |F.code| && !F.Root(b) && !F.Visited(b)
    ensures Kept(F, b, [TOP], next)
  {
    CarriesStep(F, b);
  }

  // ----- before the round -----

  /** The initial partitions of the blocks before k. */
  ghost predicate Starting(F: Fn, k: nat, pout: map<nat, Partition>, next: nat)
    requires F.Valid()
  {
    && k <= |F.code| && 0 < next
    && (forall a: nat :: a < k ==> a in pout)
    && (forall a: nat {:trigger KnownAt(F, a, 0, Part(pout, a), next, true)} :: a < k ==> KnownAt(F, a, 0, Part(pout, a), next, true))
    && (forall a: nat, c: nat {:trigger Alike(Part(pout, a), Part(pout, c))} :: a < k && c < k ==> Alike(Part(pout, a), Part(pout, c)))
  }

  lemma StartingNothing(F: Fn)
    requires F.Valid()
    ensures Starting(F, 0, map[], 1)
  {
  }

  lemma StartingStep(F: Fn, b: nat, pout: map<nat, Partition>, next: nat, Q: Partition, next': nat)
    requires F.Valid() && Starting(F, b, pout, next) && b < |F.code| && next <= next'
    requires if F.Root(b) then Kept(F, b, Q, next') && TOP !in Q && Carried([], Q, next) else Q == [TOP]
    ensures Starting(F, b + 1, pout[b := Q], next')
  {
    hide Kept, Alike, Carried, Orderly, Carries;
    var pout' := pout[b := Q];
    forall a: nat {:trigger KnownAt(F, a, 0, Part(pout', a), next', true)} | a < b + 1 ensures KnownAt(F, a, 0, Part(pout', a), next', true) {
      if a < b {
        assert KnownAt(F, a, 0, Part(pout, a), next, true);
        if F.Root(a) { KeptLater(F, a, Part(pout, a), next, next'); }
      }
    }
    forall a: nat | a < b ensures Alike(Q, Part(pout, a)) && Alike(Part(pout, a), Q) {
      assert KnownAt(F, a, 0, Part(pout, a), next, true);
      StartAlike(F, b, Q, next, a, Part(pout, a));
    }
    if F.Root(b) { KeptOrderly(F, b, Q, next'); } else { TopOrderly(next'); }
    AlikeSelf(Q, next');
    forall a: nat, c: nat {:trigger Alike(Part(pout', a), Part(pout', c))} | a < b + 1 && c < b + 1 ensures Alike(Part(pout', a), Part(pout', c)) {
      AlikeUpdated(F, pout, b, Q, a, c);
    }
  }

  lemma TopOrderly(next: nat)
    ensures Orderly([TOP], next)
  {
  }

  lemma StartAlike(F: Fn, b: nat, Q: Partition, next: nat, a: nat, P: Partition)
    requires F.Valid() && KnownAt(F, a, 0, P, next, true) && (Q == [TOP] || Carried([], Q, next))
    ensures Alike(Q, P) && Alike(P, Q)
  {
    hide Carries, Missing;
    if Q != [TOP] && F.Root(a) { AlikeCarried([], Q, P, next); }
  }

  lemma StartingIsRound(F: Fn, pout: map<nat, Partition>, next: nat)
    requires F.Valid() && Starting(F, |F.code|, pout, next)
    ensures InRound(F, 0, pout, next, true)
  {
    hide Alike, KnownAt;
  }

  /** The next round begins with what was known before the first. */
  lemma RestartRound(F: Fn, start: map<nat, Partition>, pout: map<nat, Partition>, next: nat)
    requires F.Valid() && InListOrder(F) && Starting(F, |F.code|, start, next)
    requires UnvisitedStay(F, start, pout)
    ensures InRound(F, 0, pout, next, false)
  {
    hide Alike, Kept;
    forall a: nat {:trigger KnownAt(F, a, 0, Part(pout, a), next, false)} | a < |F.code| ensures KnownAt(F, a, 0, Part(pout, a), next, false) {
      assert KnownAt(F, a, 0, Part(start, a), next, true);
    }
    forall a: nat, c: nat {:trigger Alike(Part(pout, a), Part(pout, c))} | a < |F.code| && c < |F.code| && F.Root(a) && F.Root(c)
      ensures Alike(Part(pout, a), Part(pout, c))
    {
      assert Alike(Part(start, a), Part(start, c));
    }
  }

  // ----- the visit of one block -----

  /** How the partition on entry to b comes about. */
  ghost predicate EntersBy(F: Fn, b: nat, pout: map<nat, Partition>, P: Partition, lo: nat, next: nat)
    requires F.Valid() && b < |F.code| && F.Visited(b)
  {
    && (|F.preds[b]| == 1 ==> P == Part(pout, F.preds[b][0]) && next == lo)
    && (|F.preds[b]| == 2 ==>
          var front, back := F.preds[b][0], F.preds[b][1];
          Arc(F, front, b) && Carries(F, front) && Arc(F, back, b) && Carries(F, back)
          && Disjoint(Part(pout, front)) && Disjoint(Part(pout, back)) ==>
            IsJoin(P, Part(pout, front), Part(pout, back), lo, next))
  }

  lemma CloneEntered(F: Fn, b: nat, pout: map<nat, Partition>, next: nat, first: bool)
    requires F.Valid() && InRound(F, b, pout, next, first) && b < |F.code| && |F.preds[b]| == 1
    ensures Entered(F, b, Part(pout, F.preds[b][0]), next)
    ensures forall a: nat :: a < |F.code| && Past(F, a, b) ==> Alike(Part(pout, F.preds[b][0]), Part(pout, a))
  {
    hide Carries, Kept, Orderly, Alike, Missing, Entered;
    PredKnown(F, b, pout, next, F.preds[b][0], first);
    PredAlike(F, b, pout, next, F.preds[b][0], first);
    OneEntered(F, b, Part(pout, F.preds[b][0]), next);
  }

  lemma EnteredOrderly(F: Fn, b: nat, P: Partition, next: nat)
    requires F.Valid() && Entered(F, b, P, next)
    ensures Orderly(P, next)
  {
  }

  /** A block whose visit cannot get stuck: without a division, and either without predecessors, or after
      one such block, or a join that reads the empty partition of its front predecessor. */
  ghost predicate Calm(F: Fn, b: nat)
    requires F.Valid()
  {
    && b < |F.code| && Undivided(F.code[b])
    && (F.Root(b) || (|F.preds[b]| == 1 && F.Root(F.preds[b][0]))
        || (|F.preds[b]| == 2 && Arc(F, F.preds[b][0], b) && NothingAt(F, F.preds[b][0])))
  }

  lemma CalmTransfers(F: Fn, b: nat, pout: map<nat, Partition>, next: nat, P: Partition, n: nat, fuel: nat, first: bool)
    requires F.Valid() && InRound(F, b, pout, next, first) && b < |F.code| && F.Visited(b)
    requires Calm(F, b) && !LooksIntoEmpty(F, b) && EntersBy(F, b, pout, P, next, n)
    ensures TOP !in P && TransferJoin(Ends(F.Preds(), pout), b, Numbering(P, n), F.code[b], fuel).Some?
  {
    hide Carries, NothingAt, Alike, KnownAt;
    PredKnown(F, b, pout, next, F.preds[b][0], first);
    UndividedTransfers(Ends(F.Preds(), pout), b, Numbering(P, n), F.code[b], fuel);
  }

  lemma StuckIsNotCalm(F: Fn, b: nat)
    requires F.Valid() && b < |F.code| && !Undivided(F.code[b])
    ensures !Calm(F, b)
  {
  }

  lemma LooksOnlyInside(F: Fn)
    requires F.Valid()
    ensures forall b: nat :: |F.code| <= b ==> !LooksIntoEmpty(F, b)
  {
  }

  /** The partitions of blocks that a round does not visit stay. */
  ghost predicate UnvisitedStay(F: Fn, pout: map<nat, Partition>, pout': map<nat, Partition>) {
    && (forall a: nat :: a in pout ==> a in pout')
    && (forall a: nat :: !F.Visited(a) ==> Part(pout', a) == Part(pout, a))
  }

  lemma UnvisitedSelf(F: Fn, pout: map<nat, Partition>)
    ensures UnvisitedStay(F, pout, pout)
  {
  }

  lemma UnvisitedTrans(F: Fn, P: map<nat, Partition>, P1: map<nat, Partition>, P2: map<nat, Partition>)
    requires UnvisitedStay(F, P, P1) && UnvisitedStay(F, P1, P2)
    ensures UnvisitedStay(F, P, P2)
  {
  }

  /** A block without predecessors has been visited. */
  lemma RootVisited(F: Fn, b: nat, P: Partition, n: nat, Q: Partition, next: nat)
    requires F.Valid() && b < |F.code| && F.Root(b)
    requires Orderly(P, n + |F.vars|) && TOP !in P && Members(P) == (set v | v in F.vars) && Carried([], P, n)
    requires Adds(Numbering(P, n + |F.vars|), Numbering(Q, next), Valued(F.code[b]) + Copied(F.PhisAfter(b), b))
    ensures Kept(F, b, Q, next) && TOP !in Q && Carried([], Q, n)
  {
    hide Orderly, Carried, Kept;
    RootKept(F, b, Numbering(P, n + |F.vars|), Numbering(Q, next), Valued(F.code[b]) + Copied(F.PhisAfter(b), b));
    CarriedTrans([], P, Q, n, n + |F.vars|);
  }

  /** A block with predecessors has been visited. */
  lemma BlockVisited(F: Fn, b: nat, pout: map<nat, Partition>, next: nat, P: Partition, n: nat, Q: Partition, next': nat, first: bool)
    requires F.Valid() && InRound(F, b, pout, next, first) && b < |F.code| && F.Visited(b) && next <= n
    requires Entered(F, b, P, n) && (forall a: nat :: a < |F.code| && Past(F, a, b) ==> Alike(P, Part(pout, a)))
    requires Adds(Numbering(P, n), Numbering(Q, next'), Valued(F.code[b]) + Copied(F.PhisAfter(b), b))
    ensures InRound(F, b + 1, pout[b := Q], next', first)
  {
    hide Orderly, Carried, Kept, InRound, Entered, Alike, Fn.Made;
    MadeIs(F, b);
    VisitKept(F, b, Numbering(P, n), Numbering(Q, next'));
    RoundStep(F, b, pout, next, P, n, Q, next', first);
  }
}
