// The partitions of a whole round: each block's comes from those of its predecessors, and they stay tidy.
module GvnWhole {
  import opened Wrappers
  import IR
  import opened Gvn
  import opened GvnTransfer
  import opened GvnSound
  import opened GvnJoin
  import opened GvnPath
  import opened GvnTidy
  import opened GvnRedirect
  import opened GvnValues
  import opened GvnFlow
  import opened GvnRound

  // ----- functions in SSA form -----

  /** Every way to b is through blocks visited before. */
  predicate Settled(F: Fn, b: nat)
    requires F.Valid()
    decreases b
  {
    F.Root(b) || (F.Visited(b) && forall a :: a in F.preds[b] ==> Arc(F, a, b) && (F.Root(a) || (a < b && Settled(F, a))))
  }

  /** The registers that instructions of the block make. */
  function Ids(block: seq<Inst>): (r: set<nat>)
    ensures forall i :: i in block && HasValue(i) ==> i.id in r
  {
    set i | i in block && HasValue(i) :: i.id
  }

  /** The registers that the visit of b makes or names. */
  function Named(F: Fn, b: nat): set<nat>
    requires F.Valid() && b < |F.code|
  {
    Ids(F.code[b]) + PhiIds(F.PhisAfter(b)) + PhiOperands(F.PhisAfter(b))
  }

  /** The register has been named on a way to the end of b. */
  ghost predicate NamedBy(F: Fn, b: nat, x: nat)
    requires F.Valid() && b < |F.code|
    decreases b
  {
    x in Named(F, b) || (!F.Root(b) && NamedBefore(F, b, x))
  }

  /** The register has been named on a way to the start of b. */
  ghost predicate NamedBefore(F: Fn, b: nat, x: nat)
    requires F.Valid() && b < |F.code|
    decreases b, 0
  {
    exists a: nat :: a in F.preds[b] && Arc(F, a, b) && (if F.Root(a) then x in Named(F, a) else a < b && NamedBy(F, a, x))
  }

  /** What value numbering takes for granted: arguments and globals are different, a register is made once,
      and on no way to where it is made has it been named. */
  ghost predicate SsaForm(F: Fn)
    requires F.Valid()
  {
    && (forall v :: v in F.vars ==> v.Param? || v.GlobalVar?) && (forall i, j :: 0 <= i < j < |F.vars| ==> F.vars[i] != F.vars[j])
    && (forall b: nat {:trigger BlockForm(F, b)} :: b < |F.code| ==> BlockForm(F, b))
  }

  ghost predicate BlockForm(F: Fn, b: nat)
    requires F.Valid() && b < |F.code|
  {
    && Fresh(F.code[b], PhiIds(F.PhisAfter(b))) && AddressesVary(F.code[b]) && PhisApart([], F.PhisAfter(b))
    && (!F.Root(b) ==> forall x :: NamedBefore(F, b, x) ==> x !in Ids(F.code[b]) && x !in PhiIds(F.PhisAfter(b)))
  }

  /** The partition at the end of b is tidy, and knows no register that has not been named on a way there. */
  ghost predicate TidyAt(F: Fn, b: nat, P: Partition, next: nat)
    requires F.Valid() && b < |F.code|
  {
    Tidy(Numbering(P, next)) && forall x :: !NamedBy(F, b, x) ==> NewTo(P, x)
  }

  /** The same for the partition on entry to b. */
  ghost predicate TidyBefore(F: Fn, b: nat, P: Partition, next: nat)
    requires F.Valid() && b < |F.code|
  {
    Tidy(Numbering(P, next)) && forall x :: (F.Root(b) || !NamedBefore(F, b, x)) ==> NewTo(P, x)
  }

  lemma TidyLater(F: Fn, b: nat, P: Partition, next: nat, next': nat)
    requires F.Valid() && b < |F.code| && TidyAt(F, b, P, next) && next <= next'
    ensures TidyAt(F, b, P, next')
  {
  }

  lemma TidyHasNoTop(N: Numbering)
    requires Tidy(N)
    ensures Orderly(N.classes, N.next) && Disjoint(N.classes) && TOP !in N.classes
  {
  }

  lemma AlikeIdentify(P1: Partition, P2: Partition, next: nat)
    requires Tidy(Numbering(P1, next)) && Tidy(Numbering(P2, next)) && Alike(P1, P2)
    ensures Identify(P1, P2)
  {
    TidyHasNoTop(Numbering(P1, next));
    TidyHasNoTop(Numbering(P2, next));
    forall a, b | 0 <= a < |P1| && 0 <= b < |P2| && P1[a].index == P2[b].index ensures P1[a].leader == P2[b].leader {
      assert P1[a] in P1 && P2[b] in P2;
      assert Label(P1[a]).leader == Label(P2[b]).leader;
    }
  }

  /** On entry to a block with one predecessor. */
  lemma CloneTidy(F: Fn, b: nat, P: Partition, next: nat)
    requires F.Valid() && b < |F.code| && Settled(F, b) && |F.preds[b]| == 1 && F.preds[b][0] < |F.code| && TidyAt(F, F.preds[b][0], P, next)
    ensures TidyBefore(F, b, P, next)
  {
    hide Tidy, NewTo, Named, NamedBy;
    var a := F.preds[b][0];
    assert a in F.preds[b];
    forall x | !NamedBefore(F, b, x) ensures NewTo(P, x) {
      if NamedBy(F, a, x) { NamedThrough(F, b, a, x); }
    }
  }

  lemma NamedThrough(F: Fn, b: nat, a: nat, x: nat)
    requires F.Valid() && b < |F.code| && a < |F.code| && a in F.preds[b] && Arc(F, a, b) && NamedBy(F, a, x)
    ensures NamedBefore(F, b, x)
  {
  }

  /** On entry to a join. */
  lemma JoinedTidy(F: Fn, b: nat, P: Partition, P1: Partition, P2: Partition, lo: nat, next: nat)
    requires F.Valid() && b < |F.code| && Settled(F, b) && |F.preds[b]| == 2
    requires F.preds[b][0] < |F.code| && F.preds[b][1] < |F.code|
    requires TidyAt(F, F.preds[b][0], P1, lo) && TidyAt(F, F.preds[b][1], P2, lo) && Alike(P1, P2) && IsJoin(P, P1, P2, lo, next)
    ensures TidyBefore(F, b, P, next) && Identify(P1, P2)
  {
    hide Tidy, NewTo, Named, NamedBy, Alike, IsJoin, Identify;
    assert F.preds[b][0] in F.preds[b] && F.preds[b][1] in F.preds[b];
    AlikeIdentify(P1, P2, lo);
    JoinTidy(P, P1, P2, lo, next);
    forall x | !NamedBefore(F, b, x) ensures NewTo(P, x) {
      if NamedBy(F, F.preds[b][0], x) { NamedThrough(F, b, F.preds[b][0], x); }
      if NamedBy(F, F.preds[b][1], x) { NamedThrough(F, b, F.preds[b][1], x); }
    }
  }

  /** The visit of a block keeps its partition tidy. */
  lemma VisitTidy(F: Fn, G: Ends, b: nat, N: Numbering, fuel: nat)
    requires F.Valid() && b < |F.code| && BlockForm(F, b) && TidyBefore(F, b, N.classes, N.next) && 0 < N.next
    requires TransferJoin(G, b, N, F.code[b], fuel).Some?
    ensures var N' := Copies(TransferJoin(G, b, N, F.code[b], fuel).value, F.PhisAfter(b), b);
            TidyAt(F, b, N'.classes, N'.next)
  {
    hide Tidy, NewTo, TransferJoin, Copies, NamedBefore, Fn.PhisAfter;
    var block, succ := F.code[b], F.PhisAfter(b);
    var N1 := TransferJoin(G, b, N, block, fuel).value;
    NewBefore(F, b, N.classes, N.next);
    BlockTidy(G, b, N, block, fuel, PhiIds(succ));
    CopiesTidy(N1, succ, b);
    forall x | !NamedBy(F, b, x) ensures NewTo(Copies(N1, succ, b).classes, x) {
      FreshPlus(block, PhiIds(succ), x);
      BlockTidy(G, b, N, block, fuel, PhiIds(succ) + {x});
    }
  }

  lemma NewBefore(F: Fn, b: nat, P: Partition, next: nat)
    requires F.Valid() && b < |F.code| && BlockForm(F, b) && TidyBefore(F, b, P, next)
    ensures AllNew(P, F.code[b]) && forall x :: x in PhiIds(F.PhisAfter(b)) ==> NewTo(P, x)
  {
    hide Tidy, NewTo, Fresh, Fn.PhisAfter, NamedBefore;
  }

  lemma {:induction false} FreshPlus(block: seq<Inst>, made: set<nat>, x: nat)
    requires Fresh(block, made) && x !in Ids(block)
    ensures Fresh(block, made + {x})
  {
    if block != [] {
      var i := block[0];
      assert i in block && forall j :: j in block[1..] ==> j in block;
      FreshIds(block, x);
      if HasValue(i) {
        FreshPlus(block[1..], made + {i.id}, x);
        assert made + {i.id} + {x} == made + {x} + {i.id};
      } else {
        FreshPlus(block[1..], made, x);
      }
    }
  }

  lemma FreshIds(block: seq<Inst>, x: nat)
    requires block != [] && x !in Ids(block)
    ensures x !in Ids(block[1..]) && (HasValue(block[0]) ==> block[0].id != x)
  {
    assert block[0] in block && forall j :: j in block[1..] ==> j in block;
  }

  // ----- what the transfer function reads -----

  /** The partitions at the ends of the blocks in A are the same, and A has the predecessors of its blocks. */
  ghost predicate SameOn(G: Ends, G': Ends, A: set<nat>) {
    G.preds == G'.preds && forall a :: a in A ==> G.Out(a) == G'.Out(a) && forall p :: p in G.Preds(a) ==> p in A
  }

  lemma {:induction false} ValuePhiSame(G: Ends, G': Ends, A: set<nat>, b: nat, ve: Expr, P: Partition, fuel: nat)
    requires SameOn(G, G', A) && forall p :: p in G.Preds(b) ==> p in A
    ensures ValuePhi(G, b, ve, P, fuel) == ValuePhi(G', b, ve, P, fuel)
    decreases fuel, 1
  {
    hide OperandPhis, Number;
    if |G.Preds(b)| == 2 && OperandPhis(ve, P).Some? {
      var phis := OperandPhis(ve, P).value;
      forall e ensures Number(G, G.Preds(b)[0], e, fuel) == Number(G', G.Preds(b)[0], e, fuel) { NumberSame(G, G', A, G.Preds(b)[0], e, fuel); }
      forall e ensures Number(G, G.Preds(b)[1], e, fuel) == Number(G', G.Preds(b)[1], e, fuel) { NumberSame(G, G', A, G.Preds(b)[1], e, fuel); }
    }
  }

  lemma {:induction false} NumberSame(G: Ends, G': Ends, A: set<nat>, p: nat, e: Expr, fuel: nat)
    requires SameOn(G, G', A) && p in A
    ensures Number(G, p, e, fuel) == Number(G', p, e, fuel)
    decreases fuel, 0
  {
    if fuel > 0 { ValuePhiSame(G, G', A, p, e, G.Out(p), fuel - 1); }
  }

  lemma {:induction false} TransferSame(G: Ends, G': Ends, A: set<nat>, b: nat, N: Numbering, block: seq<Inst>, fuel: nat)
    requires SameOn(G, G', A) && forall p :: p in G.Preds(b) ==> p in A
    ensures TransferJoin(G, b, N, block, fuel) == TransferJoin(G', b, N, block, fuel)
    decreases block
  {
    hide ValuePhi, Place, ValueExpr;
    if block != [] {
      var i := block[0];
      if HasValue(i) {
        var P := Without(N.classes, Instr(i.id));
        ValuePhiSame(G, G', A, b, ValueExpr(P, i), P, fuel);
      }
      assert JoinOne(G, b, N, i, fuel) == JoinOne(G', b, N, i, fuel);
      if JoinOne(G, b, N, i, fuel).Some? { TransferSame(G, G', A, b, JoinOne(G, b, N, i, fuel).value, block[1..], fuel); }
    }
  }

  // ----- the search for value phis -----

  /** Through settled blocks the search for a value phi comes to an end: as many steps are enough as there
      are blocks before b. */
  lemma {:induction false} SearchEnds(F: Fn, G: Ends, b: nat, ve: Expr, P: Partition, fuel: nat)
    requires F.Valid() && b < |F.code| && Settled(F, b) && G.preds == F.Preds() && b + 1 <= fuel
    ensures ValuePhi(G, b, ve, P, fuel).Answer?
    decreases fuel, 1
  {
    hide OperandPhis, Number;
    if |F.preds[b]| == 2 {
      var p, q := F.preds[b][0], F.preds[b][1];
      assert p in F.preds[b] && q in F.preds[b];
      forall e ensures Number(G, p, e, fuel).Answer? && Number(G, q, e, fuel).Answer? {
        NumberEnds(F, G, b, p, e, fuel);
        NumberEnds(F, G, b, q, e, fuel);
      }
    }
  }

  lemma {:induction false} NumberEnds(F: Fn, G: Ends, b: nat, p: nat, e: Expr, fuel: nat)
    requires F.Valid() && p < |F.code| && Settled(F, p) && G.preds == F.Preds() && b + 1 <= fuel && (F.Root(p) || p < b)
    ensures Number(G, p, e, fuel).Answer?
    decreases fuel, 0
  {
    if F.Root(p) {
      NoPhiWithoutJoin(G, p, e, G.Out(p), fuel - 1);
    } else {
      SearchEnds(F, G, p, e, G.Out(p), fuel - 1);
    }
  }

  /** More steps do not change the answer. */
  lemma {:induction false} SearchStays(G: Ends, b: nat, ve: Expr, P: Partition, fuel: nat, more: nat)
    requires ValuePhi(G, b, ve, P, fuel).Answer? && fuel <= more
    ensures ValuePhi(G, b, ve, P, more) == ValuePhi(G, b, ve, P, fuel)
    decreases fuel, 1
  {
    hide OperandPhis, Number;
    if |G.Preds(b)| == 2 {
      var p, q := G.Preds(b)[0], G.Preds(b)[1];
      forall e | Number(G, p, e, fuel).Answer? ensures Number(G, p, e, more) == Number(G, p, e, fuel) { NumberStays(G, p, e, fuel, more); }
      forall e | Number(G, q, e, fuel).Answer? ensures Number(G, q, e, more) == Number(G, q, e, fuel) { NumberStays(G, q, e, fuel, more); }
    }
  }

  lemma {:induction false} NumberStays(G: Ends, p: nat, e: Expr, fuel: nat, more: nat)
    requires Number(G, p, e, fuel).Answer? && fuel <= more
    ensures Number(G, p, e, more) == Number(G, p, e, fuel)
    decreases fuel, 0
  {
    if GetVN(G.Out(p), e).None? { SearchStays(G, p, e, G.Out(p), fuel - 1, more - 1); }
  }

  // ----- the partitions of a round -----

  /** The partitions on entry to the blocks and at their ends, and for each block the first number given out
      when it was visited, and the next one after the join. */
  datatype Tables = Tables(pin: map<nat, Partition>, pout: map<nat, Partition>, starts: map<nat, nat>, joins: map<nat, nat>) {
    function With(b: nat, P: Partition, Q: Partition, lo: nat, n: nat): Tables {
      Tables(pin[b := P], pout[b := Q], starts[b := lo], joins[b := n])
    }
  }

  function ProgramOf(F: Fn, T: Tables): (p: Program)
    requires F.Valid()
    ensures forall b: nat :: b < |F.code| ==> p.Block(b) == F.code[b] && p.PhisAfter(b) == F.PhisAfter(b) && p.ends.Preds(b) == F.preds[b]
  {
    Program(map b: nat | 0 <= b < |F.code| :: F.code[b], map b: nat | 0 <= b < |F.tails| :: F.tails[b], Ends(F.Preds(), T.pout),
            map b: nat | 0 <= b < |F.code| :: F.PhisAfter(b), T.starts,
            map b: nat | b in T.pin && b in T.joins :: Numbering(T.pin[b], T.joins[b]))
  }

  ghost predicate SolvedAt(F: Fn, T: Tables, b: nat, next: nat, fuel: nat)
    requires F.Valid() && b < |F.code|
  {
    && b in T.pin && b in T.pout && b in T.starts && b in T.joins
    && TidyAt(F, b, T.pout[b], next) && Solved(ProgramOf(F, T), b, fuel)
    && 0 < T.joins[b] && TidyBefore(F, b, T.pin[b], T.joins[b])
    && TransferJoin(Ends(F.Preds(), T.pout), b, Numbering(T.pin[b], T.joins[b]), F.code[b], fuel).Some?
    && (F.Root(b) ==> T.pin[b] == EntryClasses(F.vars, T.starts[b]) && T.joins[b] == T.starts[b] + |F.vars|)
  }

  /** The settled blocks visited so far are as the pass computes them. */
  ghost predicate SolvedTo(F: Fn, T: Tables, k: nat, next: nat, fuel: nat)
    requires F.Valid()
  {
    SsaForm(F) ==>
      forall b: nat {:trigger SolvedAt(F, T, b, next, fuel)} ::
        b < |F.code| && Settled(F, b) && Past(F, b, k) ==> SolvedAt(F, T, b, next, fuel)
  }

  /** Settled blocks visited before b. */
  function Earlier(F: Fn, b: nat): set<nat>
    requires F.Valid()
  {
    set a: nat | 0 <= a < |F.code| && Settled(F, a) && (F.Root(a) || a < b)
  }

  lemma EarlierHas(F: Fn, b: nat)
    requires F.Valid() && b < |F.code| && Settled(F, b)
    ensures forall p :: p in F.preds[b] ==> p in Earlier(F, b)
    ensures forall a, p :: a in Earlier(F, b) && p in F.preds[a] ==> p in Earlier(F, b)
  {
  }

  /** What the pass computes for b depends on b and on the settled blocks before it. */
  lemma SolvedSame(F: Fn, T: Tables, T': Tables, b: nat, next: nat, next': nat, fuel: nat)
    requires F.Valid() && b < |F.code| && Settled(F, b) && SolvedAt(F, T, b, next, fuel) && next <= next'
    requires b in T'.pin && b in T'.pout && b in T'.starts && b in T'.joins
    requires T'.pin[b] == T.pin[b] && T'.pout[b] == T.pout[b] && T'.starts[b] == T.starts[b] && T'.joins[b] == T.joins[b]
    requires !F.Root(b) ==> forall a :: a in Earlier(F, b) ==> Part(T'.pout, a) == Part(T.pout, a)
    ensures SolvedAt(F, T', b, next', fuel)
  {
    hide TransferJoin, Copies, IsJoin, Valid, Identify, ConstantsLead, TidyAt, TidyBefore, Settled, EntryClasses, Fn.PhisAfter;
    TidyLater(F, b, T.pout[b], next, next');
    var p, p' := ProgramOf(F, T), ProgramOf(F, T');
    var A := if F.Root(b) then {} else Earlier(F, b);
    EarlierHas(F, b);
    assert forall x :: p.ends.Out(x) == Part(T.pout, x) && p'.ends.Out(x) == Part(T'.pout, x);
    assert SameOn(p.ends, p'.ends, A);
    TransferSame(p.ends, p'.ends, A, b, p.Pin(b), p.Block(b), fuel);
  }

  lemma ProgramWith(F: Fn, T: Tables, b: nat, P: Partition, Q: Partition, lo: nat, n: nat)
    requires F.Valid() && b < |F.code|
    ensures var p := ProgramOf(F, T.With(b, P, Q, lo, n));
            && p.Pin(b) == Numbering(P, n) && p.First(b) == lo && p.ends == Ends(F.Preds(), T.pout[b := Q])
            && p.ends.Out(b) == Q && p.ends.Preds(b) == F.preds[b] && forall a :: a != b ==> p.ends.Out(a) == Part(T.pout, a)
  {
  }

  /** A block without predecessors has been visited. */
  lemma SolvedRoot(F: Fn, T: Tables, b: nat, next: nat, Q: Partition, next': nat, fuel: nat)
    requires F.Valid() && SsaForm(F) && b < |F.code| && F.Root(b) && 0 < next
    requires var r := TransferJoin(Ends(F.Preds(), T.pout), b, Numbering(EntryClasses(F.vars, next), next + |F.vars|), F.code[b], fuel);
             r.Some? && Numbering(Q, next') == Copies(r.value, F.PhisAfter(b), b)
    ensures SolvedAt(F, T.With(b, EntryClasses(F.vars, next), Q, next, next + |F.vars|), b, next', fuel)
  {
    hide TransferJoin, Copies, IsJoin, Valid, Identify, ConstantsLead, Tidy, NewTo, Fn.PhisAfter;
    var P, n := EntryClasses(F.vars, next), next + |F.vars|;
    var T' := T.With(b, P, Q, next, n);
    assert BlockForm(F, b);
    EntryTidy(F.vars, next);
    VisitTidy(F, Ends(F.Preds(), T.pout), b, Numbering(P, n), fuel);
    ProgramWith(F, T, b, P, Q, next, n);
    hide ProgramOf, EntryClasses;
    TransferSame(Ends(F.Preds(), T.pout), ProgramOf(F, T').ends, {}, b, Numbering(P, n), F.code[b], fuel);
  }

  lemma {:induction false} SettledCarries(F: Fn, b: nat)
    requires F.Valid() && b < |F.code| && Settled(F, b)
    ensures Carries(F, b)
    decreases b
  {
    CarriesStep(F, b);
    if !F.Root(b) {
      var a := F.preds[b][0];
      assert a in F.preds[b];
      if F.Root(a) { CarriesStep(F, a); } else { SettledCarries(F, a); }
    }
  }

  /** What is known of a predecessor of a settled block. */
  lemma PredSolved(F: Fn, T: Tables, b: nat, next: nat, fuel: nat, first: bool, a: nat)
    requires F.Valid() && SsaForm(F) && InRound(F, b, T.pout, next, first) && SolvedTo(F, T, b, next, fuel)
    requires b < |F.code| && Settled(F, b) && F.Visited(b) && a in F.preds[b]
    ensures a < |F.code| && a in Earlier(F, b) && Arc(F, a, b) && Past(F, a, b) && Carries(F, a)
    ensures a in T.pout && TidyAt(F, a, T.pout[a], next) && Disjoint(T.pout[a])
  {
    hide TidyAt, Solved, InRound, Carries, SsaForm, KnownAt, Alike;
    EarlierHas(F, b);
    SettledCarries(F, a);
    assert SolvedAt(F, T, a, next, fuel);
    TidyIsDisjoint(F, a, T.pout[a], next);
  }

  lemma TidyIsDisjoint(F: Fn, a: nat, P: Partition, next: nat)
    requires F.Valid() && a < |F.code| && TidyAt(F, a, P, next)
    ensures Disjoint(P) && Orderly(P, next) && Valid(P, next) && ConstantsLead(P)
  {
    TidyHasNoTop(Numbering(P, next));
  }

  /** The partition on entry to a settled block, and what solving it asks of the predecessors. */
  lemma EntrySolved(F: Fn, T: Tables, b: nat, next: nat, fuel: nat, first: bool, P: Partition, n: nat)
    requires F.Valid() && SsaForm(F) && InRound(F, b, T.pout, next, first) && SolvedTo(F, T, b, next, fuel)
    requires b < |F.code| && Settled(F, b) && F.Visited(b) && EntersBy(F, b, T.pout, P, next, n) && next <= n
    ensures TidyBefore(F, b, P, n)
    ensures |F.preds[b]| == 1 ==> P == Part(T.pout, F.preds[b][0]) && forall c :: c in P ==> c.index < n
    ensures |F.preds[b]| == 2 ==>
              var P1, P2 := Part(T.pout, F.preds[b][0]), Part(T.pout, F.preds[b][1]);
              && Valid(P1, next) && Valid(P2, next) && ConstantsLead(P1) && ConstantsLead(P2)
              && Identify(P1, P2) && IsJoin(P, P1, P2, next, n)
  {
    hide TidyAt, TidyBefore, SolvedTo, Carries, IsJoin, Identify, Valid, ConstantsLead, Disjoint, SsaForm, KnownAt, Settled, Alike;
    var a := F.preds[b][0];
    PredSolved(F, T, b, next, fuel, first, a);
    TidyIsDisjoint(F, a, T.pout[a], next);
    if |F.preds[b]| == 1 {
      CloneTidy(F, b, P, next);
      assert Valid(P, next);
      ValidBounds(P, next);
    } else {
      var c := F.preds[b][1];
      PredSolved(F, T, b, next, fuel, first, c);
      TidyIsDisjoint(F, c, T.pout[c], next);
      assert Alike(Part(T.pout, a), Part(T.pout, c));
      JoinedTidy(F, b, P, T.pout[a], T.pout[c], next, n);
    }
  }

  lemma ValidBounds(P: Partition, next: nat)
    requires Valid(P, next)
    ensures forall c :: c in P ==> c.index < next
  {
  }

  /** A settled block has been visited. */
  lemma SolvedBlock(F: Fn, T: Tables, b: nat, next: nat, fuel: nat, first: bool, P: Partition, n: nat, Q: Partition, next': nat)
    requires F.Valid() && SsaForm(F) && InRound(F, b, T.pout, next, first) && SolvedTo(F, T, b, next, fuel)
    requires b < |F.code| && Settled(F, b) && F.Visited(b) && EntersBy(F, b, T.pout, P, next, n) && 0 < next <= n
    requires var r := TransferJoin(Ends(F.Preds(), T.pout), b, Numbering(P, n), F.code[b], fuel);
             r.Some? && Numbering(Q, next') == Copies(r.value, F.PhisAfter(b), b)
    ensures SolvedAt(F, T.With(b, P, Q, next, n), b, next', fuel)
  {
    hide TransferJoin, Copies, IsJoin, Valid, Identify, ConstantsLead, Fn.PhisAfter, TidyBefore, TidyAt, InRound, SolvedTo, EntersBy, Settled;
    var T' := T.With(b, P, Q, next, n);
    assert BlockForm(F, b);
    EntrySolved(F, T, b, next, fuel, first, P, n);
    VisitTidy(F, Ends(F.Preds(), T.pout), b, Numbering(P, n), fuel);
    EarlierHas(F, b);
    ProgramWith(F, T, b, P, Q, next, n);
    hide ProgramOf;
    var G, G' := Ends(F.Preds(), T.pout), ProgramOf(F, T').ends;
    EarlierSame(F, T, b, Q);
    hide SameOn, Earlier;
    assert F.preds[b][0] in F.preds[b];
    assert |F.preds[b]| == 2 ==> F.preds[b][1] in F.preds[b];
    NotItsOwnPred(F, b);
    TransferSame(G, G', Earlier(F, b), b, Numbering(P, n), F.code[b], fuel);
  }

  lemma NotItsOwnPred(F: Fn, b: nat)
    requires F.Valid() && b < |F.code| && Settled(F, b)
    ensures forall p :: p in F.preds[b] ==> p != b
  {
  }

  lemma EarlierSame(F: Fn, T: Tables, b: nat, Q: Partition)
    requires F.Valid() && b < |F.code| && !F.Root(b)
    ensures SameOn(Ends(F.Preds(), T.pout), Ends(F.Preds(), T.pout[b := Q]), Earlier(F, b))
  {
    forall a, p | a in Earlier(F, b) && p in F.preds[a] ensures p in Earlier(F, b) {
      assert Settled(F, a);
    }
  }

  /** One more block has been visited. */
  lemma SolvedStep(F: Fn, T: Tables, b: nat, next: nat, fuel: nat, first: bool, P: Partition, n: nat, Q: Partition, next': nat)
    requires F.Valid() && InRound(F, b, T.pout, next, first) && SolvedTo(F, T, b, next, fuel)
    requires b < |F.code| && F.Visited(b) && EntersBy(F, b, T.pout, P, next, n) && 0 < next <= n <= next'
    requires var r := TransferJoin(Ends(F.Preds(), T.pout), b, Numbering(P, n), F.code[b], fuel);
             r.Some? && Numbering(Q, next') == Copies(r.value, F.PhisAfter(b), b)
    ensures SolvedTo(F, T.With(b, P, Q, next, n), b + 1, next', fuel)
  {
    hide TransferJoin, Copies, SolvedAt, InRound, EntersBy, Settled, SsaForm;
    var T' := T.With(b, P, Q, next, n);
    if SsaForm(F) {
      if Settled(F, b) { SolvedBlock(F, T, b, next, fuel, first, P, n, Q, next'); }
      forall a: nat {:trigger SolvedAt(F, T', a, next', fuel)} | a < |F.code| && Settled(F, a) && Past(F, a, b + 1)
        ensures SolvedAt(F, T', a, next', fuel)
      {
        if a != b {
          assert SolvedAt(F, T, a, next, fuel);
          SolvedOther(F, T, b, P, Q, next, n, a, next', fuel);
        }
      }
    }
  }

  lemma SolvedOther(F: Fn, T: Tables, b: nat, P: Partition, Q: Partition, next: nat, n: nat, a: nat, next': nat, fuel: nat)
    requires F.Valid() && a < |F.code| && Settled(F, a) && SolvedAt(F, T, a, next, fuel) && next <= next' && !F.Root(b) && a != b && Past(F, a, b)
    ensures SolvedAt(F, T.With(b, P, Q, next, n), a, next', fuel)
  {
    var T' := T.With(b, P, Q, next, n);
    assert T'.pin[a] == T.pin[a];
    hide Solved, TidyAt, TidyBefore, TransferJoin, Settled;
    SolvedSame(F, T, T', a, next, next', fuel);
  }

  /** A block that is not visited. */
  lemma SolvedSkip(F: Fn, T: Tables, b: nat, next: nat, fuel: nat)
    requires F.Valid() && SolvedTo(F, T, b, next, fuel) && b < |F.code| && !F.Visited(b)
    ensures SolvedTo(F, T, b + 1, next, fuel)
  {
    hide SolvedAt, SsaForm;
  }

  // ----- before the round -----

  ghost predicate RootsSolved(F: Fn, T: Tables, k: nat, next: nat, fuel: nat)
    requires F.Valid()
  {
    SsaForm(F) ==>
      forall b: nat {:trigger SolvedAt(F, T, b, next, fuel)} :: b < |F.code| && b < k && F.Root(b) ==> SolvedAt(F, T, b, next, fuel)
  }

  lemma RootsStep(F: Fn, T: Tables, b: nat, next: nat, fuel: nat, T': Tables, next': nat)
    requires F.Valid() && RootsSolved(F, T, b, next, fuel) && b < |F.code| && next <= next'
    requires forall a: nat :: a != b ==>
               && (a in T.pin ==> a in T'.pin && T'.pin[a] == T.pin[a]) && (a in T.pout ==> a in T'.pout && T'.pout[a] == T.pout[a])
               && (a in T.starts ==> a in T'.starts && T'.starts[a] == T.starts[a])
               && (a in T.joins ==> a in T'.joins && T'.joins[a] == T.joins[a])
    requires SsaForm(F) && F.Root(b) ==> SolvedAt(F, T', b, next', fuel)
    ensures RootsSolved(F, T', b + 1, next', fuel)
  {
    hide SsaForm;
    if SsaForm(F) {
      forall a: nat {:trigger SolvedAt(F, T', a, next', fuel)} | a < |F.code| && a < b + 1 && F.Root(a) ensures SolvedAt(F, T', a, next', fuel) {
        if a != b {
          assert SolvedAt(F, T, a, next, fuel);
          hide Solved, TidyAt;
          SolvedSame(F, T, T', a, next, next', fuel);
        }
      }
    }
  }

  /** What has been computed for blocks without predecessors stays. */
  ghost predicate SameRoots(F: Fn, T: Tables, T': Tables) {
    forall a: nat :: F.Root(a) ==>
      && (a in T.pin ==> a in T'.pin && T'.pin[a] == T.pin[a]) && (a in T.pout ==> a in T'.pout && T'.pout[a] == T.pout[a])
      && (a in T.starts ==> a in T'.starts && T'.starts[a] == T.starts[a])
      && (a in T.joins ==> a in T'.joins && T'.joins[a] == T.joins[a])
  }

  lemma SameRootsSelf(F: Fn, T: Tables)
    ensures SameRoots(F, T, T)
  {
  }

  lemma RoundStays(F: Fn, T: Tables, b: nat, P: Partition, Q: Partition, lo: nat, n: nat)
    requires F.Visited(b)
    ensures SameRoots(F, T, T.With(b, P, Q, lo, n)) && UnvisitedStay(F, T.pout, T.With(b, P, Q, lo, n).pout)
  {
  }

  lemma SameRootsTrans(F: Fn, T: Tables, T1: Tables, T2: Tables)
    requires SameRoots(F, T, T1) && SameRoots(F, T1, T2)
    ensures SameRoots(F, T, T2)
  {
  }

  /** A round begins with the blocks without predecessors, as they were before the first. */
  lemma RootsAreSolved(F: Fn, T: Tables, next: nat, fuel: nat, T': Tables)
    requires F.Valid() && RootsSolved(F, T, |F.code|, next, fuel) && SameRoots(F, T, T')
    ensures SolvedTo(F, T', 0, next, fuel)
  {
    hide SsaForm;
    if SsaForm(F) {
      forall a: nat {:trigger SolvedAt(F, T', a, next, fuel)} | a < |F.code| && F.Root(a) ensures SolvedAt(F, T', a, next, fuel) {
        assert SolvedAt(F, T, a, next, fuel);
        hide Solved, TidyAt;
        SolvedSame(F, T, T', a, next, next, fuel);
      }
    }
  }

  // ----- walks through the function -----

  /** A way from a block without predecessors, along the edges; each block is the only successor with phis. */
  ghost predicate Follows(F: Fn, w: Walk)
    requires F.Valid()
    decreases w
  {
    && w.b < |F.code|
    && match w
       case Start(b) => F.Root(b)
       case Step(before, b, front) =>
         && Follows(F, before) && F.Visited(b) && F.preds[b][if |F.preds[b]| == 2 && !front then 1 else 0] == before.b
         && F.PhisAfter(before.b) == PhisIn(F.code[b])
  }

  /** After a round, every way through settled blocks is solved. */
  lemma {:induction false} RoundWalkSolved(F: Fn, T: Tables, w: Walk, next: nat, fuel: nat)
    requires F.Valid() && SsaForm(F) && SolvedTo(F, T, |F.code|, next, fuel) && Follows(F, w) && Settled(F, w.b)
    ensures WalkSolved(ProgramOf(F, T), w, fuel)
    ensures F.Root(First(w)) && First(w) < |F.code| && ProgramOf(F, T).ends.Preds(First(w)) == []
    ensures First(w) in T.starts
    ensures var n := T.starts[First(w)]; ProgramOf(F, T).Pin(First(w)) == Numbering(EntryClasses(F.vars, n), n + |F.vars|)
    decreases w
  {
    hide Solved, TidyAt, TidyBefore, TransferJoin, EntryClasses;
    assert SolvedAt(F, T, w.b, next, fuel) && BlockForm(F, w.b);
    match w
    case Start(_) =>
    case Step(before, b, _) =>
      assert before.b in F.preds[b];
      RoundWalkSolved(F, T, before, next, fuel);
  }

  /** Value numbering as the pass performs it keeps every way through settled blocks on which there is no join,
      or the guard is met at each: with members replaced by leaders it has the same values and effects. */
  lemma RoundReplaced(F: Fn, T: Tables, w: Walk, next: nat, fuel: nat, M: Machine, s: State, phis: set<nat>)
    requires F.Valid() && SsaForm(F) && SolvedTo(F, T, |F.code|, next, fuel) && Follows(F, w) && Settled(F, w.b)
    requires F.PhisAfter(w.b) == [] && (forall v :: v in F.vars ==> Val(v, M, s.env).Some?)
    requires FreshWalk(ProgramOf(F, T), w, M, s) && ExecWalk(ProgramOf(F, T), w, M, s).Some?
    requires Straight(ProgramOf(F, T), w) || WalkGuarded(ProgramOf(F, T), w, fuel)
    ensures ExecWalk(ReplacedProgram(ProgramOf(F, T), phis), w, M, s) == ExecWalk(ProgramOf(F, T), w, M, s)
    ensures var p := ProgramOf(F, T); var env := ExecWalk(p, w, M, s).value.env;
            Vals(F.tails[w.b], M, env).Some? ==> Vals(ReplacedProgram(p, phis).Tail(w.b), M, env) == Vals(F.tails[w.b], M, env)
  {
    hide FreshWalk, ExecWalk, Straight, WalkGuarded, WalkSolved, SolvedTo, ReplacedProgram, EntryClasses, Follows;
    RoundWalkSolved(F, T, w, next, fuel);
    GuardedWalkReplaced(ProgramOf(F, T), w, fuel, M, s, F.vars, T.starts[First(w)], phis);
  }

  /** After a round, replacing redirects every operand of a settled block: what stands for it is the leader of its class
      at the end of the block it belongs to. No use of what a class redirects is left in the block, nor at a phi that
      takes it from there. */
  lemma RoundRedirected(F: Fn, T: Tables, next: nat, fuel: nat, phis: set<nat>, b: nat)
    requires F.Valid() && SsaForm(F) && SolvedTo(F, T, |F.code|, next, fuel) && b < |F.code| && Settled(F, b)
    ensures var p := ProgramOf(F, T); var q := ReplacedProgram(p, phis);
            && b in T.pout && OperandsBecome(p, q, phis, b)
            && (forall c, v :: c in T.pout[b] && Redirects(c, phis, v) ==> UnusedIn(q, b, v))
            && (forall a, c, v :: a in F.preds[b] && a in T.pout && c in T.pout[a] && Redirects(c, phis, v) ==> UntakenBy(q, b, a, v))
  {
    hide SsaForm, Solved, NamedBy, Redirects, OperandsBecome, ReplacedProgram, Disjoint, UnusedIn, UntakenBy;
    var p := ProgramOf(F, T);
    var q := ReplacedProgram(p, phis);
    TidyEnd(F, T, next, fuel, b);
    forall a | a in F.preds[b] ensures a < |F.code| && Settled(F, a) && Disjoint(p.ends.Out(a)) && Home(p.ends.Out(a)) {
      TidyEnd(F, T, next, fuel, a);
    }
    ProgramRedirected(p, phis, b);
    forall c, v | c in T.pout[b] && Redirects(c, phis, v) ensures UnusedIn(q, b, v) { NoUseInBlock(p, q, phis, b, c, v); }
    forall a, c, v | a in F.preds[b] && a in T.pout && c in T.pout[a] && Redirects(c, phis, v) ensures UntakenBy(q, b, a, v) {
      UntakenFrom(p, q, phis, b, a, c, v);
    }
  }

  lemma TidyEnd(F: Fn, T: Tables, next: nat, fuel: nat, b: nat)
    requires F.Valid() && SsaForm(F) && SolvedTo(F, T, |F.code|, next, fuel) && b < |F.code| && Settled(F, b)
    ensures b in T.pout && Disjoint(ProgramOf(F, T).ends.Out(b)) && Home(ProgramOf(F, T).ends.Out(b))
  {
    hide SsaForm, Solved, NamedBy;
    assert SolvedAt(F, T, b, next, fuel);
  }
}
