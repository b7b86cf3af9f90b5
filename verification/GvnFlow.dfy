// What the first round of value numbering can know at the end of a block, stated by paths: the blocks
// are visited in list order, those without predecessors before all others.
module GvnFlow {
  import opened Gvn
  import opened GvnTransfer
  import opened GvnPath
  import opened GvnValues

  /** A function: its blocks in list order with the operands of their terminators, their edge lists, and its
      arguments and global variables. */
  datatype Fn = Fn(code: seq<seq<Inst>>, tails: seq<seq<Value>>, preds: seq<seq<nat>>, succs: seq<seq<nat>>, vars: seq<Value>) {
    ghost predicate Valid() {
      && |code| == |tails| == |preds| == |succs|
      && (forall b, p :: 0 <= b < |preds| && p in preds[b] ==> p < |code|)
      && (forall b, s :: 0 <= b < |succs| && s in succs[b] ==> s < |code|)
    }

    function Preds(): (r: map<nat, seq<nat>>)
      ensures forall b: nat :: b in r <==> b < |preds|
      ensures forall b: nat :: b < |preds| ==> r[b] == preds[b]
    {
      map b: nat | 0 <= b < |preds| :: preds[b]
    }

    /** The phis of the successors of b. */
    function PhisAfter(b: nat): seq<Inst>
      requires Valid() && b < |code|
    {
      PhisOf(succs[b])
    }

    function PhisOf(blocks: seq<nat>): seq<Inst>
      requires forall s :: s in blocks ==> s < |code|
    {
      if blocks == [] then [] else
        assert blocks[0] in blocks && forall s :: s in blocks[1..] ==> s in blocks;
        PhisIn(code[blocks[0]]) + PhisOf(blocks[1..])
    }

    /** The block has no predecessor: it starts from the arguments and global variables. */
    predicate Root(b: nat) { b < |preds| && preds[b] == [] }

    /** The rounds visit blocks with one predecessor or two. */
    predicate Visited(b: nat) { b < |preds| && (|preds[b]| == 1 || |preds[b]| == 2) }

    /** The values that the visit of b makes. */
    function Made(b: nat): set<Value>
      requires Valid() && b < |code|
    {
      Valued(code[b]) + Copied(PhisAfter(b), b) + (if Root(b) then set v | v in vars else {})
    }
  }

  // ----- paths -----

  /** When b is visited first, its predecessor a has been visited. */
  predicate Arc(F: Fn, a: nat, b: nat) {
    F.Visited(b) && a in F.preds[b] && (F.Root(a) || a < b)
  }

  /** A path of visits, each after the one before. */
  ghost predicate ArcPath(F: Fn, q: seq<nat>) {
    && q != [] && (F.Root(q[0]) || F.Visited(q[0]))
    && (forall i :: 0 <= i < |q| ==> q[i] < |F.code|)
    && (forall i :: 0 <= i < |q| - 1 ==> Arc(F, q[i], q[i + 1]))
  }

  ghost predicate Makes(F: Fn, q: seq<nat>)
    requires F.Valid() && forall i :: 0 <= i < |q| ==> q[i] < |F.code|
  {
    exists i :: 0 <= i < |q| && F.Made(q[i]) != {}
  }

  /** A path of visits to b from a block without predecessors, or one on which a value is made. */
  ghost predicate Brings(F: Fn, q: seq<nat>, b: nat)
    requires F.Valid()
  {
    ArcPath(F, q) && q[|q| - 1] == b && (F.Root(q[0]) || Makes(F, q))
  }

  /** Something is known at the end of b; otherwise its partition stays the one of blocks not computed yet. */
  ghost predicate Carries(F: Fn, b: nat)
    requires F.Valid()
  {
    exists q :: Brings(F, q, b)
  }

  /** Nothing is known when b is visited, but for arguments and globals. */
  ghost predicate Starts(F: Fn, b: nat)
    requires F.Valid()
  {
    forall a: nat :: Arc(F, a, b) ==> !Carries(F, a)
  }

  ghost predicate Avoids(F: Fn, q: seq<nat>, v: Value)
    requires F.Valid() && forall i :: 0 <= i < |q| ==> q[i] < |F.code|
  {
    forall i :: 0 <= i < |q| ==> v !in F.Made(q[i])
  }

  /** A path of visits to b, from one that starts with nothing, that does not make v. */
  ghost predicate Misses(F: Fn, q: seq<nat>, b: nat, v: Value)
    requires F.Valid()
  {
    && ArcPath(F, q) && q[|q| - 1] == b && Starts(F, q[0]) && Avoids(F, q, v)
    && forall i :: 0 <= i < |q| ==> Carries(F, q[i])
  }

  ghost predicate Missing(F: Fn, b: nat, v: Value)
    requires F.Valid()
  {
    exists q :: Misses(F, q, b, v)
  }

  /** Every value is missing at the end of b. */
  ghost predicate NothingAt(F: Fn, b: nat)
    requires F.Valid()
  {
    Carries(F, b) && forall v :: Missing(F, b, v)
  }

  /** The join at b reads the first class of a partition that has none: that of the front predecessor, or
      that of the back one if the front one is known. */
  ghost predicate LooksIntoEmpty(F: Fn, b: nat)
    requires F.Valid()
  {
    && b < |F.preds| && |F.preds[b]| == 2
    && var front, back := F.preds[b][0], F.preds[b][1];
       && Arc(F, front, b)
       && (NothingAt(F, front) || (Carries(F, front) && Arc(F, back, b) && NothingAt(F, back)))
  }

  // ----- from the predecessors -----

  lemma PathEnds(F: Fn, q: seq<nat>)
    requires F.Valid() && ArcPath(F, q) && 2 <= |q|
    ensures ArcPath(F, q[..|q| - 1]) && Arc(F, q[|q| - 2], q[|q| - 1])
  {
    var p := q[..|q| - 1];
    forall i | 0 <= i < |p| - 1 ensures Arc(F, p[i], p[i + 1]) { assert Arc(F, q[i], q[i + 1]); }
  }

  lemma PathMore(F: Fn, q: seq<nat>, b: nat)
    requires F.Valid() && ArcPath(F, q) && Arc(F, q[|q| - 1], b)
    ensures ArcPath(F, q + [b])
  {
    var r := q + [b];
    forall i | 0 <= i < |r| - 1 ensures Arc(F, r[i], r[i + 1]) {
      if i < |q| - 1 { assert Arc(F, q[i], q[i + 1]); }
    }
  }

  lemma CarriesStep(F: Fn, b: nat)
    requires F.Valid() && b < |F.code|
    ensures Carries(F, b) <==> F.Root(b) || (F.Visited(b) && (F.Made(b) != {} || exists a: nat :: Arc(F, a, b) && Carries(F, a)))
  {
    if q :| Brings(F, q, b) {
      if |q| == 1 {
        assert Makes(F, q) ==> F.Made(q[0]) != {};
      } else {
        CarriesBefore(F, q, b);
      }
    }
    if F.Root(b) || (F.Visited(b) && F.Made(b) != {}) {
      assert ArcPath(F, [b]);
      assert F.Made(b) != {} ==> F.Made([b][0]) != {};
      assert Brings(F, [b], b);
    }
    if a: nat :| Arc(F, a, b) && Carries(F, a) {
      var q :| Brings(F, q, a);
      PathMore(F, q, b);
      MakesMore(F, q, b);
      assert Brings(F, q + [b], b);
    }
  }

  lemma CarriesBefore(F: Fn, q: seq<nat>, b: nat)
    requires F.Valid() && Brings(F, q, b) && 2 <= |q|
    ensures Arc(F, q[|q| - 2], b) && (F.Made(b) != {} || Carries(F, q[|q| - 2]))
  {
    hide Fn.Made, Arc, Fn.Root, Fn.Visited;
    PathEnds(F, q);
    var p := q[..|q| - 1];
    if F.Made(b) == {} {
      MakesBefore(F, q);
      assert Brings(F, p, p[|p| - 1]);
    }
  }

  lemma MakesBefore(F: Fn, q: seq<nat>)
    requires F.Valid() && q != [] && (forall i :: 0 <= i < |q| ==> q[i] < |F.code|) && F.Made(q[|q| - 1]) == {}
    ensures Makes(F, q) ==> Makes(F, q[..|q| - 1])
  {
    hide Fn.Made;
    if i :| 0 <= i < |q| && F.Made(q[i]) != {} { assert F.Made(q[..|q| - 1][i]) != {}; }
  }

  lemma MakesMore(F: Fn, q: seq<nat>, b: nat)
    requires F.Valid() && (forall i :: 0 <= i < |q| ==> q[i] < |F.code|) && b < |F.code|
    ensures Makes(F, q) ==> Makes(F, q + [b])
  {
    if i :| 0 <= i < |q| && F.Made(q[i]) != {} { assert F.Made((q + [b])[i]) != {}; }
  }

  /** A value is missing at the end of b exactly if b does not make it, and starts with nothing or has a
      known predecessor where it is missing. */
  lemma MissingStep(F: Fn, b: nat, v: Value)
    requires F.Valid() && b < |F.code| && Carries(F, b)
    ensures Missing(F, b, v) <==>
              v !in F.Made(b) && (Starts(F, b) || exists a: nat :: Arc(F, a, b) && Carries(F, a) && Missing(F, a, v))
  {
    hide Carries, Starts, Arc, Fn.Made;
    if q :| Misses(F, q, b, v) {
      assert v !in F.Made(q[|q| - 1]);
      assert |q| == 1 ==> q[0] == b;
      if 2 <= |q| { MissesBefore(F, q, b, v); }
    }
    if v !in F.Made(b) && Starts(F, b) {
      CarriesStep(F, b);
      PathAlone(F, b);
      assert Misses(F, [b], b, v);
    }
    if v !in F.Made(b) && exists a: nat :: Arc(F, a, b) && Carries(F, a) && Missing(F, a, v) {
      var a: nat :| Arc(F, a, b) && Carries(F, a) && Missing(F, a, v);
      var q :| Misses(F, q, a, v);
      MissesMore(F, q, a, b, v);
    }
  }

  lemma PathAlone(F: Fn, b: nat)
    requires F.Valid() && b < |F.code| && (F.Root(b) || F.Visited(b))
    ensures ArcPath(F, [b])
  {
  }

  lemma MissesBefore(F: Fn, q: seq<nat>, b: nat, v: Value)
    requires F.Valid() && Misses(F, q, b, v) && 2 <= |q|
    ensures var a := q[|q| - 2]; Arc(F, a, b) && Carries(F, a) && Missing(F, a, v)
  {
    hide Carries, Starts;
    PathEnds(F, q);
    var p := q[..|q| - 1];
    forall i | 0 <= i < |p| ensures v !in F.Made(p[i]) && Carries(F, p[i]) { assert p[i] == q[i]; }
    assert Misses(F, p, p[|p| - 1], v);
  }

  lemma MissesMore(F: Fn, q: seq<nat>, a: nat, b: nat, v: Value)
    requires F.Valid() && Misses(F, q, a, v) && Arc(F, a, b) && b < |F.code| && v !in F.Made(b) && Carries(F, b)
    ensures Missing(F, b, v)
  {
    hide Carries, Starts;
    PathMore(F, q, b);
    var r := q + [b];
    forall i | 0 <= i < |r| ensures v !in F.Made(r[i]) && Carries(F, r[i]) {
      if i < |q| { assert r[i] == q[i]; }
    }
    assert Misses(F, r, b, v);
  }

  // ----- blocks without predecessors -----

  /** At the end of a block without predecessors nothing has a value if and only if there are no arguments
      and globals, the block computes no value, and it makes no copies. */
  lemma EntryIsEmptyIff(F: Fn, b: nat)
    requires F.Valid() && b < |F.code| && F.Root(b)
    ensures NothingAt(F, b) <==>
              && F.vars == [] && (forall i :: i in F.code[b] ==> !HasValue(i))
              && forall i :: i in F.PhisAfter(b) && i.Phi? ==> i.from1 != b && i.from2 != b
  {
    MadeAtEntry(F, b);
    hide Carries, Missing, Fn.Made, Valued, Copied, Fn.PhisAfter;
    CarriesStep(F, b);
    assert Starts(F, b);
    forall v ensures Missing(F, b, v) <==> v !in F.Made(b) { MissingStep(F, b, v); }
  }

  lemma MadeAtEntry(F: Fn, b: nat)
    requires F.Valid() && b < |F.code| && F.Root(b)
    ensures F.Made(b) == {} <==>
              && F.vars == [] && (forall i :: i in F.code[b] ==> !HasValue(i))
              && forall i :: i in F.PhisAfter(b) && i.Phi? ==> i.from1 != b && i.from2 != b
  {
    assert forall v :: v in F.vars ==> v in F.Made(b);
    assert F.vars != [] ==> F.vars[0] in F.vars;
    assert forall i :: i in F.code[b] && HasValue(i) ==> Instr(i.id) in F.Made(b);
    assert forall i :: i in F.PhisAfter(b) && i.Phi? && (i.from1 == b || i.from2 == b) ==> Instr(i.id) in F.Made(b);
  }
}
