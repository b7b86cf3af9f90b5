// Value numbering along a path through several blocks: copies for the phis of the next block,
// joins, and the transfer function, one after the other.
module GvnPath {
  import opened Wrappers
  import IR
  import opened Gvn
  import opened GvnTransfer
  import opened GvnSound
  import opened GvnJoin

  // ----- copies -----

  /** The class takes in copies of v. */
  predicate Takes(c: Class, v: Value) {
    v in c.members || (v.IntConst? && c.expr == Some(Leaf(v)))
  }

  /** Every class that takes v in gets the phi. */
  function AddCopy(P: Partition, v: Value, phi: nat): (r: Partition)
    ensures |r| == |P|
    ensures forall k :: 0 <= k < |P| ==> r[k] == if Takes(P[k], v) then P[k].(members := P[k].members + {Instr(phi)}) else P[k]
  {
    seq(|P|, k requires 0 <= k < |P| => if Takes(P[k], v) then P[k].(members := P[k].members + {Instr(phi)}) else P[k])
  }

  predicate Taken(P: Partition, v: Value) {
    exists k :: 0 <= k < |P| && Takes(P[k], v)
  }

  /** The statement phi := v at the end of a block. */
  function Copy(N: Numbering, phi: nat, v: Value): Numbering {
    var P := Without(N.classes, Instr(phi));
    if Taken(P, v) then N.(classes := AddCopy(P, v, phi))
    else Numbering(Insert(P, Class(N.next, Some(v), Some(Leaf(v)), None, {Instr(phi)})), N.next + 1)
  }

  /** The copies that the end of block b makes for the phis of a successor. */
  function Copies(N: Numbering, succ: seq<Inst>, b: nat): Numbering
    decreases succ
  {
    if succ == [] then N
    else if !succ[0].Phi? then Copies(N, succ[1..], b)
    else
      var N1 := if succ[0].from1 == b then Copy(N, succ[0].id, succ[0].val1) else N;
      var N2 := if succ[0].from2 == b then Copy(N1, succ[0].id, succ[0].val2) else N1;
      Copies(N2, succ[1..], b)
  }

  /** The phis of a block. */
  function PhisIn(block: seq<Inst>): seq<Inst> {
    if block == [] then [] else (if block[0].Phi? then [block[0]] else []) + PhisIn(block[1..])
  }

  lemma {:induction false} CopiesOfPhis(N: Numbering, block: seq<Inst>, b: nat)
    ensures Copies(N, PhisIn(block), b) == Copies(N, block, b)
    decreases block
  {
    hide Copy;
    if block != [] {
      if block[0].Phi? {
        assert PhisIn(block)[0] == block[0] && PhisIn(block)[1..] == PhisIn(block[1..]);
        var N1 := if block[0].from1 == b then Copy(N, block[0].id, block[0].val1) else N;
        var N2 := if block[0].from2 == b then Copy(N1, block[0].id, block[0].val2) else N1;
        CopiesOfPhis(N2, block[1..], b);
      } else {
        assert PhisIn(block) == PhisIn(block[1..]);
        CopiesOfPhis(N, block[1..], b);
      }
    }
  }

  /** A class made for copies of a constant has that constant for its leader, and is the only one. */
  ghost predicate ConstantsLead(P: Partition) {
    && (forall c, n: int :: c in P && c.expr == Some(Leaf(IntConst(n))) ==> c.leader == Some(IntConst(n)))
    && (forall i, j, n: int :: 0 <= i < j < |P| && P[i].expr == Some(Leaf(IntConst(n))) ==> P[j].expr != P[i].expr)
    && (forall c, n: int :: c in P ==> IntConst(n) !in c.members)
  }

  /** What is kept from block to block, true or not. */
  ghost predicate Numbers(N: Numbering, M: Machine, env: Env, sides: Sides) {
    Numbered(N, M, env, sides) && ConstantsLead(N.classes)
  }

  lemma OneTaker(P: Partition, v: Value, i: nat, j: nat)
    requires Disjoint(P) && ConstantsLead(P) && i < |P| && j < |P| && Takes(P[i], v) && Takes(P[j], v)
    ensures i == j
  {
    assert P[i] in P && P[j] in P;
  }

  /** A class that takes v in is true of a copy of v. */
  lemma TakerIsTrue(P: Partition, c: Class, v: Value, phi: nat, M: Machine, env: Env, env': Env, sides: Sides)
    requires Sound(P, M, env, sides) && ConstantsLead(P) && c in P && Takes(c, v)
    requires Grows(env, env') && phi in env' && Val(v, M, env) == Some(env'[phi])
    ensures TrueOf(c, Instr(phi), M, env', sides)
  {
    var m :| m in c.members;
    assert TrueOf(c, m, M, env, sides);
    TrueGrows(c, m, M, env, env', sides);
    if v in c.members { assert TrueOf(c, v, M, env, sides); }
  }

  lemma AddCopyIs(P: Partition, v: Value, phi: nat, k: nat)
    requires Disjoint(P) && ConstantsLead(P) && k < |P| && Takes(P[k], v)
    ensures AddedAt(P, AddCopy(P, v, phi), k, Instr(phi))
  {
    hide Takes;
    var Q := P[k := P[k].(members := P[k].members + {Instr(phi)})];
    forall j | 0 <= j < |P| ensures AddCopy(P, v, phi)[j] == Q[j] {
      if Takes(P[j], v) { OneTaker(P, v, j, k); }
    }
    assert AddCopy(P, v, phi) == Q;
  }

  lemma AddedConstantsLead(P: Partition, Q: Partition, k: nat, id: nat)
    requires ConstantsLead(P) && AddedAt(P, Q, k, Instr(id))
    ensures ConstantsLead(Q)
  {
    forall d | d in Q
      ensures forall n: int :: d.expr == Some(Leaf(IntConst(n))) ==> d.leader == Some(IntConst(n))
      ensures forall n: int :: IntConst(n) !in d.members
    {
      var j: nat :| j < |Q| && Q[j] == d;
      assert P[j] in P;
    }
  }

  lemma SnocConstantsLead(P: Partition, c: Class)
    requires ConstantsLead(P) && forall n: int :: IntConst(n) !in c.members
    requires forall n: int :: c.expr == Some(Leaf(IntConst(n))) ==> c.leader == Some(IntConst(n))
    requires forall n: int, d :: d in P && c.expr == Some(Leaf(IntConst(n))) ==> d.expr != c.expr
    ensures ConstantsLead(P + [c])
  {
  }

  /** A copy of a value that has been computed keeps the partition true. */
  lemma CopySound(N: Numbering, phi: nat, v: Value, M: Machine, env: Env, sides: Sides)
    requires Numbers(N, M, env, sides) && phi !in env && Val(v, M, env).Some? && !v.FuncVar?
    ensures Numbers(Copy(N, phi, v), M, env[phi := Val(v, M, env).value], sides)
    ensures Traces(N.classes, Copy(N, phi, v).classes, env)
  {
    hide Sound, Takes, Sorted, Disjoint, ConstantsLead, Traces;
    NotMembers(N.classes, phi, M, env, sides);
    WithoutNothing(N.classes, Instr(phi));
    if Taken(N.classes, v) {
      var k: nat :| k < |N.classes| && Takes(N.classes[k], v);
      CopyJoins(N, phi, v, k, M, env, sides);
    } else {
      CopyAlone(N, phi, v, M, env, sides);
    }
  }

  lemma CopyJoins(N: Numbering, phi: nat, v: Value, k: nat, M: Machine, env: Env, sides: Sides)
    requires Numbers(N, M, env, sides) && phi !in env && Val(v, M, env).Some? && !v.FuncVar?
    requires k < |N.classes| && Takes(N.classes[k], v)
    ensures Numbers(N.(classes := AddCopy(N.classes, v, phi)), M, env[phi := Val(v, M, env).value], sides)
    ensures Traces(N.classes, AddCopy(N.classes, v, phi), env)
  {
    hide Sound, Takes, Sorted, ConstantsLead, Traces, TrueOf;
    var P, env' := N.classes, env[phi := Val(v, M, env).value];
    assert P[k] in P;
    AddCopyIs(P, v, phi, k);
    TakerIsTrue(P, P[k], v, phi, M, env, env', sides);
    AddNumbered(N, AddCopy(P, v, phi), k, phi, M, env, env', sides);
    AddedConstantsLead(P, AddCopy(P, v, phi), k, phi);
  }

  lemma CopyAlone(N: Numbering, phi: nat, v: Value, M: Machine, env: Env, sides: Sides)
    requires Numbers(N, M, env, sides) && phi !in env && Val(v, M, env).Some? && !v.FuncVar? && !Taken(N.classes, v)
    ensures var c := Class(N.next, Some(v), Some(Leaf(v)), None, {Instr(phi)}); var P' := Insert(N.classes, c);
            && Numbers(Numbering(P', N.next + 1), M, env[phi := Val(v, M, env).value], sides)
            && Traces(N.classes, P', env)
  {
    hide Sound, Takes, Taken, Sorted, Disjoint, Traces, TrueOf;
    var P, env' := N.classes, env[phi := Val(v, M, env).value];
    var c := Class(N.next, Some(v), Some(Leaf(v)), None, {Instr(phi)});
    CopyClassTrue(c, phi, v, M, env, env', sides);
    NewNumbered(N, c, phi, M, env, env', sides);
    InsertLast(P, c);
    forall d | d in P ensures v.IntConst? ==> d.expr != Some(Leaf(v)) {
      var j: nat :| j < |P| && P[j] == d;
      NotTaken(P, v, j);
    }
    SnocConstantsLead(P, c);
  }

  lemma NotTaken(P: Partition, v: Value, j: nat)
    requires !Taken(P, v) && j < |P|
    ensures v.IntConst? ==> P[j].expr != Some(Leaf(v))
  {
    assert !Takes(P[j], v);
  }

  lemma CopyClassTrue(c: Class, phi: nat, v: Value, M: Machine, env: Env, env': Env, sides: Sides)
    requires c.leader == Some(v) && c.expr == Some(Leaf(v)) && c.phi == None
    requires Grows(env, env') && phi in env' && Val(v, M, env) == Some(env'[phi])
    ensures TrueOf(c, Instr(phi), M, env', sides)
  {
    ValGrows(v, M, env, env');
  }

  // ----- entering a block -----

  /** The phis of a block take the values they have at the end of the block left. */
  function Enter(block: seq<Inst>, from: nat, M: Machine, at: Env, env: Env): Option<Env>
    decreases block
  {
    if block == [] then Some(env)
    else if !block[0].Phi? then Enter(block[1..], from, M, at, env)
    else
      var i := block[0];
      if i.from1 != from && i.from2 != from then None
      else
        var n :- Val(if i.from1 == from then i.val1 else i.val2, M, at);
        Enter(block[1..], from, M, at, env[i.id := n])
  }

  /** The phis of the block are new registers, take no function for a value, and come from different predecessors. */
  ghost predicate PhisNew(block: seq<Inst>, made: set<nat>) {
    && (forall i :: i in block && i.Phi? ==> i.id !in made && i.from1 != i.from2 && !i.val1.FuncVar? && !i.val2.FuncVar?)
    && (forall j, k :: 0 <= j < k < |block| && block[j].Phi? && block[k].Phi? ==> block[j].id != block[k].id)
  }

  /** After the copies for the phis of the next block, the partition is true once they are taken. */
  lemma {:induction false} CopiesSound(N: Numbering, block: seq<Inst>, from: nat, M: Machine, at: Env, env: Env, sides: Sides)
    requires Numbers(N, M, env, sides) && Grows(at, env) && PhisNew(block, env.Keys)
    requires Enter(block, from, M, at, env).Some?
    ensures Numbers(Copies(N, block, from), M, Enter(block, from, M, at, env).value, sides)
    ensures Traces(N.classes, Copies(N, block, from).classes, env) && Grows(env, Enter(block, from, M, at, env).value)
    decreases block
  {
    hide Numbers, Copy, Traces;
    if block == [] {
      SameTraces(N.classes, env);
    } else {
      var i := block[0];
      assert forall k :: 0 <= k < |block[1..]| ==> block[1..][k] == block[k + 1] && block[1..][k] in block;
      if !i.Phi? {
        CopiesSound(N, block[1..], from, M, at, env, sides);
      } else {
        assert i in block;
        var v := if i.from1 == from then i.val1 else i.val2;
        ValGrows(v, M, at, env);
        var env' := env[i.id := Val(v, M, at).value];
        CopySound(N, i.id, v, M, env, sides);
        assert env'.Keys == env.Keys + {i.id};
        CopiesSound(Copy(N, i.id, v), block[1..], from, M, at, env', sides);
        TracesTrans(N.classes, Copy(N, i.id, v).classes, Copies(N, block, from).classes, env, env');
      }
    }
  }

  // ----- what the transfer function and the join keep -----

  /** Addresses are not constants. */
  predicate AddressesVary(block: seq<Inst>) {
    forall i :: i in block && i.Load? ==> !i.addr.IntConst?
  }

  lemma PlaceConstantsLead(N: Numbering, i: Inst, vpf: Option<Expr>)
    requires ConstantsLead(N.classes) && (forall c :: c in N.classes ==> c.index < N.next) && HasValue(i) && (i.Load? ==> !i.addr.IntConst?)
    requires Place(N, i, ValueExpr(N.classes, i), vpf).Some?
    ensures ConstantsLead(Place(N, i, ValueExpr(N.classes, i), vpf).value.classes)
  {
    hide FirstMatch, ConstantsLead, NewLeader;
    var P, ve := N.classes, ValueExpr(N.classes, i);
    AddToMatchIs(P, ve, vpf, Instr(i.id));
    if !i.Load? && FirstMatch(P, ve, vpf).Some? {
      AddedConstantsLead(P, AddToMatch(P, ve, vpf, Instr(i.id)).value, FirstMatch(P, ve, vpf).value, i.id);
    } else {
      var c := Class(N.next, NewLeader(P, i), Some(ve), None, {Instr(i.id)});
      InsertLast(P, c);
      SnocConstantsLead(P, c);
    }
  }

  lemma {:induction false} BlockConstantsLead(G: Ends, b: nat, N: Numbering, block: seq<Inst>, fuel: nat, M: Machine, s: State, sides: Sides)
    requires Numbers(N, M, s.env, sides) && Fresh(block, s.env.Keys) && ExecAll(block, M, s).Some?
    requires AllAgree(G, b, N, block, fuel, M, s, sides) && AddressesVary(block)
    ensures TransferJoin(G, b, N, block, fuel).Some? && ConstantsLead(TransferJoin(G, b, N, block, fuel).value.classes)
    decreases block
  {
    hide Exec, JoinOne, Sound, ConstantsLead, AgreesHere, Sorted, Disjoint;
    if block != [] {
      var i := block[0];
      assert i in block && forall j :: j in block[1..] ==> j in block;
      JoinOneExact(G, b, N, i, fuel, M, s, sides);
      ExecGrows(i, M, s);
      JoinOneConstantsLead(G, b, N, i, fuel, M, s, sides);
      BlockConstantsLead(G, b, JoinOne(G, b, N, i, fuel).value, block[1..], fuel, M, Exec(i, M, s).value, sides);
    }
  }

  lemma JoinOneConstantsLead(G: Ends, b: nat, N: Numbering, i: Inst, fuel: nat, M: Machine, s: State, sides: Sides)
    requires Numbers(N, M, s.env, sides) && (HasValue(i) ==> i.id !in s.env) && (i.Load? ==> !i.addr.IntConst?)
    requires JoinOne(G, b, N, i, fuel).Some?
    ensures ConstantsLead(JoinOne(G, b, N, i, fuel).value.classes)
  {
    hide Sound, ConstantsLead, ValueExpr, Place, ValuePhi;
    if HasValue(i) {
      NotMembers(N.classes, i.id, M, s.env, sides);
      WithoutNothing(N.classes, Instr(i.id));
      match ValuePhi(G, b, ValueExpr(N.classes, i), N.classes, fuel) {
        case TooDeep =>
        case Answer(vpf) => PlaceConstantsLead(N, i, vpf);
      }
    }
  }

  lemma JoinConstantsLead(P: Partition, P1: Partition, P2: Partition, lo: nat, next: nat)
    requires Valid(P1, lo) && Valid(P2, lo) && ConstantsLead(P1) && ConstantsLead(P2) && IsJoin(P, P1, P2, lo, next)
    ensures ConstantsLead(P)
  {
    hide HasPair, HasClass, Meets, ConstantsLead, Apart;
    forall c, n: int | c in P
      ensures c.expr == Some(Leaf(IntConst(n))) ==> c.leader == Some(IntConst(n))
      ensures IntConst(n) !in c.members
    {
      assert HasPair(c, P1, P2, |P1|, 0, lo, next);
      var a, b := PairOf(c, P1, P2, |P1|, 0, lo, next);
      PairConstant(c, P1, P2, a, b, lo, next, n);
    }
    forall i, j, n: int | 0 <= i < j < |P| && P[i].expr == Some(Leaf(IntConst(n))) ensures P[j].expr != P[i].expr {
      if P[j].expr == P[i].expr {
        assert HasPair(P[i], P1, P2, |P1|, 0, lo, next) && HasPair(P[j], P1, P2, |P1|, 0, lo, next);
        var a, b := PairOf(P[i], P1, P2, |P1|, 0, lo, next);
        var a', b' := PairOf(P[j], P1, P2, |P1|, 0, lo, next);
        OneConstant(P1, a, a', n);
        OneConstant(P2, b, b', n);
        SamePair(P, P1, P2, lo, next, i, j, a, b);
      }
    }
    assert ConstantsLead(P) by { AllConstantsLead(P); }
  }

  lemma AllConstantsLead(P: Partition)
    requires forall c, n: int :: c in P ==> (c.expr == Some(Leaf(IntConst(n))) ==> c.leader == Some(IntConst(n))) && IntConst(n) !in c.members
    requires forall i, j, n: int :: 0 <= i < j < |P| && P[i].expr == Some(Leaf(IntConst(n))) ==> P[j].expr != P[i].expr
    ensures ConstantsLead(P)
  {
  }

  lemma PairConstant(c: Class, P1: Partition, P2: Partition, a: nat, b: nat, lo: nat, next: nat, n: int)
    requires ConstantsLead(P1) && ConstantsLead(P2) && FromPair(c, P1, P2, a, b, lo, next)
    ensures c.expr == Some(Leaf(IntConst(n))) ==> c.leader == Some(IntConst(n))
    ensures IntConst(n) !in c.members
  {
    assert P1[a] in P1 && P2[b] in P2;
  }

  lemma OneConstant(P: Partition, a: nat, b: nat, n: int)
    requires ConstantsLead(P) && a < |P| && b < |P| && P[a].expr == P[b].expr == Some(Leaf(IntConst(n)))
    ensures a == b
  {
  }

  /** Classes of the join from the same pair are the same. */
  lemma SamePair(P: Partition, P1: Partition, P2: Partition, lo: nat, next: nat, i: nat, j: nat, a: nat, b: nat)
    requires IsJoin(P, P1, P2, lo, next) && i < |P| && j < |P|
    requires FromPair(P[i], P1, P2, a, b, lo, next) && FromPair(P[j], P1, P2, a, b, lo, next)
    ensures i == j
  {
    hide HasPair, HasClass;
    assert P[i] in P && P[j] in P;
  }

  // ----- walks -----

  /** The blocks of a function with the operands of their terminators, the partitions at their ends, and
      for each block the first number given out when it is visited, and the next one after the join. */
  datatype Program = Program(blocks: map<nat, seq<Inst>>, tails: map<nat, seq<Value>>, ends: Ends, phisAfter: map<nat, seq<Inst>>,
                             first: map<nat, nat>, pins: map<nat, Numbering>) {
    function Block(b: nat): seq<Inst> { if b in blocks then blocks[b] else [] }

    /** The operands of its terminator: a condition, or a result. */
    function Tail(b: nat): seq<Value> { if b in tails then tails[b] else [] }

    /** The phis of the successors of b. */
    function PhisAfter(b: nat): seq<Inst> { if b in phisAfter then phisAfter[b] else [] }

    function Pin(b: nat): Numbering { if b in pins then pins[b] else Numbering([], 0) }

    function First(b: nat): nat { if b in first then first[b] else 0 }
  }

  /** A path from the entry; `front` says by which edge a block with two predecessors is entered. */
  datatype Walk = Start(b: nat) | Step(before: Walk, b: nat, front: bool)

  /** What the pass computes at block b: the partition on entry and the one at the end. */
  ghost predicate Solved(p: Program, b: nat, fuel: nat) {
    var preds := p.ends.Preds(b);
    && (|preds| == 1 ==> p.Pin(b).classes == p.ends.Out(preds[0]) && forall c :: c in p.Pin(b).classes ==> c.index < p.Pin(b).next)
    && (|preds| == 2 ==>
          && Valid(p.ends.Out(preds[0]), p.First(b)) && Valid(p.ends.Out(preds[1]), p.First(b))
          && ConstantsLead(p.ends.Out(preds[0])) && ConstantsLead(p.ends.Out(preds[1]))
          && Identify(p.ends.Out(preds[0]), p.ends.Out(preds[1]))
          && IsJoin(p.Pin(b).classes, p.ends.Out(preds[0]), p.ends.Out(preds[1]), p.First(b), p.Pin(b).next))
    && (match TransferJoin(p.ends, b, p.Pin(b), p.Block(b), fuel)
        case None => true
        case Some(N) => p.ends.Out(b) == Copies(N, p.PhisAfter(b), b).classes)
  }

  /** The step from block a to block b: along an edge, and b is the only successor of a with phis. */
  ghost predicate Along(p: Program, a: nat, b: nat, front: bool) {
    && (|p.ends.Preds(b)| == 1 || |p.ends.Preds(b)| == 2)
    && p.ends.Preds(b)[if |p.ends.Preds(b)| == 2 && !front then 1 else 0] == a
    && p.PhisAfter(a) == PhisIn(p.Block(b))
  }

  function SidesOf(p: Program, w: Walk): Sides {
    match w
    case Start(_) => (k: nat) => true
    case Step(before, b, front) =>
      if |p.ends.Preds(b)| == 2 then Entering(SidesOf(p, before), p.First(b), front) else SidesOf(p, before)
  }

  /** The state on entry to the last block of the walk, its phis taken. */
  function EntryState(p: Program, w: Walk, M: Machine, s: State): Option<State>
    decreases w, 0
  {
    match w
    case Start(_) => Some(s)
    case Step(before, b, _) =>
      var s1 :- ExecWalk(p, before, M, s);
      var env :- Enter(p.Block(b), before.b, M, s1.env, s1.env);
      Some(s1.(env := env))
  }

  function ExecWalk(p: Program, w: Walk, M: Machine, s: State): Option<State>
    decreases w, 1
  {
    var s1 :- EntryState(p, w, M, s);
    ExecAll(p.Block(w.b), M, s1)
  }

  /** Registers are made once along the walk. */
  ghost predicate FreshWalk(p: Program, w: Walk, M: Machine, s: State)
    decreases w
  {
    && (w.Step? ==> FreshWalk(p, w.before, M, s)
                    && (ExecWalk(p, w.before, M, s).Some? ==> PhisNew(p.Block(w.b), ExecWalk(p, w.before, M, s).value.env.Keys)))
    && (EntryState(p, w, M, s).Some? ==> Fresh(p.Block(w.b), EntryState(p, w, M, s).value.env.Keys))
  }

  /** Blocks are as the pass computes them, and follow each other along edges. */
  ghost predicate WalkSolved(p: Program, w: Walk, fuel: nat)
    decreases w
  {
    && Solved(p, w.b, fuel) && AddressesVary(p.Block(w.b))
    && (w.Step? ==> WalkSolved(p, w.before, fuel) && Along(p, w.before.b, w.b, w.front))
  }

  /** Along the walk every instruction agrees with the class it is put into. */
  ghost predicate WalkAgrees(p: Program, w: Walk, fuel: nat, M: Machine, s: State)
    decreases w
  {
    && (w.Step? ==> WalkAgrees(p, w.before, fuel, M, s))
    && (EntryState(p, w, M, s).Some? ==>
          AllAgree(p.ends, w.b, p.Pin(w.b), p.Block(w.b), fuel, M, EntryState(p, w, M, s).value, SidesOf(p, w)))
  }

  /** On entry to the last block of a walk its partition is true. */
  lemma {:induction false} EntrySound(p: Program, w: Walk, fuel: nat, M: Machine, s: State)
    requires WalkSolved(p, w, fuel) && FreshWalk(p, w, M, s) && EntryState(p, w, M, s).Some?
    requires Numbers(p.Pin(First(w)), M, s.env, (k: nat) => true)
    requires w.Step? ==> WalkAgrees(p, w.before, fuel, M, s)
    ensures Numbers(p.Pin(w.b), M, EntryState(p, w, M, s).value.env, SidesOf(p, w))
    ensures w.Step? ==> Sound(p.ends.Out(w.before.b), M, EntryState(p, w, M, s).value.env, SidesOf(p, w.before))
    decreases w, 0
  {
    match w
    case Start(_) =>
    case Step(before, b, front) =>
      WalkSound(p, before, fuel, M, s);
      StepSound(p, before.b, b, front, fuel, M, ExecWalk(p, before, M, s).value.env, SidesOf(p, before));
  }

  function First(w: Walk): nat {
    match w case Start(b) => b case Step(before, _, _) => First(before)
  }

  /** From the end of block a, its partition true, into block b. */
  lemma StepSound(p: Program, a: nat, b: nat, front: bool, fuel: nat, M: Machine, env: Env, sides: Sides)
    requires Solved(p, a, fuel) && Solved(p, b, fuel) && Along(p, a, b, front)
    requires TransferJoin(p.ends, a, p.Pin(a), p.Block(a), fuel).Some?
    requires Numbers(TransferJoin(p.ends, a, p.Pin(a), p.Block(a), fuel).value, M, env, sides)
    requires PhisNew(p.Block(b), env.Keys) && Enter(p.Block(b), a, M, env, env).Some?
    ensures var env' := Enter(p.Block(b), a, M, env, env).value;
            var sides' := if |p.ends.Preds(b)| == 2 then Entering(sides, p.First(b), front) else sides;
            Numbers(p.Pin(b), M, env', sides') && Sound(p.ends.Out(a), M, env', sides)
    ensures Traces(TransferJoin(p.ends, a, p.Pin(a), p.Block(a), fuel).value.classes, p.ends.Out(a), env)
  {
    hide TransferJoin, Copies, IsJoin, Valid, Identify, Sound, ConstantsLead, Sorted, Disjoint, PhisNew, Enter;
    var N := TransferJoin(p.ends, a, p.Pin(a), p.Block(a), fuel).value;
    CopiesSound(N, p.Block(b), a, M, env, env, sides);
    CopiesOfPhis(N, p.Block(b), a);
    var env' := Enter(p.Block(b), a, M, env, env).value;
    if |p.ends.Preds(b)| == 2 {
      var P1, P2 := p.ends.Out(p.ends.Preds(b)[0]), p.ends.Out(p.ends.Preds(b)[1]);
      JoinIsSound(p.Pin(b).classes, P1, P2, p.First(b), p.Pin(b).next, front, M, env', sides);
      JoinConstantsLead(p.Pin(b).classes, P1, P2, p.First(b), p.Pin(b).next);
    }
  }

  /** Value numbering is true along every walk on which instructions agree with the classes they are
      put into: at its end the partition is true of the execution. */
  lemma {:induction false} WalkSound(p: Program, w: Walk, fuel: nat, M: Machine, s: State)
    requires WalkSolved(p, w, fuel) && FreshWalk(p, w, M, s) && ExecWalk(p, w, M, s).Some?
    requires Numbers(p.Pin(First(w)), M, s.env, (k: nat) => true)
    requires WalkAgrees(p, w, fuel, M, s)
    ensures TransferJoin(p.ends, w.b, p.Pin(w.b), p.Block(w.b), fuel).Some?
    ensures Numbers(TransferJoin(p.ends, w.b, p.Pin(w.b), p.Block(w.b), fuel).value, M, ExecWalk(p, w, M, s).value.env, SidesOf(p, w))
    decreases w, 1
  {
    hide TransferJoin, Numbered, AllAgree, Solved, ConstantsLead, Fresh, ExecAll;
    EntrySound(p, w, fuel, M, s);
    var s1, N, sides := EntryState(p, w, M, s).value, p.Pin(w.b), SidesOf(p, w);
    JoinBlockExact(p.ends, w.b, N, p.Block(w.b), fuel, M, s1, sides);
    BlockConstantsLead(p.ends, w.b, N, p.Block(w.b), fuel, M, s1, sides);
  }

  /** The partition at the end of every block of the walk is true when the execution is there. */
  ghost predicate WalkTrue(p: Program, w: Walk, fuel: nat, M: Machine, s: State)
    decreases w
  {
    && (w.Step? ==> WalkTrue(p, w.before, fuel, M, s))
    && (ExecWalk(p, w, M, s).Some? ==>
          TransferJoin(p.ends, w.b, p.Pin(w.b), p.Block(w.b), fuel).Some?
          && Numbered(TransferJoin(p.ends, w.b, p.Pin(w.b), p.Block(w.b), fuel).value, M, ExecWalk(p, w, M, s).value.env, SidesOf(p, w)))
  }

  /** The exact condition along a walk: the partitions are true if and only if every instruction agrees
      with the class it is put into. */
  lemma {:induction false} WalkExact(p: Program, w: Walk, fuel: nat, M: Machine, s: State)
    requires WalkSolved(p, w, fuel) && FreshWalk(p, w, M, s) && ExecWalk(p, w, M, s).Some?
    requires Numbers(p.Pin(First(w)), M, s.env, (k: nat) => true)
    ensures WalkAgrees(p, w, fuel, M, s) <==> WalkTrue(p, w, fuel, M, s)
    decreases w
  {
    hide TransferJoin, Numbered, AllAgree, Solved, ConstantsLead, Fresh, ExecAll;
    if w.Step? { WalkExact(p, w.before, fuel, M, s); }
    if w.Step? ==> WalkAgrees(p, w.before, fuel, M, s) {
      EntrySound(p, w, fuel, M, s);
      JoinBlockExact(p.ends, w.b, p.Pin(w.b), p.Block(w.b), fuel, M, EntryState(p, w, M, s).value, SidesOf(p, w));
    }
  }

  // ----- walks without joins -----

  /** No block of the walk has two predecessors. */
  ghost predicate Straight(p: Program, w: Walk)
    decreases w
  {
    |p.ends.Preds(w.b)| != 2 && (w.Step? ==> Straight(p, w.before))
  }

  lemma NoPhiWithoutJoin(G: Ends, b: nat, ve: Expr, P: Partition, fuel: nat)
    requires |G.Preds(b)| != 2
    ensures ValuePhi(G, b, ve, P, fuel) == Answer(None)
  {
  }

  lemma {:induction false} StraightAgrees(G: Ends, b: nat, N: Numbering, block: seq<Inst>, fuel: nat, M: Machine, s: State, sides: Sides)
    requires |G.Preds(b)| != 2 && Numbered(N, M, s.env, sides) && Fresh(block, s.env.Keys) && ExecAll(block, M, s).Some?
    ensures AllAgree(G, b, N, block, fuel, M, s, sides)
    decreases block
  {
    hide Numbered, JoinOne, Exec, ValueExpr, ValuePhi, Agrees;
    if block != [] {
      var i := block[0];
      if HasValue(i) {
        NoPhiWithoutJoin(G, b, ValueExpr(N.classes, i), N.classes, fuel);
        AgreesAlone(N.classes, ValueExpr(N.classes, i), M, s.env, sides);
      }
      JoinOneExact(G, b, N, i, fuel, M, s, sides);
      ExecGrows(i, M, s);
      StraightAgrees(G, b, JoinOne(G, b, N, i, fuel).value, block[1..], fuel, M, Exec(i, M, s).value, sides);
    }
  }

  /** Along a walk without joins instructions agree with their classes. */
  lemma {:induction false} StraightWalkAgrees(p: Program, w: Walk, fuel: nat, M: Machine, s: State)
    requires WalkSolved(p, w, fuel) && FreshWalk(p, w, M, s) && ExecWalk(p, w, M, s).Some? && Straight(p, w)
    requires Numbers(p.Pin(First(w)), M, s.env, (k: nat) => true)
    ensures WalkAgrees(p, w, fuel, M, s)
    decreases w
  {
    hide TransferJoin, Numbered, AllAgree, Solved, ConstantsLead, Fresh, ExecAll;
    if w.Step? { StraightWalkAgrees(p, w.before, fuel, M, s); }
    EntrySound(p, w, fuel, M, s);
    StraightAgrees(p.ends, w.b, p.Pin(w.b), p.Block(w.b), fuel, M, EntryState(p, w, M, s).value, SidesOf(p, w));
  }

  // ----- guarded walks -----

  function HistoryOf(p: Program, w: Walk): History {
    match w
    case Start(_) => Origin
    case Step(before, _, front) => Via(before.b, front, SidesOf(p, before), HistoryOf(p, before))
  }

  /** At every join of the walk the value phis consulted were made at joins entered by the same side. */
  ghost predicate WalkGuarded(p: Program, w: Walk, fuel: nat)
    decreases w
  {
    && (w.Step? ==> WalkGuarded(p, w.before, fuel))
    && AllGuarded(p.ends, w.b, p.Pin(w.b), p.Block(w.b), fuel, HistoryOf(p, w), SidesOf(p, w))
  }

  /** On a guarded walk every instruction agrees with the class it is put into. */
  lemma {:induction false} GuardedWalkAgrees(p: Program, w: Walk, fuel: nat, M: Machine, s: State)
    requires WalkSolved(p, w, fuel) && FreshWalk(p, w, M, s) && ExecWalk(p, w, M, s).Some?
    requires Numbers(p.Pin(First(w)), M, s.env, (k: nat) => true) && p.ends.Preds(First(w)) == []
    requires WalkGuarded(p, w, fuel)
    ensures WalkAgrees(p, w, fuel, M, s)
    ensures EntryState(p, w, M, s).Some? && Came(p.ends, w.b, HistoryOf(p, w), M, EntryState(p, w, M, s).value.env)
    decreases w
  {
    hide TransferJoin, Numbered, AllAgree, AllGuarded, Solved, ConstantsLead, Fresh, ExecAll, Sound;
    if w.Step? {
      GuardedWalkAgrees(p, w.before, fuel, M, s);
      WalkGrows(p, w, M, s);
      CameGrows(p.ends, w.before.b, HistoryOf(p, w.before), M, EntryState(p, w.before, M, s).value.env, EntryState(p, w, M, s).value.env);
    }
    EntrySound(p, w, fuel, M, s);
    JoinBlockSound(p.ends, w.b, p.Pin(w.b), p.Block(w.b), fuel, HistoryOf(p, w), M, EntryState(p, w, M, s).value, SidesOf(p, w));
  }

  /** Registers only accumulate from block to block. */
  lemma WalkGrows(p: Program, w: Walk, M: Machine, s: State)
    requires w.Step? && FreshWalk(p, w, M, s) && EntryState(p, w, M, s).Some?
    ensures EntryState(p, w.before, M, s).Some? && Grows(EntryState(p, w.before, M, s).value.env, EntryState(p, w, M, s).value.env)
  {
    hide ExecAll, Enter, Fresh, PhisNew;
    var s1 := EntryState(p, w.before, M, s).value;
    BlockGrows(p.Block(w.before.b), M, s1);
    var s2 := ExecWalk(p, w.before, M, s).value;
    EnterGrows(p.Block(w.b), w.before.b, M, s2.env, s2.env);
  }

  lemma {:induction false} EnterGrows(block: seq<Inst>, from: nat, M: Machine, at: Env, env: Env)
    requires PhisNew(block, env.Keys) && Enter(block, from, M, at, env).Some?
    ensures Grows(env, Enter(block, from, M, at, env).value)
    decreases block
  {
    if block != [] {
      var i := block[0];
      assert i in block;
      assert forall k :: 0 <= k < |block[1..]| ==> block[1..][k] == block[k + 1] && block[1..][k] in block;
      if i.Phi? {
        var env' := env[i.id := Val(if i.from1 == from then i.val1 else i.val2, M, at).value];
        assert env'.Keys == env.Keys + {i.id};
        EnterGrows(block[1..], from, M, at, env');
      } else {
        EnterGrows(block[1..], from, M, at, env);
      }
    }
  }

  // ----- replacing -----

  /** What stands for the operand of a phi of block b that comes from block `from`: as copies, operands
      belong to the blocks they come from. */
  function ReplacedOperand(G: Ends, b: nat, phis: set<nat>, from: nat, v: Value): Value {
    if from in G.Preds(b) then Replaced(G.Out(from), phis, v) else v
  }

  /** The phis of block b with their operands replaced; other instructions stay. */
  function ReplacedPhis(G: Ends, b: nat, phis: set<nat>, block: seq<Inst>): seq<Inst> {
    if block == [] then []
    else
      var i := block[0];
      [if i.Phi? then Phi(i.id, ReplacedOperand(G, b, phis, i.from1, i.val1), i.from1,
                          ReplacedOperand(G, b, phis, i.from2, i.val2), i.from2)
       else i] + ReplacedPhis(G, b, phis, block[1..])
  }

  /** Every operand is replaced by the leader of its class, by the partition at the end of the block it
      belongs to. */
  function ReplacedProgram(p: Program, phis: set<nat>): Program {
    p.(blocks := map b | b in p.blocks :: ReplacedPhis(p.ends, b, phis, ReplacedBlock(p.ends.Out(b), phis, p.blocks[b])),
       tails := map b | b in p.tails :: ReplacedAll(p.ends.Out(b), phis, p.tails[b]))
  }

  /** Only phis change, and they do nothing in the run of a block. */
  lemma {:induction false} PhisReplacedRun(G: Ends, b: nat, phis: set<nat>, block: seq<Inst>, M: Machine, s: State)
    ensures ExecAll(ReplacedPhis(G, b, phis, block), M, s) == ExecAll(block, M, s)
    decreases block
  {
    if block != [] {
      var r := ReplacedPhis(G, b, phis, block);
      assert r[1..] == ReplacedPhis(G, b, phis, block[1..]);
      assert Exec(r[0], M, s) == Exec(block[0], M, s);
      if Exec(block[0], M, s).Some? { PhisReplacedRun(G, b, phis, block[1..], M, Exec(block[0], M, s).value); }
    }
  }

  /** The values at the end of a block are those of what stands for them. */
  ghost predicate KeepsValues(P: Partition, phis: set<nat>, M: Machine, env: Env) {
    forall v {:trigger Replaced(P, phis, v)} :: Val(v, M, env).Some? ==> Val(Replaced(P, phis, v), M, env) == Val(v, M, env)
  }

  /** The phis take the same values. */
  lemma {:induction false} ReplacedEnter(G: Ends, b: nat, P: Partition, phis: set<nat>, block: seq<Inst>, from: nat, M: Machine, at: Env, env: Env)
    requires from in G.Preds(b) && KeepsValues(G.Out(from), phis, M, at) && Enter(block, from, M, at, env).Some?
    ensures Enter(ReplacedPhis(G, b, phis, ReplacedBlock(P, phis, block)), from, M, at, env) == Enter(block, from, M, at, env)
    decreases block
  {
    hide KeepsValues, Replaced;
    if block != [] {
      var i := block[0];
      var r := ReplacedPhis(G, b, phis, ReplacedBlock(P, phis, block));
      assert ReplacedBlock(P, phis, block)[0] == ReplacedInst(P, phis, i);
      assert ReplacedBlock(P, phis, block)[1..] == ReplacedBlock(P, phis, block[1..]);
      assert r[1..] == ReplacedPhis(G, b, phis, ReplacedBlock(P, phis, block[1..]));
      ReplacedKind(P, phis, i);
      if i.Phi? {
        var v := if i.from1 == from then i.val1 else i.val2;
        KeepsValue(G.Out(from), phis, M, at, v);
        ReplacedEnter(G, b, P, phis, block[1..], from, M, at, env[i.id := Val(v, M, at).value]);
      } else {
        ReplacedEnter(G, b, P, phis, block[1..], from, M, at, env);
      }
    }
  }

  lemma KeepsValue(P: Partition, phis: set<nat>, M: Machine, env: Env, v: Value)
    requires KeepsValues(P, phis, M, env) && Val(v, M, env).Some?
    ensures Val(Replaced(P, phis, v), M, env) == Val(v, M, env)
  {
  }

  lemma ReplacedKind(P: Partition, phis: set<nat>, i: Inst)
    ensures ReplacedInst(P, phis, i).Phi? <==> i.Phi?
    ensures i.Phi? ==> ReplacedInst(P, phis, i) == i
  {
  }

  /** The last block of a walk, its operands replaced, runs as before. */
  lemma LastReplaced(p: Program, w: Walk, fuel: nat, M: Machine, s: State, phis: set<nat>)
    requires WalkSolved(p, w, fuel) && FreshWalk(p, w, M, s) && ExecWalk(p, w, M, s).Some?
    requires Numbers(p.Pin(First(w)), M, s.env, (k: nat) => true) && WalkAgrees(p, w, fuel, M, s)
    requires TransferJoin(p.ends, w.b, p.Pin(w.b), p.Block(w.b), fuel).Some?
    requires Traces(TransferJoin(p.ends, w.b, p.Pin(w.b), p.Block(w.b), fuel).value.classes, p.ends.Out(w.b), ExecWalk(p, w, M, s).value.env)
    ensures EntryState(p, w, M, s).Some?
    ensures ExecAll(ReplacedProgram(p, phis).Block(w.b), M, EntryState(p, w, M, s).value)
         == ExecAll(p.Block(w.b), M, EntryState(p, w, M, s).value)
    ensures KeepsValues(p.ends.Out(w.b), phis, M, ExecWalk(p, w, M, s).value.env)
  {
    hide TransferJoin, Numbered, AllAgree, Solved, ConstantsLead, Fresh, ExecAll, Traces, ReplacedBlock, ReplacedPhis;
    EntrySound(p, w, fuel, M, s);
    WalkSound(p, w, fuel, M, s);
    EndKeeps(TransferJoin(p.ends, w.b, p.Pin(w.b), p.Block(w.b), fuel).value, p.ends.Out(w.b), M, ExecWalk(p, w, M, s).value.env,
             SidesOf(p, w), phis);
    ReplacedBlockIs(p, w.b, phis);
    PhisReplacedRun(p.ends, w.b, phis, ReplacedBlock(p.ends.Out(w.b), phis, p.Block(w.b)), M, EntryState(p, w, M, s).value);
    JoinBlockReplaced(p.ends, w.b, p.Pin(w.b), p.Block(w.b), fuel, M, EntryState(p, w, M, s).value, SidesOf(p, w), p.ends.Out(w.b), phis);
  }

  lemma ReplacedBlockIs(p: Program, b: nat, phis: set<nat>)
    ensures ReplacedProgram(p, phis).Block(b) == ReplacedPhis(p.ends, b, phis, ReplacedBlock(p.ends.Out(b), phis, p.Block(b)))
  {
  }

  lemma EndKeeps(N: Numbering, P: Partition, M: Machine, env: Env, sides: Sides, phis: set<nat>)
    requires Numbers(N, M, env, sides) && Traces(N.classes, P, env)
    ensures KeepsValues(P, phis, M, env)
  {
    hide Traces, Replaced;
    NumberedParts(N, M, env, sides);
    forall v | Val(v, M, env).Some? ensures Val(Replaced(P, phis, v), M, env) == Val(v, M, env) {
      ReplacedVal(N.classes, P, M, env, sides, phis, v);
    }
  }

  lemma ReplacedRun(p: Program, w: Walk, M: Machine, s: State, phis: set<nat>)
    requires EntryState(ReplacedProgram(p, phis), w, M, s) == EntryState(p, w, M, s)
    requires EntryState(p, w, M, s).Some? ==>
               ExecAll(ReplacedProgram(p, phis).Block(w.b), M, EntryState(p, w, M, s).value)
               == ExecAll(p.Block(w.b), M, EntryState(p, w, M, s).value)
    ensures ExecWalk(ReplacedProgram(p, phis), w, M, s) == ExecWalk(p, w, M, s)
  {
  }

  lemma EnterReplaced(p: Program, w: Walk, M: Machine, s: State, phis: set<nat>)
    requires w.Step? && ExecWalk(ReplacedProgram(p, phis), w.before, M, s) == ExecWalk(p, w.before, M, s)
    requires w.before.b in p.ends.Preds(w.b) && EntryState(p, w, M, s).Some?
    requires KeepsValues(p.ends.Out(w.before.b), phis, M, ExecWalk(p, w.before, M, s).value.env)
    ensures EntryState(ReplacedProgram(p, phis), w, M, s) == EntryState(p, w, M, s)
  {
    hide ExecWalk, ReplacedBlock, ReplacedPhis, KeepsValues;
    var env := ExecWalk(p, w.before, M, s).value.env;
    ReplacedBlockIs(p, w.b, phis);
    ReplacedEnter(p.ends, w.b, p.ends.Out(w.b), phis, p.Block(w.b), w.before.b, M, env, env);
  }

  /** The operands of the terminator have the values they had. */
  lemma {:induction false} ReplacedTail(P: Partition, phis: set<nat>, vs: seq<Value>, M: Machine, env: Env)
    requires KeepsValues(P, phis, M, env) && Vals(vs, M, env).Some?
    ensures Vals(ReplacedAll(P, phis, vs), M, env) == Vals(vs, M, env)
  {
    hide KeepsValues, Replaced;
    if vs != [] {
      KeepsValue(P, phis, M, env, vs[0]);
      assert ReplacedAll(P, phis, vs)[1..] == ReplacedAll(P, phis, vs[1..]);
      ReplacedTail(P, phis, vs[1..], M, env);
    }
  }

  /** Replacing keeps every walk on which instructions agree with their classes, up to a block
      without copies at its end. */
  lemma {:induction false} WalkReplaced(p: Program, w: Walk, fuel: nat, M: Machine, s: State, phis: set<nat>)
    requires WalkSolved(p, w, fuel) && FreshWalk(p, w, M, s) && ExecWalk(p, w, M, s).Some?
    requires Numbers(p.Pin(First(w)), M, s.env, (k: nat) => true) && WalkAgrees(p, w, fuel, M, s)
    requires p.PhisAfter(w.b) == []
    ensures ExecWalk(ReplacedProgram(p, phis), w, M, s) == ExecWalk(p, w, M, s)
    ensures var env := ExecWalk(p, w, M, s).value.env;
            Vals(p.Tail(w.b), M, env).Some? ==> Vals(ReplacedProgram(p, phis).Tail(w.b), M, env) == Vals(p.Tail(w.b), M, env)
  {
    hide TransferJoin, Numbered, AllAgree, ConstantsLead, Fresh, ExecAll, Traces, ReplacedBlock, ReplacedPhis, KeepsValues;
    WalkSound(p, w, fuel, M, s);
    var N := TransferJoin(p.ends, w.b, p.Pin(w.b), p.Block(w.b), fuel).value;
    assert Copies(N, [], w.b) == N;
    SameTraces(N.classes, ExecWalk(p, w, M, s).value.env);
    EntryReplaced(p, w, fuel, M, s, phis);
    LastReplaced(p, w, fuel, M, s, phis);
    ReplacedRun(p, w, M, s, phis);
    var env := ExecWalk(p, w, M, s).value.env;
    if Vals(p.Tail(w.b), M, env).Some? { ReplacedTail(p.ends.Out(w.b), phis, p.Tail(w.b), M, env); }
  }

  lemma {:induction false} EntryReplaced(p: Program, w: Walk, fuel: nat, M: Machine, s: State, phis: set<nat>)
    requires WalkSolved(p, w, fuel) && FreshWalk(p, w, M, s) && EntryState(p, w, M, s).Some?
    requires Numbers(p.Pin(First(w)), M, s.env, (k: nat) => true) && (w.Step? ==> WalkAgrees(p, w.before, fuel, M, s))
    ensures EntryState(ReplacedProgram(p, phis), w, M, s) == EntryState(p, w, M, s)
    decreases w
  {
    hide TransferJoin, Numbered, AllAgree, Solved, ConstantsLead, Fresh, ExecAll, Traces, ReplacedBlock, ReplacedPhis, KeepsValues;
    match w
    case Start(_) =>
    case Step(before, b, front) =>
      EntryReplaced(p, before, fuel, M, s, phis);
      WalkSound(p, before, fuel, M, s);
      StepSound(p, before.b, b, front, fuel, M, ExecWalk(p, before, M, s).value.env, SidesOf(p, before));
      LastReplaced(p, before, fuel, M, s, phis);
      ReplacedRun(p, before, M, s, phis);
      EnterReplaced(p, w, M, s, phis);
  }

  // ----- the entry -----

  lemma {:induction false} EntryConstants(vs: seq<Value>, next: nat)
    requires forall v :: v in vs ==> v.Param? || v.GlobalVar?
    ensures ConstantsLead(EntryClasses(vs, next))
  {
    hide ConstantsLead;
    if vs == [] {
      NothingLeads();
    } else {
      assert vs[0] in vs && forall v :: v in vs[1..] ==> v in vs;
      EntryConstants(vs[1..], next + 1);
      FrontConstants(EntryClasses(vs[1..], next + 1), Class(next, Some(vs[0]), None, None, {vs[0]}));
    }
  }

  lemma NothingLeads()
    ensures ConstantsLead([])
  {
  }

  lemma FrontConstants(P: Partition, c: Class)
    requires ConstantsLead(P) && c.expr == None && forall n: int :: IntConst(n) !in c.members
    ensures ConstantsLead([c] + P)
  {
    var Q := [c] + P;
    assert forall d :: d in Q <==> d == c || d in P;
    forall i, j, n: int | 0 <= i < j < |Q| && Q[i].expr == Some(Leaf(IntConst(n))) ensures Q[j].expr != Q[i].expr {
      assert Q[i] == P[i - 1] && Q[j] == P[j - 1];
    }
  }

  /** The classes of arguments and globals are true at the start. */
  lemma EntryNumbers(vs: seq<Value>, next: nat, M: Machine, env: Env, sides: Sides)
    requires forall v :: v in vs ==> (v.Param? || v.GlobalVar?) && Val(v, M, env).Some?
    requires forall i, j :: 0 <= i < j < |vs| ==> vs[i] != vs[j]
    ensures Numbers(Numbering(EntryClasses(vs, next), next + |vs|), M, env, sides)
  {
    EntryNumbered(vs, next, M, env, sides);
    EntryConstants(vs, next);
  }

  /** From the entry on, whatever the arguments and globals: where there is no join, or the guard is met
      at every join, the function with members replaced by leaders takes the walk with the same values
      and effects. */
  lemma GuardedWalkReplaced(p: Program, w: Walk, fuel: nat, M: Machine, s: State, vs: seq<Value>, n: nat, phis: set<nat>)
    requires WalkSolved(p, w, fuel) && FreshWalk(p, w, M, s) && ExecWalk(p, w, M, s).Some? && p.PhisAfter(w.b) == []
    requires p.Pin(First(w)) == Numbering(EntryClasses(vs, n), n + |vs|) && p.ends.Preds(First(w)) == []
    requires forall v :: v in vs ==> (v.Param? || v.GlobalVar?) && Val(v, M, s.env).Some?
    requires forall i, j :: 0 <= i < j < |vs| ==> vs[i] != vs[j]
    requires Straight(p, w) || WalkGuarded(p, w, fuel)
    ensures ExecWalk(ReplacedProgram(p, phis), w, M, s) == ExecWalk(p, w, M, s)
    ensures var env := ExecWalk(p, w, M, s).value.env;
            Vals(p.Tail(w.b), M, env).Some? ==> Vals(ReplacedProgram(p, phis).Tail(w.b), M, env) == Vals(p.Tail(w.b), M, env)
  {
    hide WalkSolved, FreshWalk, ExecWalk, EntryState, WalkGuarded, Straight, WalkAgrees, Numbers, EntryClasses, ReplacedProgram;
    EntryNumbers(vs, n, M, s.env, (k: nat) => true);
    if Straight(p, w) {
      StraightWalkAgrees(p, w, fuel, M, s);
    } else {
      GuardedWalkAgrees(p, w, fuel, M, s);
    }
    WalkReplaced(p, w, fuel, M, s, phis);
  }
}
