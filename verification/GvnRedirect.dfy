// What replacing members by leaders does to the uses of values, slot by slot.
module GvnRedirect {
  import opened Wrappers
  import opened Gvn
  import opened GvnTransfer
  import opened GvnSound
  import opened GvnJoin
  import opened GvnPath
  import opened GvnTidy

  /** The class redirects the uses of its member v: v is not its leader, and is no phi unless the class has a value phi. */
  ghost predicate Redirects(c: Class, phis: set<nat>, v: Value) {
    v in c.members && c.leader.Some? && c.leader.value != v && (c.phi == None ==> !(exists p :: p in phis && v == Instr(p)))
  }

  /** Where v stood, w stands: the leader of the class that redirects v, or v itself where none does. */
  ghost predicate TakesPlace(P: Partition, phis: set<nat>, v: Value, w: Value) {
    if exists c :: c in P && Redirects(c, phis, v) then exists c :: c in P && Redirects(c, phis, v) && c.leader == Some(w) else w == v
  }

  /** j is i with each operand redirected; phis are left to the blocks that their operands come from. */
  ghost predicate Redirected(P: Partition, phis: set<nat>, i: Inst, j: Inst) {
    match i
    case Bin(id, op, l, r) => j.Bin? && j.id == id && j.op == op && TakesPlace(P, phis, l, j.lhs) && TakesPlace(P, phis, r, j.rhs)
    case Zext(id, v) => j.Zext? && j.id == id && TakesPlace(P, phis, v, j.val)
    case Load(id, addr) => j.Load? && j.id == id && TakesPlace(P, phis, addr, j.addr)
    case Gep(id, ops) => j.Gep? && j.id == id && AllTakePlace(P, phis, ops, j.ops)
    case Call(id, f, pure, void, args) =>
      j.Call? && j.id == id && j.callee == f && j.pure == pure && j.void == void && AllTakePlace(P, phis, args, j.args)
    case Alloca(_) => j == i
    case Store(v, addr) => j.Store? && TakesPlace(P, phis, v, j.val) && TakesPlace(P, phis, addr, j.addr)
    case Phi(_, _, _, _, _) => j == i
  }

  ghost predicate AllTakePlace(P: Partition, phis: set<nat>, vs: seq<Value>, ws: seq<Value>) {
    |ws| == |vs| && forall k :: 0 <= k < |vs| ==> TakesPlace(P, phis, vs[k], ws[k])
  }

  /** v is an operand of an instruction that is no phi. */
  ghost predicate Uses(i: Inst, v: Value) {
    match i
    case Bin(_, _, l, r) => v == l || v == r
    case Zext(_, a) => v == a
    case Load(_, a) => v == a
    case Gep(_, ops) => v in ops
    case Call(_, _, _, _, args) => v in args
    case Alloca(_) => false
    case Store(a, addr) => v == a || v == addr
    case Phi(_, _, _, _, _) => false
  }

  /** What takes the place of a value is redirected by no class. */
  lemma NotAgain(P: Partition, phis: set<nat>, v: Value, w: Value, c: Class)
    requires Home(P) && TakesPlace(P, phis, v, w) && c in P
    ensures !Redirects(c, phis, w)
  {
    if exists d :: d in P && Redirects(d, phis, v) {
      var d :| d in P && Redirects(d, phis, v) && d.leader == Some(w);
      var i, j :| 0 <= i < |P| && 0 <= j < |P| && P[i] == d && P[j] == c;
    }
  }

  /** No use is left of what a class redirects. */
  lemma NoUseLeft(P: Partition, phis: set<nat>, i: Inst, j: Inst, c: Class, v: Value)
    requires Home(P) && Redirected(P, phis, i, j) && c in P && Redirects(c, phis, v)
    ensures !Uses(j, v)
  {
    hide Home, Redirects, TakesPlace;
    forall a | TakesPlace(P, phis, a, v) ensures false { NotAgain(P, phis, a, v, c); }
  }

  lemma ReplacedBecomes(P: Partition, phis: set<nat>, v: Value)
    requires Disjoint(P)
    ensures TakesPlace(P, phis, v, Replaced(P, phis, v))
  {
    HolderOfIn(P, v);
    if exists d :: d in P && Redirects(d, phis, v) {
      var d :| d in P && Redirects(d, phis, v);
      HolderIs(P, v, d);
    } else if HolderOf(P, v).Some? {
      var c := HolderOf(P, v).value;
      assert c in P && !Redirects(c, phis, v);
    }
  }

  lemma {:induction false} HolderIs(P: Partition, v: Value, c: Class)
    requires Disjoint(P) && c in P && v in c.members
    ensures HolderOf(P, v) == Some(c)
  {
    var k :| 0 <= k < |P| && P[k] == c;
    if k > 0 {
      assert P[0].members !! P[k].members && P[1..][k - 1] == c;
      assert forall i :: 0 <= i < |P[1..]| ==> P[1..][i] == P[i + 1];
      HolderIs(P[1..], v, c);
    }
  }

  lemma ReplacedAllBecome(P: Partition, phis: set<nat>, vs: seq<Value>)
    requires Disjoint(P)
    ensures AllTakePlace(P, phis, vs, ReplacedAll(P, phis, vs))
  {
    hide Disjoint, TakesPlace, Replaced;
    forall k | 0 <= k < |vs| ensures TakesPlace(P, phis, vs[k], ReplacedAll(P, phis, vs)[k]) { ReplacedBecomes(P, phis, vs[k]); }
  }

  lemma InstRedirected(P: Partition, phis: set<nat>, i: Inst)
    requires Disjoint(P)
    ensures Redirected(P, phis, i, ReplacedInst(P, phis, i))
  {
    hide Disjoint, TakesPlace, AllTakePlace, Replaced;
    forall v { ReplacedBecomes(P, phis, v); }
    forall vs { ReplacedAllBecome(P, phis, vs); }
  }

  lemma {:induction false} BlockRedirected(P: Partition, phis: set<nat>, block: seq<Inst>)
    requires Disjoint(P)
    ensures |ReplacedBlock(P, phis, block)| == |block|
    ensures forall k :: 0 <= k < |block| ==> Redirected(P, phis, block[k], ReplacedBlock(P, phis, block)[k])
  {
    hide Disjoint, Redirected;
    if block != [] {
      InstRedirected(P, phis, block[0]);
      BlockRedirected(P, phis, block[1..]);
    }
  }

  // ----- functions -----

  /** Operands of phis of block b belong to the predecessor they come from. */
  ghost predicate OperandBecomes(G: Ends, b: nat, phis: set<nat>, from: nat, v: Value, w: Value) {
    if from in G.Preds(b) then TakesPlace(G.Out(from), phis, v, w) else w == v
  }

  ghost predicate PhiRedirected(G: Ends, b: nat, phis: set<nat>, i: Inst, j: Inst) {
    && i.Phi? && j.Phi? && j.id == i.id && j.from1 == i.from1 && j.from2 == i.from2
    && OperandBecomes(G, b, phis, i.from1, i.val1, j.val1) && OperandBecomes(G, b, phis, i.from2, i.val2, j.val2)
  }

  /** In block b of q all operands are those of p, redirected: of instructions, phis and the terminator. */
  ghost predicate OperandsBecome(p: Program, q: Program, phis: set<nat>, b: nat) {
    && |q.Block(b)| == |p.Block(b)|
    && (forall k :: 0 <= k < |p.Block(b)| ==>
          if p.Block(b)[k].Phi? then PhiRedirected(p.ends, b, phis, p.Block(b)[k], q.Block(b)[k])
          else Redirected(p.ends.Out(b), phis, p.Block(b)[k], q.Block(b)[k]))
    && AllTakePlace(p.ends.Out(b), phis, p.Tail(b), q.Tail(b))
  }

  /** No operand is v: in block b, of an instruction or the terminator. */
  ghost predicate UnusedIn(q: Program, b: nat, v: Value) {
    (forall j :: j in q.Block(b) ==> !Uses(j, v)) && v !in q.Tail(b)
  }

  /** No phi of block b takes v from block a. */
  ghost predicate UntakenBy(q: Program, b: nat, a: nat, v: Value) {
    forall j :: j in q.Block(b) && j.Phi? ==> !(j.from1 == a && j.val1 == v) && !(j.from2 == a && j.val2 == v)
  }

  lemma {:induction false} PhisAt(G: Ends, b: nat, phis: set<nat>, block: seq<Inst>)
    ensures |ReplacedPhis(G, b, phis, block)| == |block|
    ensures forall k :: 0 <= k < |block| ==>
              ReplacedPhis(G, b, phis, block)[k] == if !block[k].Phi? then block[k]
                else Phi(block[k].id, ReplacedOperand(G, b, phis, block[k].from1, block[k].val1), block[k].from1,
                         ReplacedOperand(G, b, phis, block[k].from2, block[k].val2), block[k].from2)
  {
    hide ReplacedOperand;
    if block != [] { PhisAt(G, b, phis, block[1..]); }
  }

  /** Replacing members redirects every operand of a block. */
  lemma ProgramRedirected(p: Program, phis: set<nat>, b: nat)
    requires Disjoint(p.ends.Out(b)) && forall a :: a in p.ends.Preds(b) ==> Disjoint(p.ends.Out(a))
    ensures OperandsBecome(p, ReplacedProgram(p, phis), phis, b)
  {
    hide Disjoint, Redirected, TakesPlace, Replaced, ReplacedPhis, ReplacedBlock;
    var P, q, block := p.ends.Out(b), ReplacedProgram(p, phis), p.Block(b);
    BlockRedirected(P, phis, block);
    PhisAt(p.ends, b, phis, ReplacedBlock(P, phis, block));
    ReplacedAllBecome(P, phis, p.Tail(b));
    forall k | 0 <= k < |block| && block[k].Phi? ensures b in p.blocks && PhiRedirected(p.ends, b, phis, block[k], q.Block(b)[k]) {
      PhiKept(P, phis, block[k], ReplacedBlock(P, phis, block)[k]);
      OperandReplaced(p.ends, b, phis, block[k].from1, block[k].val1);
      OperandReplaced(p.ends, b, phis, block[k].from2, block[k].val2);
    }
    forall k | 0 <= k < |block| && !block[k].Phi? ensures !ReplacedBlock(P, phis, block)[k].Phi? {
      OtherKept(P, phis, block[k], ReplacedBlock(P, phis, block)[k]);
    }
  }

  lemma PhiKept(P: Partition, phis: set<nat>, i: Inst, j: Inst)
    requires Redirected(P, phis, i, j) && i.Phi?
    ensures j == i
  {
  }

  lemma OtherKept(P: Partition, phis: set<nat>, i: Inst, j: Inst)
    requires Redirected(P, phis, i, j) && !i.Phi?
    ensures !j.Phi?
  {
  }

  lemma OperandReplaced(G: Ends, b: nat, phis: set<nat>, from: nat, v: Value)
    requires forall a :: a in G.Preds(b) ==> Disjoint(G.Out(a))
    ensures OperandBecomes(G, b, phis, from, v, ReplacedOperand(G, b, phis, from, v))
  {
    if from in G.Preds(b) { ReplacedBecomes(G.Out(from), phis, v); }
  }

  /** What a class at the end of a block redirects is no operand of the block any more. */
  lemma NoUseInBlock(p: Program, q: Program, phis: set<nat>, b: nat, c: Class, v: Value)
    requires OperandsBecome(p, q, phis, b) && Home(p.ends.Out(b)) && c in p.ends.Out(b) && Redirects(c, phis, v)
    ensures UnusedIn(q, b, v)
  {
    hide Home, Redirects, TakesPlace, Redirected;
    var P := p.ends.Out(b);
    forall j | j in q.Block(b) ensures !Uses(j, v) {
      var k :| 0 <= k < |q.Block(b)| && q.Block(b)[k] == j;
      if !p.Block(b)[k].Phi? { NoUseLeft(P, phis, p.Block(b)[k], j, c, v); }
    }
    if v in q.Tail(b) {
      var k :| 0 <= k < |q.Tail(b)| && q.Tail(b)[k] == v;
      NotAgain(P, phis, p.Tail(b)[k], v, c);
    }
  }

  /** Nor do the phis of its successors take it from there. */
  lemma UntakenFrom(p: Program, q: Program, phis: set<nat>, b: nat, a: nat, c: Class, v: Value)
    requires OperandsBecome(p, q, phis, b) && a in p.ends.Preds(b) && Home(p.ends.Out(a)) && c in p.ends.Out(a) && Redirects(c, phis, v)
    ensures UntakenBy(q, b, a, v)
  {
    hide Home, Redirects, TakesPlace;
    forall j | j in q.Block(b) && j.Phi? ensures !(j.from1 == a && j.val1 == v) && !(j.from2 == a && j.val2 == v) {
      var k :| 0 <= k < |q.Block(b)| && q.Block(b)[k] == j;
      var i := p.Block(b)[k];
      if j.from1 == a && j.val1 == v { NotAgain(p.ends.Out(a), phis, i.val1, v, c); }
      if j.from2 == a && j.val2 == v { NotAgain(p.ends.Out(a), phis, i.val2, v, c); }
    }
  }
}
