// What renaming along the dominator tree computes, as functions of the code with
// phis placed: the value on top of each variable's stack, the replacements made
// for loads, and the rewritten instructions.
module Renaming {
  import opened Wrappers
  import opened Cfg
  import opened IdomTree
  import opened IdomFixpoint
  import opened IR

  type Code = seq<seq<Instr>>

  /** cur: top of each non-empty stack; sub: what replaced the loads seen so far;
      scope: the registers defined so far on the dominator chain. */
  datatype Ctx = Ctx(cur: map<nat, Operand>, sub: map<nat, Operand>, scope: set<nat>)

  const EMPTY := Ctx(map[], map[], {})

  function Subst(sub: map<nat, Operand>, o: Operand): Operand {
    if o.Reg? && o.id in sub then sub[o.id] else o
  }

  function SubstAll(sub: map<nat, Operand>, os: seq<Operand>): (r: seq<Operand>)
    ensures |r| == |os| && forall k :: 0 <= k < |os| ==> r[k] == Subst(sub, os[k])
  {
    seq(|os|, k requires 0 <= k < |os| => Subst(sub, os[k]))
  }

  function SubstPairs(sub: map<nat, Operand>, ps: seq<(Operand, Block)>): (r: seq<(Operand, Block)>)
    ensures |r| == |ps| && forall k :: 0 <= k < |ps| ==> r[k] == (Subst(sub, ps[k].0), ps[k].1)
  {
    seq(|ps|, k requires 0 <= k < |ps| => (Subst(sub, ps[k].0), ps[k].1))
  }

  function SubstAddress(sub: map<nat, Operand>, a: Address): Address {
    match a case Local(_) => a case Memory(p) => Memory(Subst(sub, p))
  }

  function SubstInstr(sub: map<nat, Operand>, i: Instr): Instr {
    match i
    case Alloca(_, _) => i
    case Load(d, a) => Load(d, SubstAddress(sub, a))
    case Store(v, a) => Store(Subst(sub, v), SubstAddress(sub, a))
    case Bin(d, op, a, b) => Bin(d, op, Subst(sub, a), Subst(sub, b))
    case Zext(d, v) => Zext(d, Subst(sub, v))
    case Call(d, f, os) => Call(d, f, SubstAll(sub, os))
    case Phi(d, v, ps) => Phi(d, v, SubstPairs(sub, ps))
  }

  function SubstTerm(sub: map<nat, Operand>, t: Terminator): Terminator {
    match t
    case Br(_) => t
    case CondBr(c, a, b) => CondBr(Subst(sub, c), a, b)
    case Ret(v) => Ret(Subst(sub, v))
  }

  /** A phi becomes the latest definition of its variable. */
  function PhiScan(code: seq<Instr>, c: Ctx): Ctx {
    if code == [] then c
    else if code[0].Phi? then
      PhiScan(code[1..], Ctx(c.cur[code[0].lval := Reg(code[0].dst)], c.sub, c.scope + {code[0].dst}))
    else PhiScan(code[1..], c)
  }

  /** A load of a local with a definition is replaced by it; a store to a local defines it. */
  function Advance(i: Instr, c: Ctx): Ctx {
    match i
    case Load(d, Local(v)) =>
      Ctx(c.cur, if v in c.cur then c.sub[d := c.cur[v]] else c.sub, c.scope + {d})
    case Store(o, Local(v)) => c.(cur := c.cur[v := Subst(c.sub, o)])
    case Phi(_, _, _) => c
    case _ => c.(scope := c.scope + Def(i))
  }

  function Scan(code: seq<Instr>, c: Ctx): Ctx {
    if code == [] then c else Scan(code[1..], Advance(code[0], c))
  }

  function At(code: Code, b: Block): seq<Instr> {
    if b < |code| then code[b] else []
  }

  ghost function CtxIn(code: Code, up: Up, po: Order, b: Block): Ctx
    requires Climbs(up, po) && b in up
    decreases Below(po, b), 0
  {
    if b == ENTRY then EMPTY
    else
      Step(up, po, b);
      CtxOut(code, up, po, up[b])
  }

  ghost function CtxPhi(code: Code, up: Up, po: Order, b: Block): Ctx
    requires Climbs(up, po) && b in up
    decreases Below(po, b), 1
  {
    PhiScan(At(code, b), CtxIn(code, up, po, b))
  }

  ghost function CtxOut(code: Code, up: Up, po: Order, b: Block): Ctx
    requires Climbs(up, po) && b in up
    decreases Below(po, b), 2
  {
    Scan(At(code, b), CtxPhi(code, up, po, b))
  }

  // ----- the rewritten code -----

  /** Loads that have a definition and stores to locals disappear. */
  predicate Deleted(i: Instr, c: Ctx) {
    (i.Load? && i.addr.Local? && i.addr.slot in c.cur) || (i.Store? && i.addr.Local?)
  }

  function RenameAll(code: seq<Instr>, c: Ctx): seq<Instr> {
    if code == [] then []
    else (if Deleted(code[0], c) then [] else [SubstInstr(c.sub, code[0])])
         + RenameAll(code[1..], Advance(code[0], c))
  }

  /** The instruction without its phi pairs. */
  function Core(i: Instr): Instr {
    if i.Phi? then i.(pairs := []) else i
  }

  function Cores(code: seq<Instr>): (r: seq<Instr>)
    ensures |r| == |code| && forall k :: 0 <= k < |code| ==> r[k] == Core(code[k])
  {
    seq(|code|, k requires 0 <= k < |code| => Core(code[k]))
  }

  /** The pairs of a phi for v in block b name, for each visited predecessor that has
      a definition of v, the one at its end. */
  ghost predicate PairsFrom(code: Code, up: Up, po: Order, g: Graph, visited: set<Block>,
                            b: Block, v: nat, pairs: seq<(Operand, Block)>)
    requires Climbs(up, po)
  {
    forall o, p :: (o, p) in pairs <==>
      p in visited && p in up && Edge(g, p, b)
      && v in CtxOut(code, up, po, p).cur && o == CtxOut(code, up, po, p).cur[v]
  }

  /** `out` is the code of block b after renaming, up to the order of phi pairs. */
  ghost predicate RenamedBlock(code: Code, up: Up, po: Order, g: Graph, b: Block, out: seq<Instr>)
    requires Climbs(up, po) && b in up
  {
    && Cores(out) == RenameAll(At(code, b), CtxPhi(code, up, po, b))
    && forall k :: 0 <= k < |out| && out[k].Phi? ==> PairsFrom(code, up, po, g, up.Keys, b, out[k].lval, out[k].pairs)
  }

  // ----- well-formed contexts -----

  /** Values recorded mention registers in scope that have not been replaced themselves. */
  ghost predicate WfCtx(c: Ctx) {
    && (forall v :: v in c.cur ==> RegsOf(c.cur[v]) <= c.scope - c.sub.Keys)
    && (forall r :: r in c.sub ==> r in c.scope && RegsOf(c.sub[r]) <= c.scope - c.sub.Keys)
  }

  /** Registers are defined once and used only when in scope; phis are in scope from the start. */
  ghost predicate Scoped(code: seq<Instr>, scope: set<nat>) {
    code == []
    || (if code[0].Phi? then Scoped(code[1..], scope)
        else Uses(code[0]) <= scope && Def(code[0]) !! scope && Scoped(code[1..], scope + Def(code[0])))
  }

  ghost predicate PhisFresh(code: seq<Instr>, scope: set<nat>) {
    code == []
    || (if code[0].Phi? then code[0].dst !in scope && code[0].pairs == [] && PhisFresh(code[1..], scope + {code[0].dst})
        else PhisFresh(code[1..], scope))
  }

  /** c' knows everything c does about the registers of c. */
  ghost predicate Extends(c: Ctx, c': Ctx) {
    c.scope <= c'.scope && forall r :: r in c.scope ==> Subst(c'.sub, Reg(r)) == Subst(c.sub, Reg(r))
  }

  lemma {:induction false} PhiScanFacts(code: seq<Instr>, c: Ctx)
    requires WfCtx(c) && PhisFresh(code, c.scope)
    ensures WfCtx(PhiScan(code, c)) && Extends(c, PhiScan(code, c)) && PhiScan(code, c).sub == c.sub
  {
    if code != [] {
      if code[0].Phi? {
        PhiScanFacts(code[1..], Ctx(c.cur[code[0].lval := Reg(code[0].dst)], c.sub, c.scope + {code[0].dst}));
      } else {
        PhiScanFacts(code[1..], c);
      }
    }
  }

  lemma AdvanceFacts(i: Instr, c: Ctx)
    requires WfCtx(c) && (i.Phi? || (Uses(i) <= c.scope && Def(i) !! c.scope))
    ensures WfCtx(Advance(i, c)) && Extends(c, Advance(i, c))
    ensures Advance(i, c).scope == c.scope + if i.Phi? then {} else Def(i)
  {
  }

  lemma {:induction false} ScanFacts(code: seq<Instr>, c: Ctx)
    requires WfCtx(c) && Scoped(code, c.scope)
    ensures WfCtx(Scan(code, c)) && Extends(c, Scan(code, c))
  {
    if code != [] {
      AdvanceFacts(code[0], c);
      ScanFacts(code[1..], Advance(code[0], c));
    }
  }

  /** Every reachable block is well scoped along its dominator chain. */
  ghost predicate BlockScoped(code: Code, up: Up, po: Order, b: Block)
    requires Climbs(up, po) && b in up
  {
    PhisFresh(At(code, b), CtxIn(code, up, po, b).scope) && Scoped(At(code, b), CtxPhi(code, up, po, b).scope)
  }

  ghost predicate AllScoped(code: Code, up: Up, po: Order)
    requires Climbs(up, po)
  {
    forall b {:trigger BlockScoped(code, up, po, b)} :: b in up ==> BlockScoped(code, up, po, b)
  }

  lemma {:induction false} CtxWellFormed(code: Code, up: Up, po: Order, b: Block)
    requires Climbs(up, po) && AllScoped(code, up, po) && b in up
    ensures WfCtx(CtxIn(code, up, po, b)) && WfCtx(CtxPhi(code, up, po, b)) && WfCtx(CtxOut(code, up, po, b))
    ensures Extends(CtxIn(code, up, po, b), CtxPhi(code, up, po, b))
    ensures CtxPhi(code, up, po, b).sub == CtxIn(code, up, po, b).sub
    ensures Extends(CtxPhi(code, up, po, b), CtxOut(code, up, po, b))
    ensures Extends(CtxIn(code, up, po, b), CtxOut(code, up, po, b))
    decreases Below(po, b)
  {
    if b != ENTRY {
      Step(up, po, b);
      CtxWellFormed(code, up, po, up[b]);
    }
    assert BlockScoped(code, up, po, b);
    PhiScanFacts(At(code, b), CtxIn(code, up, po, b));
    ScanFacts(At(code, b), CtxPhi(code, up, po, b));
  }

  /** Contexts grow down the dominator tree. */
  lemma {:induction false} ChainExtends(code: Code, up: Up, po: Order, x: Block, b: Block)
    requires Climbs(up, po) && AllScoped(code, up, po) && b in up && x in Chain(up, po, b)
    ensures x in up && Extends(CtxOut(code, up, po, x), CtxOut(code, up, po, b))
    decreases Below(po, b)
  {
    if x != b {
      Step(up, po, b);
      ChainExtends(code, up, po, x, up[b]);
      CtxWellFormed(code, up, po, b);
    }
  }

  // ----- phi placement suffices -----

  predicate DefinesSlot(i: Instr, v: nat) {
    (i.Store? && i.addr == Local(v)) || (i.Phi? && i.lval == v)
  }

  ghost predicate Defines(code: seq<Instr>, v: nat) {
    exists k :: 0 <= k < |code| && DefinesSlot(code[k], v)
  }

  ghost predicate HasPhi(code: seq<Instr>, v: nat) {
    exists k :: 0 <= k < |code| && code[k].Phi? && code[k].lval == v
  }

  /** Wherever a variable is defined, its dominance frontier has phis for it. */
  ghost predicate PhisClosed(code: Code, g: Graph) {
    g.Valid() && forall x: Block, b: Block, v {:trigger InFrontier(g, x, b), DefinesAt(code, x, v)} ::
      b < |g.pred| && Reachable(g, x) && Reachable(g, b) && DefinesAt(code, x, v) && InFrontier(g, x, b) ==> HasPhi(At(code, b), v)
  }

  ghost predicate DefinesAt(code: Code, b: Block, v: nat) {
    Defines(At(code, b), v)
  }

  function Lookup(m: map<nat, Operand>, v: nat): Option<Operand> {
    if v in m then Some(m[v]) else None
  }

  lemma {:induction false} ScanWithoutDef(code: seq<Instr>, c: Ctx, v: nat)
    requires forall k :: 0 <= k < |code| ==> !DefinesSlot(code[k], v)
    ensures Lookup(Scan(code, c).cur, v) == Lookup(c.cur, v)
  {
    if code != [] {
      assert !DefinesSlot(code[0], v);
      assert forall k :: 0 <= k < |code[1..]| ==> code[1..][k] == code[k + 1];
      ScanWithoutDef(code[1..], Advance(code[0], c), v);
    }
  }

  lemma {:induction false} PhiScanWithoutPhi(code: seq<Instr>, c: Ctx, v: nat)
    requires !HasPhi(code, v)
    ensures Lookup(PhiScan(code, c).cur, v) == Lookup(c.cur, v)
  {
    if code != [] {
      assert !(code[0].Phi? && code[0].lval == v);
      assert forall k :: 0 <= k < |code[1..]| ==> code[1..][k] == code[k + 1];
      PhiScanWithoutPhi(code[1..], if code[0].Phi? then
        Ctx(c.cur[code[0].lval := Reg(code[0].dst)], c.sub, c.scope + {code[0].dst}) else c, v);
    }
  }

  lemma BlockWithoutDef(code: Code, up: Up, po: Order, b: Block, v: nat)
    requires Climbs(up, po) && b in up && !DefinesAt(code, b, v)
    ensures Lookup(CtxOut(code, up, po, b).cur, v) == Lookup(CtxIn(code, up, po, b).cur, v)
  {
    var body := At(code, b);
    assert forall k :: 0 <= k < |body| ==> !DefinesSlot(body[k], v);
    PhiScanWithoutPhi(body, CtxIn(code, up, po, b), v);
    ScanWithoutDef(body, CtxPhi(code, up, po, b), v);
  }

  /** Between x and its ancestor `top` nothing defines v: the value is unchanged. */
  lemma {:induction false} ClimbWithoutDef(code: Code, up: Up, po: Order, top: Block, x: Block, v: nat)
    requires Climbs(up, po) && x in up && top in up && top in Chain(up, po, x)
    requires forall y :: y in Chain(up, po, x) && y !in Chain(up, po, top) ==> !DefinesAt(code, y, v)
    ensures Lookup(CtxOut(code, up, po, x).cur, v) == Lookup(CtxOut(code, up, po, top).cur, v)
    decreases Below(po, x)
  {
    ChainBounds(up, po, x);
    if x != top {
      ChainBounds(up, po, top);
      Step(up, po, x);
      assert !DefinesAt(code, x, v);
      BlockWithoutDef(code, up, po, x, v);
      ClimbWithoutDef(code, up, po, top, up[x], v);
    }
  }

  /** A block without a phi for v receives from every reachable predecessor the very value
      that v has at the end of its immediate dominator. */
  lemma NoPhiSameValue(code: Code, g: Graph, up: Up, po: Order, p: Block, b: Block, v: nat)
    requires Exact(g, up, po) && PhisClosed(code, g)
    requires Edge(g, p, b) && p in up && b in up && b != ENTRY && !HasPhi(At(code, b), v)
    ensures Lookup(CtxOut(code, up, po, p).cur, v) == Lookup(CtxIn(code, up, po, b).cur, v)
  {
    ExactLinks(g, up, po, b);
    DominatesPred(g, up[b], p, b);
    forall y | y in Chain(up, po, p) && y !in Chain(up, po, up[b]) ensures !DefinesAt(code, y, v) {
      ChainBounds(up, po, p);
      assert p in g.pred[b] && Dominates(g, y, p) && !StrictlyDominates(g, y, b);
      assert InFrontier(g, y, b);
    }
    ClimbWithoutDef(code, up, po, up[b], p, v);
  }

  // ----- the same by paths -----

  /** A path from a to b that does not come back to a. */
  ghost predicate Leaves(g: Graph, q: seq<Block>, a: Block, b: Block) {
    PathFromTo(g, q, a, b) && 2 <= |q| && forall i :: 0 < i < |q| ==> q[i] != a
  }

  lemma Suffix(g: Graph, q: seq<Block>, i: nat)
    requires IsPath(g, q) && i < |q|
    ensures PathFromTo(g, q[i..], q[i], q[|q| - 1])
  {
    forall j | 0 <= j < |q[i..]| - 1 ensures Edge(g, q[i..][j], q[i..][j + 1]) {
      assert Edge(g, q[i + j], q[i + j + 1]);
    }
  }

  lemma Prefix(g: Graph, q: seq<Block>, i: nat)
    requires IsPath(g, q) && i < |q|
    ensures PathFromTo(g, q[..i + 1], q[0], q[i])
  {
    var r := q[..i + 1];
    forall j | 0 <= j < |r| - 1 ensures Edge(g, r[j], r[j + 1]) {
      assert Edge(g, q[j], q[j + 1]);
    }
  }

  /** Along a path from x on which nothing after x has or needs a definition of v, x stays a dominator. */
  lemma {:induction false} DominatesAlong(code: Code, g: Graph, q: seq<Block>, i: nat, j: nat, v: nat)
    requires PhisClosed(code, g) && IsPath(g, q) && i < j < |q| && Reachable(g, q[i]) && DefinesAt(code, q[i], v)
    requires forall k :: i < k <= j ==> !HasPhi(At(code, q[k]), v)
    ensures Reachable(g, q[j]) && StrictlyDominates(g, q[i], q[j])
  {
    assert Edge(g, q[j - 1], q[j]);
    if j > i + 1 { DominatesAlong(code, g, q, i, j - 1, v); }
    ReachableStep(g, q[j - 1], q[j]);
    assert q[j - 1] in g.pred[q[j]] && Dominates(g, q[i], q[j - 1]);
    if !StrictlyDominates(g, q[i], q[j]) {
      assert InFrontier(g, q[i], q[j]);
    }
  }

  /** Some path from the entry comes to a strict dominator x of a before it comes to a. */
  lemma {:induction false} ArrivesBefore(g: Graph, p: seq<Block>, x: Block, a: Block) returns (r: seq<Block>)
    requires PathFromTo(g, p, ENTRY, a) && StrictlyDominates(g, x, a)
    ensures PathFromTo(g, r, ENTRY, x) && a !in r
    decreases |p|
  {
    if i :| 0 <= i < |p| - 1 && p[i] == a {
      Prefix(g, p, i);
      r := ArrivesBefore(g, p[..i + 1], x, a);
    } else {
      assert x in p;
      var i :| 0 <= i < |p| && p[i] == x;
      Prefix(g, p, i);
      r := p[..i + 1];
    }
  }

  /** Phi placement suffices, by paths: if b has no phi for v, nothing on a path from the immediate
      dominator a of b to b that does not come back to a defines v, neither a store nor a phi. */
  lemma NoPhiNoDefinition(code: Code, g: Graph, a: Block, b: Block, q: seq<Block>, i: nat, v: nat)
    requires PhisClosed(code, g) && Reachable(g, b) && ImmediatelyDominates(g, a, b) && !HasPhi(At(code, b), v)
    requires Leaves(g, q, a, b) && 0 < i < |q| - 1
    ensures !DefinesAt(code, q[i], v)
    decreases |q| - i
  {
    hide PhisClosed, HasPhi, Defines, Reachable;
    if DefinesAt(code, q[i], v) {
      forall k | i < k < |q| - 1 ensures !HasPhi(At(code, q[k]), v) {
        NoPhiNoDefinition(code, g, a, b, q, k, v);
        if HasPhi(At(code, q[k]), v) { PhiDefines(At(code, q[k]), v); }
      }
      var p := ReachesThrough(g, a, b);
      ReachableAlong(g, q, i);
      DominatesAlong(code, g, q, i, |q| - 1, v);
      assert Dominates(g, q[i], a);
      var r := ArrivesBefore(g, p, q[i], a);
      Suffix(g, q, i);
      ConcatPaths(g, r, q[i..], ENTRY, q[i], b);
    }
  }

  lemma PhiDefines(body: seq<Instr>, v: nat)
    requires HasPhi(body, v)
    ensures Defines(body, v)
  {
    var k :| 0 <= k < |body| && body[k].Phi? && body[k].lval == v;
    assert DefinesSlot(body[k], v);
  }

  /** A dominator of a reachable block is reachable. */
  lemma ReachesThrough(g: Graph, a: Block, b: Block) returns (p: seq<Block>)
    requires Reachable(g, b) && Dominates(g, a, b)
    ensures PathFromTo(g, p, ENTRY, a)
  {
    var q :| PathFromTo(g, q, ENTRY, b);
    var i :| 0 <= i < |q| && q[i] == a;
    Prefix(g, q, i);
    p := q[..i + 1];
  }

  lemma ReachableAlong(g: Graph, q: seq<Block>, i: nat)
    requires IsPath(g, q) && i < |q| && Reachable(g, q[0])
    ensures Reachable(g, q[i])
  {
    var p :| PathFromTo(g, p, ENTRY, q[0]);
    Prefix(g, q, i);
    ConcatPaths(g, p, q[..i + 1], ENTRY, q[0], q[i]);
  }
}
