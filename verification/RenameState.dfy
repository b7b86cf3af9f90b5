// The steps of renaming one block, as facts about the half-rewritten function.
module RenameState {
  import opened Wrappers
  import opened Cfg
  import opened IdomTree
  import opened IdomFixpoint
  import opened IR
  import opened Renaming
  import opened RenameSteps

  ghost function In(S: Source, b: Block): Ctx
    requires Climbs(S.up, S.po) && b in S.up
  {
    CtxIn(S.code, S.up, S.po, b)
  }

  ghost function AfterPhis(S: Source, b: Block): Ctx
    requires Climbs(S.up, S.po) && b in S.up
  {
    CtxPhi(S.code, S.up, S.po, b)
  }

  ghost function Out(S: Source, b: Block): Ctx
    requires Climbs(S.up, S.po) && b in S.up
  {
    CtxOut(S.code, S.up, S.po, b)
  }

  /** The dominator subtree of b. */
  ghost function Subtree(S: Source, b: Block): set<Block>
    requires Climbs(S.up, S.po)
  {
    set c | c in S.up && b in Chain(S.up, S.po, c)
  }

  /** Renaming has not come to block c yet. */
  ghost predicate Fresh(S: Source, processed: set<nat>, linked: set<Block>, c: Block) {
    Defs(At(S.code, c)) !! processed && c !in linked
  }

  /** The subtree of b is b and the subtrees of its children, which are disjoint. */
  lemma SubtreeOfChild(S: Source, b: Block, child: Block)
    requires Climbs(S.up, S.po) && child in S.up && child != ENTRY && S.up[child] == b
    ensures b in S.up && Subtree(S, child) <= Subtree(S, b) && b !in Subtree(S, child)
    ensures Num(S.po, child) < Num(S.po, b)
  {
    Step(S.up, S.po, child);
    ChainBounds(S.up, S.po, child);
    ChainBounds(S.up, S.po, b);
    forall c | c in Subtree(S, child) ensures c in Subtree(S, b) {
      ChainAbove(S.up, S.po, c, child);
      assert b in Chain(S.up, S.po, child);
    }
  }

  lemma {:induction false} SubtreeMember(S: Source, b: Block, c: Block) returns (child: Block)
    requires Climbs(S.up, S.po) && b in S.up && c in Subtree(S, b) && c != b
    ensures child in S.up && child != ENTRY && S.up[child] == b && c in Subtree(S, child)
    decreases Below(S.po, c)
  {
    ChainBounds(S.up, S.po, c);
    ChainBounds(S.up, S.po, b);
    assert ENTRY in S.up && Chain(S.up, S.po, ENTRY) == {ENTRY};
    Step(S.up, S.po, c);
    if S.up[c] == b {
      child := c;
    } else {
      ChainBounds(S.up, S.po, S.up[c]);
      child := SubtreeMember(S, b, S.up[c]);
      assert child in Chain(S.up, S.po, c);
    }
  }

  lemma SiblingsDisjoint(S: Source, a: Block, b: Block)
    requires Climbs(S.up, S.po) && a in S.up && b in S.up && a != b && a != ENTRY && b != ENTRY
    requires S.up[a] == S.up[b]
    ensures Subtree(S, a) !! Subtree(S, b)
  {
    Step(S.up, S.po, a);
    Step(S.up, S.po, b);
    ChainBounds(S.up, S.po, S.up[a]);
    forall c | c in Subtree(S, a) && c in Subtree(S, b) ensures false {
      ChainAbove(S.up, S.po, c, a);
      ChainAbove(S.up, S.po, c, b);
    }
  }

  function PhiCount(body: seq<Instr>, v: nat): nat {
    if body == [] then 0 else (if body[0].Phi? && body[0].lval == v then 1 else 0) + PhiCount(body[1..], v)
  }

  function StoreCount(body: seq<Instr>, v: nat): nat {
    if body == [] then 0 else (if body[0].Store? && body[0].addr == Local(v) then 1 else 0) + StoreCount(body[1..], v)
  }

  lemma {:induction false} CountSnoc(body: seq<Instr>, k: nat, v: nat)
    requires k < |body|
    ensures PhiCount(body[..k + 1], v) == PhiCount(body[..k], v) + if body[k].Phi? && body[k].lval == v then 1 else 0
    ensures StoreCount(body[..k + 1], v) == StoreCount(body[..k], v) + if body[k].Store? && body[k].addr == Local(v) then 1 else 0
  {
    if k == 0 {
      assert body[..1][1..] == [] && body[..0] == [];
    } else {
      assert body[..k + 1][1..] == body[1..][..k] && body[..k][1..] == body[1..][..k - 1];
      CountSnoc(body[1..], k - 1, v);
    }
  }

  /** The stacks lie `extra` values above earlier ones. */
  ghost predicate Above(m: Stacks, base: Stacks, v: nat, extra: nat) {
    StackOf(base, v) <= StackOf(m, v) && |StackOf(m, v)| == |StackOf(base, v)| + extra
  }

  /** How many values an instruction of the renaming loop pushes for v. */
  function Pushes(i: Instr, v: nat): nat {
    if i.Store? && i.addr == Local(v) then 1 else 0
  }

  /** The stacks after position k, given those after the first k positions. */
  ghost predicate StacksAt(m: Stacks, base: Stacks, body: seq<Instr>, k: nat)
    requires k <= |body|
  {
    forall v {:trigger StoreCount(body[..k], v)} :: Above(m, base, v, StoreCount(body[..k], v))
  }

  lemma StacksStep(m': Stacks, m: Stacks, base: Stacks, body: seq<Instr>, k: nat)
    requires k < |body| && StacksAt(m, base, body, k)
    requires forall v {:trigger Pushes(body[k], v)} :: Above(m', m, v, Pushes(body[k], v))
    ensures StacksAt(m', base, body, k + 1)
  {
    forall v {:trigger StoreCount(body[..k + 1], v)} ensures Above(m', base, v, StoreCount(body[..k + 1], v)) {
      CountSnoc(body, k, v);
      assert Above(m, base, v, StoreCount(body[..k], v));
      assert Above(m', m, v, Pushes(body[k], v));
    }
  }

  /** Same for the loop over phis. */
  ghost predicate PhiStacksAt(m: Stacks, base: Stacks, body: seq<Instr>, k: nat)
    requires k <= |body|
  {
    forall v {:trigger PhiCount(body[..k], v)} :: Above(m, base, v, PhiCount(body[..k], v))
  }

  /** Registers of s are replaced by the same operands before and after. */
  ghost predicate Keeps(sub: map<nat, Operand>, sub': map<nat, Operand>, s: set<nat>) {
    forall r :: r in s ==> Subst(sub', Reg(r)) == Subst(sub, Reg(r))
  }

  lemma KeepsTrans(sub: map<nat, Operand>, sub1: map<nat, Operand>, sub2: map<nat, Operand>, s: set<nat>, s1: set<nat>)
    requires Keeps(sub, sub1, s) && Keeps(sub1, sub2, s1) && s <= s1
    ensures Keeps(sub, sub2, s)
  {
    forall r | r in s ensures Subst(sub2, Reg(r)) == Subst(sub, Reg(r)) {
      assert Subst(sub1, Reg(r)) == Subst(sub, Reg(r));
    }
  }

  lemma DefIn(body: seq<Instr>, k: nat)
    requires k < |body|
    ensures Def(body[k]) <= Defs(body)
  {
    forall r | r in Def(body[k]) ensures r in Defs(body) {}
  }

  function PhiRegs(body: seq<Instr>): set<nat> {
    set k | 0 <= k < |body| && body[k].Phi? :: body[k].dst
  }

  function PhiCtxAt(body: seq<Instr>, c: Ctx, k: nat): Ctx
    requires k <= |body|
  {
    if k == 0 then c
    else
      var c' := PhiCtxAt(body, c, k - 1);
      if body[k - 1].Phi? then Ctx(c'.cur[body[k - 1].lval := Reg(body[k - 1].dst)], c'.sub, c'.scope + {body[k - 1].dst}) else c'
  }

  lemma {:induction false} PhiScanAt(body: seq<Instr>, c: Ctx, k: nat)
    requires k <= |body|
    ensures PhiScan(body[k..], PhiCtxAt(body, c, k)) == PhiScan(body, c)
  {
    if k == 0 {
      assert body[0..] == body;
    } else {
      PhiScanAt(body, c, k - 1);
      assert body[k - 1..][1..] == body[k..];
    }
  }

  lemma {:induction false} PhiScopeAt(body: seq<Instr>, c: Ctx, k: nat)
    requires k <= |body|
    ensures PhiCtxAt(body, c, k).sub == c.sub
    ensures forall r :: r in PhiCtxAt(body, c, k).scope ==> r in c.scope || r in PhiRegs(body)
  {
    if k > 0 { PhiScopeAt(body, c, k - 1); }
  }

  /** Once the phis are on the stacks, the replacements agree with the context after them. */
  lemma PhisAgree(S: Source, sub: map<nat, Operand>, processed: set<nat>, b: Block)
    requires S.Valid() && b in S.up && Agrees(sub, In(S, b)) && In(S, b).scope <= processed
    requires Defs(S.code[b]) !! processed && forall q :: q in sub ==> q in processed
    ensures Agrees(sub, AfterPhis(S, b)) && AfterPhis(S, b).scope <= processed + PhiRegs(S.code[b])
    ensures PhiRegs(S.code[b]) <= Defs(S.code[b])
  {
    var body := S.code[b];
    forall r | r in PhiRegs(body) ensures r in Defs(body) {
      var k :| 0 <= k < |body| && body[k].Phi? && body[k].dst == r;
      assert r in Def(body[k]);
    }
    CtxWellFormed(S.code, S.up, S.po, b);
    PhiScanAt(body, In(S, b), |body|);
    PhiScopeAt(body, In(S, b), |body|);
    assert body[|body|..] == [];
    forall r | r in AfterPhis(S, b).scope ensures Subst(sub, Reg(r)) == Subst(AfterPhis(S, b).sub, Reg(r)) {
      if r in In(S, b).scope { assert Subst(sub, Reg(r)) == Subst(In(S, b).sub, Reg(r)); }
    }
  }

  /** What renaming can rely on when it comes to block b. */
  lemma OpenBlock(S: Source, code: Code, terms: seq<Terminator>, sub: map<nat, Operand>,
                  processed: set<nat>, linked: set<Block>, done: set<Block>, b: Block)
    requires Consistent(S, code, terms, sub, processed, linked, done) && b in S.up && b !in done
    ensures |code[b]| == |S.code[b]|
    ensures forall k :: 0 <= k < |code[b]| ==> Core(code[b][k]) == SubstInstr(sub, S.code[b][k])
    ensures WfCtx(AfterPhis(S, b)) && Scoped(S.code[b], AfterPhis(S, b).scope)
  {
    assert BlockOk(S, code, terms, sub, linked, done, b);
    assert BlockScoped(S.code, S.up, S.po, b);
    CtxWellFormed(S.code, S.up, S.po, b);
  }

  lemma OpenPhis(S: Source, code: Code, terms: seq<Terminator>, sub: map<nat, Operand>,
                 processed: set<nat>, linked: set<Block>, done: set<Block>, b: Block)
    requires Consistent(S, code, terms, sub, processed, linked, done) && b in S.up
    requires Agrees(sub, In(S, b)) && In(S, b).scope <= processed && Fresh(S, processed, linked, b)
    ensures Agrees(sub, AfterPhis(S, b)) && AfterPhis(S, b).scope <= processed + PhiRegs(S.code[b])
    ensures PhiRegs(S.code[b]) <= Defs(S.code[b])
    ensures Consistent(S, code, terms, sub, processed + PhiRegs(S.code[b]), linked, done)
  {
    PhisAgree(S, sub, processed, b);
    ProcessMore(S, code, terms, sub, processed, linked, done, PhiRegs(S.code[b]));
  }

  /** A load that stays, or any other instruction, is recorded by its register alone. */
  lemma AdvanceAgrees(sub: map<nat, Operand>, c: Ctx, i: Instr)
    requires WfCtx(c) && Agrees(sub, c) && Def(i) !! c.scope && Def(i) !! sub.Keys
    requires !i.Phi? && !(i.Load? && i.addr.Local? && i.addr.slot in c.cur)
    ensures Agrees(sub, Advance(i, c))
  {
    forall r | r in Advance(i, c).scope ensures Subst(sub, Reg(r)) == Subst(Advance(i, c).sub, Reg(r)) {
      if r in c.scope { assert Subst(sub, Reg(r)) == Subst(c.sub, Reg(r)); }
    }
  }

  /** A load replaced by the value on top of the stack. */
  lemma ReplaceAgrees(sub: map<nat, Operand>, c: Ctx, d: nat, v: nat)
    requires Agrees(sub, c) && d !in c.scope && v in c.cur
    ensures Agrees(sub[d := c.cur[v]], Advance(Load(d, Local(v)), c))
  {
    var c' := Advance(Load(d, Local(v)), c);
    forall r | r in c'.scope ensures Subst(sub[d := c.cur[v]], Reg(r)) == Subst(c'.sub, Reg(r)) {
      if r != d { assert Subst(sub, Reg(r)) == Subst(c.sub, Reg(r)); }
    }
  }

  /** Pushing the stored value shows the context after the store. */
  lemma PushShows(m: Stacks, c: Ctx, v: nat, o: Operand)
    requires Shows(m, c)
    ensures Shows(m[v := StackOf(m, v) + [o]], c.(cur := c.cur[v := o]))
  {
    var m' := m[v := StackOf(m, v) + [o]];
    forall u ensures TopOf(m', u) == Lookup(c.cur[v := o], u) {
      assert TopOf(m, u) == Lookup(c.cur, u);
    }
  }

  /** Stacks, replacements and processed registers when renaming stands before position k of b. */
  ghost predicate Standing(S: Source, m: Stacks, sub: map<nat, Operand>, processed: set<nat>, b: Block, k: nat)
    requires Climbs(S.up, S.po) && b in S.up && b < |S.code| && k <= |S.code[b]|
  {
    var c := CtxAt(S.code[b], AfterPhis(S, b), k);
    Shows(m, c) && Agrees(sub, c) && c.scope <= processed && FreshFrom(S.code[b], processed, k)
  }

  /** The registers still to be defined in this block have not been seen. */
  ghost predicate FreshFrom(body: seq<Instr>, processed: set<nat>, k: nat) {
    forall j :: k <= j < |body| && !body[j].Phi? ==> Def(body[j]) !! processed
  }

  /** What a position does to the registers processed. */
  function Processes(i: Instr): set<nat> {
    if i.Phi? then {} else Def(i)
  }

  lemma StandingStart(S: Source, code: Code, terms: seq<Terminator>, sub: map<nat, Operand>,
                      processed: set<nat>, linked: set<Block>, done: set<Block>, b: Block, m: Stacks, processed': set<nat>)
    requires Consistent(S, code, terms, sub, processed, linked, done) && b in S.up
    requires Shows(m, AfterPhis(S, b)) && Agrees(sub, AfterPhis(S, b)) && AfterPhis(S, b).scope <= processed'
    requires Fresh(S, processed, linked, b) && processed' == processed + PhiRegs(S.code[b])
    ensures Standing(S, m, sub, processed', b, 0)
  {
    var body := S.code[b];
    forall j, r | 0 <= j < |body| && !body[j].Phi? && r in Def(body[j]) ensures r !in processed' {
      assert r in Defs(body);
      assert forall k :: 0 <= k < |body| && r in Def(body[k]) ==> k == j;
      assert forall k :: 0 <= k < |body| && body[k].Phi? ==> body[k].dst in Def(body[k]);
    }
  }

  lemma StandingEnd(S: Source, m: Stacks, sub: map<nat, Operand>, processed: set<nat>, b: Block)
    requires Climbs(S.up, S.po) && b in S.up && b < |S.code| && Standing(S, m, sub, processed, b, |S.code[b]|)
    ensures Shows(m, Out(S, b)) && Agrees(sub, Out(S, b)) && Out(S, b).scope <= processed
  {
    assert S.code[b][|S.code[b]|..] == [];
    ScanFrom(S.code[b], AfterPhis(S, b), |S.code[b]|);
  }

  lemma FreshNext(S: Source, processed: set<nat>, b: Block, k: nat)
    requires S.Valid() && b < |S.code| && k < |S.code[b]| && FreshFrom(S.code[b], processed, k)
    ensures FreshFrom(S.code[b], processed + Processes(S.code[b][k]), k + 1)
  {
    hide Standing;
    var body := S.code[b];
    forall j, r | k < j < |body| && !body[j].Phi? && r in Def(body[j]) ensures r !in Processes(body[k]) {
      assert r in Def(body[j]);
    }
  }

  /** Standing before a load whose variable has a definition: it is replaced by the top of the stack. */
  lemma LoadStep(S: Source, code: Code, terms: seq<Terminator>, sub: map<nat, Operand>,
                 processed: set<nat>, linked: set<Block>, done: set<Block>, b: Block, k: nat, m: Stacks, d: nat, v: nat, o: Operand)
    requires Consistent(S, code, terms, sub, processed, linked, done) && b in S.up && b !in done
    requires k < |S.code[b]| && Standing(S, m, sub, processed, b, k)
    requires S.code[b][k] == Load(d, Local(v)) && TopOf(m, v) == Some(o)
    ensures d !in processed && RegsOf(o) <= processed
    ensures Standing(S, m, sub[d := o], processed + {d}, b, k + 1)
    ensures Deleted(S.code[b][k], CtxAt(S.code[b], AfterPhis(S, b), k))
  {
    OpenBlock(S, code, terms, sub, processed, linked, done, b);
    ScopedAt(S.code[b], AfterPhis(S, b), k);
    var c := CtxAt(S.code[b], AfterPhis(S, b), k);
    assert TopOf(m, v) == Lookup(c.cur, v);
    assert d in Def(S.code[b][k]);
    ReplaceAgrees(sub, c, d, v);
    FreshNext(S, processed, b, k);
    forall u ensures TopOf(m, u) == Lookup(Advance(S.code[b][k], c).cur, u) {
      assert TopOf(m, u) == Lookup(c.cur, u);
    }
  }

  /** Standing before a store to a local: the rewritten value is pushed. */
  lemma StoreStep(S: Source, code: Code, terms: seq<Terminator>, sub: map<nat, Operand>,
                  processed: set<nat>, linked: set<Block>, done: set<Block>, b: Block, k: nat, m: Stacks, v: nat)
    requires Consistent(S, code, terms, sub, processed, linked, done) && b in S.up && b !in done
    requires k < |S.code[b]| && Standing(S, m, sub, processed, b, k)
    requires S.code[b][k].Store? && S.code[b][k].addr == Local(v)
    ensures Standing(S, m[v := StackOf(m, v) + [Subst(sub, S.code[b][k].val)]], sub, processed, b, k + 1)
  {
    OpenBlock(S, code, terms, sub, processed, linked, done, b);
    ScopedAt(S.code[b], AfterPhis(S, b), k);
    var c := CtxAt(S.code[b], AfterPhis(S, b), k);
    SubstAgree(sub, c, S.code[b][k]);
    PushShows(m, c, v, Subst(sub, S.code[b][k].val));
    FreshNext(S, processed, b, k);
  }

  /** Standing before anything else, a load without definition included. */
  lemma OtherStep(S: Source, code: Code, terms: seq<Terminator>, sub: map<nat, Operand>,
                  processed: set<nat>, linked: set<Block>, done: set<Block>, b: Block, k: nat, m: Stacks)
    requires Consistent(S, code, terms, sub, processed, linked, done) && b in S.up && b !in done
    requires k < |S.code[b]| && Standing(S, m, sub, processed, b, k)
    requires var i := S.code[b][k];
             !(i.Store? && i.addr.Local?) && (i.Load? && i.addr.Local? ==> TopOf(m, i.addr.slot) == None)
    ensures Standing(S, m, sub, processed + Processes(S.code[b][k]), b, k + 1)
    ensures Consistent(S, code, terms, sub, processed + Processes(S.code[b][k]), linked, done)
    ensures !Deleted(S.code[b][k], CtxAt(S.code[b], AfterPhis(S, b), k))
  {
    OpenBlock(S, code, terms, sub, processed, linked, done, b);
    ScopedAt(S.code[b], AfterPhis(S, b), k);
    var i, c := S.code[b][k], CtxAt(S.code[b], AfterPhis(S, b), k);
    ProcessMore(S, code, terms, sub, processed, linked, done, Processes(i));
    if i.Load? && i.addr.Local? { assert TopOf(m, i.addr.slot) == Lookup(c.cur, i.addr.slot); }
    if !i.Phi? { AdvanceAgrees(sub, c, i); }
    FreshNext(S, processed, b, k);
    forall u ensures TopOf(m, u) == Lookup(Advance(i, c).cur, u) {
      assert TopOf(m, u) == Lookup(c.cur, u);
    }
  }

  /** What the renaming loop has done to the first k positions of b. */
  ghost predicate Rewritten(S: Source, b: Block, k: nat, m0: Stacks, m: Stacks, sub0: map<nat, Operand>,
                            sub: map<nat, Operand>, p0: set<nat>, p: set<nat>, del: set<nat>)
    requires Climbs(S.up, S.po) && b in S.up && b < |S.code| && k <= |S.code[b]|
  {
    && p0 <= p <= p0 + Defs(S.code[b])
    && Keeps(sub0, sub, p0)
    && StacksAt(m, m0, S.code[b], k)
    && MarkedDeleted(S.code[b], AfterPhis(S, b), k, del)
  }

  /** Among the first k positions, exactly the deleted ones are in `del`. */
  ghost predicate MarkedDeleted(body: seq<Instr>, c: Ctx, k: nat, del: set<nat>)
    requires k <= |body|
  {
    && (forall j :: j in del ==> j < k)
    && (forall j {:trigger j in del} :: 0 <= j < k ==> (j in del <==> Deleted(body[j], CtxAt(body, c, j))))
  }

  lemma RewrittenStart(S: Source, b: Block, m: Stacks, sub: map<nat, Operand>, p: set<nat>)
    requires Climbs(S.up, S.po) && b in S.up && b < |S.code|
    ensures Rewritten(S, b, 0, m, m, sub, sub, p, p, {})
  {
  }

  lemma RewrittenStep(S: Source, b: Block, k: nat, m0: Stacks, m: Stacks, sub0: map<nat, Operand>,
                      sub: map<nat, Operand>, p0: set<nat>, p: set<nat>, del: set<nat>,
                      m': Stacks, sub': map<nat, Operand>, p': set<nat>, deleted: bool)
    requires Climbs(S.up, S.po) && b in S.up && b < |S.code| && k < |S.code[b]|
    requires Rewritten(S, b, k, m0, m, sub0, sub, p0, p, del)
    requires p' == p + Processes(S.code[b][k]) && Keeps(sub, sub', p)
    requires forall v {:trigger Pushes(S.code[b][k], v)} :: Above(m', m, v, Pushes(S.code[b][k], v))
    requires deleted <==> Deleted(S.code[b][k], CtxAt(S.code[b], AfterPhis(S, b), k))
    ensures Rewritten(S, b, k + 1, m0, m', sub0, sub', p0, p', if deleted then del + {k} else del)
  {
    assert p0 <= p' <= p0 + Defs(S.code[b]) by { DefIn(S.code[b], k); }
    assert Keeps(sub0, sub', p0) by { KeepsTrans(sub0, sub, sub', p0, p); }
    assert StacksAt(m', m0, S.code[b], k + 1) by { StacksStep(m', m, m0, S.code[b], k); }
    MarkStep(S.code[b], AfterPhis(S, b), k, del, deleted);
  }

  lemma MarkStep(body: seq<Instr>, c: Ctx, k: nat, del: set<nat>, deleted: bool)
    requires k < |body| && MarkedDeleted(body, c, k, del) && (deleted <==> Deleted(body[k], CtxAt(body, c, k)))
    ensures MarkedDeleted(body, c, k + 1, if deleted then del + {k} else del)
  {
  }

  // ----- phi pairs -----

  function AddPair(i: Instr, m: Stacks, p: Block): Instr {
    if i.Phi? && TopOf(m, i.lval).Some? then i.(pairs := i.pairs + [(TopOf(m, i.lval).value, p)]) else i
  }

  function AddPairs(body: seq<Instr>, m: Stacks, p: Block): (r: seq<Instr>)
    ensures |r| == |body| && forall k :: 0 <= k < |body| ==> r[k] == AddPair(body[k], m, p)
  {
    seq(|body|, k requires 0 <= k < |body| => AddPair(body[k], m, p))
  }

  /** Handing the values at the end of p to the phis of its successor b. */
  lemma AddPairsOk(S: Source, body: seq<Instr>, m: Stacks, linked: set<Block>, p: Block, b: Block)
    requires S.Valid() && PairsOk(S, body, linked, b) && Edge(S.g, p, b) && p in S.up && Shows(m, Out(S, p))
    ensures PairsOk(S, AddPairs(body, m, p), linked + {p}, b) && Cores(AddPairs(body, m, p)) == Cores(body)
  {
    var body' := AddPairs(body, m, p);
    forall k | 0 <= k < |body'| && body'[k].Phi?
      ensures PairsFrom(S.code, S.up, S.po, S.g, linked + {p}, b, body'[k].lval, body'[k].pairs)
    {
      assert body'[k] == AddPair(body[k], m, p) && body[k].Phi?;
      var v := body[k].lval;
      assert TopOf(m, v) == Lookup(Out(S, p).cur, v);
      assert PairsFrom(S.code, S.up, S.po, S.g, linked, b, v, body[k].pairs);
      forall o, q
        ensures (o, q) in body'[k].pairs <==>
                q in linked + {p} && q in S.up && Edge(S.g, q, b)
                && v in CtxOut(S.code, S.up, S.po, q).cur && o == CtxOut(S.code, S.up, S.po, q).cur[v]
      {
        assert (o, q) in body[k].pairs <==>
          q in linked && q in S.up && Edge(S.g, q, b)
          && v in CtxOut(S.code, S.up, S.po, q).cur && o == CtxOut(S.code, S.up, S.po, q).cur[v];
      }
    }
    assert Cores(body') == Cores(body);
  }

  lemma NoEdgePairsOk(S: Source, body: seq<Instr>, linked: set<Block>, p: Block, b: Block)
    requires S.Valid() && PairsOk(S, body, linked, b) && !Edge(S.g, p, b)
    ensures PairsOk(S, body, linked + {p}, b)
  {
    forall k | 0 <= k < |body| && body[k].Phi?
      ensures PairsFrom(S.code, S.up, S.po, S.g, linked + {p}, b, body[k].lval, body[k].pairs)
    {
      assert PairsFrom(S.code, S.up, S.po, S.g, linked, b, body[k].lval, body[k].pairs);
    }
  }

  lemma ErasedOk(S: Source, code: Code, terms: seq<Terminator>, sub: map<nat, Operand>,
                    processed: set<nat>, linked: set<Block>, done: set<Block>, b: Block, del: set<nat>)
    requires Consistent(S, code, terms, sub, processed, linked, done)
    requires b in S.up && b in linked && b !in done && b < |code|
    requires forall j :: 0 <= j < |S.code[b]| ==> (j in del <==> Deleted(S.code[b][j], CtxAt(S.code[b], AfterPhis(S, b), j)))
    ensures BlockOk(S, code[b := Erase(code[b], del, 0)], terms, sub, linked, done + {b}, b)
  {
    var body, c := S.code[b], AfterPhis(S, b);
    var erased := Erase(code[b], del, 0);
    var code' := code[b := erased];
    assert BlockOk(S, code, terms, sub, linked, done, b);
    assert LinkedOk(S, sub, processed, b) && S.TermScoped(b) && BlockScoped(S.code, S.up, S.po, b);
    CtxWellFormed(S.code, S.up, S.po, b);
    forall j | 0 <= j < |body| ensures RenamedAt(body, c, code[b], del, j) {
      UntouchedIsRenamedAt(S, code, terms, sub, b, j);
    }
    ErasedIsRenamed(body, c, code[b], del, 0);
    assert body[0..] == body;
    SubstTermAgree(sub, Out(S, b), S.terms[b]);
    ErasedMembers(code[b], del, 0);
    forall k | 0 <= k < |erased| && erased[k].Phi?
      ensures PairsFrom(S.code, S.up, S.po, S.g, linked, b, erased[k].lval, erased[k].pairs)
    {
      var j :| 0 <= j < |code[b]| && code[b][j] == erased[k];
    }
  }

  /** Cleaning block b once its subtree is finished. */
  lemma FinishBlock(S: Source, code: Code, terms: seq<Terminator>, sub: map<nat, Operand>,
                    processed: set<nat>, linked: set<Block>, done: set<Block>, b: Block, del: set<nat>)
    requires Consistent(S, code, terms, sub, processed, linked, done)
    requires b in S.up && b in linked && b !in done && b < |code|
    requires forall j :: 0 <= j < |S.code[b]| ==> (j in del <==> Deleted(S.code[b][j], CtxAt(S.code[b], AfterPhis(S, b), j)))
    ensures Consistent(S, code[b := Erase(code[b], del, 0)], terms, sub, processed, linked, done + {b})
  {
    var code' := code[b := Erase(code[b], del, 0)];
    hide BlockOk;
    ErasedOk(S, code, terms, sub, processed, linked, done, b, del);
    forall x {:trigger BlockOk(S, code', terms, sub, linked, done + {b}, x)} | 0 <= x < |code'|
      ensures BlockOk(S, code', terms, sub, linked, done + {b}, x)
    {
      assert BlockOk(S, code, terms, sub, linked, done, x);
      if x != b { OtherOk(S, code, code', terms, sub, linked, done, b, x); }
    }
  }

  lemma OtherOk(S: Source, code: Code, code': Code, terms: seq<Terminator>, sub: map<nat, Operand>,
                linked: set<Block>, done: set<Block>, b: Block, x: Block)
    requires |code| == |code'| == |terms| == |S.code| == |S.terms| && Climbs(S.up, S.po) && x < |code| && x != b
    requires code'[x] == code[x] && BlockOk(S, code, terms, sub, linked, done, x)
    ensures BlockOk(S, code', terms, sub, linked, done + {b}, x)
  {
  }

  lemma UntouchedIsRenamedAt(S: Source, code: Code, terms: seq<Terminator>, sub: map<nat, Operand>, b: Block, j: nat)
    requires S.Valid() && |code| == |terms| == |S.code| && b in S.up && Untouched(S, code, terms, sub, b)
    requires Agrees(sub, Out(S, b)) && j < |S.code[b]|
    ensures Core(code[b][j]) == SubstInstr(CtxAt(S.code[b], AfterPhis(S, b), j).sub, S.code[b][j])
  {
    var body, c := S.code[b], AfterPhis(S, b);
    CtxWellFormed(S.code, S.up, S.po, b);
    assert BlockScoped(S.code, S.up, S.po, b);
    ScopedAt(body, c, j);
    var cj := CtxAt(body, c, j);
    ScanFrom(body, c, j);
    ScanFacts(body[j..], cj);
    if body[j].Phi? {
      assert SubstPairs(sub, []) == [] && SubstPairs(cj.sub, []) == [];
    } else {
      forall r | r in cj.scope ensures Subst(sub, Reg(r)) == Subst(cj.sub, Reg(r)) {
        assert Subst(Out(S, b).sub, Reg(r)) == Subst(cj.sub, Reg(r));
      }
      SubstAgree(sub, cj, body[j]);
    }
  }

  /** Progress of handing the values at the end of p to the phis of its first j successors. */
  ghost predicate Handing(S: Source, code0: Code, code: Code, linked: set<Block>, p: Block, j: nat)
    requires Climbs(S.up, S.po) && p < |S.g.succ| && j <= |S.g.succ[p]|
  {
    && |code| == |code0|
    && forall b :: 0 <= b < |code| ==>
         && Cores(code[b]) == Cores(code0[b])
         && (if b in S.g.succ[p][..j] then PairsOk(S, code[b], linked + {p}, b) else code[b] == code0[b])
  }

  lemma HandingStart(S: Source, code0: Code, linked: set<Block>, p: Block)
    requires Climbs(S.up, S.po) && p < |S.g.succ|
    ensures Handing(S, code0, code0, linked, p, 0)
  {
    assert S.g.succ[p][..0] == [];
  }

  lemma HandingStep(S: Source, code0: Code, code: Code, terms: seq<Terminator>, sub: map<nat, Operand>, processed: set<nat>,
                    linked: set<Block>, done: set<Block>, p: Block, j: nat, m: Stacks)
    requires Consistent(S, code0, terms, sub, processed, linked, done)
    requires p in S.up && p < |S.g.succ| && j < |S.g.succ[p]| && Handing(S, code0, code, linked, p, j) && Shows(m, Out(S, p))
    ensures S.g.succ[p][j] < |code| == |code0|
    ensures Handing(S, code0, code[S.g.succ[p][j] := AddPairs(code[S.g.succ[p][j]], m, p)], linked, p, j + 1)
  {
    var s := S.g.succ[p][j];
    assert s in S.g.succ[p] && Edge(S.g, p, s);
    assert S.g.succ[p][..j + 1] == S.g.succ[p][..j] + [s];
    assert BlockOk(S, code0, terms, sub, linked, done, s);
    assert linked + {p} + {p} == linked + {p};
    AddPairsOk(S, code[s], m, if s in S.g.succ[p][..j] then linked + {p} else linked, p, s);
  }

  lemma HandingEnd(S: Source, code0: Code, code: Code, terms: seq<Terminator>, sub: map<nat, Operand>, processed: set<nat>,
                   linked: set<Block>, done: set<Block>, p: Block)
    requires Consistent(S, code0, terms, sub, processed, linked, done)
    requires p in S.up && p < |S.g.succ| && Handing(S, code0, code, linked, p, |S.g.succ[p]|)
    requires Agrees(sub, Out(S, p)) && Out(S, p).scope <= processed
    ensures Consistent(S, code, terms, sub, processed, linked + {p}, done)
  {
    assert S.g.succ[p][..|S.g.succ[p]|] == S.g.succ[p];
    forall b {:trigger BlockOk(S, code, terms, sub, linked + {p}, done, b)} | 0 <= b < |code|
      ensures BlockOk(S, code, terms, sub, linked + {p}, done, b)
    {
      assert BlockOk(S, code0, terms, sub, linked, done, b);
      CoresKeepBlock(S, code0, code, terms, sub, done, b);
      if b !in S.g.succ[p] { NoEdgePairsOk(S, code[b], linked, p, b); }
    }
    forall q {:trigger LinkedOk(S, sub, processed, q)} | q in linked + {p} ensures LinkedOk(S, sub, processed, q) {}
  }

  lemma CoresKeepBlock(S: Source, code0: Code, code: Code, terms: seq<Terminator>, sub: map<nat, Operand>, done: set<Block>, b: Block)
    requires |code| == |code0| == |terms| == |S.code| == |S.terms| && Climbs(S.up, S.po) && b < |code|
    requires Cores(code[b]) == Cores(code0[b])
    requires if b in done then Renamed(S, code0, terms, b) else Untouched(S, code0, terms, sub, b)
    ensures if b in done then Renamed(S, code, terms, b) else Untouched(S, code, terms, sub, b)
  {
    assert |code[b]| == |Cores(code[b])| == |code0[b]|;
    forall k | 0 <= k < |code[b]| ensures Core(code[b][k]) == Core(code0[b][k]) {
      assert Cores(code[b])[k] == Cores(code0[b])[k];
    }
  }

  // ----- popping -----

  ghost predicate SameStacks(m: Stacks, m': Stacks) {
    forall v {:trigger StackOf(m, v)} {:trigger StackOf(m', v)} :: StackOf(m, v) == StackOf(m', v)
  }

  function Pops(i: Instr, v: nat): nat {
    if (i.Store? && i.addr == Local(v)) || (i.Phi? && i.lval == v) then 1 else 0
  }

  function PopCount(body: seq<Instr>, v: nat): nat {
    if body == [] then 0 else Pops(body[0], v) + PopCount(body[1..], v)
  }

  lemma {:induction false} PopCountIsPushes(body: seq<Instr>, v: nat)
    ensures PopCount(body, v) == PhiCount(body, v) + StoreCount(body, v)
  {
    if body != [] { PopCountIsPushes(body[1..], v); }
  }

  /** The definitions made from position k on are still to be popped. */
  ghost predicate Popping(m: Stacks, base: Stacks, body: seq<Instr>, k: nat)
    requires k <= |body|
  {
    forall v {:trigger PopCount(body[k..], v)} :: Above(m, base, v, PopCount(body[k..], v))
  }

  lemma PoppingStart(S: Source, body: seq<Instr>, m0: Stacks, m1: Stacks, m2: Stacks, m: Stacks)
    requires PhiStacksAt(m1, m0, body, |body|) && StacksAt(m2, m1, body, |body|) && SameStacks(m, m2)
    ensures Popping(m, m0, body, 0)
  {
    assert body[..|body|] == body && body[0..] == body;
    forall v {:trigger PopCount(body[0..], v)} ensures Above(m, m0, v, PopCount(body[0..], v)) {
      PopCountIsPushes(body, v);
      assert Above(m1, m0, v, PhiCount(body[..|body|], v)) && Above(m2, m1, v, StoreCount(body[..|body|], v));
      assert StackOf(m, v) == StackOf(m2, v);
    }
  }

  function DefinedSlot(i: Instr): Option<nat> {
    if i.Store? && i.addr.Local? then Some(i.addr.slot) else if i.Phi? then Some(i.lval) else None
  }

  lemma PoppingStep(m: Stacks, base: Stacks, body: seq<Instr>, k: nat)
    requires k < |body| && Popping(m, base, body, k)
    ensures match DefinedSlot(body[k])
            case None => Popping(m, base, body, k + 1)
            case Some(v) =>
              v in m && m[v] != [] && Popping(m[v := m[v][..|m[v]| - 1]], base, body, k + 1)
  {
    assert body[k..][1..] == body[k + 1..] && body[k..][0] == body[k];
    var m' := match DefinedSlot(body[k])
              case None => m
              case Some(v) => if v in m && m[v] != [] then m[v := m[v][..|m[v]| - 1]] else m;
    match DefinedSlot(body[k]) {
      case None =>
      case Some(v) => assert Above(m, base, v, PopCount(body[k..], v));
    }
    forall v {:trigger PopCount(body[k + 1..], v)} ensures Above(m', base, v, PopCount(body[k + 1..], v)) {
      assert Above(m, base, v, PopCount(body[k..], v));
    }
  }

  lemma PoppingEnd(m: Stacks, base: Stacks, body: seq<Instr>)
    requires Popping(m, base, body, |body|)
    ensures SameStacks(m, base)
  {
    assert body[|body|..] == [];
    forall v {:trigger StackOf(m, v)} ensures StackOf(m, v) == StackOf(base, v) {
      assert Above(m, base, v, PopCount(body[|body|..], v));
    }
  }

  // ----- the registers of subtrees -----

  ghost predicate AllFresh(S: Source, processed: set<nat>, linked: set<Block>, blocks: set<Block>) {
    forall c {:trigger Fresh(S, processed, linked, c)} :: c in blocks ==> Fresh(S, processed, linked, c)
  }

  /** Only registers defined in the given blocks have been added. */
  ghost predicate Grew(S: Source, p0: set<nat>, p: set<nat>, blocks: set<Block>) {
    p0 <= p && forall r :: r in p ==> r in p0 || exists c :: c in blocks && r in Defs(At(S.code, c))
  }

  lemma StaysFresh(S: Source, p0: set<nat>, p: set<nat>, linked: set<Block>, blocks: set<Block>, others: set<Block>)
    requires DefinedOnce(S.code) && AllFresh(S, p0, linked, others) && Grew(S, p0, p, blocks) && blocks !! others
    ensures AllFresh(S, p, linked + blocks, others)
  {
    forall c {:trigger Fresh(S, p, linked + blocks, c)} | c in others ensures Fresh(S, p, linked + blocks, c) {
      assert Fresh(S, p0, linked, c);
      forall r | r in Defs(At(S.code, c)) ensures r !in p {
        assert r !in p0;
        forall x | x in blocks ensures r !in Defs(At(S.code, x)) {}
      }
    }
  }

  lemma GrewTrans(S: Source, p0: set<nat>, p1: set<nat>, p2: set<nat>, a: set<Block>, b: set<Block>)
    requires Grew(S, p0, p1, a) && Grew(S, p1, p2, b)
    ensures Grew(S, p0, p2, a + b)
  {
  }

  // ----- the recursion over the dominator tree -----

  /** The subtrees of the children of b outside todo, all inside `seen`, have been renamed since
      the values at the end of b were on the stacks. */
  ghost predicate Descending(S: Source, b: Block, todo: set<Block>, seen: set<Block>, m0: Stacks, m: Stacks,
                             sub0: map<nat, Operand>, sub: map<nat, Operand>, p0: set<nat>, p: set<nat>)
    requires Climbs(S.up, S.po)
  {
    && SameStacks(m, m0) && Keeps(sub0, sub, p0) && Grew(S, p0, p, seen)
    && todo <= Kids(S.up, b)
    && seen <= Subtree(S, b) - {b}
    && (forall c :: c in todo ==> Subtree(S, c) !! seen)
    && (forall c :: c in Kids(S.up, b) - todo ==> Subtree(S, c) <= seen)
  }

  lemma DescendStart(S: Source, b: Block, m: Stacks, sub: map<nat, Operand>, p: set<nat>)
    requires Climbs(S.up, S.po)
    ensures Descending(S, b, Kids(S.up, b), {}, m, m, sub, sub, p, p)
  {
  }

  /** The preconditions of renaming the next child. */
  lemma DescendInto(S: Source, b: Block, todo: set<Block>, seen: set<Block>, m0: Stacks, m: Stacks,
                    sub0: map<nat, Operand>, sub: map<nat, Operand>, p0: set<nat>, p: set<nat>, linked0: set<Block>, child: Block,
                    code: Code, terms: seq<Terminator>, linked: set<Block>, done: set<Block>)
    requires Consistent(S, code, terms, sub, p, linked, done)
    requires b in S.up && Descending(S, b, todo, seen, m0, m, sub0, sub, p0, p) && child in todo
    requires Shows(m0, Out(S, b)) && Agrees(sub0, Out(S, b)) && Out(S, b).scope <= p0
    requires AllFresh(S, p0, linked0, Subtree(S, b) - {b})
    ensures child in S.up && child != ENTRY && Num(S.po, child) < Num(S.po, b)
    ensures Shows(m, In(S, child)) && Agrees(sub, In(S, child)) && In(S, child).scope <= p
    ensures AllFresh(S, p, linked0 + seen, Subtree(S, child))
  {
    SubtreeOfChild(S, b, child);
    Step(S.up, S.po, child);
    forall v ensures TopOf(m, v) == Lookup(Out(S, b).cur, v) {
      assert TopOf(m0, v) == Lookup(Out(S, b).cur, v) && StackOf(m, v) == StackOf(m0, v);
    }
    forall r | r in Out(S, b).scope ensures Subst(sub, Reg(r)) == Subst(Out(S, b).sub, Reg(r)) {
      assert Subst(sub0, Reg(r)) == Subst(Out(S, b).sub, Reg(r));
    }
    forall c {:trigger Fresh(S, p0, linked0, c)} | c in Subtree(S, child) ensures Fresh(S, p0, linked0, c) {}
    StaysFresh(S, p0, p, linked0, seen, Subtree(S, child));
  }

  lemma DescendStep(S: Source, b: Block, todo: set<Block>, seen: set<Block>, m0: Stacks, m: Stacks,
                    sub0: map<nat, Operand>, sub: map<nat, Operand>, p0: set<nat>, p: set<nat>, child: Block,
                    m': Stacks, sub': map<nat, Operand>, p': set<nat>)
    requires Climbs(S.up, S.po) && Descending(S, b, todo, seen, m0, m, sub0, sub, p0, p) && child in todo
    requires SameStacks(m', m) && Keeps(sub, sub', p) && Grew(S, p, p', Subtree(S, child))
    ensures Descending(S, b, todo - {child}, seen + Subtree(S, child), m0, m', sub0, sub', p0, p')
  {
    SubtreeOfChild(S, b, child);
    KeepsTrans(sub0, sub, sub', p0, p);
    GrewTrans(S, p0, p, p', seen, Subtree(S, child));
    forall v {:trigger StackOf(m', v)} ensures StackOf(m', v) == StackOf(m0, v) {
      assert StackOf(m', v) == StackOf(m, v);
    }
    forall c | c in todo - {child} ensures Subtree(S, c) !! seen + Subtree(S, child) {
      SiblingsDisjoint(S, c, child);
    }
  }

  lemma DescendEnd(S: Source, b: Block, seen: set<Block>, m0: Stacks, m: Stacks,
                   sub0: map<nat, Operand>, sub: map<nat, Operand>, p0: set<nat>, p: set<nat>)
    requires Climbs(S.up, S.po) && b in S.up && Descending(S, b, {}, seen, m0, m, sub0, sub, p0, p)
    ensures seen == Subtree(S, b) - {b} && SameStacks(m, m0) && Keeps(sub0, sub, p0) && Grew(S, p0, p, seen)
  {
    forall c | c in Subtree(S, b) - {b} ensures c in seen {
      var child := SubtreeMember(S, b, c);
      assert child in Kids(S.up, b) - {};
    }
  }

  lemma OwnBlockFresh(S: Source, code: Code, terms: seq<Terminator>, sub: map<nat, Operand>,
                      processed: set<nat>, linked: set<Block>, done: set<Block>, b: Block)
    requires Consistent(S, code, terms, sub, processed, linked, done) && b in S.up
    requires AllFresh(S, processed, linked, Subtree(S, b))
    ensures Fresh(S, processed, linked, b) && b !in done && b in Subtree(S, b)
  {
    ChainBounds(S.up, S.po, b);
  }

  // ----- reads without a definition -----

  /** Position k of block b loads v, which has no definition. */
  ghost predicate UndefinedLoadOf(S: Source, b: Block, k: nat, v: nat)
    requires Climbs(S.up, S.po) && b in S.up
  {
    && b < |S.code| && k < |S.code[b]|
    && S.code[b][k].Load? && S.code[b][k].addr == Local(v) && v !in CtxAt(S.code[b], AfterPhis(S, b), k).cur
  }

  /** The edge p -> b has no definition of v for a phi. */
  ghost predicate UndefinedEdge(S: Source, p: Block, b: Block, v: nat)
    requires Climbs(S.up, S.po) && p in S.up
  {
    Edge(S.g, p, b) && HasPhi(At(S.code, b), v) && v !in Out(S, p).cur
  }

  /** Renaming block b looks for a definition of v where there is none. */
  ghost predicate ReadsAt(S: Source, b: Block, v: nat)
    requires Climbs(S.up, S.po) && b in S.up
  {
    (exists k: nat :: UndefinedLoadOf(S, b, k, v)) || (exists s :: UndefinedEdge(S, b, s, v))
  }

  // ----- beginning and end -----

  lemma SubstEmpty(i: Instr)
    ensures SubstInstr(map[], i) == i
  {
    match i
    case Call(_, _, os) => assert SubstAll(map[], os) == os;
    case Phi(_, _, ps) => assert SubstPairs(map[], ps) == ps;
    case _ =>
  }

  lemma StartConsistent(S: Source)
    requires S.Valid() && ENTRY in S.up
    ensures Consistent(S, S.code, S.terms, map[], {}, {}, {})
  {
    forall b {:trigger BlockOk(S, S.code, S.terms, map[], {}, {}, b)} | 0 <= b < |S.code|
      ensures BlockOk(S, S.code, S.terms, map[], {}, {}, b)
    {
      forall k | 0 <= k < |S.code[b]| ensures Core(S.code[b][k]) == SubstInstr(map[], S.code[b][k]) {
        SubstEmpty(S.code[b][k]);
      }
    }
  }

  /** Nothing has been renamed: the preconditions of renaming the entry. */
  lemma StartRenaming(S: Source, code: Code, terms: seq<Terminator>)
    requires Consistent(S, code, terms, map[], {}, {}, {})
    ensures ENTRY in S.up && ENTRY < |S.g.succ|
    ensures Shows(map[], In(S, ENTRY)) && Agrees(map[], In(S, ENTRY)) && In(S, ENTRY).scope == {}
    ensures AllFresh(S, {}, {}, Subtree(S, ENTRY)) && Subtree(S, ENTRY) == S.up.Keys
  {
    hide ConsistentParts;
    forall b | b in S.up ensures b in Subtree(S, ENTRY) { ChainBounds(S.up, S.po, b); }
  }

  /** When every block of the tree is done, each is the renamed form of its source. */
  lemma EndRenamed(S: Source, code: Code, terms: seq<Terminator>, sub: map<nat, Operand>, processed: set<nat>, b: Block)
    requires Consistent(S, code, terms, sub, processed, S.up.Keys, S.up.Keys) && b in S.up
    ensures RenamedBlock(S.code, S.up, S.po, S.g, b, code[b]) && terms[b] == SubstTerm(Out(S, b).sub, S.terms[b])
  {
    assert BlockOk(S, code, terms, sub, S.up.Keys, S.up.Keys, b);
  }

  lemma EndTargets(S: Source, code: Code, terms: seq<Terminator>, sub: map<nat, Operand>, processed: set<nat>,
                   linked: set<Block>, done: set<Block>, b: Block)
    requires Consistent(S, code, terms, sub, processed, linked, done) && b < |code|
    ensures Successors(terms[b]) == Successors(S.terms[b])
  {
    assert BlockOk(S, code, terms, sub, linked, done, b);
  }
}
