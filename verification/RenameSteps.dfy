// The in-place renaming seen step by step: what the half-rewritten function looks
// like in terms of the code with phis placed.
module RenameSteps {
  import opened Wrappers
  import opened Cfg
  import opened IdomTree
  import opened IdomFixpoint
  import opened IR
  import opened Renaming

  type Stacks = map<nat, seq<Operand>>

  function StackOf(m: Stacks, v: nat): seq<Operand> {
    if v in m then m[v] else []
  }

  function TopOf(m: Stacks, v: nat): Option<Operand> {
    var s := StackOf(m, v);
    if s == [] then None else Some(s[|s| - 1])
  }

  /** The stacks show the values of the context. */
  ghost predicate Shows(m: Stacks, c: Ctx) {
    forall v :: TopOf(m, v) == Lookup(c.cur, v)
  }

  /** The fixed data of one renaming: the code with phis placed and the dominator tree. */
  datatype Source = Source(code: Code, terms: seq<Terminator>, g: Graph, up: Up, po: Order) {
    ghost predicate Valid() {
      && g.Valid() && Climbs(up, po) && |code| == |terms| == g.Size()
      && (forall b :: b in up ==> b < |code|)
      && AllScoped(code, up, po)
      && (forall b {:trigger TermScoped(b)} :: b in up ==> TermScoped(b))
      && DefinedOnce(code)
      && (forall b, k :: 0 <= b < |code| && 0 <= k < |code[b]| && code[b][k].Phi? ==> code[b][k].pairs == [])
    }

    ghost predicate TermScoped(b: Block)
      requires Climbs(up, po)
    {
      b in up && b < |terms| && TermUses(terms[b]) <= CtxOut(code, up, po, b).scope
    }
  }

  /** No register is defined by two instructions. */
  ghost predicate DefinedOnce(code: Code) {
    forall b, b', k, k', r ::
      (0 <= b < |code| && 0 <= b' < |code| && 0 <= k < |code[b]| && 0 <= k' < |code[b']|
       && r in Def(code[b][k]) && r in Def(code[b'][k'])) ==> b == b' && k == k'
  }

  /** The global replacements done so far agree with what a context knows. */
  ghost predicate Agrees(sub: map<nat, Operand>, c: Ctx) {
    forall r :: r in c.scope ==> Subst(sub, Reg(r)) == Subst(c.sub, Reg(r))
  }

  /** All registers an instruction mentions as operands, phi pairs included. */
  function Mentions(i: Instr): set<nat> {
    Uses(i) + if i.Phi? then set k | 0 <= k < |i.pairs| && i.pairs[k].0.Reg? :: i.pairs[k].0.id else {}
  }

  ghost predicate MentionsOnly(code: seq<Instr>, t: Terminator, s: set<nat>) {
    (forall k :: 0 <= k < |code| ==> Mentions(code[k]) <= s) && TermUses(t) <= s
  }

  /** Replacing a register nobody mentions changes nothing. */
  lemma SubstNothing(i: Instr, r: nat, o: Operand)
    requires r !in Mentions(i)
    ensures SubstInstr(map[r := o], i) == i
  {
    var m := map[r := o];
    match i
    case Call(_, _, os) =>
      forall k | 0 <= k < |os| ensures Subst(m, os[k]) == os[k] {
        if os[k].Reg? { assert os[k].id in RegsOfAll(os); }
      }
      assert SubstAll(m, os) == os;
    case Phi(_, _, ps) =>
      forall k | 0 <= k < |ps| ensures Subst(m, ps[k].0) == ps[k].0 {
        if ps[k].0.Reg? { assert ps[k].0.id in Mentions(i); }
      }
      assert SubstPairs(m, ps) == ps;
    case Load(_, Memory(p)) => assert RegsOf(p) <= Mentions(i);
    case Store(v, Memory(p)) => assert RegsOf(p) <= Mentions(i) && RegsOf(v) <= Mentions(i);
    case _ =>
  }

  /** One more replacement after earlier ones. */
  lemma SubstCompose(sub: map<nat, Operand>, i: Instr, r: nat, o: Operand)
    requires r !in sub && forall q :: q in sub ==> r !in RegsOf(sub[q])
    ensures SubstInstr(map[r := o], SubstInstr(sub, i)) == SubstInstr(sub[r := o], i)
  {
    forall x: Operand ensures Subst(map[r := o], Subst(sub, x)) == Subst(sub[r := o], x) {
      if x.Reg? && x.id in sub && sub[x.id].Reg? { assert sub[x.id].id in RegsOf(sub[x.id]); }
    }
    match i
    case Call(_, _, os) => assert SubstAll(map[r := o], SubstAll(sub, os)) == SubstAll(sub[r := o], os);
    case Phi(_, _, ps) => assert SubstPairs(map[r := o], SubstPairs(sub, ps)) == SubstPairs(sub[r := o], ps);
    case _ =>
  }

  lemma SubstTermCompose(sub: map<nat, Operand>, t: Terminator, r: nat, o: Operand)
    requires r !in sub && forall q :: q in sub ==> r !in RegsOf(sub[q])
    ensures SubstTerm(map[r := o], SubstTerm(sub, t)) == SubstTerm(sub[r := o], t)
  {
    forall x: Operand ensures Subst(map[r := o], Subst(sub, x)) == Subst(sub[r := o], x) {
      if x.Reg? && x.id in sub && sub[x.id].Reg? { assert sub[x.id].id in RegsOf(sub[x.id]); }
    }
  }

  /** Replacements that agree on the registers used give the same instruction. */
  lemma SubstAgree(sub: map<nat, Operand>, c: Ctx, i: Instr)
    requires Agrees(sub, c) && Uses(i) <= c.scope && !i.Phi?
    ensures SubstInstr(sub, i) == SubstInstr(c.sub, i)
  {
    forall x: Operand | RegsOf(x) <= c.scope ensures Subst(sub, x) == Subst(c.sub, x) {
      if x.Reg? { assert x.id in RegsOf(x); }
    }
    match i
    case Call(_, _, os) =>
      forall k | 0 <= k < |os| ensures Subst(sub, os[k]) == Subst(c.sub, os[k]) {
        if os[k].Reg? { assert os[k].id in RegsOfAll(os); }
      }
      assert SubstAll(sub, os) == SubstAll(c.sub, os);
    case Load(_, Memory(p)) => assert RegsOf(p) <= c.scope;
    case Store(v, Memory(p)) => assert RegsOf(p) <= c.scope && RegsOf(v) <= c.scope;
    case _ =>
  }

  lemma SubstTermAgree(sub: map<nat, Operand>, c: Ctx, t: Terminator)
    requires Agrees(sub, c) && TermUses(t) <= c.scope
    ensures SubstTerm(sub, t) == SubstTerm(c.sub, t)
  {
    forall x: Operand | RegsOf(x) <= c.scope ensures Subst(sub, x) == Subst(c.sub, x) {
      if x.Reg? { assert x.id in RegsOf(x); }
    }
  }

  /** Rewritten instructions mention registers in scope only. */
  lemma SubstMentions(c: Ctx, i: Instr)
    requires WfCtx(c) && Uses(i) <= c.scope && (i.Phi? ==> i.pairs == [])
    ensures Mentions(SubstInstr(c.sub, i)) <= c.scope - c.sub.Keys
  {
    forall x: Operand | RegsOf(x) <= c.scope ensures RegsOf(Subst(c.sub, x)) <= c.scope - c.sub.Keys {
      if x.Reg? && x.id in c.sub { assert RegsOf(c.sub[x.id]) <= c.scope - c.sub.Keys; }
    }
    match i
    case Call(_, _, os) =>
      var os' := SubstAll(c.sub, os);
      forall r | r in RegsOfAll(os') ensures r in c.scope - c.sub.Keys {
        var k :| 0 <= k < |os'| && os'[k].Reg? && os'[k].id == r;
        assert RegsOf(os[k]) <= RegsOfAll(os) by {
          if os[k].Reg? { assert os[k].id in RegsOfAll(os); }
        }
        assert r in RegsOf(os'[k]);
      }
    case Phi(_, _, ps) => assert SubstPairs(c.sub, ps) == [];
    case Load(_, Memory(p)) => assert RegsOf(p) <= c.scope;
    case Store(v, Memory(p)) => assert RegsOf(p) <= c.scope && RegsOf(v) <= c.scope;
    case _ =>
  }

  lemma SubstTermMentions(c: Ctx, t: Terminator)
    requires WfCtx(c) && TermUses(t) <= c.scope
    ensures TermUses(SubstTerm(c.sub, t)) <= c.scope - c.sub.Keys
  {
    forall x: Operand | RegsOf(x) <= c.scope ensures RegsOf(Subst(c.sub, x)) <= c.scope - c.sub.Keys {
      if x.Reg? && x.id in c.sub { assert RegsOf(c.sub[x.id]) <= c.scope - c.sub.Keys; }
    }
  }

  lemma {:induction false} RenamedMentions(body: seq<Instr>, c: Ctx)
    requires WfCtx(c) && Scoped(body, c.scope)
    requires forall k :: 0 <= k < |body| && body[k].Phi? ==> body[k].pairs == []
    ensures forall k :: 0 <= k < |RenameAll(body, c)| ==> Mentions(RenameAll(body, c)[k]) <= Scan(body, c).scope
  {
    if body != [] {
      var c' := Advance(body[0], c);
      AdvanceFacts(body[0], c);
      ScanFacts(body[1..], c');
      SubstMentions(c, body[0]);
      assert forall k :: 0 <= k < |body[1..]| ==> body[1..][k] == body[k + 1];
      RenamedMentions(body[1..], c');
      var head := if Deleted(body[0], c) then [] else [SubstInstr(c.sub, body[0])];
      assert RenameAll(body, c) == head + RenameAll(body[1..], c');
      forall k | 0 <= k < |RenameAll(body, c)| ensures Mentions(RenameAll(body, c)[k]) <= Scan(body, c).scope {
        if k >= |head| { assert RenameAll(body, c)[k] == RenameAll(body[1..], c')[k - |head|]; }
      }
    }
  }

  // ----- contexts at positions of a block -----

  function CtxAt(body: seq<Instr>, c: Ctx, k: nat): Ctx
    requires k <= |body|
  {
    if k == 0 then c else Advance(body[k - 1], CtxAt(body, c, k - 1))
  }

  lemma {:induction false} ScanFrom(body: seq<Instr>, c: Ctx, k: nat)
    requires k <= |body|
    ensures Scan(body[k..], CtxAt(body, c, k)) == Scan(body, c)
  {
    if k == 0 {
      assert body[0..] == body;
    } else {
      ScanFrom(body, c, k - 1);
      assert body[k - 1..][1..] == body[k..];
    }
  }

  lemma {:induction false} ScopedAt(body: seq<Instr>, c: Ctx, k: nat)
    requires k <= |body| && WfCtx(c) && Scoped(body, c.scope)
    ensures WfCtx(CtxAt(body, c, k)) && Scoped(body[k..], CtxAt(body, c, k).scope) && Extends(c, CtxAt(body, c, k))
    ensures k < |body| && !body[k].Phi? ==>
              Uses(body[k]) <= CtxAt(body, c, k).scope && Def(body[k]) !! CtxAt(body, c, k).scope
  {
    if k == 0 {
      assert body[0..] == body;
    } else {
      ScopedAt(body, c, k - 1);
      AdvanceFacts(body[k - 1], CtxAt(body, c, k - 1));
      assert body[k - 1..][1..] == body[k..];
    }
  }

  function Erase(code: seq<Instr>, del: set<nat>, k: nat): seq<Instr>
    requires k <= |code|
    decreases |code| - k
  {
    if k == |code| then [] else (if k in del then [] else [code[k]]) + Erase(code, del, k + 1)
  }

  lemma CoresConcat(a: seq<Instr>, b: seq<Instr>)
    ensures Cores(a + b) == Cores(a) + Cores(b)
  {
  }

  lemma RenameAllFrom(body: seq<Instr>, c: Ctx, k: nat)
    requires k < |body|
    ensures RenameAll(body[k..], c)
         == (if Deleted(body[k], c) then [] else [SubstInstr(c.sub, body[k])]) + RenameAll(body[k + 1..], Advance(body[k], c))
  {
    assert body[k..][1..] == body[k + 1..];
  }

  /** Position j of the current block is what renaming makes of position j. */
  ghost predicate RenamedAt(body: seq<Instr>, c: Ctx, cur: seq<Instr>, del: set<nat>, j: nat)
    requires j < |body| == |cur|
  {
    && (j in del <==> Deleted(body[j], CtxAt(body, c, j)))
    && (j !in del ==> Core(cur[j]) == SubstInstr(CtxAt(body, c, j).sub, body[j]))
  }

  /** Erasing the marked positions of an untouched block yields its renamed form. */
  lemma {:induction false} ErasedIsRenamed(body: seq<Instr>, c: Ctx, cur: seq<Instr>, del: set<nat>, k: nat)
    requires |cur| == |body| && k <= |body|
    requires forall j :: 0 <= j < |body| ==> RenamedAt(body, c, cur, del, j)
    ensures Cores(Erase(cur, del, k)) == RenameAll(body[k..], CtxAt(body, c, k))
    decreases |body| - k
  {
    if k < |body| {
      ErasedIsRenamed(body, c, cur, del, k + 1);
      RenameAllFrom(body, CtxAt(body, c, k), k);
      assert RenamedAt(body, c, cur, del, k);
      var head := if k in del then [] else [cur[k]];
      CoresConcat(head, Erase(cur, del, k + 1));
    }
  }

  lemma {:induction false} ErasedMembers(code: seq<Instr>, del: set<nat>, k: nat)
    requires k <= |code|
    ensures forall j :: 0 <= j < |Erase(code, del, k)| ==> Erase(code, del, k)[j] in code
    decreases |code| - k
  {
    if k < |code| { ErasedMembers(code, del, k + 1); }
  }

  // ----- the function in the middle of renaming -----

  ghost predicate Untouched(S: Source, code: Code, terms: seq<Terminator>, sub: map<nat, Operand>, b: Block)
    requires b < |code| == |terms| == |S.code| == |S.terms|
  {
    && |code[b]| == |S.code[b]|
    && (forall k :: 0 <= k < |code[b]| ==> Core(code[b][k]) == SubstInstr(sub, S.code[b][k]))
    && terms[b] == SubstTerm(sub, S.terms[b])
  }

  ghost predicate Renamed(S: Source, code: Code, terms: seq<Terminator>, b: Block)
    requires b < |code| == |terms| == |S.code| == |S.terms| && Climbs(S.up, S.po)
  {
    && b in S.up
    && Cores(code[b]) == RenameAll(S.code[b], CtxPhi(S.code, S.up, S.po, b))
    && terms[b] == SubstTerm(CtxOut(S.code, S.up, S.po, b).sub, S.terms[b])
  }

  ghost predicate PairsOk(S: Source, body: seq<Instr>, linked: set<Block>, b: Block)
    requires Climbs(S.up, S.po)
  {
    forall k :: 0 <= k < |body| && body[k].Phi? ==>
      PairsFrom(S.code, S.up, S.po, S.g, linked, b, body[k].lval, body[k].pairs)
  }

  ghost predicate BlockOk(S: Source, code: Code, terms: seq<Terminator>, sub: map<nat, Operand>,
                          linked: set<Block>, done: set<Block>, b: Block)
    requires b < |code| == |terms| == |S.code| == |S.terms| && Climbs(S.up, S.po)
  {
    && (if b in done then Renamed(S, code, terms, b) else Untouched(S, code, terms, sub, b))
    && PairsOk(S, code[b], linked, b)
  }

  /** A block whose values have been handed to its successors' phis. */
  ghost predicate LinkedOk(S: Source, sub: map<nat, Operand>, processed: set<nat>, p: Block)
    requires Climbs(S.up, S.po)
  {
    p in S.up && CtxOut(S.code, S.up, S.po, p).scope <= processed && Agrees(sub, CtxOut(S.code, S.up, S.po, p))
  }

  /** The invariant of renaming. */
  ghost predicate Consistent(S: Source, code: Code, terms: seq<Terminator>, sub: map<nat, Operand>,
                             processed: set<nat>, linked: set<Block>, done: set<Block>) {
    && |code| == |terms| == |S.code| == |S.terms| && Climbs(S.up, S.po)
    && |S.code| == |S.g.succ| && (forall b :: b in S.up ==> b < |S.code|)
    && ConsistentParts(S, code, terms, sub, processed, linked, done)
  }

  ghost predicate ConsistentParts(S: Source, code: Code, terms: seq<Terminator>, sub: map<nat, Operand>,
                                  processed: set<nat>, linked: set<Block>, done: set<Block>) {
    && S.Valid() && |code| == |terms| == |S.code|
    && (forall q :: q in sub ==> q in processed && RegsOf(sub[q]) <= processed)
    && (forall b {:trigger BlockOk(S, code, terms, sub, linked, done, b)} ::
          0 <= b < |code| ==> BlockOk(S, code, terms, sub, linked, done, b))
    && (forall p {:trigger LinkedOk(S, sub, processed, p)} :: p in linked ==> LinkedOk(S, sub, processed, p))
    && done <= linked
  }

  function ReplaceIn(code: seq<Instr>, r: nat, o: Operand): (res: seq<Instr>)
    ensures |res| == |code| && forall k :: 0 <= k < |code| ==> res[k] == SubstInstr(map[r := o], code[k])
  {
    seq(|code|, k requires 0 <= k < |code| => SubstInstr(map[r := o], code[k]))
  }

  lemma CoreSubst(m: map<nat, Operand>, i: Instr)
    ensures Core(SubstInstr(m, i)) == SubstInstr(m, Core(i))
  {
    if i.Phi? { assert SubstPairs(m, []) == []; }
  }

  /** Phi pairs mention processed registers only. */
  lemma PairsMention(S: Source, body: seq<Instr>, sub: map<nat, Operand>, processed: set<nat>, linked: set<Block>, b: Block, k: nat)
    requires S.Valid() && PairsOk(S, body, linked, b) && k < |body| && body[k].Phi?
    requires forall p {:trigger LinkedOk(S, sub, processed, p)} :: p in linked ==> LinkedOk(S, sub, processed, p)
    ensures Mentions(body[k]) <= processed
  {
    var ps := body[k].pairs;
    forall r | r in Mentions(body[k]) ensures r in processed {
      var j :| 0 <= j < |ps| && ps[j].0.Reg? && ps[j].0.id == r;
      var (o, p) := ps[j];
      assert (o, p) in ps;
      assert LinkedOk(S, sub, processed, p);
      CtxWellFormed(S.code, S.up, S.po, p);
      assert r in RegsOf(o);
    }
  }

  /** Finished blocks mention processed registers only. */
  lemma RenamedMention(S: Source, code: Code, terms: seq<Terminator>, sub: map<nat, Operand>,
                       processed: set<nat>, linked: set<Block>, done: set<Block>, b: Block)
    requires Consistent(S, code, terms, sub, processed, linked, done) && b in done && b < |code| == |terms|
    ensures MentionsOnly(code[b], terms[b], processed)
  {
    assert BlockOk(S, code, terms, sub, linked, done, b);
    assert LinkedOk(S, sub, processed, b);
    assert BlockScoped(S.code, S.up, S.po, b);
    assert S.TermScoped(b);
    CtxWellFormed(S.code, S.up, S.po, b);
    RenamedMentions(S.code[b], CtxPhi(S.code, S.up, S.po, b));
    SubstTermMentions(CtxOut(S.code, S.up, S.po, b), S.terms[b]);
    forall k | 0 <= k < |code[b]| ensures Mentions(code[b][k]) <= processed {
      assert Cores(code[b])[k] == Core(code[b][k]);
      if code[b][k].Phi? { PairsMention(S, code[b], sub, processed, linked, b, k); }
    }
  }

  lemma ReplaceInDone(code: seq<Instr>, t: Terminator, r: nat, o: Operand)
    requires r !in TermUses(t) && forall k :: 0 <= k < |code| ==> r !in Mentions(code[k])
    ensures ReplaceIn(code, r, o) == code && SubstTerm(map[r := o], t) == t
  {
    forall k | 0 <= k < |code| ensures ReplaceIn(code, r, o)[k] == code[k] { SubstNothing(code[k], r, o); }
    match t
    case CondBr(c, _, _) => if c.Reg? { assert c.id in RegsOf(c); }
    case Ret(v) => if v.Reg? { assert v.id in RegsOf(v); }
    case Br(_) =>
  }

  /** Replacing a new register everywhere keeps the state consistent. */
  lemma ReplaceKeepsBlock(S: Source, code: Code, terms: seq<Terminator>, sub: map<nat, Operand>,
                          processed: set<nat>, linked: set<Block>, done: set<Block>, r: nat, o: Operand,
                          code': Code, terms': seq<Terminator>, b: Block)
    requires Consistent(S, code, terms, sub, processed, linked, done)
    requires r !in processed && |code'| == |terms'| == |code| && b < |code|
    requires code'[b] == ReplaceIn(code[b], r, o) && terms'[b] == SubstTerm(map[r := o], terms[b])
    ensures BlockOk(S, code', terms', sub[r := o], linked, done, b)
  {
    assert BlockOk(S, code, terms, sub, linked, done, b);
    if b in done {
      RenamedMention(S, code, terms, sub, processed, linked, done, b);
      ReplaceInDone(code[b], terms[b], r, o);
    } else {
      forall k | 0 <= k < |code'[b]|
        ensures Core(code'[b][k]) == SubstInstr(sub[r := o], S.code[b][k])
      {
        CoreSubst(map[r := o], code[b][k]);
        SubstCompose(sub, S.code[b][k], r, o);
      }
      SubstTermCompose(sub, S.terms[b], r, o);
      forall k | 0 <= k < |code'[b]| && code'[b][k].Phi?
        ensures PairsFrom(S.code, S.up, S.po, S.g, linked, b, code'[b][k].lval, code'[b][k].pairs)
      {
        assert code[b][k].Phi?;
        PairsMention(S, code[b], sub, processed, linked, b, k);
        SubstNothing(code[b][k], r, o);
      }
    }
  }

  lemma AgreesMore(sub: map<nat, Operand>, c: Ctx, r: nat, o: Operand)
    requires Agrees(sub, c) && r !in c.scope
    ensures Agrees(sub[r := o], c)
  {
    forall q | q in c.scope ensures Subst(sub[r := o], Reg(q)) == Subst(c.sub, Reg(q)) {
      assert Subst(sub, Reg(q)) == Subst(c.sub, Reg(q));
    }
  }

  lemma ReplaceKeepsConsistent(S: Source, code: Code, terms: seq<Terminator>, sub: map<nat, Operand>,
                               processed: set<nat>, linked: set<Block>, done: set<Block>, r: nat, o: Operand,
                               code': Code, terms': seq<Terminator>)
    requires Consistent(S, code, terms, sub, processed, linked, done)
    requires r !in processed && RegsOf(o) <= processed && |code'| == |terms'| == |code|
    requires forall b :: 0 <= b < |code| ==>
               code'[b] == ReplaceIn(code[b], r, o) && terms'[b] == SubstTerm(map[r := o], terms[b])
    ensures Consistent(S, code', terms', sub[r := o], processed + {r}, linked, done)
  {
    forall b {:trigger BlockOk(S, code', terms', sub[r := o], linked, done, b)} | 0 <= b < |code'|
      ensures BlockOk(S, code', terms', sub[r := o], linked, done, b)
    {
      ReplaceKeepsBlock(S, code, terms, sub, processed, linked, done, r, o, code', terms', b);
    }
    forall p {:trigger LinkedOk(S, sub[r := o], processed + {r}, p)} | p in linked
      ensures LinkedOk(S, sub[r := o], processed + {r}, p)
    {
      assert LinkedOk(S, sub, processed, p);
      AgreesMore(sub, CtxOut(S.code, S.up, S.po, p), r, o);
    }
  }

  lemma ProcessMore(S: Source, code: Code, terms: seq<Terminator>, sub: map<nat, Operand>,
                    processed: set<nat>, linked: set<Block>, done: set<Block>, more: set<nat>)
    requires Consistent(S, code, terms, sub, processed, linked, done)
    ensures Consistent(S, code, terms, sub, processed + more, linked, done)
  {
    forall p {:trigger LinkedOk(S, sub, processed + more, p)} | p in linked ensures LinkedOk(S, sub, processed + more, p) {
      assert LinkedOk(S, sub, processed, p);
    }
  }
}
