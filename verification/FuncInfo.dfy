// Purity of functions: a local scan, then a worklist over the call sites.
module FuncInfoPass {
  import opened Wrappers
  import IR

  datatype Operand = Const(n: int) | Arg(index: nat) | Global(name: nat) | Result(id: nat)

  /** `pointer` tells the type of what a load yields. Phis join scalars. */
  datatype Inst =
    | Alloca(id: nat)
    | Gep(id: nat, base: Operand, offset: Operand)
    | Load(id: nat, addr: Operand, pointer: bool)
    | Store(val: Operand, addr: Operand)
    | Bin(id: nat, op: IR.BinOp, lhs: Operand, rhs: Operand)
    | Call(id: nat, callee: nat, args: seq<Operand>)
    | Phi(id: nat, pairs: seq<(Operand, nat)>)

  datatype Term = Br(target: nat) | CondBr(cond: Operand, ifTrue: nat, ifFalse: nat) | Ret(val: Operand)

  datatype Block = Block(body: seq<Inst>, term: Term)

  /** `scalar` says of each parameter whether it is an int or float. */
  datatype Func = Func(isMain: bool, declaration: bool, scalar: seq<bool>, blocks: seq<Block>, defs: map<nat, Inst>) {
    /** `defs` finds the instruction that defines an id. */
    ghost predicate Valid() {
      forall b, k :: 0 <= b < |blocks| && 0 <= k < |blocks[b].body| && !blocks[b].body[k].Store? ==>
        blocks[b].body[k].id in defs && defs[blocks[b].body[k].id] == blocks[b].body[k]
    }

    predicate IsPointer(o: Operand) {
      match o
      case Const(_) => false
      case Arg(i) => i < |scalar| && !scalar[i]
      case Global(_) => true
      case Result(id) => id in defs && (match defs[id]
                                        case Alloca(_) => true
                                        case Gep(_, _, _) => true
                                        case Load(_, _, pointer) => pointer
                                        case _ => false)
    }

    function FirstPointer(os: seq<Operand>): (r: Option<Operand>)
      ensures r.Some? ==> r.value in os
    {
      if os == [] then None else if IsPointer(os[0]) then Some(os[0]) else FirstPointer(os[1..])
    }

    /** The base of an address after at most n steps; None if that is not enough. */
    function FirstAddr(o: Operand, n: nat): Option<Operand>
      decreases n
    {
      if !o.Result? || o.id !in defs then Some(o)
      else match defs[o.id]
        case Alloca(_) => Some(o)
        case Load(_, _, _) => Some(o)
        case Gep(_, base, _) => if n == 0 then None else FirstAddr(base, n - 1)
        case i =>
          match FirstPointer(OperandsOf(i))
          case None => Some(o)
          case Some(p) => if n == 0 then None else FirstAddr(p, n - 1)
    }

    predicate IsAlloca(o: Operand) {
      o.Result? && o.id in defs && defs[o.id].Alloca?
    }

    /** The address is computed from an alloca of this function. */
    ghost predicate IsLocal(addr: Operand) {
      exists n: nat :: FirstAddr(addr, n).Some? && IsAlloca(FirstAddr(addr, n).value)
    }

    ghost predicate Based(o: Operand) {
      exists n: nat :: FirstAddr(o, n).Some?
    }

    /** Address computations do not go in circles. */
    ghost predicate AddressesEnd() {
      forall o: Operand {:trigger Based(o)} :: Based(o)
    }

    /** A load or store whose address is not local. */
    ghost predicate SideEffect(i: Inst) {
      match i
      case Store(_, addr) => !IsLocal(addr)
      case Load(_, addr, _) => !IsLocal(addr)
      case _ => false
    }

    /** Impure by itself, whatever it calls. */
    ghost predicate LocallyImpure() {
      || declaration || isMain
      || (exists k :: 0 <= k < |scalar| && !scalar[k])
      || (exists b, k :: 0 <= b < |blocks| && 0 <= k < |blocks[b].body| && SideEffect(blocks[b].body[k]))
    }

    predicate Calls(callee: nat) {
      exists b, k :: 0 <= b < |blocks| && 0 <= k < |blocks[b].body| && blocks[b].body[k].Call? && blocks[b].body[k].callee == callee
    }
  }

  function OperandsOf(i: Inst): seq<Operand> {
    match i
    case Alloca(_) => []
    case Gep(_, base, offset) => [base, offset]
    case Load(_, addr, _) => [addr]
    case Store(val, addr) => [val, addr]
    case Bin(_, _, lhs, rhs) => [lhs, rhs]
    case Call(_, _, args) => args
    case Phi(_, pairs) => seq(|pairs|, k requires 0 <= k < |pairs| => pairs[k].0)
  }

  /** More steps do not change a base once found. */
  lemma {:induction false} FirstAddrStable(f: Func, o: Operand, n: nat, m: nat)
    requires f.FirstAddr(o, n).Some? && n <= m
    ensures f.FirstAddr(o, m) == f.FirstAddr(o, n)
    decreases n
  {
    if o.Result? && o.id in f.defs && n > 0 {
      match f.defs[o.id]
      case Alloca(_) =>
      case Load(_, _, _) =>
      case Gep(_, base, _) => FirstAddrStable(f, base, n - 1, m - 1);
      case i =>
        match f.FirstPointer(OperandsOf(i))
        case None =>
        case Some(p) => FirstAddrStable(f, p, n - 1, m - 1);
    }
  }

  // ----- reachability over calls -----

  ghost predicate Hop(funcs: seq<Func>, p: seq<nat>, i: nat) {
    i + 1 < |p| && p[i] < |funcs| && funcs[p[i]].Calls(p[i + 1])
  }

  ghost predicate CallPath(funcs: seq<Func>, p: seq<nat>) {
    p != [] && forall i: nat {:trigger Hop(funcs, p, i)} :: i + 1 < |p| ==> Hop(funcs, p, i)
  }

  /** Some chain of calls from f leads to a locally impure function. */
  ghost predicate ReachesImpure(funcs: seq<Func>, f: nat) {
    exists p :: CallPath(funcs, p) && p[0] == f && p[|p| - 1] < |funcs| && funcs[p[|p| - 1]].LocallyImpure()
  }

  lemma ReachesSelf(funcs: seq<Func>, f: nat)
    requires f < |funcs| && funcs[f].LocallyImpure()
    ensures ReachesImpure(funcs, f)
  {
    assert CallPath(funcs, [f]) && [f][0] == f && [f][|[f]| - 1] == f;
  }

  lemma ReachesCaller(funcs: seq<Func>, f: nat, g: nat)
    requires f < |funcs| && funcs[f].Calls(g) && ReachesImpure(funcs, g)
    ensures ReachesImpure(funcs, f)
  {
    var p :| CallPath(funcs, p) && p[0] == g && p[|p| - 1] < |funcs| && funcs[p[|p| - 1]].LocallyImpure();
    var q := [f] + p;
    forall i: nat {:trigger Hop(funcs, q, i)} | i + 1 < |q| ensures Hop(funcs, q, i) {
      if i > 0 { assert Hop(funcs, p, i - 1); }
    }
    assert CallPath(funcs, q) && q[0] == f && q[|q| - 1] == p[|p| - 1];
  }

  /** The impure functions, when all callers of impure functions are impure. */
  ghost predicate CallersIn(funcs: seq<Func>, impure: set<nat>) {
    forall f, g :: 0 <= f < |funcs| && g in impure && funcs[f].Calls(g) ==> f in impure
  }

  lemma {:induction false} ClosedCoversPath(funcs: seq<Func>, impure: set<nat>, p: seq<nat>)
    requires CallersIn(funcs, impure) && CallPath(funcs, p) && p[|p| - 1] in impure
    ensures p[0] in impure
    decreases |p|
  {
    if |p| > 1 {
      assert Hop(funcs, p, 0);
      var q := p[1..];
      forall i: nat {:trigger Hop(funcs, q, i)} | i + 1 < |q| ensures Hop(funcs, q, i) { assert Hop(funcs, p, i + 1); }
      ClosedCoversPath(funcs, impure, q);
    }
  }

  // ----- purity, by chains of addresses and of calls -----

  /** The type of the operand is a pointer. */
  ghost predicate Pointer(f: Func, o: Operand) {
    || o.Global?
    || (o.Arg? && o.index < |f.scalar| && !f.scalar[o.index])
    || (o.Result? && o.id in f.defs
        && match f.defs[o.id] case Alloca(_) => true case Gep(_, _, _) => true case Load(_, _, p) => p case _ => false)
  }

  /** The first of the operands that is a pointer. */
  ghost predicate FirstOf(f: Func, os: seq<Operand>, o: Operand) {
    exists k {:trigger os[k]} :: 0 <= k < |os| && os[k] == o && Pointer(f, o) && forall j :: 0 <= j < k ==> !Pointer(f, os[j])
  }

  /** The address o is computed from o': the base of a gep; allocas and loads start an address; anything else
      goes on from its first operand that is a pointer. */
  ghost predicate ComputedFrom(f: Func, o: Operand, o': Operand) {
    && o.Result? && o.id in f.defs
    && match f.defs[o.id]
       case Alloca(_) => false
       case Load(_, _, _) => false
       case Gep(_, base, _) => o' == base
       case Store(val, addr) => FirstOf(f, [val, addr], o')
       case Bin(_, _, lhs, rhs) => FirstOf(f, [lhs, rhs], o')
       case Call(_, _, args) => FirstOf(f, args, o')
       case Phi(_, pairs) => FirstOf(f, seq(|pairs|, k requires 0 <= k < |pairs| => pairs[k].0), o')
  }

  ghost predicate AddressChain(f: Func, os: seq<Operand>) {
    os != [] && forall k {:trigger os[k]} :: 0 < k < |os| ==> ComputedFrom(f, os[k - 1], os[k])
  }

  ghost predicate FromAlloca(f: Func, os: seq<Operand>) {
    AddressChain(f, os) && var last := os[|os| - 1]; last.Result? && last.id in f.defs && f.defs[last.id].Alloca?
  }

  /** The address is computed, step by step, from an alloca of the function. */
  ghost predicate OnStack(f: Func, addr: Operand) {
    exists os :: FromAlloca(f, os) && os[0] == addr
  }

  /** The instruction loads from or stores to an address that is not on the stack of f. */
  ghost predicate TouchesMemory(f: Func, i: Inst) {
    (i.Load? || i.Store?) && !OnStack(f, i.addr)
  }

  /** No body, main, a parameter that is no number, or memory that is touched. */
  ghost predicate Suspect(f: Func) {
    || f.declaration || f.isMain || false in f.scalar
    || exists b, i {:trigger i in f.blocks[b].body} :: 0 <= b < |f.blocks| && i in f.blocks[b].body && TouchesMemory(f, i)
  }

  ghost predicate HasCallOf(f: Func, g: nat) {
    exists b, i {:trigger i in f.blocks[b].body} :: 0 <= b < |f.blocks| && i in f.blocks[b].body && i.Call? && i.callee == g
  }

  /** Each function of p calls the next, and the last one is suspect. */
  ghost predicate SuspectChain(funcs: seq<Func>, p: seq<nat>) {
    && p != [] && (forall k {:trigger p[k]} :: 0 < k < |p| ==> p[k - 1] < |funcs| && HasCallOf(funcs[p[k - 1]], p[k]))
    && p[|p| - 1] < |funcs| && Suspect(funcs[p[|p| - 1]])
  }

  ghost predicate ReachesSuspect(funcs: seq<Func>, f: nat) {
    exists p :: SuspectChain(funcs, p) && p[0] == f
  }

  lemma {:induction false} FirstPointerIs(f: Func, os: seq<Operand>, o: Operand)
    ensures f.FirstPointer(os) == Some(o) <==> FirstOf(f, os, o)
  {
    if os != [] {
      var rest := os[1..];
      FirstPointerIs(f, rest, o);
      assert f.IsPointer(os[0]) <==> Pointer(f, os[0]);
      if f.IsPointer(os[0]) {
        assert os[0] == o ==> FirstOf(f, os, o);
      } else if FirstOf(f, rest, o) {
        var k :| 0 <= k < |rest| && rest[k] == o && Pointer(f, o) && forall j :: 0 <= j < k ==> !Pointer(f, rest[j]);
        assert os[k + 1] == o;
        forall j | 0 <= j < k + 1 ensures !Pointer(f, os[j]) { if j > 0 { assert os[j] == rest[j - 1]; } }
      } else if FirstOf(f, os, o) {
        var k :| 0 <= k < |os| && os[k] == o && Pointer(f, o) && forall j :: 0 <= j < k ==> !Pointer(f, os[j]);
        assert rest[k - 1] == o;
        forall j | 0 <= j < k - 1 ensures !Pointer(f, rest[j]) { assert rest[j] == os[j + 1]; }
      }
    }
  }

  /** One step of the search for the base goes to what the address is computed from. */
  lemma StepIsComputedFrom(f: Func, o: Operand, o': Operand, n: nat)
    requires ComputedFrom(f, o, o')
    ensures f.FirstAddr(o, n + 1) == f.FirstAddr(o', n)
  {
    FirstPointerIs(f, OperandsOf(f.defs[o.id]), o');
  }

  lemma {:induction false} BaseByChain(f: Func, o: Operand, n: nat) returns (os: seq<Operand>)
    requires f.FirstAddr(o, n).Some? && f.IsAlloca(f.FirstAddr(o, n).value)
    ensures FromAlloca(f, os) && os[0] == o
    decreases n
  {
    os := [o];
    if !f.IsAlloca(o) {
      var i := f.defs[o.id];
      var next := if i.Gep? then i.base else f.FirstPointer(OperandsOf(i)).value;
      FirstPointerIs(f, OperandsOf(i), next);
      var rest := BaseByChain(f, next, n - 1);
      os := [o] + rest;
      forall k {:trigger os[k]} | 0 < k < |os| ensures ComputedFrom(f, os[k - 1], os[k]) {
        assert os[k] == rest[k - 1];
        if k > 1 { assert os[k - 1] == rest[k - 2]; }
      }
    }
  }

  lemma {:induction false} ChainFindsBase(f: Func, os: seq<Operand>)
    requires FromAlloca(f, os)
    ensures f.FirstAddr(os[0], |os| - 1) == Some(os[|os| - 1])
    decreases |os|
  {
    if |os| > 1 {
      var rest := os[1..];
      forall k {:trigger rest[k]} | 0 < k < |rest| ensures ComputedFrom(f, rest[k - 1], rest[k]) {
        assert rest[k] == os[k + 1] && rest[k - 1] == os[k];
      }
      ChainFindsBase(f, rest);
      assert ComputedFrom(f, os[1 - 1], os[1]);
      StepIsComputedFrom(f, os[0], os[1], |os| - 2);
    }
  }

  /** The addresses taken for local are those on the stack. */
  lemma LocalIsOnStack(f: Func, addr: Operand)
    ensures f.IsLocal(addr) <==> OnStack(f, addr)
  {
    if f.IsLocal(addr) {
      var n: nat :| f.FirstAddr(addr, n).Some? && f.IsAlloca(f.FirstAddr(addr, n).value);
      var os := BaseByChain(f, addr, n);
    }
    if OnStack(f, addr) {
      var os :| FromAlloca(f, os) && os[0] == addr;
      ChainFindsBase(f, os);
    }
  }

  lemma ImpureIsSuspect(f: Func)
    ensures f.LocallyImpure() <==> Suspect(f)
  {
    hide Func.IsLocal, OnStack;
    forall addr ensures f.IsLocal(addr) <==> OnStack(f, addr) { LocalIsOnStack(f, addr); }
    if exists b, k :: 0 <= b < |f.blocks| && 0 <= k < |f.blocks[b].body| && f.SideEffect(f.blocks[b].body[k]) {
      var b, k :| 0 <= b < |f.blocks| && 0 <= k < |f.blocks[b].body| && f.SideEffect(f.blocks[b].body[k]);
      assert f.blocks[b].body[k] in f.blocks[b].body && TouchesMemory(f, f.blocks[b].body[k]);
    }
    if exists b, i {:trigger i in f.blocks[b].body} :: 0 <= b < |f.blocks| && i in f.blocks[b].body && TouchesMemory(f, i) {
      var b, i {:trigger i in f.blocks[b].body} :| 0 <= b < |f.blocks| && i in f.blocks[b].body && TouchesMemory(f, i);
      var k :| 0 <= k < |f.blocks[b].body| && f.blocks[b].body[k] == i;
      assert f.SideEffect(f.blocks[b].body[k]);
    }
  }

  lemma CallsIsHasCallOf(f: Func, g: nat)
    ensures f.Calls(g) <==> HasCallOf(f, g)
  {
    if f.Calls(g) {
      var b, k :| 0 <= b < |f.blocks| && 0 <= k < |f.blocks[b].body| && f.blocks[b].body[k].Call? && f.blocks[b].body[k].callee == g;
      assert f.blocks[b].body[k] in f.blocks[b].body;
    }
    if HasCallOf(f, g) {
      var b, i {:trigger i in f.blocks[b].body} :| 0 <= b < |f.blocks| && i in f.blocks[b].body && i.Call? && i.callee == g;
      var k :| 0 <= k < |f.blocks[b].body| && f.blocks[b].body[k] == i;
    }
  }

  lemma SameHops(funcs: seq<Func>)
    ensures forall g: nat :: g < |funcs| ==> (funcs[g].LocallyImpure() <==> Suspect(funcs[g]))
    ensures forall g: nat, h: nat :: g < |funcs| ==> (funcs[g].Calls(h) <==> HasCallOf(funcs[g], h))
  {
    hide Func.LocallyImpure, Suspect, Func.Calls, HasCallOf;
    forall g: nat | g < |funcs| ensures funcs[g].LocallyImpure() <==> Suspect(funcs[g]) { ImpureIsSuspect(funcs[g]); }
    forall g: nat, h: nat | g < |funcs| ensures funcs[g].Calls(h) <==> HasCallOf(funcs[g], h) { CallsIsHasCallOf(funcs[g], h); }
  }

  lemma ImpureToSuspect(funcs: seq<Func>, f: nat)
    requires ReachesImpure(funcs, f)
    ensures ReachesSuspect(funcs, f)
  {
    hide Func.LocallyImpure, Suspect, Func.Calls, HasCallOf;
    SameHops(funcs);
    var p :| CallPath(funcs, p) && p[0] == f && p[|p| - 1] < |funcs| && funcs[p[|p| - 1]].LocallyImpure();
    forall k {:trigger p[k]} | 0 < k < |p| ensures p[k - 1] < |funcs| && HasCallOf(funcs[p[k - 1]], p[k]) {
      assert Hop(funcs, p, k - 1);
    }
    assert SuspectChain(funcs, p);
  }

  lemma SuspectToImpure(funcs: seq<Func>, f: nat)
    requires ReachesSuspect(funcs, f)
    ensures ReachesImpure(funcs, f)
  {
    hide Func.LocallyImpure, Suspect, Func.Calls, HasCallOf;
    SameHops(funcs);
    var p :| SuspectChain(funcs, p) && p[0] == f;
    forall i: nat {:trigger Hop(funcs, p, i)} | i + 1 < |p| ensures Hop(funcs, p, i) {
      assert p[i + 1 - 1] < |funcs| && HasCallOf(funcs[p[i]], p[i + 1]);
    }
    assert CallPath(funcs, p);
  }

  /** A function is impure for exactly one of four reasons, found along a chain of calls. */
  lemma ReachesIsSuspect(funcs: seq<Func>, f: nat)
    ensures ReachesImpure(funcs, f) <==> ReachesSuspect(funcs, f)
  {
    hide ReachesImpure, ReachesSuspect;
    if ReachesImpure(funcs, f) { ImpureToSuspect(funcs, f); }
    if ReachesSuspect(funcs, f) { SuspectToImpure(funcs, f); }
  }

  // ----- the worklist -----

  ghost function Impure(isPure: map<nat, bool>): set<nat> {
    set f | f in isPure && !isPure[f]
  }

  /** Everything called impure reaches a locally impure function; locally impure functions are
      called impure; and each impure function is waiting, or its callers are impure too. */
  ghost predicate Spreading(funcs: seq<Func>, isPure: map<nat, bool>, waiting: set<nat>) {
    && (forall f: nat :: f in isPure <==> f < |funcs|)
    && (forall f :: f in isPure && !isPure[f] ==> ReachesImpure(funcs, f))
    && (forall f :: 0 <= f < |funcs| && funcs[f].LocallyImpure() ==> !isPure[f])
    && (forall f, g :: 0 <= f < |funcs| && g in isPure && !isPure[g] && g !in waiting && funcs[f].Calls(g) ==> !isPure[f])
  }

  ghost predicate Distinct(s: seq<nat>) {
    forall i, j :: 0 <= i < j < |s| ==> s[i] != s[j]
  }

  /** With nothing waiting, impure means reaching a locally impure function. */
  lemma SpreadIsExact(funcs: seq<Func>, isPure: map<nat, bool>)
    requires Spreading(funcs, isPure, {})
    ensures forall f :: 0 <= f < |funcs| ==> (isPure[f] <==> !ReachesImpure(funcs, f))
  {
    forall f | 0 <= f < |funcs| && ReachesImpure(funcs, f) ensures !isPure[f] {
      ReachesIsImpure(funcs, isPure, f);
    }
  }

  lemma ReachesIsImpure(funcs: seq<Func>, isPure: map<nat, bool>, f: nat)
    requires Spreading(funcs, isPure, {}) && f < |funcs| && ReachesImpure(funcs, f)
    ensures !isPure[f]
  {
    var p := PathOf(funcs, f);
    SpreadIsClosed(funcs, isPure);
    ClosedCoversPath(funcs, Impure(isPure), p);
  }

  lemma PathOf(funcs: seq<Func>, f: nat) returns (p: seq<nat>)
    requires ReachesImpure(funcs, f)
    ensures CallPath(funcs, p) && p[0] == f && p[|p| - 1] < |funcs| && funcs[p[|p| - 1]].LocallyImpure()
  {
    p :| CallPath(funcs, p) && p[0] == f && p[|p| - 1] < |funcs| && funcs[p[|p| - 1]].LocallyImpure();
  }

  lemma SpreadIsClosed(funcs: seq<Func>, isPure: map<nat, bool>)
    requires Spreading(funcs, isPure, {})
    ensures CallersIn(funcs, Impure(isPure))
    ensures forall g :: 0 <= g < |funcs| && funcs[g].LocallyImpure() ==> g in Impure(isPure)
  {
    hide ReachesImpure;
  }

  /** Each function's callers, once per call, as its use list names them. */
  ghost predicate UsersOk(funcs: seq<Func>, users: seq<seq<nat>>) {
    && |users| == |funcs|
    && (forall g, f :: 0 <= g < |users| && f in users[g] ==> f < |funcs|)
    && (forall g, f :: 0 <= g < |users| && 0 <= f < |funcs| ==> (f in users[g] <==> funcs[f].Calls(g)))
  }

  lemma StepsTo(f: Func, o: Operand) returns (n: nat)
    requires f.AddressesEnd()
    ensures f.FirstAddr(o, n).Some?
  {
    assert f.Based(o);
    n :| f.FirstAddr(o, n).Some?;
  }

  lemma BaseIsUnique(f: Func, o: Operand, n: nat)
    requires f.FirstAddr(o, n).Some?
    ensures f.IsLocal(o) <==> f.IsAlloca(f.FirstAddr(o, n).value)
  {
    if f.IsLocal(o) {
      var m: nat :| f.FirstAddr(o, m).Some? && f.IsAlloca(f.FirstAddr(o, m).value);
      FirstAddrStable(f, o, n, if n < m then m else n);
      FirstAddrStable(f, o, m, if n < m then m else n);
    }
  }

  class FuncInfo {
    const funcs: seq<Func>
    const users: seq<seq<nat>>
    var isPure: map<nat, bool>
    var worklist: seq<nat>
    ghost var queued: seq<nat>   // everything that was ever on the worklist, in order

    constructor (funcs: seq<Func>, users: seq<seq<nat>>)
      ensures this.funcs == funcs && this.users == users && isPure == map[] && worklist == [] && queued == []
    {
      this.funcs, this.users := funcs, users;
      isPure, worklist, queued := map[], [], [];
    }

    /** The base of an address. */
    method GetFirstAddr(f: Func, o: Operand, ghost n: nat) returns (r: Operand)
      requires f.FirstAddr(o, n).Some?
      ensures r == f.FirstAddr(o, n).value
      decreases n
    {
      if !o.Result? || o.id !in f.defs {
        return o;
      }
      match f.defs[o.id]
      case Alloca(_) => r := o;
      case Load(_, _, _) => r := o;
      case Gep(_, base, _) => r := GetFirstAddr(f, base, n - 1);
      case i =>
        var p := f.FirstPointer(OperandsOf(i));
        if p.None? {
          r := o;
        } else {
          r := GetFirstAddr(f, p.value, n - 1);
        }
    }

    method IsLocalAddress(f: Func, addr: Operand) returns (local: bool)
      requires f.AddressesEnd()
      ensures local <==> f.IsLocal(addr)
    {
      ghost var n := StepsTo(f, addr);
      var base := GetFirstAddr(f, addr, n);
      local := f.IsAlloca(base);
      BaseIsUnique(f, addr, n);
    }

    method IsSideEffectInst(f: Func, i: Inst) returns (effect: bool)
      requires f.AddressesEnd()
      ensures effect <==> f.SideEffect(i)
    {
      hide Func.IsLocal, Func.AddressesEnd;
      match i
      case Store(_, addr) =>
        var local := IsLocalAddress(f, addr);
        effect := !local;
      case Load(_, addr, _) =>
        var local := IsLocalAddress(f, addr);
        effect := !local;
      case _ => effect := false;
    }

    method TrivialMark(f: nat)
      requires f < |funcs| && funcs[f].AddressesEnd()
      modifies this`isPure
      ensures isPure == old(isPure)[f := !funcs[f].LocallyImpure()]
    {
      hide Func.IsLocal, Func.AddressesEnd, Func.SideEffect;
      var fn := funcs[f];
      if fn.declaration || fn.isMain {
        isPure := isPure[f := false];
        return;
      }
      for k := 0 to |fn.scalar|
        invariant isPure == old(isPure) && forall j :: 0 <= j < k ==> fn.scalar[j]
      {
        if !fn.scalar[k] {
          isPure := isPure[f := false];
          return;
        }
      }
      for b := 0 to |fn.blocks|
        invariant isPure == old(isPure)
        invariant forall x, k :: 0 <= x < b && 0 <= k < |fn.blocks[x].body| ==> !fn.SideEffect(fn.blocks[x].body[k])
      {
        for k := 0 to |fn.blocks[b].body|
          invariant isPure == old(isPure)
          invariant forall j :: 0 <= j < k ==> !fn.SideEffect(fn.blocks[b].body[j])
        {
          var effect := IsSideEffectInst(fn, fn.blocks[b].body[k]);
          if effect {
            isPure := isPure[f := false];
            return;
          }
        }
      }
      isPure := isPure[f := true];
    }

    /** The callers of an impure function become impure and are queued, once each. */
    method Process(f: nat)
      requires UsersOk(funcs, users) && Spreading(funcs, isPure, Members(worklist) + {f})
      requires f in isPure && !isPure[f] && QueueOk(isPure, worklist, queued)
      modifies this`isPure, this`worklist, this`queued
      ensures Spreading(funcs, isPure, Members(worklist)) && QueueOk(isPure, worklist, queued)
      ensures if worklist == old(worklist) then isPure == old(isPure) else Pure(isPure) < Pure(old(isPure))
    {
      hide ReachesImpure, Func.LocallyImpure, Func.Calls, Spreading, QueueOk, UsersOk;
      UsersKnown(funcs, users, isPure, worklist, f);
      for k := 0 to |users[f]|
        invariant Spreading(funcs, isPure, Members(worklist) + {f}) && QueueOk(isPure, worklist, queued)
        invariant f in isPure && !isPure[f] && old(worklist) <= worklist
        invariant forall j :: 0 <= j < |users[f]| ==> users[f][j] in isPure && funcs[users[f][j]].Calls(f)
        invariant forall j :: 0 <= j < k ==> !isPure[users[f][j]]
        invariant if worklist == old(worklist) then isPure == old(isPure) else Pure(isPure) < Pure(old(isPure))
      {
        var caller := users[f][k];
        if isPure[caller] {
          SpreadTo(funcs, isPure, worklist, queued, f, caller);
          isPure := isPure[caller := false];
          worklist := worklist + [caller];
          queued := queued + [caller];
        }
      }
      AllTold(funcs, users, isPure, worklist, f);
    }

    /** A function is left marked pure exactly if no chain of calls leads from it to a function without body, main,
        one with a parameter that is no number, or one that touches memory; no function is queued twice. */
    method Run()
      requires UsersOk(funcs, users) && isPure == map[] && worklist == [] && queued == []
      requires forall f :: 0 <= f < |funcs| ==> funcs[f].AddressesEnd()
      modifies this
      ensures forall f :: 0 <= f < |funcs| ==> f in isPure && (isPure[f] <==> !ReachesImpure(funcs, f))
      ensures forall f :: 0 <= f < |funcs| ==> (isPure[f] <==> !ReachesSuspect(funcs, f))
      ensures Distinct(queued) && worklist == []
    {
      hide ReachesSuspect, ReachesImpure, Func.LocallyImpure, Func.Calls, Func.AddressesEnd, Spreading, QueueOk, UsersOk;
      MarkAll();
      while worklist != []
        invariant Spreading(funcs, isPure, Members(worklist)) && QueueOk(isPure, worklist, queued)
        decreases Pure(isPure), |worklist|
      {
        var now := worklist[0];
        PopFront(funcs, isPure, worklist, queued);
        worklist := worklist[1..];
        Process(now);
      }
      Exactly(funcs, isPure, worklist, queued);
      forall f | 0 <= f < |funcs| ensures ReachesImpure(funcs, f) <==> ReachesSuspect(funcs, f) { ReachesIsSuspect(funcs, f); }
    }

    method MarkAll()
      requires isPure == map[] && worklist == [] && queued == []
      requires forall f :: 0 <= f < |funcs| ==> funcs[f].AddressesEnd()
      modifies this
      ensures Spreading(funcs, isPure, Members(worklist)) && QueueOk(isPure, worklist, queued)
    {
      hide ReachesImpure, Func.LocallyImpure, Func.Calls, Func.AddressesEnd;
      for f := 0 to |funcs|
        invariant forall g: nat :: g in isPure <==> g < f
        invariant forall g :: 0 <= g < f ==> (isPure[g] <==> !funcs[g].LocallyImpure())
        invariant worklist == queued && QueueOk(isPure, worklist, queued)
      {
        ghost var before, q := isPure, queued;
        TrivialMark(f);
        if !isPure[f] {
          worklist := worklist + [f];
          queued := queued + [f];
        }
        QueueMarked(before, isPure, q, f);
      }
      forall f | f in isPure && !isPure[f] ensures ReachesImpure(funcs, f) { ReachesSelf(funcs, f); }
    }
  }

  // ----- steps of the worklist -----

  ghost function Members(s: seq<nat>): set<nat> {
    set x | x in s
  }

  ghost function Pure(isPure: map<nat, bool>): set<nat> {
    set f | f in isPure && isPure[f]
  }

  /** The queue has held each impure function exactly once; the worklist is its unprocessed end. */
  ghost predicate QueueOk(isPure: map<nat, bool>, worklist: seq<nat>, queued: seq<nat>) {
    && Distinct(queued)
    && (forall x :: x in queued <==> x in isPure && !isPure[x])
    && |worklist| <= |queued| && worklist == queued[|queued| - |worklist|..]
  }

  lemma SpreadTo(funcs: seq<Func>, isPure: map<nat, bool>, worklist: seq<nat>, queued: seq<nat>, f: nat, caller: nat)
    requires Spreading(funcs, isPure, Members(worklist) + {f}) && QueueOk(isPure, worklist, queued)
    requires f in isPure && !isPure[f] && caller in isPure && isPure[caller] && funcs[caller].Calls(f)
    ensures var isPure' := isPure[caller := false];
            && Spreading(funcs, isPure', Members(worklist + [caller]) + {f})
            && QueueOk(isPure', worklist + [caller], queued + [caller]) && Pure(isPure') < Pure(isPure)
  {
    hide ReachesImpure, Func.LocallyImpure, Func.Calls;
    ReachesCaller(funcs, caller, f);
    var isPure' := isPure[caller := false];
    assert caller in Pure(isPure) && caller !in Pure(isPure');
    assert (queued + [caller])[|queued| - |worklist|..] == worklist + [caller];
    assert forall x :: x in Members(worklist) ==> x in Members(worklist + [caller]);
    assert caller in Members(worklist + [caller]) by { assert (worklist + [caller])[|worklist|] == caller; }
  }

  lemma UsersKnown(funcs: seq<Func>, users: seq<seq<nat>>, isPure: map<nat, bool>, worklist: seq<nat>, f: nat)
    requires UsersOk(funcs, users) && Spreading(funcs, isPure, Members(worklist) + {f}) && f in isPure
    ensures f < |users|
    ensures forall j :: 0 <= j < |users[f]| ==> users[f][j] < |funcs| && users[f][j] in isPure && funcs[users[f][j]].Calls(f)
  {
    hide ReachesImpure, Func.LocallyImpure, Func.Calls;
    forall j | 0 <= j < |users[f]| ensures users[f][j] < |funcs| && users[f][j] in isPure && funcs[users[f][j]].Calls(f) {
      assert users[f][j] in users[f];
    }
  }

  lemma QueueMarked(isPure: map<nat, bool>, isPure': map<nat, bool>, queued: seq<nat>, f: nat)
    requires QueueOk(isPure, queued, queued) && f !in isPure && f in isPure' && isPure' == isPure[f := isPure'[f]]
    ensures var q := if isPure'[f] then queued else queued + [f]; QueueOk(isPure', q, q)
  {
    assert queued[0..] == queued && (queued + [f])[0..] == queued + [f];
    assert f !in queued;
  }

  lemma AllTold(funcs: seq<Func>, users: seq<seq<nat>>, isPure: map<nat, bool>, worklist: seq<nat>, f: nat)
    requires UsersOk(funcs, users) && Spreading(funcs, isPure, Members(worklist) + {f}) && f in isPure
    requires forall j :: 0 <= j < |users[f]| ==> users[f][j] in isPure && !isPure[users[f][j]]
    ensures Spreading(funcs, isPure, Members(worklist))
  {
    hide ReachesImpure, Func.LocallyImpure, Func.Calls;
    forall x | 0 <= x < |funcs| && funcs[x].Calls(f) ensures !isPure[x] {
      assert x in users[f];
    }
  }

  lemma PopFront(funcs: seq<Func>, isPure: map<nat, bool>, worklist: seq<nat>, queued: seq<nat>)
    requires Spreading(funcs, isPure, Members(worklist)) && QueueOk(isPure, worklist, queued) && worklist != []
    ensures Spreading(funcs, isPure, Members(worklist[1..]) + {worklist[0]}) && QueueOk(isPure, worklist[1..], queued)
    ensures worklist[0] in isPure && !isPure[worklist[0]]
  {
    hide ReachesImpure, Func.LocallyImpure, Func.Calls;
    assert Members(worklist[1..]) + {worklist[0]} == Members(worklist) by {
      assert worklist == [worklist[0]] + worklist[1..];
    }
    assert worklist[0] == queued[|queued| - |worklist|];
  }

  lemma Exactly(funcs: seq<Func>, isPure: map<nat, bool>, worklist: seq<nat>, queued: seq<nat>)
    requires Spreading(funcs, isPure, Members(worklist)) && QueueOk(isPure, worklist, queued) && worklist == []
    ensures forall f :: 0 <= f < |funcs| ==> f in isPure && (isPure[f] <==> !ReachesImpure(funcs, f))
    ensures Distinct(queued)
  {
    hide ReachesImpure, Func.LocallyImpure, Func.Calls;
    assert Members(worklist) == {};
    SpreadIsExact(funcs, isPure);
  }
}
