// A function that reaches no locally impure function depends on its scalar arguments alone
// and leaves all memory of its caller as it was.
module PuritySound {
  import opened Wrappers
  import IR
  import opened FuncInfoPass

  // ----- meaning -----

  datatype Obj = Static(name: nat) | Frame(n: nat)

  datatype Val = Num(v: int) | Addr(obj: Obj, off: int)

  /** Cells by object and offset, the number of objects allocated so far, and the calls of
      declared functions. */
  datatype Mem = Mem(cells: map<(Obj, int), Val>, next: nat, io: seq<(nat, seq<Val>)>) {
    /** Objects not yet allocated have no cells. */
    ghost predicate Valid() {
      forall k :: k in cells && k.0.Frame? ==> k.0.n < next
    }
  }

  type Env = map<nat, Val>

  /** What declared functions do. */
  type Library = (nat, seq<Val>, Mem) -> Option<(int, Mem)>

  function Eval(o: Operand, args: seq<Val>, env: Env): Option<Val> {
    match o
    case Const(n) => Some(Num(n))
    case Arg(i) => if i < |args| then Some(args[i]) else None
    case Global(g) => Some(Addr(Static(g), 0))
    case Result(id) => if id in env then Some(env[id]) else None
  }

  function EvalNum(o: Operand, args: seq<Val>, env: Env): Option<int> {
    match Eval(o, args, env)
    case Some(Num(n)) => Some(n)
    case _ => None
  }

  function EvalAddr(o: Operand, args: seq<Val>, env: Env): Option<(Obj, int)> {
    match Eval(o, args, env)
    case Some(Addr(obj, off)) => Some((obj, off))
    case _ => None
  }

  function EvalAll(os: seq<Operand>, args: seq<Val>, env: Env): Option<seq<Val>> {
    if os == [] then Some([])
    else
      var v :- Eval(os[0], args, env);
      var vs :- EvalAll(os[1..], args, env);
      Some([v] + vs)
  }

  /** Scalar parameters take numbers. */
  predicate Fit(vals: seq<Val>, scalar: seq<bool>) {
    |vals| == |scalar| && forall k :: 0 <= k < |vals| && scalar[k] ==> vals[k].Num?
  }

  /** Everything but calls; phis have been executed on entry to the block. */
  function Exec(i: Inst, args: seq<Val>, env: Env, m: Mem): Option<(Env, Mem)>
    requires !i.Call?
  {
    match i
    case Alloca(id) => Some((env[id := Addr(Frame(m.next), 0)], m.(next := m.next + 1)))
    case Gep(id, base, offset) =>
      var a :- EvalAddr(base, args, env);
      var k :- EvalNum(offset, args, env);
      Some((env[id := Addr(a.0, a.1 + k)], m))
    case Load(id, addr, pointer) =>
      var a :- EvalAddr(addr, args, env);
      if a in m.cells && m.cells[a].Addr? == pointer then Some((env[id := m.cells[a]], m)) else None
    case Store(val, addr) =>
      var v :- Eval(val, args, env);
      var a :- EvalAddr(addr, args, env);
      Some((env, m.(cells := m.cells[a := v])))
    case Bin(id, op, lhs, rhs) =>
      var a :- EvalNum(lhs, args, env);
      var b :- EvalNum(rhs, args, env);
      var v :- IR.Compute(op, a, b);
      Some((env[id := Num(v)], m))
    case Phi(_, _) => Some((env, m))
  }

  function PhiOperand(pairs: seq<(Operand, nat)>, prev: nat): Option<Operand> {
    if pairs == [] then None else if pairs[0].1 == prev then Some(pairs[0].0) else PhiOperand(pairs[1..], prev)
  }

  /** Phis read the environment at the end of prev, and take numbers. */
  function EnterPhis(body: seq<Inst>, prev: nat, args: seq<Val>, at: Env, env: Env): Option<Env> {
    if body == [] then Some(env)
    else if !body[0].Phi? then EnterPhis(body[1..], prev, args, at, env)
    else
      var o :- PhiOperand(body[0].pairs, prev);
      var n :- EvalNum(o, args, at);
      EnterPhis(body[1..], prev, args, at, env[body[0].id := Num(n)])
  }

  /** A call; functions return numbers. None if it gets stuck or runs out of fuel. */
  function Invoke(funcs: seq<Func>, lib: Library, f: nat, args: seq<Val>, m: Mem, fuel: nat): Option<(int, Mem)>
    decreases fuel, 2, 0
  {
    if f >= |funcs| || !Fit(args, funcs[f].scalar) then None
    else if funcs[f].declaration then lib(f, args, m)
    else RunBlock(funcs, lib, f, args, 0, 0, map[], m, fuel)
  }

  function RunBlock(funcs: seq<Func>, lib: Library, f: nat, args: seq<Val>, prev: nat, b: nat, env: Env, m: Mem, fuel: nat): Option<(int, Mem)>
    requires f < |funcs|
    decreases fuel, 1, 0
  {
    if b >= |funcs[f].blocks| then None
    else
      var body := funcs[f].blocks[b].body;
      var entered :- EnterPhis(body, prev, args, env, env);
      var r :- RunBody(funcs, lib, body, args, entered, m, fuel);
      match funcs[f].blocks[b].term
      case Br(t) => if fuel == 0 then None else RunBlock(funcs, lib, f, args, b, t, r.0, r.1, fuel - 1)
      case CondBr(c, t, e) =>
        var n :- EvalNum(c, args, r.0);
        if fuel == 0 then None else RunBlock(funcs, lib, f, args, b, if n != 0 then t else e, r.0, r.1, fuel - 1)
      case Ret(o) =>
        var n :- EvalNum(o, args, r.0);
        Some((n, r.1))
  }

  function RunBody(funcs: seq<Func>, lib: Library, body: seq<Inst>, args: seq<Val>, env: Env, m: Mem, fuel: nat): Option<(Env, Mem)>
    decreases fuel, 0, |body|
  {
    if body == [] then Some((env, m))
    else
      var r :- Step(funcs, lib, body[0], args, env, m, fuel);
      RunBody(funcs, lib, body[1..], args, r.0, r.1, fuel)
  }

  function Step(funcs: seq<Func>, lib: Library, i: Inst, args: seq<Val>, env: Env, m: Mem, fuel: nat): Option<(Env, Mem)>
    decreases fuel, 0, 0
  {
    match i
    case Call(id, callee, os) =>
      var vs :- EvalAll(os, args, env);
      if fuel == 0 then None
      else
        var r :- Invoke(funcs, lib, callee, vs, m, fuel - 1);
        Some((env[id := Num(r.0)], r.1))
    case _ => Exec(i, args, env, m)
  }

  // ----- purity -----

  /** A set of functions that are not impure by themselves and call only each other. */
  ghost predicate PureSet(funcs: seq<Func>, pure: set<nat>) {
    && (forall f :: f in pure ==> f < |funcs| && funcs[f].Valid() && !funcs[f].LocallyImpure())
    && (forall f, g :: f in pure && funcs[f].Calls(g) ==> g in pure)
  }

  /** An object allocated since `base`. */
  predicate Own(o: Obj, base: nat) {
    o.Frame? && base <= o.n
  }

  /** The counterpart of an own object in a run whose objects start elsewhere. */
  function Moved(o: Obj, base: nat, base': nat): Obj
    requires Own(o, base)
  {
    Frame(o.n - base + base')
  }

  type Key = (Obj, int)

  /** A cell outside the objects from `base` on is as it was. */
  ghost predicate SameCell(m: Mem, m': Mem, base: nat, k: Key) {
    !Own(k.0, base) ==> (k in m.cells <==> k in m'.cells) && (k in m.cells ==> m'.cells[k] == m.cells[k])
  }

  /** Everything outside the objects from `base` on is unchanged. */
  ghost predicate Preserved(m: Mem, m': Mem, base: nat) {
    m'.io == m.io && m.next <= m'.next && forall k: Key {:trigger SameCell(m, m', base, k)} :: SameCell(m, m', base, k)
  }

  /** The same value in two runs whose own objects start at base and base'. */
  ghost predicate Alike(v: Val, v': Val, base: nat, base': nat) {
    match v
    case Num(_) => v' == v
    case Addr(o, off) => if o.Static? then v' == v else Own(o, base) && v' == Addr(Moved(o, base, base'), off)
  }

  ghost predicate EnvAlike(env: Env, env': Env, base: nat, base': nat) {
    env.Keys == env'.Keys && forall id :: id in env ==> Alike(env[id], env'[id], base, base')
  }

  /** An own cell has a counterpart with the same value. */
  ghost predicate HasTwin(m: Mem, m': Mem, base: nat, base': nat, k: Key) {
    k in m.cells && Own(k.0, base) ==>
      var k' := (Moved(k.0, base, base'), k.1); k' in m'.cells && Alike(m.cells[k], m'.cells[k'], base, base')
  }

  ghost predicate IsTwin(m: Mem, m': Mem, base: nat, base': nat, k: Key) {
    k in m'.cells && Own(k.0, base') ==> (Moved(k.0, base', base), k.1) in m.cells
  }

  /** The own objects have the same contents. */
  ghost predicate MemAlike(m: Mem, m': Mem, base: nat, base': nat) {
    && m.Valid() && m'.Valid() && base <= m.next && base' <= m'.next && m.next - base == m'.next - base'
    && (forall k: Key {:trigger HasTwin(m, m', base, base', k)} :: HasTwin(m, m', base, base', k))
    && (forall k: Key {:trigger IsTwin(m, m', base, base', k)} :: IsTwin(m, m', base, base', k))
  }

  /** Registers computed from an alloca hold numbers or addresses of own objects. */
  ghost predicate LocalRegs(f: Func, env: Env, base: nat, next: nat) {
    forall id :: id in env && f.IsLocal(Result(id)) ==> env[id].Num? || (Own(env[id].obj, base) && env[id].obj.n < next)
  }

  /** Two runs of the same pure function, each from its own memory. */
  ghost predicate Paired(f: Func, env: Env, env': Env, m: Mem, m': Mem, m0: Mem, m0': Mem) {
    && EnvAlike(env, env', m0.next, m0'.next) && MemAlike(m, m', m0.next, m0'.next) && LocalRegs(f, env, m0.next, m.next)
    && Preserved(m0, m, m0.next) && Preserved(m0', m', m0'.next)
  }

  ghost predicate Numbers(args: seq<Val>) {
    forall k :: 0 <= k < |args| ==> args[k].Num?
  }

  // ----- operands -----

  lemma EvalAlike(o: Operand, args: seq<Val>, env: Env, env': Env, base: nat, base': nat)
    requires EnvAlike(env, env', base, base') && Numbers(args) && Eval(o, args, env).Some?
    ensures Eval(o, args, env').Some? && Alike(Eval(o, args, env).value, Eval(o, args, env').value, base, base')
  {
  }

  lemma {:induction false} EvalAllAlike(os: seq<Operand>, args: seq<Val>, env: Env, env': Env, base: nat, base': nat)
    requires EnvAlike(env, env', base, base') && Numbers(args)
    requires EvalAll(os, args, env).Some? && Numbers(EvalAll(os, args, env).value)
    ensures EvalAll(os, args, env') == EvalAll(os, args, env)
  {
    if os != [] {
      var vs := EvalAll(os, args, env).value;
      assert vs[0].Num? && vs[1..] == EvalAll(os[1..], args, env).value;
      assert forall k :: 0 <= k < |vs[1..]| ==> vs[1..][k] == vs[k + 1];
      EvalAlike(os[0], args, env, env', base, base');
      EvalAllAlike(os[1..], args, env, env', base, base');
    }
  }

  /** The base of a gep is the base of what it starts from. */
  lemma GepBase(f: Func, id: nat, base: Operand, offset: Operand)
    requires id in f.defs && f.defs[id] == Gep(id, base, offset) && f.IsLocal(Result(id))
    ensures f.IsLocal(base)
  {
    var n: nat :| f.FirstAddr(Result(id), n).Some? && f.IsAlloca(f.FirstAddr(Result(id), n).value);
    assert f.FirstAddr(base, n - 1) == f.FirstAddr(Result(id), n);
  }

  lemma LoadBase(f: Func, id: nat)
    requires id in f.defs && f.defs[id].Load?
    ensures !f.IsLocal(Result(id))
  {
  }

  /** A local address names an own object. */
  lemma LocalAddr(f: Func, o: Operand, args: seq<Val>, env: Env, base: nat, next: nat)
    requires LocalRegs(f, env, base, next) && f.IsLocal(o) && EvalAddr(o, args, env).Some?
    ensures var obj := EvalAddr(o, args, env).value.0; Own(obj, base) && obj.n < next
  {
    assert o.Result?;
  }

  // ----- memory -----

  lemma AllocAlike(m: Mem, m': Mem, base: nat, base': nat)
    requires MemAlike(m, m', base, base')
    ensures MemAlike(m.(next := m.next + 1), m'.(next := m'.next + 1), base, base')
    ensures Alike(Addr(Frame(m.next), 0), Addr(Frame(m'.next), 0), base, base')
  {
    var m1, m1' := m.(next := m.next + 1), m'.(next := m'.next + 1);
    forall k: Key {:trigger HasTwin(m1, m1', base, base', k)} ensures HasTwin(m1, m1', base, base', k) {
      assert HasTwin(m, m', base, base', k);
    }
    forall k: Key {:trigger IsTwin(m1, m1', base, base', k)} ensures IsTwin(m1, m1', base, base', k) {
      assert IsTwin(m, m', base, base', k);
    }
  }

  lemma StoreAlike(m: Mem, m': Mem, base: nat, base': nat, o: Obj, off: int, v: Val, v': Val)
    requires MemAlike(m, m', base, base') && Own(o, base) && o.n < m.next && Alike(v, v', base, base')
    ensures MemAlike(m.(cells := m.cells[(o, off) := v]), m'.(cells := m'.cells[(Moved(o, base, base'), off) := v']), base, base')
  {
    var m1, m1' := m.(cells := m.cells[(o, off) := v]), m'.(cells := m'.cells[(Moved(o, base, base'), off) := v']);
    forall k: Key {:trigger HasTwin(m1, m1', base, base', k)} ensures HasTwin(m1, m1', base, base', k) {
      assert HasTwin(m, m', base, base', k);
    }
    forall k: Key {:trigger IsTwin(m1, m1', base, base', k)} ensures IsTwin(m1, m1', base, base', k) {
      assert IsTwin(m, m', base, base', k);
    }
  }

  lemma StorePreserved(m0: Mem, m: Mem, base: nat, o: Obj, off: int, v: Val)
    requires Preserved(m0, m, base) && Own(o, base)
    ensures Preserved(m0, m.(cells := m.cells[(o, off) := v]), base)
  {
    var m1 := m.(cells := m.cells[(o, off) := v]);
    forall k: Key {:trigger SameCell(m0, m1, base, k)} ensures SameCell(m0, m1, base, k) { assert SameCell(m0, m, base, k); }
  }

  lemma AllocPreserved(m0: Mem, m: Mem, base: nat)
    requires Preserved(m0, m, base)
    ensures Preserved(m0, m.(next := m.next + 1), base)
  {
    var m1 := m.(next := m.next + 1);
    forall k: Key {:trigger SameCell(m0, m1, base, k)} ensures SameCell(m0, m1, base, k) { assert SameCell(m0, m, base, k); }
  }

  lemma PreservedTrans(m: Mem, m1: Mem, m2: Mem, base: nat, base1: nat)
    requires Preserved(m, m1, base) && Preserved(m1, m2, base1) && base <= base1
    ensures Preserved(m, m2, base)
  {
    forall k: Key {:trigger SameCell(m, m2, base, k)} ensures SameCell(m, m2, base, k) {
      assert SameCell(m, m1, base, k) && SameCell(m1, m2, base1, k);
    }
  }

  lemma AlikeWider(v: Val, v': Val, next: nat, next': nat, base: nat, base': nat)
    requires Alike(v, v', next, next') && base <= next && next - base == next' - base'
    ensures Alike(v, v', base, base')
  {
  }

  /** A call in between keeps the own objects alike: the older ones untouched, the callee's alike. */
  lemma CallAlike(m: Mem, m': Mem, base: nat, base': nat, m1: Mem, m1': Mem)
    requires MemAlike(m, m', base, base') && MemAlike(m1, m1', m.next, m'.next)
    requires Preserved(m, m1, m.next) && Preserved(m', m1', m'.next)
    ensures MemAlike(m1, m1', base, base')
  {
    forall k: Key {:trigger HasTwin(m1, m1', base, base', k)} ensures HasTwin(m1, m1', base, base', k) {
      if k in m1.cells && Own(k.0, base) {
        var k' := (Moved(k.0, base, base'), k.1);
        assert HasTwin(m, m', base, base', k) && HasTwin(m1, m1', m.next, m'.next, k);
        assert SameCell(m, m1, m.next, k) && SameCell(m', m1', m'.next, k');
        if Own(k.0, m.next) { AlikeWider(m1.cells[k], m1'.cells[k'], m.next, m'.next, base, base'); }
      }
    }
    forall k: Key {:trigger IsTwin(m1, m1', base, base', k)} ensures IsTwin(m1, m1', base, base', k) {
      if k in m1'.cells && Own(k.0, base') {
        assert IsTwin(m, m', base, base', k) && IsTwin(m1, m1', m.next, m'.next, k);
        assert SameCell(m', m1', m'.next, k) && SameCell(m, m1, m.next, (Moved(k.0, base', base), k.1));
      }
    }
  }

  lemma NothingOwn(m: Mem, m': Mem)
    requires m.Valid() && m'.Valid()
    ensures MemAlike(m, m', m.next, m'.next) && Preserved(m, m, m.next) && Preserved(m', m', m'.next)
  {
  }

  // ----- instructions -----

  /** An instruction of f that is not a side effect. */
  ghost predicate Harmless(f: Func, i: Inst) {
    !f.SideEffect(i) && (!i.Store? ==> i.id in f.defs && f.defs[i.id] == i)
  }

  lemma PairedParts(f: Func, env: Env, env': Env, m: Mem, m': Mem, m0: Mem, m0': Mem)
    requires Paired(f, env, env', m, m', m0, m0')
    ensures EnvAlike(env, env', m0.next, m0'.next) && MemAlike(m, m', m0.next, m0'.next) && LocalRegs(f, env, m0.next, m.next)
    ensures Preserved(m0, m, m0.next) && Preserved(m0', m', m0'.next) && m0.next <= m.next
  {
  }

  lemma BindReg(f: Func, env: Env, env': Env, m: Mem, m': Mem, m0: Mem, m0': Mem, id: nat, v: Val, v': Val)
    requires Paired(f, env, env', m, m', m0, m0') && Alike(v, v', m0.next, m0'.next)
    requires f.IsLocal(Result(id)) ==> v.Num? || (Own(v.obj, m0.next) && v.obj.n < m.next)
    ensures Paired(f, env[id := v], env'[id := v'], m, m', m0, m0')
  {
    hide MemAlike, Preserved, Alike, Func.IsLocal;
  }

  /** The instruction did the same in both runs. */
  ghost predicate PairedAfter(f: Func, r: Option<(Env, Mem)>, r': Option<(Env, Mem)>, m0: Mem, m0': Mem) {
    r.Some? ==> r'.Some? && Paired(f, r.value.0, r'.value.0, r.value.1, r'.value.1, m0, m0')
  }

  lemma GepPaired(f: Func, i: Inst, args: seq<Val>, env: Env, env': Env, m: Mem, m': Mem, m0: Mem, m0': Mem)
    requires Paired(f, env, env', m, m', m0, m0') && Numbers(args) && Harmless(f, i) && i.Gep?
    ensures PairedAfter(f, Exec(i, args, env, m), Exec(i, args, env', m'), m0, m0')
  {
    hide MemAlike, Preserved, Func.IsLocal, EnvAlike, LocalRegs, Paired;
    PairedParts(f, env, env', m, m', m0, m0');
    if Exec(i, args, env, m).Some? {
      EvalAlike(i.base, args, env, env', m0.next, m0'.next);
      EvalAlike(i.offset, args, env, env', m0.next, m0'.next);
      var a, k := EvalAddr(i.base, args, env).value, EvalNum(i.offset, args, env).value;
      var a' := EvalAddr(i.base, args, env').value;
      if f.IsLocal(Result(i.id)) {
        GepBase(f, i.id, i.base, i.offset);
        LocalAddr(f, i.base, args, env, m0.next, m.next);
      }
      BindReg(f, env, env', m, m', m0, m0', i.id, Addr(a.0, a.1 + k), Addr(a'.0, a'.1 + k));
    }
  }

  lemma LoadPaired(f: Func, i: Inst, args: seq<Val>, env: Env, env': Env, m: Mem, m': Mem, m0: Mem, m0': Mem)
    requires Paired(f, env, env', m, m', m0, m0') && Numbers(args) && Harmless(f, i) && i.Load?
    ensures PairedAfter(f, Exec(i, args, env, m), Exec(i, args, env', m'), m0, m0')
  {
    hide Preserved, Func.IsLocal, EnvAlike, LocalRegs, Paired;
    PairedParts(f, env, env', m, m', m0, m0');
    if Exec(i, args, env, m).Some? {
      EvalAlike(i.addr, args, env, env', m0.next, m0'.next);
      LocalAddr(f, i.addr, args, env, m0.next, m.next);
      LoadBase(f, i.id);
      var a, a' := EvalAddr(i.addr, args, env).value, EvalAddr(i.addr, args, env').value;
      assert a' == (Moved(a.0, m0.next, m0'.next), a.1);
      assert HasTwin(m, m', m0.next, m0'.next, a);
      BindReg(f, env, env', m, m', m0, m0', i.id, m.cells[a], m'.cells[a']);
    }
  }

  lemma StorePaired(f: Func, i: Inst, args: seq<Val>, env: Env, env': Env, m: Mem, m': Mem, m0: Mem, m0': Mem)
    requires Paired(f, env, env', m, m', m0, m0') && Numbers(args) && Harmless(f, i) && i.Store?
    ensures PairedAfter(f, Exec(i, args, env, m), Exec(i, args, env', m'), m0, m0')
  {
    hide Func.IsLocal, EnvAlike, LocalRegs, MemAlike, Preserved;
    if Exec(i, args, env, m).Some? {
      EvalAlike(i.addr, args, env, env', m0.next, m0'.next);
      EvalAlike(i.val, args, env, env', m0.next, m0'.next);
      LocalAddr(f, i.addr, args, env, m0.next, m.next);
      var a, v, v' := EvalAddr(i.addr, args, env).value, Eval(i.val, args, env).value, Eval(i.val, args, env').value;
      StoreAlike(m, m', m0.next, m0'.next, a.0, a.1, v, v');
      StorePreserved(m0, m, m0.next, a.0, a.1, v);
      StorePreserved(m0', m', m0'.next, Moved(a.0, m0.next, m0'.next), a.1, v');
    }
  }

  lemma AllocaPaired(f: Func, i: Inst, args: seq<Val>, env: Env, env': Env, m: Mem, m': Mem, m0: Mem, m0': Mem)
    requires Paired(f, env, env', m, m', m0, m0') && i.Alloca?
    ensures PairedAfter(f, Exec(i, args, env, m), Exec(i, args, env', m'), m0, m0')
  {
    hide Func.IsLocal, MemAlike, Preserved, Alike;
    AllocAlike(m, m', m0.next, m0'.next);
    AllocPreserved(m0, m, m0.next);
    AllocPreserved(m0', m', m0'.next);
    PairedParts(f, env, env', m, m', m0, m0');
    BindReg(f, env, env', m.(next := m.next + 1), m'.(next := m'.next + 1), m0, m0', i.id, Addr(Frame(m.next), 0), Addr(Frame(m'.next), 0));
  }

  lemma BinPaired(f: Func, i: Inst, args: seq<Val>, env: Env, env': Env, m: Mem, m': Mem, m0: Mem, m0': Mem)
    requires Paired(f, env, env', m, m', m0, m0') && Numbers(args) && i.Bin?
    ensures PairedAfter(f, Exec(i, args, env, m), Exec(i, args, env', m'), m0, m0')
  {
    hide Func.IsLocal, MemAlike, Preserved, EnvAlike, LocalRegs, Paired;
    PairedParts(f, env, env', m, m', m0, m0');
    var r := Exec(i, args, env, m);
    if r.Some? {
      EvalAlike(i.lhs, args, env, env', m0.next, m0'.next);
      EvalAlike(i.rhs, args, env, env', m0.next, m0'.next);
      BindReg(f, env, env', m, m', m0, m0', i.id, r.value.0[i.id], r.value.0[i.id]);
    }
  }

  lemma ExecPaired(f: Func, i: Inst, args: seq<Val>, env: Env, env': Env, m: Mem, m': Mem, m0: Mem, m0': Mem)
    requires Paired(f, env, env', m, m', m0, m0') && Numbers(args) && Harmless(f, i) && !i.Call?
    ensures PairedAfter(f, Exec(i, args, env, m), Exec(i, args, env', m'), m0, m0')
  {
    hide Paired, Harmless;
    match i
    case Alloca(_) => AllocaPaired(f, i, args, env, env', m, m', m0, m0');
    case Gep(_, _, _) => GepPaired(f, i, args, env, env', m, m', m0, m0');
    case Load(_, _, _) => LoadPaired(f, i, args, env, env', m, m', m0, m0');
    case Store(_, _) => StorePaired(f, i, args, env, env', m, m', m0, m0');
    case Bin(_, _, _, _) => BinPaired(f, i, args, env, env', m, m', m0, m0');
    case Phi(_, _) =>
  }

  // ----- whole runs -----

  /** What is to be shown of a call of a pure function. */
  ghost predicate SameCall(r: Option<(int, Mem)>, r': Option<(int, Mem)>, m: Mem, m': Mem) {
    r.Some? ==>
      && r'.Some? && r'.value.0 == r.value.0
      && Preserved(m, r.value.1, m.next) && Preserved(m', r'.value.1, m'.next)
      && MemAlike(r.value.1, r'.value.1, m.next, m'.next)
  }

  lemma CallPaired(f: Func, id: nat, env: Env, env': Env, m: Mem, m': Mem, m0: Mem, m0': Mem, n: int, m1: Mem, m1': Mem)
    requires Paired(f, env, env', m, m', m0, m0')
    requires Preserved(m, m1, m.next) && Preserved(m', m1', m'.next) && MemAlike(m1, m1', m.next, m'.next)
    ensures Paired(f, env[id := Num(n)], env'[id := Num(n)], m1, m1', m0, m0')
  {
    hide Func.IsLocal, EnvAlike, Preserved, MemAlike;
    PairedParts(f, env, env', m, m', m0, m0');
    CallAlike(m, m', m0.next, m0'.next, m1, m1');
    MemFacts(m, m', m0.next, m0'.next);
    PreservedTrans(m0, m, m1, m0.next, m.next);
    PreservedTrans(m0', m', m1', m0'.next, m'.next);
    assert m.next <= m1.next by { NextGrows(m, m1); }
    BindReg(f, env, env', m1, m1', m0, m0', id, Num(n), Num(n));
  }

  lemma NextGrows(m: Mem, m1: Mem)
    requires Preserved(m, m1, m.next)
    ensures m.next <= m1.next
  {
  }

  lemma MemFacts(m: Mem, m': Mem, base: nat, base': nat)
    requires MemAlike(m, m', base, base')
    ensures m.Valid() && m'.Valid() && base <= m.next && base' <= m'.next && m.next - base == m'.next - base'
  {
  }

  lemma {:induction false} PhisPaired(f: Func, body: seq<Inst>, prev: nat, args: seq<Val>, at: Env, at': Env, env: Env, env': Env,
                                      m: Mem, m': Mem, m0: Mem, m0': Mem)
    requires Paired(f, env, env', m, m', m0, m0') && EnvAlike(at, at', m0.next, m0'.next) && Numbers(args)
    requires EnterPhis(body, prev, args, at, env).Some?
    ensures EnterPhis(body, prev, args, at', env').Some?
    ensures Paired(f, EnterPhis(body, prev, args, at, env).value, EnterPhis(body, prev, args, at', env').value, m, m', m0, m0')
  {
    hide Paired, Func.IsLocal, EnvAlike;
    if body != [] {
      if body[0].Phi? {
        var o := PhiOperand(body[0].pairs, prev).value;
        var n := EvalNum(o, args, at).value;
        EvalAlike(o, args, at, at', m0.next, m0'.next);
        BindReg(f, env, env', m, m', m0, m0', body[0].id, Num(n), Num(n));
        PhisPaired(f, body[1..], prev, args, at, at', env[body[0].id := Num(n)], env'[body[0].id := Num(n)], m, m', m0, m0');
      } else {
        PhisPaired(f, body[1..], prev, args, at, at', env, env', m, m', m0, m0');
      }
    }
  }

  /** Code of a function of the set: harmless instructions, and calls inside the set. */
  ghost predicate Safe(funcs: seq<Func>, pure: set<nat>, f: Func, body: seq<Inst>) {
    forall k :: 0 <= k < |body| ==> Harmless(f, body[k]) && (body[k].Call? ==> body[k].callee in pure)
  }

  lemma {:induction false} BodyPaired(funcs: seq<Func>, lib: Library, pure: set<nat>, f: Func, body: seq<Inst>, args: seq<Val>,
                                      env: Env, env': Env, m: Mem, m': Mem, m0: Mem, m0': Mem, fuel: nat)
    requires PureSet(funcs, pure) && Safe(funcs, pure, f, body) && Numbers(args) && Paired(f, env, env', m, m', m0, m0')
    ensures PairedAfter(f, RunBody(funcs, lib, body, args, env, m, fuel), RunBody(funcs, lib, body, args, env', m', fuel), m0, m0')
    decreases fuel, 0, |body|
  {
    hide Paired, PureSet, Harmless, Step;
    if body != [] {
      StepPaired(funcs, lib, pure, f, body[0], args, env, env', m, m', m0, m0', fuel);
      var r, r' := Step(funcs, lib, body[0], args, env, m, fuel), Step(funcs, lib, body[0], args, env', m', fuel);
      if r.Some? {
        assert forall k :: 0 <= k < |body[1..]| ==> body[1..][k] == body[k + 1];
        BodyPaired(funcs, lib, pure, f, body[1..], args, r.value.0, r'.value.0, r.value.1, r'.value.1, m0, m0', fuel);
      }
    }
  }

  lemma StepPaired(funcs: seq<Func>, lib: Library, pure: set<nat>, f: Func, i: Inst, args: seq<Val>,
                   env: Env, env': Env, m: Mem, m': Mem, m0: Mem, m0': Mem, fuel: nat)
    requires PureSet(funcs, pure) && Harmless(f, i) && (i.Call? ==> i.callee in pure)
    requires Numbers(args) && Paired(f, env, env', m, m', m0, m0')
    ensures PairedAfter(f, Step(funcs, lib, i, args, env, m, fuel), Step(funcs, lib, i, args, env', m', fuel), m0, m0')
    decreases fuel, 0, 0
  {
    hide Paired, PureSet, Harmless, Invoke, EnvAlike, MemAlike, Preserved;
    if !i.Call? {
      ExecPaired(f, i, args, env, env', m, m', m0, m0');
    } else if Step(funcs, lib, i, args, env, m, fuel).Some? {
      PairedParts(f, env, env', m, m', m0, m0');
      MemFacts(m, m', m0.next, m0'.next);
      var vs := EvalAll(i.args, args, env).value;
      PureCall(funcs, lib, pure, i.callee, vs, m, m', fuel - 1);
      ScalarArgs(funcs, lib, pure, i.callee, vs, m, fuel - 1);
      EvalAllAlike(i.args, args, env, env', m0.next, m0'.next);
      var r, r' := Invoke(funcs, lib, i.callee, vs, m, fuel - 1).value, Invoke(funcs, lib, i.callee, vs, m', fuel - 1).value;
      CallPaired(f, i.id, env, env', m, m', m0, m0', r.0, r.1, r'.1);
    }
  }

  /** A pure function takes numbers only. */
  lemma ScalarArgs(funcs: seq<Func>, lib: Library, pure: set<nat>, f: nat, args: seq<Val>, m: Mem, fuel: nat)
    requires PureSet(funcs, pure) && f in pure && Invoke(funcs, lib, f, args, m, fuel).Some?
    ensures f < |funcs| && Numbers(args) && !funcs[f].declaration
  {
    hide Func.SideEffect, Func.Calls, RunBlock;
  }

  lemma {:induction false} BlocksPaired(funcs: seq<Func>, lib: Library, pure: set<nat>, f: nat, args: seq<Val>, prev: nat, b: nat,
                                        env: Env, env': Env, m: Mem, m': Mem, m0: Mem, m0': Mem, fuel: nat)
    requires PureSet(funcs, pure) && f in pure && f < |funcs| && Numbers(args) && Paired(funcs[f], env, env', m, m', m0, m0')
    ensures SameCall(RunBlock(funcs, lib, f, args, prev, b, env, m, fuel), RunBlock(funcs, lib, f, args, prev, b, env', m', fuel), m0, m0')
    decreases fuel, 1, 0
  {
    hide Paired, PureSet, RunBody, Safe, EnvAlike, MemAlike, Preserved;
    if RunBlock(funcs, lib, f, args, prev, b, env, m, fuel).Some? {
      var body := funcs[f].blocks[b].body;
      PairedParts(funcs[f], env, env', m, m', m0, m0');
      PhisPaired(funcs[f], body, prev, args, env, env', env, env', m, m', m0, m0');
      var e, e' := EnterPhis(body, prev, args, env, env).value, EnterPhis(body, prev, args, env', env').value;
      BodyIsSafe(funcs, pure, f, b);
      BodyPaired(funcs, lib, pure, funcs[f], body, args, e, e', m, m', m0, m0', fuel);
      var r, r' := RunBody(funcs, lib, body, args, e, m, fuel).value, RunBody(funcs, lib, body, args, e', m', fuel).value;
      PairedParts(funcs[f], r.0, r'.0, r.1, r'.1, m0, m0');
      match funcs[f].blocks[b].term
      case Br(t) => BlocksPaired(funcs, lib, pure, f, args, b, t, r.0, r'.0, r.1, r'.1, m0, m0', fuel - 1);
      case CondBr(c, t, e1) =>
        EvalAlike(c, args, r.0, r'.0, m0.next, m0'.next);
        var n := EvalNum(c, args, r.0).value;
        BlocksPaired(funcs, lib, pure, f, args, b, if n != 0 then t else e1, r.0, r'.0, r.1, r'.1, m0, m0', fuel - 1);
      case Ret(o) => EvalAlike(o, args, r.0, r'.0, m0.next, m0'.next);
    }
  }

  lemma BodyIsSafe(funcs: seq<Func>, pure: set<nat>, f: nat, b: nat)
    requires PureSet(funcs, pure) && f in pure && f < |funcs| && b < |funcs[f].blocks|
    ensures Safe(funcs, pure, funcs[f], funcs[f].blocks[b].body)
  {
    hide Func.SideEffect;
  }

  /** A pure call: the same value from the same arguments, whatever the memory, and no change to
      any object that was there before, nor any call of a declared function. */
  lemma PureCall(funcs: seq<Func>, lib: Library, pure: set<nat>, f: nat, args: seq<Val>, m: Mem, m': Mem, fuel: nat)
    requires PureSet(funcs, pure) && f in pure && m.Valid() && m'.Valid()
    ensures SameCall(Invoke(funcs, lib, f, args, m, fuel), Invoke(funcs, lib, f, args, m', fuel), m, m')
    decreases fuel, 2, 0
  {
    hide PureSet, RunBlock, MemAlike, Preserved, SameCall;
    if Invoke(funcs, lib, f, args, m, fuel).Some? {
      ScalarArgs(funcs, lib, pure, f, args, m, fuel);
      NothingOwn(m, m');
      assert Paired(funcs[f], map[], map[], m, m', m, m');
      BlocksPaired(funcs, lib, pure, f, args, 0, 0, map[], map[], m, m', m, m', fuel);
    } else {
      assert SameCall(None, Invoke(funcs, lib, f, args, m', fuel), m, m') by { NoCall(Invoke(funcs, lib, f, args, m', fuel), m, m'); }
    }
  }

  lemma NoCall(r: Option<(int, Mem)>, m: Mem, m': Mem)
    ensures SameCall(None, r, m, m')
  {
  }

  /** The functions the analysis leaves marked pure are such a set. */
  lemma MarkedArePure(funcs: seq<Func>)
    requires forall f :: 0 <= f < |funcs| ==> funcs[f].Valid()
    requires forall f, g: nat :: 0 <= f < |funcs| && funcs[f].Calls(g) ==> g < |funcs|
    ensures PureSet(funcs, set f | 0 <= f < |funcs| && !ReachesImpure(funcs, f))
  {
    hide Func.LocallyImpure, Func.Calls, ReachesImpure;
    forall f | 0 <= f < |funcs| && !ReachesImpure(funcs, f) ensures !funcs[f].LocallyImpure() {
      if funcs[f].LocallyImpure() { ReachesSelf(funcs, f); }
    }
    forall f, g | 0 <= f < |funcs| && 0 <= g < |funcs| && !ReachesImpure(funcs, f) && funcs[f].Calls(g) ensures !ReachesImpure(funcs, g) {
      if ReachesImpure(funcs, g) { ReachesCaller(funcs, f, g); }
    }
  }

  /** The result of the analysis is sound: a call that returns, of a function left marked pure,
      returns the same from any other memory and touches nothing its caller can see. */
  lemma PurityIsSound(funcs: seq<Func>, isPure: map<nat, bool>, lib: Library, f: nat, args: seq<Val>, m: Mem, m': Mem, fuel: nat)
    requires forall g :: 0 <= g < |funcs| ==> funcs[g].Valid() && g in isPure && (isPure[g] <==> !ReachesImpure(funcs, g))
    requires forall g, h: nat :: 0 <= g < |funcs| && funcs[g].Calls(h) ==> h < |funcs|
    requires f < |funcs| && isPure[f] && m.Valid() && m'.Valid()
    ensures SameCall(Invoke(funcs, lib, f, args, m, fuel), Invoke(funcs, lib, f, args, m', fuel), m, m')
  {
    hide ReachesImpure, PureSet, SameCall, Invoke, Func.Calls;
    MarkedArePure(funcs);
    PureCall(funcs, lib, (set g | 0 <= g < |funcs| && !ReachesImpure(funcs, g)), f, args, m, m', fuel);
  }
}
