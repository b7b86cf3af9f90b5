// Mark-and-sweep removal of dead instructions. Instructions are objects with an
// identity: a block's list holds identities, `table` says what each one is.
module DeadCodePass {
  import opened Wrappers
  import opened Cfg
  import opened IR

  type Id = nat

  /** What an operand can refer to: the value or the cell an instruction makes. */
  datatype Name = Value(reg: nat) | Cell(slot: nat)

  function NamesOf(o: Operand): seq<Name> {
    if o.Reg? then [Value(o.id)] else []
  }

  function NamesOfAddress(a: Address): seq<Name> {
    match a case Local(s) => [Cell(s)] case Memory(p) => NamesOf(p)
  }

  function NamesOfAll(os: seq<Operand>): seq<Name> {
    if os == [] then [] else NamesOf(os[0]) + NamesOfAll(os[1..])
  }

  function NamesOfPairs(ps: seq<(Operand, Block)>): seq<Name> {
    if ps == [] then [] else NamesOf(ps[0].0) + NamesOfPairs(ps[1..])
  }

  /** The operands of an instruction that are instructions, in operand order. */
  function OperandNames(i: Instr): seq<Name> {
    match i
    case Alloca(_, _) => []
    case Load(_, a) => NamesOfAddress(a)
    case Store(v, a) => NamesOf(v) + NamesOfAddress(a)
    case Bin(_, _, a, b) => NamesOf(a) + NamesOf(b)
    case Zext(_, v) => NamesOf(v)
    case Call(_, _, os) => NamesOfAll(os)
    case Phi(_, _, ps) => NamesOfPairs(ps)
  }

  function TermNames(t: Terminator): seq<Name> {
    match t case Br(_) => [] case CondBr(c, _, _) => NamesOf(c) case Ret(v) => NamesOf(v)
  }

  function MadeBy(i: Instr): Option<Name> {
    match i
    case Alloca(s, _) => Some(Cell(s))
    case Store(_, _) => None
    case Load(d, _) => Some(Value(d))
    case Bin(d, _, _, _) => Some(Value(d))
    case Zext(d, _) => Some(Value(d))
    case Call(d, _, _) => Some(Value(d))
    case Phi(d, _, _) => Some(Value(d))
  }

  /** The instruction objects of a function: what each is, and which one makes each name. */
  datatype Unit = Unit(table: map<Id, Instr>, terms: seq<Terminator>, defs: map<Name, Id>, pure: set<nat>) {
    ghost predicate Valid(lists: seq<seq<Id>>) {
      && |lists| == |terms|
      && (forall b, x :: 0 <= b < |lists| && x in lists[b] ==> x in table)
      && (forall x {:trigger OnlyMaker(x)} :: x in table ==> OnlyMaker(x))
      && (forall n {:trigger defs[n]} :: n in defs ==> defs[n] in table)
    }

    /** x is the instruction that operands naming its value or cell refer to. */
    ghost predicate OnlyMaker(x: Id) {
      x in table && (MadeBy(table[x]).Some? ==> MadeBy(table[x]).value in defs && defs[MadeBy(table[x]).value] == x)
    }

    /** Stores and calls that are not known to be pure. */
    predicate Critical(x: Id)
      requires x in table
    {
      var i := table[x];
      i.Store? || (i.Call? && i.callee !in pure)
    }
  }

  function InstrsOf(u: Unit, ids: seq<Id>): (r: seq<Instr>)
    requires forall x :: x in ids ==> x in u.table
    ensures |r| == |ids| && forall k :: 0 <= k < |ids| ==> r[k] == u.table[ids[k]]
  {
    seq(|ids|, k requires 0 <= k < |ids| => u.table[ids[k]])
  }

  function FunctionOf(u: Unit, lists: seq<seq<Id>>): (f: Function)
    requires u.Valid(lists)
    ensures |f.blocks| == |lists|
    ensures forall b :: 0 <= b < |lists| ==> f.blocks[b] == BasicBlock(InstrsOf(u, lists[b]), u.terms[b])
  {
    Function(seq(|lists|, b requires 0 <= b < |lists| => BasicBlock(InstrsOf(u, lists[b]), u.terms[b])))
  }

  function Members(lists: seq<seq<Id>>): set<Id> {
    set b, x | 0 <= b < |lists| && x in lists[b] :: x
  }

  // ----- the closure -----

  /** s holds the makers of all names listed. */
  ghost predicate HasMakers(u: Unit, s: set<Id>, names: seq<Name>) {
    forall n :: n in names && n in u.defs ==> u.defs[n] in s
  }

  /** s holds the critical instructions, what terminators use, and with an instruction what it uses. */
  ghost predicate Closed(u: Unit, lists: seq<seq<Id>>, s: set<Id>)
    requires u.Valid(lists)
  {
    && (forall x :: x in Members(lists) && u.Critical(x) ==> x in s)
    && (forall b :: 0 <= b < |u.terms| ==> HasMakers(u, s, TermNames(u.terms[b])))
    && (forall x :: x in s && x in u.table ==> HasMakers(u, s, OperandNames(u.table[x])))
  }

  ghost predicate LeastClosed(u: Unit, lists: seq<seq<Id>>, s: set<Id>)
    requires u.Valid(lists)
  {
    Closed(u, lists, s) && forall s' :: Closed(u, lists, s') ==> s <= s'
  }

  // ----- what is needed, by chains of uses -----

  /** The instruction has the value of register r, or a local cell, as an operand. */
  ghost predicate Reads(i: Instr, n: Name) {
    match n
    case Cell(c) => (i.Load? && i.addr == Local(c)) || (i.Store? && i.addr == Local(c))
    case Value(r) =>
      match i
      case Alloca(_, _) => false
      case Load(_, a) => a == Memory(Reg(r))
      case Store(v, a) => v == Reg(r) || a == Memory(Reg(r))
      case Bin(_, _, a, b) => a == Reg(r) || b == Reg(r)
      case Zext(_, v) => v == Reg(r)
      case Call(_, _, os) => Reg(r) in os
      case Phi(_, _, ps) => exists k :: 0 <= k < |ps| && ps[k].0 == Reg(r)
  }

  ghost predicate TerminatorReads(t: Terminator, n: Name) {
    match t
    case Br(_) => false
    case CondBr(c, _, _) => n.Value? && c == Reg(n.reg)
    case Ret(v) => n.Value? && v == Reg(n.reg)
  }

  /** y makes a name that x reads. */
  ghost predicate Feeds(u: Unit, y: Id, x: Id) {
    x in u.table && exists n {:trigger Reads(u.table[x], n)} :: Reads(u.table[x], n) && n in u.defs && u.defs[n] == y
  }

  /** y makes a name that a terminator reads. */
  ghost predicate Decides(u: Unit, y: Id) {
    exists b, n {:trigger TerminatorReads(u.terms[b], n)} ::
      0 <= b < |u.terms| && TerminatorReads(u.terms[b], n) && n in u.defs && u.defs[n] == y
  }

  /** A store, or a call of a function that may have effects. */
  ghost predicate Acts(u: Unit, lists: seq<seq<Id>>, x: Id) {
    && (exists b {:trigger lists[b]} :: 0 <= b < |lists| && x in lists[b])
    && x in u.table
    && match u.table[x] case Store(_, _) => true case Call(_, callee, _) => callee !in u.pure case _ => false
  }

  /** A chain of uses from an instruction that acts or decides to x: each makes a name that the one before reads. */
  ghost predicate UseChain(u: Unit, lists: seq<seq<Id>>, ys: seq<Id>, x: Id) {
    && ys != [] && (Acts(u, lists, ys[0]) || Decides(u, ys[0]))
    && (forall k {:trigger ys[k]} :: 0 < k < |ys| ==> Feeds(u, ys[k], ys[k - 1]))
    && ys[|ys| - 1] == x
  }

  ghost predicate Needed(u: Unit, lists: seq<seq<Id>>, x: Id) {
    exists ys :: UseChain(u, lists, ys, x)
  }

  lemma ReadsIff(i: Instr, n: Name)
    ensures n in OperandNames(i) <==> Reads(i, n)
  {
    match i
    case Call(_, _, os) => ReadsAllIff(os, n);
    case Phi(_, _, ps) => ReadsPairsIff(ps, n);
    case _ =>
  }

  lemma {:induction false} ReadsAllIff(os: seq<Operand>, n: Name)
    ensures n in NamesOfAll(os) <==> n.Value? && Reg(n.reg) in os
  {
    if os != [] {
      assert os == [os[0]] + os[1..];
      ReadsAllIff(os[1..], n);
    }
  }

  lemma {:induction false} ReadsPairsIff(ps: seq<(Operand, Block)>, n: Name)
    ensures n in NamesOfPairs(ps) <==> n.Value? && exists k :: 0 <= k < |ps| && ps[k].0 == Reg(n.reg)
  {
    if ps != [] {
      assert ps == [ps[0]] + ps[1..];
      ReadsPairsIff(ps[1..], n);
      assert forall k :: 0 <= k < |ps| - 1 ==> ps[1..][k] == ps[k + 1];
    }
  }

  /** A closed set holds whatever a chain leads to. */
  lemma {:induction false} ChainIsHeld(u: Unit, lists: seq<seq<Id>>, s: set<Id>, ys: seq<Id>, x: Id)
    requires u.Valid(lists) && Closed(u, lists, s) && UseChain(u, lists, ys, x)
    ensures x in s
    decreases |ys|
  {
    var n := |ys| - 1;
    if n == 0 {
      if Decides(u, x) {
        var b, m {:trigger TerminatorReads(u.terms[b], m)} :|
          0 <= b < |u.terms| && TerminatorReads(u.terms[b], m) && m in u.defs && u.defs[m] == x;
        assert HasMakers(u, s, TermNames(u.terms[b])) && m in TermNames(u.terms[b]);
      }
    } else {
      var y := ys[n - 1];
      assert UseChain(u, lists, ys[..n], y);
      ChainIsHeld(u, lists, s, ys[..n], y);
      assert ys[n] == x && Feeds(u, x, y);
      var m {:trigger Reads(u.table[y], m)} :| Reads(u.table[y], m) && m in u.defs && u.defs[m] == x;
      ReadsIff(u.table[y], m);
    }
  }

  lemma ChainGrows(u: Unit, lists: seq<seq<Id>>, x: Id, n: Name)
    requires Needed(u, lists, x) && x in u.table && n in OperandNames(u.table[x]) && n in u.defs
    ensures Needed(u, lists, u.defs[n])
  {
    var ys :| UseChain(u, lists, ys, x);
    ReadsIff(u.table[x], n);
    assert UseChain(u, lists, ys + [u.defs[n]], u.defs[n]);
  }

  lemma RootIsNeeded(u: Unit, lists: seq<seq<Id>>, x: Id)
    requires Acts(u, lists, x) || Decides(u, x)
    ensures Needed(u, lists, x)
  {
    assert UseChain(u, lists, [x], x);
  }

  lemma NeededIsClosed(u: Unit, lists: seq<seq<Id>>, s: set<Id>)
    requires u.Valid(lists) && forall x :: x in s <==> x in u.table && Needed(u, lists, x)
    ensures Closed(u, lists, s)
  {
    forall x | x in Members(lists) && u.Critical(x) ensures x in s { RootIsNeeded(u, lists, x); }
    forall b, n | 0 <= b < |u.terms| && n in TermNames(u.terms[b]) && n in u.defs ensures u.defs[n] in s {
      assert TerminatorReads(u.terms[b], n);
      RootIsNeeded(u, lists, u.defs[n]);
    }
    forall x, n | x in s && n in OperandNames(u.table[x]) && n in u.defs ensures u.defs[n] in s {
      ChainGrows(u, lists, x, n);
    }
  }

  /** The least closed set holds exactly what chains of uses lead to. */
  lemma LeastIsNeeded(u: Unit, lists: seq<seq<Id>>, s: set<Id>)
    requires u.Valid(lists) && LeastClosed(u, lists, s)
    ensures forall x :: x in s <==> Needed(u, lists, x)
  {
    var needed := set x | x in u.table && Needed(u, lists, x);
    NeededIsClosed(u, lists, needed);
    forall x ensures x in s <==> Needed(u, lists, x) {
      if Needed(u, lists, x) {
        var ys :| UseChain(u, lists, ys, x);
        ChainIsHeld(u, lists, s, ys, x);
      }
    }
  }

  function Keep(ids: seq<Id>, s: set<Id>): seq<Id> {
    if ids == [] then [] else (if ids[0] in s then [ids[0]] else []) + Keep(ids[1..], s)
  }

  lemma {:induction false} KeepMembers(ids: seq<Id>, s: set<Id>)
    ensures forall x :: x in Keep(ids, s) <==> x in ids && x in s
  {
    if ids != [] {
      assert ids == [ids[0]] + ids[1..];
      KeepMembers(ids[1..], s);
    }
  }

  lemma {:induction false} KeepAll(ids: seq<Id>, s: set<Id>)
    requires forall x :: x in ids ==> x in s
    ensures Keep(ids, s) == ids
  {
    if ids != [] { KeepAll(ids[1..], s); }
  }

  function KeepLists(lists: seq<seq<Id>>, s: set<Id>): (r: seq<seq<Id>>)
    ensures |r| == |lists| && forall b :: 0 <= b < |lists| ==> r[b] == Keep(lists[b], s)
  {
    seq(|lists|, b requires 0 <= b < |lists| => Keep(lists[b], s))
  }

  lemma KeptIsValid(u: Unit, lists: seq<seq<Id>>, s: set<Id>)
    requires u.Valid(lists)
    ensures u.Valid(KeepLists(lists, s)) && Members(KeepLists(lists, s)) == Members(lists) * s
  {
    forall b | 0 <= b < |lists| { KeepMembers(lists[b], s); }
  }

  /** After a sweep the same set is still the least closed one: a second round marks
      everything that is left and removes nothing. */
  lemma SecondRoundKeepsAll(u: Unit, lists: seq<seq<Id>>, s: set<Id>, s': set<Id>)
    requires u.Valid(lists) && LeastClosed(u, lists, s)
    requires u.Valid(KeepLists(lists, s)) && LeastClosed(u, KeepLists(lists, s), s')
    ensures s' == s && KeepLists(KeepLists(lists, s), s') == KeepLists(lists, s)
  {
    KeptIsValid(u, lists, s);
    assert Closed(u, KeepLists(lists, s), s);
    assert Closed(u, lists, s') by {
      forall x | x in Members(lists) && u.Critical(x) ensures x in s' {
        assert x in Members(KeepLists(lists, s));
      }
    }
    forall b | 0 <= b < |lists| ensures Keep(Keep(lists[b], s), s) == Keep(lists[b], s) {
      KeepMembers(lists[b], s);
      KeepAll(Keep(lists[b], s), s);
    }
  }

  // ----- meaning -----

  /** Calls to pure functions leave the world alone. */
  ghost predicate PureCalls(u: Unit, ext: Oracle) {
    forall c, vs, w :: c in u.pure && ext(c, vs, w).Some? ==> ext(c, vs, w).value.1 == w
  }

  /** A name nobody makes, or made by a kept instruction. */
  ghost predicate Live(u: Unit, s: set<Id>, n: Name) {
    n in u.defs ==> u.defs[n] in s
  }

  /** The two runs agree on live registers and cells and on the world. */
  ghost predicate Agree(u: Unit, s: set<Id>, a: State, b: State) {
    && a.world == b.world
    && (forall r :: Live(u, s, Value(r)) ==> (r in a.env <==> r in b.env) && (r in a.env ==> a.env[r] == b.env[r]))
    && (forall c :: Live(u, s, Cell(c)) ==> (c in a.cells <==> c in b.cells) && (c in a.cells ==> a.cells[c] == b.cells[c]))
  }

  lemma EvalAgree(u: Unit, s: set<Id>, a: State, b: State, o: Operand, args: seq<int>)
    requires Agree(u, s, a, b) && HasMakers(u, s, NamesOf(o))
    ensures Eval(o, args, a.env) == Eval(o, args, b.env)
  {
    if o.Reg? {
      assert Value(o.id) in NamesOf(o);
      assert Live(u, s, Value(o.id));
    }
  }

  lemma {:induction false} EvalAllAgree(u: Unit, s: set<Id>, a: State, b: State, os: seq<Operand>, args: seq<int>)
    requires Agree(u, s, a, b) && HasMakers(u, s, NamesOfAll(os))
    ensures EvalAll(os, args, a.env) == EvalAll(os, args, b.env)
  {
    if os != [] {
      EvalAgree(u, s, a, b, os[0], args);
      EvalAllAgree(u, s, a, b, os[1..], args);
    }
  }

  /** A kept instruction does the same in both runs. */
  lemma ExecKept(u: Unit, s: set<Id>, x: Id, args: seq<int>, ext: Oracle, a: State, b: State)
    requires x in u.table && x in s && Agree(u, s, a, b) && HasMakers(u, s, OperandNames(u.table[x]))
    requires Exec(u.table[x], args, ext, a).Some?
    ensures Exec(u.table[x], args, ext, b).Some?
    ensures Agree(u, s, Exec(u.table[x], args, ext, a).value, Exec(u.table[x], args, ext, b).value)
  {
    match u.table[x]
    case Store(_, _) => ExecKeptMemory(u, s, x, args, ext, a, b);
    case Load(_, _) => ExecKeptMemory(u, s, x, args, ext, a, b);
    case _ => ExecKeptValue(u, s, x, args, ext, a, b);
  }

  lemma ExecKeptMemory(u: Unit, s: set<Id>, x: Id, args: seq<int>, ext: Oracle, a: State, b: State)
    requires x in u.table && Agree(u, s, a, b) && HasMakers(u, s, OperandNames(u.table[x]))
    requires u.table[x].Load? || u.table[x].Store?
    requires Exec(u.table[x], args, ext, a).Some?
    ensures Exec(u.table[x], args, ext, b).Some?
    ensures Agree(u, s, Exec(u.table[x], args, ext, a).value, Exec(u.table[x], args, ext, b).value)
  {
    var i := u.table[x];
    match i
    case Load(_, Local(c)) => assert Cell(c) in OperandNames(i); assert Live(u, s, Cell(c));
    case Load(_, Memory(p)) => EvalAgree(u, s, a, b, p, args);
    case Store(v, Local(c)) =>
      assert HasMakers(u, s, NamesOf(v));
      EvalAgree(u, s, a, b, v, args);
    case Store(v, Memory(p)) =>
      assert HasMakers(u, s, NamesOf(v)) && HasMakers(u, s, NamesOf(p));
      EvalAgree(u, s, a, b, v, args);
      EvalAgree(u, s, a, b, p, args);
  }

  lemma ExecKeptValue(u: Unit, s: set<Id>, x: Id, args: seq<int>, ext: Oracle, a: State, b: State)
    requires x in u.table && Agree(u, s, a, b) && HasMakers(u, s, OperandNames(u.table[x]))
    requires !u.table[x].Load? && !u.table[x].Store?
    requires Exec(u.table[x], args, ext, a).Some?
    ensures Exec(u.table[x], args, ext, b).Some?
    ensures Agree(u, s, Exec(u.table[x], args, ext, a).value, Exec(u.table[x], args, ext, b).value)
  {
    match u.table[x]
    case Alloca(_, _) =>
    case Bin(_, _, l, r) =>
      assert HasMakers(u, s, NamesOf(l)) && HasMakers(u, s, NamesOf(r));
      EvalAgree(u, s, a, b, l, args);
      EvalAgree(u, s, a, b, r, args);
    case Zext(_, v) => EvalAgree(u, s, a, b, v, args);
    case Call(_, _, os) => ExecKeptCall(u, s, x, args, ext, a, b);
    case Phi(_, _, _) =>
  }

  lemma ExecKeptCall(u: Unit, s: set<Id>, x: Id, args: seq<int>, ext: Oracle, a: State, b: State)
    requires x in u.table && u.table[x].Call? && Agree(u, s, a, b) && HasMakers(u, s, OperandNames(u.table[x]))
    requires Exec(u.table[x], args, ext, a).Some?
    ensures Exec(u.table[x], args, ext, b).Some?
    ensures Agree(u, s, Exec(u.table[x], args, ext, a).value, Exec(u.table[x], args, ext, b).value)
  {
    EvalAllAgree(u, s, a, b, u.table[x].args, args);
  }

  /** A kept instruction uses live names; a removed one is not critical and makes a dead name. */
  ghost predicate Sorted(u: Unit, s: set<Id>, x: Id) {
    && x in u.table
    && (x in s ==> HasMakers(u, s, OperandNames(u.table[x])))
    && (x !in s ==> !u.Critical(x) && (MadeBy(u.table[x]).Some? ==> !Live(u, s, MadeBy(u.table[x]).value)))
  }

  lemma ClosedSorts(u: Unit, lists: seq<seq<Id>>, s: set<Id>, ids: seq<Id>)
    requires u.Valid(lists) && Closed(u, lists, s) && forall x :: x in ids ==> x in Members(lists)
    ensures forall x {:trigger Sorted(u, s, x)} :: x in ids ==> Sorted(u, s, x)
  {
    forall x {:trigger Sorted(u, s, x)} | x in ids ensures Sorted(u, s, x) {
      assert u.OnlyMaker(x);
    }
  }

  /** A removed instruction changes nothing that is live. */
  lemma ExecRemoved(u: Unit, s: set<Id>, x: Id, args: seq<int>, ext: Oracle, a: State, b: State)
    requires Sorted(u, s, x) && x !in s && PureCalls(u, ext) && Agree(u, s, a, b)
    requires Exec(u.table[x], args, ext, a).Some?
    ensures Agree(u, s, Exec(u.table[x], args, ext, a).value, b)
  {
    match u.table[x]
    case Call(_, callee, os) =>
      var vs := EvalAll(os, args, a.env).value;
      assert ext(callee, vs, a.world).value.1 == a.world;
    case _ =>
  }

  lemma {:induction false} ExecAllAgree(u: Unit, s: set<Id>, ids: seq<Id>, args: seq<int>, ext: Oracle, a: State, b: State)
    requires PureCalls(u, ext) && Agree(u, s, a, b)
    requires forall x {:trigger Sorted(u, s, x)} :: x in ids ==> Sorted(u, s, x)
    requires forall x :: x in ids ==> x in u.table
    requires ExecAll(InstrsOf(u, ids), args, ext, a).Some?
    ensures forall x :: x in Keep(ids, s) ==> x in u.table
    ensures ExecAll(InstrsOf(u, Keep(ids, s)), args, ext, b).Some?
    ensures Agree(u, s, ExecAll(InstrsOf(u, ids), args, ext, a).value, ExecAll(InstrsOf(u, Keep(ids, s)), args, ext, b).value)
  {
    KeepMembers(ids, s);
    if ids != [] {
      var x, rest := ids[0], ids[1..];
      KeepMembers(rest, s);
      assert InstrsOf(u, ids)[1..] == InstrsOf(u, rest);
      var a' := Exec(u.table[x], args, ext, a).value;
      assert Sorted(u, s, x);
      if x in s {
        ExecKept(u, s, x, args, ext, a, b);
        ExecAllAgree(u, s, rest, args, ext, a', Exec(u.table[x], args, ext, b).value);
        assert Keep(ids, s)[0] == x && Keep(ids, s)[1..] == Keep(rest, s);
        assert InstrsOf(u, Keep(ids, s))[1..] == InstrsOf(u, Keep(rest, s));
      } else {
        ExecRemoved(u, s, x, args, ext, a, b);
        ExecAllAgree(u, s, rest, args, ext, a', b);
        assert Keep(ids, s) == Keep(rest, s);
      }
    }
  }

  /** The environments of the two runs agree on live registers. */
  ghost predicate EnvAgree(u: Unit, s: set<Id>, a: Env, b: Env) {
    forall r :: Live(u, s, Value(r)) ==> (r in a <==> r in b) && (r in a ==> a[r] == b[r])
  }

  lemma {:induction false} PhiValueNames(pairs: seq<(Operand, Block)>, prev: Block)
    ensures forall n :: n in NamesOf(PhiValue(pairs, prev)) ==> n in NamesOfPairs(pairs)
  {
    if pairs != [] { PhiValueNames(pairs[1..], prev); }
  }

  /** The environment after one instruction of the phi phase. */
  function PhiStep(i: Instr, prev: Block, args: seq<int>, at: Env, env: Env): Env {
    if i.Phi? then Assign(env, i.dst, Eval(PhiValue(i.pairs, prev), args, at)) else env
  }

  lemma EnterFirst(code: seq<Instr>, prev: Block, args: seq<int>, at: Env, env: Env)
    requires code != []
    ensures EnterPhis(code, prev, args, at, env) == EnterPhis(code[1..], prev, args, at, PhiStep(code[0], prev, args, at, env))
  {
  }

  lemma EnterNothing(prev: Block, args: seq<int>, at: Env, env: Env)
    ensures EnterPhis([], prev, args, at, env) == env
  {
  }

  lemma PhiKept(u: Unit, s: set<Id>, x: Id, prev: Block, args: seq<int>, at1: Env, at2: Env, env1: Env, env2: Env)
    requires Sorted(u, s, x) && x in s && EnvAgree(u, s, at1, at2) && EnvAgree(u, s, env1, env2)
    ensures EnvAgree(u, s, PhiStep(u.table[x], prev, args, at1, env1), PhiStep(u.table[x], prev, args, at2, env2))
  {
    var i := u.table[x];
    if i.Phi? {
      PhiValueNames(i.pairs, prev);
      var o := PhiValue(i.pairs, prev);
      if o.Reg? { assert Value(o.id) in NamesOf(o) && Live(u, s, Value(o.id)); }
      assert Eval(o, args, at1) == Eval(o, args, at2);
    }
  }

  lemma PhiRemoved(u: Unit, s: set<Id>, x: Id, prev: Block, args: seq<int>, at1: Env, env1: Env, env2: Env)
    requires Sorted(u, s, x) && x !in s && EnvAgree(u, s, env1, env2)
    ensures EnvAgree(u, s, PhiStep(u.table[x], prev, args, at1, env1), env2)
  {
  }

  /** Entering a block: kept phis read live values of the state before, removed ones write dead registers. */
  lemma {:induction false} EnterAgree(u: Unit, s: set<Id>, ids: seq<Id>, prev: Block, args: seq<int>,
                                      at1: Env, at2: Env, env1: Env, env2: Env)
    requires forall x {:trigger Sorted(u, s, x)} :: x in ids ==> Sorted(u, s, x)
    requires forall x :: x in ids ==> x in u.table
    requires EnvAgree(u, s, at1, at2) && EnvAgree(u, s, env1, env2)
    ensures forall x :: x in Keep(ids, s) ==> x in u.table
    ensures EnvAgree(u, s, EnterPhis(InstrsOf(u, ids), prev, args, at1, env1),
                     EnterPhis(InstrsOf(u, Keep(ids, s)), prev, args, at2, env2))
  {
    hide Sorted, EnvAgree, PhiStep, EnterPhis, Keep;
    KeepMembers(ids, s);
    if ids == [] {
      KeepNothing(s);
      EnterNothing(prev, args, at1, env1);
      EnterNothing(prev, args, at2, env2);
    } else {
      var x, rest := ids[0], ids[1..];
      var i := u.table[x];
      var env1' := PhiStep(i, prev, args, at1, env1);
      KeepFirst(u, ids, s);
      EnterFirst(InstrsOf(u, ids), prev, args, at1, env1);
      assert Sorted(u, s, x);
      if x in s {
        var env2' := PhiStep(i, prev, args, at2, env2);
        PhiKept(u, s, x, prev, args, at1, at2, env1, env2);
        EnterAgree(u, s, rest, prev, args, at1, at2, env1', env2');
        EnterFirst(InstrsOf(u, Keep(ids, s)), prev, args, at2, env2);
      } else {
        PhiRemoved(u, s, x, prev, args, at1, env1, env2);
        EnterAgree(u, s, rest, prev, args, at1, at2, env1', env2);
      }
    }
  }

  lemma KeepNothing(s: set<Id>)
    ensures Keep([], s) == []
  {
  }

  /** The kept instructions by the first of all. */
  lemma KeepFirst(u: Unit, ids: seq<Id>, s: set<Id>)
    requires ids != [] && forall x :: x in ids ==> x in u.table
    ensures ids[0] in u.table && (forall x :: x in Keep(ids, s) ==> x in u.table) && (forall x :: x in Keep(ids[1..], s) ==> x in u.table)
    ensures InstrsOf(u, ids)[0] == u.table[ids[0]] && InstrsOf(u, ids)[1..] == InstrsOf(u, ids[1..])
    ensures if ids[0] in s then
              InstrsOf(u, Keep(ids, s)) != [] && InstrsOf(u, Keep(ids, s))[0] == u.table[ids[0]]
              && InstrsOf(u, Keep(ids, s))[1..] == InstrsOf(u, Keep(ids[1..], s))
            else Keep(ids, s) == Keep(ids[1..], s)
  {
    hide Keep;
    KeepCons(ids, s);
    KeepMembers(ids, s);
    KeepMembers(ids[1..], s);
    assert ids[0] in ids && forall x :: x in ids[1..] ==> x in ids;
  }

  lemma KeepCons(ids: seq<Id>, s: set<Id>)
    requires ids != []
    ensures Keep(ids, s) == (if ids[0] in s then [ids[0]] else []) + Keep(ids[1..], s)
  {
  }

  lemma KeepFrom(ids: seq<Id>, s: set<Id>, k: nat, kept: seq<Id>)
    requires k < |ids|
    ensures ids[k] in ids && kept + Keep(ids[k..], s) == kept + (if ids[k] in s then [ids[k]] else []) + Keep(ids[k + 1..], s)
  {
    assert ids[k..][1..] == ids[k + 1..];
    KeepCons(ids[k..], s);
  }

  /** One block: the states stay in agreement. */
  lemma BlockAgree(u: Unit, lists: seq<seq<Id>>, s: set<Id>, args: seq<int>, ext: Oracle, prev: Block, b: Block, x: State, y: State)
    requires u.Valid(lists) && Closed(u, lists, s) && PureCalls(u, ext) && Agree(u, s, x, y) && b < |lists|
    requires u.Valid(KeepLists(lists, s))
    requires ExecBlock(FunctionOf(u, lists), args, ext, prev, b, x).Some?
    ensures var x', y' := ExecBlock(FunctionOf(u, lists), args, ext, prev, b, x),
                          ExecBlock(FunctionOf(u, KeepLists(lists, s)), args, ext, prev, b, y);
            y'.Some? && Agree(u, s, x'.value, y'.value)
            && Next(u.terms[b], args, x'.value.env) == Next(u.terms[b], args, y'.value.env)
  {
    assert HasMakers(u, s, TermNames(u.terms[b]));
    var ids := lists[b];
    assert forall z :: z in ids ==> z in Members(lists);
    ClosedSorts(u, lists, s, ids);
    hide EnterPhis, ExecAll, PureCalls, Closed, Next;
    EnterAgree(u, s, ids, prev, args, x.env, y.env, x.env, y.env);
    var x0 := x.(env := EnterPhis(InstrsOf(u, ids), prev, args, x.env, x.env));
    var y0 := y.(env := EnterPhis(InstrsOf(u, Keep(ids, s)), prev, args, y.env, y.env));
    ExecAllAgree(u, s, ids, args, ext, x0, y0);
    NextAgree(u, s, ExecAll(InstrsOf(u, ids), args, ext, x0).value,
              ExecAll(InstrsOf(u, Keep(ids, s)), args, ext, y0).value, u.terms[b], args);
  }

  lemma {:induction false} RunAgree(u: Unit, lists: seq<seq<Id>>, s: set<Id>, args: seq<int>, ext: Oracle,
                                    prev: Block, b: Block, x: State, y: State, fuel: nat)
    requires u.Valid(lists) && Closed(u, lists, s) && PureCalls(u, ext) && Agree(u, s, x, y)
    requires u.Valid(KeepLists(lists, s))
    requires Run(FunctionOf(u, lists), args, ext, prev, b, x, fuel) != Stuck
    ensures Run(FunctionOf(u, KeepLists(lists, s)), args, ext, prev, b, y, fuel)
         == Run(FunctionOf(u, lists), args, ext, prev, b, x, fuel)
    decreases fuel
  {
    hide ExecBlock, Agree, Closed, PureCalls, Next;
    if fuel > 0 && b < |lists| {
      BlockAgree(u, lists, s, args, ext, prev, b, x, y);
      var x' := ExecBlock(FunctionOf(u, lists), args, ext, prev, b, x).value;
      var y' := ExecBlock(FunctionOf(u, KeepLists(lists, s)), args, ext, prev, b, y).value;
      match Next(u.terms[b], args, x'.env).value
      case Done(_) => WorldsAgree(u, s, x', y');
      case Goto(c) => RunAgree(u, lists, s, args, ext, b, c, x', y', fuel - 1);
    } else {
      WorldsAgree(u, s, x, y);
    }
  }

  lemma WorldsAgree(u: Unit, s: set<Id>, x: State, y: State)
    requires Agree(u, s, x, y)
    ensures x.world == y.world
  {
  }

  lemma NextAgree(u: Unit, s: set<Id>, x: State, y: State, t: Terminator, args: seq<int>)
    requires Agree(u, s, x, y) && HasMakers(u, s, TermNames(t))
    ensures Next(t, args, x.env) == Next(t, args, y.env)
  {
    match t
    case Br(_) =>
    case CondBr(c, _, _) => EvalAgree(u, s, x, y, c, args);
    case Ret(v) => EvalAgree(u, s, x, y, v, args);
  }

  /** Removing everything outside a closed set, cycles of dead phis included, changes no
      result and no effect of a run that does not get stuck. */
  lemma SweepPreservesMeaning(u: Unit, lists: seq<seq<Id>>, s: set<Id>, args: seq<int>, ext: Oracle, w: World, fuel: nat)
    requires u.Valid(lists) && Closed(u, lists, s) && PureCalls(u, ext)
    requires Start(FunctionOf(u, lists), args, ext, w, fuel) != Stuck
    ensures u.Valid(KeepLists(lists, s))
    ensures Start(FunctionOf(u, KeepLists(lists, s)), args, ext, w, fuel) == Start(FunctionOf(u, lists), args, ext, w, fuel)
  {
    KeptIsValid(u, lists, s);
    var st := State(map[], map[], w);
    RunAgree(u, lists, s, args, ext, ENTRY, ENTRY, st, st, fuel);
  }

  // ----- the pass -----

  /** What has been marked so far is needed, and only instructions on the worklist may have
      unmarked operands. */
  ghost predicate Marking(u: Unit, lists: seq<seq<Id>>, marked: set<Id>, work: seq<Id>)
    requires u.Valid(lists)
  {
    && (forall s :: Closed(u, lists, s) ==> marked <= s)
    && (forall x :: x in work ==> x in marked)
    && (forall x :: x in marked && x in u.table && x !in work ==> HasMakers(u, marked, OperandNames(u.table[x])))
  }

  /** s marks everything the program needs and nothing else. */
  ghost predicate Swept(u: Unit, lists: seq<seq<Id>>, lists': seq<seq<Id>>)
    requires u.Valid(lists)
  {
    exists s :: LeastClosed(u, lists, s) && lists' == KeepLists(lists, s)
  }

  lemma SweptRefines(u: Unit, lists: seq<seq<Id>>, lists': seq<seq<Id>>, args: seq<int>, ext: Oracle, w: World, fuel: nat)
    requires u.Valid(lists) && Swept(u, lists, lists') && PureCalls(u, ext)
    requires Start(FunctionOf(u, lists), args, ext, w, fuel) != Stuck
    ensures u.Valid(lists')
    ensures Start(FunctionOf(u, lists'), args, ext, w, fuel) == Start(FunctionOf(u, lists), args, ext, w, fuel)
  {
    var s :| LeastClosed(u, lists, s) && lists' == KeepLists(lists, s);
    SweepPreservesMeaning(u, lists, s, args, ext, w, fuel);
  }

  lemma MarkingDone(u: Unit, lists: seq<seq<Id>>, marked: set<Id>)
    requires u.Valid(lists) && Marking(u, lists, marked, []) && Rooted(u, lists, marked)
    ensures LeastClosed(u, lists, marked)
  {
  }

  /** The critical instructions and the operands of terminators are marked. */
  ghost predicate Rooted(u: Unit, lists: seq<seq<Id>>, marked: set<Id>)
    requires u.Valid(lists)
  {
    && (forall x :: x in Members(lists) && u.Critical(x) ==> x in marked)
    && (forall b :: 0 <= b < |u.terms| ==> HasMakers(u, marked, TermNames(u.terms[b])))
  }

  lemma MarkingTerm(u: Unit, lists: seq<seq<Id>>, marked: set<Id>, work: seq<Id>, b: Block, marked': set<Id>, work': seq<Id>)
    requires u.Valid(lists) && Marking(u, lists, marked, work) && b < |u.terms|
    requires marked' == marked + set n | n in TermNames(u.terms[b]) && n in u.defs :: u.defs[n]
    requires forall x :: x in work' <==> x in work || x in marked' - marked
    ensures Marking(u, lists, marked', work') && HasMakers(u, marked', TermNames(u.terms[b]))
  {
  }

  lemma MarkingPop(u: Unit, lists: seq<seq<Id>>, marked: set<Id>, work: seq<Id>, now: Id, rest: seq<Id>, marked': set<Id>, work': seq<Id>)
    requires u.Valid(lists) && Marking(u, lists, marked, work) && now in marked && now in u.table
    requires forall x :: x in work ==> x == now || x in rest
    requires marked' == marked + set n | n in OperandNames(u.table[now]) && n in u.defs :: u.defs[n]
    requires forall x :: x in work' <==> x in rest || x in marked' - marked
    requires forall x :: x in rest ==> x in work
    ensures Marking(u, lists, marked', work')
  {
  }

  lemma MembersSnoc(lists: seq<seq<Id>>, last: seq<Id>, x: Id)
    ensures x in Members(lists + [last]) <==> x in Members(lists) || x in last
  {
    var all := lists + [last];
    if x in last { assert x in all[|lists|]; }
    if x in Members(lists) {
      var b :| 0 <= b < |lists| && x in lists[b];
      assert x in all[b];
    }
  }

  lemma SameLists(lists: seq<seq<Id>>, s: set<Id>)
    requires Members(lists) <= s
    ensures KeepLists(lists, s) == lists
  {
    forall b | 0 <= b < |lists| ensures Keep(lists[b], s) == lists[b] {
      assert forall x :: x in lists[b] ==> x in Members(lists);
      KeepAll(lists[b], s);
    }
  }

  class DeadCode {
    const u: Unit
    var lists: seq<seq<Id>>
    var marked: set<Id>
    var workList: seq<Id>
    var insCount: nat

    constructor (u: Unit, lists: seq<seq<Id>>)
      requires u.Valid(lists)
      ensures this.u == u && this.lists == lists
    {
      this.u, this.lists := u, lists;
      marked, workList, insCount := {}, [], 0;
    }

    /** Marks the makers of the names an instruction or terminator uses. */
    method MarkOperands(names: seq<Name>)
      requires forall n :: n in names && n in u.defs ==> u.defs[n] in u.table
      modifies this`marked, this`workList
      ensures marked == old(marked) + set n | n in names && n in u.defs :: u.defs[n]
      ensures old(workList) <= workList
      ensures forall x :: x in workList <==> x in old(workList) || x in marked - old(marked)
      ensures marked == old(marked) ==> workList == old(workList)
    {
      for k := 0 to |names|
        invariant marked == old(marked) + set n | n in names[..k] && n in u.defs :: u.defs[n]
        invariant old(workList) <= workList
        invariant forall x :: x in workList <==> x in old(workList) || x in marked - old(marked)
        invariant marked == old(marked) ==> workList == old(workList)
      {
        var n := names[k];
        assert names[..k + 1] == names[..k] + [n];
        if n in u.defs && u.defs[n] !in marked {
          marked := marked + {u.defs[n]};
          workList := workList + [u.defs[n]];
        }
      }
      assert names[..|names|] == names;
    }

    method Mark()
      requires u.Valid(lists)
      modifies this`marked, this`workList
      ensures LeastClosed(u, lists, marked)
      ensures forall x :: x in marked <==> Needed(u, lists, x)
    {
      workList, marked := [], {};
      MarkCritical();
      for b := 0 to |lists|
        invariant Marking(u, lists, marked, workList) && marked <= u.table.Keys
        invariant forall x :: x in Members(lists) && u.Critical(x) ==> x in marked
        invariant forall c :: 0 <= c < b ==> HasMakers(u, marked, TermNames(u.terms[c]))
      {
        ghost var m, w := marked, workList;
        MarkOperands(TermNames(u.terms[b]));
        MarkingTerm(u, lists, m, w, b, marked, workList);
      }
      while workList != []
        invariant Marking(u, lists, marked, workList) && Rooted(u, lists, marked) && marked <= u.table.Keys
        decreases u.table.Keys - marked, |workList|
      {
        var now := workList[0];
        ghost var m, w := marked, workList;
        assert w == [now] + w[1..];
        workList := workList[1..];
        MarkOperands(OperandNames(u.table[now]));
        MarkingPop(u, lists, m, w, now, w[1..], marked, workList);
        assert marked == m || u.table.Keys - marked < u.table.Keys - m;
      }
      MarkingDone(u, lists, marked);
      LeastIsNeeded(u, lists, marked);
    }

    method MarkCritical()
      requires u.Valid(lists) && workList == [] && marked == {}
      modifies this`marked, this`workList
      ensures forall x :: x in marked <==> x in Members(lists) && u.Critical(x)
      ensures forall x :: x in workList <==> x in marked
    {
      for b := 0 to |lists|
        invariant forall x :: x in marked <==> x in Members(lists[..b]) && x in u.table && u.Critical(x)
        invariant forall x :: x in workList <==> x in marked
      {
        for k := 0 to |lists[b]|
          invariant forall x :: x in marked <==> (x in Members(lists[..b]) || x in lists[b][..k]) && x in u.table && u.Critical(x)
          invariant forall x :: x in workList <==> x in marked
        {
          var x := lists[b][k];
          assert lists[b][..k + 1] == lists[b][..k] + [x];
          if u.Critical(x) {
            marked := marked + {x};
            workList := workList + [x];
          }
        }
        assert lists[b][..|lists[b]|] == lists[b];
        assert lists[..b + 1] == lists[..b] + [lists[b]];
        forall x ensures x in Members(lists[..b + 1]) <==> x in Members(lists[..b]) || x in lists[b] {
          MembersSnoc(lists[..b], lists[b], x);
        }
      }
      assert lists[..|lists|] == lists;
    }

    /** Erases what is not marked. */
    method Sweep() returns (changed: bool)
      requires u.Valid(lists)
      modifies this`lists, this`insCount
      ensures lists == KeepLists(old(lists), marked)
      ensures changed <==> !(Members(old(lists)) <= marked)
      ensures insCount == old(insCount) + |Members(old(lists)) - marked|
    {
      var waitDel: set<Id> := {};
      for b := 0 to |lists|
        invariant waitDel == Members(lists[..b]) - marked && insCount == old(insCount) && lists == old(lists)
      {
        for k := 0 to |lists[b]|
          invariant forall x :: x in waitDel <==> (x in Members(lists[..b]) || x in lists[b][..k]) && x !in marked
          invariant insCount == old(insCount) && lists == old(lists)
        {
          assert lists[b][..k + 1] == lists[b][..k] + [lists[b][k]];
          if lists[b][k] !in marked {
            waitDel := waitDel + {lists[b][k]};
          }
        }
        assert lists[b][..|lists[b]|] == lists[b];
        assert lists[..b + 1] == lists[..b] + [lists[b]];
        forall x ensures x in Members(lists[..b + 1]) <==> x in Members(lists[..b]) || x in lists[b] {
          MembersSnoc(lists[..b], lists[b], x);
        }
      }
      assert lists[..|lists|] == lists;
      for b := 0 to |lists|
        invariant |lists| == |old(lists)| && insCount == old(insCount)
        invariant forall c :: 0 <= c < |lists| ==> lists[c] == if c < b then Keep(old(lists)[c], marked) else old(lists)[c]
      {
        assert forall x :: x in lists[b] ==> (x !in waitDel <==> x in marked) by {
          forall x | x in lists[b] ensures x in Members(old(lists)) {}
        }
        var kept := Without(lists[b], waitDel);
        lists := lists[b := kept];
      }
      insCount := insCount + |waitDel|;
      changed := waitDel != {};
    }

    method Without(ids: seq<Id>, del: set<Id>) returns (kept: seq<Id>)
      requires forall x :: x in ids ==> (x !in del <==> x in marked)
      ensures kept == Keep(ids, marked)
    {
      kept := [];
      for k := 0 to |ids|
        invariant kept + Keep(ids[k..], marked) == Keep(ids, marked)
      {
        KeepFrom(ids, marked, k, kept);
        if ids[k] !in del {
          kept := kept + [ids[k]];
        }
      }
    }

    /** Rounds of marking and sweeping until nothing changes: never more than two. */
    method Run() returns (ghost rounds: nat)
      requires u.Valid(lists)
      modifies this
      ensures Swept(u, old(lists), lists) && 1 <= rounds <= 2
      ensures u.Valid(lists) && LeastClosed(u, lists, marked) && Members(lists) <= marked
      ensures forall x :: x in Members(lists) <==> x in Members(old(lists)) && Needed(u, old(lists), x)
    {
      rounds := 0;
      var changed := true;
      ghost var s: set<Id> := {};
      while changed
        invariant rounds <= 2 && u.Valid(lists)
        invariant rounds == 0 ==> changed && lists == old(lists)
        invariant rounds > 0 ==> LeastClosed(u, old(lists), s) && lists == KeepLists(old(lists), s)
        invariant !changed ==> rounds > 0 && LeastClosed(u, lists, marked) && Members(lists) <= marked
        invariant rounds == 2 ==> !changed
        decreases 2 - rounds
      {
        ghost var before := lists;
        Mark();
        KeptIsValid(u, before, marked);
        changed := Sweep();
        if rounds == 0 {
          s := marked;
          if !changed {
            SameLists(before, marked);
          }
        } else {
          SecondRoundKeepsAll(u, old(lists), s, marked);
          KeptIsValid(u, old(lists), s);
        }
        rounds := rounds + 1;
      }
      LeastIsNeeded(u, old(lists), s);
      KeptIsValid(u, old(lists), s);
    }
  }
}
