// The part of the light IR that the passes rewrite, and its meaning.
// An instruction that yields a value is named by a number (`dst`); an alloca is
// named by its slot. Integers are mathematical.
module IR {
  import opened Wrappers
  import opened Cfg

  datatype Operand = Const(n: int) | Arg(index: nat) | Reg(id: nat) | Undef

  /** A local cell made by an alloca, or a computed address (a global or a gep result). */
  datatype Address = Local(slot: nat) | Memory(pointer: Operand)

  datatype CmpOp = EQ | NE | GT | GE | LT | LE

  datatype BinOp = Add | Sub | Mul | SDiv | Cmp(rel: CmpOp)

  datatype Instr =
    | Alloca(slot: nat, scalar: bool)
    | Load(dst: nat, addr: Address)
    | Store(val: Operand, addr: Address)
    | Bin(dst: nat, op: BinOp, lhs: Operand, rhs: Operand)
    | Zext(dst: nat, val: Operand)
    | Call(dst: nat, callee: nat, args: seq<Operand>)
    | Phi(dst: nat, lval: nat, pairs: seq<(Operand, Block)>)

  datatype Terminator = Br(target: Block) | CondBr(cond: Operand, ifTrue: Block, ifFalse: Block) | Ret(val: Operand)

  datatype BasicBlock = BasicBlock(instrs: seq<Instr>, term: Terminator)

  datatype Function = Function(blocks: seq<BasicBlock>)

  /** Successors in the order in which the branch creators append them. */
  function Successors(t: Terminator): seq<Block> {
    match t
    case Br(target) => [target]
    case CondBr(_, ifTrue, ifFalse) => [ifFalse, ifTrue]
    case Ret(_) => []
  }

  /** The edge lists of the graph are those of the terminators. */
  ghost predicate HasGraph(f: Function, g: Graph) {
    g.Valid() && |f.blocks| == g.Size() && forall b :: 0 <= b < |f.blocks| ==> g.succ[b] == Successors(f.blocks[b].term)
  }

  // ----- meaning -----

  /** Memory other than the local cells, and the calls made so far. */
  datatype World = World(memory: map<int, int>, trace: seq<(nat, seq<int>)>)

  /** What calls do: any partial function of callee, arguments and world. */
  type Oracle = (nat, seq<int>, World) -> Option<(int, World)>

  type Env = map<nat, int>

  datatype State = State(env: Env, cells: map<nat, int>, world: World)

  datatype Outcome = Returned(val: int, world: World) | Running(world: World) | Stuck

  function Eval(o: Operand, args: seq<int>, env: Env): Option<int> {
    match o
    case Const(n) => Some(n)
    case Arg(k) => if k < |args| then Some(args[k]) else None
    case Reg(r) => if r in env then Some(env[r]) else None
    case Undef => None
  }

  function EvalAll(os: seq<Operand>, args: seq<int>, env: Env): Option<seq<int>> {
    if os == [] then Some([])
    else
      var v :- Eval(os[0], args, env);
      var vs :- EvalAll(os[1..], args, env);
      Some([v] + vs)
  }

  /** Division truncates towards zero. */
  function Quotient(a: int, b: int): int
    requires b != 0
  {
    if a >= 0 then a / b else -((-a) / b)
  }

  function Compare(c: CmpOp, a: int, b: int): bool {
    match c
    case EQ => a == b
    case NE => a != b
    case GT => a > b
    case GE => a >= b
    case LT => a < b
    case LE => a <= b
  }

  function Compute(op: BinOp, a: int, b: int): Option<int> {
    match op
    case Add => Some(a + b)
    case Sub => Some(a - b)
    case Mul => Some(a * b)
    case SDiv => if b == 0 then None else Some(Quotient(a, b))
    case Cmp(c) => Some(if Compare(c, a, b) then 1 else 0)
  }

  /** The value a phi takes on the edge from prev; None when no pair names prev. */
  function PhiValue(pairs: seq<(Operand, Block)>, prev: Block): Operand {
    if pairs == [] then Undef
    else if pairs[0].1 == prev then pairs[0].0
    else PhiValue(pairs[1..], prev)
  }

  function Assign(env: Env, r: nat, v: Option<int>): Env {
    if v.Some? then env[r := v.value] else env - {r}
  }

  /** All phis read the environment at the end of prev. */
  function EnterPhis(code: seq<Instr>, prev: Block, args: seq<int>, at: Env, env: Env): Env {
    if code == [] then env
    else
      var env' := if code[0].Phi? then Assign(env, code[0].dst, Eval(PhiValue(code[0].pairs, prev), args, at)) else env;
      EnterPhis(code[1..], prev, args, at, env')
  }

  /** One instruction of a block body; phis have been executed on entry. */
  function Exec(i: Instr, args: seq<int>, ext: Oracle, s: State): Option<State> {
    match i
    case Alloca(slot, _) => Some(s.(cells := s.cells - {slot}))
    case Load(dst, Local(slot)) =>
      if slot in s.cells then Some(s.(env := s.env[dst := s.cells[slot]])) else None
    case Load(dst, Memory(p)) =>
      var a :- Eval(p, args, s.env);
      if a in s.world.memory then Some(s.(env := s.env[dst := s.world.memory[a]])) else None
    case Store(val, Local(slot)) =>
      var v :- Eval(val, args, s.env);
      Some(s.(cells := s.cells[slot := v]))
    case Store(val, Memory(p)) =>
      var v :- Eval(val, args, s.env);
      var a :- Eval(p, args, s.env);
      Some(s.(world := s.world.(memory := s.world.memory[a := v])))
    case Bin(dst, op, lhs, rhs) =>
      var a :- Eval(lhs, args, s.env);
      var b :- Eval(rhs, args, s.env);
      var v :- Compute(op, a, b);
      Some(s.(env := s.env[dst := v]))
    case Zext(dst, val) =>
      var v :- Eval(val, args, s.env);
      Some(s.(env := s.env[dst := v]))
    case Call(dst, callee, os) =>
      var vs :- EvalAll(os, args, s.env);
      var r :- ext(callee, vs, s.world);
      Some(s.(env := s.env[dst := r.0], world := r.1))
    case Phi(_, _, _) => Some(s)
  }

  function ExecAll(code: seq<Instr>, args: seq<int>, ext: Oracle, s: State): Option<State> {
    if code == [] then Some(s)
    else
      var s' :- Exec(code[0], args, ext, s);
      ExecAll(code[1..], args, ext, s')
  }

  lemma ExecOne(i: Instr, args: seq<int>, ext: Oracle, s: State)
    ensures ExecAll([i], args, ext, s) == Exec(i, args, ext, s)
  {
    assert [i][1..] == [];
  }

  lemma {:induction false} EnterNoPhis(code: seq<Instr>, prev: Block, args: seq<int>, at: Env, env: Env)
    requires forall k :: 0 <= k < |code| ==> !code[k].Phi?
    ensures EnterPhis(code, prev, args, at, env) == env
  {
    if code != [] { EnterNoPhis(code[1..], prev, args, at, env); }
  }

  lemma {:induction false} ExecConcat(a: seq<Instr>, b: seq<Instr>, args: seq<int>, ext: Oracle, s: State)
    ensures ExecAll(a + b, args, ext, s)
         == match ExecAll(a, args, ext, s) case None => None case Some(s') => ExecAll(b, args, ext, s')
  {
    if a == [] {
      assert a + b == b;
    } else {
      assert (a + b)[0] == a[0] && (a + b)[1..] == a[1..] + b;
      match Exec(a[0], args, ext, s)
      case None =>
      case Some(s') => ExecConcat(a[1..], b, args, ext, s');
    }
  }

  /** Where control goes after a block: a next block, or a result. */
  datatype Control = Goto(block: Block) | Done(val: int)

  function Next(t: Terminator, args: seq<int>, env: Env): Option<Control> {
    match t
    case Br(target) => Some(Goto(target))
    case CondBr(cond, ifTrue, ifFalse) =>
      var c :- Eval(cond, args, env);
      Some(Goto(if c != 0 then ifTrue else ifFalse))
    case Ret(val) =>
      var v :- Eval(val, args, env);
      Some(Done(v))
  }

  /** The state after the phis and the body of block b, entered from prev. */
  function ExecBlock(f: Function, args: seq<int>, ext: Oracle, prev: Block, b: Block, s: State): Option<State>
    requires b < |f.blocks|
  {
    var code := f.blocks[b].instrs;
    ExecAll(code, args, ext, s.(env := EnterPhis(code, prev, args, s.env, s.env)))
  }

  /** Runs at most `fuel` blocks, starting in block b entered from prev. */
  function Run(f: Function, args: seq<int>, ext: Oracle, prev: Block, b: Block, s: State, fuel: nat): Outcome
    decreases fuel
  {
    if fuel == 0 then Running(s.world)
    else if b >= |f.blocks| then Stuck
    else match ExecBlock(f, args, ext, prev, b, s)
      case None => Stuck
      case Some(s') =>
        match Next(f.blocks[b].term, args, s'.env)
        case None => Stuck
        case Some(Done(v)) => Returned(v, s'.world)
        case Some(Goto(c)) => Run(f, args, ext, b, c, s', fuel - 1)
  }

  /** A call of f: no registers, no initialised cells. */
  function Start(f: Function, args: seq<int>, ext: Oracle, w: World, fuel: nat): Outcome {
    Run(f, args, ext, ENTRY, ENTRY, State(map[], map[], w), fuel)
  }

  /** f' does what f does, for every input and oracle, as long as f does not get stuck. */
  ghost predicate Refines(f: Function, f': Function) {
    forall args, ext, w, fuel ::
      Start(f, args, ext, w, fuel) != Stuck ==> Start(f', args, ext, w, fuel) == Start(f, args, ext, w, fuel)
  }

  // ----- syntax of uses and definitions -----

  function RegsOf(o: Operand): set<nat> {
    if o.Reg? then {o.id} else {}
  }

  function RegsOfAll(os: seq<Operand>): set<nat> {
    set i | 0 <= i < |os| && os[i].Reg? :: os[i].id
  }

  function RegsOfAddress(a: Address): set<nat> {
    match a case Local(_) => {} case Memory(p) => RegsOf(p)
  }

  /** The registers an instruction reads; phi operands are read on the incoming edges. */
  function Uses(i: Instr): set<nat> {
    match i
    case Alloca(_, _) => {}
    case Load(_, a) => RegsOfAddress(a)
    case Store(v, a) => RegsOf(v) + RegsOfAddress(a)
    case Bin(_, _, a, b) => RegsOf(a) + RegsOf(b)
    case Zext(_, v) => RegsOf(v)
    case Call(_, _, os) => RegsOfAll(os)
    case Phi(_, _, _) => {}
  }

  function TermUses(t: Terminator): set<nat> {
    match t case Br(_) => {} case CondBr(c, _, _) => RegsOf(c) case Ret(v) => RegsOf(v)
  }

  function Def(i: Instr): set<nat> {
    match i
    case Alloca(_, _) => {}
    case Store(_, _) => {}
    case Load(d, _) => {d}
    case Bin(d, _, _, _) => {d}
    case Zext(d, _) => {d}
    case Call(d, _, _) => {d}
    case Phi(d, _, _) => {d}
  }

  function Defs(code: seq<Instr>): set<nat> {
    set k, r | 0 <= k < |code| && r in Def(code[k]) :: r
  }
}
