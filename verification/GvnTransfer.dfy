// The transfer function of global value numbering, and what it means for its partition to be true
// of an execution.
module GvnTransfer {
  import opened Wrappers
  import IR
  import opened Gvn

  /** A phi takes val1 on the edge from block from1 and val2 on the edge from block from2. */
  datatype Inst =
    | Bin(id: nat, op: IR.BinOp, lhs: Value, rhs: Value)
    | Zext(id: nat, val: Value)
    | Load(id: nat, addr: Value)
    | Gep(id: nat, ops: seq<Value>)
    | Call(id: nat, callee: nat, pure: bool, void: bool, args: seq<Value>)
    | Alloca(id: nat)
    | Store(val: Value, addr: Value)
    | Phi(id: nat, val1: Value, from1: nat, val2: Value, from2: nat)

  /** Instructions the transfer function looks at: not phis, and with a value. */
  predicate HasValue(i: Inst) {
    !i.Store? && !i.Phi? && !(i.Call? && i.void)
  }

  // ----- value expressions -----

  /** The leader of the last class that has v. */
  function FindLeader(P: Partition, v: Value): Option<Value> {
    if P == [] then None
    else if v in P[|P| - 1].members then P[|P| - 1].leader
    else FindLeader(P[..|P| - 1], v)
  }

  function LeaderOf(P: Partition, v: Value): Value {
    match FindLeader(P, v) case None => v case Some(l) => l
  }

  function Leaders(P: Partition, vs: seq<Value>): (r: seq<Expr>)
    ensures |r| == |vs| && forall k :: 0 <= k < |vs| ==> r[k] == Leaf(LeaderOf(P, vs[k]))
  {
    seq(|vs|, k requires 0 <= k < |vs| => Leaf(LeaderOf(P, vs[k])))
  }

  function ValueExpr(P: Partition, i: Inst): Expr
    requires HasValue(i)
  {
    match i
    case Bin(_, op, l, r) => Binary(op, Leaf(LeaderOf(P, l)), Leaf(LeaderOf(P, r)))
    case Zext(_, v) => Multi([Leaf(LeaderOf(P, v))], ZextKind)
    case Load(_, addr) => Leaf(addr)
    case Gep(_, ops) => Multi(Leaders(P, ops), GepKind)
    case Call(id, f, pure, _, args) =>
      var es := Leaders(P, [FuncVar(f)] + args);
      if pure then Multi(es, PureCall) else Unique(es, id)
    case Alloca(id) => Unique([], id)
  }

  // ----- constants -----

  /** The value as a constant, itself or through the leader of its class. */
  function FindConst(P: Partition, v: Value): Option<int> {
    if v.IntConst? then Some(v.n)
    else if P == [] then None
    else if v in P[0].members && P[0].leader.Some? && P[0].leader.value.IntConst? then Some(P[0].leader.value.n)
    else FindConst(P[1..], v)
  }

  /** The leader of a new class: a constant if the operands are; None when folding divides by zero. */
  function NewLeader(P: Partition, i: Inst): Option<Value>
    requires HasValue(i)
  {
    match i
    case Bin(id, op, l, r) =>
      (match (FindConst(P, l), FindConst(P, r))
       case (Some(a), Some(b)) => (match IR.Compute(op, a, b) case None => None case Some(n) => Some(IntConst(n)))
       case _ => Some(Instr(id)))
    case Zext(id, v) => (match FindConst(P, v) case None => Some(Instr(id)) case Some(n) => Some(IntConst(n)))
    case _ => Some(Instr(i.id))
  }

  // ----- the transfer function -----

  predicate Matches(c: Class, ve: Expr, vpf: Option<Expr>) {
    c.expr == Some(ve) || (vpf.Some? && c.phi == vpf)
  }

  /** The first class that matches gets the new member. */
  function AddToMatch(P: Partition, ve: Expr, vpf: Option<Expr>, v: Value): Option<Partition> {
    if P == [] then None
    else if Matches(P[0], ve, vpf) then Some([P[0].(members := P[0].members + {v})] + P[1..])
    else
      var rest :- AddToMatch(P[1..], ve, vpf, v);
      Some([P[0]] + rest)
  }

  /** v is taken out of its class, and a class that has become empty out of the partition. */
  function Without(P: Partition, v: Value): Partition {
    if P == [] then []
    else if v in P[0].members then
      (if P[0].members == {v} then [] else [P[0].(members := P[0].members - {v})]) + Without(P[1..], v)
    else [P[0]] + Without(P[1..], v)
  }

  lemma {:induction false} WithoutNothing(P: Partition, v: Value)
    requires forall c :: c in P ==> v !in c.members
    ensures Without(P, v) == P
  {
    if P != [] {
      assert P[0] in P && forall c :: c in P[1..] ==> c in P;
      WithoutNothing(P[1..], v);
    }
  }

  datatype Numbering = Numbering(classes: Partition, next: nat)

  /** One instruction that is in no class, with value expression ve and value phi vpf; None if
      folding its operands would divide by zero. */
  function Place(N: Numbering, i: Inst, ve: Expr, vpf: Option<Expr>): Option<Numbering>
    requires HasValue(i)
  {
    match if i.Load? then None else AddToMatch(N.classes, ve, vpf, Instr(i.id))
    case Some(P) => Some(N.(classes := P))
    case None =>
      var leader :- NewLeader(N.classes, i);
      Some(Numbering(Insert(N.classes, Class(N.next, Some(leader), Some(ve), None, {Instr(i.id)})), N.next + 1))
  }

  // ----- meaning -----

  /** The parts of an execution that are the same throughout. A pure call depends on its
      arguments alone. */
  datatype Machine = Machine(params: seq<int>, globals: map<nat, int>, gep: seq<int> -> int,
                             pureCall: (nat, seq<int>) -> Option<int>,
                             call: (nat, seq<int>, IR.World) -> Option<(int, IR.World)>,
                             alloca: IR.World -> (int, IR.World))

  type Env = map<nat, int>

  datatype State = State(env: Env, world: IR.World)

  function Val(v: Value, M: Machine, env: Env): Option<int> {
    match v
    case IntConst(n) => Some(n)
    case Param(k) => if k < |M.params| then Some(M.params[k]) else None
    case GlobalVar(g) => if g in M.globals then Some(M.globals[g]) else None
    case FuncVar(f) => Some(f)
    case Instr(id) => if id in env then Some(env[id]) else None
  }

  function Vals(vs: seq<Value>, M: Machine, env: Env): Option<seq<int>> {
    if vs == [] then Some([])
    else
      var a :- Val(vs[0], M, env);
      var rest :- Vals(vs[1..], M, env);
      Some([a] + rest)
  }

  function Exec(i: Inst, M: Machine, s: State): Option<State> {
    match i
    case Bin(id, op, l, r) =>
      var a :- Val(l, M, s.env);
      var b :- Val(r, M, s.env);
      var n :- IR.Compute(op, a, b);
      Some(s.(env := s.env[id := n]))
    case Zext(id, v) =>
      var a :- Val(v, M, s.env);
      Some(s.(env := s.env[id := a]))
    case Load(id, addr) =>
      var a :- Val(addr, M, s.env);
      if a in s.world.memory then Some(s.(env := s.env[id := s.world.memory[a]])) else None
    case Gep(id, ops) =>
      var vs :- Vals(ops, M, s.env);
      Some(s.(env := s.env[id := M.gep(vs)]))
    case Call(id, f, pure, void, args) =>
      var vs :- Vals(args, M, s.env);
      if pure then
        var n :- M.pureCall(f, vs);
        Some(if void then s else s.(env := s.env[id := n]))
      else
        var r :- M.call(f, vs, s.world);
        Some(State(if void then s.env else s.env[id := r.0], r.1))
    case Alloca(id) =>
      var r := M.alloca(s.world);
      Some(State(s.env[id := r.0], r.1))
    case Store(v, addr) =>
      var n :- Val(v, M, s.env);
      var a :- Val(addr, M, s.env);
      Some(s.(world := s.world.(memory := s.world.memory[a := n])))
    case Phi(_, _, _, _, _) => Some(s)
  }

  function ExecAll(block: seq<Inst>, M: Machine, s: State): Option<State> {
    if block == [] then Some(s)
    else
      var s' :- Exec(block[0], M, s);
      ExecAll(block[1..], M, s')
  }

  /** The value of an expression made of values; the expressions of loads (whose leaf is the
      address), impure calls and allocas stand for no value. */
  function EvalExpr(e: Expr, M: Machine, env: Env): Option<int> {
    match e
    case Binary(op, Leaf(l), Leaf(r)) =>
      var a :- Val(l, M, env);
      var b :- Val(r, M, env);
      IR.Compute(op, a, b)
    case Multi(es, ZextKind) => if |es| == 1 && es[0].Leaf? then Val(es[0].c, M, env) else None
    case Multi(es, GepKind) =>
      var vs :- LeafVals(es, M, env);
      Some(M.gep(vs))
    case Multi(es, PureCall) =>
      if es == [] || !es[0].Leaf? || !es[0].c.FuncVar? then None
      else
        var vs :- LeafVals(es[1..], M, env);
        M.pureCall(es[0].c.f, vs)
    case _ => None
  }

  function LeafVals(es: seq<Expr>, M: Machine, env: Env): Option<seq<int>> {
    if es == [] then Some([])
    else if !es[0].Leaf? then None
    else
      var a :- Val(es[0].c, M, env);
      var rest :- LeafVals(es[1..], M, env);
      Some([a] + rest)
  }

  predicate HasMeaning(e: Expr) {
    e.Binary? || e.Multi?
  }

  /** By which edge of its join (true: the front one) the execution came, for the joins at which the
      value numbers were given out. Only the numbers of classes with a value phi matter. */
  type Sides = nat -> bool

  /** The side of a value phi for the edge taken. */
  function Side(phi: Expr, front: bool): Expr
    requires phi.PhiOf?
  {
    if front then phi.lhs else phi.rhs
  }

  function SideVal(phi: Expr, front: bool, M: Machine, env: Env): Option<int> {
    if phi.PhiOf? && Side(phi, front).Leaf? then Val(Side(phi, front).c, M, env) else None
  }

  /** Everything the class says of its member m is so. */
  ghost predicate TrueOf(c: Class, m: Value, M: Machine, env: Env, sides: Sides) {
    && c.leader.Some? && Val(m, M, env).Some?
    && Val(c.leader.value, M, env) == Val(m, M, env)
    && (c.expr.Some? && HasMeaning(c.expr.value) ==> EvalExpr(c.expr.value, M, env) == Val(m, M, env))
    && (c.phi.Some? ==> SideVal(c.phi.value, sides(c.index), M, env) == Val(m, M, env))
  }

  /** All members of a class have the value of its leader, of its expression and, on the edge by
      which its join was entered, of its value phi. */
  ghost predicate Sound(P: Partition, M: Machine, env: Env, sides: Sides) {
    && (forall c, m {:trigger TrueOf(c, m, M, env, sides)} :: c in P && m in c.members ==> TrueOf(c, m, M, env, sides))
    && (forall c :: c in P ==> c.members != {} && !(exists f :: FuncVar(f) in c.members))
    && (forall c :: c in P && c.expr.Some? && c.expr.value.Unique? ==> c.expr.value.id in env)
  }
}
