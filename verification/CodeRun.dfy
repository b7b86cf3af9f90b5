// Running generated code from a position inside a block.
module CodeRun {
  import opened Cfg
  import opened IR
  import opened CodeSpec
  import opened CodeFrame

  /** One execution: function, arguments, environment. */
  datatype Exe = Exe(f: Function, args: seq<int>, ext: Oracle)

  datatype Point = Point(block: Block, k: nat, s: State)

  ghost predicate NoPhis(f: Function) {
    forall b, k :: 0 <= b < |f.blocks| && 0 <= k < |f.blocks[b].instrs| ==> !f.blocks[b].instrs[k].Phi?
  }

  predicate Inside(x: Exe, p: Point) {
    p.block < |x.f.blocks| && p.k <= |x.f.blocks[p.block].instrs|
  }

  /** What happens from the point on, if at most n more blocks are entered. */
  function Cont(x: Exe, p: Point, n: nat): Outcome
    requires Inside(x, p)
  {
    match ExecAll(x.f.blocks[p.block].instrs[p.k..], x.args, x.ext, p.s)
    case None => Stuck
    case Some(s) =>
      match Next(x.f.blocks[p.block].term, x.args, s.env)
      case None => Stuck
      case Some(Done(v)) => Returned(v, s.world)
      case Some(Goto(c)) => Run(x.f, x.args, x.ext, p.block, c, s, n)
  }

  /** Entering a block is standing at its start. */
  lemma RunIsCont(x: Exe, prev: Block, b: Block, s: State, n: nat)
    requires NoPhis(x.f) && b < |x.f.blocks| && n > 0
    ensures Run(x.f, x.args, x.ext, prev, b, s, n) == Cont(x, Point(b, 0, s), n - 1)
  {
    var code := x.f.blocks[b].instrs;
    EnterNoPhis(code, prev, x.args, s.env, s.env);
    assert code[0..] == code;
    assert s.(env := s.env) == s;
  }

  // ----- from point to point -----

  ghost predicate Passes(x: Exe, p: Point, n: nat, q: Point)
    requires Inside(x, p) && Inside(x, q)
  {
    forall m: nat {:trigger Cont(x, p, m)} :: if m < n then Cont(x, p, m).Running? else Cont(x, p, m) == Cont(x, q, m - n)
  }

  ghost predicate Finishes(x: Exe, p: Point, n: nat, o: Outcome)
    requires Inside(x, p)
  {
    forall m: nat {:trigger Cont(x, p, m)} :: if m < n then Cont(x, p, m).Running? else Cont(x, p, m) == o
  }

  ghost predicate Lasts(x: Exe, p: Point, n: nat)
    requires Inside(x, p)
  {
    forall m: nat {:trigger Cont(x, p, m)} :: m <= n ==> Cont(x, p, m).Running?
  }

  /** After entering n blocks the execution that started at p stands at q. */
  ghost predicate Reaches(x: Exe, p: Point, n: nat, q: Point) {
    && Inside(x, p) && Inside(x, q)
    && Passes(x, p, n, q)
  }

  /** After entering n blocks the execution that started at p ends with the outcome. */
  ghost predicate Ends(x: Exe, p: Point, n: nat, o: Outcome) {
    && Inside(x, p)
    && Finishes(x, p, n, o)
  }

  /** The execution from p enters more than n blocks. */
  ghost predicate StillRunning(x: Exe, p: Point, n: nat) {
    && Inside(x, p)
    && Lasts(x, p, n)
  }

  lemma ReachesTrans(x: Exe, p: Point, n: nat, q: Point, n': nat, r: Point)
    requires Reaches(x, p, n, q) && Reaches(x, q, n', r)
    ensures Reaches(x, p, n + n', r)
  {
    forall m: nat {:trigger Cont(x, p, m)}
      ensures if m < n + n' then Cont(x, p, m).Running? else Cont(x, p, m) == Cont(x, r, m - (n + n'))
    {
      if m >= n { assert Cont(x, p, m) == Cont(x, q, m - n); }
    }
  }

  lemma ReachesEnds(x: Exe, p: Point, n: nat, q: Point, n': nat, o: Outcome)
    requires Reaches(x, p, n, q) && Ends(x, q, n', o)
    ensures Ends(x, p, n + n', o)
  {
    forall m: nat {:trigger Cont(x, p, m)} ensures if m < n + n' then Cont(x, p, m).Running? else Cont(x, p, m) == o {
      if m >= n { assert Cont(x, p, m) == Cont(x, q, m - n); }
    }
  }

  lemma ReachesRunning(x: Exe, p: Point, n: nat, q: Point, n': nat, total: nat)
    requires Reaches(x, p, n, q) && StillRunning(x, q, n') && total <= n + n'
    ensures StillRunning(x, p, total)
  {
    forall m: nat {:trigger Cont(x, p, m)} | m <= total ensures Cont(x, p, m).Running? {
      if m >= n { assert Cont(x, p, m) == Cont(x, q, m - n); }
    }
  }

  /** On the way to q the execution is still running. */
  lemma ReachesStill(x: Exe, p: Point, n: nat, q: Point, m: nat)
    requires Reaches(x, p, n, q) && m < n
    ensures StillRunning(x, p, m)
  {
  }

  lemma ReachesSelf(x: Exe, p: Point)
    requires Inside(x, p)
    ensures Reaches(x, p, 0, p)
  {
  }

  // ----- the drafts inside the finished function -----

  /** The function has these blocks, possibly continued. */
  ghost predicate Within(blocks: seq<Draft>, f: Function) {
    && |blocks| <= |f.blocks|
    && (forall b :: 0 <= b < |blocks| ==> blocks[b].instrs <= f.blocks[b].instrs)
    && (forall b :: 0 <= b < |blocks| && blocks[b].term.Some? ==> f.blocks[b] == BasicBlock(blocks[b].instrs, blocks[b].term.value))
  }

  lemma WithinExtends(a: seq<Draft>, b: seq<Draft>, f: Function)
    requires Extends(a, b) && Within(b, f)
    ensures Within(a, f)
  {
    forall k | 0 <= k < |a| ensures a[k].instrs <= f.blocks[k].instrs {
      assert a[k].instrs <= b[k].instrs <= f.blocks[k].instrs;
    }
  }

  /** The insertion point of the builder. */
  function Here(G: Gen, S: State): Point
    requires G.Placed()
  {
    Point(G.cur, |G.blocks[G.cur].instrs|, S)
  }

  lemma HereInside(x: Exe, G: Gen, S: State)
    requires G.Placed() && Within(G.blocks, x.f)
    ensures Inside(x, Here(G, S))
  {
    assert G.blocks[G.cur].instrs <= x.f.blocks[G.cur].instrs;
  }

  /** Code that comes next in the block is run first. */
  lemma CodeSim(x: Exe, p: Point, code: seq<Instr>, rest: seq<Instr>)
    requires Inside(x, p) && x.f.blocks[p.block].instrs[p.k..] == code + rest
    ensures match ExecAll(code, x.args, x.ext, p.s)
            case None => Ends(x, p, 0, Stuck)
            case Some(s) => Reaches(x, p, 0, Point(p.block, p.k + |code|, s))
  {
    hide ExecAll, Next, Run;
    ExecConcat(code, rest, x.args, x.ext, p.s);
    assert x.f.blocks[p.block].instrs[p.k + |code|..] == (code + rest)[|code|..] == rest;
  }

  /** Emitted code is run from the insertion point. */
  lemma EmitSim(x: Exe, G: Gen, code: seq<Instr>, S: State)
    requires G.Open() && Within(G.Emit(code).blocks, x.f)
    ensures match ExecAll(code, x.args, x.ext, S)
            case None => Ends(x, Here(G, S), 0, Stuck)
            case Some(S') => Reaches(x, Here(G, S), 0, Here(G.Emit(code), S'))
  {
    hide ExecAll, Within, Finishes, Passes;
    var rest := EmittedAt(x, G, code);
    CodeSim(x, Here(G, S), code, rest);
  }

  lemma EmittedAt(x: Exe, G: Gen, code: seq<Instr>) returns (rest: seq<Instr>)
    requires G.Open() && Within(G.Emit(code).blocks, x.f)
    ensures G.cur < |x.f.blocks| && |G.blocks[G.cur].instrs| <= |x.f.blocks[G.cur].instrs|
    ensures x.f.blocks[G.cur].instrs[|G.blocks[G.cur].instrs|..] == code + rest
  {
    var k, full := |G.blocks[G.cur].instrs|, x.f.blocks[G.cur].instrs;
    assert G.Emit(code).blocks[G.cur].instrs == G.blocks[G.cur].instrs + code;
    assert full[..k + |code|] == G.blocks[G.cur].instrs + code;
    rest := full[k + |code|..];
    assert full[k..] == full[..k + |code|][k..] + rest;
  }

  /** At the end of a block that jumps. */
  lemma JumpSim(x: Exe, p: Point, target: Block)
    requires NoPhis(x.f) && Inside(x, p) && p.k == |x.f.blocks[p.block].instrs| && target < |x.f.blocks|
    requires match x.f.blocks[p.block].term
             case Br(t) => t == target
             case CondBr(c, t, e) => (match Eval(c, x.args, p.s.env) case None => false case Some(v) => target == if v != 0 then t else e)
             case Ret(_) => false
    ensures Reaches(x, p, 1, Point(target, 0, p.s))
  {
    assert x.f.blocks[p.block].instrs[p.k..] == [];
    forall m: nat {:trigger Cont(x, p, m)}
      ensures if m < 1 then Cont(x, p, m).Running? else Cont(x, p, m) == Cont(x, Point(target, 0, p.s), m - 1)
    {
      assert Cont(x, p, m) == Run(x.f, x.args, x.ext, p.block, target, p.s, m);
      if m > 0 { RunIsCont(x, p.block, target, p.s, m); }
    }
  }

  lemma ReturnSim(x: Exe, p: Point, o: Operand)
    requires Inside(x, p) && p.k == |x.f.blocks[p.block].instrs| && x.f.blocks[p.block].term == Ret(o)
    requires Eval(o, x.args, p.s.env).Some?
    ensures Ends(x, p, 0, Returned(Eval(o, x.args, p.s.env).value, p.s.world))
  {
    assert x.f.blocks[p.block].instrs[p.k..] == [];
  }
}
