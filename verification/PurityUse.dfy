// The functions left marked pure are what dead code elimination and value numbering take them for.
module PurityUse {
  import opened Wrappers
  import IR
  import FuncInfoPass
  import DeadCodePass
  import opened PuritySound

  // ----- the world of a caller as memory -----

  function Nums(vs: seq<int>): (r: seq<Val>)
    ensures |r| == |vs| && forall k :: 0 <= k < |vs| ==> r[k] == Num(vs[k])
  {
    seq(|vs|, k requires 0 <= k < |vs| => Num(vs[k]))
  }

  function Ints(vs: seq<Val>): (r: seq<int>)
    ensures |r| == |vs| && forall k :: 0 <= k < |vs| ==> r[k] == (match vs[k] case Num(n) => n case Addr(_, off) => off)
  {
    seq(|vs|, k requires 0 <= k < |vs| => match vs[k] case Num(n) => n case Addr(_, off) => off)
  }

  /** One object holds the whole memory of the caller, at its addresses. */
  const WHOLE := Static(0)

  function Places(addresses: set<int>): (s: set<Key>)
    ensures forall k: Key :: k in s <==> k.0 == WHOLE && k.1 in addresses
  {
    var s := set a | a in addresses :: (WHOLE, a);
    assert forall a: int :: a in addresses ==> (WHOLE, a) in s;
    assert forall k: Key :: k.0 == WHOLE && k.1 in addresses ==> k == (WHOLE, k.1);
    s
  }

  function Encode(w: IR.World): Mem {
    Mem(map k: Key | k in Places(w.memory.Keys) :: Num(w.memory[k.1]), 0,
        seq(|w.trace|, k requires 0 <= k < |w.trace| => (w.trace[k].0, Nums(w.trace[k].1))))
  }

  function Addresses(m: Mem): (s: set<int>)
    ensures forall a :: a in s <==> (WHOLE, a) in m.cells && m.cells[(WHOLE, a)].Num?
  {
    var s := set k | k in m.cells && k.0 == WHOLE && m.cells[k].Num? :: k.1;
    assert forall a: int :: (WHOLE, a) in m.cells && m.cells[(WHOLE, a)].Num? ==> (WHOLE, a).1 in s;
    s
  }

  function Memory(m: Mem): map<int, int> {
    map a | a in Addresses(m) :: m.cells[(WHOLE, a)].v
  }

  function Trace(m: Mem): seq<(nat, seq<int>)> {
    seq(|m.io|, k requires 0 <= k < |m.io| => (m.io[k].0, Ints(m.io[k].1)))
  }

  /** What the caller sees of a memory. */
  function View(m: Mem): IR.World {
    IR.World(Memory(m), Trace(m))
  }

  lemma EncodedCells(w: IR.World, k: Key)
    ensures k in Encode(w).cells <==> k.0 == WHOLE && k.1 in w.memory
    ensures k in Encode(w).cells ==> Encode(w).cells[k] == Num(w.memory[k.1])
  {
  }

  lemma EncodedTrace(w: IR.World)
    ensures Trace(Encode(w)) == w.trace
  {
    var m := Encode(w);
    forall k | 0 <= k < |w.trace| ensures Trace(m)[k] == w.trace[k] {
      assert Ints(Nums(w.trace[k].1)) == w.trace[k].1;
    }
  }

  lemma ViewOfEncoded(w: IR.World)
    ensures View(Encode(w)) == w && Encode(w).Valid()
  {
    hide Encode, Trace;
    EncodedTrace(w);
    var m := Encode(w);
    forall a: int ensures (a in Memory(m) <==> a in w.memory) && (a in Memory(m) ==> Memory(m)[a] == w.memory[a]) {
      EncodedCells(w, (WHOLE, a));
    }
    assert Memory(m) == w.memory;
    forall k | k in m.cells ensures !k.0.Frame? { EncodedCells(w, k); }
  }

  /** A caller sees no difference if its objects are preserved. */
  lemma ViewPreserved(m: Mem, m': Mem, base: nat)
    requires Preserved(m, m', base)
    ensures View(m') == View(m)
  {
    forall a: int ensures (a in Memory(m') <==> a in Memory(m)) && (a in Memory(m) ==> Memory(m')[a] == Memory(m)[a]) {
      assert SameCell(m, m', base, (WHOLE, a));
    }
    assert Memory(m') == Memory(m);
  }

  // ----- calls -----

  /** What a call does to its caller's world: the whole program run by the interpreter of calls. */
  function CallOracle(funcs: seq<FuncInfoPass.Func>, lib: Library, fuel: nat): IR.Oracle {
    (c: nat, vs: seq<int>, w: IR.World) =>
      match Invoke(funcs, lib, c, Nums(vs), Encode(w), fuel)
      case None => None
      case Some(r) => Some((r.0, View(r.1)))
  }

  /** What a pure function returns, from nothing but its arguments. */
  function PureValue(funcs: seq<FuncInfoPass.Func>, lib: Library, fuel: nat, c: nat, vs: seq<int>): Option<int> {
    match Invoke(funcs, lib, c, Nums(vs), Encode(IR.World(map[], [])), fuel)
    case None => None
    case Some(r) => Some(r.0)
  }

  /** A call of a function left marked pure returns a function of its arguments and leaves the world as it was. */
  lemma PureCallIsFunction(funcs: seq<FuncInfoPass.Func>, isPure: map<nat, bool>, lib: Library, fuel: nat, c: nat, vs: seq<int>, w: IR.World)
    requires forall g :: 0 <= g < |funcs| ==> funcs[g].Valid() && g in isPure && (isPure[g] <==> !FuncInfoPass.ReachesImpure(funcs, g))
    requires forall g, h: nat :: 0 <= g < |funcs| && funcs[g].Calls(h) ==> h < |funcs|
    requires c < |funcs| && isPure[c]
    ensures CallOracle(funcs, lib, fuel)(c, vs, w)
         == match PureValue(funcs, lib, fuel, c, vs) case None => None case Some(n) => Some((n, w))
  {
    hide FuncInfoPass.ReachesImpure, Invoke, Preserved, MemAlike, View, Encode, FuncInfoPass.Func.Calls;
    var empty := IR.World(map[], []);
    ViewOfEncoded(w);
    ViewOfEncoded(empty);
    PurityIsSound(funcs, isPure, lib, c, Nums(vs), Encode(w), Encode(empty), fuel);
    PurityIsSound(funcs, isPure, lib, c, Nums(vs), Encode(empty), Encode(w), fuel);
    var r := Invoke(funcs, lib, c, Nums(vs), Encode(w), fuel);
    if r.Some? { ViewPreserved(Encode(w), r.value.1, Encode(w).next); }
  }

  /** Dead code elimination may rely on the analysis: calls of functions left marked pure leave the world alone. */
  lemma MarkedMeetPureCalls(u: DeadCodePass.Unit, funcs: seq<FuncInfoPass.Func>, isPure: map<nat, bool>, lib: Library, fuel: nat)
    requires forall g :: 0 <= g < |funcs| ==> funcs[g].Valid() && g in isPure && (isPure[g] <==> !FuncInfoPass.ReachesImpure(funcs, g))
    requires forall g, h: nat :: 0 <= g < |funcs| && funcs[g].Calls(h) ==> h < |funcs|
    requires forall c :: c in u.pure ==> c < |funcs| && c in isPure && isPure[c]
    ensures DeadCodePass.PureCalls(u, CallOracle(funcs, lib, fuel))
  {
    hide FuncInfoPass.ReachesImpure, CallOracle, PureValue, FuncInfoPass.Func.Calls;
    forall c, vs, w | c in u.pure && CallOracle(funcs, lib, fuel)(c, vs, w).Some?
      ensures CallOracle(funcs, lib, fuel)(c, vs, w).value.1 == w
    {
      PureCallIsFunction(funcs, isPure, lib, fuel, c, vs, w);
    }
  }
}
