// The partial dominator tree built by the fixpoint iteration: `up` maps a block
// to its candidate immediate dominator, `po` to its post-order number.
module IdomTree {
  import opened Cfg

  type Up = map<Block, Block>
  type Order = map<Block, nat>

  function Num(po: Order, b: Block): nat {
    if b in po then po[b] else 0
  }

  /** How far the number of b is below the number of the entry. */
  function Below(po: Order, b: Block): nat {
    if Num(po, b) <= Num(po, ENTRY) then Num(po, ENTRY) - Num(po, b) else 0
  }

  /** Equal numbers mean equal blocks, and nothing is numbered above the entry. */
  ghost predicate NumberedPair(po: Order, a: Block, b: Block) {
    Num(po, a) <= Num(po, ENTRY) && (Num(po, a) == Num(po, b) ==> a == b)
  }

  ghost predicate Numbered(po: Order) {
    && ENTRY in po
    && (forall a, b {:trigger NumberedPair(po, a, b)} :: a in po && b in po ==> NumberedPair(po, a, b))
  }

  /** The link of b stays in the tree and climbs to a larger number. */
  ghost predicate Link(up: Up, po: Order, b: Block) {
    b in up && b in po && up[b] in up && up[b] in po && (b != ENTRY ==> Num(po, b) < Num(po, up[b]))
  }

  ghost predicate Climbs(up: Up, po: Order) {
    && Numbered(po)
    && ENTRY in up && up[ENTRY] == ENTRY
    && (forall b {:trigger Link(up, po, b)} :: b in up ==> Link(up, po, b))
  }

  /** b and everything above it. */
  ghost function Chain(up: Up, po: Order, b: Block): (s: set<Block>)
    requires Climbs(up, po) && b in up
    decreases Below(po, b)
  {
    assert Link(up, po, b);
    assert NumberedPair(po, up[b], b);
    if b == ENTRY then {ENTRY} else {b} + Chain(up, po, up[b])
  }

  /** One climbing step, with the facts that make the recursion below it well founded. */
  lemma Step(up: Up, po: Order, b: Block)
    requires Climbs(up, po) && b in up && b != ENTRY
    ensures Link(up, po, b) && up[b] in up && Num(po, b) < Num(po, up[b])
    ensures Below(po, up[b]) < Below(po, b)
    ensures Chain(up, po, b) == {b} + Chain(up, po, up[b])
  {
    assert Link(up, po, b);
    assert NumberedPair(po, up[b], b);
  }

  lemma {:induction false} ChainBounds(up: Up, po: Order, b: Block)
    requires Climbs(up, po) && b in up
    ensures b in Chain(up, po, b) && ENTRY in Chain(up, po, b)
    ensures forall x :: x in Chain(up, po, b) ==> x in up && x in po && Num(po, b) <= Num(po, x)
    ensures forall x :: x in Chain(up, po, b) && x != b ==> Num(po, b) < Num(po, x)
    decreases Below(po, b)
  {
    assert Link(up, po, b);
    if b != ENTRY {
      Step(up, po, b);
      ChainBounds(up, po, up[b]);
    }
  }

  /** Of two blocks on a chain the one with the larger number lies above the other. */
  lemma {:induction false} ChainAbove(up: Up, po: Order, b: Block, x: Block)
    requires Climbs(up, po) && b in up && x in Chain(up, po, b)
    ensures x in up && Chain(up, po, x) == set z | z in Chain(up, po, b) && Num(po, x) <= Num(po, z)
    decreases Below(po, b)
  {
    ChainBounds(up, po, b);
    if b != x {
      Step(up, po, b);
      ChainBounds(up, po, up[b]);
      ChainAbove(up, po, up[b], x);
    }
  }

  /** Redirecting r leaves every chain that avoids r alone. */
  lemma {:induction false} UpdateAvoiding(up: Up, po: Order, r: Block, y: Block, c: Block)
    requires Climbs(up, po) && Climbs(up[r := y], po)
    requires c in up && r !in Chain(up, po, c)
    ensures Chain(up[r := y], po, c) == Chain(up, po, c)
    decreases Below(po, c)
  {
    ChainBounds(up, po, c);
    if c != ENTRY {
      Step(up, po, c);
      Step(up[r := y], po, c);
      UpdateAvoiding(up, po, r, y, up[c]);
    }
  }

  /** The children of b in the tree of links. */
  function Kids(up: Up, b: Block): set<Block> {
    set c | c in up && c != ENTRY && up[c] == b
  }

  lemma UpdateClimbs(up: Up, po: Order, r: Block, y: Block)
    requires Climbs(up, po) && r in po && r != ENTRY && y in up && Num(po, r) < Num(po, y)
    ensures Climbs(up[r := y], po)
  {
    assert Link(up, po, y);
    forall b {:trigger Link(up[r := y], po, b)} | b in up[r := y] ensures Link(up[r := y], po, b) {
      if b != r { assert Link(up, po, b); }
    }
  }

  /** Redirecting r keeps the part of a chain up to r and continues with the chain of y. */
  lemma {:induction false} UpdateThrough(up: Up, po: Order, r: Block, y: Block, c: Block)
    requires Climbs(up, po) && Climbs(up[r := y], po)
    requires r in po && r != ENTRY && y in up && Num(po, r) < Num(po, y)
    requires c in up && r in Chain(up, po, c)
    ensures Chain(up[r := y], po, c)
         == (set z | z in Chain(up, po, c) && Num(po, z) <= Num(po, r)) + Chain(up, po, y)
    decreases Below(po, c)
  {
    ChainBounds(up, po, c);
    ChainBounds(up, po, y);
    UpdateAvoiding(up, po, r, y, y);
    if c == r {
      Step(up[r := y], po, c);
    } else {
      if c == ENTRY { assert false; }
      Step(up, po, c);
      Step(up[r := y], po, c);
      UpdateThrough(up, po, r, y, up[c]);
    }
  }
}
