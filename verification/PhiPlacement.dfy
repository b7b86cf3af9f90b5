// Phi placement: iterated dominance frontiers of the storing blocks, and the code
// with one empty phi per variable and block in front.
module PhiPlacement {
  import opened Cfg
  import opened IdomTree
  import opened IdomFixpoint
  import opened DominatorAnalysis
  import opened IR
  import opened Renaming
  import opened RenameSteps
  import opened RenamingMeaning
  import opened Mem2RegMeaning

  type Frontiers = map<Block, set<Block>>

  /** Steps from a block to members of its frontier. */
  ghost predicate FrontierPath(df: Frontiers, p: seq<Block>) {
    forall i :: 0 <= i < |p| - 1 ==> p[i + 1] in Entries(df, p[i])
  }

  /** b is in the iterated dominance frontier of the given blocks. */
  ghost predicate InIterated(df: Frontiers, starts: set<Block>, b: Block) {
    exists p :: 2 <= |p| && FrontierPath(df, p) && p[0] in starts && p[|p| - 1] == b
  }

  lemma IteratedStep(df: Frontiers, starts: set<Block>, a: Block, b: Block)
    requires b in Entries(df, a) && (a in starts || InIterated(df, starts, a))
    ensures InIterated(df, starts, b)
  {
    if a in starts {
      var p := [a, b];
      assert FrontierPath(df, p);
      assert p[0] in starts && p[|p| - 1] == b;
    } else {
      var p :| 2 <= |p| && FrontierPath(df, p) && p[0] in starts && p[|p| - 1] == a;
      var q := p + [b];
      assert FrontierPath(df, q) by {
        forall i | 0 <= i < |q| - 1 ensures q[i + 1] in Entries(df, q[i]) {
          if i < |p| - 1 { assert p[i + 1] in Entries(df, p[i]); }
        }
      }
      assert q[0] in starts && q[|q| - 1] == b;
    }
  }

  /** A set of blocks closed under frontiers, starting from `starts`, holds the iterated frontier:
      the iterated frontier is the least such set. */
  lemma {:induction false} IteratedIsLeast(df: Frontiers, starts: set<Block>, s: set<Block>, p: seq<Block>)
    requires forall a, b :: (a in starts || a in s) && b in Entries(df, a) ==> b in s
    requires 2 <= |p| && FrontierPath(df, p) && p[0] in starts
    ensures p[|p| - 1] in s
    decreases |p|
  {
    assert p[|p| - 1] in Entries(df, p[|p| - 2]);
    if |p| > 2 {
      var q := p[..|p| - 1];
      assert FrontierPath(df, q) by {
        forall i | 0 <= i < |q| - 1 ensures q[i + 1] in Entries(df, q[i]) { assert p[i + 1] in Entries(df, p[i]); }
      }
      IteratedIsLeast(df, starts, s, q);
    }
  }

  /** The blocks with a store to v. */
  ghost predicate Stores(body: seq<Instr>, v: nat) {
    exists k :: 0 <= k < |body| && body[k].Store? && body[k].addr == Local(v)
  }

  /** Block x stores v, counting blocks before b and the first k positions of b. */
  ghost predicate StoredUpTo(code: Code, x: Block, v: nat, b: Block, k: nat) {
    x < |code| && ((x < b && Stores(code[x], v)) || (x == b && k <= |code[x]| && Stores(code[x][..k], v)))
  }

  lemma StoredStep(code: Code, x: Block, v: nat, b: Block, k: nat)
    requires b < |code| && k < |code[b]|
    ensures StoredUpTo(code, x, v, b, k + 1)
       <==> StoredUpTo(code, x, v, b, k) || (x == b && code[b][k].Store? && code[b][k].addr == Local(v))
  {
    StoresSnoc(code[b], k, v);
  }

  lemma StoredNext(code: Code, x: Block, v: nat, b: Block)
    requires b < |code|
    ensures StoredUpTo(code, x, v, b + 1, 0) <==> StoredUpTo(code, x, v, b, |code[b]|)
  {
    assert code[b][..|code[b]|] == code[b];
  }

  lemma StoresSnoc(body: seq<Instr>, k: nat, v: nat)
    requires k < |body|
    ensures Stores(body[..k + 1], v) <==> Stores(body[..k], v) || (body[k].Store? && body[k].addr == Local(v))
  {
    assert forall j :: 0 <= j < k ==> body[..k + 1][j] == body[..k][j];
    assert body[..k + 1][k] == body[k];
  }

  ghost function StoringIn(code: Code, v: nat): set<Block> {
    set b: Block | b in UpTo(|code|) && Stores(code[b], v)
  }

  /** `has` holds exactly the iterated frontiers of the storing blocks. */
  ghost predicate OnFrontiers(code: Code, df: Frontiers, has: set<(Block, nat)>) {
    forall b: Block, v: nat :: (b, v) in has <==> b < |code| && InIterated(df, StoringIn(code, v), b)
  }

  ghost function PhiBlocks(has: set<(Block, nat)>, n: nat, v: nat): set<Block> {
    set b: Block | b in UpTo(n) && (b, v) in has
  }

  /** The worklist of variable v: every block listed stores v or has its phi, phis only where
      the iterated frontier is, and the first i blocks have phis on all their frontier. */
  ghost predicate Working(df: Frontiers, n: nat, starts: set<Block>, v: nat, has0: set<(Block, nat)>,
                          has: set<(Block, nat)>, work: seq<Block>, i: nat)
    requires i <= |work|
  {
    && (forall b: Block, u: nat :: u != v ==> ((b, u) in has <==> (b, u) in has0))
    && (forall j :: 0 <= j < |work| ==> work[j] in starts || (work[j], v) in has)
    && (forall b :: b in starts ==> b in work)
    && (forall b: Block :: (b, v) in has ==> b in work && b < n && InIterated(df, starts, b))
    && (forall j, y :: 0 <= j < i && y in Entries(df, work[j]) ==> (y, v) in has)
  }

  lemma WorkAdd(df: Frontiers, n: nat, starts: set<Block>, v: nat, has0: set<(Block, nat)>,
                has: set<(Block, nat)>, work: seq<Block>, i: nat, y: Block)
    requires i < |work| && Working(df, n, starts, v, has0, has, work, i) && y in Entries(df, work[i]) && y < n
    ensures Working(df, n, starts, v, has0, has + {(y, v)}, work + [y], i)
  {
    IteratedStep(df, starts, work[i], y);
    assert forall j :: 0 <= j < |work| ==> (work + [y])[j] == work[j];
  }

  /** The frontier of the i-th block is finished but for the blocks of todo. */
  lemma WorkNext(df: Frontiers, n: nat, starts: set<Block>, v: nat, has0: set<(Block, nat)>,
                 has: set<(Block, nat)>, work: seq<Block>, i: nat)
    requires i < |work| && Working(df, n, starts, v, has0, has, work, i)
    requires forall y :: y in Entries(df, work[i]) ==> (y, v) in has
    ensures Working(df, n, starts, v, has0, has, work, i + 1)
  {
  }

  lemma PhiBlocksGrow(has: set<(Block, nat)>, n: nat, v: nat, y: Block)
    requires y < n && (y, v) !in has
    ensures PhiBlocks(has, n, v) < PhiBlocks(has + {(y, v)}, n, v)
  {
    assert y in PhiBlocks(has + {(y, v)}, n, v);
  }

  lemma WorkDone(df: Frontiers, n: nat, starts: set<Block>, v: nat, has0: set<(Block, nat)>,
                 has: set<(Block, nat)>, work: seq<Block>)
    requires Working(df, n, starts, v, has0, has, work, |work|)
    ensures forall b: Block :: (b, v) in has <==> b < n && InIterated(df, starts, b)
  {
    var s := PhiBlocks(has, n, v);
    forall a, b | (a in starts || a in s) && b in Entries(df, a) ensures b in s {
      assert a in work;
      var j :| 0 <= j < |work| && work[j] == a;
      assert (b, v) in has;
    }
    forall b: Block | InIterated(df, starts, b) ensures (b, v) in has {
      var p :| 2 <= |p| && FrontierPath(df, p) && p[0] in starts && p[|p| - 1] == b;
      IteratedIsLeast(df, starts, s, p);
    }
  }

  /** Position k of the code of b is a placed phi. */
  predicate PlacedPhi(code: Code, body: Code, b: Block, k: nat) {
    b < |code| == |body| && |body[b]| <= |code[b]| && k < |code[b]| - |body[b]|
  }

  /** `code` is `body` with an empty phi in front for exactly the pairs (block, variable) of
      `has`, each with a register of its own taken from first .. next. */
  ghost predicate PhisPlaced(body: Code, code: Code, has: set<(Block, nat)>, first: nat, next: nat) {
    && |code| == |body| && first <= next
    && (forall b :: 0 <= b < |body| ==> PhisInFront(code[b], body[b]))
    && (forall b: Block, k: nat {:trigger PlacedPhi(code, body, b, k)} :: PlacedPhi(code, body, b, k) ==>
          code[b][k].pairs == [] && first <= code[b][k].dst < next && (b, code[b][k].lval) in has)
    && (forall b: Block, k: nat, b': Block, k': nat {:trigger PlacedPhi(code, body, b, k), PlacedPhi(code, body, b', k')} ::
          PlacedPhi(code, body, b, k) && PlacedPhi(code, body, b', k') && (b != b' || k != k') ==>
            code[b][k].dst != code[b'][k'].dst && (b == b' ==> code[b][k].lval != code[b'][k'].lval))
    && (forall b: Block, v: nat :: (b, v) in has ==> b < |code| && HasPhi(code[b], v))
  }

  lemma PlaceOne(body: Code, code: Code, has: set<(Block, nat)>, first: nat, next: nat, b: Block, v: nat)
    requires PhisPlaced(body, code, has, first, next) && b < |code| && (b, v) !in has
    ensures PhisPlaced(body, code[b := [Phi(next, v, [])] + code[b]], has + {(b, v)}, first, next + 1)
  {
    var code' := code[b := [Phi(next, v, [])] + code[b]];
    var has' := has + {(b, v)};
    assert PhisInFront(code[b], body[b]);
    assert PhisInFront(code'[b], body[b]) by {
      var n := |code'[b]| - |body[b]|;
      assert code'[b][n..] == code[b][n - 1..];
    }
    forall x: Block, k: nat {:trigger PlacedPhi(code', body, x, k)} | PlacedPhi(code', body, x, k)
      ensures code'[x][k].Phi? && code'[x][k].pairs == [] && first <= code'[x][k].dst < next + 1 && (x, code'[x][k].lval) in has'
    {
      if x == b && k > 0 {
        assert PlacedPhi(code, body, b, k - 1);
      } else if x != b {
        assert PlacedPhi(code, body, x, k);
      }
    }
    forall x: Block, k: nat, x': Block, k': nat {:trigger PlacedPhi(code', body, x, k), PlacedPhi(code', body, x', k')}
      | PlacedPhi(code', body, x, k) && PlacedPhi(code', body, x', k') && (x != x' || k != k')
      ensures code'[x][k].dst != code'[x'][k'].dst && (x == x' ==> code'[x][k].lval != code'[x'][k'].lval)
    {
      var j := if x == b then k - 1 else k;
      var j' := if x' == b then k' - 1 else k';
      if j >= 0 { assert PlacedPhi(code, body, x, j); }
      if j' >= 0 { assert PlacedPhi(code, body, x', j'); }
    }
    forall x: Block, u: nat | (x, u) in has' ensures x < |code'| && HasPhi(code'[x], u) {
      if (x, u) in has {
        var k :| 0 <= k < |code[x]| && code[x][k].Phi? && code[x][k].lval == u;
        if x == b { assert code'[x][k + 1] == code[x][k]; }
      } else {
        assert code'[b][0].Phi?;
      }
    }
  }

  lemma PlaceNone(body: Code, first: nat)
    requires forall b, k :: 0 <= b < |body| && 0 <= k < |body[b]| ==> !body[b][k].Phi?
    ensures PhisPlaced(body, body, {}, first, first)
  {
    forall b | 0 <= b < |body| ensures PhisInFront(body[b], body[b]) {
      assert body[b][0..] == body[b];
    }
  }

  /** A placed phi exists exactly for the pairs recorded. */
  lemma HasPhiIff(body: Code, code: Code, has: set<(Block, nat)>, first: nat, next: nat, b: Block, v: nat)
    requires PhisPlaced(body, code, has, first, next) && b < |code|
    ensures HasPhi(code[b], v) <==> (b, v) in has
  {
    if HasPhi(code[b], v) {
      var k :| 0 <= k < |code[b]| && code[b][k].Phi? && code[b][k].lval == v;
      assert PhisInFront(code[b], body[b]);
      var n := |code[b]| - |body[b]|;
      assert forall j :: n <= j < |code[b]| ==> code[b][j] == code[b][n..][j - n];
      assert PlacedPhi(code, body, b, k);
    }
  }

  /** Phis are placed for the variables that are not pending. */
  ghost predicate Placing(body: Code, code: Code, df: Frontiers, has: set<(Block, nat)>, first: nat, next: nat, pending: set<nat>) {
    && PhisPlaced(body, code, has, first, next)
    && forall b: Block, v: nat :: (b, v) in has <==> v !in pending && b < |body| && InIterated(df, StoringIn(body, v), b)
  }

  lemma PlacingStart(body: Code, df: Frontiers, next: nat, pending: set<nat>)
    requires forall b, k :: 0 <= b < |body| && 0 <= k < |body[b]| ==> !body[b][k].Phi?
    requires forall v, b :: b in StoringIn(body, v) ==> v in pending
    ensures Placing(body, body, df, {}, next, next, pending)
  {
    PlaceNone(body, next);
    forall b: Block, v: nat | v !in pending ensures !InIterated(df, StoringIn(body, v), b) {}
  }

  lemma PlacingStep(body: Code, code: Code, df: Frontiers, has: set<(Block, nat)>, first: nat, next: nat, pending: set<nat>,
                    v: nat, code': Code, has': set<(Block, nat)>, next': nat)
    requires Placing(body, code, df, has, first, next, pending) && v in pending
    requires PhisPlaced(body, code', has', first, next')
    requires forall b: Block, u: nat :: u != v ==> ((b, u) in has' <==> (b, u) in has)
    requires forall b: Block :: (b, v) in has' <==> b < |body| && InIterated(df, StoringIn(body, v), b)
    ensures Placing(body, code', df, has', first, next', pending - {v})
  {
  }

  lemma PlacingEnd(body: Code, code: Code, df: Frontiers, has: set<(Block, nat)>, first: nat, next: nat)
    requires Placing(body, code, df, has, first, next, {})
    ensures PhisPlaced(body, code, has, first, next) && OnFrontiers(body, df, has)
  {
  }

  lemma PlacingNow(body: Code, code: Code, df: Frontiers, has: set<(Block, nat)>, first: nat, next: nat, pending: set<nat>, v: nat)
    requires Placing(body, code, df, has, first, next, pending) && v in pending
    ensures PhisPlaced(body, code, has, first, next) && forall b :: (b, v) !in has
  {
  }
}
