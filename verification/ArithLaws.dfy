// What the operations of the IR compute, in arithmetic alone.
module ArithLaws {
  import opened Wrappers
  import opened IR

  function Abs(n: int): int { if n < 0 then -n else n }

  /** q is a divided by b, rounded towards zero: what remains is smaller than b and has the sign of a. */
  predicate Truncated(a: int, b: int, q: int) {
    var m := a - b * q;
    Abs(m) < Abs(b) && (m == 0 || (m > 0 <==> a > 0))
  }

  /** The result of an operation of the IR. */
  predicate Results(op: BinOp, a: int, b: int, r: Option<int>) {
    match op
    case Add => r == Some(a + b)
    case Sub => r == Some(a - b)
    case Mul => r == Some(a * b)
    case SDiv => if b == 0 then r == None else r.Some? && Truncated(a, b, r.value)
    case Cmp(EQ) => r == Some(if a == b then 1 else 0)
    case Cmp(NE) => r == Some(if a == b then 0 else 1)
    case Cmp(GT) => r == Some(if a > b then 1 else 0)
    case Cmp(GE) => r == Some(if a < b then 0 else 1)
    case Cmp(LT) => r == Some(if a < b then 1 else 0)
    case Cmp(LE) => r == Some(if a > b then 0 else 1)
  }

  /** A product with a factor that is not zero is no nearer to zero than the other factor. */
  lemma Multiple(b: int, k: int)
    requires b != 0 && k != 0
    ensures b * k >= Abs(b) || b * k <= -Abs(b)
  {
    if k > 0 { Further(b, k); } else { Further(b, -k); assert b * k == -(b * -k); }
  }

  lemma Further(b: int, k: int)
    requires k > 0
    ensures b >= 0 ==> b * k >= b
    ensures b <= 0 ==> b * k <= b
  {
    assert b * k == b * (k - 1) + b;
  }

  /** There is one such quotient. */
  lemma TruncatedOnce(a: int, b: int, q: int, q': int)
    requires b != 0 && Truncated(a, b, q) && Truncated(a, b, q')
    ensures q == q'
  {
    var m, m' := a - b * q, a - b * q';
    assert m' - m == b * (q - q');
    if q != q' { Multiple(b, q - q'); }
  }

  lemma QuotientTruncates(a: int, b: int)
    requires b != 0
    ensures Truncated(a, b, Quotient(a, b))
  {
    var n := if a >= 0 then a else -a;
    var k := n / b;
    assert n == b * k + n % b;
    assert b * -k == -(b * k);
  }

  /** Folding, and every run, computes these results and no others. */
  lemma ComputeResults(op: BinOp, a: int, b: int, r: Option<int>)
    ensures Results(op, a, b, r) <==> r == Compute(op, a, b)
  {
    hide Truncated, Quotient;
    if op == SDiv && b != 0 {
      QuotientTruncates(a, b);
      if Results(op, a, b, r) { TruncatedOnce(a, b, r.value, Quotient(a, b)); }
    }
  }
}
