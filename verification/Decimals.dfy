/** Powers of ten, and division that truncates toward zero. */
module Decimals {

  function Pow10(n: nat): (p: nat)
    ensures p > 0
  {
    if n == 0 then 1 else 10 * Pow10(n - 1)
  }

  lemma {:induction false} PowAdd(m: nat, n: nat)
    ensures Pow10(m + n) == Pow10(m) * Pow10(n)
  {
    if m > 0 {
      PowAdd(m - 1, n);
      assert Pow10(m) * Pow10(n) == 10 * (Pow10(m - 1) * Pow10(n));
    }
  }

  /** Division as on bigints: the quotient loses its fraction, whatever its sign. */
  function TruncDiv(a: int, b: int): int
    requires b > 0
  {
    if a >= 0 then a / b else -((-a) / b)
  }

  lemma MulMono(x: int, y: int, b: int)
    requires x <= y && b >= 0
    ensures x * b <= y * b
  {
    assert (y - x) * b >= 0;
  }

  lemma MulNext(x: int, b: int)
    ensures (x + 1) * b == x * b + b
  {
  }

  lemma DivBounds(a: int, b: int)
    requires b > 0
    ensures a / b * b <= a < a / b * b + b
    ensures a == a / b * b + a % b
  {
  }

  lemma QuotientIs(a: int, b: int, q: int)
    requires b > 0 && q * b <= a < q * b + b
    ensures a / b == q
  {
    var e := a / b;
    DivBounds(a, b);
    MulNext(e, b);
    MulNext(q, b);
    if e < q {
      MulMono(e + 1, q, b);
    } else if e > q {
      MulMono(q + 1, e, b);
    }
  }

  lemma MulSwap(q: int, b: int, c: int)
    ensures q * c * b == q * (b * c)
  {
  }

  lemma DivDivNat(a: nat, b: int, c: int)
    requires b > 0 && c > 0
    ensures b * c > 0 && a / b / c == a / (b * c)
  {
    var p := a / b;
    var q := p / c;
    assert b * c > 0;
    DivBounds(a, b);
    DivBounds(p, c);
    MulNext(q, c);
    MulNext(p, b);
    MulMono(q * c, p, b);
    MulMono(p + 1, (q + 1) * c, b);
    MulSwap(q, b, c);
    MulSwap(q + 1, b, c);
    MulNext(q, b * c);
    QuotientIs(a, b * c, q);
  }

  /** Two divisions are one by the product. */
  lemma TruncDivTwice(a: int, b: int, c: int)
    requires b > 0 && c > 0
    ensures b * c > 0 && TruncDiv(TruncDiv(a, b), c) == TruncDiv(a, b * c)
  {
    var n := if a >= 0 then a else -a;
    DivDivNat(n, b, c);
    var p := n / b;
    DivBounds(n, b);
    if p < 0 {
      MulMono(p + 1, 0, b);
      MulNext(p, b);
    }
    assert p >= 0;
    assert TruncDiv(a, b) == if a >= 0 then p else -p;
    assert p == 0 ==> p / c == 0;
  }

  lemma MulDivNat(a: nat, b: int)
    requires b > 0
    ensures a * b / b == a
  {
    QuotientIs(a * b, b, a);
  }

  /** Multiplying first is undone. */
  lemma TruncDivUndoes(a: int, b: int)
    requires b > 0
    ensures TruncDiv(a * b, b) == a
  {
    if a >= 0 {
      MulDivNat(a, b);
      assert a * b >= 0;
    } else {
      MulDivNat(-a, b);
      assert a * b < 0 && -(a * b) == (-a) * b;
    }
  }

  /** Dividing first is undone exactly for multiples; otherwise less than one divisor goes missing. */
  lemma TruncDivRemainder(a: int, b: int)
    requires b > 0
    ensures a >= 0 ==> 0 <= TruncDiv(a, b) * b <= a < TruncDiv(a, b) * b + b
    ensures a <= 0 ==> TruncDiv(a, b) * b - b < a <= TruncDiv(a, b) * b <= 0
    ensures TruncDiv(a, b) * b == a <==> a % b == 0
  {
    var n := if a >= 0 then a else -a;
    DivBounds(n, b);
    MulNegates(n / b, b);
    NegatedRemainder(a, b);
    if n / b < 0 {
      MulMono(n / b + 1, 0, b);
      MulNext(n / b, b);
    }
    MulMono(0, n / b, b);
  }

  lemma MulNegates(x: int, b: int)
    ensures (-x) * b == -(x * b)
  {
  }

  lemma NegatedRemainder(a: int, b: int)
    requires b > 0
    ensures a % b == 0 <==> (-a) % b == 0
  {
    var q, r := a / b, a % b;
    DivBounds(a, b);
    DivBounds(-a, b);
    MulNegates(q, b);
    if r == 0 {
      QuotientIs(-a, b, -q);
    } else {
      MulNegates(q + 1, b);
      MulNext(q, b);
      QuotientIs(-a, b, -(q + 1));
    }
  }
}
