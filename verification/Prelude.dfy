/**
 Small things several components share: an optional value, the smaller and the larger of two
 numbers, sums and means of series with what appending and joining do to them, square roots as a
 parameter, and a few facts about products and quotients that proofs elsewhere need by name.
 */
module Prelude {

  datatype Option<+T> = None | Some(value: T) {
    function GetOr(default: T): T {
      if Some? then value else default
    }
  }

  function Min(a: real, b: real): real { if a <= b then a else b }

  function Max(a: real, b: real): real { if a >= b then a else b }

  function Abs(a: real): real { if a >= 0.0 then a else -a }

  function Sum(s: seq<real>): real
  {
    if s == [] then 0.0 else Sum(s[..|s| - 1]) + s[|s| - 1]
  }

  function Mean(s: seq<real>): real
    requires s != []
  {
    Sum(s) / |s| as real
  }

  function LastN<T>(s: seq<T>, n: nat): seq<T> {
    if |s| <= n then s else s[|s| - n..]
  }

  function Square(x: real): real { x * x }

  /** Square roots are a parameter of the model: any exact one will do. */
  ghost predicate IsSqrt(sqrt: real -> real) {
    forall x: real | x >= 0.0 :: sqrt(x) >= 0.0 && sqrt(x) * sqrt(x) == x
  }

  lemma SumAppend(s: seq<real>, x: real)
    ensures Sum(s + [x]) == Sum(s) + x
  {
    assert (s + [x])[..|s|] == s;
  }

  lemma {:induction false} SumConcat(a: seq<real>, b: seq<real>)
    ensures Sum(a + b) == Sum(a) + Sum(b)
  {
    if b == [] {
      assert a + b == a;
    } else {
      var n := |b| - 1;
      SumConcat(a, b[..n]);
      assert (a + b)[..|a + b| - 1] == a + b[..n];
    }
  }

  lemma ProductSign(x: real, y: real)
    requires x >= 0.0 && y >= 0.0
    ensures x * y >= 0.0
    ensures x > 0.0 && y > 0.0 ==> x * y > 0.0
  {
  }

  lemma ProductOrder(a: real, b: real, c: real)
    requires c > 0.0
    ensures a < b ==> a * c < b * c
    ensures a > b ==> a * c > b * c
  {
  }

  lemma QuotientUnique(x: real, d: real, q: real)
    requires d > 0.0 && q * d == x
    ensures x / d == q
  {
  }

  lemma QuotientTimes(x: real, d: real)
    requires d != 0.0
    ensures x / d * d == x
  {
  }

  lemma QuotientRange(total: real, n: real, lo: real, hi: real)
    requires n > 0.0 && lo * n <= total <= hi * n
    ensures lo <= total / n <= hi
  {
    var q := total / n;
    assert q * n == total;
    ProductOrder(q, lo, n);
    ProductOrder(q, hi, n);
  }

  lemma LargerSquare(x: real, d: real)
    requires x > d > 0.0
    ensures Square(x) > Square(d)
  {
    ProductOrder(d, x, x);
    ProductOrder(d, x, d);
  }

  lemma SquareSigns(x: real)
    ensures Square(x) == Square(Abs(x))
    ensures x == 0.0 ==> Square(x) == 0.0
  {
    assert (-x) * (-x) == x * x;
  }

  lemma SquarePositive(x: real)
    requires x > 0.0
    ensures Square(x) > 0.0
  {
    var half := x / 2.0;
    LargerSquare(x, half);
    assert x * x == 4.0 * (half * half);
  }

  lemma SquareOrder(x: real, d: real)
    requires d > 0.0
    ensures Abs(x) > d ==> Square(x) > Square(d)
    ensures Abs(x) < d ==> Square(x) < Square(d)
    ensures Abs(x) == d ==> Square(x) == Square(d)
  {
    hide Square;
    var y := Abs(x);
    SquareSigns(x);
    SquarePositive(d);
    if y > d {
      LargerSquare(y, d);
    } else if 0.0 < y < d {
      LargerSquare(d, y);
    }
  }
}
