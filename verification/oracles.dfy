/** The arithmetic oracles of the test file: the inner product and the squared
    Euclidean distance of two integer vectors. `Dot` and `SquaredDistance` are the
    specification functions; `InnerProduct` and `EuclidianDistance` are the
    accumulating loops of main_test.go, proved against them. */
module Oracles {
  import opened Wrappers

  /** Σ x[i]·y[i], accumulated from index 0 upwards as the test helper does. */
  function Dot(x: seq<int>, y: seq<int>): int
    requires |x| == |y|
    decreases |x|
  {
    if |x| == 0 then 0
    else Dot(x[..|x| - 1], y[..|y| - 1]) + x[|x| - 1] * y[|y| - 1]
  }

  /** Σ (x[i] - y[i])². The result is never negative. */
  function SquaredDistance(x: seq<int>, y: seq<int>): (d: int)
    requires |x| == |y|
    ensures d >= 0
    decreases |x|
  {
    if |x| == 0 then 0
    else
      var e := x[|x| - 1] - y[|y| - 1];
      SquaredDistance(x[..|x| - 1], y[..|y| - 1]) + e * e
  }

  /** Componentwise difference x - y. */
  function Difference(x: seq<int>, y: seq<int>): seq<int>
    requires |x| == |y|
  {
    seq(|x|, i requires 0 <= i < |x| => x[i] - y[i])
  }

  /** Componentwise product c·y. */
  function Scaled(c: int, y: seq<int>): seq<int>
  {
    seq(|y|, i requires 0 <= i < |y| => c * y[i])
  }

  /** innerProduct: halts on a length mismatch, otherwise sums x[i]·y[i] in a loop. */
  method InnerProduct(x: seq<int>, y: seq<int>) returns (r: Option<int>)
    ensures |x| != |y| ==> r == None
    ensures |x| == |y| ==> r == Some(Dot(x, y))
  {
    if |x| != |y| {
      return None;
    }
    var result := 0;
    for index := 0 to |x|
      invariant result == Dot(x[..index], y[..index])
    {
      assert x[..index + 1][..index] == x[..index];
      assert y[..index + 1][..index] == y[..index];
      result := result + x[index] * y[index];
    }
    assert x[..|x|] == x && y[..|y|] == y;
    return Some(result);
  }

  /** euclidianDistance: halts on a length mismatch, otherwise sums (x[i]-y[i])² in a loop. */
  method EuclidianDistance(x: seq<int>, y: seq<int>) returns (r: Option<int>)
    ensures |x| != |y| ==> r == None
    ensures |x| == |y| ==> r == Some(SquaredDistance(x, y))
  {
    if |x| != |y| {
      return None;
    }
    var result := 0;
    for index := 0 to |x|
      invariant result == SquaredDistance(x[..index], y[..index])
    {
      assert x[..index + 1][..index] == x[..index];
      assert y[..index + 1][..index] == y[..index];
      result := result + (x[index] - y[index]) * (x[index] - y[index]);
    }
    assert x[..|x|] == x && y[..|y|] == y;
    return Some(result);
  }

  /** The inner product does not depend on the order of its arguments. */
  lemma {:induction false} DotSymmetric(x: seq<int>, y: seq<int>)
    requires |x| == |y|
    ensures Dot(x, y) == Dot(y, x)
    decreases |x|
  {
    if |x| > 0 {
      DotSymmetric(x[..|x| - 1], y[..|y| - 1]);
    }
  }

  /** The inner product splits over concatenation of equal-length parts. */
  lemma {:induction false} DotAppend(a1: seq<int>, a2: seq<int>, b1: seq<int>, b2: seq<int>)
    requires |a1| == |b1| && |a2| == |b2|
    ensures Dot(a1 + a2, b1 + b2) == Dot(a1, b1) + Dot(a2, b2)
    decreases |a2|
  {
    if |a2| == 0 {
      assert a1 + a2 == a1 && b1 + b2 == b1;
    } else {
      var n := |a2| - 1;
      assert (a1 + a2)[..|a1 + a2| - 1] == a1 + a2[..n];
      assert (b1 + b2)[..|b1 + b2| - 1] == b1 + b2[..n];
      DotAppend(a1, a2[..n], b1, b2[..n]);
    }
  }

  /** A factor on one side comes out of the inner product. */
  lemma {:induction false} DotScaled(x: seq<int>, c: int, y: seq<int>)
    requires |x| == |y|
    ensures Dot(x, Scaled(c, y)) == c * Dot(x, y)
    decreases |x|
  {
    if |x| > 0 {
      var n := |x| - 1;
      assert Scaled(c, y)[..n] == Scaled(c, y[..n]);
      DotScaled(x[..n], c, y[..n]);
      calc {
        Dot(x, Scaled(c, y));
        c * Dot(x[..n], y[..n]) + x[n] * (c * y[n]);
        { assert x[n] * (c * y[n]) == c * (x[n] * y[n]); }
        c * (Dot(x[..n], y[..n]) + x[n] * y[n]);
      }
    }
  }

  /** ‖x - y‖² = ‖x‖² - 2·x·y + ‖y‖². */
  lemma {:induction false} SquaredDistanceExpand(x: seq<int>, y: seq<int>)
    requires |x| == |y|
    ensures SquaredDistance(x, y) == Dot(x, x) - 2 * Dot(x, y) + Dot(y, y)
    decreases |x|
  {
    if |x| > 0 {
      var n := |x| - 1;
      SquaredDistanceExpand(x[..n], y[..n]);
      var a, b := x[n], y[n];
      assert (a - b) * (a - b) == a * a - 2 * (a * b) + b * b;
    }
  }

  /** The two oracles agree: euclidianDistance(x, y) is innerProduct(x-y, x-y). */
  lemma {:induction false} SquaredDistanceIsDotOfDifference(x: seq<int>, y: seq<int>)
    requires |x| == |y|
    ensures SquaredDistance(x, y) == Dot(Difference(x, y), Difference(x, y))
    decreases |x|
  {
    if |x| > 0 {
      var n := |x| - 1;
      assert Difference(x, y)[..n] == Difference(x[..n], y[..n]);
      SquaredDistanceIsDotOfDifference(x[..n], y[..n]);
    }
  }

  /** euclidianDistance(x, y) == euclidianDistance(y, x). */
  lemma {:induction false} SquaredDistanceSymmetric(x: seq<int>, y: seq<int>)
    requires |x| == |y|
    ensures SquaredDistance(x, y) == SquaredDistance(y, x)
    decreases |x|
  {
    if |x| > 0 {
      var n := |x| - 1;
      SquaredDistanceSymmetric(x[..n], y[..n]);
      assert (x[n] - y[n]) * (x[n] - y[n]) == (y[n] - x[n]) * (y[n] - x[n]);
    }
  }

  /** The distance is zero exactly when the two vectors are equal. */
  lemma {:induction false} SquaredDistanceZeroIff(x: seq<int>, y: seq<int>)
    requires |x| == |y|
    ensures SquaredDistance(x, y) == 0 <==> x == y
    decreases |x|
  {
    if |x| > 0 {
      var n := |x| - 1;
      SquaredDistanceZeroIff(x[..n], y[..n]);
      var e := x[n] - y[n];
      if SquaredDistance(x, y) == 0 {
        SquareIsPositive(e);
        assert x == x[..n] + [x[n]] && y == y[..n] + [y[n]];
      }
    }
  }

  /** A nonzero integer has a positive square. */
  lemma SquareIsPositive(e: int)
    ensures e != 0 ==> e * e > 0
  {
    if e > 0 {
      assert e * e >= e;
    } else if e < 0 {
      assert e * e >= -e;
    }
  }
}
