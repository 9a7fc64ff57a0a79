/** Sums, means and weighted means over sequences of reals: the arithmetic that
    numpy's `sum`, `mean`, `dot` and the weighted-mean utility perform. */
module SeqMath {
  import opened Wrappers

  function Sum(s: seq<real>): real
  {
    if |s| == 0 then 0.0 else s[0] + Sum(s[1..])
  }

  /** Elementwise product `x * w`. */
  function Products(x: seq<real>, w: seq<real>): seq<real>
    requires |x| == |w|
  {
    seq(|x|, i requires 0 <= i < |x| => x[i] * w[i])
  }

  /** `(x * w).sum()`, numpy's `dot`. */
  function WeightedSum(x: seq<real>, w: seq<real>): real
    requires |x| == |w|
  {
    Sum(Products(x, w))
  }

  /** `s - c` for a scalar `c`. */
  function Shift(s: seq<real>, c: real): seq<real>
  {
    seq(|s|, i requires 0 <= i < |s| => s[i] - c)
  }

  /** `r` is `s` multiplied through by `k`. */
  predicate ScaledBy(r: seq<real>, s: seq<real>, k: real)
  {
    |r| == |s| && forall i :: 0 <= i < |r| ==> r[i] == s[i] * k
  }

  /** `s * k` for a scalar `k`. */
  function Scale(s: seq<real>, k: real): (r: seq<real>)
    ensures ScaledBy(r, s, k)
  {
    seq(|s|, i requires 0 <= i < |s| => s[i] * k)
  }

  /** `s.mean()`; numpy gives NaN for an empty array, which only ever meets
      an empty array here, so any value will do. */
  function Mean(s: seq<real>): real
  {
    if |s| == 0 then 0.0 else Sum(s) / |s| as real
  }

  /** `Σ v x / Σ v`, or None when the weights sum to zero (numpy's NaN). */
  function WeightedAverage(x: seq<real>, v: seq<real>): Option<real>
    requires |x| == |v|
  {
    if Sum(v) == 0.0 then None else Some(WeightedSum(x, v) / Sum(v))
  }

  predicate AllNonzero(s: seq<real>)
  {
    forall i :: 0 <= i < |s| ==> s[i] != 0.0
  }

  predicate AllNonnegative(s: seq<real>)
  {
    forall i :: 0 <= i < |s| ==> s[i] >= 0.0
  }

  /** Inverse-variance weights `1 / e**2`. */
  function Weights(errors: seq<real>): (w: seq<real>)
    requires AllNonzero(errors)
    ensures |w| == |errors|
    ensures forall i :: 0 <= i < |w| ==> w[i] > 0.0
  {
    seq(|errors|, i requires 0 <= i < |errors| => 1.0 / (errors[i] * errors[i]))
  }

  /** Every two positions differ by the same amount in `r` as in `s`:
      `r` is `s` shifted by one constant. */
  predicate SameDifferences(r: seq<real>, s: seq<real>)
  {
    && |r| == |s|
    && forall i, j :: 0 <= i < |r| && 0 <= j < |r| ==> r[i] - r[j] == s[i] - s[j]
  }

  lemma {:induction false} ProductsTail(x: seq<real>, w: seq<real>)
    requires |x| == |w| > 0
    ensures Products(x, w)[1..] == Products(x[1..], w[1..])
  {
    var a := Products(x, w)[1..];
    var b := Products(x[1..], w[1..]);
    assert |a| == |b|;
    forall i | 0 <= i < |a| ensures a[i] == b[i] {
      assert a[i] == x[i + 1] * w[i + 1];
    }
  }

  lemma {:induction false} ShiftTail(s: seq<real>, c: real)
    requires |s| > 0
    ensures Shift(s, c)[1..] == Shift(s[1..], c)
  {
    var a := Shift(s, c)[1..];
    var b := Shift(s[1..], c);
    forall i | 0 <= i < |a| ensures a[i] == b[i] {
      assert a[i] == s[i + 1] - c;
    }
  }

  lemma {:induction false} ScaleTail(s: seq<real>, k: real)
    requires |s| > 0
    ensures Scale(s, k)[1..] == Scale(s[1..], k)
  {
    var a := Scale(s, k)[1..];
    var b := Scale(s[1..], k);
    forall i | 0 <= i < |a| ensures a[i] == b[i] {
      assert a[i] == s[i + 1] * k;
    }
  }

  lemma {:induction false} SumConcat(a: seq<real>, b: seq<real>)
    ensures Sum(a + b) == Sum(a) + Sum(b)
    decreases |a|
  {
    if |a| == 0 {
      assert a + b == b;
    } else {
      assert (a + b)[1..] == a[1..] + b;
      SumConcat(a[1..], b);
    }
  }

  lemma {:induction false} SumShift(s: seq<real>, c: real)
    ensures Sum(Shift(s, c)) == Sum(s) - |s| as real * c
    decreases |s|
  {
    if |s| > 0 {
      ShiftTail(s, c);
      SumShift(s[1..], c);
    }
  }

  lemma {:induction false} SumScale(s: seq<real>, k: real)
    ensures Sum(Scale(s, k)) == Sum(s) * k
    decreases |s|
  {
    if |s| > 0 {
      ScaleTail(s, k);
      SumScale(s[1..], k);
    }
  }

  lemma {:induction false} SumAdd(a: seq<real>, b: seq<real>)
    requires |a| == |b|
    ensures Sum(seq(|a|, i requires 0 <= i < |a| => a[i] + b[i])) == Sum(a) + Sum(b)
    decreases |a|
  {
    if |a| > 0 {
      var ab := seq(|a|, i requires 0 <= i < |a| => a[i] + b[i]);
      var tail := seq(|a| - 1, i requires 0 <= i < |a| - 1 => a[1..][i] + b[1..][i]);
      forall i | 0 <= i < |a| - 1 ensures ab[1..][i] == tail[i] {
        assert ab[1..][i] == a[i + 1] + b[i + 1];
      }
      assert ab[1..] == tail;
      SumAdd(a[1..], b[1..]);
    }
  }

  lemma {:induction false} WeightedSumShift(x: seq<real>, w: seq<real>, c: real)
    requires |x| == |w|
    ensures WeightedSum(Shift(x, c), w) == WeightedSum(x, w) - c * Sum(w)
    decreases |x|
  {
    if |x| > 0 {
      ProductsTail(Shift(x, c), w);
      ShiftTail(x, c);
      ProductsTail(x, w);
      WeightedSumShift(x[1..], w[1..], c);
      assert Sum(w) == w[0] + Sum(w[1..]);
      assert (x[0] - c) * w[0] == x[0] * w[0] - c * w[0];
    }
  }

  lemma {:induction false} SumNonnegative(s: seq<real>)
    requires AllNonnegative(s)
    ensures Sum(s) >= 0.0
    decreases |s|
  {
    if |s| > 0 {
      SumNonnegative(s[1..]);
    }
  }

  /** A sum of non-negative terms is zero exactly when every term is. */
  lemma {:induction false} SumZeroIffAllZero(s: seq<real>)
    requires AllNonnegative(s)
    ensures Sum(s) == 0.0 <==> forall i :: 0 <= i < |s| ==> s[i] == 0.0
    decreases |s|
  {
    if |s| > 0 {
      SumNonnegative(s[1..]);
      SumZeroIffAllZero(s[1..]);
      if Sum(s) == 0.0 {
        forall i | 0 <= i < |s| ensures s[i] == 0.0 {
          if i > 0 {
            assert s[i] == s[1..][i - 1];
          }
        }
      }
      if forall i :: 0 <= i < |s| ==> s[i] == 0.0 {
        assert forall i :: 0 <= i < |s[1..]| ==> s[1..][i] == 0.0 by {
          forall i | 0 <= i < |s[1..]| ensures s[1..][i] == 0.0 {
            assert s[1..][i] == s[i + 1];
          }
        }
      }
    }
  }

  lemma {:induction false} SumAtLeastTerm(s: seq<real>, k: int)
    requires AllNonnegative(s)
    requires 0 <= k < |s|
    ensures Sum(s) >= s[k]
    decreases |s|
  {
    SumNonnegative(s[1..]);
    if k > 0 {
      assert s[k] == s[1..][k - 1];
      SumAtLeastTerm(s[1..], k - 1);
    }
  }

  /** A sum whose terms are all zero but one is that term. */
  lemma {:induction false} SumSingleTerm(s: seq<real>, k: nat)
    requires k < |s|
    requires forall i :: 0 <= i < |s| && i != k ==> s[i] == 0.0
    ensures Sum(s) == s[k]
  {
    if k == 0 {
      var tail := s[1..];
      assert forall i :: 0 <= i < |tail| ==> tail[i] == s[i + 1];
      SumZeroIffAllZero(tail);
    } else {
      var tail := s[1..];
      assert forall i :: 0 <= i < |tail| ==> tail[i] == s[i + 1];
      SumSingleTerm(tail, k - 1);
    }
  }

  /** Weights that vanish everywhere but at `k` average to the value at `k`. */
  lemma {:induction false} WeightedAverageSingle(x: seq<real>, v: seq<real>, k: nat)
    requires |x| == |v| && k < |v|
    requires v[k] > 0.0
    requires forall i :: 0 <= i < |v| && i != k ==> v[i] == 0.0
    ensures WeightedAverage(x, v) == Some(x[k])
  {
    SumSingleTerm(v, k);
    var p := Products(x, v);
    assert forall i :: 0 <= i < |p| && i != k ==> p[i] == 0.0;
    SumSingleTerm(p, k);
    assert WeightedSum(x, v) == x[k] * v[k];
    assert Sum(v) == v[k] != 0.0;
    assert (x[k] * v[k]) / v[k] == x[k];
  }

  lemma {:induction false} SumPositive(w: seq<real>)
    requires |w| > 0
    requires forall i :: 0 <= i < |w| ==> w[i] > 0.0
    ensures Sum(w) > 0.0
  {
    assert AllNonnegative(w[1..]) by {
      forall i | 0 <= i < |w[1..]| ensures w[1..][i] >= 0.0 {
        assert w[1..][i] == w[i + 1];
      }
    }
    SumNonnegative(w[1..]);
  }

  /** Non-negative weights on values that are non-negative wherever the
      weight is positive give a non-negative weighted sum. */
  lemma {:induction false} WeightedSumNonnegative(x: seq<real>, v: seq<real>)
    requires |x| == |v|
    requires AllNonnegative(v)
    requires forall i :: 0 <= i < |x| && v[i] > 0.0 ==> x[i] >= 0.0
    ensures WeightedSum(x, v) >= 0.0
    decreases |x|
  {
    if |x| > 0 {
      ProductsTail(x, v);
      assert forall i :: 0 <= i < |x[1..]| && v[1..][i] > 0.0 ==> x[1..][i] >= 0.0 by {
        forall i | 0 <= i < |x[1..]| && v[1..][i] > 0.0 ensures x[1..][i] >= 0.0 {
          assert x[1..][i] == x[i + 1] && v[1..][i] == v[i + 1];
        }
      }
      WeightedSumNonnegative(x[1..], v[1..]);
      assert x[0] * v[0] >= 0.0 by {
        if v[0] > 0.0 {
          assert x[0] >= 0.0;
        } else {
          assert v[0] == 0.0;
        }
      }
    }
  }

  /** Non-negative weights on values that are non-positive wherever the
      weight is positive give a non-positive weighted sum. */
  lemma {:induction false} WeightedSumNonpositive(x: seq<real>, v: seq<real>)
    requires |x| == |v|
    requires AllNonnegative(v)
    requires forall i :: 0 <= i < |x| && v[i] > 0.0 ==> x[i] <= 0.0
    ensures WeightedSum(x, v) <= 0.0
    decreases |x|
  {
    if |x| > 0 {
      ProductsTail(x, v);
      assert forall i :: 0 <= i < |x[1..]| && v[1..][i] > 0.0 ==> x[1..][i] <= 0.0 by {
        forall i | 0 <= i < |x[1..]| && v[1..][i] > 0.0 ensures x[1..][i] <= 0.0 {
          assert x[1..][i] == x[i + 1] && v[1..][i] == v[i + 1];
        }
      }
      WeightedSumNonpositive(x[1..], v[1..]);
      assert x[0] * v[0] <= 0.0 by {
        if v[0] > 0.0 {
          assert x[0] <= 0.0;
        } else {
          assert v[0] == 0.0;
        }
      }
    }
  }

  /** A weighted sum with non-negative weights lies between the weight total
      times the least and the greatest value that carries positive weight. */
  lemma {:induction false} WeightedSumBounds(x: seq<real>, v: seq<real>, lo: real, hi: real)
    requires |x| == |v|
    requires AllNonnegative(v)
    requires forall i :: 0 <= i < |x| && v[i] > 0.0 ==> lo <= x[i] <= hi
    ensures lo * Sum(v) <= WeightedSum(x, v)
    ensures WeightedSum(x, v) <= hi * Sum(v)
  {
    WeightedSumShift(x, v, lo);
    WeightedSumNonnegative(Shift(x, lo), v);
    WeightedSumShift(x, v, hi);
    WeightedSumNonpositive(Shift(x, hi), v);
  }

  /** Subtracting the plain mean leaves a sequence that sums to zero. */
  lemma {:induction false} MeanShiftSumsToZero(s: seq<real>)
    ensures Sum(Shift(s, Mean(s))) == 0.0
  {
    SumShift(s, Mean(s));
  }

  /** Subtracting the weighted mean leaves a sequence whose weighted sum is zero. */
  lemma {:induction false} WeightedMeanShiftSumsToZero(x: seq<real>, v: seq<real>)
    requires |x| == |v|
    requires Sum(v) != 0.0
    ensures WeightedSum(Shift(x, WeightedAverage(x, v).value), v) == 0.0
  {
    var m := WeightedAverage(x, v).value;
    var a, d := WeightedSum(x, v), Sum(v);
    assert m == a / d;
    var lhs := WeightedSum(Shift(x, m), v);
    assert lhs == a - m * d by {
      WeightedSumShift(x, v, m);
    }
    DivThenMul(a, d, m);
  }

  lemma {:induction false} DivThenMul(a: real, d: real, m: real)
    requires d != 0.0 && m == a / d
    ensures a - m * d == 0.0
  {
  }

  lemma {:induction false} MulThenDiv(c: real, d: real)
    requires d != 0.0
    ensures (d * c) / d == c
  {
  }

  /** A weighted average over non-negative weights lies in the range of the
      values that carry positive weight. */
  lemma {:induction false} WeightedAverageBetween(x: seq<real>, v: seq<real>, lo: real, hi: real)
    requires |x| == |v|
    requires AllNonnegative(v)
    requires Sum(v) != 0.0
    requires forall i :: 0 <= i < |x| && v[i] > 0.0 ==> lo <= x[i] <= hi
    ensures lo <= WeightedAverage(x, v).value <= hi
  {
    var n, d := WeightedSum(x, v), Sum(v);
    SumNonnegative(v);
    WeightedSumBounds(x, v, lo, hi);
    QuotientBounds(n, d, lo, hi);
  }

  lemma {:induction false} QuotientBounds(n: real, d: real, lo: real, hi: real)
    requires d > 0.0
    requires lo * d <= n
    requires n <= hi * d
    ensures lo <= n / d <= hi
  {
    var q := n / d;
    assert q * d == n;
    assert (q - lo) * d >= 0.0;
    assert (hi - q) * d >= 0.0;
  }

  lemma {:induction false} ShiftSameDifferences(s: seq<real>, c: real)
    ensures SameDifferences(Shift(s, c), s)
  {
  }

  function Square(x: real): real
  {
    x * x
  }

  /** A square is nonnegative, and zero only for zero. */
  lemma {:induction false} SquareFacts(x: real)
    ensures Square(x) >= 0.0
    ensures Square(x) == 0.0 <==> x == 0.0
  {
    if x != 0.0 {
      SquareNonzero(x);
    }
  }

  lemma {:induction false} SquareNonzero(x: real)
    requires x != 0.0
    ensures Square(x) != 0.0
  {
    ProductNonzero(x, x);
    assert Square(x) == Product(x, x);
  }

  /** The product of two reals, named so that facts about it are stated over
      two factors rather than a square. */
  function Product(a: real, b: real): real
  {
    a * b
  }

  lemma {:induction false} ProductNonzero(a: real, b: real)
    requires a != 0.0 && b != 0.0
    ensures Product(a, b) != 0.0
  {
  }

  /** A quotient is zero exactly when its numerator is. */
  lemma {:induction false} QuotientZero(a: real, b: real)
    requires b != 0.0
    ensures a / b == 0.0 <==> a == 0.0
  {
    if a / b == 0.0 {
      assert a == (a / b) * b;
    }
  }

  /** The reciprocal of a weight is the variance it came from. */
  lemma {:induction false} WeightInverse(errors: seq<real>, k: nat)
    requires AllNonzero(errors) && k < |errors|
    ensures 1.0 / Weights(errors)[k] == Square(errors[k])
  {
    var e2 := errors[k] * errors[k];
    assert e2 != 0.0;
    assert Weights(errors)[k] == 1.0 / e2;
  }

  /** Each element smaller than the next. */
  predicate StrictlyIncreasing(r: seq<nat>)
  {
    forall j, k :: 0 <= j < k < |r| ==> r[j] < r[k]
  }

  /** The positions of the elements of `s` that satisfy `keep`, in ascending
      order: numpy's `np.where` on a boolean mask. */
  function IndicesWhere<T>(s: seq<T>, keep: T -> bool): (r: seq<nat>)
    ensures StrictlyIncreasing(r)
    ensures forall k :: 0 <= k < |r| ==> r[k] < |s| && keep(s[r[k]])
    ensures forall i :: 0 <= i < |s| && keep(s[i]) ==> i in r
    decreases |s|
  {
    if |s| == 0 then []
    else
      var front := IndicesWhere(s[..|s| - 1], keep);
      assert forall i :: 0 <= i < |s| - 1 ==> s[..|s| - 1][i] == s[i];
      if keep(s[|s| - 1]) then front + [|s| - 1] else front
  }

  /** When every element is kept, the positions are all of them. */
  lemma {:induction false} IndicesWhereAll<T>(s: seq<T>, keep: T -> bool)
    requires forall i :: 0 <= i < |s| ==> keep(s[i])
    ensures IndicesWhere(s, keep) == seq(|s|, i => i)
    decreases |s|
  {
    if |s| > 0 {
      var front := s[..|s| - 1];
      assert forall i :: 0 <= i < |front| ==> front[i] == s[i];
      IndicesWhereAll(front, keep);
      assert seq(|s|, i => i) == seq(|front|, i => i) + [|s| - 1];
    }
  }
}
