/** Finite sums of real numbers over integer ranges. */
module Sums {

  /** f(lo) + ... + f(hi - 1) */
  function Sum(f: int -> real, lo: int, hi: int): real
    decreases hi - lo
  {
    if hi <= lo then 0.0 else Sum(f, lo, hi - 1) + f(hi - 1)
  }

  /** The row sums of a two-dimensional table. */
  function RowSum(f: (int, int) -> real, lo: int, hi: int): int -> real {
    i => Sum(j => f(i, j), lo, hi)
  }

  function Sum2(f: (int, int) -> real, lo1: int, hi1: int, lo2: int, hi2: int): real {
    Sum(RowSum(f, lo2, hi2), lo1, hi1)
  }

  function Flip(f: (int, int) -> real): (int, int) -> real {
    (i, j) => f(j, i)
  }

  lemma FlipEntry(f: (int, int) -> real, i: int, j: int)
    ensures Flip(f)(j, i) == f(i, j)
  {
  }

  lemma {:induction false} SumEqual(f: int -> real, g: int -> real, lo: int, hi: int)
    requires forall i | lo <= i < hi :: f(i) == g(i)
    ensures Sum(f, lo, hi) == Sum(g, lo, hi)
    decreases hi - lo
  {
    if lo < hi { SumEqual(f, g, lo, hi - 1); }
  }

  lemma {:induction false} SumAdd(f: int -> real, g: int -> real, h: int -> real, lo: int, hi: int)
    requires forall i | lo <= i < hi :: h(i) == f(i) + g(i)
    ensures Sum(h, lo, hi) == Sum(f, lo, hi) + Sum(g, lo, hi)
    decreases hi - lo
  {
    if lo < hi { SumAdd(f, g, h, lo, hi - 1); }
  }

  lemma {:induction false} SumScale(c: real, f: int -> real, h: int -> real, lo: int, hi: int)
    requires forall i | lo <= i < hi :: h(i) == c * f(i)
    ensures Sum(h, lo, hi) == c * Sum(f, lo, hi)
    decreases hi - lo
  {
    if lo < hi { SumScale(c, f, h, lo, hi - 1); }
  }

  lemma {:induction false} SumMonotone(f: int -> real, g: int -> real, lo: int, hi: int)
    requires forall i | lo <= i < hi :: f(i) <= g(i)
    ensures Sum(f, lo, hi) <= Sum(g, lo, hi)
    decreases hi - lo
  {
    if lo < hi { SumMonotone(f, g, lo, hi - 1); }
  }

  lemma {:induction false} SumZero(lo: int, hi: int)
    ensures Sum(_ => 0.0, lo, hi) == 0.0
    decreases hi - lo
  {
    if lo < hi { SumZero(lo, hi - 1); }
  }

  lemma {:induction false} SumShift(f: int -> real, g: int -> real, lo: int, hi: int, d: int)
    requires forall i | lo <= i < hi :: g(i) == f(i + d)
    ensures Sum(g, lo, hi) == Sum(f, lo + d, hi + d)
    decreases hi - lo
  {
    if lo < hi { SumShift(f, g, lo, hi - 1, d); }
  }

  lemma {:induction false} SumSingle(f: int -> real, lo: int, hi: int, i: int)
    requires lo <= i < hi && forall j | lo <= j < hi && j != i :: f(j) == 0.0
    ensures Sum(f, lo, hi) == f(i)
    decreases hi - lo
  {
    if i < hi - 1 {
      SumSingle(f, lo, hi - 1, i);
    } else {
      SumZero(lo, hi - 1);
      SumEqual(f, _ => 0.0, lo, hi - 1);
    }
  }

  lemma Sum2Equal(f: (int, int) -> real, g: (int, int) -> real, lo1: int, hi1: int, lo2: int, hi2: int)
    requires forall i, j | lo1 <= i < hi1 && lo2 <= j < hi2 :: f(i, j) == g(i, j)
    ensures Sum2(f, lo1, hi1, lo2, hi2) == Sum2(g, lo1, hi1, lo2, hi2)
  {
    var rf, rg := RowSum(f, lo2, hi2), RowSum(g, lo2, hi2);
    forall i | lo1 <= i < hi1 ensures rf(i) == rg(i) {
      SumEqual(j => f(i, j), j => g(i, j), lo2, hi2);
    }
    SumEqual(rf, rg, lo1, hi1);
  }

  lemma Sum2Add(f: (int, int) -> real, g: (int, int) -> real, h: (int, int) -> real,
                lo1: int, hi1: int, lo2: int, hi2: int)
    requires forall i, j | lo1 <= i < hi1 && lo2 <= j < hi2 :: h(i, j) == f(i, j) + g(i, j)
    ensures Sum2(h, lo1, hi1, lo2, hi2) == Sum2(f, lo1, hi1, lo2, hi2) + Sum2(g, lo1, hi1, lo2, hi2)
  {
    var rf, rg, rh := RowSum(f, lo2, hi2), RowSum(g, lo2, hi2), RowSum(h, lo2, hi2);
    forall i | lo1 <= i < hi1 ensures rh(i) == rf(i) + rg(i) {
      SumAdd(j => f(i, j), j => g(i, j), j => h(i, j), lo2, hi2);
    }
    SumAdd(rf, rg, rh, lo1, hi1);
  }

  lemma Sum2Scale(c: real, f: (int, int) -> real, h: (int, int) -> real, lo1: int, hi1: int, lo2: int, hi2: int)
    requires forall i, j | lo1 <= i < hi1 && lo2 <= j < hi2 :: h(i, j) == c * f(i, j)
    ensures Sum2(h, lo1, hi1, lo2, hi2) == c * Sum2(f, lo1, hi1, lo2, hi2)
  {
    hide Sum;
    var rf, rh := RowSum(f, lo2, hi2), RowSum(h, lo2, hi2);
    forall i | lo1 <= i < hi1 ensures rh(i) == c * rf(i) {
      SumScale(c, j => f(i, j), j => h(i, j), lo2, hi2);
    }
    SumScale(c, rf, rh, lo1, hi1);
  }

  lemma Sum2Monotone(f: (int, int) -> real, g: (int, int) -> real, lo1: int, hi1: int, lo2: int, hi2: int)
    requires forall i, j | lo1 <= i < hi1 && lo2 <= j < hi2 :: f(i, j) <= g(i, j)
    ensures Sum2(f, lo1, hi1, lo2, hi2) <= Sum2(g, lo1, hi1, lo2, hi2)
  {
    var rf, rg := RowSum(f, lo2, hi2), RowSum(g, lo2, hi2);
    forall i | lo1 <= i < hi1 ensures rf(i) <= rg(i) {
      SumMonotone(j => f(i, j), j => g(i, j), lo2, hi2);
    }
    SumMonotone(rf, rg, lo1, hi1);
  }

  /** Bounds that scale with the coefficients carry over to the sums. */
  lemma Sum2Bounds(coeff: (int, int) -> real, f: (int, int) -> real, lo: real, hi: real,
                   lo1: int, hi1: int, lo2: int, hi2: int)
    requires forall i, j :: lo * coeff(i, j) <= f(i, j) <= hi * coeff(i, j)
    ensures var total := Sum2(coeff, lo1, hi1, lo2, hi2);
            lo * total <= Sum2(f, lo1, hi1, lo2, hi2) <= hi * total
  {
    hide Sum;
    var low := (i: int, j: int) => lo * coeff(i, j);
    var high := (i: int, j: int) => hi * coeff(i, j);
    Sum2Scale(lo, coeff, low, lo1, hi1, lo2, hi2);
    Sum2Scale(hi, coeff, high, lo1, hi1, lo2, hi2);
    Sum2Monotone(low, f, lo1, hi1, lo2, hi2);
    Sum2Monotone(f, high, lo1, hi1, lo2, hi2);
  }

  /** A sum of mixtures is the mixture of the sums. */
  lemma Sum2Mix(a: real, f: (int, int) -> real, b: real, g: (int, int) -> real, c: real, h: (int, int) -> real,
                mix: (int, int) -> real, lo1: int, hi1: int, lo2: int, hi2: int)
    requires forall i, j :: mix(i, j) == a * f(i, j) + b * g(i, j) + c * h(i, j)
    ensures Sum2(mix, lo1, hi1, lo2, hi2)
            == a * Sum2(f, lo1, hi1, lo2, hi2) + b * Sum2(g, lo1, hi1, lo2, hi2) + c * Sum2(h, lo1, hi1, lo2, hi2)
  {
    hide Sum;
    var af := (i: int, j: int) => a * f(i, j);
    var bg := (i: int, j: int) => b * g(i, j);
    var ch := (i: int, j: int) => c * h(i, j);
    var both := (i: int, j: int) => af(i, j) + bg(i, j);
    Sum2Scale(a, f, af, lo1, hi1, lo2, hi2);
    Sum2Scale(b, g, bg, lo1, hi1, lo2, hi2);
    Sum2Scale(c, h, ch, lo1, hi1, lo2, hi2);
    Sum2Add(af, bg, both, lo1, hi1, lo2, hi2);
    Sum2Add(both, ch, mix, lo1, hi1, lo2, hi2);
  }

  /** The order of summation does not matter. */
  lemma {:induction false} Sum2Flip(f: (int, int) -> real, lo1: int, hi1: int, lo2: int, hi2: int)
    ensures Sum2(f, lo1, hi1, lo2, hi2) == Sum2(Flip(f), lo2, hi2, lo1, hi1)
    decreases hi1 - lo1
  {
    var columns := RowSum(Flip(f), lo1, hi1);
    if hi1 <= lo1 {
      SumEqual(columns, _ => 0.0, lo2, hi2);
      SumZero(lo2, hi2);
    } else {
      Sum2Flip(f, lo1, hi1 - 1, lo2, hi2);
      var shorter, last := RowSum(Flip(f), lo1, hi1 - 1), (j: int) => f(hi1 - 1, j);
      forall j | lo2 <= j < hi2 ensures columns(j) == shorter(j) + last(j) {
        var column := (i: int) => Flip(f)(j, i);
        assert columns(j) == Sum(column, lo1, hi1) && shorter(j) == Sum(column, lo1, hi1 - 1);
      }
      SumAdd(shorter, last, columns, lo2, hi2);
    }
  }

  /** A table with one entry that is not zero. */
  lemma Sum2Single(f: (int, int) -> real, lo1: int, hi1: int, lo2: int, hi2: int, i: int, j: int)
    requires lo1 <= i < hi1 && lo2 <= j < hi2
    requires forall a, b | lo1 <= a < hi1 && lo2 <= b < hi2 && (a != i || b != j) :: f(a, b) == 0.0
    ensures Sum2(f, lo1, hi1, lo2, hi2) == f(i, j)
  {
    hide Sum;
    var rows := RowSum(f, lo2, hi2);
    forall a | lo1 <= a < hi1 && a != i ensures rows(a) == 0.0 {
      SumEqual(b => f(a, b), _ => 0.0, lo2, hi2);
      SumZero(lo2, hi2);
    }
    SumSingle(b => f(i, b), lo2, hi2, j);
    SumSingle(rows, lo1, hi1, i);
  }
}
