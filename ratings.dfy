/**
 * The running-mean arithmetic of the two rating listeners of CourseService
 * (`listenAddCourseRating`, `listenDeleteCourseRating`). A course keeps only
 * the mean `rating` and the number `count` of ratings behind it; the product
 * `rating * count` (its `Total`) is the sum of the contributing values.
 * Ratings are `real`, so the formulas are exact (no IEEE rounding).
 */
module Ratings {

  datatype RatingState = RatingState(rating: real, count: int)

  /** What every stored course satisfies: a non-negative count, and a zero
      mean when nothing has been rated. */
  predicate Consistent(s: RatingState) {
    s.count >= 0 && (s.count == 0 ==> s.rating == 0.0)
  }

  /** The sum of the ratings the mean stands for. */
  function Total(s: RatingState): real {
    s.rating * s.count as real
  }

  /** One ADD event: `(rating * count + value) / (count + 1)`, `count + 1`.
      The source divides by `count + 1`, hence the precondition. */
  function Add(s: RatingState, value: real): (r: RatingState)
    requires s.count + 1 != 0
    ensures r.count == s.count + 1
    ensures Total(r) == Total(s) + value
    ensures s.count == 0 ==> r.rating == value
    ensures Consistent(s) ==> Consistent(r)
  {
    RatingState((s.rating * s.count as real + value) / (s.count + 1) as real, s.count + 1)
  }

  /** One REMOVE event: a last rating resets to exactly `(0.0, 0)`; from two
      or more ratings the inverse formula applies; a count of zero or less is
      left as it is (the source only logs it). */
  function Remove(s: RatingState, value: real): (r: RatingState)
    ensures s.count == 1 ==> r == RatingState(0.0, 0)
    ensures s.count >= 2 ==> r.count == s.count - 1 && Total(r) == Total(s) - value
    ensures s.count <= 0 ==> r == s
    ensures s.count >= 0 ==> r.count >= 0
    ensures Consistent(s) ==> Consistent(r)
  {
    if s.count == 1 then RatingState(0.0, 0)
    else if s.count >= 2 then
      RatingState((s.rating * s.count as real - value) / (s.count - 1) as real, s.count - 1)
    else s
  }

  /** Two states with the same positive count and the same total are equal. */
  lemma SameTotalSameState(a: RatingState, b: RatingState)
    requires a.count == b.count && a.count > 0
    requires Total(a) == Total(b)
    ensures a == b
  {
    var n := a.count as real;
    assert a.rating * n == b.rating * n;
    assert (a.rating - b.rating) * n == 0.0;
  }

  /** ADD(v) followed by REMOVE(v) restores the previous state. */
  lemma AddThenRemove(s: RatingState, value: real)
    requires Consistent(s)
    ensures Remove(Add(s, value), value) == s
  {
    var added := Add(s, value);
    if s.count > 0 {
      SameTotalSameState(Remove(added, value), s);
    }
  }

  /** REMOVE(v) followed by ADD(v) restores the previous state as long as the
      removal did not hit the reset at a count of one. */
  lemma RemoveThenAdd(s: RatingState, value: real)
    requires s.count >= 2
    ensures Add(Remove(s, value), value) == s
  {
    SameTotalSameState(Add(Remove(s, value), value), s);
  }

  /** An ADD of a value within `[lo, hi]` keeps the mean within `[lo, hi]`. */
  lemma AddKeepsBounds(s: RatingState, value: real, lo: real, hi: real)
    requires Consistent(s)
    requires s.count == 0 || lo <= s.rating <= hi
    requires lo <= value <= hi
    ensures lo <= Add(s, value).rating <= hi
  {
    var r := Add(s, value);
    var n := s.count as real;
    if s.count > 0 {
      ProductNonNegative(s.rating - lo, n);
      ProductNonNegative(hi - s.rating, n);
    }
    assert lo * n <= Total(s) <= hi * n;
    MeanWithin(Total(s), n, value, lo, hi, r.rating);
  }

  /** The arithmetic core of AddKeepsBounds: if `m * (n + 1) == t + v` with
      `t` between `lo * n` and `hi * n`, then `m` lies in `[lo, hi]`. */
  lemma MeanWithin(t: real, n: real, v: real, lo: real, hi: real, m: real)
    requires n >= 0.0
    requires lo * n <= t <= hi * n
    requires lo <= v <= hi
    requires m * (n + 1.0) == t + v
    ensures lo <= m <= hi
  {
    if m < lo { ProductPositive(lo - m, n + 1.0); }
    if m > hi { ProductPositive(m - hi, n + 1.0); }
  }

  lemma ProductNonNegative(a: real, b: real)
    requires a >= 0.0 && b >= 0.0
    ensures a * b >= 0.0
  {
  }

  lemma ProductPositive(a: real, b: real)
    requires a > 0.0 && b > 0.0
    ensures a * b > 0.0
  {
  }

  /** A sequence of ADD events, applied in order. */
  function AddAll(s: RatingState, values: seq<real>): (r: RatingState)
    requires s.count >= 0
    decreases values
  {
    if values == [] then s else AddAll(Add(s, values[0]), values[1..])
  }

  function Sum(values: seq<real>): real {
    if values == [] then 0.0 else values[0] + Sum(values[1..])
  }

  /** Each ADD contributes its value to the total and one to the count. */
  lemma {:induction false} AddAllTotal(s: RatingState, values: seq<real>)
    requires s.count >= 0
    ensures AddAll(s, values).count == s.count + |values|
    ensures Total(AddAll(s, values)) == Total(s) + Sum(values)
    decreases values
  {
    if values != [] {
      AddAllTotal(Add(s, values[0]), values[1..]);
    }
  }

  /** From an unrated course, n ADD events leave the arithmetic mean of their
      values with a count of n. */
  lemma MeanOfAdds(values: seq<real>)
    requires |values| > 0
    ensures AddAll(RatingState(0.0, 0), values) == RatingState(Sum(values) / |values| as real, |values|)
  {
    var r := AddAll(RatingState(0.0, 0), values);
    AddAllTotal(RatingState(0.0, 0), values);
    var n := |values| as real;
    assert r.rating * n == Sum(values);
    assert r.rating == Sum(values) / n;
  }
}
