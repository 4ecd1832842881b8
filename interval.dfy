/**
 * Half-open intervals `[begin, end[` over integers: emptiness, equality,
 * shifting, intersection, point membership and inclusion.
 */
module Intervals {

  /** `begin` is included, `end` is excluded. */
  datatype Interval = Interval(begin: int, end: int)

  /** `operator bool`: the interval holds at least one point. */
  predicate NonEmpty(i: Interval)
  {
    i.begin < i.end
  }

  /** `contains`: `t` lies in the half-open interval. */
  predicate Contains(i: Interval, t: int)
  {
    i.begin <= t && t < i.end
  }

  /** An interval is non-empty exactly when it contains a point. */
  lemma NonEmptyIffContains(i: Interval)
    ensures NonEmpty(i) <==> exists t :: Contains(i, t)
  {
    if NonEmpty(i) {
      assert Contains(i, i.begin);
    }
  }

  /** `begin` belongs to a non-empty interval and `end` never does. */
  lemma HalfOpen(i: Interval)
    ensures NonEmpty(i) <==> Contains(i, i.begin)
    ensures !Contains(i, i.end)
  {
  }

  /** Membership at the integer points corresponding to `[0, 1[` and `[0, max[`. */
  lemma ContainsVectors()
    ensures Contains(Interval(0, 1), 0) && !Contains(Interval(0, 1), 1)
    ensures Contains(Interval(0, 2), 1)
    ensures Contains(Interval(0, 340282346638528859811704183484516925440), 965485)
  {
  }

  /** `operator==`: two empty intervals are equal, otherwise the bounds must agree. */
  predicate Eq(a: Interval, b: Interval)
  {
    (!NonEmpty(a) && !NonEmpty(b)) || (a.begin == b.begin && a.end == b.end)
  }

  /** Two intervals are equal exactly when they hold the same points. */
  lemma EqIffSamePoints(a: Interval, b: Interval)
    ensures Eq(a, b) <==> forall t :: Contains(a, t) <==> Contains(b, t)
  {
    if forall t :: Contains(a, t) <==> Contains(b, t) {
      if NonEmpty(a) {
        assert Contains(b, a.begin);
        assert Contains(a, b.begin);
        assert Contains(b, a.end - 1);
        assert Contains(a, b.end - 1);
      } else if NonEmpty(b) {
        assert Contains(b, b.begin);
      }
    }
  }

  /** Equality is an equivalence relation, under which all empty intervals are one. */
  lemma EqIsEquivalence(a: Interval, b: Interval, c: Interval)
    ensures Eq(a, a)
    ensures Eq(a, b) ==> Eq(b, a)
    ensures Eq(a, b) && Eq(b, c) ==> Eq(a, c)
    ensures !NonEmpty(a) && !NonEmpty(b) ==> Eq(a, b)
  {
  }

  /** `shift`: both bounds moved by `diff`. */
  function Shift(diff: int, i: Interval): (r: Interval)
    ensures r.end - r.begin == i.end - i.begin
    ensures NonEmpty(r) <==> NonEmpty(i)
  {
    Interval(i.begin + diff, i.end + diff)
  }

  /** A shifted interval holds exactly the shifted points. */
  lemma ShiftContains(diff: int, i: Interval, t: int)
    ensures Contains(Shift(diff, i), t + diff) <==> Contains(i, t)
  {
  }

  /** Shifting back by `-diff` restores the interval. */
  lemma ShiftInverse(diff: int, i: Interval)
    ensures Shift(-diff, Shift(diff, i)) == i
  {
  }

  /** `intersect`: the larger begin and the smaller end. */
  function Intersect(a: Interval, b: Interval): (r: Interval)
    ensures r.begin >= a.begin && r.begin >= b.begin && (r.begin == a.begin || r.begin == b.begin)
    ensures r.end <= a.end && r.end <= b.end && (r.end == a.end || r.end == b.end)
  {
    Interval(if a.begin < b.begin then b.begin else a.begin, if a.end < b.end then a.end else b.end)
  }

  /** The intersection holds exactly the points both intervals hold. */
  lemma IntersectContains(a: Interval, b: Interval, t: int)
    ensures Contains(Intersect(a, b), t) <==> Contains(a, t) && Contains(b, t)
  {
  }

  lemma IntersectCommutes(a: Interval, b: Interval)
    ensures Intersect(a, b) == Intersect(b, a)
  {
  }

  /**
   * `include` as written: an empty `u` is included, and a non-empty one
   * when `i` contains both its `begin` and its `end`. Since `end` is
   * excluded from `u` but required to lie inside `i`, the test asks for
   * `u.end < i.end`.
   */
  predicate IncludeAsWritten(i: Interval, u: Interval)
  {
    !NonEmpty(u) || (Contains(i, u.begin) && Contains(i, u.end))
  }

  /** What the written test decides, bound by bound. */
  lemma IncludeAsWrittenBounds(i: Interval, u: Interval)
    ensures IncludeAsWritten(i, u) <==> !NonEmpty(u) || (i.begin <= u.begin && u.end < i.end)
  {
  }

  /** Everything the written test accepts is a subset. */
  lemma IncludeAsWrittenSound(i: Interval, u: Interval, t: int)
    requires IncludeAsWritten(i, u) && Contains(u, t)
    ensures Contains(i, t)
  {
  }

  /** No non-empty interval includes itself under the written test. */
  lemma IncludeAsWrittenNotReflexive(u: Interval)
    ensures IncludeAsWritten(u, u) <==> !NonEmpty(u)
  {
  }

  /** `[0, 2[` lies within itself, yet the written test rejects it. */
  lemma IncludeAsWrittenCounterexample()
    ensures Include(Interval(0, 2), Interval(0, 2))
    ensures !IncludeAsWritten(Interval(0, 2), Interval(0, 2))
  {
  }

  /** Inclusion as the half-open reading intends: `u`'s points all lie in `i`. */
  predicate Include(i: Interval, u: Interval)
  {
    !NonEmpty(u) || (i.begin <= u.begin && u.end <= i.end)
  }

  /** `Include` is exactly the subset relation on the intervals' points. */
  lemma IncludeIffSubset(i: Interval, u: Interval)
    ensures Include(i, u) <==> forall t :: Contains(u, t) ==> Contains(i, t)
  {
    if forall t :: Contains(u, t) ==> Contains(i, t) {
      if NonEmpty(u) {
        assert Contains(u, u.begin);
        assert Contains(u, u.end - 1);
      }
    }
  }

  /** Inclusion is reflexive and transitive, and the written test is strictly stronger. */
  lemma IncludeOrder(a: Interval, b: Interval, c: Interval)
    ensures Include(a, a)
    ensures Include(a, b) && Include(b, c) ==> Include(a, c)
    ensures IncludeAsWritten(a, b) ==> Include(a, b)
  {
  }
}
