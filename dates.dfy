/** Inclusive date ranges, with an absent end date standing for a range
    that never ends (the application compares it as `date.max`). */
module Dates {
  import opened Basics

  /** `date_in_range`: `start <= d <= end`, both bounds inclusive. */
  predicate InRange(d: int, start: int, end: int): (b: bool)
    ensures b <==> Covers(start, Some(end), d)
  {
    start <= d <= end
  }

  /** `d <= (end or date.max)`. */
  predicate NotAfter(d: int, end: Option<int>) {
    end.None? || d <= end.value
  }

  /** A day lies in `[start, end or open]`. */
  predicate Covers(start: int, end: Option<int>, d: int) {
    start <= d && NotAfter(d, end)
  }

  /** The test of `add_rental`: each range starts no later than the other
      ends. */
  predicate Overlaps(s1: int, e1: Option<int>, s2: int, e2: Option<int>): (b: bool)
    ensures WellFormed(s1, e1) && WellFormed(s2, e2) ==>
      (b <==> Covers(s1, e1, Max(s1, s2)) && Covers(s2, e2, Max(s1, s2)))
  {
    NotAfter(s1, e2) && NotAfter(s2, e1)
  }

  /** A range whose end, if any, is not before its start. */
  predicate WellFormed(start: int, end: Option<int>) {
    NotAfter(start, end)
  }

  /** The overlap test is symmetric. */
  lemma OverlapsSymmetric(s1: int, e1: Option<int>, s2: int, e2: Option<int>)
    ensures Overlaps(s1, e1, s2, e2) == Overlaps(s2, e2, s1, e1)
  {
  }

  /** For well-formed ranges the two-comparison test is exactly "the ranges
      share a day"; the later of the two starts is a shared day. */
  lemma OverlapsIffCommonDay(s1: int, e1: Option<int>, s2: int, e2: Option<int>)
    requires WellFormed(s1, e1) && WellFormed(s2, e2)
    ensures Overlaps(s1, e1, s2, e2) <==> exists d :: Covers(s1, e1, d) && Covers(s2, e2, d)
  {
    if Overlaps(s1, e1, s2, e2) {
      var d := Max(s1, s2);
      assert Covers(s1, e1, d) && Covers(s2, e2, d);
    }
  }

  /** `[1, 10]` and `[5, 15]` overlap; `[1, 10]` and `[11, 20]` touch without
      overlapping; an open range overlaps everything that ends on or after
      its start. */
  lemma OverlapExamples()
    ensures Overlaps(1, Some(10), 5, Some(15))
    ensures !Overlaps(1, Some(10), 11, Some(20))
    ensures Overlaps(1, None, 100, Some(120)) && !Overlaps(30, None, 1, Some(29))
  {
  }
}
