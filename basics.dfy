/** Small general-purpose definitions shared by the rest of the model:
    optional values, results with an error, Python's integer operators
    that differ from Dafny's, and a first-match search over a sequence. */
module Basics {

  /** A value that may be absent (a nullable column, a `.first()` that found nothing). */
  datatype Option<+T> = None | Some(value: T) {
    /** The value, or `default` when absent (Python's `x or default` for a
        column whose only falsy value is NULL). */
    function GetOr(default: T): T {
      match this
      case Some(v) => v
      case None => default
    }
  }

  /** The outcome of an operation that can be refused. */
  datatype Result<+T, +E> = Ok(value: T) | Err(error: E)

  /** Python's `max(a, b)` on integers. */
  function Max(a: int, b: int): (m: int)
    ensures m >= a && m >= b
    ensures m == a || m == b
  {
    if a >= b then a else b
  }

  /** The key the store gives a new row: one more than the largest `key`
      of the rows in use, or 1 for an empty table. */
  function FreshKey<T>(rows: seq<T>, key: T -> int): (k: int)
    ensures forall i :: 0 <= i < |rows| ==> key(rows[i]) < k
    ensures k >= 1
  {
    if rows == [] then 1 else Max(key(rows[0]) + 1, FreshKey(rows[1..], key))
  }

  /** Python's floor division `a // b`.  Dafny's `/` is Euclidean, which
      agrees with flooring only for a positive divisor. */
  function FloorDiv(a: int, b: int): (q: int)
    requires b != 0
    ensures b > 0 ==> q * b <= a < q * b + b
    ensures b < 0 ==> q * b + b < a <= q * b
  {
    if b > 0 || a % b == 0 then a / b else a / b - 1
  }

  /** Flooring by a positive divisor is monotone in the dividend. */
  lemma FloorDivMonotone(a1: int, a2: int, b: int)
    requires b > 0 && a1 <= a2
    ensures FloorDiv(a1, b) <= FloorDiv(a2, b)
  {
    var q1, q2 := FloorDiv(a1, b), FloorDiv(a2, b);
    assert (q2 + 1 - q1) * b > 0;
  }

  /** The position of the first element of `s` that satisfies `p`, the way a
      `for` loop with `break` (or an early `return True`) finds it. */
  function FindFirst<T>(s: seq<T>, p: T -> bool): (k: Option<nat>)
    ensures k.None? <==> forall i :: 0 <= i < |s| ==> !p(s[i])
    ensures k.Some? ==> k.value < |s| && p(s[k.value])
    ensures k.Some? ==> forall j :: 0 <= j < k.value ==> !p(s[j])
  {
    if s == [] then None
    else if p(s[0]) then Some(0)
    else
      match FindFirst(s[1..], p)
      case None => None
      case Some(j) => Some(j + 1)
  }
}
