/** Index arithmetic on a polygon's cyclic point sequence (`Polygon.get_next`)
    and the walks that repeated stepping produces. */
module Cyclic {

  /** One of the two stepping directions the generator uses. */
  predicate IsStep(d: int) { d == 1 || d == -1 }

  /** `get_next`: steps from `current` by `increment`, wrapping at both ends of
      a cycle of length `n`. */
  function GetNext(n: int, current: int, increment: int): (r: int)
    ensures 0 <= current < n && IsStep(increment) ==> 0 <= r < n
  {
    if current == 0 && increment == -1 then n - 1
    else if current == n - 1 && increment == 1 then 0
    else current + increment
  }

  /** A step of `get_next` from a valid index is a step modulo `n`. */
  lemma GetNextIsModStep(n: int, current: int, increment: int)
    requires 0 <= current < n && IsStep(increment)
    ensures GetNext(n, current, increment) == (current + increment) % n
  {
    var r := GetNext(n, current, increment);
    ModOfNear(current + increment, n, r);
  }

  /** A number within one `n` of a residue `r` has remainder `r`. */
  lemma ModOfNear(x: int, n: int, r: int)
    requires 0 <= r < n && (x == r || x == r + n || x == r - n)
    ensures x % n == r
  {
    if x == r + n {
      assert x / n == 1;
    } else if x == r - n {
      assert x / n == -1;
    }
  }

  /** Stepping forward and then back (or back and then forward) returns to the start. */
  lemma GetNextInverse(n: int, c: int, d: int)
    requires 0 <= c < n && IsStep(d)
    ensures GetNext(n, GetNext(n, c, d), -d) == c
  {
  }

  /** The index reached after `k` steps of `get_next` in direction `d`. */
  function Walk(n: int, start: int, d: int, k: nat): (r: int)
    requires 0 <= start < n && IsStep(d)
    ensures 0 <= r < n
  {
    if k == 0 then start else GetNext(n, Walk(n, start, d, k - 1), d)
  }

  /** The offset, in direction `d`, from `start` to `target`. */
  function Dist(n: int, start: int, target: int, d: int): int
  {
    if d == 1 then (if target >= start then target - start else target - start + n)
    else (if start >= target then start - target else start - target + n)
  }

  /** Fewer than `n` steps land at the index the offset arithmetic predicts. */
  lemma {:induction false} WalkClosedForm(n: int, start: int, d: int, k: nat)
    requires 0 <= start < n && IsStep(d) && k < n
    ensures d == 1 ==> Walk(n, start, d, k) == (if start + k < n then start + k else start + k - n)
    ensures d == -1 ==> Walk(n, start, d, k) == (if start - k >= 0 then start - k else start - k + n)
  {
    if k > 0 {
      WalkClosedForm(n, start, d, k - 1);
    }
  }

  /** Walking `Dist` steps reaches the target, and no earlier step does. */
  lemma WalkReaches(n: int, start: int, target: int, d: int)
    requires 0 <= start < n && 0 <= target < n && IsStep(d)
    ensures 0 <= Dist(n, start, target, d) < n
    ensures Walk(n, start, d, Dist(n, start, target, d)) == target
    ensures forall k: nat :: k < Dist(n, start, target, d) ==> Walk(n, start, d, k) != target
  {
    WalkClosedForm(n, start, d, Dist(n, start, target, d));
    forall k: nat | k < Dist(n, start, target, d)
      ensures Walk(n, start, d, k) != target
    {
      WalkClosedForm(n, start, d, k);
    }
  }
}
