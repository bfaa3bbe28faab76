/** Shared vocabulary of the recommenders: the failures they let escape to
    their caller, the result and option types that carry them, and the clamp
    that every rating predictor applies to its raw estimate. */
module Common {

  /** The failures the library raises instead of returning a value. */
  datatype Error =
    | UnknownMetric(name: string)   // a similarity name outside cosine / msd / pearson
    | IndexOutOfRange               // an id lookup the Python code does not guard
    | SingularSystem                // a ridge system whose matrix has no inverse
    | PoolTooSmall                  // sampling without replacement from too few candidates
    | KthOutOfBounds                // a partial sort asked for more items than exist

  datatype Result<T> = Ok(value: T) | Err(error: Error)

  datatype Option<T> = None | Some(value: T)

  function Min(a: nat, b: nat): nat {
    if a <= b then a else b
  }

  /** The set of a list's elements. */
  function Values(s: seq<nat>): set<nat> {
    set x | x in s
  }

  lemma ValuesCons(s: seq<nat>)
    requires |s| > 0
    ensures Values(s) == {s[0]} + Values(s[1..])
  {
    assert forall x | x in s :: x == s[0] || x in s[1..];
  }

  function Abs(x: real): real {
    if x < 0.0 then -x else x
  }

  /** `max(lo, min(hi, x))`, the clamp every predictor of the library applies. */
  function Clamp(x: real, lo: real, hi: real): (r: real)
    requires lo <= hi
    ensures lo <= r <= hi
    ensures lo <= x <= hi ==> r == x
    ensures x < lo ==> r == lo
    ensures hi < x ==> r == hi
  {
    if x > hi then hi else if x < lo then lo else x
  }

  /** The clamped value is the point of [lo, hi] nearest to the raw value. */
  lemma ClampIsNearest(x: real, lo: real, hi: real, y: real)
    requires lo <= hi && lo <= y <= hi
    ensures Abs(Clamp(x, lo, hi) - x) <= Abs(y - x)
  {
  }

  /** Clamping keeps the order of two values. */
  lemma ClampMonotone(x: real, y: real, lo: real, hi: real)
    requires lo <= hi && x <= y
    ensures Clamp(x, lo, hi) <= Clamp(y, lo, hi)
  {
  }
}
