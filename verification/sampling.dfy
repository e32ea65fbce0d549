/**
 The sampling fraction `load_small_sample` hands to the sampler: the requested
 percentage over 100, held between 1% and 50% whatever the slider allowed.
 */
module Sampling {

  const MinFraction: real := 0.01
  const MaxFraction: real := 0.5

  /** Python's two-argument `max` and `min`. */
  function Max(a: real, b: real): real {
    if a >= b then a else b
  }

  function Min(a: real, b: real): real {
    if a <= b then a else b
  }

  function Abs(x: real): real {
    if x < 0.0 then -x else x
  }

  /** `max(0.01, min(0.5, pct / 100))`. */
  function ClampFraction(pct: int): (f: real)
    ensures MinFraction <= f <= MaxFraction
    ensures f == pct as real / 100.0 <==> 1 <= pct <= 50
    ensures pct >= 50 ==> f == MaxFraction
    ensures pct <= 1 ==> f == MinFraction
  {
    Max(MinFraction, Min(MaxFraction, pct as real / 100.0))
  }

  /**
   The clamp is the point of [1%, 50%] nearest to the requested fraction, so
   no other admissible fraction is closer to what the user asked for.
   */
  lemma ClampIsNearest(pct: int, y: real)
    requires MinFraction <= y <= MaxFraction
    ensures Abs(ClampFraction(pct) - pct as real / 100.0) <= Abs(y - pct as real / 100.0)
  {
  }

  /** A larger percentage never gives a smaller fraction. */
  lemma ClampMonotonic(p: int, q: int)
    requires p <= q
    ensures ClampFraction(p) <= ClampFraction(q)
  {
  }

  /** The worked cases: 200% is held to 50%, 0% is raised to 1%, 5% is kept. */
  lemma ClampExamples()
    ensures ClampFraction(200) == 0.5
    ensures ClampFraction(0) == 0.01
    ensures ClampFraction(5) == 0.05
  {
  }
}
