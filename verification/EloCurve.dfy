/** The expected score of one engine against another. */
module EloCurve {
  import opened Wrappers

  /** The logistic curve over rating differences, of which only its range is used: any function with values
      strictly between zero and one. */
  type Logistic = f: real -> real | forall d :: 0.0 < f(d) < 1.0 witness (d: real) => 0.5

  function Clamp(d: real): real {
    if d > 4000.0 then 4000.0 else if d < -4000.0 then -4000.0 else d
  }

  /** `expected_score`: the difference is limited to 4000 points either way. */
  function ExpectedScore(curve: Logistic, rating: real, opponent: real): real {
    curve(Clamp(rating - opponent))
  }

  /** The higher rated engine's lead counts up to 4000 points, for or against. */
  lemma LeadIsLimited(curve: Logistic, rating: real, opponent: real)
    ensures rating - opponent > 4000.0 ==> ExpectedScore(curve, rating, opponent) == curve(4000.0)
    ensures opponent - rating > 4000.0 ==> ExpectedScore(curve, rating, opponent) == curve(-4000.0)
    ensures -4000.0 <= rating - opponent <= 4000.0 ==>
              ExpectedScore(curve, rating, opponent) == curve(rating - opponent)
  {
  }

  /** The position whose rating stays fixed: the anchor's, or the first. */
  function FixedIndex(anchor: Option<nat>): nat {
    if anchor.Some? then anchor.value else 0
  }

  lemma AnchorIsFixed(anchor: nat)
    ensures FixedIndex(Some(anchor)) == anchor && FixedIndex(None) == 0
  {
  }
}
