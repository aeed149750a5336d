/** The five satisfaction tiers and the priority-ordered rule that picks one
    (lines 59-68 of the script). */
module Classifier {

  datatype Tier = Blue | Green | Yellow | Amber | Red

  /** The background colour the report gives each tier. */
  function Hex(t: Tier): string {
    match t
    case Blue => "#0000FF"
    case Green => "#00B050"
    case Yellow => "#FFFF00"
    case Amber => "#FFBF00"
    case Red => "#FF0000"
  }

  /** The first rule that matches wins. */
  function Classify(score: real, very: real, satisfied: real): Tier {
    if 0.8 <= score && very >= satisfied then Blue
    else if 0.8 <= score then Green
    else if 0.7 <= score < 0.8 then Yellow
    else if 0.5 <= score < 0.7 then Amber
    else Red
  }

  /** Every tier's band, stated independently of rule order: the bands are
      half-open, closed at the lower bound, and cover every input. */
  lemma TierBands(score: real, very: real, satisfied: real)
    ensures Classify(score, very, satisfied) == Blue <==> 0.8 <= score && very >= satisfied
    ensures Classify(score, very, satisfied) == Green <==> 0.8 <= score && very < satisfied
    ensures Classify(score, very, satisfied) == Yellow <==> 0.7 <= score < 0.8
    ensures Classify(score, very, satisfied) == Amber <==> 0.5 <= score < 0.7
    ensures Classify(score, very, satisfied) == Red <==> score < 0.5
  {
  }

  /** The five colours are distinct, so the colour written in the report
      determines the tier. */
  lemma HexInjective(t: Tier, u: Tier)
    ensures Hex(t) == Hex(u) ==> t == u
  {
  }

  /** How good a tier is; Blue and Green share the top rank. */
  function Rank(t: Tier): (r: nat)
    ensures r <= 3
    ensures r == 3 <==> t == Blue || t == Green
  {
    match t
    case Red => 0
    case Amber => 1
    case Yellow => 2
    case Green => 3
    case Blue => 3
  }

  /** A higher score never yields a worse tier, whatever the two ratios. */
  lemma ClassifyMonotone(s1: real, v1: real, a1: real, s2: real, v2: real, a2: real)
    requires s1 <= s2
    ensures Rank(Classify(s1, v1, a1)) <= Rank(Classify(s2, v2, a2))
  {
  }

  /** Boundary cases: a score of exactly 0.7 is yellow, exactly 0.5 amber,
      exactly 0.8 green when the satisfied outnumber the very satisfied and
      blue otherwise. */
  lemma ClassifyBoundaries(very: real, satisfied: real)
    ensures Classify(0.7, very, satisfied) == Yellow
    ensures Classify(0.5, very, satisfied) == Amber
    ensures very < satisfied ==> Classify(0.8, very, satisfied) == Green
    ensures very >= satisfied ==> Classify(0.8, very, satisfied) == Blue
  {
  }
}
