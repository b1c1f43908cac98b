/**
 * app/ResultScreen.tsx: the route parameters with their defaults, and the message chosen from
 * the ratio `score / total` by a nested ternary with thresholds 0.7 and 0.4.
 */
module ResultScreen {
  import opened Wrappers

  /** `{ score, total }`, each possibly absent. */
  datatype ResultParams = ResultParams(score: Option<int>, total: Option<int>)

  /** `const { score = 0, total = 10 } = route.params || {}`. */
  function ScoreAndTotal(params: Option<ResultParams>): (st: (int, int))
    ensures params.None? ==> st == (0, 10)
    ensures params.Some? ==> st == (params.value.score.GetOr(0), params.value.total.GetOr(10))
  {
    match params
    case None => (0, 10)
    case Some(p) => (p.score.GetOr(0), p.total.GetOr(10))
  }

  datatype Tier = GreatJob | GoodEffort | KeepPracticing

  function Message(tier: Tier): string {
    match tier
    case GreatJob => "Great job! \U{1F389}"
    case GoodEffort => "Good effort! \U{1F44D}"
    case KeepPracticing => "Keep practicing! \U{1F4AA}"
  }

  /** The value of `score / total` in JavaScript, with the non-finite results of a zero total. */
  datatype Quotient = Finite(value: real) | PositiveInfinity | NegativeInfinity | NaN

  function Divide(score: int, total: int): (q: Quotient)
    ensures total != 0 ==> q.Finite? && q.value * total as real == score as real
  {
    if total != 0 then Finite(score as real / total as real)
    else if score > 0 then PositiveInfinity
    else if score < 0 then NegativeInfinity
    else NaN
  }

  /** `q >= bound`; every comparison with NaN is false. */
  predicate AtLeast(q: Quotient, bound: real) {
    match q
    case Finite(v) => v >= bound
    case PositiveInfinity => true
    case NegativeInfinity => false
    case NaN => false
  }

  /**
   * For a positive total the tiers are the three ranges of the exact ratio; for a zero total a
   * positive score divides to +Infinity ("Great job!") and 0 / 0 is NaN ("Keep practicing!").
   */
  function TierOf(score: int, total: int): (tier: Tier)
    ensures total > 0 ==> (tier == GreatJob <==> score as real / total as real >= 0.7)
    ensures total > 0 ==> (tier == GoodEffort <==> 0.4 <= score as real / total as real < 0.7)
    ensures total > 0 ==> (tier == KeepPracticing <==> score as real / total as real < 0.4)
    ensures total == 0 ==> tier == if score > 0 then GreatJob else KeepPracticing
  {
    var ratio := Divide(score, total);
    if AtLeast(ratio, 0.7) then GreatJob
    else if AtLeast(ratio, 0.4) then GoodEffort
    else KeepPracticing
  }

  /** The message the screen shows for its route parameters. */
  function ResultMessage(params: Option<ResultParams>): (message: string)
    ensures var (score, total) := ScoreAndTotal(params);
            total > 0 ==> (message == Message(GreatJob) <==> 10 * score >= 7 * total)
    ensures var (score, total) := ScoreAndTotal(params);
            total > 0 ==> (message == Message(GoodEffort) <==> 4 * total <= 10 * score < 7 * total)
    ensures var (score, total) := ScoreAndTotal(params);
            total > 0 ==> (message == Message(KeepPracticing) <==> 10 * score < 4 * total)
    ensures var (score, total) := ScoreAndTotal(params); message == Message(TierOf(score, total))
  {
    var (score, total) := ScoreAndTotal(params);
    var message := Message(TierOf(score, total));
    if total > 0 then TierByCrossMultiplication(score, total); message else message
  }

  /** Tiers ordered from lowest to highest. */
  function Rank(tier: Tier): nat {
    match tier
    case KeepPracticing => 0
    case GoodEffort => 1
    case GreatJob => 2
  }

  /** The same three ranges by integer cross-multiplication, with no division. */
  lemma TierByCrossMultiplication(score: int, total: int)
    requires total > 0
    ensures TierOf(score, total) == GreatJob <==> 10 * score >= 7 * total
    ensures TierOf(score, total) == GoodEffort <==> 4 * total <= 10 * score < 7 * total
    ensures TierOf(score, total) == KeepPracticing <==> 10 * score < 4 * total
  {
    RatioAtLeast(score, total, 7);
    RatioAtLeast(score, total, 4);
  }

  /** score / total >= k / 10 is the integer inequality 10 * score >= k * total. */
  lemma RatioAtLeast(score: int, total: int, k: int)
    requires total > 0
    ensures score as real / total as real >= k as real / 10.0 <==> 10 * score >= k * total
  {
    var s, t := score as real, total as real;
    var r := s / t;
    assert r * t == s;
    ScaleByPositive(r, k as real / 10.0, t);
    assert (k as real / 10.0) * t == (k * total) as real / 10.0;
  }

  /** Multiplying both sides by a positive number keeps a comparison. */
  lemma ScaleByPositive(a: real, b: real, t: real)
    requires t > 0.0
    ensures a >= b <==> a * t >= b * t
  {
    if a >= b {
      assert (a - b) * t >= 0.0;
    } else {
      assert (b - a) * t > 0.0;
    }
  }

  /** For a fixed positive total a higher score never gives a lower tier. */
  lemma TierMonotone(score: int, higher: int, total: int)
    requires total > 0 && score <= higher
    ensures Rank(TierOf(score, total)) <= Rank(TierOf(higher, total))
  {
    TierByCrossMultiplication(score, total);
    TierByCrossMultiplication(higher, total);
  }

  /** With no parameters the screen shows 0 / 10, which is "Keep practicing!". */
  lemma DefaultsKeepPracticing()
    ensures ScoreAndTotal(None) == (0, 10)
    ensures ResultMessage(None) == "Keep practicing! \U{1F4AA}"
  {
  }
}
