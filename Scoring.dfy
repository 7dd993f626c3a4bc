/** The results screen (`showResults` in assets/js/script.js): the score as a
    rounded percentage and the closing message chosen by a threshold ladder.
    `Math.round(score / total * 100)` is computed on exact integers; for the
    non-negative operands the quiz uses it rounds halves up, as `Math.round` does. */
module Scoring {

  /** The four closing messages, from the top tier down. */
  datatype Tier = TriviaMaster | GreatJob | NotBad | KeepPracticing

  /** What the results screen shows: `score/total`, and the tier's message with the percentage. */
  datatype Summary = Summary(score: nat, total: nat, percentage: nat, tier: Tier, message: string)

  /** The percentage shown for `score` correct answers out of `total` questions:
      the integer nearest to `100 * score / total`, halves rounded up. */
  function Percentage(score: nat, total: nat): (p: nat)
    requires total > 0
    ensures 2 * total * p <= 200 * score + total < 2 * total * p + 2 * total
  {
    (200 * score + total) / (2 * total)
  }

  /** The least percentage that earns each tier (the bottom tier has none). */
  function Threshold(t: Tier): int
  {
    match t
    case TriviaMaster => 90
    case GreatJob => 70
    case NotBad => 50
    case KeepPracticing => 0
  }

  /** Tiers in order: the higher the rank, the better the message. */
  function Rank(t: Tier): nat
  {
    match t
    case TriviaMaster => 3
    case GreatJob => 2
    case NotBad => 1
    case KeepPracticing => 0
  }

  /** Whether a percentage earns tier `t`: the bottom tier is always earned. */
  predicate Earns(percentage: int, t: Tier)
  {
    t == KeepPracticing || percentage >= Threshold(t)
  }

  /** The `if`/`else if` ladder of `showResults`: exactly one branch runs. */
  function TierOf(percentage: int): (t: Tier)
    ensures Earns(percentage, t)
    ensures forall u: Tier :: Rank(u) > Rank(t) ==> !Earns(percentage, u)
  {
    if percentage >= 90 then TriviaMaster
    else if percentage >= 70 then GreatJob
    else if percentage >= 50 then NotBad
    else KeepPracticing
  }

  /** The message text of each tier, as the source spells it (its emoji are stored
      mis-encoded, and are reproduced character for character). */
  function Message(t: Tier): string
  {
    match t
    case TriviaMaster => "Outstanding! You're a trivia master! \U{00F0}\U{0178}\U{2020}"
    case GreatJob => "Great job! You really know your stuff! \U{00F0}\U{0178}\U{2018}"
    case NotBad => "Not bad! Room for improvement, but well done! \U{00F0}\U{0178}\U{2018}"
    case KeepPracticing => "Keep practicing! Every expert was once a beginner! \U{00F0}\U{0178}\U{2019}\U{00AA}"
  }

  /** Everything `showResults` puts on screen for a finished session. */
  function Summarise(score: nat, total: nat): (s: Summary)
    requires total > 0
    ensures s.score == score && s.total == total
    ensures s.percentage == Percentage(score, total) && s.tier == TierOf(s.percentage)
    ensures s.message == Message(s.tier)
  {
    var p := Percentage(score, total);
    Summary(score, total, p, TierOf(p), Message(TierOf(p)))
  }

  /** A positive factor can be cancelled from both sides of a strict inequality. */
  lemma CancelFactor(c: nat, a: nat, b: nat)
    requires c > 0 && c * a < c * b
    ensures a < b
  {
  }

  /** With no more correct answers than questions, the percentage lies in [0, 100]. */
  lemma PercentageAtMostHundred(score: nat, total: nat)
    requires 0 < total && score <= total
    ensures Percentage(score, total) <= 100
  {
    var p := Percentage(score, total);
    assert 2 * total * p < 2 * total * 101;
    CancelFactor(2 * total, p, 101);
  }

  /** More correct answers never lower the percentage. */
  lemma PercentageMonotone(score1: nat, score2: nat, total: nat)
    requires 0 < total && score1 <= score2
    ensures Percentage(score1, total) <= Percentage(score2, total)
  {
    var p1, p2 := Percentage(score1, total), Percentage(score2, total);
    assert 2 * total * p1 < 2 * total * (p2 + 1);
    CancelFactor(2 * total, p1, p2 + 1);
  }

  /** All answers correct gives 100 percent; none gives 0 percent. */
  lemma PercentageExtremes(total: nat)
    requires 0 < total
    ensures Percentage(total, total) == 100
    ensures Percentage(0, total) == 0
  {
    var full, none := Percentage(total, total), Percentage(0, total);
    CancelFactor(2 * total, full, 101);
    CancelFactor(2 * total, 100, full + 1);
    CancelFactor(2 * total, none, 1);
  }

  /** A higher percentage never earns a lower tier. */
  lemma TierMonotone(p1: int, p2: int)
    requires p1 <= p2
    ensures Rank(TierOf(p1)) <= Rank(TierOf(p2))
  {
  }

  /** A better score never earns a lower tier. */
  lemma TierMonotoneInScore(score1: nat, score2: nat, total: nat)
    requires 0 < total && score1 <= score2
    ensures Rank(Summarise(score1, total).tier) <= Rank(Summarise(score2, total).tier)
  {
    PercentageMonotone(score1, score2, total);
    TierMonotone(Percentage(score1, total), Percentage(score2, total));
  }

  /** Ten questions, all answered correctly: 10/10, 100 percent, the top tier. */
  lemma AllTenCorrect()
    ensures Summarise(10, 10) == Summary(10, 10, 100, TriviaMaster, Message(TriviaMaster))
  {
  }

  /** Ten questions, six answered correctly: 60 percent, the third tier. */
  lemma SixOfTenCorrect()
    ensures Summarise(6, 10) == Summary(6, 10, 60, NotBad, Message(NotBad))
  {
  }
}
