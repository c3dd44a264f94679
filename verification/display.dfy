/**
 The values each ranked item is displayed with: a row of stars, `min(5, round(score))` of
 them (none when that count is negative), and the score capped at 5.0 for the score text.
 */
module Display {
  import opened Ranking

  /** Most stars an item can show. */
  const MaxStars: int := 5

  /** Cap applied to the displayed score. */
  const MaxShownScore: real := 5.0

  /** The star glyph. */
  const Star: char := '\U{2B50}'

  /** Python's `text * n` for a one-character text: `n` copies, and none when `n <= 0`. */
  function Repeat(c: char, n: int): (r: string)
    ensures |r| == if n <= 0 then 0 else n
    ensures forall i :: 0 <= i < |r| ==> r[i] == c
    decreases n
  {
    if n <= 0 then "" else [c] + Repeat(c, n - 1)
  }

  /** Number of stars for a score: `min(5, round(score))`, and none when that is negative. */
  function StarCount(score: real, round: real -> int): (n: int)
    ensures 0 <= n <= MaxStars
    ensures n == MaxStars <==> round(score) >= MaxStars
    ensures 0 < n < MaxStars ==> n == round(score)
    ensures n == 0 <==> round(score) <= 0
  {
    if round(score) <= 0 then 0 else if round(score) < MaxStars then round(score) else MaxStars
  }

  /**
   The star string `"⭐" * min(5, int(round(score)))`; `round` is the host language's
   rounding of a score to an integer.
   */
  function Stars(score: real, round: real -> int): (r: string)
    ensures |r| <= MaxStars
    ensures forall i :: 0 <= i < |r| ==> r[i] == Star
    ensures round(score) <= 0 ==> r == ""
    ensures round(score) >= MaxStars ==> |r| == MaxStars
    ensures 0 <= round(score) <= MaxStars ==> |r| == round(score)
    ensures |r| == StarCount(score, round)
  {
    Repeat(Star, if round(score) < MaxStars then round(score) else MaxStars)
  }

  /** `min(score, 5.0)`: the displayed score, never above 5.0 and otherwise the score itself. */
  function ShownScore(score: real): (r: real)
    ensures r <= MaxShownScore && r <= score
    ensures r == score || r == MaxShownScore
  {
    if score <= MaxShownScore then score else MaxShownScore
  }

  /**
   One displayed recommendation: the name, stars and capped score are shown; the raw score is
   kept for ranking but not shown.
   */
  datatype Card = Card(name: string, score: real, stars: string, shown: real)

  /**
   The display values of one ranked prediction: its name, `min(5, round(score))` stars (none
   when negative) and the score capped at 5.0, together with the raw score.
   */
  function CardOf(p: Prediction, round: real -> int): (r: Card)
    ensures r.name == p.name && r.score == p.score
    ensures |r.stars| == StarCount(p.score, round)
    ensures forall i :: 0 <= i < |r.stars| ==> r.stars[i] == Star
    ensures r.shown <= MaxShownScore && r.shown <= p.score
    ensures p.score <= MaxShownScore ==> r.shown == p.score
    ensures MaxShownScore < p.score ==> r.shown == MaxShownScore
  {
    Card(p.name, p.score, Stars(p.score, round), ShownScore(p.score))
  }

  /** The display values of a ranked list, in ranked order. */
  function Cards(ps: seq<Prediction>, round: real -> int): (r: seq<Card>)
    ensures |r| == |ps|
    ensures forall i :: 0 <= i < |r| ==> r[i] == CardOf(ps[i], round)
  {
    seq(|ps|, i requires 0 <= i < |ps| => CardOf(ps[i], round))
  }

  /**
   With any rounding to a nearest integer (half-to-even included), a score of 6.2 shows five
   stars and "5.0", and a score of 0.4 shows no star and "0.4".
   */
  lemma DisplayOfSampleScores(round: real -> int)
    requires forall x :: -0.5 <= round(x) as real - x <= 0.5
    ensures |Stars(6.2, round)| == 5 && ShownScore(6.2) == 5.0
    ensures Stars(0.4, round) == "" && ShownScore(0.4) == 0.4
  {
    assert -0.5 <= round(6.2) as real - 6.2 <= 0.5;
    assert -0.5 <= round(0.4) as real - 0.4 <= 0.5;
  }

  /**
   A ranked list shown with a monotone rounding has non-increasing star counts and
   displayed scores, so the display agrees with the ranking order.
   */
  lemma CardsFollowRanking(ps: seq<Prediction>, round: real -> int)
    requires IsDescending(ps)
    requires forall x, y :: x <= y ==> round(x) <= round(y)
    ensures forall i, j :: 0 <= i < j < |ps| ==>
      |Cards(ps, round)[i].stars| >= |Cards(ps, round)[j].stars| &&
      Cards(ps, round)[i].shown >= Cards(ps, round)[j].shown
  {
    forall i, j | 0 <= i < j < |ps|
      ensures |Cards(ps, round)[i].stars| >= |Cards(ps, round)[j].stars|
    {
      assert round(ps[i].score) >= round(ps[j].score);
    }
  }
}
