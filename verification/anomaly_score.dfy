/**
  The anomaly score of checkWordUpdateScore and inspectScore: an
  inconsistent word raises the score by sqrt(L), a consistent one lowers it
  by sqrt(L) down to 0, and a score above SCORE_THRESHOLD is reset to 0 and
  raises the alert (exitToHome).
 */
module AnomalyScore {

  /** SCORE_THRESHOLD. */
  const ScoreThreshold: real := 20.0

  /** The score after a judged word and whether the alert was raised. */
  datatype Verdict = Verdict(score: real, alert: bool)

  /** The score after judging one word, before inspectScore looks at it. */
  function Judge(score: real, step: real, consistent: bool): (r: real)
    ensures consistent && 0.0 <= score && 0.0 <= step ==> 0.0 <= r <= score
    ensures !consistent && 0.0 <= step ==> score <= r
  {
    if !consistent then score + step
    else if score - step < 0.0 then 0.0
    else score - step
  }

  /** inspectScore: a score above the threshold is reset to 0 and raises the alert. */
  function Inspect(score: real): (v: Verdict)
    ensures v.alert <==> score > ScoreThreshold
    ensures v.score <= ScoreThreshold && (0.0 <= score ==> 0.0 <= v.score)
    ensures !v.alert ==> v.score == score
  {
    if score > ScoreThreshold then Verdict(0.0, true) else Verdict(score, false)
  }

  /** The score update of checkWordUpdateScore, step being sqrt of the word's length. */
  function Rescore(score: real, step: real, consistent: bool): (v: Verdict)
    ensures v.score <= ScoreThreshold
    ensures v.alert ==> v.score == 0.0
    ensures 0.0 <= score && 0.0 <= step ==> 0.0 <= v.score
  {
    Inspect(Judge(score, step, consistent))
  }

  /** Starting from a score in [0, 20], the score stays in [0, 20] after any judged word. */
  lemma RescoreInRange(score: real, step: real, consistent: bool)
    requires 0.0 <= score && 0.0 <= step
    ensures 0.0 <= Rescore(score, step, consistent).score <= ScoreThreshold
  {
  }

  /** The alert is raised exactly when the judged score exceeds the threshold, and it leaves the score at 0. */
  lemma AlertExactlyAboveThreshold(score: real, step: real, consistent: bool)
    ensures Rescore(score, step, consistent).alert <==> Judge(score, step, consistent) > ScoreThreshold
    ensures Rescore(score, step, consistent).alert ==> Rescore(score, step, consistent).score == 0.0
  {
  }

  /**
    A consistent word never raises the score or the alert: it lowers the score
    by step, or to 0 when that would go below 0.
   */
  lemma ConsistentLowers(score: real, step: real)
    requires 0.0 <= score <= ScoreThreshold && 0.0 <= step
    ensures !Rescore(score, step, true).alert
    ensures Rescore(score, step, true).score <= score
    ensures Rescore(score, step, true).score == (if score < step then 0.0 else score - step)
  {
  }

  /** An inconsistent word that does not push the score over the threshold adds exactly step. */
  lemma InconsistentRaises(score: real, step: real)
    requires score + step <= ScoreThreshold
    ensures Rescore(score, step, false) == Verdict(score + step, false)
  {
  }

  /** The verdict after k inconsistent words in a row: the final score and whether any of them raised the alert. */
  function Streak(score: real, step: real, k: nat): Verdict
  {
    if k == 0 then Verdict(score, false)
    else
      var p := Streak(score, step, k - 1);
      var r := Rescore(p.score, step, false);
      Verdict(r.score, p.alert || r.alert)
  }

  /** While the penalties stay within the threshold, a streak only adds them up. */
  lemma {:induction false} StreakBelowThreshold(score: real, step: real, k: nat)
    requires 0.0 <= step && score + k as real * step <= ScoreThreshold
    ensures Streak(score, step, k) == Verdict(score + k as real * step, false)
  {
    if k > 0 {
      assert k as real * step == (k - 1) as real * step + step;
      StreakBelowThreshold(score, step, k - 1);
    }
  }

  /** The word whose penalty first takes the score over the threshold raises the alert and resets the score. */
  lemma StreakAlerts(score: real, step: real, k: nat)
    requires 1 <= k && 0.0 <= step
    requires score + (k - 1) as real * step <= ScoreThreshold < score + k as real * step
    ensures Streak(score, step, k) == Verdict(0.0, true)
  {
    assert k as real * step == (k - 1) as real * step + step;
    StreakBelowThreshold(score, step, k - 1);
  }

  /** From a score of 0, ten inconsistent four-letter words (step sqrt(4) = 2) reach 20 silently; the eleventh raises the alert. */
  lemma FourLetterStreak()
    ensures Streak(0.0, 2.0, 10) == Verdict(20.0, false)
    ensures Streak(0.0, 2.0, 11) == Verdict(0.0, true)
  {
    StreakBelowThreshold(0.0, 2.0, 10);
    StreakAlerts(0.0, 2.0, 11);
  }
}
