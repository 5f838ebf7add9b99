/**
 * The result screen's figures: how many answers were right and wrong, the
 * rounded accuracy, and whether the review of missed words is offered.
 */
module ResultView {
  import opened Types
  import opened JsNumbers
  import opened Selection

  /** `results.filter(r => r.isCorrect).length`. */
  function CorrectCount(rs: seq<QuizResult>): (c: nat)
    ensures c <= |rs|
    ensures c == 0 <==> forall i :: 0 <= i < |rs| ==> !rs[i].isCorrect
    ensures c == |rs| <==> forall i :: 0 <= i < |rs| ==> rs[i].isCorrect
  {
    if rs == [] then 0
    else
      var rest := CorrectCount(rs[1..]);
      assert forall i :: 1 <= i < |rs| ==> rs[i] == rs[1..][i - 1];
      (if rs[0].isCorrect then 1 else 0) + rest
  }

  /** `totalCount - correctCount`. */
  function MissedCount(rs: seq<QuizResult>): (m: nat)
    ensures m + CorrectCount(rs) == |rs|
  {
    |rs| - CorrectCount(rs)
  }

  /** `Math.round((correctCount / totalCount) * 100)`; the screen is only
      shown after a session with at least one answer. */
  function Accuracy(rs: seq<QuizResult>): (a: int)
    requires |rs| > 0
    ensures 0 <= a <= 100
    ensures a == 100 <==> 200 * CorrectCount(rs) >= 199 * |rs|
    ensures a == 0 <==> 200 * CorrectCount(rs) < |rs|
  {
    var c, t := CorrectCount(rs), |rs|;
    RoundPercentBounds(c, t);
    RoundPercent(c, t)
  }

  /** The review button is rendered when some answer was wrong. */
  predicate ReviewOffered(rs: seq<QuizResult>)
  {
    MissedCount(rs) > 0
  }

  /** The review quiz has exactly as many words as answers were wrong. */
  lemma {:induction false} MissedWordsCount(rs: seq<QuizResult>)
    ensures |MissedWords(rs)| == MissedCount(rs)
  {
    if rs != [] {
      MissedWordsCount(rs[1..]);
    }
  }

  /** The review is offered exactly when there are missed words to review,
      that is when some answer was marked wrong. */
  lemma ReviewOfferedIff(rs: seq<QuizResult>)
    ensures ReviewOffered(rs) <==> MissedWords(rs) != []
    ensures ReviewOffered(rs) <==> exists i :: 0 <= i < |rs| && !rs[i].isCorrect
  {
    MissedWordsCount(rs);
  }

  /** All answers right gives 100, all wrong gives 0. */
  lemma AccuracyExtremes(rs: seq<QuizResult>)
    requires |rs| > 0
    ensures (forall i :: 0 <= i < |rs| ==> rs[i].isCorrect) ==> Accuracy(rs) == 100
    ensures (forall i :: 0 <= i < |rs| ==> !rs[i].isCorrect) ==> Accuracy(rs) == 0
  {
  }
}
