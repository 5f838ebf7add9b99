/**
 * Worked examples of the quiz flow on concrete data.
 */
module Scenarios {
  import opened Types
  import opened Selection
  import opened Mastery
  import opened ResultView

  function W(n: int): WordItem
  {
    WordItem(Num(n), "w", "m")
  }

  /** Words numbered 1 to 5, the sequential order and three questions
      select exactly the words 1, 2 and 3. */
  lemma SequentialScenario(words: seq<WordItem>)
    requires |words| == 5 && forall i :: 0 <= i < 5 ==> words[i].no == Num(i + 1)
    ensures ValidSelection(words, QuizSettings(1, Num(5), 3, Sequential), words[..3])
  {
    FilterRangeAll(words, 1, Num(5));
    SortByNoSorted(words);
  }

  /** Word 1 right twice and word 2 wrong once, on an empty ledger, give
      the ledger {1: 2 of 2, 2: 0 of 1} and an accuracy of 67. */
  lemma LedgerScenario()
    ensures Aggregate(map[], [QuizResult(W(1), true), QuizResult(W(2), false), QuizResult(W(1), true)])
      == map[Num(1) := WordMastery(2, 2), Num(2) := WordMastery(0, 1)]
    ensures Accuracy([QuizResult(W(1), true), QuizResult(W(2), false), QuizResult(W(1), true)]) == 67
  {
    var rs := [QuizResult(W(1), true), QuizResult(W(2), false), QuizResult(W(1), true)];
    assert rs[..2][..1] == [rs[0]];
    assert rs[..2] == [rs[0], rs[1]];
    assert CorrectCount(rs) == 2;
  }

  /** Two of five answers wrong: the review quiz holds exactly those two words. */
  lemma ReviewScenario(quiz: seq<WordItem>)
    requires ValidReview([QuizResult(W(1), true), QuizResult(W(2), false), QuizResult(W(3), true), QuizResult(W(4), false), QuizResult(W(5), true)], quiz)
    ensures multiset(quiz) == multiset{W(2), W(4)}
  {
    var rs := [QuizResult(W(1), true), QuizResult(W(2), false), QuizResult(W(3), true), QuizResult(W(4), false), QuizResult(W(5), true)];
    assert MissedWords(rs) == [W(2), W(4)];
  }
}
