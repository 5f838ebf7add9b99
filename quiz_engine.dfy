/**
 * One flashcard session: the words are shown one at a time, the meaning is
 * revealed on request, and the user grades themself; every grade appends a
 * result, and the grade of the last word hands all results to the caller.
 */
module QuizEngine {
  import opened Types

  class Session {
    const words: seq<WordItem>
    var currentIndex: nat
    var showMeaning: bool
    var results: seq<QuizResult>
    /** What the completion callback received, once it has been called. */
    var completed: Option<seq<QuizResult>>

    /** The current index stays on a word; the results are one per word
        answered, in word order; the callback gets all of them once the last
        word is answered. */
    ghost predicate Valid()
      reads this
    {
      && (|words| > 0 ==> currentIndex < |words|)
      && (|words| == 0 ==> currentIndex == 0 && !showMeaning && results == [] && completed.None?)
      && |results| <= |words|
      && (forall i :: 0 <= i < |results| ==> results[i].word == words[i])
      && (completed.None? ==> |results| == currentIndex)
      && (completed.Some? ==> completed.value == results && |results| == |words| && currentIndex == |words| - 1)
    }

    constructor (words: seq<WordItem>)
      ensures Valid()
      ensures this.words == words && currentIndex == 0 && !showMeaning && results == [] && completed == None
    {
      this.words := words;
      currentIndex := 0;
      showMeaning := false;
      results := [];
      completed := None;
    }

    /** The reveal button: it is only rendered, with the current word, while
        the meaning is hidden. */
    method Reveal()
      requires Valid() && completed.None?
      requires |words| > 0 && !showMeaning
      modifies this`showMeaning
      ensures Valid()
      ensures showMeaning
    {
      showMeaning := true;
    }

    /** The two grading buttons: they are only rendered once the meaning is
        shown. The result for the current word is appended; then the next
        word comes with its meaning hidden, or, after the last word, the
        completion callback receives every result. */
    method Answer(isCorrect: bool)
      requires Valid() && completed.None?
      requires showMeaning
      modifies this`currentIndex, this`showMeaning, this`results, this`completed
      ensures Valid()
      ensures results == old(results) + [QuizResult(words[old(currentIndex)], isCorrect)]
      ensures old(currentIndex) < |words| - 1 ==>
        currentIndex == old(currentIndex) + 1 && !showMeaning && completed.None?
      ensures old(currentIndex) == |words| - 1 ==>
        currentIndex == old(currentIndex) && showMeaning == old(showMeaning) && completed == Some(results)
      ensures completed.Some? ==> SessionOutcome(words, completed.value)
    {
      var newResult := QuizResult(words[currentIndex], isCorrect);
      var updatedResults := results + [newResult];
      results := updatedResults;
      if currentIndex < |words| - 1 {
        currentIndex := currentIndex + 1;
        showMeaning := false;
      } else {
        completed := Some(updatedResults);
      }
    }
  }

  /** What a finished session hands to its completion callback: one result
      per word of the quiz list, in the list's order. */
  predicate SessionOutcome(words: seq<WordItem>, rs: seq<QuizResult>)
  {
    |rs| == |words| && forall i :: 0 <= i < |words| ==> rs[i].word == words[i]
  }

  /** A whole session driven to its end: reveal and grade each word in turn
      with the given grades. What the completion callback receives pairs
      every word, in order, with its grade. */
  method RunSession(words: seq<WordItem>, grades: seq<bool>) returns (outcome: seq<QuizResult>)
    requires |words| > 0 && |grades| == |words|
    ensures SessionOutcome(words, outcome)
    ensures forall i :: 0 <= i < |words| ==> outcome[i] == QuizResult(words[i], grades[i])
  {
    var session := new Session(words);
    while session.completed.None?
      invariant session.Valid() && session.words == words
      invariant forall i :: 0 <= i < |session.results| ==> session.results[i].isCorrect == grades[i]
      invariant session.completed.Some? ==> session.completed.value == session.results
      decreases |words| - |session.results|
    {
      if !session.showMeaning {
        session.Reveal();
      }
      session.Answer(grades[session.currentIndex]);
    }
    outcome := session.completed.value;
  }
}
