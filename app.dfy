/**
 * The application's state and its handlers: which screen is shown, the
 * notebook list, the active notebook, the current quiz list, the last
 * results and settings. Each handler assigns new values to these fields.
 */
module App {
  import opened Types
  import opened Selection
  import opened Mastery
  import opened Notebooks
  import opened QuizEngine

  class AppState {
    var stage: Stage
    var notebooks: seq<Notebook>
    var activeNotebookId: Option<string>
    var quizList: seq<WordItem>
    var results: seq<QuizResult>
    var settings: QuizSettings

    /** Every ledger is consistent, and the result screen always has
        results to show. */
    ghost predicate Valid()
      reads this
    {
      AllConsistent(notebooks) && (stage == ResultScreen ==> |results| > 0)
    }

    constructor ()
      ensures Valid()
      ensures stage == Upload && notebooks == [] && activeNotebookId == None
      ensures quizList == [] && results == [] && settings == InitialSettings
    {
      stage := Upload;
      notebooks := [];
      activeNotebookId := None;
      quizList := [];
      results := [];
      settings := InitialSettings;
    }

    /** An import succeeded: the new notebook goes first and becomes active. */
    method DataLoaded(data: seq<WordItem>, id: string, createdAt: int)
      requires Valid()
      modifies this`notebooks, this`activeNotebookId, this`stage
      ensures Valid()
      ensures notebooks == [NewNotebook(id, |old(notebooks)|, data, createdAt)] + old(notebooks)
      ensures activeNotebookId == Some(id) && stage == Settings
    {
      var newNotebook := NewNotebook(id, |notebooks|, data, createdAt);
      notebooks := [newNotebook] + notebooks;
      activeNotebookId := Some(id);
      stage := Settings;
    }

    method UpdateName(id: string, newName: string)
      requires Valid()
      modifies this`notebooks
      ensures Valid()
      ensures notebooks == Rename(old(notebooks), id, newName)
    {
      notebooks := Rename(notebooks, id, newName);
    }

    method SelectNotebook(id: string)
      requires Valid()
      modifies this`activeNotebookId, this`stage
      ensures Valid()
      ensures activeNotebookId == Some(id) && stage == Settings
    {
      activeNotebookId := Some(id);
      stage := Settings;
    }

    /** Deleting needs the user's confirmation, given as `confirmed`. */
    method DeleteNotebook(id: string, confirmed: bool)
      requires Valid()
      modifies this`notebooks
      ensures Valid()
      ensures notebooks == if confirmed then Remove(old(notebooks), id) else old(notebooks)
    {
      if confirmed {
        notebooks := Remove(notebooks, id);
      }
    }

    /** Starts a quiz on the active notebook; without one nothing happens.
        The random order takes whatever arrangement the shuffle returns. */
    method StartQuiz(newSettings: QuizSettings)
      requires Valid()
      modifies this`settings, this`quizList, this`results, this`stage
      ensures Valid()
      ensures FindNotebook(notebooks, activeNotebookId).None? ==>
        settings == old(settings) && quizList == old(quizList) && results == old(results) && stage == old(stage)
      ensures FindNotebook(notebooks, activeNotebookId).Some? ==>
        && settings == newSettings
        && ValidSelection(FindNotebook(notebooks, activeNotebookId).value.words, newSettings, quizList)
        && results == [] && stage == Quiz
    {
      var active := FindNotebook(notebooks, activeNotebookId);
      if active.None? {
        return;
      }
      settings := newSettings;
      var filtered := FilterRange(active.value.words, newSettings.rangeStart, newSettings.rangeEnd);
      var selection: seq<WordItem>;
      if newSettings.order == Random {
        assert multiset(filtered) == multiset(filtered);
        var shuffled :| multiset(shuffled) == multiset(filtered);
        selection := TakeQuestions(shuffled, newSettings.questionCount);
        RandomSelectionExists(active.value.words, newSettings, shuffled);
      } else {
        selection := TakeQuestions(SortByNo(filtered), newSettings.questionCount);
      }
      quizList := selection;
      results := [];
      stage := Quiz;
    }

    /** Practises the same quiz list again. */
    method DirectRestart()
      requires Valid()
      modifies this`results, this`stage
      ensures Valid()
      ensures results == [] && stage == Quiz
    {
      results := [];
      stage := Quiz;
    }

    /** Quizzes the missed words again, in shuffled order and all of them;
        with no missed word nothing happens. */
    method ReviewMissed()
      requires Valid()
      modifies this`quizList, this`results, this`stage
      ensures Valid()
      ensures MissedWords(old(results)) == [] ==>
        quizList == old(quizList) && results == old(results) && stage == old(stage)
      ensures MissedWords(old(results)) != [] ==>
        ValidReview(old(results), quizList) && results == [] && stage == Quiz
    {
      var missed := MissedWords(results);
      if |missed| > 0 {
        assert multiset(missed) == multiset(missed);
        var shuffled :| multiset(shuffled) == multiset(missed);
        quizList := shuffled;
        results := [];
        stage := Quiz;
      }
    }

    /** A session over the quiz list ended: keep its results and record them
        into the active notebook's ledger, leaving the other notebooks
        alone. The session hands over one result per quiz word, and only
        ever ends with at least one answer. */
    method QuizComplete(quizResults: seq<QuizResult>)
      requires Valid()
      requires SessionOutcome(quizList, quizResults) && |quizResults| > 0
      modifies this`results, this`notebooks, this`stage
      ensures Valid()
      ensures results == quizResults && stage == ResultScreen
      ensures notebooks == RecordQuiz(old(notebooks), activeNotebookId, quizResults)
    {
      var updated := UpdateNotebooks(notebooks, activeNotebookId, quizResults);
      RecordQuizKeeps(notebooks, activeNotebookId, quizResults);
      results := quizResults;
      notebooks := updated;
      stage := ResultScreen;
    }

    method BackToStart()
      requires Valid()
      modifies this`stage, this`activeNotebookId
      ensures Valid()
      ensures stage == Upload && activeNotebookId == None
    {
      stage := Upload;
      activeNotebookId := None;
    }

    /** Cancelling a session or changing the plan from the result screen:
        the session's answers are dropped, nothing is recorded. */
    method GoToSettings()
      requires Valid()
      modifies this`stage
      ensures Valid()
      ensures stage == Settings
    {
      stage := Settings;
    }
  }

  /** `notebooks.map(...)` of the quiz completion: the active notebook's
      ledger is copied and each result recorded into it in turn; every
      other notebook is kept as it is. */
  method UpdateNotebooks(nbs: seq<Notebook>, activeId: Option<string>, quizResults: seq<QuizResult>)
    returns (updated: seq<Notebook>)
    ensures updated == RecordQuiz(nbs, activeId, quizResults)
  {
    ghost var target := RecordQuiz(nbs, activeId, quizResults);
    updated := [];
    var i := 0;
    while i < |nbs|
      invariant 0 <= i <= |nbs| == |target|
      invariant updated == target[..i]
    {
      var nb := nbs[i];
      var next := nb;
      if Some(nb.id) == activeId {
        var newMastery := RecordResults(nb.mastery, quizResults);
        next := nb.(mastery := newMastery);
      }
      assert next == target[i];
      assert target[..i + 1] == target[..i] + [next];
      updated := updated + [next];
      i := i + 1;
    }
    assert target[..i] == target;
  }
}
