# Smart-Vocab-Master core in Dafny

Smart-Vocab-Master is a browser flashcard trainer. The user imports a
spreadsheet of numbered words and meanings into a *notebook*. They pick a
range of word numbers, a question count and an order (sequential or random),
and then go through the cards. For each card they reveal the meaning and
grade themself right or wrong. At the end they see their accuracy, can review
the words they missed, and every answer is added to the notebook's *mastery
ledger*. The ledger holds, per word number, how many attempts there were and
how many were correct.

The model covers the following:

- `types.dfy` holds the records: word entry, settings, result, ledger and
  notebook. A word number is an integer or `NaN`, as `parseInt` returns for a
  `No` or `番号` cell whose text has no digits.
- `js_numbers.dfy` holds the JavaScript built-ins the code relies on, on
  integers:
  - `parseInt` without a radix;
  - `String(n)`;
  - `parseInt(x) || d`;
  - `Math.round(100 * c / t)`, computed exactly as `(200c + t) div 2t`.
- `selection.dfy` puts a quiz together: range filter, stable sort by number
  or an arbitrary shuffle, then `slice(0, min(count, length))`, including
  JavaScript's negative slice end. It also builds the list of missed words.
- `mastery.dfy` records a finished quiz into a ledger, as a loop (the
  handler's `forEach`) proved equal to a recursive definition.
- `notebooks.dfy` holds the list expressions of the handlers: find, prepend,
  rename, delete, and record into the active notebook.
- `app.dfy` is the application state (a class whose fields are the React
  state variables) with one method per handler.
- `quiz_engine.dfy` is the reveal/answer state machine of one session, as a
  class.
- `file_uploader.dfy` covers row mapping and filtering on import, the two
  import errors, the notebook-card statistics, and saving an edited name.
- `result_view.dfy` covers the result counts, accuracy and the review
  condition.
- `quiz_settings_form.dfy` covers turning the form fields into settings.
- `scenarios.dfy` works three concrete examples through the model.

## Behaviour of the code worth knowing

- **Empty quiz list.** A range that selects no word starts a quiz with an
  empty list. `QuizEngine` then reads `words[0]`, gets `undefined`, and
  renders `currentWord.no` (`components/QuizEngine.tsx:26`, `:105`), which
  throws. In the model, a `Session` over no words can neither reveal nor
  answer, so it never completes.
- **Accuracy without a guard.** `components/ResultView.tsx:25` divides the
  correct count by the result count with no check for zero. `Accuracy`
  therefore requires at least one result. The application invariant
  `AppState.Valid` shows that the result screen only ever has results.
- **Zero question count.** `parseInt(x) || 10`
  (`components/QuizSettingsForm.tsx:21-23`) treats 0 like an empty field,
  so a count of 0 becomes 10 and `Submit` never emits 0.
- **Negative question count.** A negative count is possible and reaches
  `slice` (`App.tsx:84`, `:87`), which then drops words from the end.
  `SliceEnd` models this.
- **Word numbers.** A `No` cell holding text without digits gives `NaN`
  (`components/FileUploader.tsx:45`). Such a word is never in any range, so
  no quiz ever selects it. One such word also makes the largest word number
  `NaN`, since `Math.max` of a list holding `NaN` is `NaN` (`App.tsx:159`).
  The range end falls back to that number when its field is left empty or
  "select full range" is used, and the text "NaN" parses back to `NaN`. No
  word lies below a `NaN` end, so the default quiz of such a notebook is
  empty, and the quiz screen then fails as described above. The range end
  and the largest number are therefore `WordNo` values in the model, and
  `NaNWordEmptiesDefaultRange` proves the empty quiz.

## Model

| member | source | states |
|---|---|---|
| JsNumbers.TrimStart | components/QuizSettingsForm.tsx:21-23 | the result is a suffix of the input, does not start with white space, and only white space was skipped |
| JsNumbers.DigitOf | components/FileUploader.tsx:45 | a digit's value lies below the radix; a non-digit gives -1 |
| JsNumbers.DigitRun | components/FileUploader.tsx:45 | the run is the longest digit prefix: every char before it is a digit and the char after is not |
| JsNumbers.ParseInt | components/QuizSettingsForm.tsx:21-23 | `parseInt` is NaN exactly when no digit follows white space, sign and hex prefix |
| JsNumbers.NatToString | components/QuizSettingsForm.tsx:59 | decimal text is non-empty, all digits, without a leading zero |
| JsNumbers.IntToString | components/FileUploader.tsx:45 | `String(n)` is non-empty and does not start with white space |
| JsNumbers.ParseIntToString | components/FileUploader.tsx:45 | reading back the text of any integer gives that integer (round trip) |
| JsNumbers.ParseIntEmpty | components/QuizSettingsForm.tsx:14-16 | an empty field parses to NaN |
| JsNumbers.OrDefault | components/QuizSettingsForm.tsx:21-23 | `p \|\| d` is p when p is a non-zero number and d otherwise, so it is never 0 when d is not |
| JsNumbers.OrDefaultNo | components/QuizSettingsForm.tsx:22 | `p \|\| maxNo` is p when p is a non-zero number and maxNo otherwise, so it is NaN iff maxNo is NaN and p is absent or 0 |
| JsNumbers.NumberToString | components/QuizSettingsForm.tsx:59 | `String(x)` of a number that may be NaN is non-empty |
| JsNumbers.ParseNumberToString | components/QuizSettingsForm.tsx:59 | reading back `String(x)` gives x for a number and NaN for NaN |
| JsNumbers.ParseIntNonDigit | components/QuizSettingsForm.tsx:22 | text starting with neither white space, a sign nor a digit parses to NaN |
| JsNumbers.JsMax | App.tsx:159 | `Math.max` of two numbers is NaN iff either is, and otherwise the larger of the two |
| JsNumbers.RoundPercent | components/ResultView.tsx:25 | the result is the integer nearest to 100c/t with halves rounded up: 2tr <= 200c+t < 2t(r+1) |
| JsNumbers.RoundPercentBounds | components/ResultView.tsx:25 | for 0 <= c <= t the percentage lies in 0..100, is 0 iff 100c/t < 0.5, and is 100 iff 100c/t >= 99.5 |
| Mastery.Record | App.tsx:119-126 | one result: its number gets a record if it had none, that record's total grows by one and its correct count by one iff the answer was right, and every other record is kept |
| Mastery.Aggregate | App.tsx:118-127 | the results recorded one after another in order; `AggregateEntries`, `AggregateUntouched` and `AggregatePermutation` state what it yields |
| Mastery.RecordResults | App.tsx:117-127 | the `forEach` loop over a copied ledger produces exactly `Aggregate` of the old ledger and the results |
| Mastery.AggregateEntries | App.tsx:117-127 | the keys become the old keys plus the results' numbers; each record's total grows by that number's attempts and its correct count by its correct answers |
| Mastery.AggregateUntouched | App.tsx:117-127 | a number no result carries keeps its record, or stays absent |
| Mastery.AttemptsOutside | App.tsx:118-119 | a number no result carries has no attempts and no successes |
| Mastery.AggregateEmpty | App.tsx:118 | recording no results leaves the ledger unchanged |
| Mastery.SuccessesAtMostAttempts | App.tsx:123-126 | for every number, the correct answers never exceed the attempts |
| Mastery.AggregateConsistent | App.tsx:120-126 | recording preserves the invariant correct <= total of every record |
| Mastery.CountsAppend | App.tsx:118 | attempts and successes of a concatenation add up |
| Mastery.CountsOfPermutation | App.tsx:118-127 | attempts and successes do not depend on the order of the results |
| Mastery.AggregatePermutation | App.tsx:118-127 | recording the same results in any order gives the same ledger |
| Notebooks.FindNotebook | App.tsx:75-76 | None iff no notebook carries the active id; otherwise the first notebook that does |
| Notebooks.NewNotebook | App.tsx:44-50 | the new notebook has the given id, words and time and an empty ledger; its name starts with the prefix "新しい単語帳 " and is longer than it |
| Notebooks.NewNotebookNumbered | App.tsx:46 | the text after the prefix in the new notebook's name parses back to the number of notebooks, the new one included |
| Notebooks.DefaultName | App.tsx:46 | the name template: the fixed prefix followed by `String(count + 1)`; `NewNotebookNumbered` proves that the number reads back |
| Notebooks.Rename | App.tsx:58 | same length; the notebooks with the id get the new name and nothing else changes |
| Notebooks.Remove | App.tsx:69 | keeps exactly the notebooks with another id; the length drops by the number of notebooks with that id |
| Notebooks.RemoveAppend | App.tsx:69 | deleting keeps the order of the remaining notebooks |
| Notebooks.RemoveAbsent | App.tsx:69 | deleting an id no notebook carries changes nothing |
| Notebooks.RecordQuiz | App.tsx:114-129 | same length; the active notebook's ledger records the results and every other notebook is unchanged |
| Notebooks.RecordQuizKeeps | App.tsx:114-129 | recording keeps every ledger consistent, and an empty result list changes no notebook |
| Selection.FilterRange | App.tsx:79 | every kept word lies in the range; a word is kept iff it is in the list and in range; kept words are a sub-multiset |
| Selection.FilterRangeAppend | App.tsx:79 | filtering preserves order |
| Selection.FilterRangeAll | App.tsx:79 | a list wholly in range passes unchanged |
| Selection.FilterRangeNaN | App.tsx:79 | no word passes a range whose end is NaN |
| Selection.Insert | App.tsx:86 | insertion adds exactly one copy of the word |
| Selection.InsertSorted | App.tsx:86 | insertion into a sorted list keeps it sorted |
| Selection.SortByNo | App.tsx:86 | the sort is a permutation and sorted by number |
| Selection.SortByNoSorted | App.tsx:86 | an already sorted list is left as it is |
| Selection.InsertWithKey | App.tsx:86 | among the words with its number, the inserted word comes first and the others keep their order |
| Selection.SortByNoStable | App.tsx:86 | the sort is stable: words with equal numbers keep their order |
| Selection.SliceEnd | App.tsx:84-87 | the end `slice` uses, counted from the back when negative, is within the list |
| Selection.TakeQuestions | App.tsx:84-87 | the selection is a prefix of the arranged words |
| Selection.ArrangedSelection | App.tsx:79-87 | a cut of any arrangement of the filtered words is in range, a sub-multiset, and has the count-capped length |
| Selection.SelectionArrangement | App.tsx:82-87 | every valid selection is cut from a permutation of the filtered words, and in sequential order from the sorted ones |
| Selection.SelectionProperties | App.tsx:79-87 | every selected word is in range and comes from the filtered words; length is min(count, filtered) for count >= 0 and max(filtered + count, 0) for count < 0; sequential is sorted and a prefix of the sorted words |
| Selection.ValidSelection | App.tsx:79-87 | the quiz lists starting a quiz can produce: in sequential order the sorted cut, in random order a cut of any shuffle; `SelectionProperties` states what every such list satisfies and `RandomSelectionExists` that one exists |
| Selection.RandomSelectionExists | App.tsx:82-84 | any shuffle gives a valid random-order selection |
| Selection.MissedWords | App.tsx:102 | there are no more missed words than results |
| Selection.MissedWordsMember | App.tsx:102 | a word is missed iff some result for it was marked wrong |
| Selection.ValidReview | App.tsx:102-104 | the review quiz is a permutation of exactly the missed words; `AppState.ReviewMissed` ensures it of the new quiz list |
| App.AppState.constructor | App.tsx:13-24 | the application starts on the upload screen with no notebooks, an empty quiz and the initial settings |
| App.AppState.DataLoaded | App.tsx:43-55 | the new notebook is prepended and made active, and the settings screen follows |
| App.AppState.UpdateName | App.tsx:57-60 | the notebook list becomes its renaming |
| App.AppState.SelectNotebook | App.tsx:62-65 | the chosen notebook becomes active and the settings screen follows |
| App.AppState.DeleteNotebook | App.tsx:67-72 | on confirmation the notebooks with the id are removed; otherwise nothing changes |
| App.AppState.StartQuiz | App.tsx:74-93 | without an active notebook nothing changes; otherwise the settings are stored, the quiz list is a valid selection, results are cleared and the quiz starts |
| App.AppState.DirectRestart | App.tsx:95-99 | results are cleared and the same quiz list runs again |
| App.AppState.ReviewMissed | App.tsx:101-108 | with missed words the quiz list becomes a permutation of exactly them; with none nothing changes |
| App.AppState.QuizComplete | App.tsx:110-133 | called with the outcome of a session over the quiz list, one result per quiz word in order: results are stored, the active notebook records them, other notebooks are unchanged, the ledger invariant holds, and the result screen follows |
| App.UpdateNotebooks | App.tsx:114-129 | the `map` over notebooks with the recording loop gives exactly `RecordQuiz` |
| App.AppState.BackToStart | App.tsx:135-138 | back to the upload screen with no active notebook |
| App.AppState.GoToSettings | App.tsx:169 | cancelling or changing the plan goes to the settings screen and records nothing |
| QuizEngine.Session.constructor | components/QuizEngine.tsx:20-22 | a session starts at index 0, meaning hidden, no results |
| QuizEngine.Session.Reveal | components/QuizEngine.tsx:114-121 | the reveal button shows the meaning, which is only possible while it is hidden |
| QuizEngine.Session.Answer | components/QuizEngine.tsx:28-43 | one result for the current word is appended; before the last word the index advances and the meaning hides; on the last word the index and the shown meaning stay and the callback receives all results, one per word in order |
| QuizEngine.RunSession | components/QuizEngine.tsx:28-43 | driving a session to its end hands over one result per word, in order, carrying that word and its grade, which is what the application records |
| FileUploader.Truthy | components/FileUploader.tsx:45-47 | JavaScript truthiness of a cell: the empty string and 0 are falsy; `FirstTruthy` proves that the `\|\|` chain picks a cell that is truthy in this sense |
| FileUploader.FirstTruthy | components/FileUploader.tsx:45-47 | `row[h1] \|\| row[h2] \|\| ...` is the cell under the first header, in order, that holds a truthy cell; no earlier header holds one; none iff no header holds a truthy cell |
| FileUploader.ResolveNo | components/FileUploader.tsx:45 | `parseInt` of the `No` or `番号` cell, else of the position plus one; `ResolveNoFallback` proves both cases |
| FileUploader.ResolveWord | components/FileUploader.tsx:46 | the first truthy `単語`/`Word`/`word` cell, else ""; `ResolveWordPresent` proves it is non-empty iff such a cell exists |
| FileUploader.ResolveMeaning | components/FileUploader.tsx:47 | the first truthy `意味`/`Meaning`/`meaning` cell, else ""; `ResolveWordPresent` proves it is non-empty iff such a cell exists |
| FileUploader.MapRow | components/FileUploader.tsx:44-48 | the entry `{ no, word, meaning }` of one row at its position; `MapAll` proves each row is mapped by it |
| FileUploader.MapRows | components/FileUploader.tsx:44-49 | the rows mapped and the incomplete entries dropped; `ProcessRows` and `ImportedRows` state what it imports |
| FileUploader.MapAll | components/FileUploader.tsx:44-48 | one entry per row, in order, each the mapping of its row at its position |
| FileUploader.KeepFilled | components/FileUploader.tsx:49 | keeps exactly the entries with a word and a meaning |
| FileUploader.ProcessRows | components/FileUploader.tsx:39-56 | an empty sheet gives the no-data error, a sheet without complete rows the missing-columns error, and otherwise a non-empty list of mapped words |
| FileUploader.KeepFilledAppend | components/FileUploader.tsx:49 | the filter preserves order |
| FileUploader.KeepFilledAll | components/FileUploader.tsx:49 | no entry is dropped when all are complete |
| FileUploader.ImportedRows | components/FileUploader.tsx:44-49 | an entry is imported iff it is the mapping of some row that has a word and a meaning; with all rows complete the import is the whole mapping in order |
| FileUploader.ResolveNoFallback | components/FileUploader.tsx:45 | without a truthy `No`/`番号` cell the number is the position plus one; a numeric cell gives its own value |
| FileUploader.ResolveWordPriority | components/FileUploader.tsx:46 | a truthy `単語` cell gives the word; otherwise a truthy `Word` cell does |
| FileUploader.ResolveWordPresent | components/FileUploader.tsx:46-47 | word and meaning are non-empty exactly when a truthy cell exists under their headers |
| FileUploader.LearnedCount | components/FileUploader.tsx:94 | the word numbers tried at least once; `MasteredAtMostLearned` proves it is at least the mastered count |
| FileUploader.MasteredCount | components/FileUploader.tsx:95 | the word numbers answered right at least once; `MasteredAtMostLearned` bounds it by the learned count |
| FileUploader.TotalAttempts | components/FileUploader.tsx:96 | the sum of the attempt counts of the ledger; `TotalAttemptsAggregate` proves that recording a quiz adds the number of results |
| FileUploader.MasteredAtMostLearned | components/FileUploader.tsx:93-95 | under the ledger invariant the mastered count never exceeds the learned count |
| FileUploader.TotalAttemptsAggregate | components/FileUploader.tsx:96 | after recording a quiz, the total-attempts figure has grown by the number of results |
| FileUploader.MasteryPercent | components/FileUploader.tsx:97 | 0 for a notebook without words, else the rounded percentage of mastered words |
| FileUploader.MasteryPercentBounds | components/FileUploader.tsx:97 | the mastery percentage lies in 0..100 when no more words are mastered than exist |
| FileUploader.NotebookStats | components/FileUploader.tsx:93-97 | the card shows the learned and mastered counts, the total attempts and the mastery percentage of the ledger; under the ledger invariant no more words are mastered than learned |
| FileUploader.SaveName | components/FileUploader.tsx:76-81 | with a notebook being edited, its name is reported (the stock name for an empty edit) and editing stops; otherwise nothing happens; a reported name is never empty |
| ResultView.CorrectCount | components/ResultView.tsx:22 | at most the number of results; 0 iff all are wrong; the total iff all are right |
| ResultView.MissedCount | components/ResultView.tsx:23-24 | correct plus missed equals the total |
| ResultView.Accuracy | components/ResultView.tsx:25 | for at least one result the accuracy lies in 0..100, is 100 iff at least 99.5% are right, and is 0 iff under 0.5% are right |
| ResultView.MissedWordsCount | components/ResultView.tsx:24 | the review quiz has as many words as answers were wrong |
| ResultView.ReviewOffered | components/ResultView.tsx:83 | the button's condition `missedCount > 0`; `ReviewOfferedIff` proves it holds iff some answer was wrong, iff there are missed words |
| ResultView.ReviewOfferedIff | components/ResultView.tsx:83 | the review button shows iff there are missed words, iff some answer was wrong |
| ResultView.AccuracyExtremes | components/ResultView.tsx:25 | all right gives 100, all wrong gives 0 |
| QuizSettingsForm.Submit | components/QuizSettingsForm.tsx:19-31 | an empty, unparseable or zero start becomes 1, such an end becomes the largest number (NaN included), such a count becomes 10; the order passes through; start and count are never 0 |
| QuizSettingsForm.SelectFullRange | components/QuizSettingsForm.tsx:59 | the start field then reads 1 and the end field reads the largest number, or NaN when that is NaN; the other fields are unchanged |
| QuizSettingsForm.SetQuickCount | components/QuizSettingsForm.tsx:132 | the count field then reads the chosen count |
| QuizSettingsForm.SubmitInitial | components/QuizSettingsForm.tsx:14-31 | the untouched form submits numbers 1 to the largest, ten questions, random order |
| QuizSettingsForm.SubmitFullRange | components/QuizSettingsForm.tsx:59 | after "select full range" the submitted range is 1 to the largest number, NaN included |
| Selection.MaxOfNos | App.tsx:159 | `Math.max` of the word numbers is NaN iff some word number is; otherwise it bounds every number and is one of them |
| Selection.MaxNo | App.tsx:159 | 0 without words; otherwise NaN iff some word number is NaN, and else at least every word number |
| QuizSettingsForm.FullRangeCoversAll | components/QuizSettingsForm.tsx:21-22 | with only numeric word numbers, a start of 1 and the default end take in exactly the words numbered 1 or more |
| QuizSettingsForm.NaNWordEmptiesDefaultRange | components/QuizSettingsForm.tsx:22 | with one NaN word number, the default end is NaN, the range takes in no word, and every quiz selected from it is empty |
| QuizSettingsForm.SubmitQuickCount | components/QuizSettingsForm.tsx:132 | a non-zero quick count is submitted unchanged |
| Scenarios.SequentialScenario | App.tsx:85-87 | five words numbered 1..5, sequential order and count 3 select words 1, 2, 3 |
| Scenarios.LedgerScenario | App.tsx:117-127 | results 1 right, 2 wrong, 1 right on an empty ledger give {1: 2 of 2, 2: 0 of 1} and accuracy 67 |
| Scenarios.ReviewScenario | App.tsx:101-104 | two wrong answers out of five give a review quiz of exactly those two words |

## Left out

- Spreadsheet decoding (`XLSX.read`, `sheet_to_json`) and `FileReader` are foreign, asynchronous I/O. The model takes the parsed rows as input: a row maps header names to text or integer cells.
- Non-integer and boolean spreadsheet cells are not modelled, because cells are text or integers. For the same reason `parseInt` of a non-integer number's text is not modelled.
- `parseInt` loses precision above 2^53; the model reads digits exactly.
- From 10^21 on, JavaScript's `String(n)` writes exponent notation ("1e+21"), and `parseInt` of that text stops at the "e". A numeric `No` cell that large is therefore imported as a different number. The model's `IntToString` keeps every digit. So `ParseIntToString`, and the claim of `ResolveNoFallback` that a numeric cell gives its own value, hold in the source only below 10^21.
- Browser persistence is left out: `localStorage` loading and saving and `JSON.parse`. Saving the notebooks is modelled as assigning the notebook list.
- The AI hint request (`getAiHint` and its service) is an external network call and is left out.
- `crypto.randomUUID()`, `Date.now()` and `window.confirm` are parameters of the handlers.
- The distribution of the `Math.random` shuffle is not modelled. A shuffle is modelled as an arbitrary permutation, so both `ValidSelection` and `ValidReview` admit every arrangement.
- App.UpdateNotebooks: the ledger copy is shallow, and the source increments the existing records in place, so the records of the previous notebook list are changed as well. The model works on values and does not capture that aliasing. Only the new list is observable after the handler runs.
- Percentages and accuracy use exact integer arithmetic. The source computes `(c / t) * 100` in floating point, and where that product lands next to a half, its rounding can differ by one from the exact value.
- The floating-point progress bar, all rendering, the pie chart, drag and drop, the header component and the build configuration are not modelled. They are presentation.
- FileUploader.TotalAttemptsAggregate: the sum is a ghost definition over the ledger's keys, not the `reduce` over `Object.keys` in its order. Addition does not depend on that order.
- Keys of the ledger are word numbers. The source keys an object by their string form, which maps every number to a distinct key, NaN included.
