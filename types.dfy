/**
 * The records shared by every part of the flashcard trainer: word entries,
 * quiz settings, per-answer results, the per-word mastery ledger and the
 * notebooks that own a word list and its ledger.
 */
module Types {

  datatype Option<+T> = None | Some(value: T)

  datatype Result<+T, +E> = Ok(value: T) | Err(error: E)

  /** A JavaScript number as it can occur as a word number: an integer, or
      NaN when the sheet's number cell holds text without digits. */
  datatype WordNo = Num(n: int) | NaN

  /** One vocabulary entry of a notebook. */
  datatype WordItem = WordItem(no: WordNo, word: string, meaning: string)

  datatype Order = Sequential | Random

  /** The settings a quiz is started with; the range is inclusive. Its end
      falls back to the largest word number, which is NaN as soon as one
      word number is. */
  datatype QuizSettings = QuizSettings(rangeStart: int, rangeEnd: WordNo, questionCount: int, order: Order)

  /** One self-graded answer of a session. */
  datatype QuizResult = QuizResult(word: WordItem, isCorrect: bool)

  /** Cumulative attempts on one word number. */
  datatype WordMastery = WordMastery(correct: nat, total: nat)

  /** The mastery ledger of a notebook, keyed by word number. */
  type MasteryData = map<WordNo, WordMastery>

  datatype Notebook = Notebook(id: string, name: string, words: seq<WordItem>, mastery: MasteryData, createdAt: int)

  /** The screen the application shows. */
  datatype Stage = Upload | Settings | Quiz | ResultScreen

  /** The settings the application starts with, before any quiz. */
  const InitialSettings := QuizSettings(1, Num(100), 10, Random)

  /** A word is numeric and its number lies in [lo, hi]: the comparisons
      `no >= lo && no <= hi` are false when the number or the end is NaN. */
  predicate InRange(w: WordItem, lo: int, hi: WordNo)
  {
    w.no.Num? && hi.Num? && lo <= w.no.n <= hi.n
  }

  /** The number the sequential order sorts by; only numeric words are ever
      sorted, since sorting happens after the range filter. */
  function Key(w: WordItem): int
  {
    if w.no.Num? then w.no.n else 0
  }

  function Min(a: int, b: int): int
  {
    if a <= b then a else b
  }

  function Max(a: int, b: int): int
  {
    if a >= b then a else b
  }
}
