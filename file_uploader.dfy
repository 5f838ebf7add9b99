/**
 * The library screen: turning the rows of an imported sheet into word
 * entries, the per-notebook statistics shown on each notebook card, and
 * saving an edited notebook name.
 */
module FileUploader {
  import opened Types
  import opened JsNumbers
  import opened Mastery

  /** A sheet cell as the spreadsheet reader hands it over. */
  datatype Cell = Text(s: string) | Number(n: int)

  /** One sheet row: header name to cell; empty cells are absent. */
  type Row = map<string, Cell>

  datatype ImportError =
    | NoData         // the sheet has no rows
    | NoWordColumns  // no row has both a word and a meaning

  /** JavaScript truthiness of a cell: the empty string and 0 are falsy. */
  predicate Truthy(c: Cell)
  {
    match c
    case Text(s) => s != ""
    case Number(n) => n != 0
  }

  /** The text of a cell, as it is displayed. */
  function CellText(c: Cell): string
  {
    match c
    case Text(s) => s
    case Number(n) => IntToString(n)
  }

  /** The header at index i holds a truthy cell of the row. */
  predicate TruthyAt(row: Row, headers: seq<string>, i: int)
    requires 0 <= i < |headers|
  {
    headers[i] in row && Truthy(row[headers[i]])
  }

  /** `row[h1] || row[h2] || ...`: the cell under the first header, in the
      given order, that holds a truthy cell. */
  function FirstTruthy(row: Row, headers: seq<string>): (r: Option<Cell>)
    ensures r.Some? ==> Truthy(r.value)
    ensures r.Some? ==> exists i :: (0 <= i < |headers| && TruthyAt(row, headers, i) && row[headers[i]] == r.value &&
      (forall j :: 0 <= j < i ==> !TruthyAt(row, headers, j)))
    ensures r.None? <==> forall i :: 0 <= i < |headers| ==> !TruthyAt(row, headers, i)
  {
    if headers == [] then None
    else if TruthyAt(row, headers, 0) then Some(row[headers[0]])
    else
      var r := FirstTruthy(row, headers[1..]);
      assert forall i :: 1 <= i < |headers| ==> TruthyAt(row, headers, i) == TruthyAt(row, headers[1..], i - 1);
      assert r.Some? ==> exists i :: (0 <= i < |headers| && TruthyAt(row, headers, i) && row[headers[i]] == r.value &&
        (forall j :: 0 <= j < i ==> !TruthyAt(row, headers, j))) by {
        if r.Some? {
          var k :| 0 <= k < |headers[1..]| && TruthyAt(row, headers[1..], k) && row[headers[1..][k]] == r.value &&
            (forall j :: 0 <= j < k ==> !TruthyAt(row, headers[1..], j));
          assert headers[k + 1] == headers[1..][k];
          assert forall j :: 0 <= j < k + 1 ==> !TruthyAt(row, headers, j);
        }
      }
      r
  }

  /** `parseInt` of a value, which reads the value's text. */
  function ParseNo(text: string): WordNo
  {
    match ParseInt(text)
    case Some(n) => Num(n)
    case None => NaN
  }

  /** The word number of the row at this index: the `No` or `番号` cell,
      else the row's position counted from one. */
  function ResolveNo(row: Row, index: nat): WordNo
  {
    match FirstTruthy(row, ["No", "番号"])
    case Some(c) => ParseNo(CellText(c))
    case None => ParseNo(IntToString(index + 1))
  }

  function ResolveWord(row: Row): string
  {
    match FirstTruthy(row, ["単語", "Word", "word"])
    case Some(c) => CellText(c)
    case None => ""
  }

  function ResolveMeaning(row: Row): string
  {
    match FirstTruthy(row, ["意味", "Meaning", "meaning"])
    case Some(c) => CellText(c)
    case None => ""
  }

  function MapRow(row: Row, index: nat): WordItem
  {
    WordItem(ResolveNo(row, index), ResolveWord(row), ResolveMeaning(row))
  }

  /** A mapped row survives the filter when it has a word and a meaning. */
  predicate Keeps(item: WordItem)
  {
    item.word != "" && item.meaning != ""
  }

  /** `rows.map((row, index) => ...)`: every row mapped at its own index. */
  function MapAll(rows: seq<Row>): (r: seq<WordItem>)
    ensures |r| == |rows|
    ensures forall i :: 0 <= i < |rows| ==> r[i] == MapRow(rows[i], i)
  {
    seq(|rows|, i requires 0 <= i < |rows| => MapRow(rows[i], i))
  }

  /** `.filter(item => item.word && item.meaning)`. */
  function KeepFilled(items: seq<WordItem>): (r: seq<WordItem>)
    ensures |r| <= |items|
    ensures forall i :: 0 <= i < |r| ==> Keeps(r[i])
    ensures forall w :: w in r <==> w in items && Keeps(w)
  {
    if items == [] then []
    else
      assert forall w :: w in items <==> w == items[0] || w in items[1..];
      (if Keeps(items[0]) then [items[0]] else []) + KeepFilled(items[1..])
  }

  /** The sheet's rows mapped to entries and the incomplete ones dropped. */
  function MapRows(rows: seq<Row>): seq<WordItem>
  {
    KeepFilled(MapAll(rows))
  }

  /** The import: an empty sheet and a sheet without usable rows are errors;
      otherwise the mapped words go to the new notebook. */
  function ProcessRows(rows: seq<Row>): (r: Result<seq<WordItem>, ImportError>)
    ensures r.Ok? ==> |r.value| > 0 && r.value == MapRows(rows)
    ensures r == Err(NoData) <==> rows == []
    ensures r == Err(NoWordColumns) <==> rows != [] && MapRows(rows) == []
  {
    if |rows| == 0 then Err(NoData)
    else
      var mapped := MapRows(rows);
      if |mapped| == 0 then Err(NoWordColumns) else Ok(mapped)
  }

  /** The filter keeps the order: filtering a concatenation filters each part. */
  lemma {:induction false} KeepFilledAppend(a: seq<WordItem>, b: seq<WordItem>)
    ensures KeepFilled(a + b) == KeepFilled(a) + KeepFilled(b)
  {
    if a == [] {
      assert a + b == b;
    } else {
      assert (a + b)[1..] == a[1..] + b;
      KeepFilledAppend(a[1..], b);
    }
  }

  /** The filter drops nothing when every entry has a word and a meaning. */
  lemma {:induction false} KeepFilledAll(items: seq<WordItem>)
    requires forall i :: 0 <= i < |items| ==> Keeps(items[i])
    ensures KeepFilled(items) == items
  {
    if items != [] {
      KeepFilledAll(items[1..]);
      assert items == [items[0]] + items[1..];
    }
  }

  /** Every row with a word and a meaning yields exactly its mapped entry,
      numbered by the row's position where it has no number of its own;
      nothing else is imported. */
  lemma ImportedRows(rows: seq<Row>)
    ensures forall w :: w in MapRows(rows) <==> exists i :: 0 <= i < |rows| && w == MapRow(rows[i], i) && Keeps(w)
    ensures (forall i :: 0 <= i < |rows| ==> Keeps(MapRow(rows[i], i))) ==> MapRows(rows) == MapAll(rows)
  {
    var all := MapAll(rows);
    forall w ensures w in MapRows(rows) <==> exists i :: 0 <= i < |rows| && w == MapRow(rows[i], i) && Keeps(w) {
      if w in all {
        var i :| 0 <= i < |all| && all[i] == w;
        assert w == MapRow(rows[i], 0 + i);
      }
      if exists i :: 0 <= i < |rows| && w == MapRow(rows[i], i) && Keeps(w) {
        var i :| 0 <= i < |rows| && w == MapRow(rows[i], i) && Keeps(w);
        assert all[i] == MapRow(rows[i], 0 + i);
      }
    }
    if forall i :: 0 <= i < |rows| ==> Keeps(MapRow(rows[i], i)) {
      forall i | 0 <= i < |all| ensures Keeps(all[i]) {
        assert all[i] == MapRow(rows[i], 0 + i);
      }
      KeepFilledAll(all);
    }
  }

  /** Without a truthy `No` or `番号` cell the number is the row's position
      counted from one; a numeric cell gives its own value. */
  lemma ResolveNoFallback(row: Row, index: nat)
    ensures FirstTruthy(row, ["No", "番号"]).None? ==> ResolveNo(row, index) == Num(index + 1)
    ensures FirstTruthy(row, ["No", "番号"]).Some? && FirstTruthy(row, ["No", "番号"]).value.Number? ==>
      ResolveNo(row, index) == Num(FirstTruthy(row, ["No", "番号"]).value.n)
  {
    ParseIntToString(index + 1);
    var c := FirstTruthy(row, ["No", "番号"]);
    if c.Some? && c.value.Number? {
      ParseIntToString(c.value.n);
    }
  }

  /** The headers are tried in order: a truthy `単語` cell wins over
      `Word`, and `Word` over `word`. */
  lemma ResolveWordPriority(row: Row)
    ensures "単語" in row && Truthy(row["単語"]) ==> ResolveWord(row) == CellText(row["単語"])
    ensures !("単語" in row && Truthy(row["単語"])) && "Word" in row && Truthy(row["Word"]) ==>
      ResolveWord(row) == CellText(row["Word"])
  {
    var headers := ["単語", "Word", "word"];
    var r := FirstTruthy(row, headers);
    assert headers[0] == "単語" && headers[1] == "Word";
    if r.None? {
      assert !TruthyAt(row, headers, 0) && !TruthyAt(row, headers, 1);
    } else {
      var i :| 0 <= i < |headers| && TruthyAt(row, headers, i) && row[headers[i]] == r.value &&
        (forall j :: 0 <= j < i ==> !TruthyAt(row, headers, j));
      if TruthyAt(row, headers, 0) {
        assert i == 0;
      } else if TruthyAt(row, headers, 1) {
        assert i == 1;
      }
    }
  }

  /** A word (or meaning) resolves to a non-empty text exactly when one of
      its headers holds a truthy cell. */
  lemma ResolveWordPresent(row: Row)
    ensures ResolveWord(row) != "" <==> FirstTruthy(row, ["単語", "Word", "word"]).Some?
    ensures ResolveMeaning(row) != "" <==> FirstTruthy(row, ["意味", "Meaning", "meaning"]).Some?
  {
  }

  // Statistics of a notebook card.

  /** Word numbers tried at least once. */
  function LearnedCount(m: MasteryData): nat
  {
    |set k | k in m && m[k].total > 0|
  }

  /** Word numbers answered correctly at least once. */
  function MasteredCount(m: MasteryData): nat
  {
    |set k | k in m && m[k].correct > 0|
  }

  /** Under the ledger invariant every mastered word is a learned one. */
  lemma MasteredAtMostLearned(m: MasteryData)
    requires Consistent(m)
    ensures MasteredCount(m) <= LearnedCount(m)
  {
    var mastered := set k | k in m && m[k].correct > 0;
    var learned := set k | k in m && m[k].total > 0;
    assert mastered <= learned;
    SubsetCard(mastered, learned);
  }

  lemma {:induction false} SubsetCard<T>(a: set<T>, b: set<T>)
    requires a <= b
    ensures |a| <= |b|
  {
    if a != {} {
      var x :| x in a;
      SubsetCard(a - {x}, b - {x});
    }
  }

  /** The sum of the attempt counts over all records. */
  ghost function TotalAttempts(m: MasteryData): nat
    decreases |m|
  {
    if m == map[] then 0
    else
      var k :| k in m;
      m[k].total + TotalAttempts(m - {k})
  }

  /** The sum does not depend on the record taken first. */
  lemma {:induction false} TotalAttemptsRemove(m: MasteryData, k: WordNo)
    requires k in m
    ensures TotalAttempts(m) == m[k].total + TotalAttempts(m - {k})
    decreases |m|
  {
    var j :| j in m && TotalAttempts(m) == m[j].total + TotalAttempts(m - {j});
    if j != k {
      var rest := m - {j};
      assert |rest| < |m| by { assert m.Keys == rest.Keys + {j}; }
      TotalAttemptsRemove(rest, k);
      var both := rest - {k};
      assert (m - {k}) - {j} == both;
      assert |m - {k}| < |m| by { assert m.Keys == (m - {k}).Keys + {k}; }
      TotalAttemptsRemove(m - {k}, j);
    }
  }

  lemma TotalAttemptsUpdate(m: MasteryData, k: WordNo, e: WordMastery)
    ensures TotalAttempts(m[k := e]) == TotalAttempts(m) - Entry(m, k).total + e.total
  {
    var m' := m[k := e];
    TotalAttemptsRemove(m', k);
    assert m' - {k} == m - {k};
    if k in m {
      TotalAttemptsRemove(m, k);
    } else {
      assert m - {k} == m;
    }
  }

  /** Every recorded result adds one attempt to the notebook's total. */
  lemma {:induction false} TotalAttemptsAggregate(m: MasteryData, rs: seq<QuizResult>)
    ensures TotalAttempts(Aggregate(m, rs)) == TotalAttempts(m) + |rs|
  {
    if rs != [] {
      var front := Aggregate(m, rs[..|rs| - 1]);
      TotalAttemptsAggregate(m, rs[..|rs| - 1]);
      var r := rs[|rs| - 1];
      var e := Entry(front, r.word.no);
      TotalAttemptsUpdate(front, r.word.no, WordMastery(if r.isCorrect then e.correct + 1 else e.correct, e.total + 1));
    }
  }

  /** `Math.round(masteredCount / words.length * 100)`, or 0 for a notebook
      without words. */
  function MasteryPercent(mastered: nat, wordCount: nat): (p: int)
    ensures wordCount == 0 ==> p == 0
    ensures wordCount > 0 ==> 2 * wordCount * p <= 200 * mastered + wordCount < 2 * wordCount * (p + 1)
  {
    if wordCount > 0 then RoundPercent(mastered, wordCount) else 0
  }

  /** While no more words are mastered than the notebook holds, the
      percentage stays within 0..100. */
  lemma MasteryPercentBounds(mastered: nat, wordCount: nat)
    requires mastered <= wordCount
    ensures 0 <= MasteryPercent(mastered, wordCount) <= 100
  {
    if wordCount > 0 {
      RoundPercentBounds(mastered, wordCount);
    }
  }

  /** The figures on a notebook card. */
  datatype CardStats = CardStats(learned: nat, mastered: nat, totalAttempts: nat, masteryPercent: int)

  /** The four figures of a notebook card; under the ledger invariant the
      mastered words are among the learned ones. */
  ghost function NotebookStats(nb: Notebook): (s: CardStats)
    ensures s.learned == LearnedCount(nb.mastery) && s.mastered == MasteredCount(nb.mastery)
    ensures s.totalAttempts == TotalAttempts(nb.mastery)
    ensures s.masteryPercent == MasteryPercent(s.mastered, |nb.words|)
    ensures Consistent(nb.mastery) ==> s.mastered <= s.learned
  {
    var mastered := MasteredCount(nb.mastery);
    assert Consistent(nb.mastery) ==> mastered <= LearnedCount(nb.mastery) by {
      if Consistent(nb.mastery) {
        MasteredAtMostLearned(nb.mastery);
      }
    }
    CardStats(LearnedCount(nb.mastery), mastered, TotalAttempts(nb.mastery), MasteryPercent(mastered, |nb.words|))
  }

  /** The name stored when editing ends: an empty edit gives the stock name. */
  const StockName := "マイ単語帳"

  /** Ending a name edit: with a notebook being edited, its new name is
      reported (the stock name for an empty edit) and editing stops;
      otherwise nothing happens. */
  function SaveName(editingId: Option<string>, tempName: string): (r: (Option<(string, string)>, Option<string>))
    ensures editingId.Some? && editingId.value != "" ==>
      r.0 == Some((editingId.value, if tempName == "" then StockName else tempName)) && r.1 == None
    ensures !(editingId.Some? && editingId.value != "") ==> r == (None, editingId)
    ensures r.0.Some? ==> r.0.value.1 != ""
  {
    if editingId.Some? && editingId.value != "" then
      (Some((editingId.value, if tempName == "" then StockName else tempName)), None)
    else (None, editingId)
  }
}
