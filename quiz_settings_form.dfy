/**
 * The study-plan form: three text fields and an order choice, turned into
 * quiz settings on submit with `parseInt(field) || default`. The end of
 * the range falls back to the largest word number, which the application
 * computes (`Selection.MaxNo`) and hands to the form.
 */
module QuizSettingsForm {
  import opened Types
  import opened JsNumbers
  import opened Selection

  /** The form's state: the raw text of the three fields and the order. */
  datatype Fields = Fields(rangeStart: string, rangeEnd: string, questionCount: string, order: Order)

  /** Empty fields and random order. */
  const InitialFields := Fields("", "", "", Random)

  /** The settings a submit emits: an empty, unparseable or zero start gives
      1, such an end gives the largest word number, such a count gives 10. */
  function Submit(f: Fields, maxNo: WordNo): (st: QuizSettings)
    ensures st.order == f.order
    ensures st.rangeStart != 0 && st.questionCount != 0
    ensures st.rangeStart == (if ParseInt(f.rangeStart).Some? && ParseInt(f.rangeStart).value != 0 then ParseInt(f.rangeStart).value else 1)
    ensures st.rangeEnd == (if ParseInt(f.rangeEnd).Some? && ParseInt(f.rangeEnd).value != 0 then Num(ParseInt(f.rangeEnd).value) else maxNo)
    ensures st.questionCount == (if ParseInt(f.questionCount).Some? && ParseInt(f.questionCount).value != 0 then ParseInt(f.questionCount).value else 10)
  {
    QuizSettings(
      OrDefault(ParseInt(f.rangeStart), 1),
      OrDefaultNo(ParseInt(f.rangeEnd), maxNo),
      OrDefault(ParseInt(f.questionCount), 10),
      f.order)
  }

  /** The "select full range" button: start "1", end the text of the
      largest number, which reads back as that number, or as NaN. */
  function SelectFullRange(f: Fields, maxNo: WordNo): (g: Fields)
    ensures g.questionCount == f.questionCount && g.order == f.order
    ensures ParseInt(g.rangeStart) == Some(1)
    ensures maxNo.Num? ==> ParseInt(g.rangeEnd) == Some(maxNo.n)
    ensures maxNo.NaN? ==> ParseInt(g.rangeEnd) == None
  {
    ParseIntToString(1);
    ParseNumberToString(maxNo);
    f.(rangeStart := IntToString(1), rangeEnd := NumberToString(maxNo))
  }

  /** The quick-count buttons write the count's text into the field. */
  function SetQuickCount(f: Fields, count: int): (g: Fields)
    ensures g.rangeStart == f.rangeStart && g.rangeEnd == f.rangeEnd && g.order == f.order
    ensures ParseInt(g.questionCount) == Some(count)
  {
    ParseIntToString(count);
    f.(questionCount := IntToString(count))
  }

  /** Submitting the untouched form gives the whole default plan:
      numbers 1 to the largest, ten questions, random order. */
  lemma SubmitInitial(maxNo: WordNo)
    ensures Submit(InitialFields, maxNo) == QuizSettings(1, maxNo, 10, Random)
  {
    ParseIntEmpty();
  }

  /** After "select full range" the submitted range is 1 to the largest
      number, whatever the fields held before. */
  lemma SubmitFullRange(f: Fields, maxNo: WordNo)
    ensures Submit(SelectFullRange(f, maxNo), maxNo).rangeStart == 1
    ensures Submit(SelectFullRange(f, maxNo), maxNo).rangeEnd == maxNo
    ensures Submit(SelectFullRange(f, maxNo), maxNo).questionCount == Submit(f, maxNo).questionCount
  {
  }

  /** A quick count is submitted as it is. */
  lemma SubmitQuickCount(f: Fields, count: int, maxNo: WordNo)
    requires count != 0
    ensures Submit(SetQuickCount(f, count), maxNo).questionCount == count
  {
  }

  /** In a notebook whose word numbers are all numbers, the full range
      (the range end left to its default) takes in exactly the words
      numbered 1 or more. */
  lemma FullRangeCoversAll(words: seq<WordItem>, f: Fields)
    requires words != [] && forall i :: 0 <= i < |words| ==> words[i].no.Num?
    requires ParseInt(f.rangeStart) == Some(1) && (ParseInt(f.rangeEnd).None? || ParseInt(f.rangeEnd) == Some(0))
    ensures forall w :: (w in FilterRange(words, Submit(f, MaxNo(words)).rangeStart, Submit(f, MaxNo(words)).rangeEnd)
                         <==> w in words && w.no.n >= 1)
  {
    var m := MaxNo(words);
    assert m.Num?;
    forall w | w in words ensures InRange(w, 1, m) <==> w.no.n >= 1 {
      var i :| 0 <= i < |words| && words[i] == w;
    }
  }

  /** One word numbered NaN makes the largest number NaN, so a range end
      left to its default takes in no word and the quiz is empty. */
  lemma NaNWordEmptiesDefaultRange(words: seq<WordItem>, f: Fields, sel: seq<WordItem>)
    requires exists i :: 0 <= i < |words| && words[i].no.NaN?
    requires ParseInt(f.rangeEnd).None? || ParseInt(f.rangeEnd) == Some(0)
    requires ValidSelection(words, Submit(f, MaxNo(words)), sel)
    ensures Submit(f, MaxNo(words)).rangeEnd == NaN
    ensures FilterRange(words, Submit(f, MaxNo(words)).rangeStart, NaN) == []
    ensures sel == []
  {
    var st := Submit(f, MaxNo(words));
    FilterRangeNaN(words, st.rangeStart);
    SelectionProperties(words, st, sel);
    assert |multiset(sel)| == 0;
  }
}
