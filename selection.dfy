/**
 * How a quiz is put together from a notebook: the words whose number lies
 * in the chosen range, shuffled or sorted by number, cut to the question
 * count with JavaScript's `slice(0, end)`; the review quiz made of the
 * words answered wrongly; and the largest word number, which the settings
 * screen uses as the default end of the range.
 */
module Selection {
  import opened Types
  import opened JsNumbers

  /** `words.filter(w => w.no >= lo && w.no <= hi)`. */
  function FilterRange(words: seq<WordItem>, lo: int, hi: WordNo): (r: seq<WordItem>)
    ensures forall i :: 0 <= i < |r| ==> InRange(r[i], lo, hi)
    ensures forall w :: w in r <==> w in words && InRange(w, lo, hi)
    ensures multiset(r) <= multiset(words)
  {
    if words == [] then []
    else
      var rest := FilterRange(words[1..], lo, hi);
      assert words == [words[0]] + words[1..];
      if InRange(words[0], lo, hi) then [words[0]] + rest else rest
  }

  /** Filtering keeps the order: filtering a concatenation filters each part. */
  lemma {:induction false} FilterRangeAppend(a: seq<WordItem>, b: seq<WordItem>, lo: int, hi: WordNo)
    ensures FilterRange(a + b, lo, hi) == FilterRange(a, lo, hi) + FilterRange(b, lo, hi)
  {
    if a == [] {
      assert a + b == b;
    } else {
      assert (a + b)[1..] == a[1..] + b;
      FilterRangeAppend(a[1..], b, lo, hi);
    }
  }

  /** A list lying wholly in the range passes the filter unchanged. */
  lemma {:induction false} FilterRangeAll(words: seq<WordItem>, lo: int, hi: WordNo)
    requires forall i :: 0 <= i < |words| ==> InRange(words[i], lo, hi)
    ensures FilterRange(words, lo, hi) == words
  {
    if words != [] {
      FilterRangeAll(words[1..], lo, hi);
      assert words == [words[0]] + words[1..];
    }
  }

  /** No word lies in a range whose end is NaN. */
  lemma {:induction false} FilterRangeNaN(words: seq<WordItem>, lo: int)
    ensures FilterRange(words, lo, NaN) == []
  {
    if words != [] {
      FilterRangeNaN(words[1..], lo);
    }
  }

  predicate SortedByNo(s: seq<WordItem>)
  {
    forall i, j :: 0 <= i < j < |s| ==> Key(s[i]) <= Key(s[j])
  }

  /** Inserts x before the first element whose number is not smaller. */
  function Insert(x: WordItem, s: seq<WordItem>): (r: seq<WordItem>)
    ensures multiset(r) == multiset(s) + multiset{x}
  {
    if s == [] || Key(x) <= Key(s[0]) then [x] + s
    else
      assert s == [s[0]] + s[1..];
      [s[0]] + Insert(x, s[1..])
  }

  lemma {:induction false} InsertSorted(x: WordItem, s: seq<WordItem>)
    requires SortedByNo(s)
    ensures SortedByNo(Insert(x, s))
  {
    if s != [] && Key(x) > Key(s[0]) {
      var rest := Insert(x, s[1..]);
      InsertSorted(x, s[1..]);
      assert s == [s[0]] + s[1..];
      forall j | 0 <= j < |rest| ensures Key(s[0]) <= Key(rest[j]) {
        assert rest[j] in multiset(s[1..]) + multiset{x};
        if rest[j] in multiset(s[1..]) {
          var i :| 0 <= i < |s[1..]| && s[1..][i] == rest[j];
          assert s[i + 1] == rest[j];
        }
      }
    }
  }

  /** `[...filtered].sort((a, b) => a.no - b.no)`: a stable sort by number,
      as `Array.prototype.sort` is. */
  function SortByNo(s: seq<WordItem>): (r: seq<WordItem>)
    ensures multiset(r) == multiset(s)
    ensures SortedByNo(r)
  {
    if s == [] then []
    else
      assert s == [s[0]] + s[1..];
      InsertSorted(s[0], SortByNo(s[1..]));
      Insert(s[0], SortByNo(s[1..]))
  }

  /** Sorting a list already in order of number leaves it as it is. */
  lemma {:induction false} SortByNoSorted(s: seq<WordItem>)
    requires SortedByNo(s)
    ensures SortByNo(s) == s
  {
    if s != [] {
      assert SortedByNo(s[1..]);
      SortByNoSorted(s[1..]);
      assert s == [s[0]] + s[1..];
    }
  }

  /** The words with a given sort key, in order. */
  function WithKey(s: seq<WordItem>, k: int): seq<WordItem>
  {
    if s == [] then [] else (if Key(s[0]) == k then [s[0]] else []) + WithKey(s[1..], k)
  }

  lemma {:induction false} InsertWithKey(x: WordItem, s: seq<WordItem>, k: int)
    requires SortedByNo(s)
    ensures WithKey(Insert(x, s), k) == (if Key(x) == k then [x] else []) + WithKey(s, k)
  {
    if s == [] || Key(x) <= Key(s[0]) {
      assert ([x] + s)[1..] == s;
    } else {
      var r := Insert(x, s[1..]);
      assert ([s[0]] + r)[1..] == r;
      InsertWithKey(x, s[1..], k);
    }
  }

  /** The sort is stable: words with equal numbers keep their order. */
  lemma {:induction false} SortByNoStable(s: seq<WordItem>, k: int)
    ensures WithKey(SortByNo(s), k) == WithKey(s, k)
  {
    if s != [] {
      SortByNoStable(s[1..], k);
      InsertWithKey(s[0], SortByNo(s[1..]), k);
    }
  }

  /** Where `slice(0, end)` stops on a list of length n: a negative end
      counts from the back. */
  function SliceEnd(end: int, n: nat): (e: nat)
    ensures e <= n
  {
    if end < 0 then (if n + end < 0 then 0 else n + end)
    else if end < n then end else n
  }

  /** `arranged.slice(0, Math.min(count, arranged.length))`. */
  function TakeQuestions(arranged: seq<WordItem>, count: int): (r: seq<WordItem>)
    ensures r <= arranged
  {
    arranged[..SliceEnd(Min(count, |arranged|), |arranged|)]
  }

  /** `Math.max(...words.map(w => w.no))` of a non-empty word list. */
  function MaxOfNos(words: seq<WordItem>): (r: WordNo)
    requires |words| > 0
    ensures r.NaN? <==> exists i :: 0 <= i < |words| && words[i].no.NaN?
    ensures r.Num? ==> forall i :: 0 <= i < |words| ==> words[i].no.Num? && words[i].no.n <= r.n
    ensures r.Num? ==> exists i :: 0 <= i < |words| && words[i].no == r
  {
    if |words| == 1 then words[0].no
    else
      var rest := MaxOfNos(words[1..]);
      assert forall i :: 1 <= i < |words| ==> words[i] == words[1..][i - 1];
      var r := JsMax(words[0].no, rest);
      assert r.Num? ==> exists i :: 0 <= i < |words| && words[i].no == r by {
        if r.Num? && r != words[0].no {
          var j :| 0 <= j < |words[1..]| && words[1..][j].no == rest;
          assert words[j + 1].no == r;
        }
      }
      r
  }

  /** The largest word number the settings screen is given: 0 for a
      notebook without words, NaN when some word number is NaN. */
  function MaxNo(words: seq<WordItem>): (r: WordNo)
    ensures words == [] ==> r == Num(0)
    ensures words != [] ==> (r.NaN? <==> exists i :: 0 <= i < |words| && words[i].no.NaN?)
    ensures words != [] && r.Num? ==> forall i :: 0 <= i < |words| ==> words[i].no.n <= r.n
  {
    if |words| > 0 then MaxOfNos(words) else Num(0)
  }

  /** The quiz list that starting a quiz on these words with these settings
      can produce: in sequential order exactly one, in random order one for
      every arrangement the shuffle may return. */
  ghost predicate ValidSelection(words: seq<WordItem>, st: QuizSettings, sel: seq<WordItem>)
  {
    var filtered := FilterRange(words, st.rangeStart, st.rangeEnd);
    match st.order
    case Sequential => sel == TakeQuestions(SortByNo(filtered), st.questionCount)
    case Random => exists shuffled :: multiset(shuffled) == multiset(filtered) && sel == TakeQuestions(shuffled, st.questionCount)
  }

  lemma PrefixMultiset(s: seq<WordItem>, k: nat)
    requires k <= |s|
    ensures multiset(s[..k]) <= multiset(s)
  {
    assert s == s[..k] + s[k..];
  }

  lemma PrefixSorted(s: seq<WordItem>, p: seq<WordItem>)
    requires SortedByNo(s) && p <= s
    ensures SortedByNo(p)
  {
    assert forall i :: 0 <= i < |p| ==> p[i] == s[i];
  }

  /** A cut of an arrangement of the filtered words has the selection's
      properties. */
  lemma ArrangedSelection(arranged: seq<WordItem>, filtered: seq<WordItem>, count: int, lo: int, hi: WordNo)
    requires multiset(arranged) == multiset(filtered)
    requires forall i :: 0 <= i < |filtered| ==> InRange(filtered[i], lo, hi)
    ensures forall i :: 0 <= i < |TakeQuestions(arranged, count)| ==> InRange(TakeQuestions(arranged, count)[i], lo, hi)
    ensures multiset(TakeQuestions(arranged, count)) <= multiset(filtered)
    ensures count >= 0 ==> |TakeQuestions(arranged, count)| == Min(count, |filtered|)
    ensures count < 0 ==> |TakeQuestions(arranged, count)| == Max(|filtered| + count, 0)
  {
    var sel := TakeQuestions(arranged, count);
    assert |arranged| == |filtered| by {
      assert |multiset(arranged)| == |multiset(filtered)|;
    }
    var e := SliceEnd(Min(count, |arranged|), |arranged|);
    assert sel == arranged[..e];
    PrefixMultiset(arranged, e);
    forall i | 0 <= i < |sel| ensures InRange(sel[i], lo, hi) {
      assert sel[i] in multiset(filtered);
    }
  }

  /** The arrangement a selection was cut from: the sorted filtered words
      in sequential order, some permutation of them in random order. */
  lemma SelectionArrangement(words: seq<WordItem>, st: QuizSettings, sel: seq<WordItem>) returns (arranged: seq<WordItem>)
    requires ValidSelection(words, st, sel)
    ensures multiset(arranged) == multiset(FilterRange(words, st.rangeStart, st.rangeEnd))
    ensures sel == TakeQuestions(arranged, st.questionCount)
    ensures st.order == Sequential ==> arranged == SortByNo(FilterRange(words, st.rangeStart, st.rangeEnd))
  {
    var filtered := FilterRange(words, st.rangeStart, st.rangeEnd);
    if st.order == Sequential {
      arranged := SortByNo(filtered);
    } else {
      arranged :| multiset(arranged) == multiset(filtered) && sel == TakeQuestions(arranged, st.questionCount);
    }
  }

  /** What every quiz selection satisfies: its words lie in the range and
      come from the filtered words; its length is the count capped by the
      supply (or the supply shortened from the back for a negative count);
      in sequential order it is sorted and a prefix of the sorted words. */
  lemma SelectionProperties(words: seq<WordItem>, st: QuizSettings, sel: seq<WordItem>)
    requires ValidSelection(words, st, sel)
    ensures forall i :: 0 <= i < |sel| ==> InRange(sel[i], st.rangeStart, st.rangeEnd)
    ensures multiset(sel) <= multiset(FilterRange(words, st.rangeStart, st.rangeEnd))
    ensures st.questionCount >= 0 ==> |sel| == Min(st.questionCount, |FilterRange(words, st.rangeStart, st.rangeEnd)|)
    ensures st.questionCount < 0 ==> |sel| == Max(|FilterRange(words, st.rangeStart, st.rangeEnd)| + st.questionCount, 0)
    ensures st.order == Sequential ==> SortedByNo(sel) && sel <= SortByNo(FilterRange(words, st.rangeStart, st.rangeEnd))
  {
    var filtered := FilterRange(words, st.rangeStart, st.rangeEnd);
    var arranged := SelectionArrangement(words, st, sel);
    ArrangedSelection(arranged, filtered, st.questionCount, st.rangeStart, st.rangeEnd);
    if st.order == Sequential {
      PrefixSorted(arranged, sel);
    }
  }

  /** Every arrangement of the filtered words is a possible random-order
      quiz, so the random order can always proceed. */
  lemma RandomSelectionExists(words: seq<WordItem>, st: QuizSettings, shuffled: seq<WordItem>)
    requires st.order == Random
    requires multiset(shuffled) == multiset(FilterRange(words, st.rangeStart, st.rangeEnd))
    ensures ValidSelection(words, st, TakeQuestions(shuffled, st.questionCount))
  {
  }

  /** The words of the results marked wrong, in order:
      `results.filter(r => !r.isCorrect).map(r => r.word)`. */
  function MissedWords(rs: seq<QuizResult>): (r: seq<WordItem>)
    ensures |r| <= |rs|
  {
    if rs == [] then [] else (if rs[0].isCorrect then [] else [rs[0].word]) + MissedWords(rs[1..])
  }

  /** A word is among the missed words exactly when some result about it was
      marked wrong. */
  lemma {:induction false} MissedWordsMember(rs: seq<QuizResult>, w: WordItem)
    ensures w in MissedWords(rs) <==> exists i :: 0 <= i < |rs| && !rs[i].isCorrect && rs[i].word == w
  {
    if rs != [] {
      MissedWordsMember(rs[1..], w);
      if exists i :: 0 <= i < |rs| && !rs[i].isCorrect && rs[i].word == w {
        var i :| 0 <= i < |rs| && !rs[i].isCorrect && rs[i].word == w;
        if i > 0 {
          assert rs[1..][i - 1] == rs[i];
        }
      }
      if exists i :: 0 <= i < |rs[1..]| && !rs[1..][i].isCorrect && rs[1..][i].word == w {
        var i :| 0 <= i < |rs[1..]| && !rs[1..][i].isCorrect && rs[1..][i].word == w;
        assert rs[i + 1] == rs[1..][i];
      }
    }
  }

  /** The review quiz is some arrangement of exactly the missed words. */
  ghost predicate ValidReview(rs: seq<QuizResult>, quiz: seq<WordItem>)
  {
    multiset(quiz) == multiset(MissedWords(rs))
  }
}
