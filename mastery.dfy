/**
 * The mastery ledger and how a finished quiz is recorded into it: every
 * result bumps the attempt count of its word number, and the success count
 * when the answer was right; records are created on first use.
 */
module Mastery {
  import opened Types

  /** The record for a word number, or the empty record it is created as. */
  function Entry(m: MasteryData, k: WordNo): WordMastery
  {
    if k in m then m[k] else WordMastery(0, 0)
  }

  /** The ledger after recording one result. */
  function Record(m: MasteryData, r: QuizResult): (m': MasteryData)
    ensures m'.Keys == m.Keys + {r.word.no}
    ensures m'[r.word.no].total == Entry(m, r.word.no).total + 1
    ensures m'[r.word.no].correct == Entry(m, r.word.no).correct + (if r.isCorrect then 1 else 0)
    ensures forall k :: k in m && k != r.word.no ==> m'[k] == m[k]
  {
    var k := r.word.no;
    var e := Entry(m, k);
    m[k := WordMastery(if r.isCorrect then e.correct + 1 else e.correct, e.total + 1)]
  }

  /** The ledger after recording the results in order. */
  function Aggregate(m: MasteryData, rs: seq<QuizResult>): MasteryData
  {
    if rs == [] then m else Record(Aggregate(m, rs[..|rs| - 1]), rs[|rs| - 1])
  }

  /** How many results are about word number k. */
  function Attempts(rs: seq<QuizResult>, k: WordNo): nat
  {
    if rs == [] then 0
    else Attempts(rs[..|rs| - 1], k) + (if rs[|rs| - 1].word.no == k then 1 else 0)
  }

  /** How many results about word number k were marked correct. */
  function Successes(rs: seq<QuizResult>, k: WordNo): nat
  {
    if rs == [] then 0
    else Successes(rs[..|rs| - 1], k) + (if rs[|rs| - 1].word.no == k && rs[|rs| - 1].isCorrect then 1 else 0)
  }

  /** The word numbers the results are about. */
  function NosOf(rs: seq<QuizResult>): set<WordNo>
  {
    set i | 0 <= i < |rs| :: rs[i].word.no
  }

  /** Every record has no more successes than attempts. */
  predicate Consistent(m: MasteryData)
  {
    forall k :: k in m ==> m[k].correct <= m[k].total
  }

  /** The `forEach` loop of the quiz-completion handler: records every
      result into a copy of the ledger, creating missing records first. */
  method RecordResults(mastery: MasteryData, quizResults: seq<QuizResult>) returns (newMastery: MasteryData)
    ensures newMastery == Aggregate(mastery, quizResults)
  {
    newMastery := mastery;
    var i := 0;
    while i < |quizResults|
      invariant 0 <= i <= |quizResults|
      invariant newMastery == Aggregate(mastery, quizResults[..i])
    {
      var res := quizResults[i];
      var wordNo := res.word.no;
      if wordNo !in newMastery {
        newMastery := newMastery[wordNo := WordMastery(0, 0)];
      }
      var e := newMastery[wordNo];
      newMastery := newMastery[wordNo := e.(total := e.total + 1)];
      if res.isCorrect {
        e := newMastery[wordNo];
        newMastery := newMastery[wordNo := e.(correct := e.correct + 1)];
      }
      assert quizResults[..i + 1][..i] == quizResults[..i];
      i := i + 1;
    }
    assert quizResults[..i] == quizResults;
  }

  /** After recording, the ledger holds exactly the old keys and the
      results' word numbers, and every record grew by that number's attempts
      and successes. */
  lemma {:induction false} AggregateEntries(m: MasteryData, rs: seq<QuizResult>)
    ensures Aggregate(m, rs).Keys == m.Keys + NosOf(rs)
    ensures forall k {:trigger Entry(Aggregate(m, rs), k)} ::
      Entry(Aggregate(m, rs), k) == WordMastery(Entry(m, k).correct + Successes(rs, k), Entry(m, k).total + Attempts(rs, k))
  {
    if rs != [] {
      var front := rs[..|rs| - 1];
      AggregateEntries(m, front);
      forall k ensures Entry(Aggregate(m, rs), k) == WordMastery(Entry(m, k).correct + Successes(rs, k), Entry(m, k).total + Attempts(rs, k)) {
        assert Entry(Aggregate(m, front), k) == WordMastery(Entry(m, k).correct + Successes(front, k), Entry(m, k).total + Attempts(front, k));
      }
      NosOfLast(rs);
    }
  }

  /** The numbers of a result list are those of all but its last result,
      plus the last one's. */
  lemma NosOfLast(rs: seq<QuizResult>)
    requires rs != []
    ensures NosOf(rs) == NosOf(rs[..|rs| - 1]) + {rs[|rs| - 1].word.no}
  {
    var front := rs[..|rs| - 1];
    forall x | x in NosOf(rs) ensures x in NosOf(front) + {rs[|rs| - 1].word.no} {
      var i :| 0 <= i < |rs| && rs[i].word.no == x;
      if i < |rs| - 1 { assert front[i] == rs[i]; }
    }
    forall x | x in NosOf(front) ensures x in NosOf(rs) {
      var i :| 0 <= i < |front| && front[i].word.no == x;
      assert rs[i] == front[i];
    }
  }

  /** A word number no result is about keeps its record, or stays absent. */
  lemma AggregateUntouched(m: MasteryData, rs: seq<QuizResult>, k: WordNo)
    requires k !in NosOf(rs)
    ensures k in Aggregate(m, rs) <==> k in m
    ensures k in m ==> Aggregate(m, rs)[k] == m[k]
  {
    AggregateEntries(m, rs);
    AttemptsOutside(rs, k);
  }

  lemma {:induction false} AttemptsOutside(rs: seq<QuizResult>, k: WordNo)
    requires k !in NosOf(rs)
    ensures Attempts(rs, k) == 0 && Successes(rs, k) == 0
  {
    if rs != [] {
      var front := rs[..|rs| - 1];
      forall i | 0 <= i < |front| ensures front[i].word.no != k {
        assert front[i] == rs[i];
        assert rs[i].word.no in NosOf(rs);
      }
      AttemptsOutside(front, k);
      assert rs[|rs| - 1].word.no in NosOf(rs);
    }
  }

  /** Recording no results changes nothing. */
  lemma AggregateEmpty(m: MasteryData)
    ensures Aggregate(m, []) == m
  {
  }

  lemma {:induction false} SuccessesAtMostAttempts(rs: seq<QuizResult>, k: WordNo)
    ensures Successes(rs, k) <= Attempts(rs, k)
  {
    if rs != [] {
      SuccessesAtMostAttempts(rs[..|rs| - 1], k);
    }
  }

  /** Recording results keeps every record's successes within its attempts. */
  lemma AggregateConsistent(m: MasteryData, rs: seq<QuizResult>)
    requires Consistent(m)
    ensures Consistent(Aggregate(m, rs))
  {
    var a := Aggregate(m, rs);
    AggregateEntries(m, rs);
    forall k | k in a ensures a[k].correct <= a[k].total {
      SuccessesAtMostAttempts(rs, k);
      assert Entry(a, k) == a[k];
    }
  }

  lemma {:induction false} CountsAppend(a: seq<QuizResult>, b: seq<QuizResult>, k: WordNo)
    ensures Attempts(a + b, k) == Attempts(a, k) + Attempts(b, k)
    ensures Successes(a + b, k) == Successes(a, k) + Successes(b, k)
  {
    if b == [] {
      assert a + b == a;
    } else {
      var b' := b[..|b| - 1];
      assert (a + b)[..|a + b| - 1] == a + b';
      CountsAppend(a, b', k);
    }
  }

  /** Taking out the element at j takes one copy of it out of the multiset. */
  lemma RemoveAt(ps: seq<QuizResult>, j: nat)
    requires j < |ps|
    ensures multiset(ps[..j] + ps[j + 1..]) == multiset(ps) - multiset{ps[j]}
  {
    assert ps == ps[..j] + [ps[j]] + ps[j + 1..];
  }

  /** The counts of a word number depend only on which results there are,
      not on their order. */
  lemma {:induction false} CountsOfPermutation(rs: seq<QuizResult>, ps: seq<QuizResult>, k: WordNo)
    requires multiset(rs) == multiset(ps)
    ensures Attempts(rs, k) == Attempts(ps, k)
    ensures Successes(rs, k) == Successes(ps, k)
  {
    if rs != [] {
      var x := rs[|rs| - 1];
      var front := rs[..|rs| - 1];
      assert rs == front + [x];
      assert x in multiset(ps);
      var j :| 0 <= j < |ps| && ps[j] == x;
      var rest := ps[..j] + ps[j + 1..];
      assert ps == ps[..j] + [x] + ps[j + 1..];
      RemoveAt(ps, j);
      assert multiset(rs) == multiset(front) + multiset{x};
      CountsOfPermutation(front, rest, k);
      CountsAppend(ps[..j], [x], k);
      CountsAppend(ps[..j] + [x], ps[j + 1..], k);
      CountsAppend(ps[..j], ps[j + 1..], k);
      CountsAppend(front, [x], k);
      assert [x][..0] == [];
    }
  }

  /** Recording the same results in any order gives the same ledger. */
  lemma AggregatePermutation(m: MasteryData, rs: seq<QuizResult>, ps: seq<QuizResult>)
    requires multiset(rs) == multiset(ps)
    ensures Aggregate(m, rs) == Aggregate(m, ps)
  {
    var a, b := Aggregate(m, rs), Aggregate(m, ps);
    AggregateEntries(m, rs);
    AggregateEntries(m, ps);
    assert NosOf(rs) == NosOf(ps) by {
      forall x | x in NosOf(rs) ensures x in NosOf(ps) {
        var i :| 0 <= i < |rs| && rs[i].word.no == x;
        assert rs[i] in multiset(ps);
        var j :| 0 <= j < |ps| && ps[j] == rs[i];
      }
      forall x | x in NosOf(ps) ensures x in NosOf(rs) {
        var i :| 0 <= i < |ps| && ps[i].word.no == x;
        assert ps[i] in multiset(rs);
        var j :| 0 <= j < |rs| && rs[j] == ps[i];
      }
    }
    forall k | k in a ensures a[k] == b[k] {
      CountsOfPermutation(rs, ps, k);
      assert Entry(a, k) == a[k] && Entry(b, k) == b[k];
    }
  }
}
