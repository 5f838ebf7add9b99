/**
 * The notebook list of the application and the pure list expressions its
 * handlers assign to it: find the active notebook, prepend an imported
 * one, rename, delete, and record a finished quiz into the active one.
 */
module Notebooks {
  import opened Types
  import opened JsNumbers
  import opened Mastery

  /** `notebooks.find(nb => nb.id === activeId)`: the first notebook with
      that id; nothing matches an absent id. */
  function FindNotebook(nbs: seq<Notebook>, activeId: Option<string>): (r: Option<Notebook>)
    ensures r.None? <==> forall i :: 0 <= i < |nbs| ==> Some(nbs[i].id) != activeId
    ensures r.Some? ==> exists i :: 0 <= i < |nbs| && nbs[i] == r.value && Some(r.value.id) == activeId
                                   && forall j :: 0 <= j < i ==> Some(nbs[j].id) != activeId
  {
    if nbs == [] then None
    else if Some(nbs[0].id) == activeId then Some(nbs[0])
    else
      var r := FindNotebook(nbs[1..], activeId);
      assert forall i :: 1 <= i < |nbs| ==> nbs[i] == nbs[1..][i - 1];
      r
  }

  /** The fixed part of a new notebook's name. */
  const NamePrefix := "新しい単語帳 "

  /** The name a freshly imported notebook gets: its position counted from
      one, after the existing ones. */
  function DefaultName(count: nat): string
  {
    NamePrefix + IntToString(count + 1)
  }

  /** The notebook an import creates: given words, no mastery yet, and a
      name that is the fixed prefix followed by the text of the number of
      notebooks it makes. */
  function NewNotebook(id: string, existing: nat, data: seq<WordItem>, createdAt: int): (nb: Notebook)
    ensures nb.id == id && nb.words == data && nb.mastery == map[] && nb.createdAt == createdAt
    ensures |nb.name| > |NamePrefix| && nb.name[..|NamePrefix|] == NamePrefix
  {
    Notebook(id, DefaultName(existing), data, map[], createdAt)
  }

  /** The default name ends in the number `existing + 1`, written so that
      it reads back as that number. */
  lemma NewNotebookNumbered(id: string, existing: nat, data: seq<WordItem>, createdAt: int)
    ensures ParseInt(NewNotebook(id, existing, data, createdAt).name[|NamePrefix|..]) == Some(existing + 1)
  {
    var name := NewNotebook(id, existing, data, createdAt).name;
    assert name[|NamePrefix|..] == IntToString(existing + 1);
    ParseIntToString(existing + 1);
  }

  /** `notebooks.map(nb => nb.id === id ? { ...nb, name: newName } : nb)`. */
  function Rename(nbs: seq<Notebook>, id: string, newName: string): (r: seq<Notebook>)
    ensures |r| == |nbs|
    ensures forall i :: 0 <= i < |nbs| ==>
      r[i] == nbs[i].(name := if nbs[i].id == id then newName else nbs[i].name)
  {
    if nbs == [] then []
    else [if nbs[0].id == id then nbs[0].(name := newName) else nbs[0]] + Rename(nbs[1..], id, newName)
  }

  /** How many notebooks carry the id. */
  function CountWithId(nbs: seq<Notebook>, id: string): nat
  {
    if nbs == [] then 0 else (if nbs[0].id == id then 1 else 0) + CountWithId(nbs[1..], id)
  }

  /** `notebooks.filter(nb => nb.id !== id)`. */
  function Remove(nbs: seq<Notebook>, id: string): (r: seq<Notebook>)
    ensures forall nb :: nb in r <==> nb in nbs && nb.id != id
    ensures |r| + CountWithId(nbs, id) == |nbs|
  {
    if nbs == [] then []
    else
      assert forall nb :: nb in nbs <==> nb == nbs[0] || nb in nbs[1..];
      (if nbs[0].id == id then [] else [nbs[0]]) + Remove(nbs[1..], id)
  }

  /** Deleting keeps the order of the other notebooks: removing from a
      concatenation removes from each part. */
  lemma {:induction false} RemoveAppend(a: seq<Notebook>, b: seq<Notebook>, id: string)
    ensures Remove(a + b, id) == Remove(a, id) + Remove(b, id)
  {
    if a == [] {
      assert a + b == b;
    } else {
      assert (a + b)[1..] == a[1..] + b;
      RemoveAppend(a[1..], b, id);
    }
  }

  /** Deleting an id no notebook carries changes nothing. */
  lemma {:induction false} RemoveAbsent(nbs: seq<Notebook>, id: string)
    requires forall i :: 0 <= i < |nbs| ==> nbs[i].id != id
    ensures Remove(nbs, id) == nbs
  {
    if nbs != [] {
      RemoveAbsent(nbs[1..], id);
      assert nbs == [nbs[0]] + nbs[1..];
    }
  }

  /** The notebook list after a quiz: the active notebook's ledger records
      the results, every other notebook stays as it was. */
  function RecordQuiz(nbs: seq<Notebook>, activeId: Option<string>, results: seq<QuizResult>): (r: seq<Notebook>)
    ensures |r| == |nbs|
    ensures forall i :: 0 <= i < |nbs| ==>
      r[i] == if Some(nbs[i].id) == activeId then nbs[i].(mastery := Aggregate(nbs[i].mastery, results)) else nbs[i]
  {
    if nbs == [] then []
    else
      var nb := nbs[0];
      [if Some(nb.id) == activeId then nb.(mastery := Aggregate(nb.mastery, results)) else nb]
      + RecordQuiz(nbs[1..], activeId, results)
  }

  /** Every ledger in the list keeps successes within attempts. */
  predicate AllConsistent(nbs: seq<Notebook>)
  {
    forall i :: 0 <= i < |nbs| ==> Consistent(nbs[i].mastery)
  }

  /** Recording a quiz keeps every ledger consistent, and recording an empty
      quiz changes no notebook. */
  lemma RecordQuizKeeps(nbs: seq<Notebook>, activeId: Option<string>, results: seq<QuizResult>)
    requires AllConsistent(nbs)
    ensures AllConsistent(RecordQuiz(nbs, activeId, results))
    ensures results == [] ==> RecordQuiz(nbs, activeId, results) == nbs
  {
    var r := RecordQuiz(nbs, activeId, results);
    forall i | 0 <= i < |nbs| ensures Consistent(r[i].mastery) {
      AggregateConsistent(nbs[i].mastery, results);
    }
  }
}
