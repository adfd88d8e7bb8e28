/** How one PATCH request edits the items of an import draft
    (backend/routers/bulk_assignment_import.py, lines 237-272). */
module ImportDraft {
  import opened Wrappers

  /** A JSON value the router only passes on. */
  type Json = string

  datatype Item = Item(clientItemId: string, body: Json)

  datatype Question = Question(id: string, field: string, indexes: seq<int>)

  datatype Answer = Answer(questionId: string, applyTo: Option<seq<int>>, value: Json)

  datatype EditError = UnknownQuestion | IndexOutOfRange | BadValue | UnknownItem

  /** Writes an answered field into one item; None where converting the value fails. */
  type Assign = (string, Json, Item) -> Option<Item>

  ghost predicate KeepsIds(assign: Assign) {
    forall f, v, it ::
      assign(f, v, it).Some? ==> assign(f, v, it).value.clientItemId == it.clientItemId
  }

  /** The dictionary built from (id, question) pairs: the last question with an id wins. */
  function QuestionById(qs: seq<Question>, id: string): (r: Option<Question>)
    ensures r.None? ==> forall j :: 0 <= j < |qs| ==> qs[j].id != id
    ensures r.Some? ==> exists i :: 0 <= i < |qs| && qs[i] == r.value && qs[i].id == id
                                    && forall j :: i < j < |qs| ==> qs[j].id != id
  {
    if qs == [] then None
    else if qs[|qs| - 1].id == id then Some(qs[|qs| - 1])
    else QuestionById(qs[..|qs| - 1], id)
  }

  /** The dictionary from client item id to index: the last index with an id wins. */
  function IndexById(items: seq<Item>, id: string): (r: Option<nat>)
    ensures r.Some? ==> r.value < |items| && items[r.value].clientItemId == id
    ensures r.Some? ==> forall j :: r.value < j < |items| ==> items[j].clientItemId != id
    ensures r.None? ==> forall j :: 0 <= j < |items| ==> items[j].clientItemId != id
  {
    if items == [] then None
    else if items[|items| - 1].clientItemId == id then Some(|items| - 1)
    else IndexById(items[..|items| - 1], id)
  }

  function AnswerAt(assign: Assign, field: string, value: Json, items: seq<Item>, index: int)
    : Result<seq<Item>, EditError>
  {
    if index < 0 || index >= |items| then Err(IndexOutOfRange)
    else match assign(field, value, items[index])
      case None => Err(BadValue)
      case Some(it) => Ok(items[index := it])
  }

  function AnswerAll(assign: Assign, field: string, value: Json, items: seq<Item>, indexes: seq<int>)
    : Result<seq<Item>, EditError>
  {
    if indexes == [] then Ok(items)
    else match AnswerAll(assign, field, value, items, indexes[..|indexes| - 1])
      case Err(e) => Err(e)
      case Ok(done) => AnswerAt(assign, field, value, done, indexes[|indexes| - 1])
  }

  function Targets(a: Answer, q: Question): seq<int> {
    match a.applyTo case None => q.indexes case Some(ixs) => ixs
  }

  function Answers(assign: Assign, qs: seq<Question>, items: seq<Item>, answers: seq<Answer>)
    : Result<seq<Item>, EditError>
  {
    if answers == [] then Ok(items)
    else match Answers(assign, qs, items, answers[..|answers| - 1])
      case Err(e) => Err(e)
      case Ok(done) =>
        var a := answers[|answers| - 1];
        match QuestionById(qs, a.questionId)
        case None => Err(UnknownQuestion)
        case Some(q) => AnswerAll(assign, q.field, a.value, done, Targets(a, q))
  }

  function Edits(items: seq<Item>, edits: seq<Item>): Result<seq<Item>, EditError> {
    if edits == [] then Ok(items)
    else match Edits(items, edits[..|edits| - 1])
      case Err(e) => Err(e)
      case Ok(done) =>
        match IndexById(items, edits[|edits| - 1].clientItemId)
        case None => Err(UnknownItem)
        case Some(i) => if i < |done| then Ok(done[i := edits[|edits| - 1]]) else Err(UnknownItem)
  }

  /** The whole edit: answers first, item replacements second. */
  function Edited(assign: Assign, qs: seq<Question>, items: seq<Item>, answers: seq<Answer>, edits: seq<Item>)
    : Result<seq<Item>, EditError>
  {
    match Answers(assign, qs, items, answers)
    case Err(e) => Err(e)
    case Ok(done) => Edits(done, edits)
  }

  /** The router's loops, which edit the item list in place and stop at the first error. */
  method EditItems(assign: Assign, qs: seq<Question>, draft: seq<Item>, answers: seq<Answer>, edits: seq<Item>)
    returns (r: Result<seq<Item>, EditError>)
    ensures r == Edited(assign, qs, draft, answers, edits)
  {
    var items := draft;
    for a := 0 to |answers|
      invariant Answers(assign, qs, draft, answers[..a]) == Ok(items)
    {
      assert answers[..a + 1][..a] == answers[..a];
      var answer := answers[a];
      var question := QuestionById(qs, answer.questionId);
      if question.None? {
        AnswersStop(assign, qs, draft, answers, a + 1);
        return Err(UnknownQuestion);
      }
      var indexes := Targets(answer, question.value);
      ghost var before := items;
      for k := 0 to |indexes|
        invariant AnswerAll(assign, question.value.field, answer.value, before, indexes[..k]) == Ok(items)
      {
        assert indexes[..k + 1][..k] == indexes[..k];
        var step := AnswerAt(assign, question.value.field, answer.value, items, indexes[k]);
        if step.Err? {
          AnswerAllStop(assign, question.value.field, answer.value, before, indexes, k + 1);
          AnswersStop(assign, qs, draft, answers, a + 1);
          return Err(step.error);
        }
        items := step.value;
      }
      assert indexes[..|indexes|] == indexes;
    }
    assert answers[..|answers|] == answers;
    ghost var answered := items;
    var index: map<string, nat> := IndexOf(items);
    for e := 0 to |edits|
      invariant |items| == |answered|
      invariant Edits(answered, edits[..e]) == Ok(items)
    {
      assert edits[..e + 1][..e] == edits[..e];
      if edits[e].clientItemId !in index {
        EditsStop(answered, edits, e + 1);
        return Err(UnknownItem);
      }
      items := items[index[edits[e].clientItemId] := edits[e]];
    }
    assert edits[..|edits|] == edits;
    r := Ok(items);
  }

  /** The dictionary comprehension over the enumerated items. */
  function IndexOf(items: seq<Item>): (m: map<string, nat>)
    ensures forall id :: id in m <==> IndexById(items, id).Some?
    ensures forall id :: id in m ==> m[id] < |items| && IndexById(items, id) == Some(m[id])
  {
    if items == [] then map[]
    else IndexOf(items[..|items| - 1])[items[|items| - 1].clientItemId := |items| - 1]
  }

  lemma {:induction false} AnswerAllStop(assign: Assign, field: string, value: Json, items: seq<Item>,
                                         indexes: seq<int>, k: nat)
    requires k <= |indexes| && AnswerAll(assign, field, value, items, indexes[..k]).Err?
    ensures AnswerAll(assign, field, value, items, indexes) == AnswerAll(assign, field, value, items, indexes[..k])
  {
    if k == |indexes| {
      assert indexes[..k] == indexes;
    } else {
      assert indexes[..|indexes| - 1][..k] == indexes[..k];
      AnswerAllStop(assign, field, value, items, indexes[..|indexes| - 1], k);
    }
  }

  lemma {:induction false} AnswersStop(assign: Assign, qs: seq<Question>, items: seq<Item>, answers: seq<Answer>,
                                       k: nat)
    requires k <= |answers| && Answers(assign, qs, items, answers[..k]).Err?
    ensures Answers(assign, qs, items, answers) == Answers(assign, qs, items, answers[..k])
  {
    if k == |answers| {
      assert answers[..k] == answers;
    } else {
      assert answers[..|answers| - 1][..k] == answers[..k];
      AnswersStop(assign, qs, items, answers[..|answers| - 1], k);
    }
  }

  lemma {:induction false} EditsStop(items: seq<Item>, edits: seq<Item>, k: nat)
    requires k <= |edits| && Edits(items, edits[..k]).Err?
    ensures Edits(items, edits) == Edits(items, edits[..k])
  {
    if k == |edits| {
      assert edits[..k] == edits;
    } else {
      assert edits[..|edits| - 1][..k] == edits[..k];
      EditsStop(items, edits[..|edits| - 1], k);
    }
  }

  // ---------------------------------------------------------------- what an edit keeps

  ghost predicate SameIds(a: seq<Item>, b: seq<Item>) {
    |a| == |b| && forall i :: 0 <= i < |a| ==> a[i].clientItemId == b[i].clientItemId
  }

  /** Index i is named by some answer, through its own list or its question's. */
  ghost predicate Answered(qs: seq<Question>, answers: seq<Answer>, i: int) {
    exists a :: 0 <= a < |answers| && QuestionById(qs, answers[a].questionId).Some?
                && i in Targets(answers[a], QuestionById(qs, answers[a].questionId).value)
  }

  lemma {:induction false} AnswerAllFrame(assign: Assign, field: string, value: Json, items: seq<Item>,
                                          indexes: seq<int>)
    requires KeepsIds(assign)
    ensures var r := AnswerAll(assign, field, value, items, indexes);
            r.Ok? ==> SameIds(items, r.value)
                      && forall i :: 0 <= i < |items| && i !in indexes ==> r.value[i] == items[i]
  {
    if indexes != [] {
      AnswerAllFrame(assign, field, value, items, indexes[..|indexes| - 1]);
    }
  }

  lemma {:induction false} AnswersFrame(assign: Assign, qs: seq<Question>, items: seq<Item>, answers: seq<Answer>)
    requires KeepsIds(assign)
    ensures var r := Answers(assign, qs, items, answers);
            r.Ok? ==> SameIds(items, r.value)
                      && forall i :: 0 <= i < |items| && !Answered(qs, answers, i) ==> r.value[i] == items[i]
  {
    if answers != [] {
      var front, a := answers[..|answers| - 1], answers[|answers| - 1];
      AnswersFrame(assign, qs, items, front);
      var q := QuestionById(qs, a.questionId);
      var done := Answers(assign, qs, items, front);
      if done.Ok? && q.Some? {
        AnswerAllFrame(assign, q.value.field, a.value, done.value, Targets(a, q.value));
        forall i | 0 <= i < |items|
          ensures Answered(qs, front, i) || i in Targets(a, q.value) ==> Answered(qs, answers, i)
        {
          AnsweredGrows(qs, answers, i);
        }
      }
    }
  }

  lemma AnsweredGrows(qs: seq<Question>, answers: seq<Answer>, i: int)
    requires answers != []
    ensures Answered(qs, answers[..|answers| - 1], i) ==> Answered(qs, answers, i)
    ensures var a := answers[|answers| - 1];
            var q := QuestionById(qs, a.questionId);
            q.Some? && i in Targets(a, q.value) ==> Answered(qs, answers, i)
  {
    var front := answers[..|answers| - 1];
    if Answered(qs, front, i) {
      var b :| 0 <= b < |front| && QuestionById(qs, front[b].questionId).Some?
               && i in Targets(front[b], QuestionById(qs, front[b].questionId).value);
      assert answers[b] == front[b];
    }
  }

  // ---------------------------------------------------------------- what an edit does

  /** The indexes an answer is written to: its own list if it brings one, or else its question's. */
  function Aims(a: Answer, q: Question): (r: seq<int>)
    ensures a.applyTo.Some? ==> r == a.applyTo.value
    ensures a.applyTo.None? ==> r == q.indexes
  {
    Targets(a, q)
  }

  /** One write for each time the index is listed. */
  function Times(indexes: seq<int>, i: int, field: string, value: Json): seq<(string, Json)> {
    if indexes == [] then []
    else Times(indexes[..|indexes| - 1], i, field, value) + if indexes[|indexes| - 1] == i then [(field, value)] else []
  }

  /** The values that the answers write into item i, in the order of the answers. */
  function Writes(qs: seq<Question>, answers: seq<Answer>, i: int): seq<(string, Json)> {
    if answers == [] then []
    else
      var a := answers[|answers| - 1];
      Writes(qs, answers[..|answers| - 1], i)
      + match QuestionById(qs, a.questionId)
        case None => []
        case Some(q) => Times(Aims(a, q), i, q.field, a.value)
  }

  /** One item after these writes, one on top of the other; none if a value cannot be converted. */
  function Folded(assign: Assign, it: Item, writes: seq<(string, Json)>): Option<Item> {
    if writes == [] then Some(it)
    else match Folded(assign, it, writes[..|writes| - 1])
      case None => None
      case Some(x) => assign(writes[|writes| - 1].0, writes[|writes| - 1].1, x)
  }

  lemma {:induction false} FoldedConcat(assign: Assign, it: Item, v: seq<(string, Json)>, w: seq<(string, Json)>)
    ensures Folded(assign, it, v + w)
            == match Folded(assign, it, v) case None => None case Some(x) => Folded(assign, x, w)
  {
    if w == [] {
      assert v + w == v;
    } else {
      assert (v + w)[..|v + w| - 1] == v + w[..|w| - 1];
      FoldedConcat(assign, it, v, w[..|w| - 1]);
    }
  }

  /** One answer, written to each of its indexes in turn. */
  lemma {:induction false} AnswerAllIs(assign: Assign, field: string, value: Json, items: seq<Item>, indexes: seq<int>)
    ensures var r := AnswerAll(assign, field, value, items, indexes);
            && (r.Ok? <==> InRange(indexes, |items|)
                           && forall i :: 0 <= i < |items| ==>
                                Folded(assign, items[i], Times(indexes, i, field, value)).Some?)
            && (r.Ok? ==> |r.value| == |items|
                          && forall i :: 0 <= i < |items| ==>
                               Folded(assign, items[i], Times(indexes, i, field, value)) == Some(r.value[i]))
  {
    if indexes != [] {
      var front, last := indexes[..|indexes| - 1], indexes[|indexes| - 1];
      AnswerAllIs(assign, field, value, items, front);
      forall i | 0 <= i < |items|
        ensures Folded(assign, items[i], Times(indexes, i, field, value))
                == FoldedNext(assign, items[i], front, last, i, field, value)
      {
        TimesStep(assign, items[i], indexes, i, field, value);
      }
    }
  }

  /** What the last of some indexes adds to an item. */
  function FoldedNext(assign: Assign, it: Item, front: seq<int>, last: int, i: int, field: string, value: Json)
    : Option<Item>
  {
    var before := Folded(assign, it, Times(front, i, field, value));
    if last != i || before.None? then before else assign(field, value, before.value)
  }

  lemma TimesStep(assign: Assign, it: Item, indexes: seq<int>, i: int, field: string, value: Json)
    requires indexes != []
    ensures Folded(assign, it, Times(indexes, i, field, value))
            == FoldedNext(assign, it, indexes[..|indexes| - 1], indexes[|indexes| - 1], i, field, value)
  {
    var before := Times(indexes[..|indexes| - 1], i, field, value);
    if indexes[|indexes| - 1] == i {
      assert (before + [(field, value)])[..|before|] == before;
    } else {
      assert before + [] == before;
    }
  }

  /** After successful answers every item is what its writes make of it; they succeed exactly when every question is
      known, every index is one of the draft and every value can be converted. */
  lemma {:induction false} AnswersResult(assign: Assign, qs: seq<Question>, items: seq<Item>, answers: seq<Answer>)
    ensures var r := Answers(assign, qs, items, answers);
            && (r.Ok? <==> (forall a :: a in answers ==> Known(qs, a, |items|))
                           && forall i :: 0 <= i < |items| ==> Folded(assign, items[i], Writes(qs, answers, i)).Some?)
            && (r.Ok? ==> |r.value| == |items|
                          && forall i :: 0 <= i < |items| ==>
                               Folded(assign, items[i], Writes(qs, answers, i)) == Some(r.value[i]))
  {
    if answers != [] {
      var front, a := answers[..|answers| - 1], answers[|answers| - 1];
      assert answers == front + [a];
      assert (forall x :: x in answers ==> Known(qs, x, |items|))
             <==> (forall x :: x in front ==> Known(qs, x, |items|)) && Known(qs, a, |items|);
      AnswersResult(assign, qs, items, front);
      var q := QuestionById(qs, a.questionId);
      var done := Answers(assign, qs, items, front);
      if q.Some? {
        assert Known(qs, a, |items|) <==> InRange(Aims(a, q.value), |items|);
        forall i | 0 <= i < |items|
          ensures Folded(assign, items[i], Writes(qs, answers, i))
                  == match Folded(assign, items[i], Writes(qs, front, i))
                     case None => None
                     case Some(x) => Folded(assign, x, Times(Aims(a, q.value), i, q.value.field, a.value))
        {
          FoldedConcat(assign, items[i], Writes(qs, front, i), Times(Aims(a, q.value), i, q.value.field, a.value));
        }
        if done.Ok? {
          AnswerAllIs(assign, q.value.field, a.value, done.value, Aims(a, q.value));
        }
      }
    }
  }

  predicate InRange(indexes: seq<int>, n: nat) {
    forall k :: 0 <= k < |indexes| ==> 0 <= indexes[k] < n
  }

  ghost predicate Known(qs: seq<Question>, a: Answer, n: nat) {
    && QuestionById(qs, a.questionId).Some?
    && InRange(Aims(a, QuestionById(qs, a.questionId).value), n)
  }

  /** The simplest case: one answer to a question about one item. */
  lemma OneAnswer(assign: Assign, qs: seq<Question>, items: seq<Item>, a: Answer, q: Question, i: nat)
    requires QuestionById(qs, a.questionId) == Some(q) && i < |items|
    requires a.applyTo == Some([i]) || (a.applyTo == None && q.indexes == [i])
    ensures Edited(assign, qs, items, [a], [])
            == match assign(q.field, a.value, items[i]) case None => Err(BadValue) case Some(it) => Ok(items[i := it])
  {
    assert [a][..0] == [] && [i as int][..0] == [];
    assert Answers(assign, qs, items, []) == Ok(items);
    assert AnswerAll(assign, q.field, a.value, items, []) == Ok(items);
  }

  /** Answers that come later start from what the earlier ones left, or from their error. */
  lemma {:induction false} AnswersConcat(assign: Assign, qs: seq<Question>, items: seq<Item>, xs: seq<Answer>,
                                         ys: seq<Answer>)
    ensures Answers(assign, qs, items, xs + ys)
            == match Answers(assign, qs, items, xs) case Err(e) => Err(e) case Ok(done) => Answers(assign, qs, done, ys)
  {
    if ys == [] {
      assert xs + ys == xs;
    } else {
      assert (xs + ys)[..|xs + ys| - 1] == xs + ys[..|ys| - 1];
      AnswersConcat(assign, qs, items, xs, ys[..|ys| - 1]);
    }
  }

  /** What the first answer fails with: an unknown question, or else its first index that is out of range or whose
      value cannot be converted. */
  lemma FirstAnswerFails(assign: Assign, qs: seq<Question>, items: seq<Item>, a: Answer, k: nat)
    ensures QuestionById(qs, a.questionId).None? ==> Answers(assign, qs, items, [a]) == Err(UnknownQuestion)
    ensures QuestionById(qs, a.questionId).Some? ==>
              var q := QuestionById(qs, a.questionId).value;
              k < |Aims(a, q)| && AnswerAll(assign, q.field, a.value, items, Aims(a, q)[..k]).Ok? ==>
                var done, i := AnswerAll(assign, q.field, a.value, items, Aims(a, q)[..k]).value, Aims(a, q)[k];
                && (!(0 <= i < |done|) ==> Answers(assign, qs, items, [a]) == Err(IndexOutOfRange))
                && (0 <= i < |done| && assign(q.field, a.value, done[i]).None? ==>
                      Answers(assign, qs, items, [a]) == Err(BadValue))
  {
    assert [a][..0] == [];
    assert Answers(assign, qs, items, []) == Ok(items);
    if QuestionById(qs, a.questionId).Some? {
      var q := QuestionById(qs, a.questionId).value;
      if k < |Aims(a, q)| && AnswerAll(assign, q.field, a.value, items, Aims(a, q)[..k]).Ok? {
        assert Aims(a, q)[..k + 1][..k] == Aims(a, q)[..k];
        if AnswerAll(assign, q.field, a.value, items, Aims(a, q)[..k + 1]).Err? {
          AnswerAllStop(assign, q.field, a.value, items, Aims(a, q), k + 1);
        }
      }
    }
  }

  /** Replacements succeed exactly when every one carries the id of some item. */
  lemma {:induction false} EditsOkIff(items: seq<Item>, edits: seq<Item>)
    ensures Edits(items, edits).Ok?
            <==> forall e :: e in edits ==> exists i :: 0 <= i < |items| && items[i].clientItemId == e.clientItemId
    ensures Edits(items, edits).Err? ==> Edits(items, edits).error == UnknownItem
  {
    if edits != [] {
      var front, last := edits[..|edits| - 1], edits[|edits| - 1];
      assert edits == front + [last];
      EditsOkIff(items, front);
      EditsLength(items, front);
    }
  }

  /** After the replacements an item is the last replacement aimed at it, or untouched. */
  lemma {:induction false} EditsResult(items: seq<Item>, edits: seq<Item>, i: nat)
    requires i < |items|
    ensures var r := Edits(items, edits);
            r.Ok? ==> |r.value| == |items| && r.value[i].clientItemId == items[i].clientItemId
                      && r.value[i] == LastEdit(items, edits, i)
  {
    if edits != [] {
      EditsResult(items, edits[..|edits| - 1], i);
    }
  }

  function LastEdit(items: seq<Item>, edits: seq<Item>, i: nat): Item
    requires i < |items|
  {
    if edits == [] then items[i]
    else if IndexById(items, edits[|edits| - 1].clientItemId) == Some(i) then edits[|edits| - 1]
    else LastEdit(items, edits[..|edits| - 1], i)
  }

  /** A successful edit keeps every item's identity and place, and leaves alone every item
      that no answer names and no replacement carries the id of. */
  lemma EditFrame(assign: Assign, qs: seq<Question>, items: seq<Item>, answers: seq<Answer>, edits: seq<Item>)
    requires KeepsIds(assign)
    requires Edited(assign, qs, items, answers, edits).Ok?
    ensures var r := Edited(assign, qs, items, answers, edits).value;
            SameIds(items, r)
            && forall i :: 0 <= i < |items| && !Answered(qs, answers, i)
                           && (forall e :: e in edits ==> e.clientItemId != items[i].clientItemId)
                           ==> r[i] == items[i]
  {
    AnswersFrame(assign, qs, items, answers);
    var done := Answers(assign, qs, items, answers).value;
    var r := Edits(done, edits).value;
    forall i | 0 <= i < |items|
      ensures |r| == |items| && r[i].clientItemId == items[i].clientItemId
      ensures (forall e :: e in edits ==> e.clientItemId != items[i].clientItemId) ==> r[i] == done[i]
    {
      EditsResult(done, edits, i);
      if forall e :: e in edits ==> e.clientItemId != items[i].clientItemId {
        NoEdit(done, edits, i);
      }
    }
    EditsLength(done, edits);
  }

  lemma {:induction false} NoEdit(items: seq<Item>, edits: seq<Item>, i: nat)
    requires i < |items| && forall e :: e in edits ==> e.clientItemId != items[i].clientItemId
    ensures LastEdit(items, edits, i) == items[i]
  {
    if edits != [] {
      assert edits[|edits| - 1] in edits;
      NoEdit(items, edits[..|edits| - 1], i);
    }
  }

  lemma {:induction false} EditsLength(items: seq<Item>, edits: seq<Item>)
    ensures Edits(items, edits).Ok? ==> |Edits(items, edits).value| == |items|
  {
    if edits != [] {
      EditsLength(items, edits[..|edits| - 1]);
    }
  }
}
