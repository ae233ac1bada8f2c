/** /api/questions/choices: list the choices of a question in `order_index`
    order, add a choice at the end of the list, update a choice's text and
    correctness, delete a choice by the id in the query string. */
module ChoicesRoute {
  import opened Common
  import opened QuestionBank
  import QuestionsRoute

  /** The GET handler: the question's choices, ordered by `order_index`. */
  function Get(questionId: Option<Id>, table: Fetch<seq<ChoiceRow>>): (r: Reply<seq<ChoiceRow>>)
    ensures !Given(questionId) ==> r == Err(400, "Missing question_id")
    ensures Given(questionId) && table.StorageError? ==> r == Err(500, table.message)
    ensures Given(questionId) && table.Rows? ==> r.Ok? && r.status == 200
    ensures r.Ok? ==>
              && table.Rows?
              && SortedByOrder(r.body)
              && multiset(r.body) == multiset(ChoicesOf(table.rows, questionId.value))
              && forall c :: c in r.body ==> c.questionId == questionId.value && c in table.rows
  {
    if !Given(questionId) then Err(400, "Missing question_id")
    else
      match table
      case StorageError(m) => Err(500, m)
      case Rows(rows) =>
        var listed := SortByOrder(ChoicesOf(rows, questionId.value));
        assert forall c :: c in listed ==> c in multiset(listed);
        assert forall c :: c in listed ==> c in ChoicesOf(rows, questionId.value);
        Ok(200, listed)
  }

  /** `(count || 0) + 1`: one past the number of the question's choices; a
      failed count reads as no count, so the position is 1. */
  function NextOrder(rows: seq<ChoiceRow>, questionId: Id, countFails: bool): (n: int)
    ensures n >= 1
    ensures !countFails ==> n == |ChoicesOf(rows, questionId)| + 1
    ensures countFails ==> n == 1
  {
    if countFails then 1 else |ChoicesOf(rows, questionId)| + 1
  }

  /** The row POST inserts: text defaults to "", `is_correct` becomes a
      boolean, and the position comes from the count; the request's own
      `order_index` plays no part. */
  function Added(rows: seq<ChoiceRow>, body: ChoiceBody, countFails: bool, id: Id): (c: ChoiceRow)
    requires Given(body.questionId)
    ensures c.id == id && c.questionId == body.questionId.value
    ensures c.choiceText == Some(if body.choiceText.Some? then body.choiceText.value else "")
    ensures c.isCorrect == Bool(Truthy(body.isCorrect))
    ensures c.orderIndex == NextOrder(rows, body.questionId.value, countFails)
  {
    ChoiceRow(id, body.questionId.value, Some(OrEmpty(body.choiceText)),
              NextOrder(rows, body.questionId.value, countFails), Bool(Truthy(body.isCorrect)))
  }

  /** `err.message || "Failed to create choice"`. */
  function CreateError(message: string): string
  {
    if message == "" then "Failed to create choice" else message
  }

  /** The POST handler; `countFails` says the count query failed and
      `insertFault` is the insert's error, if any. */
  method Post(db: Tables, body: ChoiceBody, countFails: bool, insertFault: Option<string>) returns (r: Reply<ChoiceRow>)
    requires db.Valid()
    modifies db
    ensures db.Valid()
    ensures r.Ok? ==> forall x :: x in old(db.choices) ==> x.id != r.body.id
    ensures !Given(body.questionId) ==> r == Err(400, "Missing question_id") && unchanged(db)
    ensures Given(body.questionId) && insertFault.Some? ==>
              r == Err(500, CreateError(insertFault.value)) && unchanged(db)
    ensures Given(body.questionId) && insertFault.None? ==>
              var c := Added(old(db.choices), body, countFails, Decimal(old(db.nextId)));
              && r == Ok(201, c)
              && db.choices == old(db.choices) + [c]
              && db.nextId == old(db.nextId) + 1
              && db.questions == old(db.questions) && db.answers == old(db.answers)
  {
    if !Given(body.questionId) {
      return Err(400, "Missing question_id");
    }
    if insertFault.Some? {
      return Err(500, CreateError(insertFault.value));
    }
    var c := Added(db.choices, body, countFails, Decimal(db.nextId));
    forall x | x in db.choices ensures x.id != c.id {
      IssuedIsNotLater(x.id, db.nextId, db.nextId);
    }
    db.choices := db.choices + [c];
    db.nextId := db.nextId + 1;
    r := Ok(201, c);
  }

  /** The PUT handler: only `choice_text` and `is_correct` of the rows with
      that id change. */
  method Put(db: Tables, body: ChoiceBody, fault: Option<string>) returns (r: Reply<()>)
    requires db.Valid()
    modifies db
    ensures db.Valid()
    ensures !Given(body.id) ==> r == Err(400, "Missing choice id") && unchanged(db)
    ensures Given(body.id) && fault.Some? ==> r == Err(500, fault.value) && unchanged(db)
    ensures Given(body.id) && fault.None? ==>
              && r == Ok(200, ())
              && db.choices == Patched(old(db.choices), body.id.value, ChoicePatch(body.choiceText, body.isCorrect, None))
              && db.questions == old(db.questions) && db.answers == old(db.answers) && db.nextId == old(db.nextId)
  {
    if !Given(body.id) {
      return Err(400, "Missing choice id");
    }
    if fault.Some? {
      return Err(500, fault.value);
    }
    SameIdsIssued(db.choices, Patched(db.choices, body.id.value, ChoicePatch(body.choiceText, body.isCorrect, None)), ChoiceId, db.nextId);
    db.choices := Patched(db.choices, body.id.value, ChoicePatch(body.choiceText, body.isCorrect, None));
    r := Ok(200, ());
  }

  /** The DELETE handler; `id` is the `id` query parameter. */
  method Delete(db: Tables, id: Option<Id>, fault: Option<string>) returns (r: Reply<()>)
    requires db.Valid()
    modifies db
    ensures db.Valid()
    ensures !Given(id) ==> r == Err(400, "Missing id") && unchanged(db)
    ensures Given(id) && fault.Some? ==> r == Err(500, fault.value) && unchanged(db)
    ensures Given(id) && fault.None? ==>
              && r == Ok(200, ())
              && db.choices == Where(old(db.choices), ChoiceId, id.value, false)
              && db.questions == old(db.questions) && db.answers == old(db.answers) && db.nextId == old(db.nextId)
  {
    if !Given(id) {
      return Err(400, "Missing id");
    }
    if fault.Some? {
      return Err(500, fault.value);
    }
    db.choices := Where(db.choices, ChoiceId, id.value, false);
    r := Ok(200, ());
  }

  /** The positions of a list run 1, 2, ..., n. */
  predicate NumberedFromOne(rows: seq<ChoiceRow>)
  {
    forall i :: 0 <= i < |rows| ==> rows[i].orderIndex == i + 1
  }

  lemma NumberedIsSorted(rows: seq<ChoiceRow>)
    requires NumberedFromOne(rows)
    ensures SortedByOrder(rows)
  {
  }

  /** After a PUT of a "multiple" question through /api/questions, this GET
      lists exactly the request's choices, in request order. */
  lemma {:induction false} GetAfterQuestionPut(
    rows: seq<ChoiceRow>, id: Id, choices: seq<QuestionsRoute.ChoiceInput>, next: nat)
    requires id != ""
    ensures var after := Where(rows, ChoiceQuestion, id, false) + Stamp(QuestionsRoute.ChoiceRows(id, choices), next);
            Get(Some(id), Rows(after)) == Ok(200, Stamp(QuestionsRoute.ChoiceRows(id, choices), next))
  {
    var added := Stamp(QuestionsRoute.ChoiceRows(id, choices), next);
    var after := Where(rows, ChoiceQuestion, id, false) + added;
    QuestionsRoute.StampedChoicesBelongTo(id, choices, next);
    ReplacedReadsBack(rows, ChoiceQuestion, id, added);
    NumberedIsSorted(added);
    SortKeepsOrderedRows(added);
  }

  /** On a question whose choices are numbered 1..n, a POST adds the new
      choice as number n + 1, and the list stays numbered from one with the
      new choice last. */
  lemma {:induction false} PostExtendsNumbering(rows: seq<ChoiceRow>, body: ChoiceBody, id: Id)
    requires Given(body.questionId)
    requires NumberedFromOne(ChoicesOf(rows, body.questionId.value))
    ensures var c := Added(rows, body, false, id);
            && ChoicesOf(rows + [c], body.questionId.value) == ChoicesOf(rows, body.questionId.value) + [c]
            && NumberedFromOne(ChoicesOf(rows + [c], body.questionId.value))
  {
    var c := Added(rows, body, false, id);
    WhereAppend(rows, [c], ChoiceQuestion, body.questionId.value, true);
    WhereAll([c], ChoiceQuestion, body.questionId.value, true);
  }

  /** Deleting a choice takes exactly that choice out of its question's
      list and keeps the rest of the list in order. */
  lemma {:induction false} DeleteNarrowsList(rows: seq<ChoiceRow>, id: Id, questionId: Id)
    ensures ChoicesOf(Where(rows, ChoiceId, id, false), questionId)
              == Where(ChoicesOf(rows, questionId), ChoiceId, id, false)
  {
    if rows != [] {
      DeleteNarrowsList(rows[1..], id, questionId);
    }
  }

  /** The position is a count, not a maximum: after the first of three
      choices numbered 1, 2, 3 is deleted, the next POST numbers its choice
      3 again, next to the existing 3. */
  lemma DeleteThenPostRepeatsPosition()
    ensures var rows := [ChoiceRow("1", "q", Some("a"), 1, Bool(false)),
                         ChoiceRow("2", "q", Some("b"), 2, Bool(false)),
                         ChoiceRow("3", "q", Some("c"), 3, Bool(true))];
            var left := Where(rows, ChoiceId, "1", false);
            var c := Added(left, ChoiceBody(None, Some("q"), Some("d"), None, Bool(false)), false, "4");
            c.orderIndex == 3 && left[1].orderIndex == 3
  {
    var rows := [ChoiceRow("1", "q", Some("a"), 1, Bool(false)),
                 ChoiceRow("2", "q", Some("b"), 2, Bool(false)),
                 ChoiceRow("3", "q", Some("c"), 3, Bool(true))];
    var left := Where(rows, ChoiceId, "1", false);
    assert left == rows[1..];
    assert ChoicesOf(left, "q") == left;
  }
}
