/** /api/questions/question-choices: add a choice at a given position,
    update a choice's text, correctness and position, and delete a choice
    by the id in the JSON body. */
module QuestionChoicesRoute {
  import opened Common
  import opened QuestionBank

  /** POST refuses a body without a question id or without choice text. */
  predicate Complete(body: ChoiceBody)
  {
    Given(body.questionId) && Given(body.choiceText)
  }

  /** The row POST inserts: the request's text, `order_index` falling back
      to 1 when absent or 0, and `is_correct` made a boolean. */
  function Added(body: ChoiceBody, id: Id): (c: ChoiceRow)
    requires Complete(body)
    ensures c.id == id && c.questionId == body.questionId.value
    ensures c.choiceText == body.choiceText && c.choiceText.value != ""
    ensures c.orderIndex != 0
    ensures body.orderIndex.Some? && body.orderIndex.value != 0 ==> c.orderIndex == body.orderIndex.value
    ensures body.orderIndex.None? || body.orderIndex == Some(0) ==> c.orderIndex == 1
    ensures c.isCorrect == Bool(Truthy(body.isCorrect))
  {
    ChoiceRow(id, body.questionId.value, body.choiceText, OrOne(body.orderIndex), Bool(Truthy(body.isCorrect)))
  }

  /** The POST handler; `fault` is the insert's error, if any. */
  method Post(db: Tables, body: ChoiceBody, fault: Option<string>) returns (r: Reply<ChoiceRow>)
    requires db.Valid()
    modifies db
    ensures db.Valid()
    ensures r.Ok? ==> forall x :: x in old(db.choices) ==> x.id != r.body.id
    ensures !Complete(body) ==> r == Err(400, "Missing required fields.") && unchanged(db)
    ensures Complete(body) && fault.Some? ==> r == Err(500, fault.value) && unchanged(db)
    ensures Complete(body) && fault.None? ==>
              var c := Added(body, Decimal(old(db.nextId)));
              && r == Ok(200, c)
              && db.choices == old(db.choices) + [c]
              && db.nextId == old(db.nextId) + 1
              && db.questions == old(db.questions) && db.answers == old(db.answers)
  {
    if !Complete(body) {
      return Err(400, "Missing required fields.");
    }
    if fault.Some? {
      return Err(500, fault.value);
    }
    var c := Added(body, Decimal(db.nextId));
    forall x | x in db.choices ensures x.id != c.id {
      IssuedIsNotLater(x.id, db.nextId, db.nextId);
    }
    db.choices := db.choices + [c];
    db.nextId := db.nextId + 1;
    r := Ok(200, c);
  }

  /** The columns PUT writes: text, correctness and position, each only
      when the request carries it. */
  function Update(body: ChoiceBody): ChoicePatch
  {
    ChoicePatch(body.choiceText, body.isCorrect, body.orderIndex)
  }

  /** The PUT handler; `fault` is the update's error, if any. */
  method Put(db: Tables, body: ChoiceBody, fault: Option<string>) returns (r: Reply<()>)
    requires db.Valid()
    modifies db
    ensures db.Valid()
    ensures !Given(body.id) ==> r == Err(400, "Missing choice ID.") && unchanged(db)
    ensures Given(body.id) && fault.Some? ==> r == Err(500, fault.value) && unchanged(db)
    ensures Given(body.id) && fault.None? ==>
              && r == Ok(200, ())
              && db.choices == Patched(old(db.choices), body.id.value, Update(body))
              && db.questions == old(db.questions) && db.answers == old(db.answers) && db.nextId == old(db.nextId)
  {
    if !Given(body.id) {
      return Err(400, "Missing choice ID.");
    }
    if fault.Some? {
      return Err(500, fault.value);
    }
    SameIdsIssued(db.choices, Patched(db.choices, body.id.value, Update(body)), ChoiceId, db.nextId);
    db.choices := Patched(db.choices, body.id.value, Update(body));
    r := Ok(200, ());
  }

  /** The DELETE handler; the id comes from the JSON body. */
  method Delete(db: Tables, body: ChoiceBody, fault: Option<string>) returns (r: Reply<()>)
    requires db.Valid()
    modifies db
    ensures db.Valid()
    ensures !Given(body.id) ==> r == Err(400, "Missing choice ID.") && unchanged(db)
    ensures Given(body.id) && fault.Some? ==> r == Err(500, fault.value) && unchanged(db)
    ensures Given(body.id) && fault.None? ==>
              && r == Ok(200, ())
              && db.choices == Where(old(db.choices), ChoiceId, body.id.value, false)
              && db.questions == old(db.questions) && db.answers == old(db.answers) && db.nextId == old(db.nextId)
  {
    if !Given(body.id) {
      return Err(400, "Missing choice ID.");
    }
    if fault.Some? {
      return Err(500, fault.value);
    }
    db.choices := Where(db.choices, ChoiceId, body.id.value, false);
    r := Ok(200, ());
  }

  /** A PUT leaves every choice of the table in place: the question's list
      has the same length, and each choice keeps its id and question. */
  lemma {:induction false} PutKeepsQuestionLists(rows: seq<ChoiceRow>, id: Id, p: ChoicePatch, questionId: Id)
    ensures |ChoicesOf(Patched(rows, id, p), questionId)| == |ChoicesOf(rows, questionId)|
    ensures forall i :: 0 <= i < |ChoicesOf(rows, questionId)| ==>
              ChoicesOf(Patched(rows, id, p), questionId)[i].id == ChoicesOf(rows, questionId)[i].id
  {
    if rows != [] {
      PutKeepsQuestionLists(rows[1..], id, p, questionId);
      var after := Patched(rows, id, p);
      assert after[1..] == Patched(rows[1..], id, p);
      assert after[0].questionId == rows[0].questionId && after[0].id == rows[0].id;
    }
  }

  /** Updating a choice with the values it already holds changes nothing. */
  lemma {:induction false} PutWithStoredValuesChangesNothing(rows: seq<ChoiceRow>, c: ChoiceRow)
    requires forall x :: x in rows && x.id == c.id ==> x == c
    ensures Patched(rows, c.id, ChoicePatch(c.choiceText, c.isCorrect, Some(c.orderIndex))) == rows
  {
    if rows != [] {
      PutWithStoredValuesChangesNothing(rows[1..], c);
    }
  }
}
