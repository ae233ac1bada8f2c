/** POST and PUT /api/questions: create a question together with its choices
    (type "multiple") or accepted answers (type "long"), and update a
    question, replacing its choices or answers wholesale. */
module QuestionsRoute {
  import opened Common
  import opened QuestionBank

  /** One element of the request's `choices` array. */
  datatype ChoiceInput = ChoiceInput(choiceText: Option<string>, isCorrect: Json)

  /** The JSON body of POST and PUT; `None` marks an absent key. */
  datatype QuestionBody = QuestionBody(
    id: Option<Id>, lessonId: Option<Id>, questionText: Option<string>, questionType: Option<string>,
    choices: Option<seq<ChoiceInput>>, acceptedAnswers: Option<seq<string>>, orderIndex: Option<int>)

  /** The database calls a handler makes, named so a request can say which of them fail. */
  datatype Stage = QuestionWrite | ChoicesDelete | ChoicesWrite | AnswersDelete | AnswersWrite

  /** An absent array behaves as an empty one: `xs?.length > 0` is false for both. */
  function Items<T>(xs: Option<seq<T>>): seq<T>
  {
    if xs.Some? then xs.value else []
  }

  /** The choice rows for question `questionId`: one per input choice, in
      input order, numbered 1, 2, ... and with `is_correct` made a boolean. */
  function ChoiceRows(questionId: Id, choices: seq<ChoiceInput>): (r: seq<NewChoice>)
    ensures |r| == |choices|
    ensures forall i :: 0 <= i < |r| ==>
              && r[i].questionId == questionId
              && r[i].orderIndex == i + 1
              && r[i].choiceText == choices[i].choiceText
              && r[i].isCorrect == Bool(Truthy(choices[i].isCorrect))
  {
    if choices == [] then []
    else
      var last := choices[|choices| - 1];
      ChoiceRows(questionId, choices[..|choices| - 1])
        + [NewChoice(questionId, last.choiceText, |choices|, Bool(Truthy(last.isCorrect)))]
  }

  /** The accepted-answer rows for question `questionId`, one per answer, in order. */
  function AnswerRows(questionId: Id, answers: seq<string>): (r: seq<AnswerRow>)
    ensures |r| == |answers|
    ensures forall i :: 0 <= i < |r| ==> r[i].questionId == questionId && r[i].acceptedAnswer == answers[i]
  {
    if answers == [] then []
    else AnswerRows(questionId, answers[..|answers| - 1]) + [AnswerRow(questionId, answers[|answers| - 1])]
  }

  /** The three fields POST refuses to do without. */
  predicate Complete(body: QuestionBody)
  {
    Given(body.lessonId) && Given(body.questionText) && Given(body.questionType)
  }

  /** The `questions` row POST inserts; `order_index` falls back to 1. */
  function NewQuestion(body: QuestionBody, id: Id): (q: QuestionRow)
    requires Complete(body)
    ensures q.id == id && q.lessonId == body.lessonId.value
    ensures q.questionText == body.questionText.value && q.questionType == body.questionType.value
    ensures body.orderIndex == None || body.orderIndex == Some(0) ==> q.orderIndex == 1
    ensures body.orderIndex.Some? && body.orderIndex.value != 0 ==> q.orderIndex == body.orderIndex.value
  {
    QuestionRow(id, body.lessonId.value, body.questionText.value, body.questionType.value, OrOne(body.orderIndex))
  }

  /** The request carries choices to insert. */
  predicate InsertsChoices(body: QuestionBody)
  {
    body.questionType == Some("multiple") && |Items(body.choices)| > 0
  }

  /** The request carries accepted answers to insert. */
  predicate InsertsAnswers(body: QuestionBody)
  {
    body.questionType == Some("long") && |Items(body.acceptedAnswers)| > 0
  }

  /** The POST handler. `faults` maps each database call that fails to its
      error message; the question row stays when a later insert fails. */
  method Post(db: Tables, body: QuestionBody, faults: map<Stage, string>) returns (r: Reply<QuestionRow>)
    requires db.Valid()
    modifies db
    ensures db.Valid()
    ensures Complete(body) && QuestionWrite !in faults ==>
              forall q :: q in old(db.questions) ==> q.id != Decimal(old(db.nextId))
    ensures forall c :: c in db.choices ==> c in old(db.choices) || !Issued(c.id, old(db.nextId))
    ensures !Complete(body) ==> r == Err(400, "Missing required fields.") && unchanged(db)
    ensures Complete(body) && QuestionWrite in faults ==> r == Err(500, faults[QuestionWrite]) && unchanged(db)
    ensures Complete(body) && QuestionWrite !in faults ==>
              db.questions == old(db.questions) + [NewQuestion(body, Decimal(old(db.nextId)))]
    ensures Complete(body) && QuestionWrite !in faults ==>
              r == (if ItemsFault(body, faults).Some? then Err(500, ItemsFault(body, faults).value)
                    else Ok(200, NewQuestion(body, Decimal(old(db.nextId)))))
    ensures Complete(body) && QuestionWrite !in faults ==>
              ItemsInserted(old(db.choices), old(db.answers), old(db.nextId) + 1,
                            db.choices, db.answers, db.nextId, Decimal(old(db.nextId)), body, faults)
  {
    if !Complete(body) {
      return Err(400, "Missing required fields.");
    }
    if QuestionWrite in faults {
      return Err(500, faults[QuestionWrite]);
    }
    var id := Decimal(db.nextId);
    var q := NewQuestion(body, id);
    forall x | x in db.questions ensures x.id != id {
      IssuedIsNotLater(x.id, db.nextId, db.nextId);
    }
    var fault, choices, answers, next := InsertItems(db.choices, db.answers, db.nextId + 1, id, body, faults);
    db.questions, db.choices, db.answers, db.nextId := db.questions + [q], choices, answers, next;
    r := if fault.Some? then Err(500, fault.value) else Ok(200, q);
  }

  /** The message of the insert after the question row that fails, if any. */
  function ItemsFault(body: QuestionBody, faults: map<Stage, string>): Option<string>
  {
    if InsertsChoices(body) && ChoicesWrite in faults then Some(faults[ChoicesWrite])
    else if InsertsAnswers(body) && AnswersWrite in faults then Some(faults[AnswersWrite])
    else None
  }

  /** The choice and answer tables, and the serial counter, after the
      inserts that follow the question row: the request's choices take the
      next serial ids, the accepted answers are appended, and a table whose
      insert is not made or fails keeps its rows. */
  ghost predicate ItemsInserted(choices: seq<ChoiceRow>, answers: seq<AnswerRow>, next: nat,
                                choices': seq<ChoiceRow>, answers': seq<AnswerRow>, next': nat,
                                questionId: Id, body: QuestionBody, faults: map<Stage, string>)
  {
    && (if InsertsChoices(body) && ChoicesWrite !in faults
        then choices' == choices + Stamp(ChoiceRows(questionId, Items(body.choices)), next)
             && next' == next + |Items(body.choices)|
        else choices' == choices && next' == next)
    && answers' == (if InsertsAnswers(body) && AnswersWrite !in faults
                    then answers + AnswerRows(questionId, Items(body.acceptedAnswers))
                    else answers)
  }

  /** The inserts that follow the question row: its choices for a
      "multiple" question, its accepted answers for a "long" one; `fault`
      is the failed insert's message. */
  method InsertItems(choices: seq<ChoiceRow>, answers: seq<AnswerRow>, next: nat,
                     questionId: Id, body: QuestionBody, faults: map<Stage, string>)
    returns (fault: Option<string>, choices': seq<ChoiceRow>, answers': seq<AnswerRow>, next': nat)
    ensures fault == ItemsFault(body, faults)
    ensures ItemsInserted(choices, answers, next, choices', answers', next', questionId, body, faults)
    ensures next <= next'
    ensures forall c :: c in choices' ==> c in choices || (Issued(c.id, next') && !Issued(c.id, next))
  {
    choices', answers', next' := choices, answers, next;
    if InsertsChoices(body) {
      if ChoicesWrite in faults {
        return Some(faults[ChoicesWrite]), choices', answers', next';
      }
      StampIssues(ChoiceRows(questionId, Items(body.choices)), next');
      choices' := choices' + Stamp(ChoiceRows(questionId, Items(body.choices)), next');
      next' := next' + |Items(body.choices)|;
    }
    if InsertsAnswers(body) {
      if AnswersWrite in faults {
        return Some(faults[AnswersWrite]), choices', answers', next';
      }
      answers' := answers' + AnswerRows(questionId, Items(body.acceptedAnswers));
    }
    fault := None;
  }

  /** `.update({question_text, question_type}).eq("id", id)`: the rows with
      that id take the fields the request carries; every other row, and
      every field the request leaves out, keeps its value. */
  function Retitled(rows: seq<QuestionRow>, id: Id, text: Option<string>, questionType: Option<string>): (r: seq<QuestionRow>)
    ensures |r| == |rows|
    ensures forall i :: 0 <= i < |rows| && rows[i].id != id ==> r[i] == rows[i]
    ensures forall i :: 0 <= i < |rows| && rows[i].id == id ==>
              && r[i].id == id && r[i].lessonId == rows[i].lessonId && r[i].orderIndex == rows[i].orderIndex
              && r[i].questionText == (if text.Some? then text.value else rows[i].questionText)
              && r[i].questionType == (if questionType.Some? then questionType.value else rows[i].questionType)
  {
    if rows == [] then []
    else
      var q := rows[0];
      var head := if q.id == id
                  then QuestionRow(q.id, q.lessonId,
                                   if text.Some? then text.value else q.questionText,
                                   if questionType.Some? then questionType.value else q.questionType,
                                   q.orderIndex)
                  else q;
      [head] + Retitled(rows[1..], id, text, questionType)
  }

  /** The PUT handler. The delete of old choices or answers reports no
      error: a failed delete leaves the old rows in place and the insert
      goes ahead. */
  method Put(db: Tables, body: QuestionBody, faults: map<Stage, string>) returns (r: Reply<()>)
    requires db.Valid()
    modifies db
    ensures db.Valid()
    ensures forall c :: c in db.choices ==> c in old(db.choices) || !Issued(c.id, old(db.nextId))
    ensures !Given(body.id) ==> r == Err(400, "Missing question ID.") && unchanged(db)
    ensures Given(body.id) && QuestionWrite in faults ==> r == Err(500, faults[QuestionWrite]) && unchanged(db)
    ensures Given(body.id) && QuestionWrite !in faults ==>
              db.questions == Retitled(old(db.questions), body.id.value, body.questionText, body.questionType)
    ensures Given(body.id) && QuestionWrite !in faults && body.questionType == Some("multiple") ==>
              var kept := if ChoicesDelete in faults then old(db.choices)
                          else Where(old(db.choices), ChoiceQuestion, body.id.value, false);
              var choices := Items(body.choices);
              && db.answers == old(db.answers)
              && (|choices| > 0 && ChoicesWrite in faults ==>
                    r == Err(500, faults[ChoicesWrite]) && db.choices == kept && db.nextId == old(db.nextId))
              && (|choices| == 0 || ChoicesWrite !in faults ==>
                    && r == Ok(200, ())
                    && db.choices == kept + Stamp(ChoiceRows(body.id.value, choices), old(db.nextId))
                    && db.nextId == old(db.nextId) + |choices|)
    ensures Given(body.id) && QuestionWrite !in faults && body.questionType == Some("long") ==>
              var kept := if AnswersDelete in faults then old(db.answers)
                          else Where(old(db.answers), AnswerQuestion, body.id.value, false);
              var answers := Items(body.acceptedAnswers);
              && db.choices == old(db.choices) && db.nextId == old(db.nextId)
              && (|answers| > 0 && AnswersWrite in faults ==>
                    r == Err(500, faults[AnswersWrite]) && db.answers == kept)
              && (|answers| == 0 || AnswersWrite !in faults ==>
                    r == Ok(200, ()) && db.answers == kept + AnswerRows(body.id.value, answers))
    ensures Given(body.id) && QuestionWrite !in faults
            && body.questionType != Some("multiple") && body.questionType != Some("long") ==>
              && r == Ok(200, ())
              && db.choices == old(db.choices) && db.answers == old(db.answers) && db.nextId == old(db.nextId)
  {
    if !Given(body.id) {
      return Err(400, "Missing question ID.");
    }
    var id := body.id.value;
    if QuestionWrite in faults {
      return Err(500, faults[QuestionWrite]);
    }
    SameIdsIssued(db.questions, Retitled(db.questions, id, body.questionText, body.questionType), QuestionId, db.nextId);
    db.questions := Retitled(db.questions, id, body.questionText, body.questionType);
    if body.questionType == Some("multiple") {
      r := ReplaceChoices(db, id, Items(body.choices), faults);
    } else if body.questionType == Some("long") {
      r := ReplaceAnswers(db, id, Items(body.acceptedAnswers), faults);
    } else {
      r := Ok(200, ());
    }
  }

  /** The choices step of PUT: delete the question's choices, then insert
      the new list when it is not empty. A failed delete is ignored. */
  method ReplaceChoices(db: Tables, id: Id, choices: seq<ChoiceInput>, faults: map<Stage, string>) returns (r: Reply<()>)
    requires db.Valid()
    modifies db
    ensures db.Valid()
    ensures forall c :: c in db.choices ==> c in old(db.choices) || !Issued(c.id, old(db.nextId))
    ensures db.questions == old(db.questions) && db.answers == old(db.answers)
    ensures var kept := if ChoicesDelete in faults then old(db.choices)
                        else Where(old(db.choices), ChoiceQuestion, id, false);
            && (|choices| > 0 && ChoicesWrite in faults ==>
                  r == Err(500, faults[ChoicesWrite]) && db.choices == kept && db.nextId == old(db.nextId))
            && (|choices| == 0 || ChoicesWrite !in faults ==>
                  && r == Ok(200, ())
                  && db.choices == kept + Stamp(ChoiceRows(id, choices), old(db.nextId))
                  && db.nextId == old(db.nextId) + |choices|)
  {
    if ChoicesDelete !in faults {
      db.choices := Where(db.choices, ChoiceQuestion, id, false);
    }
    if |choices| > 0 {
      if ChoicesWrite in faults {
        return Err(500, faults[ChoicesWrite]);
      }
      StampIssues(ChoiceRows(id, choices), db.nextId);
      db.choices := db.choices + Stamp(ChoiceRows(id, choices), db.nextId);
      db.nextId := db.nextId + |choices|;
    }
    r := Ok(200, ());
  }

  /** The answers step of PUT: delete the question's accepted answers, then
      insert the new list when it is not empty. A failed delete is ignored. */
  method ReplaceAnswers(db: Tables, id: Id, answers: seq<string>, faults: map<Stage, string>) returns (r: Reply<()>)
    requires db.Valid()
    modifies db
    ensures db.Valid()
    ensures db.questions == old(db.questions) && db.choices == old(db.choices) && db.nextId == old(db.nextId)
    ensures var kept := if AnswersDelete in faults then old(db.answers)
                        else Where(old(db.answers), AnswerQuestion, id, false);
            && (|answers| > 0 && AnswersWrite in faults ==> r == Err(500, faults[AnswersWrite]) && db.answers == kept)
            && (|answers| == 0 || AnswersWrite !in faults ==>
                  r == Ok(200, ()) && db.answers == kept + AnswerRows(id, answers))
  {
    if AnswersDelete !in faults {
      db.answers := Where(db.answers, AnswerQuestion, id, false);
    }
    if |answers| > 0 {
      if AnswersWrite in faults {
        return Err(500, faults[AnswersWrite]);
      }
      db.answers := db.answers + AnswerRows(id, answers);
    }
    r := Ok(200, ());
  }

  /** Every row of a stamped choice list carries its question's id. */
  lemma StampedChoicesBelongTo(questionId: Id, choices: seq<ChoiceInput>, next: nat)
    ensures forall x :: x in Stamp(ChoiceRows(questionId, choices), next) ==> ChoiceQuestion(x) == questionId
  {
    var s := Stamp(ChoiceRows(questionId, choices), next);
    forall x | x in s ensures ChoiceQuestion(x) == questionId {
      var i :| 0 <= i < |s| && s[i] == x;
    }
  }

  /** A successful PUT of a "multiple" question leaves that question with
      exactly the request's choices as `Stamp` and `ChoiceRows` number them
      (request order, positions 1..n); an empty list leaves it none. The
      choices of every other question are untouched. */
  lemma {:induction false} PutReplacesChoices(
    rows: seq<ChoiceRow>, id: Id, choices: seq<ChoiceInput>, next: nat, other: Id)
    requires other != id
    ensures var after := Where(rows, ChoiceQuestion, id, false) + Stamp(ChoiceRows(id, choices), next);
            && ChoicesOf(after, id) == Stamp(ChoiceRows(id, choices), next)
            && ChoicesOf(after, other) == ChoicesOf(rows, other)
  {
    var added := Stamp(ChoiceRows(id, choices), next);
    StampedChoicesBelongTo(id, choices, next);
    ReplacedReadsBack(rows, ChoiceQuestion, id, added);
    ReplacedKeepsOthers(rows, ChoiceQuestion, id, added, other);
  }

  /** A PUT whose delete fails keeps the old choices and appends the new
      ones after them: the question then lists both. */
  lemma {:induction false} FailedDeleteKeepsOldChoices(
    rows: seq<ChoiceRow>, id: Id, choices: seq<ChoiceInput>, next: nat)
    ensures ChoicesOf(rows + Stamp(ChoiceRows(id, choices), next), id)
              == ChoicesOf(rows, id) + Stamp(ChoiceRows(id, choices), next)
  {
    StampedChoicesBelongTo(id, choices, next);
    WhereAppend(rows, Stamp(ChoiceRows(id, choices), next), ChoiceQuestion, id, true);
    WhereAll(Stamp(ChoiceRows(id, choices), next), ChoiceQuestion, id, true);
  }

  /** A successful PUT of a "long" question leaves it exactly the request's
      accepted answers, in order; other questions keep theirs. */
  lemma {:induction false} PutReplacesAnswers(rows: seq<AnswerRow>, id: Id, answers: seq<string>, other: Id)
    requires other != id
    ensures AnswersOf(Replaced(rows, AnswerQuestion, id, AnswerRows(id, answers)), id) == AnswerRows(id, answers)
    ensures AnswersOf(Replaced(rows, AnswerQuestion, id, AnswerRows(id, answers)), other) == AnswersOf(rows, other)
  {
    var added := AnswerRows(id, answers);
    forall x | x in added ensures AnswerQuestion(x) == id {
      var i :| 0 <= i < |added| && added[i] == x;
    }
    ReplacedReadsBack(rows, AnswerQuestion, id, added);
    ReplacedKeepsOthers(rows, AnswerQuestion, id, added, other);
  }

  /** A question created by POST under an id no stored choice refers to
      lists exactly the request's choices, numbered 1..n in request order. */
  lemma {:induction false} PostedChoicesReadBack(rows: seq<ChoiceRow>, id: Id, choices: seq<ChoiceInput>, next: nat)
    requires forall c :: c in rows ==> c.questionId != id
    ensures ChoicesOf(rows + Stamp(ChoiceRows(id, choices), next), id) == Stamp(ChoiceRows(id, choices), next)
  {
    FailedDeleteKeepsOldChoices(rows, id, choices, next);
    WhereNone(rows, ChoiceQuestion, id, true);
  }

  /** The routes never check that a choice's question exists, so a choice
      stored earlier under the id the next question takes is listed with
      that question after its POST, ahead of the request's own choices:
      the premise of `PostedChoicesReadBack` is not implied by the tables'
      invariant. */
  lemma {:induction false} EarlyChoiceJoinsNextQuestion(early: ChoiceRow, choices: seq<ChoiceInput>, next: nat)
    requires early.questionId == Decimal(next)
    ensures ChoicesOf([early] + Stamp(ChoiceRows(Decimal(next), choices), next + 1), Decimal(next))
            == [early] + Stamp(ChoiceRows(Decimal(next), choices), next + 1)
  {
    var added := Stamp(ChoiceRows(Decimal(next), choices), next + 1);
    StampedChoicesBelongTo(Decimal(next), choices, next + 1);
    WhereAppend([early], added, ChoiceQuestion, Decimal(next), true);
    WhereAll([early], ChoiceQuestion, Decimal(next), true);
    WhereAll(added, ChoiceQuestion, Decimal(next), true);
  }
}
