/** The three tables behind the question routes: `questions`,
    `question_choices` and `question_long_answers`, with the row shapes
    the routes write and the filters and orderings they read through. */
module QuestionBank {
  import opened Common

  /** A `questions` row. */
  datatype QuestionRow = QuestionRow(id: Id, lessonId: Id, questionText: string, questionType: string, orderIndex: int)

  /** A `question_choices` row. `choiceText` is absent when the insert carried
      no text; `isCorrect` holds whatever value was last written. */
  datatype ChoiceRow = ChoiceRow(id: Id, questionId: Id, choiceText: Option<string>, orderIndex: int, isCorrect: Json)

  /** A `question_long_answers` row. */
  datatype AnswerRow = AnswerRow(questionId: Id, acceptedAnswer: string)

  /** A `question_choices` row as a route inserts it, before the database
      gives it an id. */
  datatype NewChoice = NewChoice(questionId: Id, choiceText: Option<string>, orderIndex: int, isCorrect: Json)

  /** The JSON body the choice routes read; `None`/`Missing` marks an absent key. */
  datatype ChoiceBody = ChoiceBody(id: Option<Id>, questionId: Option<Id>, choiceText: Option<string>,
                                   orderIndex: Option<int>, isCorrect: Json)

  function ChoiceId(c: ChoiceRow): Id { c.id }
  function ChoiceQuestion(c: ChoiceRow): Id { c.questionId }
  function AnswerQuestion(a: AnswerRow): Id { a.questionId }

  /** The choices of one question, in table order (`.eq("question_id", q)`). */
  function ChoicesOf(rows: seq<ChoiceRow>, questionId: Id): seq<ChoiceRow>
  {
    Where(rows, ChoiceQuestion, questionId, true)
  }

  /** The accepted answers of one question, in table order. */
  function AnswersOf(rows: seq<AnswerRow>, questionId: Id): seq<AnswerRow>
  {
    Where(rows, AnswerQuestion, questionId, true)
  }

  /** The rows the database stores for an insert of `rows`: the serial ids
      `next`, `next + 1`, ... are handed out in insert order. */
  function Stamp(rows: seq<NewChoice>, next: nat): (r: seq<ChoiceRow>)
    ensures |r| == |rows|
    ensures forall i :: 0 <= i < |r| ==>
              r[i] == ChoiceRow(Decimal(next + i), rows[i].questionId, rows[i].choiceText,
                                rows[i].orderIndex, rows[i].isCorrect)
  {
    if rows == [] then []
    else
      var c := rows[0];
      [ChoiceRow(Decimal(next), c.questionId, c.choiceText, c.orderIndex, c.isCorrect)] + Stamp(rows[1..], next + 1)
  }

  /** `.delete().eq(key, k)` followed by an insert of `added`. */
  function Replaced<T(!new)>(rows: seq<T>, key: T -> Id, k: Id, added: seq<T>): seq<T>
  {
    Where(rows, key, k, false) + added
  }

  /** After a delete-then-insert of rows that all carry the key `k`, reading
      by `k` yields exactly the inserted rows, in insert order. */
  lemma {:induction false} ReplacedReadsBack<T(!new)>(rows: seq<T>, key: T -> Id, k: Id, added: seq<T>)
    requires forall x :: x in added ==> key(x) == k
    ensures Where(Replaced(rows, key, k, added), key, k, true) == added
  {
    var kept := Where(rows, key, k, false);
    WhereAppend(kept, added, key, k, true);
    WhereNone(kept, key, k, true);
    WhereAll(added, key, k, true);
  }

  /** A delete-then-insert under key `k` leaves what every other key reads unchanged. */
  lemma {:induction false} ReplacedKeepsOthers<T(!new)>(rows: seq<T>, key: T -> Id, k: Id, added: seq<T>, other: Id)
    requires forall x :: x in added ==> key(x) == k
    requires other != k
    ensures Where(Replaced(rows, key, k, added), key, other, true) == Where(rows, key, other, true)
  {
    WhereAppend(Where(rows, key, k, false), added, key, other, true);
    WhereNone(added, key, other, true);
    KeepOthers(rows, key, k, other);
  }

  /** Deleting the rows of key `k` does not change the rows of another key. */
  lemma {:induction false} KeepOthers<T(!new)>(rows: seq<T>, key: T -> Id, k: Id, other: Id)
    requires other != k
    ensures Where(Where(rows, key, k, false), key, other, true) == Where(rows, key, other, true)
  {
    if rows != [] {
      KeepOthers(rows[1..], key, k, other);
    }
  }

  /** The columns an update by id writes; `None`/`Missing` marks a column
      the request left out, which keeps its value. */
  datatype ChoicePatch = ChoicePatch(choiceText: Option<string>, isCorrect: Json, orderIndex: Option<int>)

  function Patch(c: ChoiceRow, p: ChoicePatch): ChoiceRow
  {
    ChoiceRow(c.id, c.questionId,
              if p.choiceText.Some? then p.choiceText else c.choiceText,
              if p.orderIndex.Some? then p.orderIndex.value else c.orderIndex,
              if p.isCorrect.Missing? then c.isCorrect else p.isCorrect)
  }

  /** `.update(patch).eq("id", id)`: the rows with that id take the patch,
      every other row keeps its value, and the order of rows is kept. */
  function Patched(rows: seq<ChoiceRow>, id: Id, p: ChoicePatch): (r: seq<ChoiceRow>)
    ensures |r| == |rows|
    ensures forall i :: 0 <= i < |rows| && rows[i].id != id ==> r[i] == rows[i]
    ensures forall i :: 0 <= i < |rows| && rows[i].id == id ==>
              && r[i].id == id && r[i].questionId == rows[i].questionId
              && (p.choiceText.None? ==> r[i].choiceText == rows[i].choiceText)
              && (p.choiceText.Some? ==> r[i].choiceText == p.choiceText)
              && (p.orderIndex.None? ==> r[i].orderIndex == rows[i].orderIndex)
              && (p.orderIndex.Some? ==> r[i].orderIndex == p.orderIndex.value)
              && (p.isCorrect.Missing? ==> r[i].isCorrect == rows[i].isCorrect)
              && (!p.isCorrect.Missing? ==> r[i].isCorrect == p.isCorrect)
  {
    if rows == [] then []
    else
      var tail := Patched(rows[1..], id, p);
      var r := [if rows[0].id == id then Patch(rows[0], p) else rows[0]] + tail;
      assert forall i :: 1 <= i < |rows| ==> r[i] == tail[i - 1] && rows[i] == rows[1..][i - 1];
      r
  }

  /** Applying the same update twice leaves the table as applying it once. */
  lemma {:induction false} PatchedIdempotent(rows: seq<ChoiceRow>, id: Id, p: ChoicePatch)
    ensures Patched(Patched(rows, id, p), id, p) == Patched(rows, id, p)
  {
    if rows != [] {
      PatchedIdempotent(rows[1..], id, p);
    }
  }

  /** Rows in non-decreasing `order_index`. */
  predicate SortedByOrder(rows: seq<ChoiceRow>)
  {
    forall i, j :: 0 <= i < j < |rows| ==> rows[i].orderIndex <= rows[j].orderIndex
  }

  /** `c` put before the first row whose `order_index` is at least `c`'s. */
  function InsertByOrder(c: ChoiceRow, rows: seq<ChoiceRow>): (r: seq<ChoiceRow>)
    requires SortedByOrder(rows)
    ensures |r| == |rows| + 1
    ensures forall x :: x in r ==> x == c || x in rows
    ensures multiset(r) == multiset(rows) + multiset{c}
    ensures SortedByOrder(r)
  {
    if rows == [] || c.orderIndex <= rows[0].orderIndex then
      LeastFirst(c, rows);
      [c] + rows
    else
      SortedRest(rows);
      var tail := InsertByOrder(c, rows[1..]);
      assert rows == [rows[0]] + rows[1..];
      LeastFirst(rows[0], tail);
      [rows[0]] + tail
  }

  /** Behind the first row of a sorted list come a sorted list of rows no smaller than it. */
  lemma SortedRest(rows: seq<ChoiceRow>)
    requires SortedByOrder(rows) && rows != []
    ensures SortedByOrder(rows[1..])
    ensures forall x :: x in rows ==> rows[0].orderIndex <= x.orderIndex
  {
    forall x | x in rows ensures rows[0].orderIndex <= x.orderIndex {
      var k :| 0 <= k < |rows| && rows[k] == x;
      if k > 0 {
        assert rows[0].orderIndex <= rows[k].orderIndex;
      }
    }
  }

  /** A sorted list stays sorted with a row in front that is no larger than any of its rows. */
  lemma LeastFirst(head: ChoiceRow, rows: seq<ChoiceRow>)
    requires SortedByOrder(rows)
    requires forall x :: x in rows ==> head.orderIndex <= x.orderIndex
    ensures SortedByOrder([head] + rows)
  {
    var r := [head] + rows;
    forall i, j | 0 <= i < j < |r| ensures r[i].orderIndex <= r[j].orderIndex {
      assert r[j] == rows[j - 1];
      if i > 0 {
        assert r[i] == rows[i - 1];
      }
    }
  }

  /** `.order("order_index")`: the same rows, in non-decreasing
      `order_index`; rows of equal `order_index` keep their table order. */
  function SortByOrder(rows: seq<ChoiceRow>): (r: seq<ChoiceRow>)
    ensures |r| == |rows|
    ensures multiset(r) == multiset(rows)
    ensures SortedByOrder(r)
  {
    if rows == [] then []
    else
      assert rows == [rows[0]] + rows[1..];
      InsertByOrder(rows[0], SortByOrder(rows[1..]))
  }

  /** Ordering rows that are already in order changes nothing. */
  lemma {:induction false} SortKeepsOrderedRows(rows: seq<ChoiceRow>)
    requires SortedByOrder(rows)
    ensures SortByOrder(rows) == rows
  {
    if rows != [] {
      SortedRest(rows);
      SortKeepsOrderedRows(rows[1..]);
      assert rows == [rows[0]] + rows[1..];
      assert rows[1..] == [] || rows[0].orderIndex <= rows[1].orderIndex;
    }
  }

  function QuestionId(q: QuestionRow): Id { q.id }

  /** `id` is a serial id the database handed out before `next`. */
  ghost predicate Issued(id: Id, next: nat)
  {
    exists k: nat :: k < next && id == Decimal(k)
  }

  /** Every row's id was handed out before `next`. */
  ghost predicate AllIssued<T>(rows: seq<T>, key: T -> Id, next: nat)
  {
    forall x :: x in rows ==> Issued(key(x), next)
  }

  /** An id handed out before `next` is none of the ids handed out from `next` on. */
  lemma IssuedIsNotLater(id: Id, next: nat, later: nat)
    requires Issued(id, next) && next <= later
    ensures id != Decimal(later)
  {
    var k: nat :| k < next && id == Decimal(k);
    DecimalInjective(k, later);
  }

  /** The rows of an insert take ids handed out from `next` on: none of them
      was issued before `next`, and all are issued once `|rows|` ids more
      have been handed out. */
  lemma StampIssues(rows: seq<NewChoice>, next: nat)
    ensures forall x :: x in Stamp(rows, next) ==> Issued(x.id, next + |rows|) && !Issued(x.id, next)
  {
    var s := Stamp(rows, next);
    forall x | x in s ensures Issued(x.id, next + |rows|) && !Issued(x.id, next) {
      var i :| 0 <= i < |s| && s[i] == x;
      assert x.id == Decimal(next + i);
      if Issued(x.id, next) {
        IssuedIsNotLater(x.id, next, next + i);
      }
    }
  }

  /** An update that keeps every row's id, row by row, keeps them all issued. */
  lemma SameIdsIssued<T>(rows: seq<T>, rows': seq<T>, key: T -> Id, next: nat)
    requires |rows'| == |rows|
    requires forall i :: 0 <= i < |rows| ==> key(rows'[i]) == key(rows[i])
    requires AllIssued(rows, key, next)
    ensures AllIssued(rows', key, next)
  {
    forall x | x in rows' ensures Issued(key(x), next) {
      var i :| 0 <= i < |rows'| && rows'[i] == x;
      assert rows[i] in rows;
    }
  }

  /** The three tables; `nextId` is the next serial id the database hands out. */
  class Tables {
    var questions: seq<QuestionRow>
    var choices: seq<ChoiceRow>
    var answers: seq<AnswerRow>
    var nextId: nat

    /** Every stored question and choice carries a serial id handed out
        before `nextId`, so `Decimal(nextId)` names no stored row. */
    ghost predicate Valid()
      reads this
    {
      AllIssued(questions, QuestionId, nextId) && AllIssued(choices, ChoiceId, nextId)
    }

    constructor ()
      ensures Valid()
      ensures questions == [] && choices == [] && answers == [] && nextId == 1
    {
      questions, choices, answers, nextId := [], [], [], 1;
    }
  }
}
