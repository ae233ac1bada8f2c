/** POST /api/progress: create or overwrite the `lesson_progress` row of one
    (user, lesson) pair. The table's unique key is (user_id, lesson_id), so it
    is a map from that key to the `completed` column. */
module ProgressRoute {
  import opened Common
  import opened Catalog
  import LessonsRoute

  /** The upsert conflict key `user_id,lesson_id`. */
  datatype Key = Key(userId: Id, lessonId: Id)

  /** The JSON body of the POST. */
  datatype ProgressBody = ProgressBody(userId: Option<Id>, lessonId: Option<Id>, completed: bool)

  /** The table after an upsert of `completed` under key `k`: that one entry
      holds the new value and every other entry is as before. */
  function Upsert(rows: map<Key, bool>, k: Key, completed: bool): (r: map<Key, bool>)
    ensures r.Keys == rows.Keys + {k}
    ensures r[k] == completed
    ensures forall k' :: k' in rows && k' != k ==> r[k'] == rows[k']
  {
    rows[k := completed]
  }

  /** Posting the same body twice leaves the table as posting it once. */
  lemma UpsertIdempotent(rows: map<Key, bool>, k: Key, completed: bool)
    ensures Upsert(Upsert(rows, k, completed), k, completed) == Upsert(rows, k, completed)
  {
  }

  class LessonProgressTable {
    var rows: map<Key, bool>

    constructor ()
      ensures rows == map[]
    {
      rows := map[];
    }

    /** The POST handler; `storageFault` is the error the upsert reports, if any. */
    method Post(body: ProgressBody, storageFault: Option<string>) returns (r: Reply<()>)
      modifies this
      ensures !Given(body.userId) || !Given(body.lessonId) ==>
                r == Err(400, "Missing required fields") && rows == old(rows)
      ensures Given(body.userId) && Given(body.lessonId) && storageFault.Some? ==>
                r == Err(500, storageFault.value) && rows == old(rows)
      ensures Given(body.userId) && Given(body.lessonId) && storageFault.None? ==>
                && r == Ok(201, ())
                && rows == Upsert(old(rows), Key(body.userId.value, body.lessonId.value), body.completed)
    {
      if !Given(body.userId) || !Given(body.lessonId) {
        return Err(400, "Missing required fields");
      }
      if storageFault.Some? {
        return Err(500, storageFault.value);
      }
      rows := Upsert(rows, Key(body.userId.value, body.lessonId.value), body.completed);
      r := Ok(201, ());
    }
  }

  /** `listing` is what `select lesson_id, completed ... eq(user_id, user)`
      returns from the table: exactly the user's entries. */
  ghost predicate ListsUser(listing: seq<LessonsRoute.LessonProgress>, rows: map<Key, bool>, user: Id)
  {
    && (forall p :: p in listing ==> Key(user, p.lessonId) in rows && rows[Key(user, p.lessonId)] == p.completed)
    && (forall k :: k in rows && k.userId == user ==> LessonsRoute.LessonProgress(k.lessonId, rows[k]) in listing)
  }

  /** Posting `completed: true` for lesson i of a module lets the lessons
      GET of that user report lesson i completed and lesson i + 1 unlocked. */
  lemma {:induction false} CompletionUnlocksNextLesson(
    lessons: seq<Lesson>, i: nat, rows: map<Key, bool>, user: Id, moduleId: Id,
    listing: seq<LessonsRoute.LessonProgress>)
    requires i + 1 < |lessons|
    requires user != "" && moduleId != ""
    requires ListsUser(listing, Upsert(rows, Key(user, lessons[i].id), true), user)
    ensures var r := LessonsRoute.Get(Some(moduleId), Some(user), Rows(lessons), Rows(listing));
            r.Ok? && r.body[i].completed && r.body[i + 1].isUnlocked
  {
    var k := Key(user, lessons[i].id);
    var table := Upsert(rows, k, true);
    assert k in table && table[k];
    assert LessonsRoute.LessonProgress(lessons[i].id, true) in listing;
  }

  /** A lesson stays completed for its user when another pair is posted. */
  lemma {:induction false} OtherPostKeepsCompletion(
    rows: map<Key, bool>, user: Id, lessonId: Id, k: Key, completed: bool,
    before: seq<LessonsRoute.LessonProgress>, after: seq<LessonsRoute.LessonProgress>)
    requires k != Key(user, lessonId)
    requires ListsUser(before, rows, user)
    requires ListsUser(after, Upsert(rows, k, completed), user)
    ensures LessonsRoute.Completed(before, lessonId) <==> LessonsRoute.Completed(after, lessonId)
  {
    var table := Upsert(rows, k, completed);
    if LessonsRoute.Completed(before, lessonId) {
      var p :| p in before && p.lessonId == lessonId && p.completed;
      assert Key(user, lessonId) in table && table[Key(user, lessonId)];
      assert LessonsRoute.LessonProgress(lessonId, true) in after;
    }
    if LessonsRoute.Completed(after, lessonId) {
      var p :| p in after && p.lessonId == lessonId && p.completed;
      assert Key(user, lessonId) in rows && rows[Key(user, lessonId)];
      assert LessonsRoute.LessonProgress(lessonId, true) in before;
    }
  }
}
