/** GET /api/lessons?moduleId=...: the lessons of one module, each flagged
    `completed` (from the user's `lesson_progress` rows) and `is_unlocked`
    (first lesson, previous lesson completed, or this lesson completed). */
module LessonsRoute {
  import opened Common
  import opened Catalog

  /** A `lesson_progress` row as the route selects it (`lesson_id, completed`). */
  datatype LessonProgress = LessonProgress(lessonId: Id, completed: bool)

  /** A lesson as the route returns it: its row plus `is_unlocked` and `completed`. */
  datatype LessonView = LessonView(row: Lesson, isUnlocked: bool, completed: bool)

  /** `progress.some(p => p.lesson_id === lessonId && p.completed === true)`. */
  predicate Completed(progress: seq<LessonProgress>, lessonId: Id)
  {
    exists p :: p in progress && p.lessonId == lessonId && p.completed
  }

  /** Flags the lessons in order; `prevDone` says whether the lesson before
      the first one counts as completed. */
  function Mark(lessons: seq<Lesson>, progress: seq<LessonProgress>, prevDone: bool): (r: seq<LessonView>)
    ensures |r| == |lessons|
    ensures forall i :: 0 <= i < |r| ==> r[i].row == lessons[i]
    ensures forall i :: 0 <= i < |r| ==> r[i].completed == Completed(progress, lessons[i].id)
    ensures |r| > 0 ==> r[0].isUnlocked == (prevDone || r[0].completed)
    ensures forall i :: 0 < i < |r| ==>
              r[i].isUnlocked == (Completed(progress, lessons[i - 1].id) || r[i].completed)
  {
    if lessons == [] then []
    else
      var done := Completed(progress, lessons[0].id);
      [LessonView(lessons[0], prevDone || done, done)] + Mark(lessons[1..], progress, done)
  }

  /** The mapping for a signed-in user: the first lesson is open, a later
      lesson is open when its predecessor or itself is completed, and a
      completed lesson is always open. */
  function SignedIn(lessons: seq<Lesson>, progress: seq<LessonProgress>): (r: seq<LessonView>)
    ensures |r| == |lessons|
    ensures forall i :: 0 <= i < |r| ==> r[i].row == lessons[i]
    ensures forall i :: 0 <= i < |r| ==> (r[i].completed <==> Completed(progress, lessons[i].id))
    ensures |r| > 0 ==> r[0].isUnlocked
    ensures forall i :: 0 < i < |r| ==>
              (r[i].isUnlocked <==> Completed(progress, lessons[i - 1].id) || Completed(progress, lessons[i].id))
    ensures forall i :: 0 <= i < |r| && r[i].completed ==> r[i].isUnlocked
  {
    Mark(lessons, progress, true)
  }

  /** The mapping with nobody signed in. */
  function Anonymous(lessons: seq<Lesson>): seq<LessonView>
  {
    seq(|lessons|, i requires 0 <= i < |lessons| => LessonView(lessons[i], i == 0, false))
  }

  /** Nobody signed in is treated exactly like a user without progress rows. */
  lemma AnonymousIsUserWithoutProgress(lessons: seq<Lesson>)
    ensures Anonymous(lessons) == SignedIn(lessons, [])
  {
    var a, s := Anonymous(lessons), SignedIn(lessons, []);
    forall i | 0 <= i < |lessons| ensures a[i] == s[i] {
      assert !Completed([], lessons[i].id);
      if i > 0 {
        assert !Completed([], lessons[i - 1].id);
      }
    }
  }

  /** The GET handler. `lessonsRead` is the module's lessons ordered by
      `order_index`; `progressRead` is the user's `lesson_progress` query,
      consulted only when somebody is signed in. */
  function Get(moduleId: Option<Id>, userId: Option<Id>, lessonsRead: Fetch<seq<Lesson>>,
               progressRead: Fetch<seq<LessonProgress>>): (r: Reply<seq<LessonView>>)
    ensures !Given(moduleId) ==> r == Err(400, "Missing moduleId")
    ensures Given(moduleId) && lessonsRead.StorageError? ==> r == Err(500, ServerError(lessonsRead.message))
    ensures Given(moduleId) && lessonsRead.Rows? && Given(userId) && progressRead.StorageError? ==>
              r == Err(500, ServerError(progressRead.message))
    ensures Given(moduleId) && lessonsRead.Rows? && !Given(userId) ==>
              && r.Ok?
              && forall i :: 0 <= i < |r.body| ==> (r.body[i].isUnlocked <==> i == 0) && !r.body[i].completed
    ensures r.Ok? ==> r.status == 200 && lessonsRead.Rows? && |r.body| == |lessonsRead.rows|
    ensures r.Ok? ==> forall i :: 0 <= i < |r.body| ==> r.body[i].row == lessonsRead.rows[i]
    ensures r.Ok? && |r.body| > 0 ==> r.body[0].isUnlocked
    ensures r.Ok? ==> forall i :: 0 <= i < |r.body| && r.body[i].completed ==> r.body[i].isUnlocked
    ensures r.Ok? && Given(userId) ==>
              && progressRead.Rows?
              && forall i :: 0 <= i < |r.body| ==>
                   (r.body[i].completed <==> Completed(progressRead.rows, lessonsRead.rows[i].id))
    ensures r.Ok? && Given(userId) ==>
              forall i :: 0 < i < |r.body| ==>
                (r.body[i].isUnlocked <==>
                   Completed(progressRead.rows, lessonsRead.rows[i - 1].id) || Completed(progressRead.rows, lessonsRead.rows[i].id))
  {
    if !Given(moduleId) then Err(400, "Missing moduleId")
    else
      match lessonsRead
      case StorageError(m) => Err(500, ServerError(m))
      case Rows(lessons) =>
        if !Given(userId) then Ok(200, Anonymous(lessons))
        else
          match progressRead
          case StorageError(m) => Err(500, ServerError(m))
          case Rows(progress) => Ok(200, SignedIn(lessons, progress))
  }

  /** POST /api/lessons is a stub: whatever the body, 501 "Not implemented". */
  function Post(body: Json): (r: Reply<()>)
    ensures r.Err? && r.status == 501 && r.error == "Not implemented"
  {
    Err(501, "Not implemented")
  }

  /** PUT /api/lessons is a stub: whatever the body, 501 "Not implemented". */
  function Put(body: Json): (r: Reply<()>)
    ensures r.Err? && r.status == 501 && r.error == "Not implemented"
  {
    Err(501, "Not implemented")
  }

  /** Whether lesson i is open depends only on the completion of lessons
      i - 1 and i: two progress listings that agree on those agree on its flag. */
  lemma UnlockIsLocal(lessons: seq<Lesson>, p1: seq<LessonProgress>, p2: seq<LessonProgress>, i: nat)
    requires 0 < i < |lessons|
    requires Completed(p1, lessons[i - 1].id) == Completed(p2, lessons[i - 1].id)
    requires Completed(p1, lessons[i].id) == Completed(p2, lessons[i].id)
    ensures SignedIn(lessons, p1)[i] == SignedIn(lessons, p2)[i]
  {
  }
}
