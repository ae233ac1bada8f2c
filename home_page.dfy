/** The learner home page (/auth/home): a column of modules and a column of
    the selected module's lessons, each button clickable only when its
    item is unlocked by the page's own client-side rules. */
module HomePage {
  import opened Common
  import opened Catalog
  import ModulesRoute
  import LessonsRoute

  /** A `user_progress` row as the page selects it (`module_id, lesson_id, completed`). */
  datatype UserProgress = UserProgress(moduleId: Id, lessonId: Id, completed: bool)

  /** `isModuleUnlocked`: any progress row for the module, completed or not. */
  predicate IsModuleUnlocked(progress: seq<UserProgress>, moduleId: Id)
  {
    exists p :: p in progress && p.moduleId == moduleId
  }

  /** `isLessonCompleted`: a progress row for the lesson with `completed` set. */
  predicate IsLessonCompleted(progress: seq<UserProgress>, lessonId: Id)
  {
    exists p :: p in progress && p.lessonId == lessonId && p.completed
  }

  /** The per-index rule of the lesson list: the first lesson, or a lesson
      whose predecessor is completed. The lesson's own completion plays no part. */
  predicate IsLessonUnlocked(lessons: seq<Lesson>, progress: seq<UserProgress>, index: nat)
    requires index < |lessons|
  {
    index == 0 || IsLessonCompleted(progress, lessons[index - 1].id)
  }

  /** No completed lesson has an uncompleted predecessor. */
  predicate CompletedInOrder(lessons: seq<Lesson>, progress: seq<UserProgress>)
  {
    forall i :: 0 < i < |lessons| && IsLessonCompleted(progress, lessons[i].id) ==>
      IsLessonCompleted(progress, lessons[i - 1].id)
  }

  /** The two sources report the same completion for every lesson of the list. */
  predicate SameCompletions(lessons: seq<Lesson>, progress: seq<UserProgress>,
                            listing: seq<LessonsRoute.LessonProgress>)
  {
    forall i :: 0 <= i < |lessons| ==>
      (IsLessonCompleted(progress, lessons[i].id) <==> LessonsRoute.Completed(listing, lessons[i].id))
  }

  /** On the same completions, the page's lesson rule opens no lesson that
      the server's rule keeps closed. */
  lemma PageLessonRuleIsStricter(
    lessons: seq<Lesson>, progress: seq<UserProgress>, listing: seq<LessonsRoute.LessonProgress>, i: nat)
    requires SameCompletions(lessons, progress, listing)
    requires i < |lessons|
    ensures IsLessonUnlocked(lessons, progress, i) ==> LessonsRoute.SignedIn(lessons, listing)[i].isUnlocked
  {
    if i > 0 {
      assert IsLessonCompleted(progress, lessons[i - 1].id) <==> LessonsRoute.Completed(listing, lessons[i - 1].id);
    }
  }

  /** On the same completions, the page and the server agree on every lesson
      exactly when completions never skip a lesson. */
  lemma {:induction false} PageAgreesWithServerIffInOrder(
    lessons: seq<Lesson>, progress: seq<UserProgress>, listing: seq<LessonsRoute.LessonProgress>)
    requires SameCompletions(lessons, progress, listing)
    ensures (forall i :: 0 <= i < |lessons| ==>
               (IsLessonUnlocked(lessons, progress, i) <==> LessonsRoute.SignedIn(lessons, listing)[i].isUnlocked))
            <==> CompletedInOrder(lessons, progress)
  {
    var s := LessonsRoute.SignedIn(lessons, listing);
    if CompletedInOrder(lessons, progress) {
      forall i | 0 <= i < |lessons|
        ensures IsLessonUnlocked(lessons, progress, i) <==> s[i].isUnlocked
      {
        if i > 0 {
          assert IsLessonCompleted(progress, lessons[i - 1].id) <==> LessonsRoute.Completed(listing, lessons[i - 1].id);
          assert IsLessonCompleted(progress, lessons[i].id) <==> LessonsRoute.Completed(listing, lessons[i].id);
        }
      }
    } else {
      var i :| 0 < i < |lessons| && IsLessonCompleted(progress, lessons[i].id)
               && !IsLessonCompleted(progress, lessons[i - 1].id);
      assert IsLessonCompleted(progress, lessons[i - 1].id) <==> LessonsRoute.Completed(listing, lessons[i - 1].id);
      assert IsLessonCompleted(progress, lessons[i].id) <==> LessonsRoute.Completed(listing, lessons[i].id);
      assert s[i].isUnlocked && !IsLessonUnlocked(lessons, progress, i);
    }
  }

  /** A learner without progress rows finds every module locked on this
      page, the first one included, while the modules route opens the first. */
  lemma NewLearnerFindsEveryModuleLocked(modules: seq<Module>)
    requires |modules| > 0
    ensures forall i :: 0 <= i < |modules| ==> !IsModuleUnlocked([], modules[i].id)
    ensures ModulesRoute.SignedIn(modules, [])[0].isUnlocked
  {
  }

  /** A progress row opens its module on this page even when `completed`
      is false, and that same row does not open the next module on the server. */
  lemma {:induction false} UncompletedRowOpensModule(modules: seq<Module>, i: nat, lessonId: Id)
    requires i + 1 < |modules|
    ensures IsModuleUnlocked([UserProgress(modules[i].id, lessonId, false)], modules[i].id)
    ensures !ModulesRoute.SignedIn(modules, [ModulesRoute.ModuleProgress(modules[i].id, false)])[i + 1].isUnlocked
  {
    assert UserProgress(modules[i].id, lessonId, false) in [UserProgress(modules[i].id, lessonId, false)];
  }

  /** The page state the handlers below change. */
  class LearnerHome {
    var modules: seq<Module>
    var lessons: seq<Lesson>
    var progress: seq<UserProgress>
    var selectedModule: Option<Id>
    var selectedLesson: Option<Id>

    constructor ()
      ensures modules == [] && lessons == [] && progress == []
      ensures selectedModule == None && selectedLesson == None
    {
      modules, lessons, progress := [], [], [];
      selectedModule, selectedLesson := None, None;
    }

    /** A click on the module button at `index`: it selects the module only
        when the module is unlocked. */
    method ClickModule(index: nat)
      requires index < |modules|
      modifies this
      ensures modules == old(modules) && lessons == old(lessons) && progress == old(progress)
      ensures selectedModule ==
                if IsModuleUnlocked(progress, modules[index].id) then Some(modules[index].id)
                else old(selectedModule)
      ensures selectedLesson == old(selectedLesson)
    {
      if IsModuleUnlocked(progress, modules[index].id) {
        selectedModule := Some(modules[index].id);
      }
    }

    /** A click on the lesson button at `index`: it selects the lesson only
        when the lesson is unlocked. */
    method ClickLesson(index: nat)
      requires index < |lessons|
      modifies this
      ensures modules == old(modules) && lessons == old(lessons) && progress == old(progress)
      ensures selectedLesson ==
                if IsLessonUnlocked(lessons, progress, index) then Some(lessons[index].id)
                else old(selectedLesson)
      ensures selectedModule == old(selectedModule)
    {
      if IsLessonUnlocked(lessons, progress, index) {
        selectedLesson := Some(lessons[index].id);
      }
    }

    /** `markLessonComplete` is a placeholder: it changes nothing. */
    method MarkLessonComplete(lessonId: Id)
      ensures unchanged(this)
    {
    }
  }
}
