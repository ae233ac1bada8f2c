/** The progress sidebar (BurgerMenu): from the module list it derives the
    learner's level (the number of modules whose lessons are all completed),
    the "next" module (the one at that index) and the percentage of the next
    module's lessons already completed. */
module BurgerMenu {
  import opened Common

  datatype MenuLesson = MenuLesson(id: Id, title: string, completed: bool)
  datatype MenuModule = MenuModule(id: Id, title: string, lessons: seq<MenuLesson>)

  /** `m.lessons.every(l => l.completed)`. */
  predicate AllCompleted(m: MenuModule)
  {
    forall l :: l in m.lessons ==> l.completed
  }

  /** `lessons.filter(l => l.completed).length`. */
  function CompletedLessons(lessons: seq<MenuLesson>): (r: nat)
    ensures r <= |lessons|
    ensures r == |lessons| <==> forall l :: l in lessons ==> l.completed
  {
    if lessons == [] then 0
    else (if lessons[0].completed then 1 else 0) + CompletedLessons(lessons[1..])
  }

  /** `data.filter(m => m.lessons.every(l => l.completed)).length`. */
  function CompletedModules(modules: seq<MenuModule>): (r: nat)
    ensures r <= |modules|
    ensures r == |modules| <==> forall i :: 0 <= i < |modules| ==> AllCompleted(modules[i])
    ensures r == 0 <==> forall i :: 0 <= i < |modules| ==> !AllCompleted(modules[i])
  {
    if modules == [] then 0
    else (if AllCompleted(modules[0]) then 1 else 0) + CompletedModules(modules[1..])
  }

  /** The lesson count adds up over concatenation and counts one lesson as 1
      exactly when it is completed; with the empty list counting 0, this pins
      the value to the number of completed lessons. */
  lemma {:induction false} CompletedLessonsAppend(a: seq<MenuLesson>, b: seq<MenuLesson>)
    ensures CompletedLessons(a + b) == CompletedLessons(a) + CompletedLessons(b)
    ensures forall l :: CompletedLessons([l]) == if l.completed then 1 else 0
  {
    if a != [] {
      assert (a + b)[1..] == a[1..] + b;
      CompletedLessonsAppend(a[1..], b);
    } else {
      assert a + b == b;
    }
    forall l ensures CompletedLessons([l]) == if l.completed then 1 else 0 {
      assert [l][1..] == [];
    }
  }

  /** The module count adds up over concatenation and counts one module as 1
      exactly when all its lessons are completed: it is the number of fully
      completed modules. */
  lemma {:induction false} CompletedModulesAppend(a: seq<MenuModule>, b: seq<MenuModule>)
    ensures CompletedModules(a + b) == CompletedModules(a) + CompletedModules(b)
    ensures forall m :: CompletedModules([m]) == if AllCompleted(m) then 1 else 0
  {
    if a != [] {
      assert (a + b)[1..] == a[1..] + b;
      CompletedModulesAppend(a[1..], b);
    } else {
      assert a + b == b;
    }
    forall m ensures CompletedModules([m]) == if AllCompleted(m) then 1 else 0 {
      assert [m][1..] == [];
    }
  }

  /** The sidebar state `fetchModules` writes: modules, `currentLevel`, `progress`. */
  datatype Menu = Menu(modules: seq<MenuModule>, currentLevel: nat, progress: real)

  /** The state before any fetch has succeeded. */
  function Initial(): Menu
  {
    Menu([], 0, 0.0)
  }

  /** `(completed / total) * 100` when there are lessons, 0 otherwise. */
  function Percent(completed: nat, total: nat): (r: real)
    requires completed <= total
    ensures 0.0 <= r <= 100.0
    ensures total == 0 ==> r == 0.0
    ensures total > 0 ==> r * (total as real) == 100.0 * (completed as real)
    ensures r == 100.0 <==> total > 0 && completed == total
  {
    if total > 0 then (completed as real / total as real) * 100.0 else 0.0
  }

  /** The computation of `fetchModules` on a successful response. */
  function Summary(data: seq<MenuModule>): (r: Menu)
    ensures r.modules == data
    ensures r.currentLevel == CompletedModules(data)
    ensures r.currentLevel <= |data|
    ensures r.currentLevel == |data| <==> forall i :: 0 <= i < |data| ==> AllCompleted(data[i])
    ensures 0.0 <= r.progress <= 100.0
    ensures r.currentLevel == |data| || data[r.currentLevel].lessons == [] ==> r.progress == 0.0
    ensures r.progress == 100.0 <==>
              r.currentLevel < |data| && data[r.currentLevel].lessons != [] && AllCompleted(data[r.currentLevel])
    ensures r.currentLevel < |data| ==>
              r.progress == Percent(CompletedLessons(data[r.currentLevel].lessons), |data[r.currentLevel].lessons|)
  {
    var level := CompletedModules(data);
    if level < |data| then
      var lessons := data[level].lessons;
      Menu(data, level, Percent(CompletedLessons(lessons), |lessons|))
    else
      Menu(data, level, Percent(0, 0))
  }

  /** `fetchModules`: a failed request leaves the initial state in place. */
  function Loaded(response: Fetch<seq<MenuModule>>): (r: Menu)
    ensures response.StorageError? ==> r.currentLevel == 0 && r.progress == 0.0 && r.modules == []
    ensures response.Rows? ==> r == Summary(response.rows)
    ensures response.Rows? ==> r.modules == response.rows && r.currentLevel == CompletedModules(response.rows)
  {
    match response
    case StorageError(_) => Initial()
    case Rows(data) => Summary(data)
  }

  /** The "Level Up" message is shown exactly at 100 percent. */
  predicate ShowsLevelUp(m: Menu)
  {
    m.progress == 100.0
  }

  /** Completed modules form a prefix of the list: nothing incomplete comes
      before something complete. */
  predicate CompletedAsPrefix(data: seq<MenuModule>)
  {
    forall i, j :: 0 <= i < j < |data| && AllCompleted(data[j]) ==> AllCompleted(data[i])
  }

  /** When completed modules form a prefix, the module at index `currentLevel`
      is the first incomplete one. */
  lemma {:induction false} NextIsFirstIncomplete(data: seq<MenuModule>)
    requires CompletedAsPrefix(data)
    ensures CompletedModules(data) < |data| ==> !AllCompleted(data[CompletedModules(data)])
    ensures forall i :: 0 <= i < CompletedModules(data) ==> AllCompleted(data[i])
  {
    if data != [] {
      var tail := data[1..];
      assert CompletedAsPrefix(tail) by {
        forall i, j | 0 <= i < j < |tail| && AllCompleted(tail[j]) ensures AllCompleted(tail[i]) {
          assert data[i + 1] == tail[i] && data[j + 1] == tail[j];
        }
      }
      NextIsFirstIncomplete(tail);
      if AllCompleted(data[0]) {
        assert CompletedModules(data) == 1 + CompletedModules(tail);
        forall i | 0 <= i < CompletedModules(data) ensures AllCompleted(data[i]) {
          if i > 0 {
            assert data[i] == tail[i - 1];
          }
        }
      } else {
        assert CompletedModules(data) == CompletedModules(tail);
      }
    }
  }

  /** The level-up message never shows while modules are completed in
      order: it needs a fully completed module after an incomplete one. */
  lemma {:induction false} LevelUpNeedsOutOfOrderCompletion(data: seq<MenuModule>)
    ensures ShowsLevelUp(Summary(data)) ==> !CompletedAsPrefix(data)
  {
    if CompletedAsPrefix(data) {
      NextIsFirstIncomplete(data);
    }
  }
}
