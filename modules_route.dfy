/** GET /api/modules: every module, each flagged `is_unlocked`.
    A module opens when the module before it in the list has a completed
    `user_progress` row; the first module is always open. */
module ModulesRoute {
  import opened Common
  import opened Catalog

  /** A `user_progress` row as the route selects it (`module_id, completed`). */
  datatype ModuleProgress = ModuleProgress(moduleId: Id, completed: bool)

  /** A module as the route returns it: its row plus `is_unlocked`. */
  datatype ModuleView = ModuleView(row: Module, isUnlocked: bool)

  /** Some progress row of the user marks the module completed. */
  predicate Completed(progress: seq<ModuleProgress>, moduleId: Id)
  {
    exists p :: p in progress && p.moduleId == moduleId && p.completed
  }

  /** Every module after the first, each flagged by its predecessor's completion. */
  function Successors(modules: seq<Module>, progress: seq<ModuleProgress>): (r: seq<ModuleView>)
    ensures |r| == if modules == [] then 0 else |modules| - 1
    ensures forall i :: 0 <= i < |r| ==> r[i].row == modules[i + 1]
    ensures forall i :: 0 <= i < |r| ==> r[i].isUnlocked == Completed(progress, modules[i].id)
  {
    if |modules| < 2 then []
    else [ModuleView(modules[1], Completed(progress, modules[0].id))] + Successors(modules[1..], progress)
  }

  /** The mapping for a signed-in user: same length and order, first module
      open, module i > 0 open exactly when module i - 1 is completed. */
  function SignedIn(modules: seq<Module>, progress: seq<ModuleProgress>): (r: seq<ModuleView>)
    ensures |r| == |modules|
    ensures forall i :: 0 <= i < |r| ==> r[i].row == modules[i]
    ensures |r| > 0 ==> r[0].isUnlocked
    ensures forall i :: 0 < i < |r| ==> (r[i].isUnlocked <==> Completed(progress, modules[i - 1].id))
  {
    if modules == [] then [] else [ModuleView(modules[0], true)] + Successors(modules, progress)
  }

  /** The mapping with nobody signed in. */
  function Anonymous(modules: seq<Module>): seq<ModuleView>
  {
    seq(|modules|, i requires 0 <= i < |modules| => ModuleView(modules[i], i == 0))
  }

  /** Nobody signed in is treated exactly like a user without progress rows. */
  lemma AnonymousIsUserWithoutProgress(modules: seq<Module>)
    ensures Anonymous(modules) == SignedIn(modules, [])
  {
    var a, s := Anonymous(modules), SignedIn(modules, []);
    forall i | 0 <= i < |modules| ensures a[i] == s[i] {
      if i > 0 {
        assert !Completed([], modules[i - 1].id);
      }
    }
  }

  /** The GET handler. `modulesRead` is the `modules` query ordered by id;
      `progressRead` is the user's `user_progress` query, consulted only
      when somebody is signed in. */
  function Get(userId: Option<Id>, modulesRead: Fetch<seq<Module>>,
               progressRead: Fetch<seq<ModuleProgress>>): (r: Reply<seq<ModuleView>>)
    ensures modulesRead.StorageError? ==> r == Err(500, ServerError(modulesRead.message))
    ensures modulesRead.Rows? && Given(userId) && progressRead.StorageError? ==>
              r == Err(500, ServerError(progressRead.message))
    ensures modulesRead.Rows? && !Given(userId) ==>
              r.Ok? && forall i :: 0 <= i < |r.body| ==> (r.body[i].isUnlocked <==> i == 0)
    ensures r.Ok? ==> r.status == 200 && modulesRead.Rows? && |r.body| == |modulesRead.rows|
    ensures r.Ok? ==> forall i :: 0 <= i < |r.body| ==> r.body[i].row == modulesRead.rows[i]
    ensures r.Ok? && |r.body| > 0 ==> r.body[0].isUnlocked
    ensures r.Ok? && Given(userId) ==>
              && progressRead.Rows?
              && forall i :: 0 < i < |r.body| ==>
                   (r.body[i].isUnlocked <==> Completed(progressRead.rows, modulesRead.rows[i - 1].id))
  {
    match modulesRead
    case StorageError(m) => Err(500, ServerError(m))
    case Rows(modules) =>
      if !Given(userId) then Ok(200, Anonymous(modules))
      else
        match progressRead
        case StorageError(m) => Err(500, ServerError(m))
        case Rows(progress) => Ok(200, SignedIn(modules, progress))
  }

  /** POST /api/modules is a stub: whatever the body, 501 "Not implemented". */
  function Post(body: Json): (r: Reply<()>)
    ensures r.Err? && r.status == 501 && r.error == "Not implemented"
  {
    Err(501, "Not implemented")
  }

  /** A row for module i never changes module i's own flag; only its
      predecessor's completion does. */
  lemma {:induction false} OwnRowIrrelevant(modules: seq<Module>, progress: seq<ModuleProgress>, i: nat, row: ModuleProgress)
    requires 0 < i < |modules|
    requires row.moduleId == modules[i].id && modules[i - 1].id != modules[i].id
    ensures SignedIn(modules, progress + [row])[i] == SignedIn(modules, progress)[i]
  {
    var prev := modules[i - 1].id;
    if Completed(progress + [row], prev) {
      var p :| p in progress + [row] && p.moduleId == prev && p.completed;
      assert p in progress;
    }
    if Completed(progress, prev) {
      var p :| p in progress && p.moduleId == prev && p.completed;
      assert p in progress + [row];
    }
  }

  /** Completing module i opens module i + 1 for a signed-in user. */
  lemma {:induction false} CompletionOpensSuccessor(modules: seq<Module>, progress: seq<ModuleProgress>, i: nat)
    requires i + 1 < |modules|
    ensures SignedIn(modules, progress + [ModuleProgress(modules[i].id, true)])[i + 1].isUnlocked
  {
    var row := ModuleProgress(modules[i].id, true);
    assert row in progress + [row];
  }
}
