/** The admin course editor (/admin/mgmt): two lists (modules, and the
    selected module's lessons), the selection, the content form of the
    selected lesson and an unsaved-changes flag, changed by the page's
    handlers. Network replies are the handlers' inputs; the requests they
    send are their outputs. */
module CourseEditor {
  import opened Common
  import LessonContentRoute

  /** A module as the editor lists it. */
  datatype ModuleItem = ModuleItem(id: Id, title: string)

  /** A lesson as the editor lists it. */
  datatype LessonItem = LessonItem(id: Id, title: string, orderIndex: Option<int>)

  /** The content form of the selected lesson. */
  datatype LessonContent = LessonContent(lessonId: Id, videoUrl: string, flashcardUrl: string,
                                         slideFile: Option<LessonContentRoute.SlideFile>, previewUrl: Option<string>)

  /** The form as the page first shows it. */
  function BlankContent(): LessonContent
  {
    LessonContent("", "", "", None, None)
  }

  /** One edit of the content form: `handleContentChange(field, value)`. */
  datatype ContentEdit =
    | SetLessonId(lessonId: Id)
    | SetVideoUrl(videoUrl: string)
    | SetFlashcardUrl(flashcardUrl: string)
    | SetSlideFile(slideFile: Option<LessonContentRoute.SlideFile>)
    | SetPreviewUrl(previewUrl: Option<string>)

  /** A request the editor sends. */
  datatype Request =
    | ModulePost(title: string, description: string, level: int)
    | ModuleDelete(moduleId: Id)
    | LessonPost(moduleId: Id, title: string, orderIndex: int)
    | LessonDelete(lessonId: Id)
    | ModulePut(item: ModuleItem)
    | LessonPut(lesson: LessonItem)
    | ContentPut(form: LessonContentRoute.ContentRequest)

  function ModuleKey(m: ModuleItem): Id { m.id }
  function LessonKey(l: LessonItem): Id { l.id }

  /** `modules.map(m => m.id === id ? {...m, title} : m)`. */
  function RenamedModules(modules: seq<ModuleItem>, id: Id, title: string): (r: seq<ModuleItem>)
    ensures |r| == |modules|
    ensures forall i :: 0 <= i < |r| ==> r[i].id == modules[i].id
    ensures forall i :: 0 <= i < |r| ==> r[i].title == (if modules[i].id == id then title else modules[i].title)
  {
    if modules == [] then []
    else
      var m := modules[0];
      [if m.id == id then ModuleItem(m.id, title) else m] + RenamedModules(modules[1..], id, title)
  }

  /** `lessons.map(l => l.id === id ? {...l, title} : l)`. */
  function RenamedLessons(lessons: seq<LessonItem>, id: Id, title: string): (r: seq<LessonItem>)
    ensures |r| == |lessons|
    ensures forall i :: 0 <= i < |r| ==> r[i].id == lessons[i].id && r[i].orderIndex == lessons[i].orderIndex
    ensures forall i :: 0 <= i < |r| ==> r[i].title == (if lessons[i].id == id then title else lessons[i].title)
  {
    if lessons == [] then []
    else
      var l := lessons[0];
      [if l.id == id then LessonItem(l.id, title, l.orderIndex) else l] + RenamedLessons(lessons[1..], id, title)
  }

  /** `{...prev, [field]: value}`. */
  function Edited(c: LessonContent, e: ContentEdit): LessonContent
  {
    match e
    case SetLessonId(v) => c.(lessonId := v)
    case SetVideoUrl(v) => c.(videoUrl := v)
    case SetFlashcardUrl(v) => c.(flashcardUrl := v)
    case SetSlideFile(v) => c.(slideFile := v)
    case SetPreviewUrl(v) => c.(previewUrl := v)
  }

  /** The fields of the content form. */
  datatype Field = LessonIdField | VideoUrlField | FlashcardUrlField | SlideFileField | PreviewUrlField

  /** The field an edit names. */
  function Target(e: ContentEdit): Field
  {
    match e
    case SetLessonId(_) => LessonIdField
    case SetVideoUrl(_) => VideoUrlField
    case SetFlashcardUrl(_) => FlashcardUrlField
    case SetSlideFile(_) => SlideFileField
    case SetPreviewUrl(_) => PreviewUrlField
  }

  /** The fields in which two forms differ. */
  function Differences(a: LessonContent, b: LessonContent): set<Field>
  {
    (if a.lessonId != b.lessonId then {LessonIdField} else {})
    + (if a.videoUrl != b.videoUrl then {VideoUrlField} else {})
    + (if a.flashcardUrl != b.flashcardUrl then {FlashcardUrlField} else {})
    + (if a.slideFile != b.slideFile then {SlideFileField} else {})
    + (if a.previewUrl != b.previewUrl then {PreviewUrlField} else {})
  }

  /** An edit changes at most the field it names, and that field then
      holds the edit's value. */
  lemma EditTouchesOneField(c: LessonContent, e: ContentEdit)
    ensures Differences(c, Edited(c, e)) <= {Target(e)}
    ensures Edited(c, e) == c <==> Differences(c, Edited(c, e)) == {}
    ensures match e
            case SetLessonId(v) => Edited(c, e).lessonId == v
            case SetVideoUrl(v) => Edited(c, e).videoUrl == v
            case SetFlashcardUrl(v) => Edited(c, e).flashcardUrl == v
            case SetSlideFile(v) => Edited(c, e).slideFile == v
            case SetPreviewUrl(v) => Edited(c, e).previewUrl == v
  {
  }

  /** The multipart form `saveAllChanges` sends for the selected lesson. */
  function ContentForm(lessonId: Id, c: LessonContent): LessonContentRoute.ContentRequest
  {
    LessonContentRoute.ContentRequest(Some(LessonContentRoute.FormType), Some(lessonId), Some(c.videoUrl),
                                      Some(c.flashcardUrl), c.slideFile)
  }

  /** The requests `saveAllChanges` sends: one PUT per module in list
      order, then one per lesson in list order, then the content form when
      a lesson is selected. */
  function SavePlan(modules: seq<ModuleItem>, lessons: seq<LessonItem>, selectedLesson: Id, c: LessonContent): (r: seq<Request>)
    ensures |r| == |modules| + |lessons| + (if selectedLesson != "" then 1 else 0)
  {
    ModulePuts(modules) + LessonPuts(lessons) + (if selectedLesson != "" then [ContentPut(ContentForm(selectedLesson, c))] else [])
  }

  /** The plan's order: module `i` is request `i`, lesson `j` follows all
      the modules, and the content form, when sent, comes last. */
  lemma SavePlanOrder(modules: seq<ModuleItem>, lessons: seq<LessonItem>, selectedLesson: Id, c: LessonContent)
    ensures var r := SavePlan(modules, lessons, selectedLesson, c);
            && (forall i :: 0 <= i < |modules| ==> r[i] == ModulePut(modules[i]))
            && (forall j :: 0 <= j < |lessons| ==> r[|modules| + j] == LessonPut(lessons[j]))
            && (selectedLesson != "" ==> r[|r| - 1] == ContentPut(ContentForm(selectedLesson, c)))
            && (selectedLesson == "" ==> forall k :: 0 <= k < |r| ==> !r[k].ContentPut?)
  {
  }

  function ModulePuts(modules: seq<ModuleItem>): (r: seq<Request>)
    ensures |r| == |modules|
    ensures forall i :: 0 <= i < |modules| ==> r[i] == ModulePut(modules[i])
  {
    if modules == [] then [] else ModulePuts(modules[..|modules| - 1]) + [ModulePut(modules[|modules| - 1])]
  }

  function LessonPuts(lessons: seq<LessonItem>): (r: seq<Request>)
    ensures |r| == |lessons|
    ensures forall i :: 0 <= i < |lessons| ==> r[i] == LessonPut(lessons[i])
  {
    if lessons == [] then [] else LessonPuts(lessons[..|lessons| - 1]) + [LessonPut(lessons[|lessons| - 1])]
  }

  class Editor {
    var signedIn: bool
    var modules: seq<ModuleItem>
    var lessons: seq<LessonItem>
    var selectedModule: Id
    var selectedLesson: Id
    var editingModuleId: Option<Id>
    var editingLessonId: Option<Id>
    var content: LessonContent
    var unsavedChanges: bool

    constructor (signedIn: bool)
      ensures this.signedIn == signedIn
      ensures modules == [] && lessons == [] && selectedModule == "" && selectedLesson == ""
      ensures editingModuleId == None && editingLessonId == None
      ensures content == BlankContent() && !unsavedChanges
    {
      this.signedIn := signedIn;
      modules, lessons := [], [];
      selectedModule, selectedLesson := "", "";
      editingModuleId, editingLessonId := None, None;
      content := BlankContent();
      unsavedChanges := false;
    }

    /** A click on a module row: select it and clear the lesson selection. */
    method SelectModule(id: Id)
      modifies this
      ensures selectedModule == id && selectedLesson == ""
      ensures modules == old(modules) && lessons == old(lessons) && content == old(content)
      ensures unsavedChanges == old(unsavedChanges) && signedIn == old(signedIn)
      ensures editingModuleId == old(editingModuleId) && editingLessonId == old(editingLessonId)
    {
      selectedModule := id;
      selectedLesson := "";
    }

    /** A click on a lesson row. */
    method SelectLesson(id: Id)
      modifies this
      ensures selectedLesson == id
      ensures modules == old(modules) && lessons == old(lessons) && content == old(content)
      ensures unsavedChanges == old(unsavedChanges) && signedIn == old(signedIn) && selectedModule == old(selectedModule)
      ensures editingModuleId == old(editingModuleId) && editingLessonId == old(editingLessonId)
    {
      selectedLesson := id;
    }

    method HandleModuleTitleChange(id: Id, title: string)
      modifies this
      ensures modules == RenamedModules(old(modules), id, title) && unsavedChanges
      ensures lessons == old(lessons) && content == old(content) && signedIn == old(signedIn)
      ensures selectedModule == old(selectedModule) && selectedLesson == old(selectedLesson)
      ensures editingModuleId == old(editingModuleId) && editingLessonId == old(editingLessonId)
    {
      modules := RenamedModules(modules, id, title);
      unsavedChanges := true;
    }

    method HandleLessonTitleChange(id: Id, title: string)
      modifies this
      ensures lessons == RenamedLessons(old(lessons), id, title) && unsavedChanges
      ensures modules == old(modules) && content == old(content) && signedIn == old(signedIn)
      ensures selectedModule == old(selectedModule) && selectedLesson == old(selectedLesson)
      ensures editingModuleId == old(editingModuleId) && editingLessonId == old(editingLessonId)
    {
      lessons := RenamedLessons(lessons, id, title);
      unsavedChanges := true;
    }

    method HandleContentChange(e: ContentEdit)
      modifies this
      ensures content == Edited(old(content), e) && unsavedChanges
      ensures modules == old(modules) && lessons == old(lessons) && signedIn == old(signedIn)
      ensures selectedModule == old(selectedModule) && selectedLesson == old(selectedLesson)
      ensures editingModuleId == old(editingModuleId) && editingLessonId == old(editingLessonId)
    {
      content := Edited(content, e);
      unsavedChanges := true;
    }

    /** `addModule`; `created` is the module the reply carries when the
      request succeeds. Without a session nothing is sent. */
    method AddModule(created: Option<ModuleItem>) returns (sent: Option<Request>)
      modifies this
      ensures !old(signedIn) ==> sent == None && unchanged(this)
      ensures old(signedIn) ==> sent == Some(ModulePost("New Module", "Edit this module description", |old(modules)| + 1))
      ensures old(signedIn) && created.None? ==> unchanged(this)
      ensures old(signedIn) && created.Some? ==>
                && modules == old(modules) + [created.value]
                && selectedModule == created.value.id && editingModuleId == Some(created.value.id)
                && lessons == [] && selectedLesson == ""
                && content == old(content) && unsavedChanges == old(unsavedChanges) && signedIn == old(signedIn)
                && editingLessonId == old(editingLessonId)
    {
      if !signedIn {
        return None;
      }
      sent := Some(ModulePost("New Module", "Edit this module description", |modules| + 1));
      if created.Some? {
        modules := modules + [created.value];
        selectedModule := created.value.id;
        editingModuleId := Some(created.value.id);
        lessons := [];
        selectedLesson := "";
      }
    }

    /** `deleteModule`: an empty id or a declined confirmation sends
      nothing; without a session building the request fails, so nothing is
      sent either. `succeeded` is whether the reply is OK. */
    method DeleteModule(id: Id, confirmed: bool, succeeded: bool) returns (sent: Option<Request>)
      modifies this
      ensures id == "" || !confirmed || !old(signedIn) ==> sent == None && unchanged(this)
      ensures id != "" && confirmed && old(signedIn) ==> sent == Some(ModuleDelete(id))
      ensures id != "" && confirmed && old(signedIn) && !succeeded ==> unchanged(this)
      ensures id != "" && confirmed && old(signedIn) && succeeded ==>
                && modules == Where(old(modules), ModuleKey, id, false)
                && selectedModule == (if old(selectedModule) == id then "" else old(selectedModule))
                && lessons == (if old(selectedModule) == id then [] else old(lessons))
                && selectedLesson == old(selectedLesson) && content == old(content)
                && unsavedChanges == old(unsavedChanges) && signedIn == old(signedIn)
                && editingModuleId == old(editingModuleId) && editingLessonId == old(editingLessonId)
    {
      if id == "" || !confirmed || !signedIn {
        return None;
      }
      sent := Some(ModuleDelete(id));
      if succeeded {
        modules := Where(modules, ModuleKey, id, false);
        if selectedModule == id {
          selectedModule := "";
          lessons := [];
        }
      }
    }

    /** `addLesson`: needs a session and a selected module; `created` is
      the lesson the reply carries when the request succeeds. */
    method AddLesson(created: Option<LessonItem>) returns (sent: Option<Request>)
      modifies this
      ensures !old(signedIn) || old(selectedModule) == "" ==> sent == None && unchanged(this)
      ensures old(signedIn) && old(selectedModule) != "" ==>
                sent == Some(LessonPost(old(selectedModule), "New Lesson", |old(lessons)| + 1))
      ensures old(signedIn) && old(selectedModule) != "" && created.None? ==> unchanged(this)
      ensures old(signedIn) && old(selectedModule) != "" && created.Some? ==>
                && lessons == old(lessons) + [created.value]
                && selectedLesson == created.value.id && editingLessonId == Some(created.value.id)
                && modules == old(modules) && selectedModule == old(selectedModule) && content == old(content)
                && unsavedChanges == old(unsavedChanges) && signedIn == old(signedIn)
                && editingModuleId == old(editingModuleId)
    {
      if !signedIn || selectedModule == "" {
        return None;
      }
      sent := Some(LessonPost(selectedModule, "New Lesson", |lessons| + 1));
      if created.Some? {
        lessons := lessons + [created.value];
        selectedLesson := created.value.id;
        editingLessonId := Some(created.value.id);
      }
    }

    /** `deleteLesson`: a declined confirmation, or no session, sends
      nothing; there is no check of the id. */
    method DeleteLesson(id: Id, confirmed: bool, succeeded: bool) returns (sent: Option<Request>)
      modifies this
      ensures !confirmed || !old(signedIn) ==> sent == None && unchanged(this)
      ensures confirmed && old(signedIn) ==> sent == Some(LessonDelete(id))
      ensures confirmed && old(signedIn) && !succeeded ==> unchanged(this)
      ensures confirmed && old(signedIn) && succeeded ==>
                && lessons == Where(old(lessons), LessonKey, id, false)
                && selectedLesson == (if old(selectedLesson) == id then "" else old(selectedLesson))
                && modules == old(modules) && selectedModule == old(selectedModule) && content == old(content)
                && unsavedChanges == old(unsavedChanges) && signedIn == old(signedIn)
                && editingModuleId == old(editingModuleId) && editingLessonId == old(editingLessonId)
    {
      if !confirmed || !signedIn {
        return None;
      }
      sent := Some(LessonDelete(id));
      if succeeded {
        lessons := Where(lessons, LessonKey, id, false);
        if selectedLesson == id {
          selectedLesson := "";
        }
      }
    }

    /** `saveAllChanges`. `failAt` is the position of the request whose
      fetch rejects, if one does: the requests up to it are sent, the rest
      are not and the flag stays set. A reply with an error status does not
      stop the loop. */
    method SaveAllChanges(failAt: Option<nat>) returns (sent: seq<Request>)
      modifies this
      ensures !old(signedIn) ==> sent == [] && unchanged(this)
      ensures old(signedIn) && Interrupted(SavePlan(old(modules), old(lessons), old(selectedLesson), old(content)), failAt) ==>
                sent == SavePlan(old(modules), old(lessons), old(selectedLesson), old(content))[..failAt.value + 1]
                && unchanged(this)
      ensures old(signedIn) && !Interrupted(SavePlan(old(modules), old(lessons), old(selectedLesson), old(content)), failAt) ==>
                && sent == SavePlan(old(modules), old(lessons), old(selectedLesson), old(content))
                && !unsavedChanges
                && modules == old(modules) && lessons == old(lessons) && content == old(content)
                && selectedModule == old(selectedModule) && selectedLesson == old(selectedLesson)
                && signedIn == old(signedIn)
                && editingModuleId == old(editingModuleId) && editingLessonId == old(editingLessonId)
    {
      if !signedIn {
        return [];
      }
      var completed;
      sent, completed := SendAll(modules, lessons, selectedLesson, content, failAt);
      if completed {
        unsavedChanges := false;
      }
    }
  }

  /** A fetch of the plan rejects. */
  predicate Interrupted(plan: seq<Request>, failAt: Option<nat>)
  {
    failAt.Some? && failAt.value < |plan|
  }

  /** The loops of `saveAllChanges`: the module PUTs, the lesson PUTs and
      the content PUT, in that order, stopping after a fetch that rejects. */
  method SendAll(modules: seq<ModuleItem>, lessons: seq<LessonItem>, selectedLesson: Id, c: LessonContent,
                 failAt: Option<nat>) returns (sent: seq<Request>, completed: bool)
    ensures completed <==> !Interrupted(SavePlan(modules, lessons, selectedLesson, c), failAt)
    ensures completed ==> sent == SavePlan(modules, lessons, selectedLesson, c)
    ensures !completed ==> sent == SavePlan(modules, lessons, selectedLesson, c)[..failAt.value + 1]
  {
    var modulePuts, lessonPuts := ModulePuts(modules), LessonPuts(lessons);
    var last := if selectedLesson != "" then [ContentPut(ContentForm(selectedLesson, c))] else [];
    assert SavePlan(modules, lessons, selectedLesson, c) == (modulePuts + lessonPuts) + last;
    assert [] + modulePuts == modulePuts;
    sent, completed := SendEach(modulePuts, [], failAt);
    if !completed {
      PrefixOfJoin(modulePuts, lessonPuts, failAt.value + 1);
      PrefixOfJoin(modulePuts + lessonPuts, last, failAt.value + 1);
      return;
    }
    sent, completed := SendEach(lessonPuts, sent, failAt);
    if !completed {
      PrefixOfJoin(modulePuts + lessonPuts, last, failAt.value + 1);
      return;
    }
    sent, completed := SendEach(last, sent, failAt);
  }

  /** One loop of `saveAllChanges`: sends `requests` one after another
      behind the `earlier` ones, and stops after the fetch at position
      `failAt` (counted over the whole save) when it rejects. */
  method SendEach(requests: seq<Request>, earlier: seq<Request>, failAt: Option<nat>)
    returns (sent: seq<Request>, completed: bool)
    requires failAt.Some? ==> failAt.value >= |earlier|
    ensures completed <==> !Interrupted(earlier + requests, failAt)
    ensures completed ==> sent == earlier + requests
    ensures !completed ==> sent == (earlier + requests)[..failAt.value + 1]
  {
    sent := earlier;
    for i := 0 to |requests|
      invariant sent == earlier + requests[..i]
      invariant failAt.Some? ==> failAt.value >= |earlier| + i
    {
      assert requests[..i + 1] == requests[..i] + [requests[i]];
      sent := sent + [requests[i]];
      if failAt == Some(|earlier| + i) {
        assert (earlier + requests)[..failAt.value + 1] == earlier + requests[..i + 1];
        return sent, false;
      }
    }
    assert requests[..|requests|] == requests;
    completed := true;
  }

  /** A prefix that ends inside the first part of a join is a prefix of
      that part. */
  lemma PrefixOfJoin(a: seq<Request>, b: seq<Request>, k: nat)
    requires k <= |a|
    ensures (a + b)[..k] == a[..k]
  {
  }

  /** Deleting the item just appended, when no other item had its id,
      gives back the list as it was before. */
  lemma {:induction false} DeleteUndoesAdd<T(!new)>(items: seq<T>, item: T, key: T -> Id)
    requires forall x :: x in items ==> key(x) != key(item)
    ensures Where(items + [item], key, key(item), false) == items
  {
    WhereAppend(items, [item], key, key(item), false);
    WhereAll(items, key, key(item), false);
    WhereNone([item], key, key(item), false);
  }

  /** "application/json" does not occur in "multipart/form-data". */
  lemma FormTypeIsNotJson()
    ensures !LessonContentRoute.Contains(LessonContentRoute.FormType, LessonContentRoute.JsonType)
    ensures LessonContentRoute.Contains(LessonContentRoute.FormType, LessonContentRoute.FormType)
  {
    var s, json := LessonContentRoute.FormType, LessonContentRoute.JsonType;
    forall i | 0 <= i <= |s| ensures !LessonContentRoute.OccursAt(s, json, i) {
      if i + |json| <= |s| {
        assert s[i] != json[0];
      }
    }
    assert LessonContentRoute.OccursAt(s, s, 0);
  }

  /** The content form the editor saves passes the route's lesson check:
      the route reads the selected lesson as `lesson_id`, together with the
      form's URLs and file, and does not answer "Missing required field". */
  lemma {:induction false} SavedFormNamesTheLesson(
    lessonId: Id, c: LessonContent, storage: LessonContentRoute.Storage, faults: map<LessonContentRoute.Step, string>)
    requires lessonId != ""
    ensures LessonContentRoute.Read(ContentForm(lessonId, c))
              == LessonContentRoute.Fields(lessonId, c.videoUrl, c.flashcardUrl, c.slideFile)
    ensures LessonContentRoute.Response(ContentForm(lessonId, c), storage, faults).reply
              != Err(400, "Missing required field: lesson_id")
  {
    FormTypeIsNotJson();
  }
}
