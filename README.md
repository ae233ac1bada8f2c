# lexorial learning platform: unlock rules, progress, question tables and the course editor

lexorial is a language-learning platform built from Next.js API routes and
React pages over a Supabase database. This project models its decision and
table-update logic in Dafny:

- the server's unlock rules for modules (`/api/modules`) and lessons
  (`/api/lessons`): the first item is open, and later items open on the
  completion of their predecessor;
- the `lesson_progress` upsert (`/api/progress`), keyed on
  `(user_id, lesson_id)` and modelled as a map held by a class;
- the learner home page's own unlock rules and its guarded selection
  handlers;
- the level, next-module and percentage computation of the progress
  sidebar (`BurgerMenu`);
- the question routes (`/api/questions`, `/api/questions/choices`,
  `/api/questions/question-choices`) over three tables of rows, modelled as
  a class with sequence fields:
  - required-field checks;
  - `order_index` defaults and numbering;
  - coercion of `is_correct` to a boolean;
  - delete-then-insert replacement;
- `/api/lesson-content`:
  - GET's parameter check and error order;
  - PUT as a method that reads a JSON or multipart body and then produces
    an ordered list of writes, proved equal to a specification function;
- the admin course editor (`/admin/mgmt`), modelled as a class whose handlers
  do the following:
  - rename and delete by id;
  - append with `length + 1`;
  - select;
  - keep the unsaved-changes flag;
  - send the requests of "save all" in a loop.

Database reads, storage failures, the clock and the storage public URL come
in as parameters. A storage failure is modelled in one of three forms:
- a `Fetch.StorageError`;
- an `Option` error message;
- a map from the failing call to its message.

Serial ids are drawn from a counter and written in decimal.

No level is stored anywhere. The progress sidebar derives the learner's
level as the number of fully completed modules.

The model also records several differences between the server and the page:
- Pages and routes disagree. The home page opens a module on any progress
  row, even one with `completed` false. It opens a lesson only on its
  predecessor's completion. The server opens the first module for every
  user, and it also opens a lesson on that lesson's own completion.
  `HomePage.PageAgreesWithServerIffInOrder` states exactly when the two
  lesson rules agree.
- The sidebar reports "Level Up" at 100 percent. This can only happen
  when a completed module follows an incomplete one.
- In `/api/questions/choices`, the position of a new choice is a count,
  not a maximum. A delete followed by a post therefore repeats a
  position.

## Model

| member | source | states |
|---|---|---|
| `Common.DecimalInjective` | src/app/api/questions/route.ts:20-32 | distinct serial numbers render as distinct ids |
| `Common.Where` | src/app/api/questions/route.ts:94 | the rows an `.eq(key, k)` filter selects, or a delete by it keeps: exactly the rows of the table whose key matches (or, for a delete, differs), never more rows than the table has |
| `ModulesRoute.Successors` | src/app/api/modules/route.ts:38-45 | every module after the first, in order, each unlocked exactly when the module before it has a completed progress row |
| `ModulesRoute.SignedIn` | src/app/api/modules/route.ts:38-45 | same length and order as the modules, each row kept; the first module is unlocked; module i > 0 is unlocked iff module i - 1 has a completed progress row |
| `ModulesRoute.AnonymousIsUserWithoutProgress` | src/app/api/modules/route.ts:21-27 | the anonymous mapping (only index 0 unlocked) equals the signed-in mapping over no progress rows |
| `ModulesRoute.Get` | src/app/api/modules/route.ts:8-55 | a failed modules read, or a failed progress read for a signed-in user, gives 500 with the error's message, or "Server error" when it is empty; otherwise 200 with every module in order; anonymous: unlocked iff index 0; signed in: first unlocked, i > 0 iff predecessor completed |
| `ModulesRoute.Post` | src/app/api/modules/route.ts:58-63 | always 501 "Not implemented" |
| `ModulesRoute.OwnRowIrrelevant` | src/app/api/modules/route.ts:40-44 | adding a progress row for module i never changes module i's own flag |
| `ModulesRoute.CompletionOpensSuccessor` | src/app/api/modules/route.ts:40-44 | a completed row for module i unlocks module i + 1 |
| `LessonsRoute.Mark` | src/app/api/lessons/route.ts:46-63 | lessons kept in order; `completed` iff a completed progress row names the lesson; the first open iff the lesson before the list counts as done or it is completed; lesson i > 0 open iff lesson i - 1 or lesson i is completed |
| `LessonsRoute.SignedIn` | src/app/api/lessons/route.ts:46-63 | first lesson open; lesson i > 0 open iff its predecessor or itself is completed; `completed` iff a completed row names it; completed implies unlocked |
| `LessonsRoute.AnonymousIsUserWithoutProgress` | src/app/api/lessons/route.ts:28-35 | the anonymous mapping (index 0 open, nothing completed) equals the signed-in mapping over no progress rows |
| `LessonsRoute.Get` | src/app/api/lessons/route.ts:8-73 | no `moduleId` gives 400 "Missing moduleId"; read failures give 500; otherwise 200 with the lessons in order, first unlocked, completed implies unlocked; anonymous: only index 0 open and nothing completed; signed in: `completed` iff a completed row names the lesson, and lesson i > 0 open iff lesson i - 1 or lesson i has a completed row |
| `LessonsRoute.Post` | src/app/api/lessons/route.ts:75-80 | always 501 "Not implemented" |
| `LessonsRoute.Put` | src/app/api/lessons/route.ts:82-87 | always 501 "Not implemented" |
| `LessonsRoute.UnlockIsLocal` | src/app/api/lessons/route.ts:46-63 | lesson i's flags depend only on the completion of lessons i - 1 and i |
| `ProgressRoute.Upsert` | src/app/api/progress/route.ts:14-16 | after the upsert the key is present with the posted value, the key set grows by that key only, and every other entry keeps its value |
| `ProgressRoute.UpsertIdempotent` | src/app/api/progress/route.ts:14-16 | posting the same body twice leaves the table as posting it once |
| `ProgressRoute.LessonProgressTable.constructor` | src/app/api/progress/route.ts:14-16 | the table starts with no (user, lesson) entries |
| `ProgressRoute.LessonProgressTable.Post` | src/app/api/progress/route.ts:6-23 | missing `user_id` or `lesson_id`: 400 "Missing required fields", table unchanged; storage error: 500 with its message, table unchanged; otherwise 201 and the table is the upsert of `(user_id, lesson_id) -> completed` |
| `ProgressRoute.CompletionUnlocksNextLesson` | src/app/api/progress/route.ts:14-16 | after posting `completed: true` for lesson i, the lessons GET for that user reports lesson i completed and lesson i + 1 unlocked |
| `ProgressRoute.OtherPostKeepsCompletion` | src/app/api/progress/route.ts:14-16 | posting another (user, lesson) pair does not change whether a lesson is completed for the user |
| `HomePage.IsModuleUnlocked` | src/app/auth/home/page.tsx:115-117 | a module is open on the page iff some progress row names it, whether or not that row is completed |
| `HomePage.IsLessonCompleted` | src/app/auth/home/page.tsx:120-122 | a lesson is completed on the page iff some progress row names it with `completed` set |
| `HomePage.IsLessonUnlocked` | src/app/auth/home/page.tsx:207-216 | lesson `index` is open on the page iff it is the first or its predecessor is completed; its own completion plays no part |
| `HomePage.PageLessonRuleIsStricter` | src/app/auth/home/page.tsx:207-216 | on the same completions, every lesson the page opens is open on the server too |
| `HomePage.PageAgreesWithServerIffInOrder` | src/app/auth/home/page.tsx:207-216 | on the same completions, page and server agree on every lesson iff no completed lesson has an uncompleted predecessor |
| `HomePage.NewLearnerFindsEveryModuleLocked` | src/app/auth/home/page.tsx:115-117 | without progress rows the page locks every module, the first included, while the server opens the first |
| `HomePage.UncompletedRowOpensModule` | src/app/auth/home/page.tsx:115-117 | a progress row with `completed` false opens its module on the page, while on the server it does not open the next module |
| `HomePage.LearnerHome.constructor` | src/app/auth/home/page.tsx:32-37 | the page starts with empty lists and no selection |
| `HomePage.LearnerHome.ClickModule` | src/app/auth/home/page.tsx:178 | the click selects the module iff any progress row names it; otherwise the selection is unchanged; nothing else changes |
| `HomePage.LearnerHome.ClickLesson` | src/app/auth/home/page.tsx:221 | the click selects the lesson iff it is the first or its predecessor is completed; otherwise the selection is unchanged; nothing else changes |
| `HomePage.LearnerHome.MarkLessonComplete` | src/app/auth/home/page.tsx:125-128 | the placeholder changes no state |
| `BurgerMenu.CompletedLessons` | src/components/BurgerMenu.tsx:46-47 | the count of completed lessons is at most the number of lessons, and equals it iff every lesson is completed |
| `BurgerMenu.CompletedModules` | src/components/BurgerMenu.tsx:40-42 | the count of fully completed modules (an empty module counts) is at most the number of modules; it equals it iff all are complete and is 0 iff none is |
| `BurgerMenu.CompletedLessonsAppend` | src/components/BurgerMenu.tsx:46-47 | the lesson count of a concatenation is the sum of the counts, and one lesson counts 1 iff it is completed: the count is the number of completed lessons |
| `BurgerMenu.CompletedModulesAppend` | src/components/BurgerMenu.tsx:40-42 | the module count of a concatenation is the sum of the counts, and one module counts 1 iff all its lessons are completed: the count is the number of fully completed modules |
| `BurgerMenu.Percent` | src/components/BurgerMenu.tsx:49-50 | between 0 and 100; 0 when there are no lessons; otherwise `percent * total = 100 * completed`; 100 iff there are lessons and all are completed |
| `BurgerMenu.Summary` | src/components/BurgerMenu.tsx:40-54 | the level is the number of fully completed modules (`CompletedModules`), at most the module count and equal to it iff every module is complete; when a module sits at index `level`, the progress is `Percent` of its completed lessons over its lessons, so `progress * lessons = 100 * completed`; 0 when that module is missing or empty; 100 iff it has lessons and all are completed |
| `BurgerMenu.Loaded` | src/components/BurgerMenu.tsx:33-60 | a failed fetch keeps the initial level 0, progress 0 and no modules; a successful one is exactly `Summary` of the rows: the modules stored, the level their count of fully completed modules |
| `BurgerMenu.NextIsFirstIncomplete` | src/components/BurgerMenu.tsx:44 | when completed modules form a prefix, the modules before index `level` are complete and the one at `level` is not |
| `BurgerMenu.LevelUpNeedsOutOfOrderCompletion` | src/components/BurgerMenu.tsx:133-137 | the level-up message (progress exactly 100) implies some complete module follows an incomplete one |
| `QuestionBank.Stamp` | src/app/api/questions/route.ts:104 | inserted rows keep their fields and order and take the serial ids next, next + 1, ... |
| `QuestionBank.ReplacedReadsBack` | src/app/api/questions/route.ts:94-105 | after deleting a key's rows and inserting rows of that key, reading the key gives exactly the inserted rows in order |
| `QuestionBank.ReplacedKeepsOthers` | src/app/api/questions/route.ts:94-105 | a delete-then-insert under one key leaves what every other key reads unchanged |
| `QuestionBank.KeepOthers` | src/app/api/questions/route.ts:94 | deleting one key's rows leaves another key's rows as they were |
| `QuestionBank.Patched` | src/app/api/questions/question-choices/route.ts:44-47 | an update by id keeps length and order, leaves rows with other ids alone, and in rows with that id writes exactly the columns the request carries |
| `QuestionBank.PatchedIdempotent` | src/app/api/questions/question-choices/route.ts:44-47 | applying the same update twice equals applying it once |
| `QuestionBank.InsertByOrder` | src/app/api/questions/choices/route.ts:21 | inserting into a list sorted by `order_index` gives a sorted permutation of the list plus the row |
| `QuestionBank.SortedRest` | src/app/api/questions/choices/route.ts:21 | behind the head of a sorted list comes a sorted list of rows no smaller than the head |
| `QuestionBank.LeastFirst` | src/app/api/questions/choices/route.ts:21 | a row no larger than any row of a sorted list keeps the list sorted in front of it |
| `QuestionBank.SortByOrder` | src/app/api/questions/choices/route.ts:21 | `.order("order_index")` returns a permutation of the rows sorted by `order_index` |
| `QuestionBank.SortKeepsOrderedRows` | src/app/api/questions/choices/route.ts:21 | ordering an already ordered list changes nothing |
| `QuestionBank.IssuedIsNotLater` | src/app/api/questions/route.ts:20-32 | an id handed out before `next` differs from every id handed out from `next` on |
| `QuestionBank.StampIssues` | src/app/api/questions/route.ts:41-50 | the ids an insert hands out from `next` were not issued before `next` and are all issued after it |
| `QuestionBank.SameIdsIssued` | src/app/api/questions/question-choices/route.ts:44-47 | an update that keeps every row's id keeps every stored id issued |
| `QuestionBank.Tables.constructor` | src/app/api/questions/route.ts:20-32 | the three tables start empty, with serial ids starting at 1, and the id invariant `Valid` holds: every stored question and choice id was handed out before `nextId` |
| `QuestionsRoute.ChoiceRows` | src/app/api/questions/route.ts:41-47 | one row per input choice, in input order, for the question, with `order_index = i + 1`, the input text and `is_correct` coerced to a boolean |
| `QuestionsRoute.AnswerRows` | src/app/api/questions/route.ts:54-58 | one answer row per accepted answer, in order, for the question |
| `QuestionsRoute.NewQuestion` | src/app/api/questions/route.ts:20-32 | the question row carries the request's lesson, text and type; `order_index` is 1 when absent or 0, the request's value otherwise |
| `QuestionsRoute.Post` | src/app/api/questions/route.ts:10-69 | keeps `Valid`; missing lesson, text or type: 400, tables unchanged; question insert fails: 500, unchanged; otherwise the question row is appended under an id no earlier question has, the choices or answers inserted as `ItemsInserted` says, every added choice id never issued before, and the reply is 500 with the failed insert's message or 200 with the question |
| `QuestionsRoute.InsertItems` | src/app/api/questions/route.ts:40-62 | a "multiple" question with choices appends them numbered 1..n under ids issued from `next` on and never before; a "long" one with answers appends them; any other request inserts nothing; a failed insert leaves its table unchanged and reports its message |
| `QuestionsRoute.Retitled` | src/app/api/questions/route.ts:79-89 | rows with that id take the text and type the request carries (absent fields keep their value); every other row and column is unchanged |
| `QuestionsRoute.Put` | src/app/api/questions/route.ts:72-129 | no id: 400 "Missing question ID."; update failure: 500, unchanged; otherwise the question is retitled and, for "multiple", the question's choices are deleted (kept if the delete fails) and the new list inserted numbered 1..n; for "long" likewise for answers; other types touch neither table; keeps `Valid`, and every added choice id was never issued before |
| `QuestionsRoute.ReplaceChoices` | src/app/api/questions/route.ts:91-107 | keeps `Valid`; the question's choices are deleted (kept when the delete fails), then a non-empty list is inserted numbered 1..n under ids never issued before; an insert failure gives 500 and leaves only the deletion |
| `QuestionsRoute.ReplaceAnswers` | src/app/api/questions/route.ts:109-122 | the question's accepted answers are deleted (kept when the delete fails), then a non-empty list is appended in order; an insert failure gives 500; keeps `Valid` |
| `QuestionsRoute.StampedChoicesBelongTo` | src/app/api/questions/route.ts:97-102 | every inserted choice row carries the question's id |
| `QuestionsRoute.PutReplacesChoices` | src/app/api/questions/route.ts:92-106 | after a successful "multiple" PUT the question lists exactly the request's choices numbered 1..n in request order (none for an empty list); other questions keep their choices |
| `QuestionsRoute.FailedDeleteKeepsOldChoices` | src/app/api/questions/route.ts:94-105 | when the delete fails, the question lists its old choices followed by the new ones |
| `QuestionsRoute.PutReplacesAnswers` | src/app/api/questions/route.ts:110-121 | after a successful "long" PUT the question has exactly the request's answers in order; other questions keep theirs |
| `QuestionsRoute.PostedChoicesReadBack` | src/app/api/questions/route.ts:41-50 | a question created by POST lists exactly the request's choices, numbered 1..n in request order |
| `QuestionsRoute.EarlyChoiceJoinsNextQuestion` | src/app/api/questions/choices/route.ts:30-58 | a choice stored earlier under the id the next question takes is listed with that question after its POST, ahead of the request's choices |
| `ChoicesRoute.Get` | src/app/api/questions/choices/route.ts:10-27 | no `question_id`: 400; read failure: 500; otherwise 200 with a permutation of that question's choices sorted by `order_index`, all of them the question's rows |
| `ChoicesRoute.NextOrder` | src/app/api/questions/choices/route.ts:41-46 | the new position is the number of the question's choices plus one, or 1 when the count fails; always at least 1 |
| `ChoicesRoute.Added` | src/app/api/questions/choices/route.ts:49-58 | the new row has text `choice_text`, or "" when absent, `is_correct` coerced to a boolean and position `NextOrder`; the request's `order_index` plays no part |
| `ChoicesRoute.Post` | src/app/api/questions/choices/route.ts:30-73 | keeps `Valid`; no `question_id`: 400, unchanged; insert failure: 500 with the error's message, or "Failed to create choice" when it is empty, unchanged; otherwise 201 and the row is appended with id `Decimal(nextId)`, which no stored choice has |
| `ChoicesRoute.Put` | src/app/api/questions/choices/route.ts:76-95 | no id: 400 "Missing choice id"; failure: 500; otherwise only `choice_text` and `is_correct` of the rows with that id change; keeps `Valid` |
| `ChoicesRoute.Delete` | src/app/api/questions/choices/route.ts:98-115 | no `id` query parameter: 400 "Missing id"; failure: 500; otherwise exactly the rows with that id are removed, the rest kept in order; keeps `Valid` |
| `ChoicesRoute.GetAfterQuestionPut` | src/app/api/questions/choices/route.ts:17-26 | after a "multiple" question PUT, this GET lists exactly the request's choices in request order |
| `ChoicesRoute.PostExtendsNumbering` | src/app/api/questions/choices/route.ts:41-58 | on a question numbered 1..n, a POST appends its choice as number n + 1 and the list stays numbered from one |
| `ChoicesRoute.DeleteNarrowsList` | src/app/api/questions/choices/route.ts:106 | a delete removes exactly that choice from its question's list and keeps the order of the rest |
| `ChoicesRoute.DeleteThenPostRepeatsPosition` | src/app/api/questions/choices/route.ts:41-46 | after deleting the first of choices 1, 2, 3, the next POST numbers its choice 3, next to the existing 3 |
| `QuestionChoicesRoute.Added` | src/app/api/questions/question-choices/route.ts:22 | the new row has the request's question and text, `order_index` 1 when absent or 0 (the request's value otherwise) and `is_correct` coerced to a boolean |
| `QuestionChoicesRoute.Post` | src/app/api/questions/question-choices/route.ts:12-32 | keeps `Valid`; missing `question_id` or `choice_text`: 400, unchanged; insert failure: 500, unchanged; otherwise 200 and the row is appended with id `Decimal(nextId)`, which no stored choice has |
| `QuestionChoicesRoute.Put` | src/app/api/questions/question-choices/route.ts:37-55 | no id: 400 "Missing choice ID."; failure: 500; otherwise text, correctness and position of the rows with that id are updated where the request carries them; keeps `Valid` |
| `QuestionChoicesRoute.Delete` | src/app/api/questions/question-choices/route.ts:60-75 | no id in the JSON body: 400; failure: 500; otherwise exactly the rows with that id are removed; keeps `Valid` |
| `QuestionChoicesRoute.PutKeepsQuestionLists` | src/app/api/questions/question-choices/route.ts:44-47 | a PUT keeps each question's list of choices at the same length and ids |
| `QuestionChoicesRoute.PutWithStoredValuesChangesNothing` | src/app/api/questions/question-choices/route.ts:44-47 | updating a choice with the values it holds leaves the table unchanged |
| `LessonContentRoute.Get` | src/app/api/lesson-content/route.ts:19-78 | no `lesson_id`: 400; the first failed read (lesson, videos, slides, flashcards, questions) gives 500 with the error's message, or "Internal Server Error" when it is empty; 200 iff all reads succeed, with exactly their rows |
| `LessonContentRoute.Read` | src/app/api/lesson-content/route.ts:84-103 | a body that is neither JSON nor multipart leaves every field empty; only a multipart body yields the slide file |
| `LessonContentRoute.SlideProblem` | src/app/api/lesson-content/route.ts:147-152 | a slide is refused iff its type is not pdf, png, jpeg or jpg ("Unsupported file type") or it is larger than 5 MB ("File too large (max 5 MB)") |
| `LessonContentRoute.Respond` | src/app/api/lesson-content/route.ts:105-201 | the specification of PUT after reading: no lesson id gives 400 and no writes; a failed video upsert 500 and no writes; a failed flashcard upsert 500 after the video write; without a slide 200 after the URL upserts; with one, the slide step |
| `LessonContentRoute.StoreSlide` | src/app/api/lesson-content/route.ts:143-193 | the specification of the slide step: a refused file gives 400; the old file is removed unless its removal fails; a failed upload 500; a failed slide upsert 500 after the upload; otherwise 200 with the public URL after the upload and the slide row |
| `LessonContentRoute.Response` | src/app/api/lesson-content/route.ts:82-206 | the specification of PUT: `Respond` applied to what `Read` takes from the body |
| `LessonContentRoute.Put` | src/app/api/lesson-content/route.ts:82-206 | the reply and the ordered writes of PUT are those of the specification `Response` |
| `LessonContentRoute.ReadBody` | src/app/api/lesson-content/route.ts:84-103 | reassigning the variables by content type yields `Read` of the request |
| `LessonContentRoute.Apply` | src/app/api/lesson-content/route.ts:105-201 | the lesson check, the two upserts and the slide step give the reply and writes of `Respond` |
| `LessonContentRoute.UploadSlide` | src/app/api/lesson-content/route.ts:143-193 | the type and size checks, removal, upload and slide upsert give the reply and writes of `StoreSlide` |
| `LessonContentRoute.UnknownBodyIsRejected` | src/app/api/lesson-content/route.ts:84-110 | a body neither JSON nor multipart gets 400 and nothing is written |
| `LessonContentRoute.MissingLessonWritesNothing` | src/app/api/lesson-content/route.ts:105-110 | a missing `lesson_id` gets 400 before any write |
| `LessonContentRoute.SlideWritesConcernTheLesson` | src/app/api/lesson-content/route.ts:143-193 | the slide step's writes are keyed on the lesson, lie under `lesson-<id>/`, or remove the file the lesson's stored slide row names |
| `LessonContentRoute.WritesConcernTheLesson` | src/app/api/lesson-content/route.ts:112-193 | every write of PUT concerns the request's lesson: the upserts are keyed on it, the upload lies under `lesson-<id>/`, and the only file removed is the one the lesson's stored slide row names |
| `LessonContentRoute.StoreSlideAddsFileWrites` | src/app/api/lesson-content/route.ts:143-193 | the slide step keeps the earlier writes and adds only file writes |
| `LessonContentRoute.UrlWrites` | src/app/api/lesson-content/route.ts:112-141 | with a lesson id, the URL upserts made are none (video fails), the video's (flashcard fails) or both; every other write is a file write |
| `LessonContentRoute.VideoWrittenIffUrlGiven` | src/app/api/lesson-content/route.ts:113-125 | the video row is written iff a video URL is given and its upsert succeeds, and always with that URL |
| `LessonContentRoute.FlashcardWrittenIffUrlGiven` | src/app/api/lesson-content/route.ts:128-141 | the flashcard row is written iff a flashcard URL is given and the upserts succeed, always with word "Flashcard Link" and the URL as translation |
| `LessonContentRoute.RefusedSlideKeepsEarlierWrites` | src/app/api/lesson-content/route.ts:145-152 | a refused slide answers 400 and keeps the video and flashcard writes already made, and nothing else |
| `LessonContentRoute.SizeLimitIsInclusive` | src/app/api/lesson-content/route.ts:150-152 | a slide of exactly 5 MB is accepted; one byte more is refused |
| `LessonContentRoute.FailedUploadLosesOldSlide` | src/app/api/lesson-content/route.ts:161-171 | when the upload fails after the old file was removed, the removal stands and no slide row is written |
| `LessonContentRoute.SlideUrlIffSlideStored` | src/app/api/lesson-content/route.ts:195-201 | a successful PUT answers 200 and carries `slide_url` iff a slide row was written, and then it is the public URL |
| `CourseEditor.RenamedModules` | src/app/admin/mgmt/page.tsx:148-151 | same length, order and ids; exactly the modules with that id take the new title |
| `CourseEditor.RenamedLessons` | src/app/admin/mgmt/page.tsx:152-155 | same length, order, ids and positions; exactly the lessons with that id take the new title |
| `CourseEditor.EditTouchesOneField` | src/app/admin/mgmt/page.tsx:158-161 | a content edit changes at most the field it names, and that field then holds the new value |
| `CourseEditor.SavePlan` | src/app/admin/mgmt/page.tsx:302-344 | one request per module and per lesson, plus one when a lesson is selected |
| `CourseEditor.SavePlanOrder` | src/app/admin/mgmt/page.tsx:302-344 | module i is request i, lesson j follows all modules, the content form comes last and is sent only when a lesson is selected |
| `CourseEditor.ModulePuts` | src/app/admin/mgmt/page.tsx:302-311 | one PUT per module in list order |
| `CourseEditor.LessonPuts` | src/app/admin/mgmt/page.tsx:314-323 | one PUT per lesson in list order |
| `CourseEditor.Editor.constructor` | src/app/admin/mgmt/page.tsx:27-41 | empty lists, no selection, a blank content form and no unsaved changes |
| `CourseEditor.Editor.SelectModule` | src/app/admin/mgmt/page.tsx:382-385 | a module click selects it and clears the lesson selection |
| `CourseEditor.Editor.SelectLesson` | src/app/admin/mgmt/page.tsx:459 | a lesson click selects it |
| `CourseEditor.Editor.HandleModuleTitleChange` | src/app/admin/mgmt/page.tsx:148-151 | the modules are renamed by id and unsaved changes are flagged; the rest is unchanged |
| `CourseEditor.Editor.HandleLessonTitleChange` | src/app/admin/mgmt/page.tsx:152-155 | the lessons are renamed by id and unsaved changes are flagged; the rest is unchanged |
| `CourseEditor.Editor.HandleContentChange` | src/app/admin/mgmt/page.tsx:158-161 | the content form takes the edit and unsaved changes are flagged; the rest is unchanged |
| `CourseEditor.Editor.AddModule` | src/app/admin/mgmt/page.tsx:164-191 | without a session nothing is sent; otherwise the request asks for level `modules.length + 1`, and on success the module is appended and selected, the lessons emptied and the lesson selection cleared |
| `CourseEditor.Editor.DeleteModule` | src/app/admin/mgmt/page.tsx:194-229 | an empty id, a declined confirmation or no session sends nothing and changes nothing; on success every module with that id is removed and, if it was selected, the selection is cleared and the lessons emptied |
| `CourseEditor.Editor.AddLesson` | src/app/admin/mgmt/page.tsx:233-259 | needs a session and a selected module; requests `order_index = lessons.length + 1`; on success appends and selects the lesson |
| `CourseEditor.Editor.DeleteLesson` | src/app/admin/mgmt/page.tsx:261-285 | a declined confirmation or no session sends nothing; on success every lesson with that id is removed and its selection cleared |
| `CourseEditor.Editor.SaveAllChanges` | src/app/admin/mgmt/page.tsx:297-352 | without a session nothing is sent; otherwise the plan is sent in order; if a fetch rejects, the requests up to it are sent and the state is unchanged; on completion the unsaved-changes flag is cleared |
| `CourseEditor.SendAll` | src/app/admin/mgmt/page.tsx:302-344 | the three loops send the whole plan, or the plan up to and including the rejected fetch, and report which |
| `CourseEditor.SendEach` | src/app/admin/mgmt/page.tsx:302-311 | one loop sends its requests after the earlier ones and stops after the rejected fetch |
| `CourseEditor.DeleteUndoesAdd` | src/app/admin/mgmt/page.tsx:218 | deleting the item just appended, when its id was new, gives back the list as it was |
| `CourseEditor.FormTypeIsNotJson` | src/app/api/lesson-content/route.ts:92-97 | "multipart/form-data" does not contain "application/json", so the editor's form is read as multipart |
| `CourseEditor.SavedFormNamesTheLesson` | src/app/admin/mgmt/page.tsx:327-343 | the content form the editor sends is read by the route with the selected lesson as `lesson_id` and is never refused as missing it |

## Left out

- Authentication is not modelled. Neither are the session and `supabase.auth` calls. Whether a user is signed in is an input (`userId`, `signedIn`).
- The database and storage are not modelled as services. Reads and failures are inputs. Timestamps (`created_at`, `updated_at`) and the public URL of an upload are left out or taken as parameters. `Date.now()` in slide paths is a parameter.
- React effects, data fetching into page state, loading flags, alerts and console logging are not modelled. The home page's lists are plain fields, and the editor's fetch of lesson content is left out.
- Concurrency is not modelled:
  - the count-then-insert race in the choices POST;
  - the parallel reads of the lesson-content GET;
  - effect ordering.
- JSON `null` is treated as an absent field. The `completed` value posted to `/api/progress` is a boolean; other JSON values are not modelled.
- The shapes the client and server expect of each other do not match, and the model does not capture this:
  - the sidebar filters the `/api/modules` reply directly, though it is an object `{modules}`;
  - the editor calls POST, PUT and DELETE routes that answer 501 or do not exist.

  Each side is modelled on the shape it expects.
- `BurgerMenu.Percent` uses exact rationals. Floating-point division, `toFixed` and the bar's CSS width are left out.
- `QuestionBank.SortByOrder` is stable. The database does not promise any order among rows of equal `order_index`.
- A failed insert in the model does not consume serial ids. The real sequence may skip them.
- `QuestionsRoute.PostedChoicesReadBack` takes as a premise that no stored choice names the new question's id. The routes never check that a choice's question exists, so the tables' invariant cannot supply it (`QuestionsRoute.EarlyChoiceJoinsNextQuestion`). A foreign key in the database schema would; the schema is not part of this model.
- The multipart boundary and the parsing of request bodies are left out. A request is its fields.
- The long-answer routes (`/api/questions/long-answers`, `/api/questions/question-long-answers`) are not part of this model. They only check fields and pass them to the database.
- The UI-only pages and components are not part of this model: the sidebar's sample list, static menus, cards, modals, and the login and signup pages.
- `QuestionsRoute.PutReplacesChoices` states the numbering of the new choices through `Stamp` and `ChoiceRows`, not as a per-index clause. The positions 1..n are stated on `ChoiceRows`.
