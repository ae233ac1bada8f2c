/** /api/lesson-content: GET gathers a lesson with its videos, slides,
    flashcards and questions; PUT reads the lesson id, video URL, flashcard
    URL and slide file from a JSON or multipart body and writes each of them
    in turn, checking the slide's type and size before it is stored. */
module LessonContentRoute {
  import opened Common

  /** The slide MIME types PUT accepts. */
  const AllowedTypes: seq<string> := ["application/pdf", "image/png", "image/jpeg", "image/jpg"]

  /** The largest slide PUT accepts, in bytes: 5 MB. */
  const MaxFileSize: nat := 5 * 1024 * 1024

  /** The storage bucket used when the deployment names none. */
  const DefaultBucket: string := "lesson-slides"

  const JsonType: string := "application/json"
  const FormType: string := "multipart/form-data"

  /** `err.message || "Internal Server Error"`. */
  function InternalError(message: string): string
  {
    if message == "" then "Internal Server Error" else message
  }

  /** What GET returns: the lesson row and the rows linked to it. */
  datatype Content<L, V, S, F, Q> = Content(lesson: L, videos: V, slides: S, flashcards: F, questions: Q)

  /** The GET handler. The five reads are its inputs; the first failed one,
      in the order lesson, videos, slides, flashcards, questions, decides
      the error. */
  function Get<L, V, S, F, Q>(lessonId: Option<Id>, lesson: Fetch<L>, videos: Fetch<V>, slides: Fetch<S>,
                              flashcards: Fetch<F>, questions: Fetch<Q>): (r: Reply<Content<L, V, S, F, Q>>)
    ensures !Given(lessonId) ==> r == Err(400, "Missing lesson_id parameter")
    ensures Given(lessonId) && lesson.StorageError? ==> r == Err(500, InternalError(lesson.message))
    ensures Given(lessonId) && lesson.Rows? && videos.StorageError? ==> r == Err(500, InternalError(videos.message))
    ensures Given(lessonId) && lesson.Rows? && videos.Rows? && slides.StorageError? ==>
              r == Err(500, InternalError(slides.message))
    ensures Given(lessonId) && lesson.Rows? && videos.Rows? && slides.Rows? && flashcards.StorageError? ==>
              r == Err(500, InternalError(flashcards.message))
    ensures (Given(lessonId) && lesson.Rows? && videos.Rows? && slides.Rows? && flashcards.Rows?
             && questions.StorageError?) ==> r == Err(500, InternalError(questions.message))
    ensures r.Ok? <==> Given(lessonId) && lesson.Rows? && videos.Rows? && slides.Rows? && flashcards.Rows? && questions.Rows?
    ensures r.Ok? ==> r.status == 200 && r.body == Content(lesson.rows, videos.rows, slides.rows, flashcards.rows, questions.rows)
  {
    if !Given(lessonId) then Err(400, "Missing lesson_id parameter")
    else if lesson.StorageError? then Err(500, InternalError(lesson.message))
    else if videos.StorageError? then Err(500, InternalError(videos.message))
    else if slides.StorageError? then Err(500, InternalError(slides.message))
    else if flashcards.StorageError? then Err(500, InternalError(flashcards.message))
    else if questions.StorageError? then Err(500, InternalError(questions.message))
    else Ok(200, Content(lesson.rows, videos.rows, slides.rows, flashcards.rows, questions.rows))
  }

  /** An uploaded slide as the form data describes it. */
  datatype SlideFile = SlideFile(name: string, mimeType: string, size: nat)

  /** A PUT request: its content-type header and the fields of its body,
      however encoded; `None` marks an absent field. */
  datatype ContentRequest = ContentRequest(contentType: Option<string>, lessonId: Option<Id>, videoUrl: Option<string>,
                                           flashcardUrl: Option<string>, slideFile: Option<SlideFile>)

  /** What PUT learns from outside: the configured bucket, the stored path
      of the lesson's current slide (absent also when that read fails), the
      clock in milliseconds, and the public URL storage gives the new file. */
  datatype Storage = Storage(bucketSetting: Option<string>, existingPath: Option<string>, now: nat, publicUrl: string)

  /** The calls of PUT that can fail. */
  datatype Step = VideoUpsert | FlashcardUpsert | Remove | Upload | SlideUpsert

  /** A write that took effect, in the order PUT makes them. */
  datatype Write =
    | UpsertVideo(lessonId: Id, videoUrl: string)
    | UpsertFlashcard(lessonId: Id, word: string, translation: string)
    | RemoveFile(bucket: string, path: string)
    | UploadFile(bucket: string, path: string)
    | UpsertSlide(lessonId: Id, slideUrl: string, bucket: string, filePath: string)

  /** The reply of PUT (carrying `slide_url` on success) and its writes. */
  datatype Outcome = Outcome(reply: Reply<Option<string>>, writes: seq<Write>)

  /** `part` occurs in `s` from index `i` on. */
  predicate OccursAt(s: string, part: string, i: nat)
  {
    i + |part| <= |s| && s[i..i + |part|] == part
  }

  /** `s.includes(part)`. */
  predicate Contains(s: string, part: string)
  {
    exists i :: 0 <= i <= |s| && OccursAt(s, part, i)
  }

  /** The values of the handler's variables once the body is read: JSON
      first, then multipart; any other content type leaves them all empty.
      Only a multipart body carries a file. */
  datatype Fields = Fields(lessonId: Id, videoUrl: string, flashcardUrl: string, slide: Option<SlideFile>)

  function Read(req: ContentRequest): (f: Fields)
    ensures !Contains(OrEmpty(req.contentType), JsonType) && !Contains(OrEmpty(req.contentType), FormType) ==>
              f == Fields("", "", "", None)
    ensures f.slide.Some? ==> Contains(OrEmpty(req.contentType), FormType) && f.slide == req.slideFile
  {
    var contentType := OrEmpty(req.contentType);
    if Contains(contentType, JsonType) then
      Fields(OrEmpty(req.lessonId), OrEmpty(req.videoUrl), OrEmpty(req.flashcardUrl), None)
    else if Contains(contentType, FormType) then
      Fields(OrEmpty(req.lessonId), OrEmpty(req.videoUrl), OrEmpty(req.flashcardUrl), req.slideFile)
    else Fields("", "", "", None)
  }

  /** The reason a slide is refused, if it is. */
  function SlideProblem(file: SlideFile): (p: Option<string>)
    ensures p.None? <==> file.mimeType in AllowedTypes && file.size <= MaxFileSize
    ensures file.mimeType !in AllowedTypes ==> p == Some("Unsupported file type")
    ensures file.mimeType in AllowedTypes && file.size > MaxFileSize ==> p == Some("File too large (max 5 MB)")
  {
    if file.mimeType !in AllowedTypes then Some("Unsupported file type")
    else if file.size > MaxFileSize then Some("File too large (max 5 MB)")
    else None
  }

  function BucketName(storage: Storage): string
  {
    if Given(storage.bucketSetting) then storage.bucketSetting.value else DefaultBucket
  }

  /** `lesson-<id>/<now>-<file name>`. */
  function FilePath(lessonId: Id, now: nat, name: string): string
  {
    "lesson-" + lessonId + "/" + Decimal(now) + "-" + name
  }

  /** The video upsert, made when the body names a video URL. */
  function VideoWrites(f: Fields): seq<Write>
  {
    if f.videoUrl != "" then [UpsertVideo(f.lessonId, f.videoUrl)] else []
  }

  /** The flashcard upsert, made when the body names a flashcard URL. */
  function CardWrites(f: Fields): seq<Write>
  {
    if f.flashcardUrl != "" then [UpsertFlashcard(f.lessonId, "Flashcard Link", f.flashcardUrl)] else []
  }

  /** What PUT does once the body is read, as a specification: the reply
      and the writes, in order. */
  function Respond(f: Fields, storage: Storage, faults: map<Step, string>): Outcome
  {
    if f.lessonId == "" then Outcome(Err(400, "Missing required field: lesson_id"), [])
    else if f.videoUrl != "" && VideoUpsert in faults then Outcome(Err(500, faults[VideoUpsert]), [])
    else if f.flashcardUrl != "" && FlashcardUpsert in faults then Outcome(Err(500, faults[FlashcardUpsert]), VideoWrites(f))
    else
      match f.slide
      case None => Outcome(Ok(200, None), VideoWrites(f) + CardWrites(f))
      case Some(file) => StoreSlide(f.lessonId, file, storage, faults, VideoWrites(f) + CardWrites(f))
  }

  /** The slide step, after the writes `before`: check the file, remove
      the old one, upload, and record the new slide row. */
  function StoreSlide(lessonId: Id, file: SlideFile, storage: Storage, faults: map<Step, string>,
                      before: seq<Write>): Outcome
  {
    if SlideProblem(file).Some? then Outcome(Err(400, SlideProblem(file).value), before)
    else
      var bucket := BucketName(storage);
      var removal := if Given(storage.existingPath) && Remove !in faults
                     then [RemoveFile(bucket, storage.existingPath.value)] else [];
      var path := FilePath(lessonId, storage.now, file.name);
      if Upload in faults then Outcome(Err(500, faults[Upload]), before + removal)
      else if SlideUpsert in faults then
        Outcome(Err(500, faults[SlideUpsert]), before + removal + [UploadFile(bucket, path)])
      else
        Outcome(Ok(200, Some(storage.publicUrl)),
                before + removal + [UploadFile(bucket, path), UpsertSlide(lessonId, storage.publicUrl, bucket, path)])
  }

  /** What PUT does, as a specification. */
  function Response(req: ContentRequest, storage: Storage, faults: map<Step, string>): Outcome
  {
    Respond(Read(req), storage, faults)
  }

  /** The PUT handler: it reads the body, then acts on what it read. */
  method Put(req: ContentRequest, storage: Storage, faults: map<Step, string>)
    returns (r: Reply<Option<string>>, writes: seq<Write>)
    ensures Outcome(r, writes) == Response(req, storage, faults)
  {
    var f := ReadBody(req);
    r, writes := Apply(f, storage, faults);
  }

  /** The first half of PUT, step by step as it reassigns its variables:
      the imperative form of `Read`, proved equal to it. */
  method ReadBody(req: ContentRequest) returns (f: Fields)
    ensures f == Read(req)
  {
    var contentType := OrEmpty(req.contentType);
    var lessonId := "";
    var videoUrl := "";
    var flashcardUrl := "";
    var slideFile: Option<SlideFile> := None;
    if Contains(contentType, JsonType) {
      lessonId := OrEmpty(req.lessonId);
      videoUrl := OrEmpty(req.videoUrl);
      flashcardUrl := OrEmpty(req.flashcardUrl);
    } else if Contains(contentType, FormType) {
      lessonId := OrEmpty(req.lessonId);
      videoUrl := OrEmpty(req.videoUrl);
      flashcardUrl := OrEmpty(req.flashcardUrl);
      slideFile := req.slideFile;
    }
    f := Fields(lessonId, videoUrl, flashcardUrl, slideFile);
  }

  /** The second half of PUT: the upserts and the slide step, stopping at
      the first failed call other than the removal of the old file. It is
      the imperative form of `Respond`, proved equal to it. */
  method Apply(f: Fields, storage: Storage, faults: map<Step, string>)
    returns (r: Reply<Option<string>>, writes: seq<Write>)
    ensures Outcome(r, writes) == Respond(f, storage, faults)
  {
    writes := [];
    if f.lessonId == "" {
      r := Err(400, "Missing required field: lesson_id");
      return;
    }
    if f.videoUrl != "" {
      if VideoUpsert in faults {
        r := Err(500, faults[VideoUpsert]);
        return;
      }
      writes := writes + [UpsertVideo(f.lessonId, f.videoUrl)];
    }
    assert writes == VideoWrites(f);
    if f.flashcardUrl != "" {
      if FlashcardUpsert in faults {
        r := Err(500, faults[FlashcardUpsert]);
        return;
      }
      writes := writes + [UpsertFlashcard(f.lessonId, "Flashcard Link", f.flashcardUrl)];
    }
    assert writes == VideoWrites(f) + CardWrites(f);
    if f.slide.None? {
      r := Ok(200, None);
      return;
    }
    r, writes := UploadSlide(f.lessonId, f.slide.value, storage, faults, writes);
  }

  /** The slide step of PUT after the writes `before`: the type and size
      checks, the removal of the old file, the upload and the slide row. It
      is the imperative form of `StoreSlide`, proved equal to it. */
  method UploadSlide(lessonId: Id, file: SlideFile, storage: Storage, faults: map<Step, string>, before: seq<Write>)
    returns (r: Reply<Option<string>>, writes: seq<Write>)
    ensures Outcome(r, writes) == StoreSlide(lessonId, file, storage, faults, before)
  {
    writes := before;
    if file.mimeType !in AllowedTypes {
      r := Err(400, "Unsupported file type");
      return;
    }
    if file.size > MaxFileSize {
      r := Err(400, "File too large (max 5 MB)");
      return;
    }
    var bucket := BucketName(storage);
    if Given(storage.existingPath) && Remove !in faults {
      writes := writes + [RemoveFile(bucket, storage.existingPath.value)];
    }
    var path := FilePath(lessonId, storage.now, file.name);
    if Upload in faults {
      r := Err(500, faults[Upload]);
      return;
    }
    writes := writes + [UploadFile(bucket, path)];
    var slideUrl := storage.publicUrl;
    if SlideUpsert in faults {
      r := Err(500, faults[SlideUpsert]);
      return;
    }
    writes := writes + [UpsertSlide(lessonId, slideUrl, bucket, path)];
    r := Ok(200, Some(slideUrl));
  }

  /** A body that is neither JSON nor multipart leaves the lesson id empty:
      400, and nothing is written. */
  lemma UnknownBodyIsRejected(req: ContentRequest, storage: Storage, faults: map<Step, string>)
    requires !Contains(OrEmpty(req.contentType), JsonType) && !Contains(OrEmpty(req.contentType), FormType)
    ensures Response(req, storage, faults) == Outcome(Err(400, "Missing required field: lesson_id"), [])
  {
  }

  /** A missing lesson id is refused before any write. */
  lemma MissingLessonWritesNothing(req: ContentRequest, storage: Storage, faults: map<Step, string>)
    requires !Given(req.lessonId)
    ensures Response(req, storage, faults) == Outcome(Err(400, "Missing required field: lesson_id"), [])
  {
  }

  /** A write concerns the lesson: an upsert keyed on it, a file uploaded
      under `lesson-<id>/`, or the removal of the file that the lesson's own
      `slides` row names (`existingPath`, read by `lesson_id`). */
  predicate ConcernsLesson(w: Write, lessonId: Id, existingPath: Option<string>)
  {
    && (w.UpsertVideo? || w.UpsertFlashcard? || w.UpsertSlide? ==> w.lessonId == lessonId)
    && (w.UploadFile? ==> "lesson-" + lessonId + "/" <= w.path)
    && (w.RemoveFile? ==> existingPath == Some(w.path))
  }

  /** The slide step adds only writes that concern the lesson. */
  lemma SlideWritesConcernTheLesson(lessonId: Id, file: SlideFile, storage: Storage, faults: map<Step, string>,
                                    before: seq<Write>)
    requires forall w :: w in before ==> ConcernsLesson(w, lessonId, storage.existingPath)
    ensures forall w :: w in StoreSlide(lessonId, file, storage, faults, before).writes ==>
              ConcernsLesson(w, lessonId, storage.existingPath)
  {
    var path := FilePath(lessonId, storage.now, file.name);
    assert path == ("lesson-" + lessonId + "/") + (Decimal(storage.now) + "-" + file.name);
  }

  /** Every write PUT makes concerns the request's lesson: the upserts are
      keyed on it, the uploaded file lies under `lesson-<id>/`, and the only
      file removed is the one the lesson's stored slide row names. */
  lemma {:induction false} WritesConcernTheLesson(req: ContentRequest, storage: Storage, faults: map<Step, string>)
    ensures forall w :: w in Response(req, storage, faults).writes ==>
              ConcernsLesson(w, Read(req).lessonId, storage.existingPath)
  {
    var f := Read(req);
    if f.lessonId != "" && !(f.videoUrl != "" && VideoUpsert in faults)
       && !(f.flashcardUrl != "" && FlashcardUpsert in faults) && f.slide.Some? {
      var video := if f.videoUrl != "" then [UpsertVideo(f.lessonId, f.videoUrl)] else [];
      var card := if f.flashcardUrl != "" then [UpsertFlashcard(f.lessonId, "Flashcard Link", f.flashcardUrl)] else [];
      SlideWritesConcernTheLesson(f.lessonId, f.slide.value, storage, faults, video + card);
    }
  }

  /** A write of the slide step: the removal, the upload or the slide row. */
  predicate FileWrite(w: Write)
  {
    w.RemoveFile? || w.UploadFile? || w.UpsertSlide?
  }

  /** The slide step keeps the writes made before it and adds only file writes. */
  lemma StoreSlideAddsFileWrites(lessonId: Id, file: SlideFile, storage: Storage, faults: map<Step, string>,
                                 before: seq<Write>)
    ensures forall w :: w in before ==> w in StoreSlide(lessonId, file, storage, faults, before).writes
    ensures forall w :: w in StoreSlide(lessonId, file, storage, faults, before).writes ==> w in before || FileWrite(w)
  {
  }

  /** The URL writes of a request whose lesson id is given: none when the
      video upsert fails, the video write when the flashcard upsert fails,
      both otherwise; every other write is a file write. */
  lemma {:induction false} UrlWrites(f: Fields, storage: Storage, faults: map<Step, string>)
    requires f.lessonId != ""
    ensures var o := Respond(f, storage, faults);
            var made := if f.videoUrl != "" && VideoUpsert in faults then []
                        else if f.flashcardUrl != "" && FlashcardUpsert in faults then VideoWrites(f)
                        else VideoWrites(f) + CardWrites(f);
            && (forall w :: w in made ==> w in o.writes)
            && (forall w :: w in o.writes ==> w in made || FileWrite(w))
  {
    if !(f.videoUrl != "" && VideoUpsert in faults) && !(f.flashcardUrl != "" && FlashcardUpsert in faults) && f.slide.Some? {
      StoreSlideAddsFileWrites(f.lessonId, f.slide.value, storage, faults, VideoWrites(f) + CardWrites(f));
    }
  }

  /** The video row is written exactly when the request names a video URL
      (and the upsert succeeds), with that URL. */
  lemma {:induction false} VideoWrittenIffUrlGiven(req: ContentRequest, storage: Storage, faults: map<Step, string>)
    requires Read(req).lessonId != ""
    ensures var f := Read(req);
            (UpsertVideo(f.lessonId, f.videoUrl) in Response(req, storage, faults).writes
             <==> f.videoUrl != "" && VideoUpsert !in faults)
    ensures forall w :: w in Response(req, storage, faults).writes && w.UpsertVideo? ==> w.videoUrl == Read(req).videoUrl
  {
    UrlWrites(Read(req), storage, faults);
  }

  /** The flashcard row is written exactly when the request names a
      flashcard URL (and the upsert succeeds), with word "Flashcard Link"
      and the URL as its translation. */
  lemma {:induction false} FlashcardWrittenIffUrlGiven(req: ContentRequest, storage: Storage, faults: map<Step, string>)
    requires Read(req).lessonId != ""
    ensures var f := Read(req);
            (UpsertFlashcard(f.lessonId, "Flashcard Link", f.flashcardUrl) in Response(req, storage, faults).writes
             <==> f.flashcardUrl != "" && FlashcardUpsert !in faults && (f.videoUrl == "" || VideoUpsert !in faults))
    ensures forall w :: w in Response(req, storage, faults).writes && w.UpsertFlashcard? ==>
              w.word == "Flashcard Link" && w.translation == Read(req).flashcardUrl
  {
    UrlWrites(Read(req), storage, faults);
  }

  /** A refused slide answers 400 but keeps the video and flashcard writes
      already made. */
  lemma {:induction false} RefusedSlideKeepsEarlierWrites(req: ContentRequest, storage: Storage, faults: map<Step, string>)
    requires var f := Read(req); f.lessonId != "" && f.slide.Some? && SlideProblem(f.slide.value).Some?
    requires VideoUpsert !in faults && FlashcardUpsert !in faults
    ensures var f := Read(req);
            var o := Response(req, storage, faults);
            && o.reply == Err(400, SlideProblem(f.slide.value).value)
            && (f.videoUrl != "" ==> UpsertVideo(f.lessonId, f.videoUrl) in o.writes)
            && (f.flashcardUrl != "" ==> UpsertFlashcard(f.lessonId, "Flashcard Link", f.flashcardUrl) in o.writes)
            && forall w :: w in o.writes ==> w.UpsertVideo? || w.UpsertFlashcard?
  {
  }

  /** A slide of exactly 5 MB is accepted; one byte more is refused. */
  lemma SizeLimitIsInclusive(name: string, mimeType: string)
    requires mimeType in AllowedTypes
    ensures SlideProblem(SlideFile(name, mimeType, MaxFileSize)) == None
    ensures SlideProblem(SlideFile(name, mimeType, MaxFileSize + 1)) == Some("File too large (max 5 MB)")
  {
  }

  /** When the upload fails after the old file was removed, the slide row
      still names the removed file: the removal is written, the new slide
      row is not. */
  lemma FailedUploadLosesOldSlide(req: ContentRequest, storage: Storage, faults: map<Step, string>)
    requires var f := Read(req); f.lessonId != "" && f.slide.Some? && SlideProblem(f.slide.value).None?
    requires VideoUpsert !in faults && FlashcardUpsert !in faults && Remove !in faults && Upload in faults
    requires Given(storage.existingPath)
    ensures var o := Response(req, storage, faults);
            && o.reply.Err? && o.reply.status == 500
            && RemoveFile(BucketName(storage), storage.existingPath.value) in o.writes
            && forall w :: w in o.writes ==> !w.UpsertSlide?
  {
  }

  /** A successful PUT answers `slide_url` exactly when it stored a slide. */
  lemma SlideUrlIffSlideStored(req: ContentRequest, storage: Storage, faults: map<Step, string>)
    requires Response(req, storage, faults).reply.Ok?
    ensures var o := Response(req, storage, faults);
            && o.reply.status == 200
            && (o.reply.body.Some? <==> exists w :: w in o.writes && w.UpsertSlide?)
            && (o.reply.body.Some? ==> o.reply.body == Some(storage.publicUrl))
  {
    var o := Response(req, storage, faults);
    var f := Read(req);
    if f.slide.Some? {
      var file := f.slide.value;
      var bucket := BucketName(storage);
      var path := FilePath(f.lessonId, storage.now, file.name);
      assert UpsertSlide(f.lessonId, storage.publicUrl, bucket, path) in o.writes;
    }
  }
}
