/** The upload routes: two handlers that store a file and return its public
    path, and two that store a file and attach it to a course the caller
    owns. The attach handlers push one entry onto the course's PDF or video
    list with a single atomic update, which skips the save hook and the
    validators. */
module CourseRoutes {
  import opened Http
  import opened Upload
  import opened CourseModel
  import CourseRules
  import opened CourseController

  const CoverMissing := "Cover image is missing"
  const PdfMissing := "PDF file is missing"
  const VideoMissing := "Video file is missing"
  const VideoFailed := "Failed to upload video to course"

  function PdfUrl(filename: string): string {
    "/uploads/pdfs/" + filename
  }

  function VideoUrl(filename: string): string {
    "/uploads/videos/" + filename
  }

  function CoverUrl(filename: string): string {
    "/uploads/images/" + filename
  }

  /** The path under which the static file server serves a stored file. */
  function ServedPath(f: StoredFile): string {
    "/" + f.destination + "/" + f.filename
  }

  /** POST /upload-cover: the public path of the stored image. */
  function UploadCover(file: Option<IncomingFile>, suffix: string): (r: Outcome<string>)
    ensures file.None? ==> r == Fail(BadRequest, CoverMissing)
    ensures file.Some? && file.value.mimetype !in AllowedTypes ==>
              r == Fail(ServerError, "Unsupported file type: " + file.value.mimetype)
    ensures r.Ok? <==> file.Some? && file.value.mimetype in AllowedTypes
    ensures r.Ok? ==> r.value == CoverUrl(StoredFilename(file.value.originalname, suffix))
  {
    match Receive(file, suffix)
    case Fail(status, message) => Fail(status, message)
    case Ok(None) => Fail(BadRequest, CoverMissing)
    case Ok(Some(stored)) => Ok(CoverUrl(stored.filename))
  }

  /** POST /upload-pdf: the public path of the stored file. */
  function UploadPdf(file: Option<IncomingFile>, suffix: string): (r: Outcome<string>)
    ensures file.None? ==> r == Fail(BadRequest, PdfMissing)
    ensures file.Some? && file.value.mimetype !in AllowedTypes ==>
              r == Fail(ServerError, "Unsupported file type: " + file.value.mimetype)
    ensures r.Ok? <==> file.Some? && file.value.mimetype in AllowedTypes
    ensures r.Ok? ==> r.value == PdfUrl(StoredFilename(file.value.originalname, suffix))
  {
    match Receive(file, suffix)
    case Fail(status, message) => Fail(status, message)
    case Ok(None) => Fail(BadRequest, PdfMissing)
    case Ok(Some(stored)) => Ok(PdfUrl(stored.filename))
  }

  lemma SameSuffix(a: string, b: string, x: string)
    ensures a + x == b + x <==> a == b
  {
    if a + x == b + x {
      assert |a| == |b|;
      assert forall i :: 0 <= i < |a| ==> a[i] == (a + x)[i] && b[i] == (b + x)[i];
    }
  }

  lemma Enclosed(a: string, b: string)
    ensures "/" + a + "/" == "/" + b + "/" <==> a == b
  {
    if "/" + a + "/" == "/" + b + "/" {
      assert a == ("/" + a + "/")[1..|a| + 1];
      assert b == ("/" + b + "/")[1..|b| + 1];
    }
  }

  /** A path built from a folder names a stored file exactly when the file
      was stored in that folder. */
  lemma ServedUnder(folder: string, f: StoredFile)
    ensures "/" + folder + "/" + f.filename == ServedPath(f) <==> f.destination == folder
  {
    SameSuffix("/" + folder + "/", "/" + f.destination + "/", f.filename);
    Enclosed(folder, f.destination);
  }

  /** The path a PDF route returns names the folder the file was stored in
      only when the file is a PDF. The route accepts any listed type, and an
      image sent under the PDF field is stored among the images. */
  lemma PdfPathNamesStoredFolder(s: StoredFile)
    requires s.destination == Destination(s.mimetype)
    ensures PdfUrl(s.filename) == ServedPath(s) <==> s.mimetype == "application/pdf"
  {
    assert PdfUrl(s.filename) == "/" + "uploads/pdfs" + "/" + s.filename;
    ServedUnder("uploads/pdfs", s);
    PdfFolderIsForPdfOnly(s.mimetype);
  }

  /** The same for the cover route and images. */
  lemma CoverPathNamesStoredFolder(s: StoredFile)
    requires s.destination == Destination(s.mimetype)
    ensures CoverUrl(s.filename) == ServedPath(s) <==> "image/" <= s.mimetype
  {
    assert CoverUrl(s.filename) == "/" + "uploads/images" + "/" + s.filename;
    ServedUnder("uploads/images", s);
    DestinationByPrefix(s.mimetype);
  }

  /** The course with one more PDF at the end and nothing else changed. */
  function WithPdf(c: Course, item: PdfItem): (r: Course)
    ensures r.pdfs == c.pdfs + [item]
    ensures r.(pdfs := c.pdfs) == c
  {
    c.(pdfs := c.pdfs + [item])
  }

  /** The course with one more video at the end and nothing else changed. */
  function WithVideo(c: Course, item: VideoItem): (r: Course)
    ensures r.videos == c.videos + [item]
    ensures r.(videos := c.videos) == c
  {
    c.(videos := c.videos + [item])
  }

  /** The PDF and video lists carry no constraint, so attaching keeps a
      course well formed. */
  lemma AttachKeepsWellFormed(c: Course, pdf: PdfItem, video: VideoItem)
    requires WellFormed(c)
    ensures WellFormed(WithPdf(c, pdf)) && WellFormed(WithVideo(c, video))
  {
  }

  /** POST /course/:id/upload-pdf. The file is checked first, then the
      course, then its owner; the entry's title is the file's original name. */
  method AttachPdf(store: CourseStore, id: CourseId, caller: UserId, file: Option<IncomingFile>, suffix: string, now: int)
    returns (r: Outcome<Course>)
    requires store.Valid()
    modifies store
    ensures store.Valid()
    ensures Receive(file, suffix).Fail? ==> r == Fail(ServerError, Receive(file, suffix).message)
    ensures file.None? ==> r == Fail(BadRequest, PdfMissing)
    ensures Receive(file, suffix).Ok? && file.Some? && id !in old(store.courses) ==> r == Fail(NotFound, CourseNotFound)
    ensures Receive(file, suffix).Ok? && file.Some? && id in old(store.courses) && old(store.courses)[id].createdBy != caller ==>
              r == Fail(Forbidden, CourseRules.Unauthorized)
    ensures r.Ok? ==>
              && Receive(file, suffix).Ok? && file.Some?
              && id in old(store.courses) && old(store.courses)[id].createdBy == caller
              && r.value == WithPdf(old(store.courses)[id],
                                    PdfItem(file.value.originalname, PdfUrl(StoredFilename(file.value.originalname, suffix)), now))
              && store.courses == old(store.courses)[id := r.value]
    ensures Receive(file, suffix).Ok? && file.Some? && id in old(store.courses) && old(store.courses)[id].createdBy == caller ==> r.Ok?
    ensures r.Fail? ==> store.courses == old(store.courses)
  {
    var received := Receive(file, suffix);
    if received.Fail? {
      return Fail(ServerError, received.message);
    }
    if received.value.None? {
      return Fail(BadRequest, PdfMissing);
    }
    var stored := received.value.value;
    if id !in store.courses {
      return Fail(NotFound, CourseNotFound);
    }
    var course := store.courses[id];
    if course.createdBy != caller {
      return Fail(Forbidden, CourseRules.Unauthorized);
    }
    var item := PdfItem(stored.originalname, PdfUrl(stored.filename), now);
    var updated := WithPdf(course, item);
    AttachKeepsWellFormed(course, item, VideoItem("", "", 0.0, now));
    StoreKeepsValid(store.courses, id, updated);
    store.courses := store.courses[id := updated];
    r := Ok(updated);
  }

  /** POST /course/:id/upload-video. The entry's title is the given title,
      or else the file's original name; its duration is the given one, or
      else 0. The form fields are strings; a duration that is not a number
      fails to cast in the update, which the handler answers with 500. */
  method AttachVideo(store: CourseStore, id: CourseId, caller: UserId, title: Option<string>, duration: Option<string>,
                     file: Option<IncomingFile>, suffix: string, now: int)
    returns (r: Outcome<Course>)
    requires store.Valid()
    modifies store
    ensures store.Valid()
    ensures Receive(file, suffix).Fail? ==> r == Fail(ServerError, Receive(file, suffix).message)
    ensures file.None? ==> r == Fail(BadRequest, VideoMissing)
    ensures Receive(file, suffix).Ok? && file.Some? && id !in old(store.courses) ==> r == Fail(NotFound, CourseNotFound)
    ensures Receive(file, suffix).Ok? && file.Some? && id in old(store.courses) && old(store.courses)[id].createdBy != caller ==>
              r == Fail(Forbidden, CourseRules.Unauthorized)
    ensures (&& Receive(file, suffix).Ok? && file.Some? && id in old(store.courses) && old(store.courses)[id].createdBy == caller
             && OrNumber(duration, 0.0).None?) ==>
              r == Fail(ServerError, VideoFailed)
    ensures r.Ok? ==>
              && Receive(file, suffix).Ok? && file.Some?
              && id in old(store.courses) && old(store.courses)[id].createdBy == caller
              && OrNumber(duration, 0.0).Some?
              && r.value == WithVideo(old(store.courses)[id],
                                      VideoItem(if TruthyString(title) then title.value else file.value.originalname,
                                                VideoUrl(StoredFilename(file.value.originalname, suffix)),
                                                OrNumber(duration, 0.0).value,
                                                now))
              && store.courses == old(store.courses)[id := r.value]
    ensures (&& Receive(file, suffix).Ok? && file.Some? && id in old(store.courses) && old(store.courses)[id].createdBy == caller
             && OrNumber(duration, 0.0).Some?) ==>
              r.Ok?
    ensures r.Fail? ==> store.courses == old(store.courses)
  {
    var received := Receive(file, suffix);
    if received.Fail? {
      return Fail(ServerError, received.message);
    }
    if received.value.None? {
      return Fail(BadRequest, VideoMissing);
    }
    var stored := received.value.value;
    if id !in store.courses {
      return Fail(NotFound, CourseNotFound);
    }
    var course := store.courses[id];
    if course.createdBy != caller {
      return Fail(Forbidden, CourseRules.Unauthorized);
    }
    var videoTitle := if TruthyString(title) then title.value else stored.originalname;
    var videoDuration := OrNumber(duration, 0.0);
    if videoDuration.None? {
      return Fail(ServerError, VideoFailed);
    }
    var item := VideoItem(videoTitle, VideoUrl(stored.filename), videoDuration.value, now);
    var updated := WithVideo(course, item);
    AttachKeepsWellFormed(course, PdfItem("", "", now), item);
    StoreKeepsValid(store.courses, id, updated);
    store.courses := store.courses[id := updated];
    r := Ok(updated);
  }
}
