/** What each course handler does to one course record: how a new course is
    built from a request, how an update merges into the stored course, the
    publish toggle, enrollment and the review upsert. Each is a function from
    the stored record (and the request) to the record that is saved, or to
    the error the handler answers with. */
module CourseRules {
  import opened Http
  import opened Strings
  import opened Sorting
  import opened CourseModel

  /** The course fields a create or update request may carry. Both routes
      take multipart form data, so every field that is sent is a string. */
  datatype CourseInput = CourseInput(
    title: Option<string>,
    description: Option<string>,
    pricingPlan: Option<string>,
    totalPrice: Option<string>,
    discountedPrice: Option<string>,
    category: Option<string>,
    level: Option<string>,
    duration: Option<string>,
    language: Option<string>,
    tags: Option<string>)

  const InternalError := "Internal server error"
  const Unauthorized := "Unauthorized"
  const UpdateFailed := "Failed to update course"
  const StatusFailed := "Failed to update course status"
  const NotPublished := "Course is not published"
  const AlreadyEnrolled := "Already enrolled in this course"
  const EnrollFailed := "Failed to enroll in course"
  const MustBeEnrolled := "Must be enrolled to review"
  const ReviewFailed := "Failed to add review"

  const ImagesUrl := "/uploads/images/"

  /** The tag list of a request: the comma-separated pieces when the field is
      a non-empty string, and no tags otherwise. */
  function TagsOf(tags: Option<string>): (r: seq<string>)
    ensures !TruthyString(tags) ==> r == []
    ensures TruthyString(tags) ==> |r| >= 1 && Join(r, ',') == tags.value
    ensures forall i :: 0 <= i < |r| ==> ',' !in r[i]
  {
    if TruthyString(tags) then Split(tags.value, ',') else []
  }

  /** `a || b` for strings. */
  function OrString(a: Option<string>, b: string): (r: string)
    ensures TruthyString(a) ==> r == a.value
    ensures !TruthyString(a) ==> r == b
  {
    if TruthyString(a) then a.value else b
  }

  /** The plan a new course gets: the schema default when none is sent. */
  function CreatePlan(plan: Option<string>): Option<PricingPlan> {
    if plan.None? then Some(DefaultPricingPlan) else ParsePricingPlan(plan.value)
  }

  /** The course createCourse builds and saves: the request's fields, the
      creation defaults, and the fields every new course starts with. cover
      is the stored name of the uploaded cover image, if one came along. */
  function Created(id: CourseId, caller: UserId, input: CourseInput, cover: Option<string>, now: int): (r: Outcome<Course>)
    ensures r.Fail? ==> r == Fail(ServerError, InternalError)
    ensures r.Ok? ==>
              && r.value.id == id
              && !r.value.isPublished
              && r.value.enrolledStudents == [] && r.value.reviews == []
              && r.value.pdfs == [] && r.value.videos == []
              && r.value.rating == 0.0
              && r.value.createdBy == caller
              && r.value.createdAt == now && r.value.lastUpdated == now
    ensures r.Ok? ==>
              && r.value.category == OrString(input.category, DefaultCategory)
              && r.value.language == OrString(input.language, DefaultLanguage)
              && input.title.Some? && r.value.title == Trim(input.title.value)
              && input.description.Some? && r.value.description == input.description.value
              && Some(r.value.duration) == OrNumber(input.duration, DefaultDuration)
              && (!TruthyString(input.level) ==> r.value.level == DefaultLevel)
              && (TruthyString(input.level) ==> Some(r.value.level) == ParseLevel(input.level.value))
              && (input.pricingPlan.None? ==> r.value.pricingPlan == DefaultPricingPlan)
              && (input.pricingPlan.Some? ==> Some(r.value.pricingPlan) == ParsePricingPlan(input.pricingPlan.value))
              && r.value.tags == TagsOf(input.tags)
              && r.value.coverImage == (if cover.Some? then ImagesUrl + cover.value else "")
              && Some(r.value.totalPrice) == CastNumber(input.totalPrice)
              && Some(r.value.discountedPrice) == CastNumber(input.discountedPrice)
    ensures r.Ok? <==>
              && input.title.Some? && Trim(input.title.value) != ""
              && input.description.Some? && input.description.value != ""
              && CreatePlan(input.pricingPlan).Some?
              && (!TruthyString(input.level) || ParseLevel(input.level.value).Some?)
              && CastNumber(input.totalPrice).Some? && CastNumber(input.discountedPrice).Some?
              && OrNumber(input.duration, DefaultDuration).Some?
              && (CreatePlan(input.pricingPlan) == Some(OneTime) ==> CastNumber(input.totalPrice).value.Value?)
              && caller != ""
  {
    var plan := CreatePlan(input.pricingPlan);
    var level := if TruthyString(input.level) then ParseLevel(input.level.value) else Some(DefaultLevel);
    var totalPrice := CastNumber(input.totalPrice);
    var discountedPrice := CastNumber(input.discountedPrice);
    var duration := OrNumber(input.duration, DefaultDuration);
    if input.title.None? || input.description.None? || plan.None? || level.None?
       || totalPrice.None? || discountedPrice.None? || duration.None?
    then
      Fail(ServerError, InternalError)
    else
      var c := Course(
        id, Trim(input.title.value), input.description.value, plan.value,
        totalPrice.value, discountedPrice.value,
        if cover.Some? then ImagesUrl + cover.value else "",
        OrString(input.category, DefaultCategory), level.value,
        duration.value, OrString(input.language, DefaultLanguage),
        TagsOf(input.tags), false, [], DefaultRating, [], [], [], caller, now, now);
      assert c.category != "";
      match Save(c, now)
      case None => Fail(ServerError, InternalError)
      case Some(saved) => Ok(saved)
  }

  /** A created course is well formed. */
  lemma CreatedIsWellFormed(id: CourseId, caller: UserId, input: CourseInput, cover: Option<string>, now: int)
    requires Created(id, caller, input, cover, now).Ok?
    ensures WellFormed(Created(id, caller, input, cover, now).value)
  {
    TrimSpec(input.title.value);
  }

  /** The plan an update leaves: the incoming one when it is a non-empty
      string, the stored one otherwise; None when the incoming name is not a
      plan. */
  function MergedPlan(incoming: Option<string>, stored: PricingPlan): Option<PricingPlan> {
    if TruthyString(incoming) then ParsePricingPlan(incoming.value) else Some(stored)
  }

  function MergedLevel(incoming: Option<string>, stored: Level): Option<Level> {
    if TruthyString(incoming) then ParseLevel(incoming.value) else Some(stored)
  }

  /** The price an update sets: the incoming one, cast, when the request
      names the one-time plan, and zero otherwise, even when the request
      names no plan. None for a cast error. */
  function MergedPrice(plan: Option<string>, incoming: Option<string>): Option<StoredNumber> {
    if plan == Some("one-time") then CastNumber(incoming) else Some(Value(0.0))
  }

  /** Every Number path an update assigns casts. */
  predicate UpdateCasts(c: Course, input: CourseInput) {
    && MergedPrice(input.pricingPlan, input.totalPrice).Some?
    && MergedPrice(input.pricingPlan, input.discountedPrice).Some?
    && OrNumber(input.duration, c.duration).Some?
  }

  /** The stored course with the request's fields merged in: each field a
      falsy value leaves alone takes the incoming value, the title trimmed by
      its setter; the prices follow MergedPrice. */
  function Merged(c: Course, input: CourseInput, cover: Option<string>, plan: PricingPlan, level: Level): Course
    requires UpdateCasts(c, input)
  {
    c.(coverImage := if cover.Some? then ImagesUrl + cover.value else c.coverImage,
       title := if TruthyString(input.title) then Trim(input.title.value) else c.title,
       description := OrString(input.description, c.description),
       pricingPlan := plan,
       totalPrice := MergedPrice(input.pricingPlan, input.totalPrice).value,
       discountedPrice := MergedPrice(input.pricingPlan, input.discountedPrice).value,
       category := OrString(input.category, c.category),
       level := level,
       duration := OrNumber(input.duration, c.duration).value,
       language := OrString(input.language, c.language),
       tags := if TruthyString(input.tags) then TagsOf(input.tags) else c.tags)
  }

  /** The course updateCourse saves, or its error. cover is the stored name
      of a newly uploaded cover image. */
  function Updated(c: Course, caller: UserId, input: CourseInput, cover: Option<string>, now: int): (r: Outcome<Course>)
    ensures r == Fail(Forbidden, Unauthorized) <==> caller != c.createdBy
    ensures r.Fail? && caller == c.createdBy ==> r == Fail(ServerError, UpdateFailed)
    ensures caller == c.createdBy && !UpdateCasts(c, input) ==> r.Fail?
    ensures caller == c.createdBy
            && MergedPlan(input.pricingPlan, c.pricingPlan).Some?
            && MergedLevel(input.level, c.level).Some?
            && UpdateCasts(c, input)
            && ValidCourse(Merged(c, input, cover, MergedPlan(input.pricingPlan, c.pricingPlan).value,
                                  MergedLevel(input.level, c.level).value))
            ==> r.Ok?
    ensures r.Ok? ==>
              && (TruthyString(input.title) ==> r.value.title == Trim(input.title.value))
              && (!TruthyString(input.title) ==> r.value.title == c.title)
              && r.value.description == OrString(input.description, c.description)
              && r.value.category == OrString(input.category, c.category)
              && r.value.language == OrString(input.language, c.language)
              && Some(r.value.duration) == OrNumber(input.duration, c.duration)
              && (!TruthyString(input.pricingPlan) ==> r.value.pricingPlan == c.pricingPlan)
              && (TruthyString(input.pricingPlan) ==> PricingPlanName(r.value.pricingPlan) == input.pricingPlan.value)
              && (!TruthyString(input.level) ==> r.value.level == c.level)
              && (TruthyString(input.level) ==> LevelName(r.value.level) == input.level.value)
              && (input.pricingPlan == Some("one-time") ==>
                    && Some(r.value.totalPrice) == CastNumber(input.totalPrice)
                    && Some(r.value.discountedPrice) == CastNumber(input.discountedPrice))
              && (input.pricingPlan != Some("one-time") ==>
                    r.value.totalPrice == Value(0.0) && r.value.discountedPrice == Value(0.0))
              && r.value.tags == (if TruthyString(input.tags) then TagsOf(input.tags) else c.tags)
              && r.value.coverImage == (if cover.Some? then ImagesUrl + cover.value else c.coverImage)
              && r.value.lastUpdated == now
    ensures r.Ok? ==>
              r.value.(title := c.title, description := c.description, pricingPlan := c.pricingPlan,
                       totalPrice := c.totalPrice, discountedPrice := c.discountedPrice,
                       category := c.category, level := c.level, duration := c.duration,
                       language := c.language, tags := c.tags, coverImage := c.coverImage,
                       lastUpdated := c.lastUpdated) == c
  {
    if caller != c.createdBy then Fail(Forbidden, Unauthorized)
    else
      var plan := MergedPlan(input.pricingPlan, c.pricingPlan);
      var level := MergedLevel(input.level, c.level);
      if plan.None? || level.None? || !UpdateCasts(c, input) then Fail(ServerError, UpdateFailed)
      else
        var merged := Merged(c, input, cover, plan.value, level.value);
        match Save(merged, now)
        case None => Fail(ServerError, UpdateFailed)
        case Some(saved) => Ok(saved)
  }

  /** An update keeps a course well formed. */
  lemma UpdateKeepsWellFormed(c: Course, caller: UserId, input: CourseInput, cover: Option<string>, now: int)
    requires WellFormed(c)
    requires Updated(c, caller, input, cover, now).Ok?
    ensures WellFormed(Updated(c, caller, input, cover, now).value)
  {
    if TruthyString(input.title) {
      TrimSpec(input.title.value);
    }
  }

  /** Switching a well-formed course to the free plan, with nothing else in
      the request, always succeeds and zeroes both prices. */
  lemma SwitchToFreeZeroesPrices(c: Course, now: int)
    requires WellFormed(c)
    ensures Updated(c, c.createdBy, CourseInput(None, None, Some("free"), None, None, None, None, None, None, None), None, now).Ok?
    ensures var r := Updated(c, c.createdBy, CourseInput(None, None, Some("free"), None, None, None, None, None, None, None), None, now).value;
            r.pricingPlan == Free && r.totalPrice == Value(0.0) && r.discountedPrice == Value(0.0)
  {
  }

  /** The reply message of the publish toggle. */
  function PublishMessage(isPublished: bool): string {
    if isPublished then "Course published successfully" else "Course unpublished successfully"
  }

  /** The course togglePublishCourse saves, or its error. */
  function Toggled(c: Course, caller: UserId, now: int): (r: Outcome<Course>)
    ensures r == Fail(Forbidden, Unauthorized) <==> caller != c.createdBy
    ensures r.Ok? ==> r.value.isPublished == !c.isPublished && r.value.lastUpdated == now
    ensures r.Ok? ==> r.value.(isPublished := c.isPublished, lastUpdated := c.lastUpdated) == c
    ensures caller == c.createdBy && ValidCourse(c) ==> r.Ok?
    ensures r.Fail? && caller == c.createdBy ==> r == Fail(ServerError, StatusFailed)
  {
    if caller != c.createdBy then Fail(Forbidden, Unauthorized)
    else
      match Save(c.(isPublished := !c.isPublished), now)
      case None => Fail(ServerError, StatusFailed)
      case Some(saved) => Ok(saved)
  }

  /** Toggling twice restores the publish state and every other field but
      the save time. */
  lemma ToggleTwice(c: Course, caller: UserId, t1: int, t2: int)
    requires caller == c.createdBy && ValidCourse(c)
    ensures Toggled(c, caller, t1).Ok?
    ensures Toggled(Toggled(c, caller, t1).value, caller, t2).Ok?
    ensures Toggled(Toggled(c, caller, t1).value, caller, t2).value == c.(lastUpdated := t2)
  {
    var once := Toggled(c, caller, t1).value;
    assert ValidCourse(once);
  }

  lemma ToggleKeepsWellFormed(c: Course, caller: UserId, now: int)
    requires WellFormed(c) && Toggled(c, caller, now).Ok?
    ensures WellFormed(Toggled(c, caller, now).value)
  {
  }

  /** The course enrollInCourse saves, or its error. */
  function Enrolled(c: Course, student: UserId, now: int): (r: Outcome<Course>)
    ensures !c.isPublished ==> r == Fail(BadRequest, NotPublished)
    ensures c.isPublished && student in c.enrolledStudents ==> r == Fail(BadRequest, AlreadyEnrolled)
    ensures r.Ok? ==>
              && r.value.enrolledStudents == c.enrolledStudents + [student]
              && r.value.lastUpdated == now
              && r.value.(enrolledStudents := c.enrolledStudents, lastUpdated := c.lastUpdated) == c
    ensures c.isPublished && student !in c.enrolledStudents && ValidCourse(c) ==> r.Ok?
    ensures r.Fail? && c.isPublished && student !in c.enrolledStudents ==> r == Fail(ServerError, EnrollFailed)
  {
    if !c.isPublished then Fail(BadRequest, NotPublished)
    else if student in c.enrolledStudents then Fail(BadRequest, AlreadyEnrolled)
    else
      match Save(c.(enrolledStudents := c.enrolledStudents + [student]), now)
      case None => Fail(ServerError, EnrollFailed)
      case Some(saved) => Ok(saved)
  }

  /** Enrolling keeps a course well formed. */
  lemma EnrollKeepsWellFormed(c: Course, student: UserId, now: int)
    requires WellFormed(c) && Enrolled(c, student, now).Ok?
    ensures WellFormed(Enrolled(c, student, now).value)
  {
    var r := Enrolled(c, student, now).value;
    forall i | 0 <= i < |r.reviews| ensures r.reviews[i].user in r.enrolledStudents {
      assert r.reviews[i] == c.reviews[i];
    }
  }

  /** A sequence of enroll requests against one course, each applied to the
      result of the one before; a refused request leaves the course as it is. */
  function EnrollAll(c: Course, students: seq<UserId>, now: int): Course
    decreases |students|
  {
    if students == [] then c
    else
      var next := match Enrolled(c, students[0], now) case Ok(d) => d case Fail(_, _) => c;
      EnrollAll(next, students[1..], now)
  }

  /** Starting from a duplicate-free enrollment list, no sequence of enroll
      requests creates a duplicate; on a valid published course the enrolled
      set grows by exactly the requesting students. */
  lemma {:induction false} EnrollAllNoDuplicates(c: Course, students: seq<UserId>, now: int)
    requires NoDuplicates(c.enrolledStudents)
    ensures NoDuplicates(EnrollAll(c, students, now).enrolledStudents)
    ensures ValidCourse(c) && c.isPublished ==>
              forall s :: s in EnrollAll(c, students, now).enrolledStudents <==> s in c.enrolledStudents || s in students
    decreases |students|
  {
    if students != [] {
      var r := Enrolled(c, students[0], now);
      var next := match r case Ok(d) => d case Fail(_, _) => c;
      if r.Ok? {
        assert next.enrolledStudents == c.enrolledStudents + [students[0]];
        assert students[0] !in c.enrolledStudents;
      }
      assert NoDuplicates(next.enrolledStudents);
      assert ValidCourse(c) && c.isPublished ==> ValidCourse(next) && next.isPublished;
      EnrollAllNoDuplicates(next, students[1..], now);
      assert students == [students[0]] + students[1..];
      assert ValidCourse(c) && c.isPublished ==>
               forall s :: s in next.enrolledStudents <==> s in c.enrolledStudents || s == students[0];
    }
  }

  /** Index of the first review by user, or |reviews| when there is none. */
  function FirstReviewBy(reviews: seq<Review>, user: UserId): (k: nat)
    ensures k <= |reviews|
    ensures k < |reviews| ==> reviews[k].user == user
    ensures forall j :: 0 <= j < k ==> reviews[j].user != user
  {
    if reviews == [] then 0
    else if reviews[0].user == user then 0
    else 1 + FirstReviewBy(reviews[1..], user)
  }

  /** The review list after user's review: the author's first review is
      overwritten (keeping its creation time), or a new one is appended. */
  function Upsert(reviews: seq<Review>, user: UserId, rating: real, comment: string, now: int): (r: seq<Review>)
    ensures |r| >= 1
    ensures |r| == if FirstReviewBy(reviews, user) < |reviews| then |reviews| else |reviews| + 1
    ensures var k := FirstReviewBy(reviews, user);
              r[k].user == user && r[k].rating == rating && r[k].comment == comment && r[k].updatedAt == now
  {
    var k := FirstReviewBy(reviews, user);
    if k < |reviews| then reviews[k := reviews[k].(rating := rating, comment := comment, updatedAt := now)]
    else reviews + [Review(user, rating, comment, now, now)]
  }

  /** What the upsert does: the list grows only when the author had no
      review, the author's review carries the new rating and comment, the
      other reviews stay where they were, and one review per author remains
      one review per author. */
  lemma UpsertSpec(reviews: seq<Review>, user: UserId, rating: real, comment: string, now: int)
    ensures var r := Upsert(reviews, user, rating, comment, now);
            && (|r| == if exists i :: 0 <= i < |reviews| && reviews[i].user == user then |reviews| else |reviews| + 1)
            && (forall i :: 0 <= i < |reviews| && reviews[i].user != user ==> r[i] == reviews[i])
            && (exists i :: 0 <= i < |r| && r[i].user == user && r[i].rating == rating && r[i].comment == comment && r[i].updatedAt == now)
            && (AuthorsUnique(reviews) ==> AuthorsUnique(r))
  {
    var r := Upsert(reviews, user, rating, comment, now);
    var k := FirstReviewBy(reviews, user);
    if k < |reviews| {
      assert r[k].user == user;
    } else {
      assert r[|reviews|].user == user;
    }
  }

  /** Every author after the upsert is an old author or the new one, and every
      review is valid when the old ones were and the new rating and comment are. */
  lemma UpsertAuthors(reviews: seq<Review>, user: UserId, rating: real, comment: string, now: int)
    ensures var r := Upsert(reviews, user, rating, comment, now);
            forall i :: 0 <= i < |r| ==> r[i].user == user || (i < |reviews| && r[i] == reviews[i])
    ensures (forall i :: 0 <= i < |reviews| ==> ValidReview(reviews[i])) && 1.0 <= rating <= 5.0 && comment != "" ==>
              var r := Upsert(reviews, user, rating, comment, now);
              forall i :: 0 <= i < |r| ==> ValidReview(r[i])
  {
  }

  /** The course addReview saves, or its error. A missing rating or comment
      makes the save fail. */
  function Reviewed(c: Course, user: UserId, rating: Option<real>, comment: Option<string>, now: int): (r: Outcome<Course>)
    ensures r == Fail(Forbidden, MustBeEnrolled) <==> user !in c.enrolledStudents
    ensures r.Fail? && user in c.enrolledStudents ==> r == Fail(ServerError, ReviewFailed)
    ensures r.Ok? ==>
              && rating.Some? && comment.Some?
              && r.value.reviews == Upsert(c.reviews, user, rating.value, comment.value, now)
              && |r.value.reviews| >= 1
              && r.value.rating == MeanRating(r.value.reviews)
              && 1.0 <= r.value.rating <= 5.0
              && r.value.lastUpdated == now
              && r.value.(reviews := c.reviews, rating := c.rating, lastUpdated := c.lastUpdated) == c
  {
    if user !in c.enrolledStudents then Fail(Forbidden, MustBeEnrolled)
    else if rating.None? || comment.None? then Fail(ServerError, ReviewFailed)
    else
      var reviews := Upsert(c.reviews, user, rating.value, comment.value, now);
      var updated := c.(reviews := reviews, rating := MeanRating(reviews));
      match Save(updated, now)
      case None => Fail(ServerError, ReviewFailed)
      case Some(saved) =>
        MeanRatingBounds(reviews);
        Ok(saved)
  }

  /** A review keeps a course well formed. */
  lemma ReviewKeepsWellFormed(c: Course, user: UserId, rating: Option<real>, comment: Option<string>, now: int)
    requires WellFormed(c)
    requires Reviewed(c, user, rating, comment, now).Ok?
    ensures WellFormed(Reviewed(c, user, rating, comment, now).value)
  {
    var r := Reviewed(c, user, rating, comment, now).value;
    UpsertSpec(c.reviews, user, rating.value, comment.value, now);
    UpsertAuthors(c.reviews, user, rating.value, comment.value, now);
    assert r.reviews == Upsert(c.reviews, user, rating.value, comment.value, now);
    assert r.rating == MeanRating(r.reviews);
  }

  /** An enrolled student's review with a rating in 1..5 and a non-empty
      comment is always accepted. */
  lemma ReviewAccepted(c: Course, user: UserId, rating: real, comment: string, now: int)
    requires WellFormed(c)
    requires user in c.enrolledStudents && 1.0 <= rating <= 5.0 && comment != ""
    ensures Reviewed(c, user, Some(rating), Some(comment), now).Ok?
  {
    var reviews := Upsert(c.reviews, user, rating, comment, now);
    UpsertAuthors(c.reviews, user, rating, comment, now);
    assert |reviews| >= 1 by {
      if FirstReviewBy(c.reviews, user) == |c.reviews| {
        assert |reviews| == |c.reviews| + 1;
      }
    }
    MeanRatingBounds(reviews);
    assert ValidCourse(c.(reviews := reviews, rating := MeanRating(reviews)));
  }
}
