/** The course collection and the handlers that change it. Each handler
    looks the course up, checks ownership or state, changes the record field
    by field as the controller does, and saves it; the result is the one the
    matching function of CourseRules describes. */
module CourseController {
  import opened Http
  import opened Strings
  import opened CourseModel
  import opened CourseRules

  const CourseNotFound := "Course not found"
  const Deleted := "Course deleted successfully"
  const EnrollDone := "Successfully enrolled in course"
  const ReviewDone := "Review added successfully"

  /** The reply of the publish toggle. */
  datatype ToggleReply = ToggleReply(message: string, isPublished: bool)

  /** Every stored course is filed under its own id and is well formed. */
  predicate ValidCourses(courses: map<CourseId, Course>) {
    forall id :: id in courses ==> courses[id].id == id && WellFormed(courses[id])
  }

  /** The field assignments of updateCourse on the loaded course. Each
      assignment reads only the field it writes, so the values are worked out
      in the handler's order and stored in one update. A plan or level name and a cast error are only reported
      when the course is saved, so the parsed plan and level and whether
      every number cast are returned beside the record. */
  method MergeFields(stored: Course, input: CourseInput, cover: Option<string>)
    returns (course: Course, plan: Option<PricingPlan>, level: Option<Level>, cast: bool)
    ensures plan == MergedPlan(input.pricingPlan, stored.pricingPlan)
    ensures level == MergedLevel(input.level, stored.level)
    ensures cast == UpdateCasts(stored, input)
    ensures plan.Some? && level.Some? && cast ==> course == Merged(stored, input, cover, plan.value, level.value)
  {
    var coverImage := if cover.Some? then ImagesUrl + cover.value else stored.coverImage;
    var title := if TruthyString(input.title) then Trim(input.title.value) else stored.title;
    var description := OrString(input.description, stored.description);
    plan := MergedPlan(input.pricingPlan, stored.pricingPlan);
    var oneTime := input.pricingPlan == Some("one-time");
    var totalPrice := if oneTime then CastNumber(input.totalPrice) else Some(Value(0.0));
    var discountedPrice := if oneTime then CastNumber(input.discountedPrice) else Some(Value(0.0));
    var category := OrString(input.category, stored.category);
    level := MergedLevel(input.level, stored.level);
    var duration := OrNumber(input.duration, stored.duration);
    var language := OrString(input.language, stored.language);
    var tags := if TruthyString(input.tags) then TagsOf(input.tags) else stored.tags;
    cast := totalPrice.Some? && discountedPrice.Some? && duration.Some?;
    course := stored.(
      coverImage := coverImage, title := title, description := description,
      pricingPlan := if plan.Some? then plan.value else stored.pricingPlan,
      totalPrice := if totalPrice.Some? then totalPrice.value else stored.totalPrice,
      discountedPrice := if discountedPrice.Some? then discountedPrice.value else stored.discountedPrice,
      category := category,
      level := if level.Some? then level.value else stored.level,
      duration := if duration.Some? then duration.value else stored.duration,
      language := language, tags := tags);
  }

  /** Filing a well-formed course under its own id keeps the store valid. */
  lemma StoreKeepsValid(courses: map<CourseId, Course>, id: CourseId, c: Course)
    requires ValidCourses(courses)
    requires c.id == id && WellFormed(c)
    ensures ValidCourses(courses[id := c])
  {
    var m := courses[id := c];
    forall k | k in m ensures m[k].id == k && WellFormed(m[k]) {
      if k != id {
        assert m[k] == courses[k];
      }
    }
  }

  class CourseStore {
    var courses: map<CourseId, Course>

    ghost predicate Valid()
      reads this
    {
      ValidCourses(courses)
    }

    constructor ()
      ensures Valid() && courses == map[]
    {
      courses := map[];
    }

    /** POST /courses/create, under the fresh id newId. */
    method CreateCourse(newId: CourseId, caller: UserId, input: CourseInput, cover: Option<string>, now: int)
      returns (r: Outcome<Course>)
      requires Valid() && newId !in courses
      modifies this
      ensures Valid()
      ensures r == Created(newId, caller, input, cover, now)
      ensures r.Ok? ==> courses == old(courses)[newId := r.value]
      ensures r.Fail? ==> courses == old(courses)
    {
      r := Created(newId, caller, input, cover, now);
      if r.Ok? {
        CreatedIsWellFormed(newId, caller, input, cover, now);
        StoreKeepsValid(courses, newId, r.value);
        courses := courses[newId := r.value];
      }
    }

    /** PUT /course/:id. */
    method UpdateCourse(id: CourseId, caller: UserId, input: CourseInput, cover: Option<string>, now: int)
      returns (r: Outcome<Course>)
      requires Valid()
      modifies this
      ensures Valid()
      ensures id !in old(courses) ==> r == Fail(NotFound, CourseNotFound)
      ensures id in old(courses) ==> r == Updated(old(courses)[id], caller, input, cover, now)
      ensures r.Ok? ==> courses == old(courses)[id := r.value]
      ensures r.Fail? ==> courses == old(courses)
    {
      if id !in courses {
        return Fail(NotFound, CourseNotFound);
      }
      var stored := courses[id];
      var course := stored;
      if course.createdBy != caller {
        return Fail(Forbidden, Unauthorized);
      }
      var plan, level, cast;
      course, plan, level, cast := MergeFields(course, input, cover);
      // A plan or level name outside its enum, or a cast error, fails the save.
      if plan.None? || level.None? || !cast {
        return Fail(ServerError, UpdateFailed);
      }
      var saved := Save(course, now);
      if saved.None? {
        return Fail(ServerError, UpdateFailed);
      }
      r := Ok(saved.value);
      assert r == Updated(stored, caller, input, cover, now);
      UpdateKeepsWellFormed(stored, caller, input, cover, now);
      StoreKeepsValid(courses, id, saved.value);
      courses := courses[id := saved.value];
    }

    /** PATCH /course/:id/publish. */
    method TogglePublish(id: CourseId, caller: UserId, now: int) returns (r: Outcome<ToggleReply>)
      requires Valid()
      modifies this
      ensures Valid()
      ensures id !in old(courses) ==> r == Fail(NotFound, CourseNotFound)
      ensures id in old(courses) && Toggled(old(courses)[id], caller, now).Fail? ==>
                r == Fail(Toggled(old(courses)[id], caller, now).status, Toggled(old(courses)[id], caller, now).message)
      ensures r.Ok? ==>
                && id in old(courses)
                && Toggled(old(courses)[id], caller, now).Ok?
                && courses == old(courses)[id := Toggled(old(courses)[id], caller, now).value]
                && r.value == ToggleReply(PublishMessage(courses[id].isPublished), courses[id].isPublished)
      ensures id in old(courses) && Toggled(old(courses)[id], caller, now).Ok? ==> r.Ok?
      ensures r.Fail? ==> courses == old(courses)
    {
      if id !in courses {
        return Fail(NotFound, CourseNotFound);
      }
      var course := courses[id];
      if course.createdBy != caller {
        return Fail(Forbidden, Unauthorized);
      }
      course := course.(isPublished := !course.isPublished);
      var saved := Save(course, now);
      if saved.None? {
        return Fail(ServerError, StatusFailed);
      }
      ToggleKeepsWellFormed(courses[id], caller, now);
      StoreKeepsValid(courses, id, saved.value);
      courses := courses[id := saved.value];
      r := Ok(ToggleReply(PublishMessage(saved.value.isPublished), saved.value.isPublished));
    }

    /** POST /course/:id/enroll. */
    method Enroll(id: CourseId, student: UserId, now: int) returns (r: Outcome<string>)
      requires Valid()
      modifies this
      ensures Valid()
      ensures id !in old(courses) ==> r == Fail(NotFound, CourseNotFound)
      ensures id in old(courses) && Enrolled(old(courses)[id], student, now).Fail? ==>
                r == Fail(Enrolled(old(courses)[id], student, now).status, Enrolled(old(courses)[id], student, now).message)
      ensures id in old(courses) && Enrolled(old(courses)[id], student, now).Ok? ==>
                && r == Ok(EnrollDone)
                && courses == old(courses)[id := Enrolled(old(courses)[id], student, now).value]
      ensures r.Fail? ==> courses == old(courses)
    {
      if id !in courses {
        return Fail(NotFound, CourseNotFound);
      }
      var course := courses[id];
      if !course.isPublished {
        return Fail(BadRequest, NotPublished);
      }
      if student in course.enrolledStudents {
        return Fail(BadRequest, AlreadyEnrolled);
      }
      course := course.(enrolledStudents := course.enrolledStudents + [student]);
      var saved := Save(course, now);
      if saved.None? {
        return Fail(ServerError, EnrollFailed);
      }
      EnrollKeepsWellFormed(courses[id], student, now);
      StoreKeepsValid(courses, id, saved.value);
      courses := courses[id := saved.value];
      r := Ok(EnrollDone);
    }

    /** POST /course/:id/review. */
    method AddReview(id: CourseId, user: UserId, rating: Option<real>, comment: Option<string>, now: int)
      returns (r: Outcome<string>)
      requires Valid()
      modifies this
      ensures Valid()
      ensures id !in old(courses) ==> r == Fail(NotFound, CourseNotFound)
      ensures id in old(courses) && Reviewed(old(courses)[id], user, rating, comment, now).Fail? ==>
                r == Fail(Reviewed(old(courses)[id], user, rating, comment, now).status,
                          Reviewed(old(courses)[id], user, rating, comment, now).message)
      ensures id in old(courses) && Reviewed(old(courses)[id], user, rating, comment, now).Ok? ==>
                && r == Ok(ReviewDone)
                && courses == old(courses)[id := Reviewed(old(courses)[id], user, rating, comment, now).value]
      ensures r.Fail? ==> courses == old(courses)
    {
      if id !in courses {
        return Fail(NotFound, CourseNotFound);
      }
      var stored := courses[id];
      if user !in stored.enrolledStudents {
        return Fail(Forbidden, MustBeEnrolled);
      }
      if rating.None? || comment.None? {
        return Fail(ServerError, ReviewFailed);
      }
      var k := FirstReviewBy(stored.reviews, user);
      var reviews := stored.reviews;
      if k < |reviews| {
        var existing := reviews[k];
        existing := existing.(rating := rating.value);
        existing := existing.(comment := comment.value);
        existing := existing.(updatedAt := now);
        reviews := reviews[k := existing];
      } else {
        reviews := reviews + [Review(user, rating.value, comment.value, now, now)];
      }
      var course := stored.(reviews := reviews);
      course := course.(rating := MeanRating(reviews));
      var saved := Save(course, now);
      if saved.None? {
        return Fail(ServerError, ReviewFailed);
      }
      assert Reviewed(stored, user, rating, comment, now) == Ok(saved.value);
      ReviewKeepsWellFormed(stored, user, rating, comment, now);
      StoreKeepsValid(courses, id, saved.value);
      courses := courses[id := saved.value];
      r := Ok(ReviewDone);
    }

    /** DELETE /course/:id, for the record part (the files are not modelled). */
    method DeleteCourse(id: CourseId, caller: UserId) returns (r: Outcome<string>)
      requires Valid()
      modifies this
      ensures Valid()
      ensures id !in old(courses) ==> r == Fail(NotFound, CourseNotFound)
      ensures id in old(courses) && old(courses)[id].createdBy != caller ==> r == Fail(Forbidden, Unauthorized)
      ensures id in old(courses) && old(courses)[id].createdBy == caller ==> r == Ok(Deleted)
      ensures r.Ok? ==> courses == old(courses) - {id}
      ensures r.Fail? ==> courses == old(courses)
    {
      if id !in courses {
        return Fail(NotFound, CourseNotFound);
      }
      if courses[id].createdBy != caller {
        return Fail(Forbidden, Unauthorized);
      }
      courses := courses - {id};
      r := Ok(Deleted);
    }
  }
}
