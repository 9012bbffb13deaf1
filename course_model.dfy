/** The course document: its fields, the constraints the schema enforces on
    every save, and the save hook that stamps lastUpdated. */
module CourseModel {
  import opened Http
  import opened Strings
  import opened Sorting
  import opened Numbers

  type UserId = string
  type CourseId = string

  datatype PricingPlan = Free | OneTime
  datatype Level = Beginner | Intermediate | Advanced

  const DefaultPricingPlan := Free
  const DefaultLevel := Beginner
  const DefaultCategory := "General"
  const DefaultLanguage := "English"
  const DefaultDuration := 0.0
  const DefaultRating := 0.0

  function PricingPlanName(p: PricingPlan): string {
    match p
    case Free => "free"
    case OneTime => "one-time"
  }

  function LevelName(l: Level): string {
    match l
    case Beginner => "Beginner"
    case Intermediate => "Intermediate"
    case Advanced => "Advanced"
  }

  /** The enum validator of pricingPlan: exactly the listed names pass. */
  function ParsePricingPlan(s: string): (r: Option<PricingPlan>)
    ensures forall p :: r == Some(p) <==> PricingPlanName(p) == s
  {
    if s == "free" then Some(Free)
    else if s == "one-time" then Some(OneTime)
    else None
  }

  /** The enum validator of level: exactly the listed names pass. */
  function ParseLevel(s: string): (r: Option<Level>)
    ensures forall l :: r == Some(l) <==> LevelName(l) == s
  {
    if s == "Beginner" then Some(Beginner)
    else if s == "Intermediate" then Some(Intermediate)
    else if s == "Advanced" then Some(Advanced)
    else None
  }

  datatype Review = Review(user: UserId, rating: real, comment: string, createdAt: int, updatedAt: int)

  datatype PdfItem = PdfItem(title: string, url: string, uploadedAt: int)

  datatype VideoItem = VideoItem(title: string, url: string, duration: real, uploadedAt: int)

  /** A Number path of a stored document: absent (undefined), null, or a
      number. */
  datatype StoredNumber = Absent | Null | Value(value: real)

  /** How the schema casts what a request sends for a Number path: nothing
      leaves the path absent, the empty string becomes null, and any other
      string its Number value; a string that is not a number is a cast error
      (None), which makes the save fail. */
  function CastNumber(s: Option<string>): (r: Option<StoredNumber>)
    ensures s.None? <==> r == Some(Absent)
    ensures s == Some("") <==> r == Some(Null)
    ensures s.Some? && s.value != "" ==>
              && (r.Some? <==> NumberOf(s.value).Finite?)
              && (r.Some? ==> r.value == Value(NumberOf(s.value).value))
  {
    if s.None? then Some(Absent)
    else if s.value == "" then Some(Null)
    else if NumberOf(s.value).Finite? then Some(Value(NumberOf(s.value).value))
    else None
  }

  /** `a || fallback` assigned to a Number path, where a is what the request
      sent: a non-empty string is truthy and is cast (None for a cast
      error), anything falsy gives the fallback. */
  function OrNumber(a: Option<string>, fallback: real): (r: Option<real>)
    ensures !TruthyString(a) ==> r == Some(fallback)
    ensures TruthyString(a) ==> (r.Some? <==> CastNumber(a).Some?) && (r.Some? ==> CastNumber(a) == Some(Value(r.value)))
  {
    if !TruthyString(a) then Some(fallback)
    else if NumberOf(a.value).Finite? then Some(NumberOf(a.value).value)
    else None
  }

  /** A number written out in decimal casts to itself, and it is truthy even
      when it is 0: the string "0" stores 0, not the fallback. */
  lemma CastDecimal(n: nat, fallback: real)
    ensures CastNumber(Some(NatToDecimal(n))) == Some(Value(n as real))
    ensures OrNumber(Some(NatToDecimal(n)), fallback) == Some(n as real)
  {
    NumberOfDecimal(n);
  }

  /** A stored course. Times are milliseconds since the epoch. */
  datatype Course = Course(
    id: CourseId,
    title: string,
    description: string,
    pricingPlan: PricingPlan,
    totalPrice: StoredNumber,
    discountedPrice: StoredNumber,
    coverImage: string,
    category: string,
    level: Level,
    duration: real,
    language: string,
    tags: seq<string>,
    isPublished: bool,
    enrolledStudents: seq<UserId>,
    rating: real,
    reviews: seq<Review>,
    pdfs: seq<PdfItem>,
    videos: seq<VideoItem>,
    createdBy: UserId,
    createdAt: int,
    lastUpdated: int)

  /** The review schema: a rating from 1 to 5 and a non-empty comment. */
  predicate ValidReview(r: Review) {
    1.0 <= r.rating <= 5.0 && r.comment != ""
  }

  /** The course schema's validators: required strings are non-empty,
      totalPrice is a number (neither absent nor null) when the plan is one-time, the rating lies in
      0..5 and every review passes its own validators. Enum membership is
      carried by the field types. */
  predicate ValidCourse(c: Course) {
    && c.title != ""
    && c.description != ""
    && c.category != ""
    && c.createdBy != ""
    && (c.pricingPlan == OneTime ==> c.totalPrice.Value?)
    && 0.0 <= c.rating <= 5.0
    && (forall i :: 0 <= i < |c.reviews| ==> ValidReview(c.reviews[i]))
  }

  /** Saving validates the document and, if it passes, stamps lastUpdated with
      the save time; no other field changes. */
  function Save(c: Course, now: int): (r: Option<Course>)
    ensures r.Some? <==> ValidCourse(c)
    ensures r.Some? ==> r.value.lastUpdated == now && r.value.(lastUpdated := c.lastUpdated) == c
  {
    if ValidCourse(c) then Some(c.(lastUpdated := now)) else None
  }

  function SumRatings(reviews: seq<Review>): real {
    if reviews == [] then 0.0 else SumRatings(reviews[..|reviews| - 1]) + reviews[|reviews| - 1].rating
  }

  /** The arithmetic mean of the review ratings, 0 when there are none. */
  function MeanRating(reviews: seq<Review>): real {
    if |reviews| == 0 then 0.0 else SumRatings(reviews) / |reviews| as real
  }

  /** With ratings in 1..5 the sum lies between the count and five times it. */
  lemma {:induction false} SumRatingsBounds(reviews: seq<Review>)
    requires forall i :: 0 <= i < |reviews| ==> ValidReview(reviews[i])
    ensures |reviews| as real <= SumRatings(reviews) <= 5.0 * |reviews| as real
  {
    if reviews != [] {
      SumRatingsBounds(reviews[..|reviews| - 1]);
    }
  }

  /** The mean of valid reviews lies in 1..5, and it is 0 with no reviews. */
  lemma MeanRatingBounds(reviews: seq<Review>)
    requires forall i :: 0 <= i < |reviews| ==> ValidReview(reviews[i])
    ensures reviews == [] ==> MeanRating(reviews) == 0.0
    ensures reviews != [] ==> 1.0 <= MeanRating(reviews) <= 5.0
    ensures MeanRating(reviews) * |reviews| as real == SumRatings(reviews)
  {
    SumRatingsBounds(reviews);
    if reviews != [] {
      QuotientBounds(SumRatings(reviews), |reviews| as real, 1.0, 5.0);
    }
  }

  /** A quotient t / n with n positive lies between lo and hi when t lies
      between lo * n and hi * n. */
  lemma QuotientBounds(t: real, n: real, lo: real, hi: real)
    requires n > 0.0 && lo * n <= t <= hi * n
    ensures lo <= t / n <= hi
    ensures t / n * n == t
  {
    var q := t / n;
    assert q * n == t;
  }

  /** At most one review per author. */
  predicate AuthorsUnique(reviews: seq<Review>) {
    forall i, j :: 0 <= i < j < |reviews| ==> reviews[i].user != reviews[j].user
  }

  /** What every stored course satisfies: the schema's validators, a trimmed
      title (the schema trims on assignment), no student enrolled twice, one
      review per author, reviews only from enrolled students, and a rating
      that is the mean of the review ratings. */
  predicate WellFormed(c: Course) {
    && ValidCourse(c)
    && IsTrimmed(c.title)
    && NoDuplicates(c.enrolledStudents)
    && AuthorsUnique(c.reviews)
    && (forall i :: 0 <= i < |c.reviews| ==> c.reviews[i].user in c.enrolledStudents)
    && c.rating == MeanRating(c.reviews)
  }
}
