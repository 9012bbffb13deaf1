/** The teacher dashboard: counts, sums and the mean rating over the
    courses a teacher created, and one line of figures per course. Revenue
    is a JavaScript number, so a course without a discounted price makes it
    NaN. */
module CourseAnalytics {
  import opened Http
  import opened Numbers
  import opened Sorting
  import opened CourseModel

  datatype CourseStat = CourseStat(
    id: CourseId,
    title: string,
    students: nat,
    rating: real,
    revenue: Num,
    isPublished: bool)

  datatype Analytics = Analytics(
    totalCourses: nat,
    publishedCourses: nat,
    totalStudents: nat,
    averageRating: real,
    totalRevenue: Num,
    courseStats: seq<CourseStat>)

  /** A stored price in arithmetic: an absent one is undefined, which is
      NaN; a null one counts as 0. */
  function PriceValue(price: StoredNumber): (n: Num)
    ensures n.Finite? <==> !price.Absent?
    ensures price.Null? ==> n == Finite(0.0)
    ensures price.Value? ==> n == Finite(price.value)
  {
    match price
    case Absent => NaN
    case Null => Finite(0.0)
    case Value(v) => Finite(v)
  }

  /** Discounted price times the number of enrolled students: NaN when the
      price is absent, 0 when it is null. */
  function Revenue(c: Course): (n: Num)
    ensures n.Finite? <==> !c.discountedPrice.Absent?
    ensures c.discountedPrice.Null? ==> n == Finite(0.0)
    ensures c.discountedPrice.Value? ==> n == Finite(c.discountedPrice.value * |c.enrolledStudents| as real)
  {
    Mul(PriceValue(c.discountedPrice), Finite(|c.enrolledStudents| as real))
  }

  function StatOf(c: Course): CourseStat {
    CourseStat(c.id, c.title, |c.enrolledStudents|, c.rating, Revenue(c), c.isPublished)
  }

  function OwnCourses(courses: seq<Course>, teacher: UserId): (r: seq<Course>)
    ensures forall c :: c in r <==> c in courses && c.createdBy == teacher
  {
    Filter(courses, (c: Course) => c.createdBy == teacher)
  }

  function IsPublished(c: Course): bool {
    c.isPublished
  }

  /** The number of published courses, counted as the length of the
      published ones. */
  function CountPublished(s: seq<Course>): (n: nat)
    ensures n <= |s|
    ensures n == |Filter(s, IsPublished)|
  {
    if s == [] then 0 else (if s[0].isPublished then 1 else 0) + CountPublished(s[1..])
  }

  function SumStudents(s: seq<Course>): nat {
    if s == [] then 0 else |s[0].enrolledStudents| + SumStudents(s[1..])
  }

  function SumRating(s: seq<Course>): real {
    if s == [] then 0.0 else s[0].rating + SumRating(s[1..])
  }

  function SumRevenue(s: seq<Course>): Num {
    if s == [] then Finite(0.0) else Add(Revenue(s[0]), SumRevenue(s[1..]))
  }

  /** The sum of the ratings over the count; 0 with no courses, where the
      division gives NaN and the fallback applies. */
  function AverageRating(s: seq<Course>): real {
    if |s| == 0 then 0.0 else SumRating(s) / |s| as real
  }

  function Stats(s: seq<Course>): (r: seq<CourseStat>)
    ensures |r| == |s|
    ensures forall i :: 0 <= i < |s| ==> r[i] == StatOf(s[i])
  {
    if s == [] then [] else [StatOf(s[0])] + Stats(s[1..])
  }

  /** The analytics of the teacher's courses, in the store's order. */
  function AnalyticsOf(courses: seq<Course>, teacher: UserId): (a: Analytics)
    ensures a.totalCourses == |a.courseStats| == |OwnCourses(courses, teacher)|
    ensures a.publishedCourses <= a.totalCourses
    ensures a.totalCourses == 0 ==>
              a.publishedCourses == 0 && a.totalStudents == 0 && a.averageRating == 0.0 && a.totalRevenue == Finite(0.0)
  {
    var own := OwnCourses(courses, teacher);
    Analytics(|own|, CountPublished(own), SumStudents(own), AverageRating(own), SumRevenue(own), Stats(own))
  }

  /** A teacher's analytics cover exactly their own courses: one line per
      own course in order, no more published courses than courses, and a
      published count that is the number of published own courses. */
  lemma AnalyticsCoverOwnCourses(courses: seq<Course>, teacher: UserId)
    ensures var a := AnalyticsOf(courses, teacher);
            && a.totalCourses == |a.courseStats| == |OwnCourses(courses, teacher)|
            && a.publishedCourses <= a.totalCourses
            && (forall i :: 0 <= i < |a.courseStats| ==> a.courseStats[i] == StatOf(OwnCourses(courses, teacher)[i]))
            && (forall st :: st in a.courseStats ==> exists c :: c in courses && c.createdBy == teacher && st == StatOf(c))
  {
    var own := OwnCourses(courses, teacher);
    var a := AnalyticsOf(courses, teacher);
    forall st | st in a.courseStats ensures exists c :: c in courses && c.createdBy == teacher && st == StatOf(c) {
      var i :| 0 <= i < |a.courseStats| && a.courseStats[i] == st;
      assert own[i] in own;
    }
  }

  /** Mean rating bounds: 0 for no courses and within 0..5 when every
      course's rating is. */
  lemma {:induction false} SumRatingBounds(s: seq<Course>)
    requires forall i :: 0 <= i < |s| ==> 0.0 <= s[i].rating <= 5.0
    ensures 0.0 <= SumRating(s) <= 5.0 * |s| as real
  {
    if s != [] {
      SumRatingBounds(s[1..]);
    }
  }

  lemma AverageRatingBounds(s: seq<Course>)
    requires forall i :: 0 <= i < |s| ==> ValidCourse(s[i])
    ensures s == [] ==> AverageRating(s) == 0.0
    ensures 0.0 <= AverageRating(s) <= 5.0
  {
    SumRatingBounds(s);
    if s != [] {
      QuotientBounds(SumRating(s), |s| as real, 0.0, 5.0);
    }
  }

  /** The figures the totals add up agree with the per-course lines: the
      student total is the sum of the lines' student counts, and revenue is
      a number exactly when every line's revenue is. */
  lemma TotalsMatchStats(s: seq<Course>)
    ensures SumStudents(s) == SumStatStudents(Stats(s))
    ensures SumRevenue(s).Finite? <==> forall i :: 0 <= i < |s| ==> Stats(s)[i].revenue.Finite?
  {
    StudentsMatchStats(s);
    RevenueMatchesStats(s);
  }

  lemma {:induction false} StudentsMatchStats(s: seq<Course>)
    ensures SumStudents(s) == SumStatStudents(Stats(s))
  {
    if s != [] {
      StudentsMatchStats(s[1..]);
      assert Stats(s) == [StatOf(s[0])] + Stats(s[1..]);
      assert Stats(s)[1..] == Stats(s[1..]);
    }
  }

  lemma {:induction false} RevenueMatchesStats(s: seq<Course>)
    ensures SumRevenue(s).Finite? <==> forall i :: 0 <= i < |s| ==> Stats(s)[i].revenue.Finite?
  {
    if s != [] {
      RevenueMatchesStats(s[1..]);
      assert SumRevenue(s).Finite? <==> Revenue(s[0]).Finite? && SumRevenue(s[1..]).Finite?;
      assert Stats(s) == [StatOf(s[0])] + Stats(s[1..]);
      assert forall i :: 1 <= i < |s| ==> Stats(s)[i] == Stats(s[1..])[i - 1];
    }
  }

  function SumStatStudents(st: seq<CourseStat>): nat {
    if st == [] then 0 else st[0].students + SumStatStudents(st[1..])
  }

  /** A course's discounted price is null or a non-negative number. */
  predicate PricedOrNull(c: Course) {
    c.discountedPrice.Null? || (c.discountedPrice.Value? && c.discountedPrice.value >= 0.0)
  }

  /** A null or non-negative price gives a non-negative revenue. */
  lemma RevenueNonNegative(c: Course)
    requires PricedOrNull(c)
    ensures Revenue(c).Finite? && Revenue(c).value >= 0.0
  {
    if c.discountedPrice.Value? {
      var n := |c.enrolledStudents| as real;
      assert c.discountedPrice.value * n >= 0.0;
    }
  }

  /** Revenue is NaN as soon as one own course has no discounted price at
      all (a null one counts as 0), and otherwise it is non-negative when
      every price is. */
  lemma RevenueNaNUnlessPriced(s: seq<Course>)
    ensures SumRevenue(s).Finite? <==> forall i :: 0 <= i < |s| ==> !s[i].discountedPrice.Absent?
    ensures (forall i :: 0 <= i < |s| ==> PricedOrNull(s[i])) ==> SumRevenue(s).Finite? && SumRevenue(s).value >= 0.0
  {
    SumRevenueFinite(s);
    if forall i :: 0 <= i < |s| ==> PricedOrNull(s[i]) {
      SumRevenueNonNegative(s);
    }
  }

  lemma {:induction false} SumRevenueFinite(s: seq<Course>)
    ensures SumRevenue(s).Finite? <==> forall i :: 0 <= i < |s| ==> !s[i].discountedPrice.Absent?
  {
    if s != [] {
      SumRevenueFinite(s[1..]);
      assert SumRevenue(s).Finite? <==> Revenue(s[0]).Finite? && SumRevenue(s[1..]).Finite?;
      assert forall i :: 1 <= i < |s| ==> s[i] == s[1..][i - 1];
    }
  }

  lemma {:induction false} SumRevenueNonNegative(s: seq<Course>)
    requires forall i :: 0 <= i < |s| ==> PricedOrNull(s[i])
    ensures SumRevenue(s).Finite? && SumRevenue(s).value >= 0.0
  {
    if s != [] {
      assert PricedOrNull(s[0]);
      assert forall i :: 0 <= i < |s[1..]| ==> s[1..][i] == s[i + 1];
      SumRevenueNonNegative(s[1..]);
      RevenueNonNegative(s[0]);
    }
  }
}
