/** The read-only course endpoints: the filtered, sorted and paged listing,
    one course with the caller's enrollment flag, a student's enrolled
    courses, the featured courses and the category list. The collection is
    given as a sequence in the store's natural order. */
module CourseQueries {
  import opened Http
  import opened Strings
  import opened Numbers
  import opened Sorting
  import opened CourseModel
  import UserModel
  import CourseRules

  /** The authenticated user the auth middleware puts on the request. */
  datatype Caller = Caller(id: UserId, role: UserModel.Role)

  predicate IsTeacher(caller: Option<Caller>) {
    caller.Some? && caller.value.role == UserModel.Teacher
  }

  type Positive = n: nat | n >= 1 witness 1

  /** The query string of the listing. Page and limit are already numbers. */
  datatype Criteria = Criteria(
    page: Option<Positive>,
    limit: Option<Positive>,
    category: Option<string>,
    level: Option<string>,
    search: Option<string>,
    sortBy: Option<string>,
    sortOrder: Option<string>,
    priceRange: Option<string>,
    rating: Option<string>)

  function PageOf(crit: Criteria): Positive {
    if crit.page.Some? then crit.page.value else 1
  }

  function LimitOf(crit: Criteria): Positive {
    if crit.limit.Some? then crit.limit.value else 12
  }

  function SortFieldOf(crit: Criteria): string {
    if crit.sortBy.Some? then crit.sortBy.value else "createdAt"
  }

  /** The document store refuses an empty field path, so `sortBy=` (which
      the default does not replace, being present) fails the query. */
  predicate Sortable(crit: Criteria) {
    SortFieldOf(crit) != ""
  }

  function SortKeyOf(crit: Criteria): Field {
    FieldNamed(SortFieldOf(crit))
  }

  /** The order is descending when sortOrder is "desc", which is also its
      default, and ascending for every other value. */
  predicate Descending(crit: Criteria) {
    crit.sortOrder.None? || crit.sortOrder.value == "desc"
  }

  // ---------------------------------------------------------------------
  // The price range and the rating threshold

  /** A bound on discountedPrice: at least min, or between min and max. */
  datatype PriceFilter = AtLeast(min: Num) | Between(min: Num, max: real)

  /** "min-max" split on '-', each part converted with Number. The upper
      bound is used only when it is present and truthy (neither 0 nor NaN). */
  function ParsePriceRange(range: string): (f: PriceFilter)
    ensures f.Between? ==> f.max != 0.0
    ensures f.min == NumberOf(Split(range, '-')[0])
  {
    var parts := Split(range, '-');
    var min := NumberOf(parts[0]);
    if |parts| >= 2 && NumberOf(parts[1]).Finite? && NumberOf(parts[1]).value != 0.0 then
      Between(min, NumberOf(parts[1]).value)
    else
      AtLeast(min)
  }

  /** A course whose discountedPrice is absent or null matches no price
      bound. */
  predicate InRange(f: PriceFilter, price: StoredNumber) {
    && price.Value?
    && f.min.Finite?
    && f.min.value <= price.value
    && (f.Between? ==> price.value <= f.max)
  }

  lemma DigitsHaveNoDash(s: string)
    requires AllDigits(s)
    ensures '-' !in s
  {
    forall i | 0 <= i < |s| ensures s[i] != '-' {
      assert IsDigit(s[i]);
    }
  }

  lemma SplitPair(a: string, b: string)
    requires '-' !in a && '-' !in b
    ensures Split(a + "-" + b, '-') == [a, b]
  {
    assert Join([a, b], '-') == a + "-" + b by {
      assert Join([b], '-') == b;
      assert [a, b][1..] == [b];
    }
    SplitJoin([a, b], '-');
  }

  /** "a-b" with decimal a and b selects prices in [a, b] when b is not 0,
      and prices of at least a when it is 0. */
  lemma {:induction false} PriceRangeOfDecimals(a: nat, b: nat)
    ensures b != 0 ==> ParsePriceRange(NatToDecimal(a) + "-" + NatToDecimal(b)) == Between(Finite(a as real), b as real)
    ensures b == 0 ==> ParsePriceRange(NatToDecimal(a) + "-" + NatToDecimal(b)) == AtLeast(Finite(a as real))
  {
    var x, y := NatToDecimal(a), NatToDecimal(b);
    DigitsHaveNoDash(x);
    DigitsHaveNoDash(y);
    SplitPair(x, y);
    NumberOfDecimal(a);
    NumberOfDecimal(b);
  }

  /** A range with no '-' is only a lower bound. */
  lemma {:induction false} PriceRangeOfOneDecimal(a: nat)
    ensures ParsePriceRange(NatToDecimal(a)) == AtLeast(Finite(a as real))
  {
    var x := NatToDecimal(a);
    DigitsHaveNoDash(x);
    assert IndexOf(x, '-') == |x|;
    assert Split(x, '-') == [x];
    NumberOfDecimal(a);
  }

  /** A query whose bound is NaN fails to cast to a number, and the handler
      answers 500. */
  predicate Castable(crit: Criteria) {
    && (TruthyString(crit.priceRange) ==> ParsePriceRange(crit.priceRange.value).min.Finite?)
    && (TruthyString(crit.rating) ==> NumberOf(crit.rating.value).Finite?)
  }

  // ---------------------------------------------------------------------
  // Which courses the listing selects

  /** A category or level filter is off when absent, empty or "all". */
  predicate Active(s: Option<string>) {
    TruthyString(s) && s.value != "all"
  }

  /** The three alternatives of the search: title, description or any tag
      contains the term, ignoring case. */
  predicate MatchesSearch(c: Course, term: string) {
    || ContainsIgnoringCase(c.title, term)
    || ContainsIgnoringCase(c.description, term)
    || exists i :: 0 <= i < |c.tags| && ContainsIgnoringCase(c.tags[i], term)
  }

  /** The selection the listing promises: a teacher sees exactly their own
      courses, anyone else only published ones, narrowed by each criterion
      that is set. */
  predicate Selected(caller: Option<Caller>, crit: Criteria, c: Course) {
    && (if IsTeacher(caller) then c.createdBy == caller.value.id else c.isPublished)
    && (Active(crit.category) ==> c.category == crit.category.value)
    && (Active(crit.level) ==> LevelName(c.level) == crit.level.value)
    && (TruthyString(crit.search) ==> MatchesSearch(c, crit.search.value))
    && (TruthyString(crit.priceRange) ==> InRange(ParsePriceRange(crit.priceRange.value), c.discountedPrice))
    && (TruthyString(crit.rating) ==>
          NumberOf(crit.rating.value).Finite? && c.rating >= NumberOf(crit.rating.value).value)
  }

  function SelectionOf(caller: Option<Caller>, crit: Criteria): Course -> bool {
    c => Selected(caller, crit, c)
  }

  /** The filter document the handler builds; a missing entry filters nothing. */
  datatype Query = Query(
    createdBy: Option<UserId>,
    isPublished: Option<bool>,
    category: Option<string>,
    level: Option<string>,
    search: Option<string>,
    discountedPrice: Option<PriceFilter>,
    rating: Option<Num>)

  predicate CastableQuery(q: Query) {
    && (q.discountedPrice.Some? ==> q.discountedPrice.value.min.Finite?)
    && (q.rating.Some? ==> q.rating.value.Finite?)
  }

  /** How the document store evaluates the filter on one course. */
  predicate Matches(q: Query, c: Course) {
    && (q.createdBy.Some? ==> c.createdBy == q.createdBy.value)
    && (q.isPublished.Some? ==> c.isPublished == q.isPublished.value)
    && (q.category.Some? ==> c.category == q.category.value)
    && (q.level.Some? ==> LevelName(c.level) == q.level.value)
    && (q.search.Some? ==> MatchesSearch(c, q.search.value))
    && (q.discountedPrice.Some? ==> InRange(q.discountedPrice.value, c.discountedPrice))
    && (q.rating.Some? ==> q.rating.value.Finite? && c.rating >= q.rating.value.value)
  }

  /** Builds the filter one entry at a time, as the handler does. The filter
      selects exactly the courses the listing promises, and it can be cast
      exactly when no bound is NaN. */
  method BuildQuery(caller: Option<Caller>, crit: Criteria) returns (q: Query)
    ensures CastableQuery(q) <==> Castable(crit)
    ensures forall c :: Matches(q, c) <==> Selected(caller, crit, c)
  {
    q := Query(None, None, None, None, None, None, None);
    if IsTeacher(caller) {
      q := q.(createdBy := Some(caller.value.id));
    } else {
      q := q.(isPublished := Some(true));
    }
    assert q.createdBy == (if IsTeacher(caller) then Some(caller.value.id) else None);
    assert q.isPublished == (if IsTeacher(caller) then None else Some(true));
    if Active(crit.category) {
      q := q.(category := crit.category);
    }
    assert q.category == (if Active(crit.category) then crit.category else None);
    if Active(crit.level) {
      q := q.(level := crit.level);
    }
    assert q.level == (if Active(crit.level) then crit.level else None);
    if TruthyString(crit.search) {
      q := q.(search := crit.search);
    }
    assert q.search == (if TruthyString(crit.search) then crit.search else None);
    if TruthyString(crit.priceRange) {
      q := q.(discountedPrice := Some(ParsePriceRange(crit.priceRange.value)));
    }
    assert q.discountedPrice == (if TruthyString(crit.priceRange) then Some(ParsePriceRange(crit.priceRange.value)) else None);
    if TruthyString(crit.rating) {
      q := q.(rating := Some(NumberOf(crit.rating.value)));
    }
    assert q.rating == (if TruthyString(crit.rating) then Some(NumberOf(crit.rating.value)) else None);
    QuerySelects(q, caller, crit);
  }

  /** A filter whose entries are the ones the handler sets selects exactly
      the listing's courses. */
  lemma QuerySelects(q: Query, caller: Option<Caller>, crit: Criteria)
    requires q.createdBy == (if IsTeacher(caller) then Some(caller.value.id) else None)
    requires q.isPublished == (if IsTeacher(caller) then None else Some(true))
    requires q.category == (if Active(crit.category) then crit.category else None)
    requires q.level == (if Active(crit.level) then crit.level else None)
    requires q.search == (if TruthyString(crit.search) then crit.search else None)
    requires q.discountedPrice == (if TruthyString(crit.priceRange) then Some(ParsePriceRange(crit.priceRange.value)) else None)
    requires q.rating == (if TruthyString(crit.rating) then Some(NumberOf(crit.rating.value)) else None)
    ensures CastableQuery(q) <==> Castable(crit)
    ensures forall c :: Matches(q, c) <==> Selected(caller, crit, c)
  {
  }

  // ---------------------------------------------------------------------
  // Sorting

  /** A sort key, ranked across types the way the document store orders
      them: missing values first, then numbers, strings, booleans and
      dates. */
  datatype SortKey = Missing | Number(x: real) | Text(s: string) | Boolean(b: bool) | Date(t: int)

  function Rank(k: SortKey): nat {
    match k
    case Missing => 0
    case Number(_) => 1
    case Text(_) => 2
    case Boolean(_) => 3
    case Date(_) => 4
  }

  /** Comparison of strings character by character. */
  predicate LexLe(a: string, b: string) {
    if a == [] then true
    else if b == [] then false
    else if a[0] != b[0] then a[0] < b[0]
    else LexLe(a[1..], b[1..])
  }

  lemma {:induction false} LexLeTotal(a: string, b: string)
    ensures LexLe(a, b) || LexLe(b, a)
  {
    if a != [] && b != [] && a[0] == b[0] {
      LexLeTotal(a[1..], b[1..]);
    }
  }

  lemma {:induction false} LexLeTransitive(a: string, b: string, c: string)
    requires LexLe(a, b) && LexLe(b, c)
    ensures LexLe(a, c)
  {
    if a != [] && b != [] && c != [] && a[0] == b[0] && b[0] == c[0] {
      LexLeTransitive(a[1..], b[1..], c[1..]);
    }
  }

  predicate KeyLe(a: SortKey, b: SortKey) {
    if Rank(a) != Rank(b) then Rank(a) < Rank(b)
    else match (a, b)
      case (Number(x), Number(y)) => x <= y
      case (Text(s), Text(t)) => LexLe(s, t)
      case (Boolean(x), Boolean(y)) => !x || y
      case (Date(x), Date(y)) => x <= y
      case _ => true
  }

  /** An absent and a null number both sort as missing. */
  function OptionalNumber(x: StoredNumber): SortKey {
    if x.Value? then Number(x.value) else Missing
  }

  /** The course fields a listing can be sorted by. Any other name (an
      array, a nested document, an unknown field) is missing for every
      course, so all courses tie. */
  datatype Field =
    | TitleField | DescriptionField | CategoryField | LanguageField | LevelField
    | PricingPlanField | CoverImageField | CreatedByField | RatingField | DurationField
    | TotalPriceField | DiscountedPriceField | IsPublishedField | CreatedAtField
    | LastUpdatedField | OtherField

  function FieldNamed(name: string): Field {
    if name == "title" then TitleField
    else if name == "description" then DescriptionField
    else if name == "category" then CategoryField
    else if name == "language" then LanguageField
    else if name == "level" then LevelField
    else if name == "pricingPlan" then PricingPlanField
    else if name == "coverImage" then CoverImageField
    else if name == "createdBy" then CreatedByField
    else if name == "rating" then RatingField
    else if name == "duration" then DurationField
    else if name == "totalPrice" then TotalPriceField
    else if name == "discountedPrice" then DiscountedPriceField
    else if name == "isPublished" then IsPublishedField
    else if name == "createdAt" then CreatedAtField
    else if name == "lastUpdated" then LastUpdatedField
    else OtherField
  }

  /** The value a course sorts by under the given field. */
  function KeyOf(field: Field, c: Course): SortKey {
    match field
    case TitleField => Text(c.title)
    case DescriptionField => Text(c.description)
    case CategoryField => Text(c.category)
    case LanguageField => Text(c.language)
    case LevelField => Text(LevelName(c.level))
    case PricingPlanField => Text(PricingPlanName(c.pricingPlan))
    case CoverImageField => Text(c.coverImage)
    case CreatedByField => Text(c.createdBy)
    case RatingField => Number(c.rating)
    case DurationField => Number(c.duration)
    case TotalPriceField => OptionalNumber(c.totalPrice)
    case DiscountedPriceField => OptionalNumber(c.discountedPrice)
    case IsPublishedField => Boolean(c.isPublished)
    case CreatedAtField => Date(c.createdAt)
    case LastUpdatedField => Date(c.lastUpdated)
    case OtherField => Missing
  }

  /** The order of a one-field sort, ascending or descending. */
  function Order(field: Field, desc: bool): (Course, Course) -> bool {
    if desc then (a: Course, b: Course) => KeyLe(KeyOf(field, b), KeyOf(field, a))
    else (a: Course, b: Course) => KeyLe(KeyOf(field, a), KeyOf(field, b))
  }

  /** Sorting by rating, highest first. */
  lemma ByRatingDescending(a: Course, b: Course)
    ensures Order(RatingField, true)(a, b) <==> a.rating >= b.rating
  {
  }

  lemma KeyLeTotal(a: SortKey, b: SortKey)
    ensures KeyLe(a, b) || KeyLe(b, a)
  {
    if a.Text? && b.Text? {
      LexLeTotal(a.s, b.s);
    }
  }

  lemma KeyLeTransitive(a: SortKey, b: SortKey, c: SortKey)
    requires KeyLe(a, b) && KeyLe(b, c)
    ensures KeyLe(a, c)
  {
    if a.Text? && b.Text? && c.Text? {
      LexLeTransitive(a.s, b.s, c.s);
    }
  }

  /** Every one-field order is a total preorder, so sorting by it is defined. */
  lemma OrderIsTotalPreorder(field: Field, desc: bool)
    ensures TotalPreorder(Order(field, desc))
  {
    var le := Order(field, desc);
    forall a: Course, b: Course ensures le(a, b) || le(b, a) {
      KeyLeTotal(KeyOf(field, a), KeyOf(field, b));
    }
    forall a: Course, b: Course, c: Course | le(a, b) && le(b, c) ensures le(a, c) {
      if desc {
        KeyLeTransitive(KeyOf(field, c), KeyOf(field, b), KeyOf(field, a));
      } else {
        KeyLeTransitive(KeyOf(field, a), KeyOf(field, b), KeyOf(field, c));
      }
    }
  }

  function Arranged(s: seq<Course>, field: Field, desc: bool): (r: seq<Course>)
    ensures SortedBy(r, Order(field, desc))
    ensures multiset(r) == multiset(s)
    ensures |r| == |s|
  {
    OrderIsTotalPreorder(field, desc);
    InsertionSort(s, Order(field, desc))
  }

  // ---------------------------------------------------------------------
  // Paging

  function Min(a: int, b: int): int {
    if a <= b then a else b
  }

  /** The number of elements before page page: (page - 1) * limit. */
  function Offset(page: Positive, limit: Positive): (n: nat)
    ensures n == (page - 1) * limit
  {
    MulMonotone(0, page - 1, limit);
    (page - 1) * limit
  }

  /** Skip the elements before the page, then take at most limit. */
  function Page<T>(s: seq<T>, page: Positive, limit: Positive): (r: seq<T>)
    ensures |r| <= limit
    ensures |r| == Min(limit, |s| - Min(Offset(page, limit), |s|))
    ensures forall i :: 0 <= i < |r| ==> r[i] == s[Offset(page, limit) + i]
  {
    var skip := Min(Offset(page, limit), |s|);
    s[skip..Min(skip + limit, |s|)]
  }

  /** The element at index i is on page i / limit + 1, at offset i % limit. */
  lemma PageHolds<T>(s: seq<T>, limit: Positive, i: nat)
    requires i < |s|
    ensures Offset(i / limit + 1, limit) <= i
    ensures i % limit < |Page(s, i / limit + 1, limit)|
    ensures Page(s, i / limit + 1, limit)[i % limit] == s[i]
  {
    var p: Positive := i / limit + 1;
    assert (i / limit) * limit + i % limit == i;
    assert Offset(p, limit) + i % limit == i;
  }

  /** Every element is on a page no later than the last one. */
  lemma PageFinds<T>(s: seq<T>, x: T, limit: Positive) returns (p: Positive)
    requires x in s
    ensures p <= CeilDiv(|s|, limit) && x in Page(s, p, limit)
  {
    var i :| 0 <= i < |s| && s[i] == x;
    p := i / limit + 1;
    PageHolds(s, limit, i);
    var page := Page(s, p, limit);
    assert page[i % limit] == x;
    var q := CeilDiv(|s|, limit);
    if q < p {
      MulMonotone(q, p - 1, limit);
    }
  }

  lemma MulMonotone(a: nat, b: nat, c: nat)
    requires a <= b
    ensures a * c <= b * c
  {
    assert b * c == a * c + (b - a) * c;
  }

  /** A page of a sorted sequence is sorted. */
  lemma PageOfSorted<T>(s: seq<T>, le: (T, T) -> bool, page: Positive, limit: Positive)
    requires SortedBy(s, le)
    ensures SortedBy(Page(s, page, limit), le)
  {
    var r := Page(s, page, limit);
    var skip := Offset(page, limit);
    forall i, j | 0 <= i < j < |r| ensures le(r[i], r[j]) {
      assert r[i] == s[skip + i] && r[j] == s[skip + j];
    }
  }

  /** The number of pages of limit elements needed for n elements. */
  function CeilDiv(n: nat, d: Positive): (q: nat)
    ensures q * d >= n
    ensures q > 0 ==> (q - 1) * d < n
  {
    var q := (n + d - 1) / d;
    var r := (n + d - 1) % d;
    assert q * d + r == n + d - 1;
    assert (q - 1) * d == q * d - d;
    q
  }

  // ---------------------------------------------------------------------
  // The listing

  datatype Listing = Listing(courses: seq<Course>, totalPages: nat, currentPage: Positive, total: nat)

  /** The reply for the courses the filter matched, in the store's order. */
  function ListingOf(matched: seq<Course>, crit: Criteria): (r: Listing)
    ensures r.total == |matched| && r.currentPage == PageOf(crit)
    ensures |r.courses| <= LimitOf(crit)
    ensures forall c :: c in r.courses ==> c in matched
    ensures r.totalPages * LimitOf(crit) >= |matched|
  {
    var sorted := Arranged(matched, SortKeyOf(crit), Descending(crit));
    var page := Page(sorted, PageOf(crit), LimitOf(crit));
    assert forall c :: c in page ==> c in multiset(sorted);
    Listing(page, CeilDiv(|matched|, LimitOf(crit)), PageOf(crit), |matched|)
  }

  /** The listing for a given caller. */
  method ListCourses(courses: seq<Course>, caller: Option<Caller>, crit: Criteria) returns (r: Outcome<Listing>)
    ensures r.Fail? <==> !Castable(crit) || !Sortable(crit)
    ensures r.Fail? ==> r == Fail(ServerError, CourseRules.InternalError)
    ensures r.Ok? ==> r.value == ListingOf(Filter(courses, SelectionOf(caller, crit)), crit)
  {
    var q := BuildQuery(caller, crit);
    if !CastableQuery(q) {
      return Fail(ServerError, CourseRules.InternalError);
    }
    var field := if crit.sortBy.Some? then crit.sortBy.value else "createdAt";
    if field == "" {
      return Fail(ServerError, CourseRules.InternalError);
    }
    var matched := Filter(courses, (c: Course) => Matches(q, c));
    FilterCongruent(courses, (c: Course) => Matches(q, c), SelectionOf(caller, crit));
    var page: Positive := if crit.page.Some? then crit.page.value else 1;
    var limit: Positive := if crit.limit.Some? then crit.limit.value else 12;
    var sorted := Arranged(matched, FieldNamed(field), crit.sortOrder.None? || crit.sortOrder.value == "desc");
    r := Ok(Listing(Page(sorted, page, limit), CeilDiv(|matched|, limit), page, |matched|));
  }

  /** The handler as written reads the caller's role without checking that
      there is a caller, so a request without one fails with 500. */
  method GetAllCourses(courses: seq<Course>, caller: Option<Caller>, crit: Criteria) returns (r: Outcome<Listing>)
    ensures caller.None? ==> r == Fail(ServerError, CourseRules.InternalError)
    ensures caller.Some? ==> (r.Fail? <==> !Castable(crit) || !Sortable(crit))
    ensures caller.Some? && r.Ok? ==> r.value == ListingOf(Filter(courses, SelectionOf(caller, crit)), crit)
  {
    if caller.None? {
      return Fail(ServerError, CourseRules.InternalError);
    }
    r := ListCourses(courses, caller, crit);
  }

  /** What a caller may see: a teacher only their own courses, anyone else
      only published ones; and every listed course comes from the
      collection and meets every criterion. */
  lemma ListingShowsOnlySelected(courses: seq<Course>, caller: Option<Caller>, crit: Criteria, c: Course)
    requires c in ListingOf(Filter(courses, SelectionOf(caller, crit)), crit).courses
    ensures c in courses && Selected(caller, crit, c)
    ensures IsTeacher(caller) ==> c.createdBy == caller.value.id
    ensures !IsTeacher(caller) ==> c.isPublished
  {
    var matched := Filter(courses, SelectionOf(caller, crit));
    var sorted := Arranged(matched, SortKeyOf(crit), Descending(crit));
    var shown := Page(sorted, PageOf(crit), LimitOf(crit));
    var i :| 0 <= i < |shown| && shown[i] == c;
    assert c in sorted;
    assert c in multiset(matched);
  }

  /** The page is in the requested order: descending exactly when sortOrder
      is "desc" or absent. */
  lemma ListingIsSorted(matched: seq<Course>, crit: Criteria)
    ensures SortedBy(ListingOf(matched, crit).courses, Order(SortKeyOf(crit), Descending(crit)))
  {
    var sorted := Arranged(matched, SortKeyOf(crit), Descending(crit));
    PageOfSorted(sorted, Order(SortKeyOf(crit), Descending(crit)), PageOf(crit), LimitOf(crit));
  }

  /** total counts the matches and totalPages is the least number of pages
      of limit courses that holds them all. */
  lemma ListingCounts(matched: seq<Course>, crit: Criteria)
    ensures ListingOf(matched, crit).total == |matched|
    ensures ListingOf(matched, crit).totalPages * LimitOf(crit) >= |matched|
    ensures ListingOf(matched, crit).totalPages > 0 ==> (ListingOf(matched, crit).totalPages - 1) * LimitOf(crit) < |matched|
    ensures ListingOf(matched, crit).currentPage == PageOf(crit)
    ensures |ListingOf(matched, crit).courses| <= LimitOf(crit)
  {
  }

  /** Every selected course of the collection is on some page of the
      listing, within the page count. */
  lemma ListingFindsSelected(courses: seq<Course>, caller: Option<Caller>, crit: Criteria, c: Course)
    requires c in courses && Selected(caller, crit, c)
    ensures exists p: Positive :: p <= ListingOf(Filter(courses, SelectionOf(caller, crit)), crit).totalPages
              && c in ListingOf(Filter(courses, SelectionOf(caller, crit)), crit.(page := Some(p))).courses
  {
    var matched := Filter(courses, SelectionOf(caller, crit));
    assert SelectionOf(caller, crit)(c);
    assert c in matched;
    var sorted := Arranged(matched, SortKeyOf(crit), Descending(crit));
    assert c in multiset(sorted);
    var p := PageFinds(sorted, c, LimitOf(crit));
    var crit' := crit.(page := Some(p));
    assert ListingOf(matched, crit').courses == Page(sorted, p, LimitOf(crit));
  }

  // ---------------------------------------------------------------------
  // One course

  datatype CourseDetail = CourseDetail(course: Course, isEnrolled: bool)

  /** A missing course is 404; isEnrolled is set for a student caller who is
      among the enrolled students, and false for everyone else. */
  function GetCourseById(courses: map<CourseId, Course>, caller: Option<Caller>, id: CourseId): (r: Outcome<CourseDetail>)
    ensures id !in courses <==> r == Fail(NotFound, "Course not found")
    ensures r.Ok? ==> r.value.course == courses[id]
    ensures r.Ok? ==>
              (r.value.isEnrolled <==>
                 caller.Some? && caller.value.role == UserModel.Student && caller.value.id in courses[id].enrolledStudents)
  {
    if id !in courses then Fail(NotFound, "Course not found")
    else
      var enrolled := caller.Some? && caller.value.role == UserModel.Student
                      && caller.value.id in courses[id].enrolledStudents;
      Ok(CourseDetail(courses[id], enrolled))
  }

  // ---------------------------------------------------------------------
  // A student's courses, featured courses, categories

  /** The published courses the student is enrolled in, in store order. */
  function EnrolledCourses(courses: seq<Course>, student: UserId): (r: seq<Course>)
    ensures forall c :: c in r <==> c in courses && student in c.enrolledStudents && c.isPublished
  {
    Filter(courses, (c: Course) => student in c.enrolledStudents && c.isPublished)
  }

  predicate Featurable(c: Course) {
    c.isPublished && c.rating >= 4.0
  }

  function Take<T>(s: seq<T>, n: nat): (r: seq<T>)
    ensures |r| == Min(n, |s|) && r == s[..|r|]
  {
    s[..Min(n, |s|)]
  }

  /** A sequence sorted by rating, highest first, has ratings that never
      increase. */
  lemma RatingsDescend(s: seq<Course>)
    requires SortedBy(s, Order(RatingField, true))
    ensures forall i, j :: 0 <= i < j < |s| ==> s[i].rating >= s[j].rating
  {
    forall i, j | 0 <= i < j < |s| ensures s[i].rating >= s[j].rating {
      ByRatingDescending(s[i], s[j]);
    }
  }

  lemma SameElements(s: seq<Course>, t: seq<Course>)
    requires multiset(s) == multiset(t)
    ensures forall c :: c in s <==> c in t
  {
    forall c ensures c in s <==> c in t {
      assert c in s <==> c in multiset(s);
      assert c in t <==> c in multiset(t);
    }
  }

  /** Published courses rated at least 4, highest rating first, at most six. */
  function Featured(courses: seq<Course>): (r: seq<Course>)
    ensures |r| <= 6
    ensures forall c :: c in r ==> c in courses && Featurable(c)
    ensures forall i, j :: 0 <= i < j < |r| ==> r[i].rating >= r[j].rating
  {
    var candidates := Filter(courses, Featurable);
    var sorted := Arranged(candidates, RatingField, true);
    SameElements(sorted, candidates);
    RatingsDescend(sorted);
    Take(sorted, 6)
  }

  /** Six courses are shown when six qualify, and no qualifying course that
      is left out is rated above a shown one. */
  lemma FeaturedIsTopRated(courses: seq<Course>, c: Course)
    requires c in courses && Featurable(c)
    ensures |Featured(courses)| == Min(6, |Filter(courses, Featurable)|)
    ensures c !in Featured(courses) ==> forall d :: d in Featured(courses) ==> d.rating >= c.rating
  {
    var candidates := Filter(courses, Featurable);
    var sorted := Arranged(candidates, RatingField, true);
    assert Featured(courses) == Take(sorted, 6);
    if c !in Featured(courses) {
      assert c in multiset(sorted);
      var j :| 0 <= j < |sorted| && sorted[j] == c;
      forall d | d in Featured(courses) ensures d.rating >= c.rating {
        var i :| 0 <= i < |Featured(courses)| && Featured(courses)[i] == d;
        assert i < j;
        ByRatingDescending(sorted[i], sorted[j]);
      }
    }
  }

  /** The category of every course, in order. */
  function Categories(courses: seq<Course>): (r: seq<string>)
    ensures |r| == |courses|
    ensures forall i :: 0 <= i < |r| ==> r[i] == courses[i].category
  {
    if courses == [] then [] else [courses[0].category] + Categories(courses[1..])
  }

  /** The distinct categories of the published courses. */
  function PublishedCategories(courses: seq<Course>): (r: seq<string>)
    ensures NoDuplicates(r)
    ensures forall x :: x in r <==> exists c :: c in courses && c.isPublished && c.category == x
  {
    var published := Filter(courses, (c: Course) => c.isPublished);
    var r := Distinct(Categories(published));
    assert forall x :: x in r ==> exists c :: c in courses && c.isPublished && c.category == x by {
      forall x | x in r ensures exists c :: c in courses && c.isPublished && c.category == x {
        var i :| 0 <= i < |Categories(published)| && Categories(published)[i] == x;
        assert published[i] in published;
      }
    }
    assert forall c :: c in courses && c.isPublished ==> c.category in r by {
      forall c | c in courses && c.isPublished ensures c.category in r {
        var i :| 0 <= i < |published| && published[i] == c;
        assert Categories(published)[i] == c.category;
      }
    }
    r
  }
}
