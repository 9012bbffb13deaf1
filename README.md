# Course marketplace backend, modelled in Dafny

This project models the backend core of a course marketplace. Teachers
create, edit, publish and delete courses, and attach PDF and video files
to them. Students browse the published courses, enroll and leave one
review per course. Users register, log in and reset forgotten passwords.

The document store becomes a `map` from id to record (`CourseStore.courses`,
`UserStore.users`). A query over the collection becomes a filter over a
`seq` of courses in the store's natural order. The caller's id and role,
the current time, the random file-name suffix, the password hash, the hash
comparison, the token signer and the random reset token are all explicit
parameters.

Modules, one per concern:

- `Http`: handler outcomes (a value, or a status with its error message)
  and JavaScript truthiness of optional strings.
- `Strings`, `Numbers`, `Sorting`: the parts of JavaScript and of the
  document store that the handlers rely on. These are `trim`,
  `toLowerCase`, `split(',')`, substring search, `Number(...)`, NaN
  arithmetic, filter, insertion sort and `distinct`.
- `Upload`: the multer middleware. It holds the MIME allow-list, the
  mapping from MIME type to folder, and the stored file name.
- `CourseModel`: the course and review documents, the schema's casts of
  request strings to Number paths (`CastNumber`, `OrNumber`), its
  validators (`ValidCourse`), the `pre('save')` hook (`Save`) and the
  invariant every stored course keeps (`WellFormed`). A stored Number path
  is absent, null or a number (`StoredNumber`).
- `CourseRules`: what each mutating course handler does to one record, as
  functions from the stored record to the saved record or the error reply.
- `CourseController`: the class `CourseStore` holding the course map, and
  the handlers that look a course up, check it and overwrite fields in
  place. Each handler is proved to return what the matching `CourseRules`
  function says and to keep every stored course well formed.
- `CourseQueries`: the listing (filter document, price range, search,
  sort, page), a single course with its `isEnrolled` flag, the enrolled
  courses, the featured courses and the categories.
- `CourseAnalytics`: the teacher dashboard aggregates.
- `CourseRoutes`: the standalone cover and PDF upload routes, and the two
  routes that attach a PDF or a video to a course.
- `UserModel`, `UserController`: the user document with its defaults and
  normalisation, and the class `UserStore` with registration, login, the
  forgotten-password token, the reset and the profile view.

Behaviours of the code that a reader might not expect, all modelled as
written:

- A repeated enrollment is a 400 reply, not a silent no-op.
- The PDF attach route always titles the entry with the file's original
  name and ignores any title in the body.
- `updateCourse` zeroes both prices whenever the request does not name the
  one-time plan, even when the stored plan stays one-time.
- The two attach routes use a single atomic `$push`. That update skips the
  save hook and the validators, so `lastUpdated` does not change.
- `getAllCourses` reads `req.user.role` without checking that a user is
  attached. `CourseQueries.GetAllCourses` therefore answers 500 for a
  request without a caller. Whether such a request can reach the handler
  depends on the authentication middleware, which is not part of this
  model.
- The create, update and video routes take multipart form data, so every
  number in their bodies arrives as a string. A non-empty string is truthy,
  so `duration || course.duration` stores 0 for the string "0". The schema
  casts the empty string to null, and a null discounted price counts as 0
  in the dashboard revenue, where an absent one gives NaN. A string that is
  not a number fails the cast, and the handler answers 500.
- A key whose value is undefined is dropped from a store filter, so it
  matches every user. Registration without an email or a username is
  therefore a duplicate as soon as any user exists
  (`UserController.MissingFieldIsDuplicate`). Login and the forgotten
  password request without an email look up an arbitrary user, and the
  latter issues that user a reset token.
- `sortBy` given but empty is not replaced by its default; the store
  refuses the empty field path and the listing answers 500.

## Model

| member | source | states |
|---|---|---|
| `Upload.FileFilter` | backend/middleware/upload.js:42-62 | a file is accepted iff its MIME type is one of the 11 listed types; otherwise the error is "Unsupported file type: " followed by the type |
| `Upload.Destination` | backend/middleware/upload.js:14-26 | a file goes to uploads/misc exactly when its type is none of `image/…`, `application/pdf`, `video/…`, `audio/…` |
| `Upload.DestinationByPrefix` | backend/middleware/upload.js:14-26 | an `image/` type goes to uploads/images and only such a type does; uploads/videos and uploads/audio are chosen only for `video/` and `audio/` types |
| `Upload.PdfFolderIsForPdfOnly` | backend/middleware/upload.js:18-21 | uploads/pdfs is chosen exactly for `application/pdf` |
| `Upload.AcceptedTypesHaveFolders` | backend/middleware/upload.js:14-55 | every accepted MIME type maps to a folder other than uploads/misc, namely the folder of its own kind |
| `Upload.NameAndExtension` | backend/middleware/upload.js:35-36 | the base name without the extension, followed by the extension, is the original name again |
| `Upload.UniqueSuffixHasNoDot` | backend/middleware/upload.js:34 | the time-and-random suffix contains no '.', so it cannot change the extension |
| `Upload.StoredFilename` | backend/middleware/upload.js:32-38 | the stored name is one '-' and the suffix longer than the original name, and ends with the original name's extension |
| `Upload.StoredFilenameKeepsExtension` | backend/middleware/upload.js:32-38 | the stored name `name-suffix.ext` has the same extension as the original name |
| `Upload.Receive` | backend/middleware/upload.js:14-62 | no file passes through; a refused type is an error; an accepted file is stored in its type's folder under the unique name |
| `CourseModel.ParsePricingPlan` | backend/models/course.js:39-43 | exactly "free" and "one-time" pass the pricingPlan enum |
| `CourseModel.ParseLevel` | backend/models/course.js:60-64 | exactly "Beginner", "Intermediate" and "Advanced" pass the level enum |
| `CourseModel.CastNumber` | backend/models/course.js:44-50 | a missing field stays absent, the empty string becomes null, another string its `Number` value, and a string that is not a number is a cast error |
| `CourseModel.OrNumber` | backend/controllers/courseController.js:31 | `a || fallback` on a request string: the fallback exactly when the string is missing or empty, otherwise the cast of the string, a cast error included |
| `CourseModel.CastDecimal` | backend/controllers/courseController.js:199 | a decimal string casts to its value, and "0" is truthy, so it stores 0 rather than the fallback |
| `CourseModel.Save` | backend/models/course.js:150-153 | a save succeeds iff the schema validators pass; it then sets lastUpdated to the save time and changes no other field |
| `CourseModel.MeanRatingBounds` | backend/controllers/courseController.js:316-318 | the mean of valid review ratings is 0 with no reviews and lies in 1..5 otherwise; mean × count = sum |
| `CourseRules.TagsOf` | backend/controllers/courseController.js:33 | the tags are the comma-separated pieces of a non-empty tags string (joining them back gives the string), and empty otherwise |
| `CourseRules.Created` | backend/controllers/courseController.js:12-47 | a new course is unpublished, with no students, reviews, PDFs or videos, rating 0 and createdBy = caller, whatever the input; it carries the trimmed title, the description, the sent plan and level (defaults otherwise), the cast prices and `duration || 0`; category, language and tags get their defaults when not sent; creation fails with 500 exactly when a required field, an enum check or a number cast fails |
| `CourseRules.CreatedIsWellFormed` | backend/controllers/courseController.js:18-41 | a created course satisfies the course invariant |
| `CourseRules.Updated` | backend/controllers/courseController.js:170-207 | a non-owner gets 403; the owner's update succeeds exactly when the plan and level names are known, every number casts and the merged course passes the validators; otherwise each text, enum and number field keeps its old value when the incoming string is missing or empty, and a number string, "0" included, is cast; both prices take the cast incoming values only when the request names "one-time" and are 0 otherwise; a string that fails to cast gives 500; tags are replaced only when supplied; nothing else changes but lastUpdated |
| `CourseRules.UpdateKeepsWellFormed` | backend/controllers/courseController.js:192-203 | an accepted update keeps the course invariant |
| `CourseRules.SwitchToFreeZeroesPrices` | backend/controllers/courseController.js:194-196 | the owner switching a course to "free" always succeeds and zeroes both prices |
| `CourseRules.Toggled` | backend/controllers/courseController.js:214-233 | a non-owner gets 403; the owner's toggle flips isPublished and changes nothing but lastUpdated |
| `CourseRules.ToggleTwice` | backend/controllers/courseController.js:223-224 | toggling twice restores the original course except for the save time |
| `CourseRules.ToggleKeepsWellFormed` | backend/controllers/courseController.js:223-224 | toggling keeps the course invariant |
| `CourseRules.Enrolled` | backend/controllers/courseController.js:247-261 | an unpublished course gives 400 before the duplicate check; an enrolled student gives 400; otherwise exactly the caller is appended and nothing else changes but lastUpdated |
| `CourseRules.EnrollKeepsWellFormed` | backend/controllers/courseController.js:251-256 | enrollment keeps the course invariant |
| `CourseRules.EnrollAllNoDuplicates` | backend/controllers/courseController.js:251-255 | from a duplicate-free list, no sequence of enroll requests creates a duplicate; on a published course the enrolled set grows by exactly the requesting students |
| `CourseRules.FirstReviewBy` | backend/controllers/courseController.js:299-301 | finds the first review written by the user, or reports that there is none |
| `CourseRules.Upsert` | backend/controllers/courseController.js:299-314 | the list keeps its length when the author already reviewed and grows by one otherwise; the author's first review, or the appended one, carries the new rating, comment and time |
| `CourseRules.UpsertSpec` | backend/controllers/courseController.js:299-314 | the review list grows by one iff the author had no review; the author's review carries the new rating and comment; other reviews stay where they were; one review per author is preserved |
| `CourseRules.UpsertAuthors` | backend/controllers/courseController.js:303-314 | after the upsert every review is an old one or the author's, and all are valid when the inputs are |
| `CourseRules.Reviewed` | backend/controllers/courseController.js:294-325 | a caller who is not enrolled gets 403; otherwise the reviews are upserted by author, the count is at least 1, the rating is the mean of the review ratings and lies in 1..5, and nothing else changes but lastUpdated |
| `CourseRules.ReviewKeepsWellFormed` | backend/controllers/courseController.js:303-320 | a review keeps the course invariant: one review per author, only from enrolled students, and rating = mean of ratings |
| `CourseRules.ReviewAccepted` | backend/controllers/courseController.js:294-320 | an enrolled student's review with a rating in 1..5 and a non-empty comment is always accepted |
| `CourseController.MergeFields` | backend/controllers/courseController.js:181-201 | the field assignments of the update give exactly the merged record, with the parsed plan and level and whether every number cast |
| `CourseController.CourseStore.CreateCourse` | backend/controllers/courseController.js:7-47 | stores the created course under its new id, or leaves the store unchanged on failure; the store stays well formed |
| `CourseController.CourseStore.UpdateCourse` | backend/controllers/courseController.js:154-208 | 404 for a missing course; otherwise the reply is the update rule's; on failure the store is unchanged |
| `CourseController.CourseStore.TogglePublish` | backend/controllers/courseController.js:212-233 | 404 for a missing course, 403 for a non-owner with the store unchanged; otherwise the flipped course is stored and its new state is returned, and the owner's toggle of an existing course always succeeds |
| `CourseController.CourseStore.Enroll` | backend/controllers/courseController.js:237-262 | 404 for a missing course; otherwise the enroll rule's error, or "Successfully enrolled in course" with the enrolled course stored; only the one course changes, and only on success |
| `CourseController.CourseStore.AddReview` | backend/controllers/courseController.js:282-325 | 404 for a missing course; otherwise the review rule's error, or "Review added successfully" with the reviewed course stored, built by overwriting the existing review in place or appending one |
| `CourseController.CourseStore.DeleteCourse` | backend/controllers/courseController.js:361-392 | 404 for a missing course; 403 for a non-owner with the store unchanged; the owner's delete removes exactly that course |
| `CourseQueries.ParsePriceRange` | backend/controllers/courseController.js:92-98 | the minimum is Number of the part before '-'; an upper bound is used only when the second part is a truthy number |
| `CourseQueries.PriceRangeOfDecimals` | backend/controllers/courseController.js:92-98 | "a-b" selects prices in [a, b] when b ≠ 0, and prices ≥ a when b = 0 |
| `CourseQueries.PriceRangeOfOneDecimal` | backend/controllers/courseController.js:92-98 | a range with no '-' is only a lower bound |
| `CourseQueries.BuildQuery` | backend/controllers/courseController.js:65-103 | the filter built one entry at a time matches exactly the courses the listing promises: a teacher's own courses, or else published ones; category and level unless absent or "all"; title OR description OR a tag containing the search term, ignoring case; the price range; rating ≥ threshold |
| `CourseQueries.OrderIsTotalPreorder` | backend/controllers/courseController.js:105-106 | every one-field sort, ascending or descending, is a total preorder |
| `CourseQueries.Arranged` | backend/controllers/courseController.js:105-110 | the sorted result is a permutation of the matches, in the requested order |
| `Sorting.SortOfTiesKeepsOrder` | backend/controllers/courseController.js:105-110 | when every course ties on the sort key, the sort returns them in the store's order |
| `CourseQueries.Page` | backend/controllers/courseController.js:111-112 | the page holds at most limit elements, namely the elements from index (page−1)·limit on |
| `CourseQueries.PageHolds` | backend/controllers/courseController.js:111-112 | element i is on page i / limit + 1 |
| `CourseQueries.PageOfSorted` | backend/controllers/courseController.js:108-113 | a page of a sorted sequence is sorted |
| `CourseQueries.CeilDiv` | backend/controllers/courseController.js:119 | totalPages = ceil(total / limit): the least count of pages that holds all matches |
| `CourseQueries.ListingOf` | backend/controllers/courseController.js:104-121 | the reply holds at most `limit` courses, all from the matched ones; total is the number matched; the page count times the limit covers them all; currentPage is the requested page |
| `CourseQueries.ListCourses` | backend/controllers/courseController.js:65-122 | a NaN price or rating bound, or an empty sortBy, gives 500; otherwise the reply is the sorted page of the matching courses with total and page count |
| `CourseQueries.GetAllCourses` | backend/controllers/courseController.js:51-127 | a request without a caller gives 500, as the role is read unguarded; otherwise it behaves as the listing |
| `CourseQueries.ListingShowsOnlySelected` | backend/controllers/courseController.js:68-103 | every listed course comes from the collection and meets every criterion: a teacher sees only their own courses, anyone else only published ones |
| `CourseQueries.ListingIsSorted` | backend/controllers/courseController.js:105-110 | the page is sorted, descending iff sortOrder is "desc" or absent |
| `CourseQueries.ListingCounts` | backend/controllers/courseController.js:115-121 | total is the number of matches, totalPages is ceil(total/limit), currentPage is the requested page, and a page has at most limit courses |
| `CourseQueries.ListingFindsSelected` | backend/controllers/courseController.js:108-119 | every matching course appears on some page no later than totalPages |
| `CourseQueries.GetCourseById` | backend/controllers/courseController.js:130-146 | 404 iff the id is missing; isEnrolled iff the caller is a student listed among the enrolled students |
| `CourseQueries.EnrolledCourses` | backend/controllers/courseController.js:268-274 | exactly the published courses the student is enrolled in |
| `CourseQueries.Featured` | backend/controllers/courseController.js:398-404 | at most 6 courses, all published with rating ≥ 4, ordered by rating from highest |
| `CourseQueries.FeaturedIsTopRated` | backend/controllers/courseController.js:398-404 | six are shown when six qualify, and no qualifying course left out is rated above a shown one |
| `CourseQueries.PublishedCategories` | backend/controllers/courseController.js:416 | the categories of published courses, each once |
| `CourseAnalytics.OwnCourses` | backend/controllers/courseController.js:333 | exactly the courses the teacher created |
| `CourseAnalytics.CountPublished` | backend/controllers/courseController.js:337 | publishedCourses is the number of published courses |
| `CourseAnalytics.Revenue` | backend/controllers/courseController.js:340-342 | a course's revenue is discountedPrice × enrolled count, 0 for a null price, and NaN for an absent one |
| `CourseAnalytics.Stats` | backend/controllers/courseController.js:343-350 | one stat line per course, in the same order |
| `CourseAnalytics.AnalyticsOf` | backend/controllers/courseController.js:333-351 | totalCourses is the number of the teacher's courses and of stat lines; published ≤ total; with no course every total is 0 and the average rating is 0 |
| `CourseAnalytics.AnalyticsCoverOwnCourses` | backend/controllers/courseController.js:333-351 | totalCourses = number of own courses = number of stat lines; published ≤ total; every line describes one of the teacher's courses |
| `CourseAnalytics.AverageRatingBounds` | backend/controllers/courseController.js:339 | averageRating is 0 when there are no courses, and lies in 0..5 |
| `CourseAnalytics.TotalsMatchStats` | backend/controllers/courseController.js:338-348 | totalStudents is the sum of the stat lines' student counts; totalRevenue is a number iff every line's revenue is |
| `CourseAnalytics.RevenueNaNUnlessPriced` | backend/controllers/courseController.js:340-342 | totalRevenue is NaN iff some course has no discounted price at all (null counts as 0), and is non-negative when every price is null or non-negative |
| `CourseRoutes.UploadCover` | backend/routes/courseroutes.js:46-56 | 400 without a file; otherwise "/uploads/images/" + stored name |
| `CourseRoutes.UploadPdf` | backend/routes/courseroutes.js:58-68 | 400 without a file; otherwise "/uploads/pdfs/" + stored name |
| `CourseRoutes.PdfPathNamesStoredFolder` | backend/routes/courseroutes.js:58-68 | the returned PDF path names the folder the file was stored in iff the file is a PDF |
| `CourseRoutes.CoverPathNamesStoredFolder` | backend/routes/courseroutes.js:46-56 | the returned cover path names the folder the file was stored in iff the file is an image |
| `CourseRoutes.WithPdf` | backend/routes/courseroutes.js:91-95 | one PDF entry is appended at the end and nothing else changes |
| `CourseRoutes.WithVideo` | backend/routes/courseroutes.js:128-132 | one video entry is appended at the end and nothing else changes |
| `CourseRoutes.AttachKeepsWellFormed` | backend/routes/courseroutes.js:91-95 | attaching keeps the course invariant |
| `CourseRoutes.AttachPdf` | backend/routes/courseroutes.js:71-105 | a missing file gives 400 before any lookup; a missing course 404; a non-owner 403, with the store unchanged; otherwise one entry titled with the original name and pointing to /uploads/pdfs/ is appended; an accepted file for an existing course of the caller always succeeds |
| `CourseRoutes.AttachVideo` | backend/routes/courseroutes.js:108-142 | same guards; the entry's title is the body title or else the original name, its duration the cast body duration or else 0 (a string that is not a number gives 500), and its url /uploads/videos/ + stored name; an accepted file for an existing course of the caller always succeeds |
| `UserModel.ParseRole` | backend/models/User.js:21-25 | exactly "student", "teacher" and "admin" pass the role enum |
| `UserModel.NormalizeEmailSpec` | backend/models/User.js:10-16 | the stored email is lower-case and trimmed, and a normalised email is left as it is |
| `UserModel.NormalizeEmailIdempotent` | backend/models/User.js:10-16 | normalising twice is normalising once |
| `UserModel.NewUser` | backend/models/User.js:4-93 | a new user has a trimmed username, a normalised email, the given hash and role, the profile and preference defaults, isActive true, isEmailVerified false and no login or reset token |
| `UserModel.LoggedIn` | backend/controllers/userController.js:56-57 | a login sets lastLogin to now and changes nothing else |
| `UserModel.Forgotten` | backend/controllers/userController.js:76-79 | sets the reset token and an expiry 15 minutes ahead, and nothing else |
| `UserModel.ResetDone` | backend/controllers/userController.js:101-104 | a reset stores the new hash, clears both token fields, and changes nothing else |
| `UserModel.ResetTokenWindow` | backend/controllers/userController.js:76-99 | a token issued at t opens a reset iff it is the issued token and now < t + 900000 ms |
| `UserModel.ResetIsSingleUse` | backend/controllers/userController.js:101-104 | after a reset no token opens another reset |
| `UserModel.ViewIsAllButPassword` | backend/controllers/userController.js:115 | the profile view does not depend on the password and shows every other field |
| `UserController.Registered` | backend/controllers/userController.js:19-33 | 400 iff a stored user matches the email or the username filter, where a missing field matches every user; otherwise a user with the hashed password, the normalised names and the given or default role |
| `UserController.RegisterAccepts` | backend/controllers/userController.js:21-33 | a non-duplicate registration with every field present and a known role is accepted |
| `UserController.MissingFieldIsDuplicate` | backend/controllers/userController.js:21-24 | once any user is stored, a registration without an email or a username is refused as a duplicate |
| `UserController.RegisterTwiceIsDuplicate` | backend/controllers/userController.js:21-24 | after a registration succeeds, the same input is a duplicate |
| `UserController.RegisterKeepsUnique` | backend/controllers/userController.js:21-33 | registration keeps emails and usernames unique |
| `UserController.RegisterKeepsValid` | backend/controllers/userController.js:21-33 | registration keeps the user store valid |
| `UserController.EmailOwner` | backend/models/User.js:10-16 | in a valid store an email belongs to at most one user |
| `UserController.UserStore.Register` | backend/controllers/userController.js:17-43 | on a duplicate (a missing email or username matching every stored user) or invalid input the store is unchanged and the reply is the registration rule's error; otherwise the new user is added and the reply holds the token and no password |
| `UserController.UserStore.Login` | backend/controllers/userController.js:46-67 | an unknown email and a wrong password both give "Invalid credentials" 400 with the store unchanged; a missing email matches any stored user; a missing password for a matched user gives bcrypt's 500; success sets only that user's lastLogin |
| `UserController.UserStore.ForgetPassword` | backend/controllers/userController.js:70-86 | 404 iff no user matches the email filter (a missing email matches every user); otherwise a matching user gets the token with a 15-minute expiry |
| `UserController.UserStore.ResetPassword` | backend/controllers/userController.js:89-110 | 400 unless some user holds the token with an expiry after now; a missing password then gives bcrypt's 500 "Illegal arguments: undefined, number"; success stores the new hash and clears both token fields of that user |
| `UserController.UserStore.GetUserProfile` | backend/controllers/userController.js:113-121 | 404 iff the user is missing; otherwise the password-free view |

## Left out

- File-system effects are not modelled. These are deleting the old cover
  on update, deleting the cover and the PDFs on delete, directory creation,
  and multer's disk writes, size limit (100 MB) and file-count limit (10).
- Populating creator and reviewer names into the replies is not modelled.
  The replies carry the stored ids.
- Hashing, hash comparison, JWT signing, the random reset token, the
  current time and the random file-name suffix are parameters. Because the
  hash is opaque, the model cannot state that it differs from the
  plaintext.
- The search term is a literal substring. JavaScript regex metacharacters
  are not interpreted, and case folding covers ASCII letters only. `trim`
  removes ASCII whitespace only.
- `Number(...)` is modelled for signed decimals and the blank string.
  Exponents, hex and "Infinity" read as NaN.
- The query string's page and limit are taken as positive whole numbers.
  The JavaScript string-to-number coercion is not modelled. A limit of 0
  would divide by zero.
- Numbers are exact reals, not doubles, so rounding of the mean rating is
  not modelled.
- Store ordering: a sort on an array-valued or unknown field makes every
  course tie. The model keeps tied courses in the store's order (the
  store itself promises no order among ties). This includes
  `sortBy=updatedAt` and `sortBy=_id`: both are real fields of a stored
  course (the schema's `timestamps` option and the document id), but
  the model keeps neither, so a listing sorted on them comes out in store
  order.
- CourseQueries.Featured: orders by rating only. The source's second sort
  key, the number of enrolled students, applies to an array, and the
  store's ordering of arrays is not modelled.
- Concurrent requests are not modelled. Each request is atomic, so the
  enroll and review races of the read-modify-write handlers do not arise.
- Quizzes, assignments, the course's own `updatedAt` timestamp, review and
  user `createdAt`/`updatedAt` timestamps, the user's
  `emailVerificationToken` and `emailVerificationExpiry`, and the profile's
  address, social links, phone and birth date are not modelled. No handler
  in the model reads or changes them, apart from the `updatedAt` sort above.
- Malformed course ids: a `:id` that is not a valid ObjectId makes
  `findById` throw a cast error, which the handlers answer with 500. Course
  ids are plain strings here, so the model answers 404 instead. This
  affects CourseQueries.GetCourseById, CourseController.CourseStore.UpdateCourse,
  CourseController.CourseStore.TogglePublish, CourseController.CourseStore.Enroll,
  CourseController.CourseStore.AddReview, CourseController.CourseStore.DeleteCourse,
  CourseRoutes.AttachPdf and CourseRoutes.AttachVideo.
- CourseController.CourseStore.AddReview: the review route takes a JSON
  body, and its rating is a number or missing here. A rating string that
  the schema cannot cast (answered with 500) cannot be expressed.
- CourseRules.CourseInput: the create and update bodies are the strings a
  multipart form sends. A JSON body carrying real numbers, where 0 would be
  falsy, is not modelled.
- CourseQueries.ListCourses: the only ill-formed sort field modelled is the
  empty one. Other paths the store would refuse, such as one starting
  with `$`, sort as ties like any unknown field.
- 500 replies carry the thrown error's message. A schema validation
  failure is modelled by the head of its message ("User validation
  failed"); the list of failing paths that follows it is not modelled.
- The store-level unique index on username and email is modelled as the
  `Unique` invariant that registration preserves. The index's own
  rejection of a racing duplicate is not modelled.
- UserController.UserStore.ForgetPassword: without an email every stored
  user matches, and one of them gets the token. The store's choice among
  them is not modelled. The same holds for UserController.UserStore.Login.
- UserController.UserStore.ResetPassword: when several users hold the
  same token, one of them is reset. The store's choice among them is not
  modelled.
- `updateUserProfile`, `getDashboardStats` and `getAllUsers` are not part
  of this model. The same holds for server bootstrap, the database
  connection and route wiring.
