# Course-selection system: a Dafny model

The system keeps courses, students and enrollments in an SQLite file behind
a small HTTP server written in C. Around it sit a browser front end, a
curses terminal client and Python scripts that turn scraped student records
into CSV for import. This project models the parts of that system whose
behaviour can be stated precisely, and proves what they do:

- **The store** (`src/db.c`, `src/db.h`). The three tables are a `Store`
  class over two maps and a set, with one method per SQL statement and one
  method per `db_*` operation. Each `db_*` method is proved equal to a
  function on table values. The query builder `db_query` appends ORDER BY
  only for an allowed column and adds LIMIT/OFFSET placeholders; it is
  proved to bind one value per placeholder, in order. The lemmas state
  which rows a list returns.
- **The cross-table rules**: cascading deletes, and incremental upkeep of
  `student.credits` on enrol and unenrol. The invariant "a student's
  credits are the sum of the credits of the courses they take" is proved
  for the operations that keep it. For each operation that breaks it, a
  lemma shows how.
- **The request side** (`src/handlers.c`, `src/server.c`):
  - `url_decode`, as a pointer loop proved against a decoding function;
  - `get_qs_param`, proved equal to "the first `&`-separated segment
    naming the key";
  - `atoi`;
  - `parse_query_options`, proved to read back the options a client
    writes;
  - the reason phrases;
  - the required-field checks of the add and update handlers;
  - the router, as a function from method, path and query string to an
    endpoint.
- **The browser front end** (`web/app.js`):
  - the CSV parser, its line loop as a method, with round trips for
    quoted cells and for line endings;
  - page slicing and the `nextPage`/`prevPage` state, as a class;
  - the search and filter functions;
  - the import loop, with its success count.
- **The terminal client** (`cli/main.c`):
  - `trim` on a `char` array in place (`memmove`, then NUL writes);
  - the five-row pager as a class driven by keys;
  - the empty-id check of the enrollment view.
- **The student transform** (`utils/transform_students.py`):
  - the e-mail clean-up and `make_email`;
  - `int()` on JSON values;
  - `build_ignore_set`;
  - the order-dependent de-duplication loop of `transform`.
- **The scenario of `test/test_db.c`**, replayed on the store model.

The SQL engine itself is not source code of the system. Its observable
behaviour is modelled in module `Engine` and used as a parameter:
- a full scan in some order;
- ORDER BY as one sort whose tie order is left open;
- LIMIT/OFFSET;
- the byte-wise collation.

Where the code and its test or documentation disagree, the model follows
the code:
- **Student credits on add.** `test/test_db.c` expects the student added
  with 2.5 credits to keep them, and a student added with -1 credits to be
  refused. `db_student_add` inserts a literal 0.0, so the model stores 0
  and accepts the second student (`Scenarios.StudentChecks`).
- **The de-duplication rule.** The docstring of the transform script says
  every `FavorAlts` id is collected and skipped (`build_ignore_set`).
  The loop that runs instead collects alternates only from records already
  emitted, so the outcome depends on input order. `build_ignore_set` is
  called only from a commented-out line. Both rules are modelled, and
  `TransformStudents.DocumentedRuleKeepsNeither` shows that they differ.
- **Ids that are not numbers.** The transform loop says a non-numeric
  `Id` is still included as it is. That holds for a string. A list or an
  object cannot be hashed, so the membership test raises `TypeError` and
  no CSV is written; `TransformStudents.Transform` returns no rows then.
- **Course credits.** The course handlers are modelled as written, with
  `json_real_value`, so an integer credit is stored as 0 (see Findings).
  The corrected reading is `Handlers.CourseFromBody`.

## Model

| member | source | states |
|---|---|---|
| `QueryBuilder.IsAllowed` | src/db.c:5-30 | the allow-list search returns true exactly for a non-NULL column equal to an entry of the list |
| `QueryBuilder.ValidOrder` | src/db.c:145-155 | a column is valid exactly when it is in the allow-list of the entity type; an unknown or missing type allows nothing |
| `QueryBuilder.AppendClauses` | src/db.c:141-172 | the statement is the base statement followed by the text of the planned tail (ORDER BY only for an allowed column, then the pagination clause), and it fits the 1024-byte buffer |
| `QueryBuilder.BindParams` | src/db.c:182-210 | the values bound are the WHERE values at positions 1..k, then the limit, then the offset, each only when its clause was added |
| `QueryBuilder.BuildQuery` | src/db.c:140-213 | `db_query` produces the planned statement text and the WHERE values followed by the pagination values |
| `QueryBuilder.BindAll` | src/db.c:183-199 | the engine holds, at position i + 1, the value the tag of the i-th `DbValue` selects |
| `QueryBuilder.PlanTailLength` | src/db.c:157-171 | what `db_query` appends is at most 46 bytes, so a base statement that fits its 256-byte buffer never overflows the 1024-byte one |
| `QueryBuilder.AllowedColumnsShort` | src/db.c:7-25 | no allowed column is longer than 13 characters or holds a placeholder |
| `QueryBuilder.TailShape` | src/db.c:145-172 | only an allowed column reaches ORDER BY; the direction is DESC exactly for SORT_DESC; LIMIT ? only for a positive limit, OFFSET ? only for a positive offset, LIMIT -1 OFFSET ? for an offset without a limit |
| `QueryBuilder.PlaceholdersMatchBinds` | src/db.c:162-210 | the statement carries exactly one `?` per value bound |
| `QueryBuilder.PageSqlPlaceholders` | src/db.c:163-171 | each pagination clause has as many placeholders as it binds values |
| `QueryBuilder.OrderTextPlaceholders` | src/db.c:157 | an ORDER BY over an allowed column has no placeholder |
| `QueryBuilder.SortOnSorted` | src/db.c:157 | ORDER BY returns the same rows, sorted on the column in the requested direction |
| `QueryBuilder.DropRows` | src/db.c:166 | OFFSET keeps a sub-multiset of the rows, no more of them than there were |
| `QueryBuilder.TakeRows` | src/db.c:164 | LIMIT keeps at most `limit` rows when it is positive, and a sub-multiset of the rows |
| `QueryBuilder.ListSpec` | src/db.c:140-213 | a list returns a sub-multiset of the matching rows, at most `limit` of them when the limit is positive |
| `QueryBuilder.WindowIsDropTake` | src/db.c:163-171 | LIMIT/OFFSET as the engine applies them, including LIMIT -1, is dropping `offset` rows then taking `limit` |
| `QueryBuilder.PageParams` | src/db.c:201-210 | the engine finds the limit and the offset right after the k WHERE values |
| `QueryBuilder.QueryMeaning` | src/db.c:140-213 | executing the statement `db_query` builds, with the values it binds, returns exactly the list specification: filter, optional sort, drop offset, take limit |
| `QueryBuilder.PageMeaning` | src/db.c:161-210 | the pagination clause with its bound values keeps the rows the specification keeps |
| `DbTypes.Bound` | src/db.c:113-126 | a REAL tag binds a real, an INT tag an integer, a TEXT tag with a string a text, and a NULL tag or a NULL string binds NULL |
| `DbTypes.BoundIgnoresOtherFields` | src/db.h:13-20 | only the union field the tag selects reaches the engine |
| `Engine.TextLeTotal` | src/db.c:157 | the byte-wise collation is total |
| `Engine.TextLeTrans` | src/db.c:157 | the byte-wise collation is transitive |
| `Engine.TextLeAntisym` | src/db.c:157 | the byte-wise collation is antisymmetric |
| `Engine.BeforeTotal` | src/db.c:157 | ORDER BY order, NULL first, is total in either direction |
| `Engine.BeforeTrans` | src/db.c:157 | ORDER BY order is transitive |
| `Engine.BeforeAntisym` | src/db.c:157 | ORDER BY order is antisymmetric |
| `Engine.InsertSorted` | src/db.c:157 | inserting a row into sorted rows keeps them sorted |
| `Engine.SortBy` | src/db.c:157 | the sort is a permutation of its input |
| `Engine.SortBySorted` | src/db.c:157 | the sort yields rows in ORDER BY order |
| `Engine.StrictlySortedUnique` | src/db.c:157 | two orderings of the same rows that are both strictly sorted are equal, so with distinct keys ORDER BY has one answer |
| `Engine.SqlWindow` | src/db.c:163-171 | LIMIT n with n >= 0 keeps at most n rows, and never more than there are |
| `Engine.Scan` | src/db.c:218-230 | a table scan lists every row exactly once |
| `Store.AddCredits` | src/db.c:411-416 | `credits = credits + ?` fails on the CHECK exactly when the result would be negative, changes only that student's credits, and does nothing for a missing student |
| `Store.EnrollmentsWithoutStudent` | src/db.c:543-545 | the cascade keeps exactly the pairs of other students |
| `Store.EnrollmentsWithoutCourse` | src/db.c:274-276 | the cascade keeps exactly the pairs in other courses |
| `Store.CourseAdd` | src/db.c:235-251 | a course add keeps the schema's guarantees (row filed under its own id) |
| `Store.CourseUpdate` | src/db.c:253-270 | a course update keeps the schema's guarantees |
| `Store.CourseRemove` | src/db.c:272-283 | a course removal keeps the schema's guarantees |
| `Store.CourseRemoveAll` | src/db.c:354-363 | the bulk course removal keeps the schema's guarantees |
| `Store.StudentAdd` | src/db.c:518-527 | a student add keeps the schema's guarantees (non-NULL name, credits >= 0) |
| `Store.StudentUpdate` | src/db.c:529-539 | a student update keeps the schema's guarantees |
| `Store.StudentRemove` | src/db.c:541-551 | a student removal keeps the schema's guarantees |
| `Store.StudentRemoveAll` | src/db.c:553-563 | the bulk student removal keeps the schema's guarantees |
| `Store.EnrollmentAdd` | src/db.c:381-417 | an enrollment add keeps the schema's guarantees |
| `Store.EnrollmentRemove` | src/db.c:419-446 | an enrollment removal keeps the schema's guarantees |
| `Store.EnrollmentRemoveAll` | src/db.c:448-456 | the bulk enrollment removal keeps the schema's guarantees |
| `Store.ResetCredits` | src/db.c:452 | `UPDATE student SET credits = 0.0` zeroes every student's credits and changes nothing else |
| `Store.EnrollmentRows` | src/db.c:369-379 | the visitor receives one enrollment per stored pair, with its student id and course id |
| `Store.CourseSelectShort` | src/db.c:285-352 | every course SELECT fits its 256-byte buffer |
| `Store.Visit` | src/db.c:217-233 | the visitor is called once per result row, in result order |
| `Store.Select` | src/db.c:285-296 | a list or find never fails, also on zero matches, and returns the list specification of some scan of the matching rows |
| `Store.Store.constructor` | src/db.c:32-95 | `init_db` on a fresh file gives three empty tables |
| `Store.Store.InsertCourseRow` | src/db.c:237 | the INSERT fails exactly on a taken id; it adds the row and changes nothing else |
| `Store.Store.UpdateCourseRow` | src/db.c:254-256 | the UPDATE rewrites every column of the row with the id, if there is one |
| `Store.Store.DeleteCourseRow` | src/db.c:279 | the DELETE removes the course with the id |
| `Store.Store.DeleteAllCourses` | src/db.c:359 | `DELETE FROM course` empties the course table |
| `Store.Store.InsertStudentRow` | src/db.c:519-525 | the INSERT fails exactly on a taken id or a NULL name, and stores 0.0 credits |
| `Store.Store.UpdateStudentRow` | src/db.c:530-537 | the UPDATE fails exactly when the student exists and the name is NULL or the credits negative; otherwise it rewrites name, e-mail and credits |
| `Store.Store.UpdateCredits` | src/db.c:411-416 | the credit UPDATE is `AddCredits` on the store |
| `Store.Store.ResetAllCredits` | src/db.c:452-453 | every student's credits become 0 |
| `Store.Store.DeleteStudentRow` | src/db.c:548 | the DELETE removes the student with the id |
| `Store.Store.DeleteAllStudents` | src/db.c:559 | `DELETE FROM student` empties the student table |
| `Store.Store.InsertEnrollmentRow` | src/db.c:403-408 | the INSERT fails exactly on a pair already stored |
| `Store.Store.DeleteEnrollmentRow` | src/db.c:432-437 | the DELETE removes the pair if present |
| `Store.Store.DeleteEnrollmentsOfCourse` | src/db.c:274-276 | removes exactly the pairs in that course |
| `Store.Store.DeleteEnrollmentsOfStudent` | src/db.c:543-545 | removes exactly the pairs of that student |
| `Store.Store.DeleteAllEnrollments` | src/db.c:449-450 | `DELETE FROM enrollment` empties the enrollment table |
| `Store.Store.CourseAddOp` | src/db.c:235-251 | `db_course_add` is `CourseAdd` on the store |
| `Store.Store.CourseUpdateOp` | src/db.c:253-270 | `db_course_update` is `CourseUpdate` on the store |
| `Store.Store.CourseRemoveOp` | src/db.c:272-283 | `db_course_remove` is `CourseRemove`: the course's enrollments, then the course |
| `Store.Store.CourseRemoveAllOp` | src/db.c:354-363 | `db_course_remove_all` is `CourseRemoveAll` |
| `Store.Store.StudentAddOp` | src/db.c:518-527 | `db_student_add` is `StudentAdd` |
| `Store.Store.StudentUpdateOp` | src/db.c:529-539 | `db_student_update` is `StudentUpdate` |
| `Store.Store.StudentRemoveOp` | src/db.c:541-551 | `db_student_remove` is `StudentRemove`: the student's enrollments, then the student |
| `Store.Store.StudentRemoveAllOp` | src/db.c:553-563 | `db_student_remove_all` is `StudentRemoveAll` |
| `Store.Store.EnrollmentAddOp` | src/db.c:381-417 | `db_enrollment_add` is `EnrollmentAdd`, step by step: both checks, the INSERT, then the credit UPDATE, each earlier step kept when a later one fails |
| `Store.Store.EnrollmentRemoveOp` | src/db.c:419-446 | `db_enrollment_remove` is `EnrollmentRemove`: read the credit, delete the pair, then subtract |
| `Store.Store.EnrollmentRemoveAllOp` | src/db.c:448-456 | `db_enrollment_remove_all` is `EnrollmentRemoveAll` |
| `Store.Store.CourseQuery` | src/db.c:285-352 | course list and find never fail and return the list specification of a scan of the matching courses |
| `Store.Store.StudentQuery` | src/db.c:565-605 | student list and find never fail and return the list specification of a scan of the matching students |
| `Store.Store.EnrollmentQuery` | src/db.c:458-498 | enrollment list and find never fail and return the list specification of a scan of the matching pairs |
| `Consistency.AddBehaviour` | src/db.c:235-251 | a course or student add fails with nothing changed exactly when the id is taken (or the student name is NULL); a student is stored with 0 credits whatever was supplied |
| `Consistency.UpdateBehaviour` | src/db.c:253-270 | update keeps the set of ids and rewrites the matching row; it succeeds even when no row matches; a student update with negative credits fails and changes nothing |
| `Consistency.CascadeBehaviour` | src/db.c:272-283 | removing a course or a student removes every enrollment with that id and the entity, and leaves every student's credits as they were |
| `Consistency.RemoveAllBehaviour` | src/db.c:448-456 | `course_remove_all` and `student_remove_all` clear the enrollments without touching credits; `enrollment_remove_all` also sets every student's credits to 0 |
| `Consistency.EnrollmentAddBehaviour` | src/db.c:381-417 | enrolment fails with nothing changed when the student or course is missing or the pair exists; otherwise the pair is stored and the course's credit added |
| `Consistency.EnrollmentRemoveBehaviour` | src/db.c:419-446 | unenrolment deletes the pair if present and then subtracts the course's credit, 0 for a missing course, even when there was no pair |
| `Consistency.EnrolledCourses` | src/db.c:74 | a course is among a student's courses exactly when the pair is stored |
| `Consistency.CreditSumRemove` | src/db.c:440 | the credit sum splits off any one course |
| `Consistency.CreditSumNonNegative` | src/db.c:67 | with no negative course credit the sum is not negative |
| `Consistency.EmptyConsistent` | src/db.c:50-77 | the empty store satisfies the credit invariant |
| `Consistency.CourseAddKeepsConsistent` | src/db.c:235-251 | adding a course with a non-negative credit keeps the credit invariant |
| `Consistency.StudentAddKeepsConsistent` | src/db.c:518-527 | adding a student keeps the credit invariant |
| `Consistency.EnrollmentAddKeepsConsistent` | src/db.c:381-417 | enrolment keeps the credit invariant, and succeeds exactly when student and course exist and the pair does not |
| `Consistency.UnenrolExistingKeepsConsistent` | src/db.c:419-446 | unenrolment of an existing pair succeeds and keeps the credit invariant |
| `Consistency.StudentRemoveKeepsConsistent` | src/db.c:541-563 | removing a student, all students or all enrollments keeps the credit invariant |
| `Consistency.RunKeepsConsistent` | src/db.c:235-563 | every sequence of course and student adds, enrolments and unenrolments of existing pairs, with non-negative course credits, keeps the credit invariant, failures included |
| `Consistency.UnenrolMissingPairBreaks` | src/db.c:431-445 | unenrolling a pair that does not exist still subtracts the credit, succeeds, and breaks the invariant |
| `Consistency.CourseUpdateBreaks` | src/db.c:253-270 | changing the credit of a course someone takes breaks the invariant |
| `Consistency.CourseRemoveBreaks` | src/db.c:272-283 | removing a course with positive credit that someone takes breaks the invariant |
| `Consistency.EnrolNotAtomic` | src/db.c:408-416 | an enrolment whose credit update fails reports failure with the pair already inserted |
| `Consistency.UnenrolNotAtomic` | src/db.c:437-445 | an unenrolment whose credit update fails reports failure with the pair already deleted |
| `Handlers.StatusText` | src/handlers.c:7-16 | the phrase is non-empty exactly for 200, 400, 404, 405 and 500 |
| `Handlers.StatusTextStandard` | src/handlers.c:7-16 | the five phrases are those of section 15 of RFC 9110, and every other code gives "" |
| `Handlers.RealValue` | src/handlers.c:218 | `json_real_value` gives a real's value and 0.0 for anything else, integers included |
| `Handlers.NumberValue` | src/handlers.c:476 | `json_number_value` gives the value of an integer or a real, 0.0 otherwise |
| `Handlers.OptText` | src/handlers.c:220-222 | an optional text field is copied exactly when it is a JSON string |
| `Handlers.CourseFromBodyAsWritten` | src/handlers.c:212-225 | the course is built exactly when `course_id` is a string and `credit` a number; numbers are read with `json_real_value`, so a JSON integer becomes 0 |
| `Handlers.CourseFromBody` | src/handlers.c:218 | the corrected reading of the finding below: the course is built exactly when `course_id` is a string and `credit` a number, and every number is read with its value, as `json_number_value` reads the student credits at line 476 |
| `Handlers.CourseBodyRoundTrip` | web/app.js:92-104 | a course with no empty text field, sent as the front end sends it, is built back unchanged |
| `Handlers.IntegerCreditReadAsZero` | src/handlers.c:218 | as written, a non-zero whole credit sent by the front end is read as 0 |
| `Handlers.CreditThreeReadAsZero` | src/handlers.c:263 | `{"course_id": "c9", "credit": 3}` gives credit 0 as written and 3 corrected |
| `Handlers.StudentFromAddBody` | src/handlers.c:435-440 | a student is built exactly when `student_id` and `name` are strings; e-mail only when it is a string; credits forced to 0 |
| `Handlers.StudentFromUpdateBody` | src/handlers.c:470-477 | as for add, with credits the number given, 0 when absent or not a number |
| `Handlers.StudentBodyRoundTrip` | web/app.js:47-70 | a student sent by the front end is carried over, the e-mail defaulting to "" and, for add, the credits to 0 |
| `Handlers.FromOutcome` | src/handlers.c:227-230 | a store success is 200 and a failure 500, with the store as left |
| `Handlers.HandleCourseAdd` | src/handlers.c:204-231 | 400 with nothing changed exactly for a missing or invalid body; 200 exactly when the id is new, and then the course as read with `json_real_value` is filed under its id and nothing else changes; 500 with nothing changed for a taken id |
| `Handlers.CourseAddStoresZeroCredit` | src/handlers.c:218 | a new course the front end sends with a non-zero whole credit is accepted and stored with credit 0 |
| `Handlers.CorrectedCourseAddStoresSent` | web/app.js:92-104 | with the corrected reading, the same request stores exactly the course the front end sent |
| `Handlers.HandleCourseUpdate` | src/handlers.c:249-276 | 400 with nothing changed exactly for a missing or invalid body; otherwise 200, with the row of that id, if there is one, replaced by the course as read with `json_real_value` and nothing else changed |
| `Handlers.HandleStudentAdd` | src/handlers.c:428-445 | 400 exactly for a missing or invalid body; on 200 the student is stored with 0 credits |
| `Handlers.HandleStudentUpdate` | src/handlers.c:463-482 | 400 exactly for a missing or invalid body; a 500 only for negative credits |
| `Handlers.HandleEnrollmentAdd` | src/handlers.c:348-363 | 400 exactly when either id is not a string; on 200 the pair is stored |
| `Handlers.HandleCourseRemove` | src/handlers.c:233-241 | 400 exactly when `course_id` is missing; on 200 the course is gone |
| `Handlers.HandleStudentRemove` | src/handlers.c:447-455 | 400 exactly when `student_id` is missing; on 200 the student is gone |
| `Handlers.HandleEnrollmentRemove` | src/handlers.c:365-379 | 400 with nothing changed exactly when either id is missing; otherwise the pair is gone |
| `Handlers.RemoveAllHandlers` | src/handlers.c:243-247 | the bulk removals always answer 200 |
| `Handlers.CourseFindFilter` | src/handlers.c:290-344 | a course search answers 400 exactly when its parameter is missing; by id it searches for the decoded `id` |
| `Handlers.StudentFindFilter` | src/handlers.c:496-522 | a student search answers 400 exactly when `student_id` (or `name`) is missing |
| `Handlers.EnrollmentFindFilter` | src/handlers.c:393-425 | an enrollment search answers 400 exactly when `student_id` (or `course_id`) is missing |
| `Handlers.CourseIdIsNotId` | src/handlers.c:292 | a query holding only `course_id=...` gives find-by-id no `id` parameter, so it answers 400 |
| `QueryString.HexVal` | src/handlers.c:41-46 | '0'-'9', 'a'-'f', 'A'-'F' map to their value below 16, anything else to 0 |
| `QueryString.Decode` | src/handlers.c:54-65 | the decoded text is never longer than its input |
| `QueryString.UrlDecode` | src/handlers.c:48-68 | the read/write pointer loop produces exactly the decoding: '+' to a space, '%' and two hex digits to that byte, anything else copied |
| `QueryString.DecodeSuffix` | src/handlers.c:55-64 | one step of the decoder: a '+', a full escape, or one copied character |
| `QueryString.DecodeEncode` | src/handlers.c:48-68 | decoding undoes percent-encoding of any byte string |
| `QueryString.DecodePlain` | src/handlers.c:62-64 | text with no '+' and no '%' decodes to itself |
| `QueryString.SegmentEnd` | src/handlers.c:102-103 | the value ends at the next '&' or the end, and holds no '&' |
| `QueryString.GetQsParam` | src/handlers.c:95-117 | the pointer walk is the scan: NULL for no query string, else the value after the first segment start matching `key=` |
| `QueryString.SegmentsFrom` | src/handlers.c:112-114 | the query splits into at least one segment, none holding '&' |
| `QueryString.FirstParam` | src/handlers.c:99-116 | there is no value exactly when no segment is `key=...` |
| `QueryString.ScanIsFirstParam` | src/handlers.c:95-117 | for a key without '&', `get_qs_param` returns the decoded value of the first segment naming the key |
| `QueryString.DigitPrefix` | src/handlers.c:138 | `atoi` reads the longest run of decimal digits |
| `QueryString.AtoiItoa` | src/handlers.c:138 | `atoi` reads back any integer written in decimal |
| `QueryString.AtoiDigits` | src/handlers.c:138 | a string of digits reads as its value |
| `QueryString.AtoiNegative` | src/handlers.c:144 | a minus sign and digits read as the negative value, so negatives pass through |
| `QueryString.AtoiNonNumeric` | src/handlers.c:138 | input not starting, after space and sign, with a digit reads as 0 |
| `QueryString.ParseQueryOptions` | src/handlers.c:119-163 | without a query string the options are no ORDER BY, ASC, limit -1, offset 0 |
| `QueryString.SegmentsOfJoin` | src/handlers.c:112-114 | segments joined with '&' split back into themselves |
| `QueryString.OptionSegments` | src/handlers.c:136-160 | the segments a client writes for list options hold no '&' |
| `QueryString.RenderedParam` | src/handlers.c:95-117 | a key finds in the written options the value of the first segment naming it |
| `QueryString.LimitParam` | src/handlers.c:136-140 | the written limit is read back |
| `QueryString.OffsetParam` | src/handlers.c:142-146 | the written offset is read back |
| `QueryString.OrderParam` | src/handlers.c:148-154 | the written direction is read back as "desc" or "asc" |
| `QueryString.OrderByParam` | src/handlers.c:156-160 | the written sort column is read back raw |
| `QueryString.FirstParamSkip` | src/handlers.c:112-114 | segments not naming the key are passed over |
| `QueryString.PlainValue` | src/handlers.c:48-68 | a value with no '+', '%' or NUL reads back as written |
| `QueryString.ParseRenderedOptions` | src/handlers.c:119-163 | options written as a query string parse back to themselves |
| `Router.PreflightEverywhere` | src/server.c:28-36 | OPTIONS is answered with the preflight on every path |
| `Router.NotFoundExactly` | src/server.c:126-131 | 404 exactly for a method other than OPTIONS on a path the router does not know |
| `Router.HandlerMethodMatches` | src/server.c:42-123 | a handler is reached only with the method it serves |
| `Router.Status` | src/server.c:21-132 | the router answers by itself exactly when no handler is reached, with 200 exactly for OPTIONS |
| `Router.PingAnyMethod` | src/server.c:38-40 | /ping reaches ping with any method but OPTIONS |
| `Router.MethodNotAllowedExactly` | src/server.c:42-124 | on a known path other than the search paths and /ping, 405 exactly when the method is not one the path serves |
| `Router.AllowHeaderLists` | src/server.c:47-123 | a 405 carries the methods the path serves, comma-separated in order |
| `Router.FindPathsNeverMethodNotAllowed` | src/server.c:65-107 | the search paths answer 400, never 405, to methods other than GET |
| `Router.CrudPaths` | src/server.c:42-83 | /course and /student map GET, POST, PUT, DELETE to list, add, update, remove |
| `Router.CourseIdGoesToFindById` | src/server.c:68 | any query containing "course_id=" reaches find-by-id, because "id=" occurs in it |
| `Router.CourseFindByNameExactly` | src/server.c:65-74 | find-by-name is reached exactly when "name=" occurs and "id=" does not |
| `Router.StudentIdTakesPrecedence` | src/server.c:100-107 | "student_id=" wins over "name=" on /student/find |
| `Router.EnrollmentGetOrder` | src/server.c:111-116 | GET /enrollment goes by student, else by course, else lists; no query string lists |
| `WebApp.JsTrim` | web/app.js:870 | a trimmed cell has no white space at either end |
| `WebApp.SplitNewlines` | web/app.js:858 | the pieces between newlines hold no newline and join back to the text |
| `WebApp.LinePieces` | web/app.js:858 | splitting on "\r?\n" gives pieces without newlines |
| `WebApp.CsvLinesNonBlank` | web/app.js:858 | every line parsed is a single line that is not blank after trimming |
| `WebApp.ParseLine` | web/app.js:859-878 | the line loop produces the cells of the line: '"' toggles quoting and is dropped, a comma outside quotes ends a cell, '\r' is dropped, cells are trimmed |
| `WebApp.CellsOfLines` | web/app.js:859 | one row per line, each with at least one cell |
| `WebApp.CellCount` | web/app.js:869-876 | a row has one cell more than its line has commas outside quotes |
| `WebApp.CellsClean` | web/app.js:864-876 | no cell holds a quote or a carriage return |
| `WebApp.QuotedLineRoundTrip` | web/app.js:860-877 | cells free of quotes and carriage returns, each written in quotes and joined with commas, parse back trimmed |
| `WebApp.DoubledQuoteIsNotEscape` | web/app.js:867-868 | `"a""b"` parses to `ab`: the doubled quote of section 2 of RFC 4180 is not an escape |
| `WebApp.LinesRoundTrip` | web/app.js:858 | non-blank lines joined with "\n" or "\r\n" are the lines parsed |
| `WebApp.CeilDiv` | web/app.js:972 | `Math.ceil(n / d)`: the least count of pages of d that covers n |
| `WebApp.PageSlice` | web/app.js:253-256 | the page shows the items from `page * perPage` on, `perPage` of them or what is left |
| `WebApp.ItemOnItsPage` | web/app.js:253-256 | every item is shown on page `k / perPage`, a page the counter offers |
| `WebApp.PageInfo` | web/app.js:990-997 | the counter shows page + 1 of the ceiling of total / perPage pages, or of 1 for an empty list |
| `WebApp.Pagination.constructor` | web/app.js:11-15 | a table starts on page 0 with ten rows a page |
| `WebApp.Pagination.NextPage` | web/app.js:969-979 | the page grows only when it is below the last page, and stays in range |
| `WebApp.Pagination.PrevPage` | web/app.js:981-988 | the page shrinks only when above 0, and stays in range |
| `WebApp.Pagination.Reset` | web/app.js:237 | a reload shows page 0, which is in range for any list |
| `WebApp.SearchStudents` | web/app.js:274-282 | keeps exactly the students whose id, name or e-mail contains the query, ignoring ASCII case, each as often as it occurs |
| `WebApp.SearchStudentsAppend` | web/app.js:276-280 | the search keeps the order of the list: the result for a concatenation is the two results concatenated |
| `WebApp.SearchIgnoresCase` | web/app.js:275 | the search gives the same rows for a query and its lower-case form |
| `WebApp.EmptySearch` | web/app.js:276-280 | an empty query keeps every student with a non-empty id, name or e-mail |
| `WebApp.SearchCourses` | web/app.js:453-460 | keeps exactly the courses whose id or name contains the query, ignoring ASCII case |
| `WebApp.FilterCourses` | web/app.js:462-477 | keeps exactly the courses of the type and the semester, each only when its filter is not empty |
| `WebApp.NoCourseFilter` | web/app.js:468-474 | with both filters empty the list is kept whole |
| `WebApp.FilterCoursesIdempotent` | web/app.js:462-477 | filtering twice is filtering once |
| `WebApp.FilterEnrollments` | web/app.js:623-642 | keeps exactly the pairs whose ids contain the filters, ignoring ASCII case, each filter only when non-empty |
| `WebApp.RowObject` | web/app.js:908-913 | a header is a key exactly when some column under it has a non-empty cell |
| `WebApp.RowObjectLast` | web/app.js:909-912 | a key's value is the trimmed cell of the last non-empty column under that header |
| `WebApp.StudentImportBody` | web/app.js:916-921 | the body sent for an imported student has `student_id` exactly when the row has `student_id` or `id`, and always a string name |
| `WebApp.SendStudent` | web/app.js:916-940 | an imported student counts as a success exactly when its id is present and new, and then it is stored |
| `WebApp.DataObjects` | web/app.js:898-913 | one object per data row under the header row |
| `WebApp.ImportCsv` | web/app.js:882-958 | fewer than two rows is refused; otherwise every data row is posted in order and counted |
| `WebApp.ImportRows` | web/app.js:905-945 | successes plus failures equal the number of data rows, and the successes are those of posting the rows in order |
| `WebApp.StudentImportSuccesses` | web/app.js:905-945 | a students import succeeds once for each distinct id not already stored |
| `Cli.TrimInPlace` | cli/main.c:78-87 | a NULL buffer is left alone; otherwise the buffer becomes the trimmed buffer |
| `Cli.TrimLeading` | cli/main.c:81-83 | the string is moved over its leading white space with its terminator |
| `Cli.TrimTrailing` | cli/main.c:85-86 | trailing white space is overwritten with NULs and nothing else changes |
| `Cli.StrLen` | cli/main.c:83 | `strlen` finds the first NUL from its start |
| `Cli.MemMove` | cli/main.c:83 | `memmove` copies the characters to the front and leaves the rest |
| `Cli.TrimmedString` | cli/main.c:78-87 | the string the buffer holds after `trim` is the old string without white space at either end |
| `Cli.TrimmedIsSlice` | cli/main.c:81-86 | what is left is one contiguous piece of the old string, with only white space outside it |
| `Cli.TrimTwice` | cli/main.c:78-87 | a second `trim` leaves the buffer as the first left it |
| `Cli.Screen` | cli/main.c:209-210 | a screen lists the courses from `page * 5`, five or what is left |
| `Cli.DrawScreen` | cli/main.c:209-218 | the drawing loop lists exactly the rows of the screen |
| `Cli.ItemScreen` | cli/main.c:209-210 | each course is listed on exactly one screen, `i / 5` |
| `Cli.Pager.constructor` | cli/main.c:199-202 | the pager starts on page 0, not done |
| `Cli.Pager.Title` | cli/main.c:207 | the title shows page + 1 of the ceiling of total / 5, at least 1 of at least 1 when there are courses |
| `Cli.Pager.Press` | cli/main.c:223-226 | 'n' advances only when another screen follows, 'p' goes back only from a page above 0, any other key leaves; the page stays valid |
| `Cli.Pager.Browse` | cli/main.c:203-227 | the loop reads keys until one leaves, ending on the page the moving keys lead to |
| `Cli.NextReaches` | cli/main.c:224 | pressing 'n' m times reaches page m while that page lists a course |
| `Cli.NextThenPrev` | cli/main.c:224-225 | 'n' then 'p' comes back from a page that is not the last |
| `Cli.ViewStudentStart` | cli/main.c:343-352 | the typed id is trimmed and refused, before any request, exactly when nothing is left |
| `Cli.ViewRequestsRouted` | cli/main.c:358-363 | the two requests of the view reach student find-by-id and enrollment by student |
| `TransformStudents.Or` | utils/transform_students.py:96 | Python `a or b` is truthy exactly when either is |
| `TransformStudents.AllowedOnly` | utils/transform_students.py:28 | the filter leaves only `[a-z0-9_-]` |
| `TransformStudents.AllowedOnlyRemoveSpaces` | utils/transform_students.py:27-28 | removing white space before the filter changes nothing |
| `TransformStudents.CleanIsFilter` | utils/transform_students.py:25-28 | strip, lower, remove spaces and filter is the filter of the lower-cased string |
| `TransformStudents.CleanIdempotent` | utils/transform_students.py:25-28 | cleaning a cleaned string changes nothing |
| `TransformStudents.SanitizeLocal` | utils/transform_students.py:22-29 | None gives "", a string is cleaned to `[a-z0-9_-]`, any other value raises |
| `TransformStudents.SanitizeSchool` | utils/transform_students.py:32-38 | a falsy value gives "", a string is cleaned, any other value raises |
| `TransformStudents.MakeEmail` | utils/transform_students.py:60-67 | raises exactly when either clean-up raises |
| `TransformStudents.EmailSplits` | utils/transform_students.py:63-67 | empty local part gives ""; otherwise the address is the local part, one '@', and a domain ending ".edu" exactly when the school is non-empty |
| `TransformStudents.Truncate` | utils/transform_students.py:87 | `int()` of a float rounds toward zero |
| `TransformStudents.ParseIntOfDecimal` | utils/transform_students.py:87 | `int()` reads back any integer written in decimal |
| `TransformStudents.IntsOfMembers` | utils/transform_students.py:51-56 | the alternates collected are exactly the entries `int()` converts |
| `TransformStudents.AddAlts` | utils/transform_students.py:49-56 | the inner loop adds exactly the convertible alternates of a list `FavorAlts` |
| `TransformStudents.AllAltsMembers` | utils/transform_students.py:46-57 | an id is collected exactly when some record lists it |
| `TransformStudents.BuildIgnoreSet` | utils/transform_students.py:46-57 | the loop collects the alternates of every record |
| `TransformStudents.SelectionFacts` | utils/transform_students.py:83-118 | every emitted record has an `Id`, and the ignore set is the alternates of the emitted records |
| `TransformStudents.SelectionInOrder` | utils/transform_students.py:81-118 | the emitted records keep the input order |
| `TransformStudents.SelectionPrefix` | utils/transform_students.py:81-118 | what a prefix emits starts what the whole input emits |
| `TransformStudents.FirstWithIdEmitted` | utils/transform_students.py:83-94 | the first record with an `Id` is always emitted |
| `TransformStudents.RowOf` | utils/transform_students.py:96-108 | a row has credits 0 and the converted id, and raises exactly when `make_email` does |
| `TransformStudents.MapAllEach` | utils/transform_students.py:103-108 | the rows exist exactly when no record raises |
| `TransformStudents.MapAllInOrder` | utils/transform_students.py:103-108 | the rows are the records' rows, one each, in order |
| `TransformStudents.Transform` | utils/transform_students.py:81-118 | the loop raises when some record's `Id` is a list or an object, which `sid_int in ignore_ids` cannot hash; otherwise it gives the rows of the records the selection emits, or raises when an e-mail does |
| `TransformStudents.SecondListedByFirst` | utils/transform_students.py:92-94 | a record whose id the previous emitted record lists is dropped |
| `TransformStudents.OrderDecides` | utils/transform_students.py:92-118 | of two records listing each other, the first in input order is kept |
| `TransformStudents.DocumentedRuleKeepsNeither` | utils/transform_students.py:46-57 | the ignore set of the docstring holds both ids, so that rule would keep neither |
| `TransformStudents.SkippedAltsIgnored` | utils/transform_students.py:110-118 | a skipped record's alternates are not collected |
| `Text.Trim` | utils/transform_students.py:25 | the result has no white space at either end |
| `Text.TrimSlice` | utils/transform_students.py:25 | trimming keeps one slice, with only white space outside it |
| `Text.TrimIdempotent` | web/app.js:870 | trimming twice is trimming once |
| `Text.Keep` | web/app.js:276 | `filter` keeps each element that passes as often as it occurs, and no other |
| `Text.KeepAppend` | web/app.js:276 | `filter` keeps the order: filtering a concatenation is filtering each part in turn |
| `Scenarios.NamePageIsBeta` | test/test_db.c:78-81 | whatever order the scan returns, courses by name ascending, limit 1, offset 1, give exactly Beta |
| `Scenarios.SortedByName` | test/test_db.c:71-76 | the four courses sort by name to Alpha, Beta, Gamma, Intro |
| `Scenarios.Cleanup` | test/test_db.c:48-50 | the cleanup on an empty store leaves it empty |
| `Scenarios.StudentChecks` | test/test_db.c:53-61 | the student added with 2.5 credits is stored with 0, and the student with -1 credits is accepted |
| `Scenarios.CourseAdds` | test/test_db.c:64-76 | the four course adds store the four courses |
| `Scenarios.CourseChecks` | test/test_db.c:78-81 | the ordered page visits exactly one row, named Beta |
| `Scenarios.EnrollmentChecks` | test/test_db.c:84-88 | the enrollment written course first is stored and found |
| `Scenarios.TestDbRun` | test/test_db.c:40-100 | the whole test run on the model: credits 0, negative credits accepted, page Beta, enrolment found |

## Left out

- The SQL engine's internals (prepare, step, bind, finalize) are left out. Its behaviour is modelled in `Engine`: a scan in some order, an insertion sort for ORDER BY, and LIMIT/OFFSET.
- Engine failures other than constraint violations are not modelled: busy, I/O errors, a full disk, a failed prepare. Only the PRIMARY KEY, NOT NULL and CHECK constraints make a statement fail.
- Foreign keys are not enforced. The file never turns them on, so the model does not enforce them either.
- The WAL pragma, the busy timeout and the delete-and-recreate of a bad file in `init_db` are left out. `close_db` is a no-op.
- SQL `LIKE` belongs to the engine. It is a predicate parameter of the find functions.
- Tie order under ORDER BY is left open. Results are specified up to any sort the engine may choose; `Engine.StrictlySortedUnique` shows that distinct keys fix the order.
- Credits and hours are `real`. IEEE rounding is not modelled.
- `snprintf` truncation of the query buffer is not modelled. The base statement is required to fit its 256-byte buffer; `QueryBuilder.PlanTailLength` shows that the rest then fits.
- civetweb's worker threads sharing the global handle, and the Python upload thread pools, are left out.
- Response writing (`mg_printf`, `respond_*`), `read_body`, and jansson parsing and serialising are left out. A handler receives the parsed body, or none for an empty or invalid one.
- The unescaped error body is not modelled.
- Memory management is not modelled: `malloc`/`free`, a failed allocation, and the static `last_order_by` buffer.
- QueryString.ParseQueryOptions: returns a fresh value rather than overwriting the static `QueryOptions`, so aliasing between two calls is not captured.
- `atoi` overflow of an `int` is not modelled. Integers are unbounded.
- Case mapping is ASCII only (`toLowerCase`, `str.lower`). Other Unicode cases are not modelled.
- JavaScript strings are modelled as sequences of characters, not UTF-16 code units. Surrogate pairs are not modelled.
- Python `int()` on strings with underscores or non-ASCII digits is not modelled.
- Python `json.load` accepts `NaN`, `Infinity` and `-Infinity`, and reads `1e400` as an infinity. The model's `real` cannot represent these, so `int()` on them (a caught `ValueError` or `OverflowError`) is not modelled.
- The CSV reading and writing and the JSON loading of the scripts are left out.
- curl and curses are left out, as are `url_encode` and `show_text` in the terminal client. The encoded id is a parameter of `Cli.ViewRequestsRouted`.
- The DOM, `fetch` and `escapeHtml` are left out. A view's list length is a parameter of `WebApp.Pagination.NextPage`.
- The import bodies for courses and enrollments are left out. The students import is modelled to its success count.
- `src/utils.c`, `src/main.c`, the two headers of declarations, the upload scripts and the other transform scripts are not part of this model. They have no core of their own, and the transform scripts are driven by random choices.

## Findings

| source | as written | input that shows it | evidently intended | confidence | as-written member | corrected member |
|---|---|---|---|---|---|---|
| src/handlers.c:218 | the course handlers read `credit` and the hours with `json_real_value`, which gives 0.0 for a JSON integer | `{"course_id": "c9", "credit": 3}`, which the front end sends for a 3-credit course because `JSON.stringify(3)` writes `3` | read every JSON number, integer or real, as its value, as `json_number_value` does | high, not executed | `Handlers.IntegerCreditReadAsZero` | `Handlers.CourseFromBody`, `Handlers.CourseBodyRoundTrip` |
