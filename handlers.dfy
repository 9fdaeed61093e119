/** The request handlers of src/handlers.c: reason phrases, the checks on
    the JSON bodies of the add and update handlers, the query parameters
    the remove and find handlers require, and the status each handler
    answers with. A body is the parsed JSON value, or None when it is empty
    or not JSON; both are answered with 400. */
module Handlers {
  import opened Wrappers
  import opened Text
  import opened DbTypes
  import opened Store
  import opened QueryString

  /** `status_text` (src/handlers.c:7-16). */
  function StatusText(code: int): (r: string)
    ensures r != "" <==> code in {200, 400, 404, 405, 500}
  {
    if code == 200 then "OK"
    else if code == 400 then "Bad Request"
    else if code == 404 then "Not Found"
    else if code == 405 then "Method Not Allowed"
    else if code == 500 then "Internal Server Error"
    else ""
  }

  /** Reason phrases are those of section 15 of RFC 9110. */
  lemma StatusTextStandard()
    ensures StatusText(200) == "OK" && StatusText(400) == "Bad Request" && StatusText(404) == "Not Found"
    ensures StatusText(405) == "Method Not Allowed" && StatusText(500) == "Internal Server Error"
    ensures forall c :: c !in {200, 400, 404, 405, 500} ==> StatusText(c) == ""
  {
  }

  // JSON values as the handlers read them.

  /** A parsed JSON value. A number written without fraction or exponent
      is an integer. */
  datatype Json = JNull | JBool(b: bool) | JInt(i: int) | JReal(x: real) | JString(s: string)
                | JArray(items: seq<Json>) | JObject(fields: map<string, Json>)

  /** `json_object_get`: nothing unless `j` is an object with that key. */
  function Get(j: Json, key: string): (r: Option<Json>)
    ensures r.Some? <==> j.JObject? && key in j.fields
  {
    if j.JObject? && key in j.fields then Some(j.fields[key]) else None
  }

  predicate IsString(v: Option<Json>) {
    v.Some? && v.value.JString?
  }

  /** `json_is_number`: an integer or a real. */
  predicate IsNumber(v: Option<Json>) {
    v.Some? && (v.value.JInt? || v.value.JReal?)
  }

  /** `json_real_value`: the value of a real, 0.0 for anything else,
      integers included. */
  function RealValue(v: Option<Json>): (r: real)
    ensures v.Some? && v.value.JReal? ==> r == v.value.x
    ensures !(v.Some? && v.value.JReal?) ==> r == 0.0
  {
    if v.Some? && v.value.JReal? then v.value.x else 0.0
  }

  /** `json_number_value`: the value of an integer or a real. */
  function NumberValue(v: Option<Json>): (r: real)
    ensures v.Some? && v.value.JInt? ==> r == v.value.i as real
    ensures v.Some? && v.value.JReal? ==> r == v.value.x
    ensures !IsNumber(v) ==> r == 0.0
  {
    if v.Some? && v.value.JInt? then v.value.i as real
    else if v.Some? && v.value.JReal? then v.value.x
    else 0.0
  }

  /** An optional text field: copied only when it is a string. */
  function OptText(j: Json, key: string): (r: Option<string>)
    ensures r.Some? <==> IsString(Get(j, key))
  {
    if IsString(Get(j, key)) then Some(Get(j, key).value.s) else None
  }

  // Course bodies (src/handlers.c:212-225 and src/handlers.c:257-270).

  /** The course the add and update handlers build, as written: `credit`
      and the hours are read with `json_real_value`, so a whole number sent
      as a JSON integer is read as 0. */
  function CourseFromBodyAsWritten(j: Json): (r: Option<Course>)
    ensures r.Some? <==> IsString(Get(j, "course_id")) && IsNumber(Get(j, "credit"))
  {
    if !IsString(Get(j, "course_id")) || !IsNumber(Get(j, "credit")) then None
    else Some(Course(
      Get(j, "course_id").value.s,
      OptText(j, "name"),
      OptText(j, "type"),
      if IsNumber(Get(j, "total_hours")) then RealValue(Get(j, "total_hours")) else 0.0,
      if IsNumber(Get(j, "lecture_hours")) then RealValue(Get(j, "lecture_hours")) else 0.0,
      if IsNumber(Get(j, "lab_hours")) then RealValue(Get(j, "lab_hours")) else 0.0,
      RealValue(Get(j, "credit")),
      OptText(j, "semester")))
  }

  /** The course the add and update handlers evidently mean to build: every
      number accepted by `json_is_number` is read with its value. */
  function CourseFromBody(j: Json): (r: Option<Course>)
    ensures r.Some? <==> IsString(Get(j, "course_id")) && IsNumber(Get(j, "credit"))
  {
    if !IsString(Get(j, "course_id")) || !IsNumber(Get(j, "credit")) then None
    else Some(Course(
      Get(j, "course_id").value.s,
      OptText(j, "name"),
      OptText(j, "type"),
      NumberValue(Get(j, "total_hours")),
      NumberValue(Get(j, "lecture_hours")),
      NumberValue(Get(j, "lab_hours")),
      NumberValue(Get(j, "credit")),
      OptText(j, "semester")))
  }

  /** A number as `JSON.stringify` writes it and the parser reads it back:
      an integer when it has no fractional part. */
  function JsonNumber(x: real): (r: Json)
    ensures r.JInt? || r.JReal?
  {
    if x == x.Floor as real then JInt(x.Floor) else JReal(x)
  }

  /** A text field the front end sends only when it is non-empty. */
  function TextField(v: Option<string>): (r: Option<Json>)
    ensures r.Some? ==> r.value.JString?
  {
    if v.Some? && v.value != "" then Some(JString(v.value)) else None
  }

  /** A number field the front end sends only when it is non-zero. */
  function NumberField(x: real): (r: Option<Json>)
    ensures r.Some? ==> r.value.JInt? || r.value.JReal?
  {
    if x != 0.0 then Some(JsonNumber(x)) else None
  }

  /** Add a field when there is one. */
  function Put(m: map<string, Json>, key: string, v: Option<Json>): (r: map<string, Json>)
    ensures key in r <==> key in m || v.Some?
    ensures v.Some? ==> r[key] == v.value
    ensures v.None? ==> r == m
    ensures forall k :: k != key ==> (k in r <==> k in m) && (k in m ==> r[k] == m[k])
  {
    if v.Some? then m[key := v.value] else m
  }

  /** The body the web front end sends for a course (web/app.js:93-104):
      id and credit always, the other fields when they are non-empty or
      non-zero. */
  function CourseBody(c: Course): Json {
    var m := map["course_id" := JString(c.courseId), "credit" := JsonNumber(c.credit)];
    var m := Put(m, "name", TextField(c.name));
    var m := Put(m, "type", TextField(c.courseType));
    var m := Put(m, "total_hours", NumberField(c.totalHours));
    var m := Put(m, "lecture_hours", NumberField(c.lectureHours));
    var m := Put(m, "lab_hours", NumberField(c.labHours));
    var m := Put(m, "semester", TextField(c.semester));
    JObject(m)
  }

  lemma JsonNumberValue(x: real)
    ensures NumberValue(Some(JsonNumber(x))) == x
  {
  }

  lemma TextFieldValue(v: Option<string>)
    requires v != Some("")
    ensures (if IsString(TextField(v)) then Some(TextField(v).value.s) else None) == v
  {
  }

  lemma NumberFieldValue(x: real)
    ensures NumberValue(NumberField(x)) == x
  {
  }

  lemma CourseBodyText(c: Course)
    ensures var j := CourseBody(c);
      && Get(j, "course_id") == Some(JString(c.courseId))
      && Get(j, "name") == TextField(c.name)
      && Get(j, "type") == TextField(c.courseType)
      && Get(j, "semester") == TextField(c.semester)
  {
  }

  lemma CourseBodyNumbers(c: Course)
    ensures var j := CourseBody(c);
      && Get(j, "credit") == Some(JsonNumber(c.credit))
      && Get(j, "total_hours") == NumberField(c.totalHours)
      && Get(j, "lecture_hours") == NumberField(c.lectureHours)
      && Get(j, "lab_hours") == NumberField(c.labHours)
  {
  }

  /** A course with no empty text field survives the trip through the
      front end's body and the corrected reading of it. */
  lemma CourseBodyRoundTrip(c: Course)
    requires c.name != Some("") && c.courseType != Some("") && c.semester != Some("")
    ensures CourseFromBody(CourseBody(c)) == Some(c)
  {
    CourseBodyText(c);
    CourseBodyNumbers(c);
    JsonNumberValue(c.credit);
    TextFieldValue(c.name);
    TextFieldValue(c.courseType);
    TextFieldValue(c.semester);
    NumberFieldValue(c.totalHours);
    NumberFieldValue(c.lectureHours);
    NumberFieldValue(c.labHours);
  }

  /** As written, a course whose credit is a non-zero whole number, sent by
      the front end, is read with credit 0. */
  lemma IntegerCreditReadAsZero(c: Course)
    requires c.credit == c.credit.Floor as real && c.credit != 0.0
    ensures CourseFromBodyAsWritten(CourseBody(c)).Some?
    ensures CourseFromBodyAsWritten(CourseBody(c)).value.credit == 0.0 != c.credit
  {
    CourseBodyNumbers(c);
  }

  /** The concrete case: `{"course_id": "c9", "credit": 3}`. */
  lemma CreditThreeReadAsZero()
    ensures CourseFromBodyAsWritten(JObject(map["course_id" := JString("c9"), "credit" := JInt(3)])).value.credit == 0.0
    ensures CourseFromBody(JObject(map["course_id" := JString("c9"), "credit" := JInt(3)])).value.credit == 3.0
  {
  }

  // Student bodies (src/handlers.c:435-440 and src/handlers.c:470-477).

  /** The student the add handler builds: id and name must be strings,
      e-mail is copied only when it is a string, credits are 0. */
  function StudentFromAddBody(j: Json): (r: Option<Student>)
    ensures r.Some? <==> IsString(Get(j, "student_id")) && IsString(Get(j, "name"))
    ensures r.Some? ==> r.value.credits == 0.0 && r.value.name.Some? && r.value.email == OptText(j, "email")
  {
    if !IsString(Get(j, "student_id")) || !IsString(Get(j, "name")) then None
    else Some(Student(Get(j, "student_id").value.s, Some(Get(j, "name").value.s), OptText(j, "email"), 0.0))
  }

  /** The student the update handler builds: as for add, with the credits
      taken from a number and 0 otherwise. */
  function StudentFromUpdateBody(j: Json): (r: Option<Student>)
    ensures r.Some? <==> IsString(Get(j, "student_id")) && IsString(Get(j, "name"))
    ensures r.Some? ==> r.value.credits == NumberValue(Get(j, "credits"))
    ensures r.Some? && !IsNumber(Get(j, "credits")) ==> r.value.credits == 0.0
  {
    if !IsString(Get(j, "student_id")) || !IsString(Get(j, "name")) then None
    else
      var credits := if IsNumber(Get(j, "credits")) then NumberValue(Get(j, "credits")) else 0.0;
      Some(Student(Get(j, "student_id").value.s, Some(Get(j, "name").value.s), OptText(j, "email"), credits))
  }

  /** The body the web front end sends for a student add or update
      (web/app.js:47-52 and web/app.js:65-70). */
  function StudentBody(s: Student): Json
    requires s.name.Some?
  {
    JObject(map["student_id" := JString(s.studentId), "name" := JString(s.name.value),
                "email" := JString(s.email.GetOr("")), "credits" := JsonNumber(s.credits)])
  }

  /** An update sent by the front end carries the student over unchanged,
      an empty e-mail becoming "". */
  lemma StudentBodyRoundTrip(s: Student)
    requires s.name.Some?
    ensures StudentFromUpdateBody(StudentBody(s)) == Some(s.(email := Some(s.email.GetOr(""))))
    ensures StudentFromAddBody(StudentBody(s)) == Some(s.(email := Some(s.email.GetOr("")), credits := 0.0))
  {
    var j := StudentBody(s);
    assert Get(j, "credits") == Some(JsonNumber(s.credits));
    assert NumberValue(Get(j, "credits")) == s.credits;
  }

  // Handlers.

  /** The status of a reply and the store it leaves. */
  datatype Reply = Reply(code: int, db: Db)

  /** A store result as a reply: 200 on success, 500 otherwise. */
  function FromOutcome(o: Outcome): (r: Reply)
    ensures r.db == o.db
    ensures r.code == 200 <==> o.ok
    ensures r.code == 500 <==> !o.ok
  {
    Reply(if o.ok then 200 else 500, o.db)
  }

  /** `handle_course_add` (src/handlers.c:204-231), reading the body as
      the code does, with `json_real_value`. */
  function HandleCourseAdd(db: Db, body: Option<Json>): (r: Reply)
    ensures r.code in {200, 400, 500}
    ensures r.code == 400 <==> body.None? || CourseFromBodyAsWritten(body.value).None?
    ensures r.code == 200 <==> body.Some? && CourseFromBodyAsWritten(body.value).Some?
                               && CourseFromBodyAsWritten(body.value).value.courseId !in db.courses
    ensures r.code != 200 ==> r.db == db
    ensures r.code == 200 ==> var c := CourseFromBodyAsWritten(body.value).value;
      r.db == db.(courses := db.courses[c.courseId := c])
  {
    if body.None? then Reply(400, db)
    else
      var c := CourseFromBodyAsWritten(body.value);
      if c.None? then Reply(400, db) else FromOutcome(CourseAdd(db, c.value))
  }

  /** `handle_course_update` (src/handlers.c:249-276), reading the body
      with `json_real_value`: 200 whenever the body is valid, a missing
      course included. */
  function HandleCourseUpdate(db: Db, body: Option<Json>): (r: Reply)
    ensures r.code in {200, 400}
    ensures r.code == 400 <==> body.None? || CourseFromBodyAsWritten(body.value).None?
    ensures r.code == 400 ==> r.db == db
    ensures r.code == 200 ==> var c := CourseFromBodyAsWritten(body.value).value;
      r.db == db.(courses := if c.courseId in db.courses then db.courses[c.courseId := c] else db.courses)
  {
    if body.None? then Reply(400, db)
    else
      var c := CourseFromBodyAsWritten(body.value);
      if c.None? then Reply(400, db) else FromOutcome(CourseUpdate(db, c.value))
  }

  /** A new course the front end sends with a non-zero whole credit is
      accepted and stored with credit 0. */
  lemma CourseAddStoresZeroCredit(db: Db, c: Course)
    requires c.courseId !in db.courses
    requires c.credit == c.credit.Floor as real && c.credit != 0.0
    ensures HandleCourseAdd(db, Some(CourseBody(c))).code == 200
    ensures HandleCourseAdd(db, Some(CourseBody(c))).db.courses[c.courseId].credit == 0.0
  {
    IntegerCreditReadAsZero(c);
    CourseBodyText(c);
  }

  /** With the corrected reading, the same request stores the course the
      front end sent. */
  lemma CorrectedCourseAddStoresSent(db: Db, c: Course)
    requires c.courseId !in db.courses
    requires c.name != Some("") && c.courseType != Some("") && c.semester != Some("")
    ensures CourseAdd(db, CourseFromBody(CourseBody(c)).value).ok
    ensures CourseAdd(db, CourseFromBody(CourseBody(c)).value).db.courses[c.courseId] == c
  {
    CourseBodyRoundTrip(c);
  }

  /** `handle_student_add` (src/handlers.c:428-445): whatever credits the
      body carries, the student is stored with 0. */
  function HandleStudentAdd(db: Db, body: Option<Json>): (r: Reply)
    ensures r.code in {200, 400, 500}
    ensures r.code == 400 <==> body.None? || StudentFromAddBody(body.value).None?
    ensures r.code != 200 ==> r.db == db
    ensures r.code == 200 ==> var sid := Get(body.value, "student_id").value.s;
      sid !in db.students && sid in r.db.students && r.db.students[sid].credits == 0.0
  {
    if body.None? then Reply(400, db)
    else
      var s := StudentFromAddBody(body.value);
      if s.None? then Reply(400, db) else FromOutcome(StudentAdd(db, s.value))
  }

  /** `handle_student_update` (src/handlers.c:463-482). */
  function HandleStudentUpdate(db: Db, body: Option<Json>): (r: Reply)
    ensures r.code in {200, 400, 500}
    ensures r.code == 400 <==> body.None? || StudentFromUpdateBody(body.value).None?
    ensures r.code != 200 ==> r.db == db
    ensures r.code == 500 ==> NumberValue(Get(body.value, "credits")) < 0.0
  {
    if body.None? then Reply(400, db)
    else
      var s := StudentFromUpdateBody(body.value);
      if s.None? then Reply(400, db) else FromOutcome(StudentUpdate(db, s.value))
  }

  /** `handle_enrollment_add` (src/handlers.c:348-363): the enrollment is
      built positionally, course first; a 500 may still leave the pair
      stored. */
  function HandleEnrollmentAdd(db: Db, body: Option<Json>): (r: Reply)
    ensures r.code in {200, 400, 500}
    ensures r.code == 400 <==> body.None? || !IsString(Get(body.value, "student_id")) || !IsString(Get(body.value, "course_id"))
    ensures r.code == 400 ==> r.db == db
    ensures r.code == 200 ==> (Get(body.value, "student_id").value.s, Get(body.value, "course_id").value.s) in r.db.enrollments
  {
    if body.None? then Reply(400, db)
    else
      var js := Get(body.value, "student_id");
      var jc := Get(body.value, "course_id");
      if !IsString(js) || !IsString(jc) then Reply(400, db)
      else FromOutcome(EnrollmentAdd(db, Enrollment(jc.value.s, js.value.s)))
  }

  /** `handle_course_remove` (src/handlers.c:233-241). */
  function HandleCourseRemove(db: Db, qs: Option<string>): (r: Reply)
    ensures r.code in {200, 400}
    ensures r.code == 400 <==> QsParam(qs, "course_id").None?
    ensures r.code == 200 ==> CParam(qs, "course_id").value !in r.db.courses
  {
    var id := CParam(qs, "course_id");
    if id.None? then Reply(400, db) else FromOutcome(CourseRemove(db, id.value))
  }

  /** `handle_student_remove` (src/handlers.c:447-455). */
  function HandleStudentRemove(db: Db, qs: Option<string>): (r: Reply)
    ensures r.code in {200, 400}
    ensures r.code == 400 <==> QsParam(qs, "student_id").None?
    ensures r.code == 200 ==> CParam(qs, "student_id").value !in r.db.students
  {
    var id := CParam(qs, "student_id");
    if id.None? then Reply(400, db) else FromOutcome(StudentRemove(db, id.value))
  }

  /** `handle_enrollment_remove` (src/handlers.c:365-379): both parameters
      are required. */
  function HandleEnrollmentRemove(db: Db, qs: Option<string>): (r: Reply)
    ensures r.code in {200, 400, 500}
    ensures r.code == 400 <==> QsParam(qs, "student_id").None? || QsParam(qs, "course_id").None?
    ensures r.code == 400 ==> r.db == db
    ensures r.code != 400 ==> (CParam(qs, "student_id").value, CParam(qs, "course_id").value) !in r.db.enrollments
  {
    var sid := CParam(qs, "student_id");
    var cid := CParam(qs, "course_id");
    if sid.None? || cid.None? then Reply(400, db) else FromOutcome(EnrollmentRemove(db, sid.value, cid.value))
  }

  /** The bulk removals answer 200 (src/handlers.c:243-247,
      src/handlers.c:407-411, src/handlers.c:457-461). */
  lemma RemoveAllHandlers(db: Db)
    ensures FromOutcome(CourseRemoveAll(db)).code == 200
    ensures FromOutcome(EnrollmentRemoveAll(db)).code == 200
    ensures FromOutcome(StudentRemoveAll(db)).code == 200
  {
  }

  // Find handlers: the parameter each reads, or 400.

  datatype CourseFind = ById | ByName | ByType | BySemester

  function CourseFindKey(k: CourseFind): string {
    match k
    case ById => "id"
    case ByName => "name"
    case ByType => "type"
    case BySemester => "semester"
  }

  /** `handle_course_find_by_*` (src/handlers.c:290-344): the filter the
      store is asked for, or None for a 400. */
  function CourseFindFilter(k: CourseFind, qs: Option<string>): (r: Option<CourseFilter>)
    ensures r.None? <==> QsParam(qs, CourseFindKey(k)).None?
    ensures r.Some? && k.ById? ==> r.value == CourseIdIs(CParam(qs, "id").value)
  {
    var v := CParam(qs, CourseFindKey(k));
    if v.None? then None
    else match k
      case ById => Some(CourseIdIs(v.value))
      case ByName => Some(CourseNameLike(v.value))
      case ByType => Some(CourseTypeLike(v.value))
      case BySemester => Some(CourseSemesterLike(v.value))
  }

  /** `handle_student_find_by_id` and `handle_student_find_by_name`
      (src/handlers.c:496-522). */
  function StudentFindFilter(byId: bool, qs: Option<string>): (r: Option<StudentFilter>)
    ensures r.None? <==> QsParam(qs, if byId then "student_id" else "name").None?
  {
    var v := CParam(qs, if byId then "student_id" else "name");
    if v.None? then None else if byId then Some(StudentIdIs(v.value)) else Some(StudentNameLike(v.value))
  }

  /** `handle_enrollment_find_by_student_id` and
      `handle_enrollment_find_by_course_id` (src/handlers.c:393-425). */
  function EnrollmentFindFilter(byStudent: bool, qs: Option<string>): (r: Option<EnrollmentFilter>)
    ensures r.None? <==> QsParam(qs, if byStudent then "student_id" else "course_id").None?
  {
    var v := CParam(qs, if byStudent then "student_id" else "course_id");
    if v.None? then None else if byStudent then Some(OfStudent(v.value)) else Some(OfCourse(v.value))
  }

  /** A query string holding only `course_id=...` does not name the
      parameter `id`: the find-by-id handler answers it with 400. */
  lemma CourseIdIsNotId(cid: string)
    requires '&' !in cid
    ensures CourseFindFilter(ById, Some("course_id=" + cid)).None?
  {
    var qs := "course_id=" + cid;
    assert CourseFindKey(ById) == "id";
    ScanIsFirstParam(qs, 0, "id");
    forall k | 0 <= k < |qs| ensures qs[k] != '&' {
      if k >= 10 {
        assert qs[k] == cid[k - 10];
      }
    }
    assert qs[0..|qs|] == qs;
    SegmentEndAt(qs, 0, |qs|);
    assert SegmentsFrom(qs, 0) == [qs];
    assert qs[..2][0] == 'c';
  }
}
