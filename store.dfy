/** The persistence layer of src/db.c: three tables held by one store,
    changed one SQL statement at a time. Each `db_*` operation is a method
    of `Store` that performs its statements in the order the source does and
    stops at the first one that fails, so earlier statements stay applied.
    The only failures modelled are those the schema imposes
    (src/db.c:50-77): a duplicate primary key, a NULL student name and a
    negative student credit total. Foreign keys are declared but the
    engine does not enforce them, because the store never enables them. */
module Store {
  import opened Wrappers
  import opened DbTypes
  import opened Engine
  import opened QueryBuilder

  /** The three tables as values: courses and students keyed by their
      primary key, enrollments as (student id, course id) pairs. */
  datatype Db = Db(courses: map<string, Course>, students: map<string, Student>, enrollments: set<(string, string)>)

  /** The boolean a `db_*` operation returns, and the tables afterwards. */
  datatype Outcome = Outcome(ok: bool, db: Db)

  /** `init_db` on a fresh file: three empty tables. */
  const EmptyDb := Db(map[], map[], {})

  /** What the schema guarantees of every stored row: a row is filed under
      its own primary key, a student has a name (`NOT NULL`) and a
      non-negative credit total (`CHECK(credits >= 0.0)`). */
  ghost predicate WellFormed(db: Db) {
    && (forall id :: id in db.courses ==> db.courses[id].courseId == id)
    && (forall id :: id in db.students ==>
          db.students[id].studentId == id && db.students[id].name.Some? && db.students[id].credits >= 0.0)
  }

  // Statements shared by several operations.

  /** `UPDATE student SET credits = credits + ? WHERE student_id = ?`: no
      row matches an unknown student, which is not an error; a total below
      zero violates the CHECK constraint and changes nothing. */
  function AddCredits(db: Db, sid: string, delta: real): (r: Outcome)
    ensures r.db.courses == db.courses && r.db.enrollments == db.enrollments
    ensures !r.ok <==> sid in db.students && db.students[sid].credits + delta < 0.0
    ensures r.ok && sid in db.students ==>
      r.db.students == db.students[sid := db.students[sid].(credits := db.students[sid].credits + delta)]
    ensures !r.ok || sid !in db.students ==> r.db.students == db.students
  {
    if sid !in db.students then Outcome(true, db)
    else
      var total := db.students[sid].credits + delta;
      if total < 0.0 then Outcome(false, db)
      else Outcome(true, db.(students := db.students[sid := db.students[sid].(credits := total)]))
  }

  /** The credit `SELECT credit FROM course WHERE course_id = ?` reads, or
      0 when no course matches (src/db.c:425-428). */
  function CreditOf(courses: map<string, Course>, cid: string): real {
    if cid in courses then courses[cid].credit else 0.0
  }

  /** The enrollments of every student but `sid`. */
  function EnrollmentsWithoutStudent(e: set<(string, string)>, sid: string): (r: set<(string, string)>)
    ensures forall p :: p in r <==> p in e && p.0 != sid
  {
    set p | p in e && p.0 != sid
  }

  /** The enrollments in every course but `cid`. */
  function EnrollmentsWithoutCourse(e: set<(string, string)>, cid: string): (r: set<(string, string)>)
    ensures forall p :: p in r <==> p in e && p.1 != cid
  {
    set p | p in e && p.1 != cid
  }

  // Operations.

  /** `db_course_add` (src/db.c:235-251): one INSERT, rejected by the
      primary key when the id is taken. */
  function CourseAdd(db: Db, c: Course): (r: Outcome)
    ensures WellFormed(db) ==> WellFormed(r.db)
  {
    if c.courseId in db.courses then Outcome(false, db)
    else Outcome(true, db.(courses := db.courses[c.courseId := c]))
  }

  /** `db_course_update` (src/db.c:253-270): rewrites every column of the
      row with the same id; no matching row is not an error. */
  function CourseUpdate(db: Db, c: Course): (r: Outcome)
    ensures WellFormed(db) ==> WellFormed(r.db)
  {
    if c.courseId in db.courses then Outcome(true, db.(courses := db.courses[c.courseId := c]))
    else Outcome(true, db)
  }

  /** `db_course_remove` (src/db.c:272-283): the course's enrollments, then
      the course. No student's credits are touched. */
  function CourseRemove(db: Db, cid: string): (r: Outcome)
    ensures WellFormed(db) ==> WellFormed(r.db)
  {
    Outcome(true, Db(db.courses - {cid}, db.students, EnrollmentsWithoutCourse(db.enrollments, cid)))
  }

  /** `db_course_remove_all` (src/db.c:354-363). */
  function CourseRemoveAll(db: Db): (r: Outcome)
    ensures WellFormed(db) ==> WellFormed(r.db)
  {
    Outcome(true, Db(map[], db.students, {}))
  }

  /** `db_student_add` (src/db.c:518-527): the statement inserts a literal
      0.0 for the credits, so the credits passed in are never stored. */
  function StudentAdd(db: Db, s: Student): (r: Outcome)
    ensures WellFormed(db) ==> WellFormed(r.db)
  {
    if s.studentId in db.students || s.name.None? then Outcome(false, db)
    else Outcome(true, db.(students := db.students[s.studentId := Student(s.studentId, s.name, s.email, 0.0)]))
  }

  /** `db_student_update` (src/db.c:529-539): rewrites name, email and
      credits of the row with the same id. The row's constraints reject a
      NULL name and negative credits; no matching row is not an error. */
  function StudentUpdate(db: Db, s: Student): (r: Outcome)
    ensures WellFormed(db) ==> WellFormed(r.db)
  {
    if s.studentId !in db.students then Outcome(true, db)
    else if s.name.None? || s.credits < 0.0 then Outcome(false, db)
    else Outcome(true, db.(students := db.students[s.studentId := s]))
  }

  /** `db_student_remove` (src/db.c:541-551): the student's enrollments, then the student. */
  function StudentRemove(db: Db, sid: string): (r: Outcome)
    ensures WellFormed(db) ==> WellFormed(r.db)
  {
    Outcome(true, Db(db.courses, db.students - {sid}, EnrollmentsWithoutStudent(db.enrollments, sid)))
  }

  /** `db_student_remove_all` (src/db.c:553-563). */
  function StudentRemoveAll(db: Db): (r: Outcome)
    ensures WellFormed(db) ==> WellFormed(r.db)
  {
    Outcome(true, Db(db.courses, map[], {}))
  }

  /** `db_enrollment_add` (src/db.c:381-417): both rows must exist and the
      pair must be new; then the pair is inserted and, as a separate
      statement, the course's credit is added to the student's total. */
  function EnrollmentAdd(db: Db, e: Enrollment): (r: Outcome)
    ensures WellFormed(db) ==> WellFormed(r.db)
  {
    var sid := e.studentId;
    var cid := e.courseId;
    if sid !in db.students || cid !in db.courses || (sid, cid) in db.enrollments then Outcome(false, db)
    else AddCredits(db.(enrollments := db.enrollments + {(sid, cid)}), sid, db.courses[cid].credit)
  }

  /** `db_enrollment_remove` (src/db.c:419-446): read the course's credit
      (0 if the course is gone), delete the pair if present, then subtract
      the credit from the student's total whether or not a pair was deleted. */
  function EnrollmentRemove(db: Db, sid: string, cid: string): (r: Outcome)
    ensures WellFormed(db) ==> WellFormed(r.db)
  {
    var credit := CreditOf(db.courses, cid);
    AddCredits(db.(enrollments := db.enrollments - {(sid, cid)}), sid, -credit)
  }

  /** `db_enrollment_remove_all` (src/db.c:448-456): every pair, then every
      student's credits reset to 0. */
  function EnrollmentRemoveAll(db: Db): (r: Outcome)
    ensures WellFormed(db) ==> WellFormed(r.db)
  {
    Outcome(true, Db(db.courses, ResetCredits(db.students), {}))
  }

  function ResetCredits(students: map<string, Student>): (r: map<string, Student>)
    ensures r.Keys == students.Keys
    ensures forall id :: id in r ==> r[id] == students[id].(credits := 0.0)
  {
    map id | id in students :: students[id].(credits := 0.0)
  }

  // Reading.

  /** The sort key ORDER BY sees for a nullable text column. */
  function TextKey(s: Option<string>): SortKey {
    if s.Some? then KText(s.value) else KNull
  }

  /** The value of a course column, as ORDER BY compares it. */
  function CourseColumn(col: string, c: Course): SortKey {
    if col == "course_id" then KText(c.courseId)
    else if col == "name" then TextKey(c.name)
    else if col == "type" then TextKey(c.courseType)
    else if col == "total_hours" then KNum(c.totalHours)
    else if col == "lecture_hours" then KNum(c.lectureHours)
    else if col == "lab_hours" then KNum(c.labHours)
    else if col == "credit" then KNum(c.credit)
    else if col == "semester" then TextKey(c.semester)
    else KNull
  }

  function StudentColumn(col: string, s: Student): SortKey {
    if col == "student_id" then KText(s.studentId)
    else if col == "name" then TextKey(s.name)
    else if col == "email" then TextKey(s.email)
    else if col == "credits" then KNum(s.credits)
    else KNull
  }

  function EnrollmentColumn(col: string, e: Enrollment): SortKey {
    if col == "student_id" then KText(e.studentId)
    else if col == "course_id" then KText(e.courseId)
    else KNull
  }

  /** The enrollment rows as the visitor receives them: column 0 is the
      student id and column 1 the course id (src/db.c:369-379). */
  function EnrollmentRows(e: set<(string, string)>): (r: set<Enrollment>)
    ensures forall x :: x in r <==> (x.studentId, x.courseId) in e
  {
    set p | p in e :: Enrollment(p.1, p.0)
  }

  /** Which rows a WHERE clause of the find functions keeps. */
  datatype CourseFilter = AllCourses | CourseIdIs(id: string) | CourseNameLike(name: string)
                        | CourseTypeLike(courseType: string) | CourseSemesterLike(semester: string)

  datatype StudentFilter = AllStudents | StudentIdIs(id: string) | StudentNameLike(name: string)

  datatype EnrollmentFilter = AllEnrollments | OfStudent(sid: string) | OfCourse(cid: string)

  /** `LIKE` belongs to the engine; `like(value, pattern)` stands for it. A
      NULL column never matches. */
  predicate CourseMatches(c: Course, f: CourseFilter, like: (string, string) -> bool) {
    match f
    case AllCourses => true
    case CourseIdIs(id) => c.courseId == id
    case CourseNameLike(p) => c.name.Some? && like(c.name.value, p)
    case CourseTypeLike(p) => c.courseType.Some? && like(c.courseType.value, p)
    case CourseSemesterLike(p) => c.semester.Some? && like(c.semester.value, p)
  }

  predicate StudentMatches(s: Student, f: StudentFilter, like: (string, string) -> bool) {
    match f
    case AllStudents => true
    case StudentIdIs(id) => s.studentId == id
    case StudentNameLike(p) => s.name.Some? && like(s.name.value, p)
  }

  predicate EnrollmentMatches(e: Enrollment, f: EnrollmentFilter) {
    match f
    case AllEnrollments => true
    case OfStudent(sid) => e.studentId == sid
    case OfCourse(cid) => e.courseId == cid
  }

  /** The base SELECT of each list and find function and the values it binds. */
  const CourseCols := "SELECT course_id, name, type, total_hours, lecture_hours, lab_hours, credit, semester FROM course"
  const StudentCols := "SELECT student_id, name, email, credits FROM student"
  const EnrollmentCols := "SELECT student_id, course_id FROM enrollment"

  function CourseSelect(f: CourseFilter): (string, seq<DbValue>) {
    var cols := CourseCols;
    match f
    case AllCourses => (cols, [])
    case CourseIdIs(id) => (cols + " WHERE course_id = ?", [TextValue(Some(id))])
    case CourseNameLike(p) => (cols + " WHERE name LIKE ?", [TextValue(Some(p))])
    case CourseTypeLike(p) => (cols + " WHERE type LIKE ?", [TextValue(Some(p))])
    case CourseSemesterLike(p) => (cols + " WHERE semester LIKE ?", [TextValue(Some(p))])
  }

  lemma CourseSelectShort(f: CourseFilter)
    ensures |CourseSelect(f).0| < BaseBufferSize
  {
    assert |CourseCols| == 97;
  }

  function StudentSelect(f: StudentFilter): (string, seq<DbValue>) {
    var cols := StudentCols;
    match f
    case AllStudents => (cols, [])
    case StudentIdIs(id) => (cols + " WHERE student_id = ?", [TextValue(Some(id))])
    case StudentNameLike(p) => (cols + " WHERE name LIKE ?", [TextValue(Some(p))])
  }

  function EnrollmentSelect(f: EnrollmentFilter): (string, seq<DbValue>) {
    var cols := EnrollmentCols;
    match f
    case AllEnrollments => (cols, [])
    case OfStudent(sid) => (cols + " WHERE student_id = ?", [TextValue(Some(sid))])
    case OfCourse(cid) => (cols + " WHERE course_id = ?", [TextValue(Some(cid))])
  }

  /** A `db_visit_*` loop: the visitor is called once per result row, in
      the order the engine returns them (src/db.c:217-233). */
  method Visit<T>(result: seq<T>) returns (calls: seq<T>)
    ensures calls == result
  {
    calls := [];
    var i := 0;
    while i < |result|
      invariant 0 <= i <= |result|
      invariant calls == result[..i]
    {
      calls := calls + [result[i]];
      i := i + 1;
    }
    assert result[..i] == result;
  }

  /** The common path of every list and find function: scan the rows the
      WHERE clause keeps, build the statement with `db_query`, let the
      engine sort and paginate, and visit the result. The scan order is the
      engine's choice; whatever it is, the rows visited are what the list
      promises for it. */
  method Select<T(==,!new)>(table: set<T>, base: string, values: seq<DbValue>, opt: Option<QueryOptions>,
                            entity: Option<string>, column: (string, T) -> SortKey)
    returns (ok: bool, rows: seq<T>)
    requires |base| < BaseBufferSize
    ensures ok
    ensures exists scan :: Enumerates(scan, table) && rows == ListSpec(scan, opt, AllowList(entity), column)
  {
    var scan := Scan(table);
    var sql, tail, binds := BuildQuery(base, opt, values, entity);
    QueryMeaning(scan, opt, values, entity, column);
    var result := Execute(scan, tail, BindAll(binds), |values|, column);
    rows := Visit(result.value);
    ok := true;
  }

  /** The in-memory store behind the global `db` handle (src/db.c:3). */
  class Store {
    var courses: map<string, Course>
    var students: map<string, Student>
    var enrollments: set<(string, string)>

    function State(): Db
      reads this
    {
      Db(courses, students, enrollments)
    }

    /** `init_db`: empty tables. */
    constructor ()
      ensures State() == EmptyDb
    {
      courses := map[];
      students := map[];
      enrollments := {};
    }

    // One method per SQL statement.

    method InsertCourseRow(c: Course) returns (ok: bool)
      modifies this
      ensures ok <==> c.courseId !in old(courses)
      ensures courses == if ok then old(courses)[c.courseId := c] else old(courses)
      ensures students == old(students) && enrollments == old(enrollments)
    {
      if c.courseId in courses {
        return false;
      }
      courses := courses[c.courseId := c];
      return true;
    }

    method UpdateCourseRow(c: Course)
      modifies this
      ensures courses == if c.courseId in old(courses) then old(courses)[c.courseId := c] else old(courses)
      ensures students == old(students) && enrollments == old(enrollments)
    {
      if c.courseId in courses {
        courses := courses[c.courseId := c];
      }
    }

    method DeleteCourseRow(cid: string)
      modifies this
      ensures courses == old(courses) - {cid}
      ensures students == old(students) && enrollments == old(enrollments)
    {
      courses := courses - {cid};
    }

    method DeleteAllCourses()
      modifies this
      ensures courses == map[]
      ensures students == old(students) && enrollments == old(enrollments)
    {
      courses := map[];
    }

    method InsertStudentRow(sid: string, name: Option<string>, email: Option<string>) returns (ok: bool)
      modifies this
      ensures ok <==> sid !in old(students) && name.Some?
      ensures students == if ok then old(students)[sid := Student(sid, name, email, 0.0)] else old(students)
      ensures courses == old(courses) && enrollments == old(enrollments)
    {
      if sid in students || name.None? {
        return false;
      }
      students := students[sid := Student(sid, name, email, 0.0)];
      return true;
    }

    method UpdateStudentRow(s: Student) returns (ok: bool)
      modifies this
      ensures ok <==> s.studentId !in old(students) || (s.name.Some? && s.credits >= 0.0)
      ensures students == if ok && s.studentId in old(students) then old(students)[s.studentId := s] else old(students)
      ensures courses == old(courses) && enrollments == old(enrollments)
    {
      if s.studentId !in students {
        return true;
      }
      if s.name.None? || s.credits < 0.0 {
        return false;
      }
      students := students[s.studentId := s];
      return true;
    }

    method UpdateCredits(sid: string, delta: real) returns (ok: bool)
      modifies this
      ensures Outcome(ok, State()) == AddCredits(old(State()), sid, delta)
    {
      if sid !in students {
        return true;
      }
      var total := students[sid].credits + delta;
      if total < 0.0 {
        return false;
      }
      students := students[sid := students[sid].(credits := total)];
      return true;
    }

    method ResetAllCredits()
      modifies this
      ensures students == ResetCredits(old(students))
      ensures courses == old(courses) && enrollments == old(enrollments)
    {
      students := ResetCredits(students);
    }

    method DeleteStudentRow(sid: string)
      modifies this
      ensures students == old(students) - {sid}
      ensures courses == old(courses) && enrollments == old(enrollments)
    {
      students := students - {sid};
    }

    method DeleteAllStudents()
      modifies this
      ensures students == map[]
      ensures courses == old(courses) && enrollments == old(enrollments)
    {
      students := map[];
    }

    method InsertEnrollmentRow(sid: string, cid: string) returns (ok: bool)
      modifies this
      ensures ok <==> (sid, cid) !in old(enrollments)
      ensures enrollments == old(enrollments) + {(sid, cid)}
      ensures courses == old(courses) && students == old(students)
    {
      if (sid, cid) in enrollments {
        return false;
      }
      enrollments := enrollments + {(sid, cid)};
      return true;
    }

    method DeleteEnrollmentRow(sid: string, cid: string)
      modifies this
      ensures enrollments == old(enrollments) - {(sid, cid)}
      ensures courses == old(courses) && students == old(students)
    {
      enrollments := enrollments - {(sid, cid)};
    }

    method DeleteEnrollmentsOfCourse(cid: string)
      modifies this
      ensures enrollments == EnrollmentsWithoutCourse(old(enrollments), cid)
      ensures courses == old(courses) && students == old(students)
    {
      enrollments := EnrollmentsWithoutCourse(enrollments, cid);
    }

    method DeleteEnrollmentsOfStudent(sid: string)
      modifies this
      ensures enrollments == EnrollmentsWithoutStudent(old(enrollments), sid)
      ensures courses == old(courses) && students == old(students)
    {
      enrollments := EnrollmentsWithoutStudent(enrollments, sid);
    }

    method DeleteAllEnrollments()
      modifies this
      ensures enrollments == {}
      ensures courses == old(courses) && students == old(students)
    {
      enrollments := {};
    }

    // The operations of src/db.h.

    method CourseAddOp(c: Course) returns (ok: bool)
      modifies this
      ensures Outcome(ok, State()) == CourseAdd(old(State()), c)
    {
      ok := InsertCourseRow(c);
    }

    method CourseUpdateOp(c: Course) returns (ok: bool)
      modifies this
      ensures Outcome(ok, State()) == CourseUpdate(old(State()), c)
    {
      UpdateCourseRow(c);
      ok := true;
    }

    method CourseRemoveOp(cid: string) returns (ok: bool)
      modifies this
      ensures Outcome(ok, State()) == CourseRemove(old(State()), cid)
    {
      DeleteEnrollmentsOfCourse(cid);
      DeleteCourseRow(cid);
      ok := true;
    }

    method CourseRemoveAllOp() returns (ok: bool)
      modifies this
      ensures Outcome(ok, State()) == CourseRemoveAll(old(State()))
    {
      DeleteAllEnrollments();
      DeleteAllCourses();
      ok := true;
    }

    method StudentAddOp(s: Student) returns (ok: bool)
      modifies this
      ensures Outcome(ok, State()) == StudentAdd(old(State()), s)
    {
      ok := InsertStudentRow(s.studentId, s.name, s.email);
    }

    method StudentUpdateOp(s: Student) returns (ok: bool)
      modifies this
      ensures Outcome(ok, State()) == StudentUpdate(old(State()), s)
    {
      ok := UpdateStudentRow(s);
    }

    method StudentRemoveOp(sid: string) returns (ok: bool)
      modifies this
      ensures Outcome(ok, State()) == StudentRemove(old(State()), sid)
    {
      DeleteEnrollmentsOfStudent(sid);
      DeleteStudentRow(sid);
      ok := true;
    }

    method StudentRemoveAllOp() returns (ok: bool)
      modifies this
      ensures Outcome(ok, State()) == StudentRemoveAll(old(State()))
    {
      DeleteAllEnrollments();
      DeleteAllStudents();
      ok := true;
    }

    method EnrollmentAddOp(e: Enrollment) returns (ok: bool)
      modifies this
      ensures Outcome(ok, State()) == EnrollmentAdd(old(State()), e)
    {
      if e.studentId !in students {
        return false;
      }
      if e.courseId !in courses {
        return false;
      }
      var credit := courses[e.courseId].credit;
      ok := InsertEnrollmentRow(e.studentId, e.courseId);
      if !ok {
        return;
      }
      ok := UpdateCredits(e.studentId, credit);
    }

    method EnrollmentRemoveOp(sid: string, cid: string) returns (ok: bool)
      modifies this
      ensures Outcome(ok, State()) == EnrollmentRemove(old(State()), sid, cid)
    {
      var credit := 0.0;
      if cid in courses {
        credit := courses[cid].credit;
      }
      DeleteEnrollmentRow(sid, cid);
      ok := UpdateCredits(sid, -credit);
    }

    method EnrollmentRemoveAllOp() returns (ok: bool)
      modifies this
      ensures Outcome(ok, State()) == EnrollmentRemoveAll(old(State()))
    {
      DeleteAllEnrollments();
      ResetAllCredits();
      ok := true;
    }

    /** `db_course_list` and the `db_course_find_by_*` functions
        (src/db.c:285-352). */
    method CourseQuery(f: CourseFilter, opt: Option<QueryOptions>, like: (string, string) -> bool)
      returns (ok: bool, rows: seq<Course>)
      ensures ok
      ensures exists scan :: Enumerates(scan, set c | c in courses.Values && CourseMatches(c, f, like))
                             && rows == ListSpec(scan, opt, CourseColumns, CourseColumn)
    {
      var (base, values) := CourseSelect(f);
      CourseSelectShort(f);
      var table := set c | c in courses.Values && CourseMatches(c, f, like);
      ok, rows := Select(table, base, values, opt, Some("course"), CourseColumn);
    }

    /** `db_student_list` and the `db_student_find_by_*` functions
        (src/db.c:565-605). */
    method StudentQuery(f: StudentFilter, opt: Option<QueryOptions>, like: (string, string) -> bool)
      returns (ok: bool, rows: seq<Student>)
      ensures ok
      ensures exists scan :: Enumerates(scan, set s | s in students.Values && StudentMatches(s, f, like))
                             && rows == ListSpec(scan, opt, StudentColumns, StudentColumn)
    {
      var (base, values) := StudentSelect(f);
      var table := set s | s in students.Values && StudentMatches(s, f, like);
      ok, rows := Select(table, base, values, opt, Some("student"), StudentColumn);
    }

    /** `db_enrollment_list` and the `db_enrollment_find_by_*` functions
        (src/db.c:458-498). */
    method EnrollmentQuery(f: EnrollmentFilter, opt: Option<QueryOptions>)
      returns (ok: bool, rows: seq<Enrollment>)
      ensures ok
      ensures exists scan :: Enumerates(scan, set e | e in EnrollmentRows(enrollments) && EnrollmentMatches(e, f))
                             && rows == ListSpec(scan, opt, EnrollmentColumns, EnrollmentColumn)
    {
      var (base, values) := EnrollmentSelect(f);
      var table := set e | e in EnrollmentRows(enrollments) && EnrollmentMatches(e, f);
      ok, rows := Select(table, base, values, opt, Some("enrollment"), EnrollmentColumn);
    }
  }
}
