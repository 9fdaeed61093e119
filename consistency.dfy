/** Cross-table rules of src/db.c: what each operation does to the three
    tables, the hazards of performing an operation as several statements,
    and the credit invariant — a student's `credits` equals the sum of the
    `credit` of the courses the student is enrolled in — which the store
    maintains incrementally and which holds only under restrictions. */
module Consistency {
  import opened Wrappers
  import opened DbTypes
  import opened Store

  // What each operation does.

  /** A course or student add fails exactly when the id is taken (or, for
      a student, the name is NULL), and then changes nothing; a student
      add stores 0 credits whatever it was given (src/db.c:235-251,
      src/db.c:518-527). */
  lemma AddBehaviour(db: Db, c: Course, s: Student)
    ensures CourseAdd(db, c).ok <==> c.courseId !in db.courses
    ensures CourseAdd(db, c).ok ==> CourseAdd(db, c).db.courses[c.courseId] == c
    ensures !CourseAdd(db, c).ok ==> CourseAdd(db, c).db == db
    ensures StudentAdd(db, s).ok <==> s.studentId !in db.students && s.name.Some?
    ensures StudentAdd(db, s).ok ==>
      && StudentAdd(db, s).db.students[s.studentId].credits == 0.0
      && StudentAdd(db, s).db.students[s.studentId].name == s.name
      && StudentAdd(db, s).db.students[s.studentId].email == s.email
    ensures !StudentAdd(db, s).ok ==> StudentAdd(db, s).db == db
  {
  }

  /** Update rewrites the row with the same id and reports success even
      when no row has that id; a student update that would store a
      negative total or a NULL name fails and changes nothing
      (src/db.c:253-270, src/db.c:529-539). */
  lemma UpdateBehaviour(db: Db, c: Course, s: Student)
    ensures CourseUpdate(db, c).ok
    ensures CourseUpdate(db, c).db.courses.Keys == db.courses.Keys
    ensures c.courseId in db.courses ==> CourseUpdate(db, c).db.courses[c.courseId] == c
    ensures c.courseId !in db.courses ==> CourseUpdate(db, c).db == db
    ensures StudentUpdate(db, s).ok <==> s.studentId !in db.students || (s.name.Some? && s.credits >= 0.0)
    ensures StudentUpdate(db, s).ok && s.studentId in db.students ==> StudentUpdate(db, s).db.students[s.studentId] == s
    ensures !StudentUpdate(db, s).ok || s.studentId !in db.students ==> StudentUpdate(db, s).db == db
  {
  }

  /** Removing a course or a student first removes every enrollment that
      names it, leaves every other enrollment, and touches no student's
      credits (src/db.c:272-283, src/db.c:541-551). */
  lemma CascadeBehaviour(db: Db, cid: string, sid: string)
    ensures var r := CourseRemove(db, cid);
      && r.ok && cid !in r.db.courses && r.db.students == db.students
      && (forall p :: p in r.db.enrollments <==> p in db.enrollments && p.1 != cid)
    ensures var r := StudentRemove(db, sid);
      && r.ok && sid !in r.db.students && r.db.courses == db.courses
      && (forall p :: p in r.db.enrollments <==> p in db.enrollments && p.0 != sid)
  {
  }

  /** The bulk removals (src/db.c:354-363, src/db.c:448-456,
      src/db.c:553-563): only `enrollment_remove_all` resets credits. */
  lemma RemoveAllBehaviour(db: Db)
    ensures CourseRemoveAll(db) == Outcome(true, Db(map[], db.students, {}))
    ensures var r := EnrollmentRemoveAll(db);
      && r.ok && r.db.enrollments == {} && r.db.courses == db.courses
      && r.db.students.Keys == db.students.Keys
      && (forall id :: id in r.db.students ==> r.db.students[id].credits == 0.0)
    ensures StudentRemoveAll(db) == Outcome(true, Db(db.courses, map[], {}))
  {
  }

  /** Enrolment is refused, with nothing changed, when the student or the
      course is missing or the pair exists; otherwise the pair is stored
      and the course's credit is added. When that second statement fails
      the pair stays stored (src/db.c:381-417). */
  lemma EnrollmentAddBehaviour(db: Db, e: Enrollment)
    ensures var sid := e.studentId; var cid := e.courseId; var r := EnrollmentAdd(db, e);
      && (sid !in db.students || cid !in db.courses || (sid, cid) in db.enrollments ==> r == Outcome(false, db))
      && (sid in db.students && cid in db.courses && (sid, cid) !in db.enrollments ==>
            && r.db.enrollments == db.enrollments + {(sid, cid)}
            && r.db.courses == db.courses
            && (r.ok <==> db.students[sid].credits + db.courses[cid].credit >= 0.0)
            && (r.ok ==> r.db.students[sid].credits == db.students[sid].credits + db.courses[cid].credit)
            && (!r.ok ==> r.db.students == db.students))
  {
  }

  /** Unenrolment deletes the pair if present and then subtracts the
      course's credit (0 for a missing course) whether or not the pair
      existed; when the subtraction would go negative it fails with the
      deletion already applied (src/db.c:419-446). */
  lemma EnrollmentRemoveBehaviour(db: Db, sid: string, cid: string)
    ensures var r := EnrollmentRemove(db, sid, cid);
      && r.db.enrollments == db.enrollments - {(sid, cid)}
      && r.db.courses == db.courses
      && (r.ok <==> sid !in db.students || db.students[sid].credits >= CreditOf(db.courses, cid))
      && (r.ok && sid in db.students ==>
            r.db.students[sid].credits == db.students[sid].credits - CreditOf(db.courses, cid))
      && (!r.ok ==> r.db.students == db.students)
  {
  }

  // The credit invariant.

  /** The courses `sid` is enrolled in. */
  function EnrolledCourses(e: set<(string, string)>, sid: string): (r: set<string>)
    ensures forall cid :: cid in r <==> (sid, cid) in e
  {
    set p | p in e && p.0 == sid :: p.1
  }

  /** The sum of the credit of the courses `cids`. */
  ghost function CreditSum(courses: map<string, Course>, cids: set<string>): real
    decreases cids
  {
    if cids == {} then 0.0
    else
      var cid :| cid in cids;
      CreditOf(courses, cid) + CreditSum(courses, cids - {cid})
  }

  /** The sum does not depend on which course is taken out first. */
  lemma {:induction false} CreditSumRemove(courses: map<string, Course>, cids: set<string>, cid: string)
    requires cid in cids
    ensures CreditSum(courses, cids) == CreditOf(courses, cid) + CreditSum(courses, cids - {cid})
    decreases cids
  {
    var y :| y in cids && CreditSum(courses, cids) == CreditOf(courses, y) + CreditSum(courses, cids - {y});
    if y != cid {
      CreditSumRemove(courses, cids - {y}, cid);
      CreditSumRemove(courses, cids - {cid}, y);
      assert cids - {y} - {cid} == cids - {cid} - {y};
    }
  }

  /** The sum reads only the credit of the courses it sums. */
  lemma {:induction false} CreditSumFrame(courses: map<string, Course>, courses': map<string, Course>, cids: set<string>)
    requires forall cid :: cid in cids ==> CreditOf(courses, cid) == CreditOf(courses', cid)
    ensures CreditSum(courses, cids) == CreditSum(courses', cids)
    decreases cids
  {
    if cids != {} {
      var cid :| cid in cids;
      CreditSumRemove(courses, cids, cid);
      CreditSumRemove(courses', cids, cid);
      CreditSumFrame(courses, courses', cids - {cid});
    }
  }

  /** With no negative course credit the sum is not negative. */
  lemma {:induction false} CreditSumNonNegative(courses: map<string, Course>, cids: set<string>)
    requires forall cid :: cid in courses ==> courses[cid].credit >= 0.0
    ensures CreditSum(courses, cids) >= 0.0
    decreases cids
  {
    if cids != {} {
      var cid :| cid in cids;
      CreditSumRemove(courses, cids, cid);
      CreditSumNonNegative(courses, cids - {cid});
    }
  }

  /** Every enrollment names an existing student and an existing course. */
  ghost predicate ReferencesExist(db: Db) {
    forall p :: p in db.enrollments ==> p.0 in db.students && p.1 in db.courses
  }

  /** The state the incremental credit maintenance is meant to keep. */
  ghost predicate Consistent(db: Db) {
    && WellFormed(db)
    && ReferencesExist(db)
    && (forall cid :: cid in db.courses ==> db.courses[cid].credit >= 0.0)
    && (forall sid :: sid in db.students ==>
          db.students[sid].credits == CreditSum(db.courses, EnrolledCourses(db.enrollments, sid)))
  }

  lemma EmptyConsistent()
    ensures Consistent(EmptyDb)
  {
  }

  /** Adding a course with a non-negative credit keeps the invariant: no
      enrollment can name a course that did not exist. */
  lemma CourseAddKeepsConsistent(db: Db, c: Course)
    requires Consistent(db) && c.credit >= 0.0
    ensures Consistent(CourseAdd(db, c).db)
  {
    var r := CourseAdd(db, c).db;
    if c.courseId !in db.courses {
      forall sid | sid in r.students
        ensures r.students[sid].credits == CreditSum(r.courses, EnrolledCourses(r.enrollments, sid))
      {
        CreditSumFrame(db.courses, r.courses, EnrolledCourses(db.enrollments, sid));
      }
    }
  }

  /** Adding a student keeps the invariant: the new student has no
      enrollment and is stored with 0 credits. */
  lemma StudentAddKeepsConsistent(db: Db, s: Student)
    requires Consistent(db)
    ensures Consistent(StudentAdd(db, s).db)
  {
    var r := StudentAdd(db, s).db;
    if StudentAdd(db, s).ok {
      assert EnrolledCourses(r.enrollments, s.studentId) == {};
    }
  }

  /** Enrolment of an existing student in an existing course keeps the
      invariant, and with non-negative credits it cannot fail half-way. */
  lemma EnrollmentAddKeepsConsistent(db: Db, e: Enrollment)
    requires Consistent(db)
    ensures Consistent(EnrollmentAdd(db, e).db)
    ensures EnrollmentAdd(db, e).ok <==>
      e.studentId in db.students && e.courseId in db.courses && (e.studentId, e.courseId) !in db.enrollments
  {
    var sid, cid := e.studentId, e.courseId;
    if sid in db.students && cid in db.courses && (sid, cid) !in db.enrollments {
      var r := EnrollmentAdd(db, e).db;
      var before := EnrolledCourses(db.enrollments, sid);
      CreditSumNonNegative(db.courses, before);
      assert EnrolledCourses(r.enrollments, sid) - {cid} == before;
      CreditSumRemove(db.courses, EnrolledCourses(r.enrollments, sid), cid);
      forall other | other in r.students && other != sid
        ensures r.students[other].credits == CreditSum(r.courses, EnrolledCourses(r.enrollments, other))
      {
        assert EnrolledCourses(r.enrollments, other) == EnrolledCourses(db.enrollments, other);
      }
    }
  }

  /** Unenrolment of a pair that exists keeps the invariant and succeeds. */
  lemma UnenrolExistingKeepsConsistent(db: Db, sid: string, cid: string)
    requires Consistent(db) && (sid, cid) in db.enrollments
    ensures EnrollmentRemove(db, sid, cid).ok
    ensures Consistent(EnrollmentRemove(db, sid, cid).db)
  {
    var r := EnrollmentRemove(db, sid, cid).db;
    var before := EnrolledCourses(db.enrollments, sid);
    CreditSumRemove(db.courses, before, cid);
    assert EnrolledCourses(r.enrollments, sid) == before - {cid};
    CreditSumNonNegative(db.courses, before - {cid});
    forall other | other in r.students && other != sid
      ensures r.students[other].credits == CreditSum(r.courses, EnrolledCourses(r.enrollments, other))
    {
      assert EnrolledCourses(r.enrollments, other) == EnrolledCourses(db.enrollments, other);
    }
  }

  /** Removing a student, or resetting every enrollment, keeps the invariant. */
  lemma StudentRemoveKeepsConsistent(db: Db, sid: string)
    requires Consistent(db)
    ensures Consistent(StudentRemove(db, sid).db)
    ensures Consistent(EnrollmentRemoveAll(db).db)
    ensures Consistent(StudentRemoveAll(db).db)
  {
    var r := StudentRemove(db, sid).db;
    forall other | other in r.students
      ensures r.students[other].credits == CreditSum(r.courses, EnrolledCourses(r.enrollments, other))
    {
      assert EnrolledCourses(r.enrollments, other) == EnrolledCourses(db.enrollments, other);
    }
    var z := EnrollmentRemoveAll(db).db;
    forall other | other in z.students
      ensures z.students[other].credits == CreditSum(z.courses, EnrolledCourses(z.enrollments, other))
    {
      assert EnrolledCourses(z.enrollments, other) == {};
    }
  }

  /** The operations under which the invariant is claimed. */
  datatype Op = AddCourse(c: Course) | AddStudent(s: Student) | Enrol(e: Enrollment) | Unenrol(sid: string, cid: string)

  function Apply(db: Db, op: Op): Outcome {
    match op
    case AddCourse(c) => CourseAdd(db, c)
    case AddStudent(s) => StudentAdd(db, s)
    case Enrol(e) => EnrollmentAdd(db, e)
    case Unenrol(sid, cid) => EnrollmentRemove(db, sid, cid)
  }

  /** The restrictions: course credits are not negative and only pairs
      that exist at that point are unenrolled. */
  predicate Admissible(db: Db, op: Op) {
    match op
    case AddCourse(c) => c.credit >= 0.0
    case AddStudent(_) => true
    case Enrol(_) => true
    case Unenrol(sid, cid) => (sid, cid) in db.enrollments
  }

  /** Run a sequence of operations; `None` if one is not admissible. */
  function Run(db: Db, ops: seq<Op>): Option<Db>
    decreases |ops|
  {
    if ops == [] then Some(db)
    else if !Admissible(db, ops[0]) then None
    else Run(Apply(db, ops[0]).db, ops[1..])
  }

  /** Under the restrictions every run from a consistent store, failures
      included, ends consistent. */
  lemma {:induction false} RunKeepsConsistent(db: Db, ops: seq<Op>)
    requires Consistent(db)
    requires Run(db, ops).Some?
    ensures Consistent(Run(db, ops).value)
    decreases |ops|
  {
    if ops != [] {
      match ops[0] {
        case AddCourse(c) => CourseAddKeepsConsistent(db, c);
        case AddStudent(s) => StudentAddKeepsConsistent(db, s);
        case Enrol(e) => EnrollmentAddKeepsConsistent(db, e);
        case Unenrol(sid, cid) => UnenrolExistingKeepsConsistent(db, sid, cid);
      }
      RunKeepsConsistent(Apply(db, ops[0]).db, ops[1..]);
    }
  }

  // Outside the restrictions.

  /** Unenrolling a pair that does not exist still subtracts the course's
      credit, so a consistent store stops being consistent. */
  lemma UnenrolMissingPairBreaks(db: Db, sid: string, cid: string)
    requires Consistent(db)
    requires sid in db.students && cid in db.courses && (sid, cid) !in db.enrollments
    requires 0.0 < db.courses[cid].credit <= db.students[sid].credits
    ensures EnrollmentRemove(db, sid, cid).ok
    ensures !Consistent(EnrollmentRemove(db, sid, cid).db)
  {
    var r := EnrollmentRemove(db, sid, cid).db;
    assert r.enrollments == db.enrollments;
    assert r.students[sid].credits != CreditSum(r.courses, EnrolledCourses(r.enrollments, sid));
  }

  /** Changing the credit of a course someone is enrolled in leaves that
      student's total as it was. */
  lemma CourseUpdateBreaks(db: Db, c: Course, sid: string)
    requires Consistent(db)
    requires c.courseId in db.courses && (sid, c.courseId) in db.enrollments
    requires c.credit != db.courses[c.courseId].credit
    ensures !Consistent(CourseUpdate(db, c).db)
  {
    var r := CourseUpdate(db, c).db;
    var cids := EnrolledCourses(db.enrollments, sid);
    CreditSumRemove(db.courses, cids, c.courseId);
    CreditSumRemove(r.courses, cids, c.courseId);
    CreditSumFrame(db.courses, r.courses, cids - {c.courseId});
    assert r.students[sid].credits != CreditSum(r.courses, EnrolledCourses(r.enrollments, sid));
  }

  /** Removing a course with a positive credit that someone is enrolled in
      drops the enrollment but not the credit. */
  lemma CourseRemoveBreaks(db: Db, cid: string, sid: string)
    requires Consistent(db)
    requires (sid, cid) in db.enrollments && db.courses[cid].credit > 0.0
    ensures !Consistent(CourseRemove(db, cid).db)
  {
    var r := CourseRemove(db, cid).db;
    var cids := EnrolledCourses(db.enrollments, sid);
    CreditSumRemove(db.courses, cids, cid);
    assert EnrolledCourses(r.enrollments, sid) == cids - {cid};
    CreditSumFrame(db.courses, r.courses, cids - {cid});
    assert r.students[sid].credits != CreditSum(r.courses, EnrolledCourses(r.enrollments, sid));
  }

  /** Enrolling in a course whose credit is negative enough reports
      failure, yet the enrollment it inserted stays: the two statements are
      not one transaction. */
  lemma EnrolNotAtomic(db: Db, e: Enrollment)
    requires e.studentId in db.students && e.courseId in db.courses && (e.studentId, e.courseId) !in db.enrollments
    requires db.students[e.studentId].credits + db.courses[e.courseId].credit < 0.0
    ensures !EnrollmentAdd(db, e).ok
    ensures (e.studentId, e.courseId) in EnrollmentAdd(db, e).db.enrollments
    ensures EnrollmentAdd(db, e).db != db
  {
  }

  /** An unenrolment that fails on the credit check has already deleted
      the pair. */
  lemma UnenrolNotAtomic(db: Db, sid: string, cid: string)
    requires (sid, cid) in db.enrollments && sid in db.students
    requires db.students[sid].credits < CreditOf(db.courses, cid)
    ensures !EnrollmentRemove(db, sid, cid).ok
    ensures (sid, cid) !in EnrollmentRemove(db, sid, cid).db.enrollments
    ensures EnrollmentRemove(db, sid, cid).db != db
  {
  }
}
