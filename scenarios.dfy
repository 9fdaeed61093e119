/** The run of test/test_db.c against the store model: what each of its
    checks observes. */
module Scenarios {
  import opened Wrappers
  import opened DbTypes
  import opened Engine
  import opened QueryBuilder
  import opened Store

  const Alpha := Course("cA", Some("Alpha"), Some("Core"), 1.0, 0.0, 0.0, 1.0, Some("Fall"))
  const Beta := Course("cB", Some("Beta"), Some("Core"), 1.0, 0.0, 0.0, 1.0, Some("Fall"))
  const Gamma := Course("cC", Some("Gamma"), Some("Core"), 1.0, 0.0, 0.0, 1.0, Some("Fall"))
  const Intro := Course("c1", Some("Intro"), Some("Core"), 10.0, 5.0, 5.0, 3.0, Some("Fall"))

  /** A list of distinct rows, reordered, is still distinct. */
  lemma {:induction false} CountInDistinct<T>(t: seq<T>, x: T)
    requires Distinct(t)
    ensures multiset(t)[x] <= 1
    decreases |t|
  {
    if t != [] {
      assert t == [t[0]] + t[1..];
      assert Distinct(t[1..]);
      CountInDistinct(t[1..], x);
      if t[0] == x {
        assert x !in t[1..];
      }
    }
  }

  /** A row at two positions occurs at least twice. */
  lemma CountOfRepeat<T>(s: seq<T>, i: nat, j: nat)
    requires i < j < |s|
    ensures s[i] == s[j] ==> multiset(s)[s[i]] >= 2
  {
    if s[i] == s[j] {
      assert s == s[..j] + s[j..];
      assert s[i] in s[..j] && s[j] in s[j..];
    }
  }

  lemma DistinctPermutation<T>(s: seq<T>, t: seq<T>)
    requires multiset(s) == multiset(t) && Distinct(t)
    ensures Distinct(s)
  {
    forall i, j | 0 <= i < j < |s| ensures s[i] != s[j] {
      CountOfRepeat(s, i, j);
      CountInDistinct(t, s[i]);
    }
  }

  /** A scan of a one-row table starts with that row. */
  lemma ScanOfOne<T(!new)>(scan: seq<T>, x: T)
    requires Enumerates(scan, {x})
    ensures |scan| > 0 && scan[0] == x
  {
    assert x in scan;
    assert scan[0] in scan;
  }

  /** Alpha < Beta < Gamma < Intro byte-wise. */
  lemma ExpectedOrder()
    ensures StrictlySortedBy([Alpha, Beta, Gamma, Intro], (c: Course) => CourseColumn("name", c), false)
  {
    assert TextLe("Alpha", "Beta") && TextLe("Beta", "Gamma") && TextLe("Gamma", "Intro");
    assert TextLe("Alpha", "Gamma") && TextLe("Alpha", "Intro") && TextLe("Beta", "Intro");
  }

  /** A list ordered by an allowed column sorts before it pages. */
  lemma ListSpecOrdered<T>(rows: seq<T>, o: QueryOptions, allowed: seq<string>, column: (string, T) -> SortKey)
    requires o.orderBy.Some? && o.orderBy.value in allowed
    ensures ListSpec(rows, Some(o), allowed, column)
            == TakeRows(DropRows(SortOn(rows, o.orderBy.value, o.order == SortDesc, column), o.offset), o.limit)
  {
  }

  /** Offset 1, limit 1 picks the second row. */
  lemma SecondOfFour<T>(s: seq<T>)
    requires |s| == 4
    ensures TakeRows(DropRows(s, 1), 1) == [s[1]]
  {
    assert DropRows(s, 1) == s[1..];
  }

  lemma NamesDistinct(a: Course, b: Course)
    requires a in {Intro, Alpha, Beta, Gamma} && b in {Intro, Alpha, Beta, Gamma} && a != b
    ensures CourseColumn("name", a) != CourseColumn("name", b)
  {
  }

  /** Courses ordered by name, ascending, limit 1, offset 1, over
      Alpha, Beta, Gamma and Intro: whatever order the scan returned them
      in, the page is Beta (test/test_db.c:71-81). */
  lemma NamePageIsBeta(scan: seq<Course>)
    requires Enumerates(scan, {Intro, Alpha, Beta, Gamma})
    ensures ListSpec(scan, Some(QueryOptions(Some("name"), SortAsc, 1, 1)), CourseColumns, CourseColumn) == [Beta]
  {
    SortedByName(scan);
    assert "name" in CourseColumns;
    var opt := QueryOptions(Some("name"), SortAsc, 1, 1);
    ListSpecOrdered(scan, opt, CourseColumns, CourseColumn);
    SecondOfFour([Alpha, Beta, Gamma, Intro]);
  }

  /** Whatever order the scan returned them in, the four courses sorted by
      name are Alpha, Beta, Gamma, Intro. */
  lemma SortedByName(scan: seq<Course>)
    requires Enumerates(scan, {Intro, Alpha, Beta, Gamma})
    ensures SortOn(scan, "name", false, CourseColumn) == [Alpha, Beta, Gamma, Intro]
  {
    var key := (c: Course) => CourseColumn("name", c);
    var sorted := SortOn(scan, "name", false, CourseColumn);
    var expected := [Alpha, Beta, Gamma, Intro];
    SortOnSorted(scan, "name", false, CourseColumn);
    DistinctPermutation(sorted, scan);
    forall x ensures x in sorted <==> x in expected {
      assert x in sorted <==> x in multiset(sorted);
      assert x in scan <==> x in multiset(scan);
      assert x in scan <==> x in {Intro, Alpha, Beta, Gamma};
    }
    forall i, j | 0 <= i < j < |sorted| ensures key(sorted[i]) != key(sorted[j]) {
      assert sorted[i] in sorted && sorted[j] in sorted;
      NamesDistinct(sorted[i], sorted[j]);
    }
    ExpectedOrder();
    StrictlySortedUnique(sorted, expected, key, false);
  }

  const Alice := Student("s1", Some("Alice"), Some("alice@example.com"), 0.0)
  const Neg := Student("sneg", Some("Neg"), None, 0.0)

  /** The store after the student checks (test/test_db.c:53-61). */
  const AfterStudents := Db(map[], map["s1" := Alice, "sneg" := Neg], {})

  /** The store after the course adds (test/test_db.c:64-76). */
  const AfterCourses := Db(map["c1" := Intro, "cA" := Alpha, "cB" := Beta, "cC" := Gamma], AfterStudents.students, {})

  /** Cleanup on the empty store the test starts from (test/test_db.c:48-50)
      changes nothing. */
  method Cleanup(db: Store)
    modifies db
    requires db.State() == EmptyDb
    ensures db.State() == EmptyDb
  {
    var ok := db.EnrollmentRemoveOp("s1", "c1");
    ok := db.StudentRemoveOp("s1");
    ok := db.CourseRemoveOp("c1");
  }

  /** test/test_db.c:53-61: the student added with 2.5 credits is found
      with 0 credits, and the student with -1.0 credits is accepted. */
  method StudentChecks(db: Store) returns (storedCredits: real, negativeAccepted: bool)
    modifies db
    requires db.State() == EmptyDb
    ensures storedCredits == 0.0 && negativeAccepted
    ensures db.State() == AfterStudents
  {
    var like := (v: string, p: string) => v == p;
    var ok := db.StudentAddOp(Student("s1", Some("Alice"), Some("alice@example.com"), 2.5));
    assert db.students == map["s1" := Alice];
    var found, students := db.StudentQuery(StudentIdIs("s1"), None, like);
    assert db.students.Values == {Alice};
    assert (set s | s in db.students.Values && StudentMatches(s, StudentIdIs("s1"), like)) == {Alice};
    ghost var scan :| Enumerates(scan, {Alice}) && students == ListSpec(scan, None, StudentColumns, StudentColumn);
    ScanOfOne(scan, Alice);
    storedCredits := students[0].credits;
    negativeAccepted := db.StudentAddOp(Student("sneg", Some("Neg"), None, -1.0));
  }

  /** test/test_db.c:64-76: the four course adds. */
  method CourseAdds(db: Store)
    modifies db
    requires db.State() == AfterStudents
    ensures db.State() == AfterCourses
  {
    var ok := db.CourseAddOp(Intro);
    ok := db.CourseAddOp(Alpha);
    ok := db.CourseAddOp(Beta);
    ok := db.CourseAddOp(Gamma);
  }

  /** test/test_db.c:78-81: the name-ordered page of one row at offset
      one holds Beta. */
  method CourseChecks(db: Store) returns (pageNames: seq<Option<string>>)
    modifies db
    requires db.State() == AfterStudents
    ensures pageNames == [Some("Beta")]
    ensures db.State() == AfterCourses
  {
    var like := (v: string, p: string) => v == p;
    CourseAdds(db);
    var opt := Some(QueryOptions(Some("name"), SortAsc, 1, 1));
    var listed, page := db.CourseQuery(AllCourses, opt, like);
    AllCoursesTable(db.courses, like);
    ghost var scan :| Enumerates(scan, {Intro, Alpha, Beta, Gamma}) && page == ListSpec(scan, opt, CourseColumns, CourseColumn);
    NamePageIsBeta(scan);
    pageNames := [page[0].name];
  }

  lemma AllCoursesTable(courses: map<string, Course>, like: (string, string) -> bool)
    requires courses == AfterCourses.courses
    ensures (set c | c in courses.Values && CourseMatches(c, AllCourses, like)) == {Intro, Alpha, Beta, Gamma}
  {
    CourseValues();
  }

  lemma CourseValues()
    ensures AfterCourses.courses.Values == {Intro, Alpha, Beta, Gamma}
  {
    var m := AfterCourses.courses;
    assert m["c1"] == Intro && m["cA"] == Alpha && m["cB"] == Beta && m["cC"] == Gamma;
  }

  /** test/test_db.c:84-88: the enrollment written positionally as course
      first, student second is accepted and found by its student. */
  method EnrollmentChecks(db: Store) returns (enrolled: bool)
    modifies db
    requires db.State() == AfterCourses
    ensures enrolled
  {
    var ok := db.EnrollmentAddOp(Enrollment("c1", "s1"));
    assert ("s1", "c1") in db.enrollments;
    var ofStudent, rows := db.EnrollmentQuery(OfStudent("s1"), None);
    ghost var mine := set e | e in EnrollmentRows(db.enrollments) && EnrollmentMatches(e, OfStudent("s1"));
    assert Enrollment("c1", "s1") in mine;
    ghost var scan :| Enumerates(scan, mine) && rows == ListSpec(scan, None, EnrollmentColumns, EnrollmentColumn);
    enrolled := Enrollment("c1", "s1") in rows;
  }

  /** test/test_db.c run against the store model: the student added with
      2.5 credits is stored with 0 (the test's visitor expects 2.5), the
      student with -1.0 credits is accepted (the test expects a refusal),
      the ordered page is Beta, and the enrollment is found. */
  method TestDbRun() returns (storedCredits: real, negativeAccepted: bool, pageNames: seq<Option<string>>, enrolled: bool)
    ensures storedCredits == 0.0
    ensures negativeAccepted
    ensures pageNames == [Some("Beta")]
    ensures enrolled
  {
    var db := new Store();
    Cleanup(db);
    storedCredits, negativeAccepted := StudentChecks(db);
    pageNames := CourseChecks(db);
    enrolled := EnrollmentChecks(db);
  }
}
