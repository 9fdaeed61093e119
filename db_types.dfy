/** The records and option types of the store interface (src/db.h). */
module DbTypes {
  import opened Wrappers

  /** Tag of a statement parameter (src/db.h:6-11). */
  datatype DbValueType = DbNull | DbText | DbReal | DbInt

  /** A tagged union: the tag says which payload field is meaningful
      (src/db.h:13-20). A NULL `const char *` is `text == None`. */
  datatype DbValue = DbValue(kind: DbValueType, text: Option<string>, i: int, d: real)

  /** What the engine holds for a parameter once it is bound. */
  datatype SqlValue = SqlNull | SqlText(s: string) | SqlReal(r: real) | SqlInt(n: int)

  /** The binding switch (src/db.c:113-126, repeated at src/db.c:185-198).
      `sqlite3_bind_text` with a NULL pointer binds NULL. */
  function Bound(v: DbValue): (r: SqlValue)
    ensures r.SqlReal? <==> v.kind == DbReal
    ensures r.SqlInt? <==> v.kind == DbInt
    ensures r.SqlText? <==> v.kind == DbText && v.text.Some?
    ensures r.SqlNull? <==> v.kind == DbNull || (v.kind == DbText && v.text.None?)
  {
    match v.kind
    case DbNull => SqlNull
    case DbText => if v.text.Some? then SqlText(v.text.value) else SqlNull
    case DbReal => SqlReal(v.d)
    case DbInt => SqlInt(v.i)
  }

  function TextValue(s: Option<string>): DbValue {
    DbValue(DbText, s, 0, 0.0)
  }

  function IntValue(n: int): DbValue {
    DbValue(DbInt, None, n, 0.0)
  }

  /** Only the field the tag selects reaches the engine. */
  lemma BoundIgnoresOtherFields(v: DbValue, w: DbValue)
    requires v.kind == w.kind
    requires v.kind == DbText ==> v.text == w.text
    requires v.kind == DbReal ==> v.d == w.d
    requires v.kind == DbInt ==> v.i == w.i
    ensures Bound(v) == Bound(w)
  {
  }

  /** src/db.h:22-25 */
  datatype SortOrder = SortAsc | SortDesc

  /** src/db.h:27-33: `orderBy == None` means no sort, `limit <= 0` no limit. */
  datatype QueryOptions = QueryOptions(orderBy: Option<string>, order: SortOrder, limit: int, offset: int)

  /** src/db.h:43-52. `courseId` and `credit` are required; the other
      text fields may be NULL. */
  datatype Course = Course(
    courseId: string,
    name: Option<string>,
    courseType: Option<string>,
    totalHours: real,
    lectureHours: real,
    labHours: real,
    credit: real,
    semester: Option<string>)

  /** src/db.h:87-92. `credits` is documented as `>= 0`. */
  datatype Student = Student(studentId: string, name: Option<string>, email: Option<string>, credits: real)

  /** src/db.h:69-72: the course comes first, so a positional initialiser
      `{ a, b }` makes `a` the course id. */
  datatype Enrollment = Enrollment(courseId: string, studentId: string)
}
