/** How the store turns a base SELECT and a set of query options into the
    statement it prepares and the values it binds (src/db.c:5-30,
    src/db.c:140-213), and what that statement means once executed. */
module QueryBuilder {
  import opened Wrappers
  import opened DbTypes
  import opened Engine

  /** Columns a course list may be ordered by (src/db.c:7). */
  const CourseColumns: seq<string> :=
    ["course_id", "name", "type", "total_hours", "lecture_hours", "lab_hours", "credit", "semester"]

  /** Columns a student list may be ordered by (src/db.c:16). */
  const StudentColumns: seq<string> := ["student_id", "name", "email", "credits"]

  /** Columns an enrollment list may be ordered by (src/db.c:25). */
  const EnrollmentColumns: seq<string> := ["student_id", "course_id"]

  /** The allow-list `db_query` consults for an entity type; an unknown or
      missing entity type allows nothing (src/db.c:146-155). */
  function AllowList(entity: Option<string>): seq<string> {
    if entity == Some("course") then CourseColumns
    else if entity == Some("student") then StudentColumns
    else if entity == Some("enrollment") then EnrollmentColumns
    else []
  }

  /** One `valid_*_order` check: a linear search of the allow-list with
      `strcmp`; a NULL column is never valid (src/db.c:5-30). */
  method IsAllowed(allowed: seq<string>, col: Option<string>) returns (ok: bool)
    ensures ok <==> col.Some? && col.value in allowed
  {
    if col.None? {
      return false;
    }
    var i := 0;
    while i < |allowed|
      invariant 0 <= i <= |allowed|
      invariant col.value !in allowed[..i]
    {
      if col.value == allowed[i] {
        return true;
      }
      i := i + 1;
    }
    return false;
  }

  /** The allow-list dispatch on the entity type in `db_query`
      (src/db.c:146-155). */
  method ValidOrder(entity: Option<string>, col: Option<string>) returns (valid: bool)
    ensures valid <==> col.Some? && col.value in AllowList(entity)
  {
    valid := false;
    if entity.Some? {
      if entity.value == "course" {
        valid := IsAllowed(CourseColumns, col);
      } else if entity.value == "student" {
        valid := IsAllowed(StudentColumns, col);
      } else if entity.value == "enrollment" {
        valid := IsAllowed(EnrollmentColumns, col);
      }
    }
  }

  /** The pagination clause `db_query` may append. */
  datatype Page = NoPage | LimitOnly | LimitOffset | OffsetOnly

  /** Everything `db_query` appends to the base statement: an optional
      ORDER BY column and direction, then a pagination clause. */
  datatype Tail = Tail(order: Option<(string, SortOrder)>, page: Page)

  function Direction(order: SortOrder): string {
    if order == SortDesc then "DESC" else "ASC"
  }

  function OrderSql(col: string, order: SortOrder): string {
    " ORDER BY " + col + " " + Direction(order)
  }

  function PageSql(page: Page): string {
    match page
    case NoPage => ""
    case LimitOnly => " LIMIT ?"
    case LimitOffset => " LIMIT ?" + " OFFSET ?"
    case OffsetOnly => " LIMIT -1 OFFSET ?"
  }

  function OrderText(order: Option<(string, SortOrder)>): string {
    if order.Some? then OrderSql(order.value.0, order.value.1) else ""
  }

  /** The text appended to the base statement. */
  function TailSql(t: Tail): string {
    OrderText(t.order) + PageSql(t.page)
  }

  /** What `db_query` decides to append: the ORDER BY only for an allowed
      column, LIMIT for a positive limit, OFFSET for a positive offset
      (with `LIMIT -1` standing in when there is no limit). */
  function PlanTail(opt: Option<QueryOptions>, entity: Option<string>): Tail {
    Tail(PlanOrder(opt, entity), PlanPage(opt))
  }

  /** The ORDER BY column and direction, for an allowed column only. */
  function PlanOrder(opt: Option<QueryOptions>, entity: Option<string>): Option<(string, SortOrder)> {
    if opt.Some? && opt.value.orderBy.Some? && opt.value.orderBy.value in AllowList(entity)
    then Some((opt.value.orderBy.value, opt.value.order))
    else None
  }

  /** The pagination clause for a limit and an offset. */
  function PlanPage(opt: Option<QueryOptions>): Page {
    if opt.None? then NoPage
    else if opt.value.limit > 0 then (if opt.value.offset > 0 then LimitOffset else LimitOnly)
    else if opt.value.offset > 0 then OffsetOnly
    else NoPage
  }

  /** How many values a pagination clause consumes. */
  function PageArity(page: Page): nat {
    match page
    case NoPage => 0
    case LimitOnly => 1
    case LimitOffset => 2
    case OffsetOnly => 1
  }

  /** The pagination values, bound after the WHERE values. */
  function PageBinds(opt: Option<QueryOptions>): seq<DbValue> {
    if opt.None? then []
    else if opt.value.limit > 0 then
      [IntValue(opt.value.limit)] + (if opt.value.offset > 0 then [IntValue(opt.value.offset)] else [])
    else if opt.value.offset > 0 then [IntValue(opt.value.offset)]
    else []
  }

  /** The values the engine holds after binding, position `i + 1` at index `i`. */
  function BindAll(values: seq<DbValue>): (r: seq<SqlValue>)
    ensures |r| == |values|
    ensures forall i :: 0 <= i < |values| ==> r[i] == Bound(values[i])
  {
    if values == [] then [] else [Bound(values[0])] + BindAll(values[1..])
  }

  /** The statement buffer of `db_query` holds 1024 bytes. */
  const QueryBufferSize := 1024

  /** The callers' base statements live in 256-byte buffers. */
  const BaseBufferSize := 256

  /** The text half of `db_query`: copy `base` into the buffer, then
      append the ORDER BY clause for an allowed column and the pagination
      clause (src/db.c:141-172). */
  method AppendClauses(base: string, opt: Option<QueryOptions>, entity: Option<string>)
    returns (sql: string, tail: Tail)
    requires |base| < BaseBufferSize
    ensures tail == PlanTail(opt, entity)
    ensures sql == base + TailSql(tail)
    ensures |sql| < QueryBufferSize
  {
    sql := base;
    var order: Option<(string, SortOrder)> := None;
    if opt.Some? && opt.value.orderBy.Some? {
      var valid := ValidOrder(entity, opt.value.orderBy);
      if valid {
        sql := sql + OrderSql(opt.value.orderBy.value, opt.value.order);
        order := Some((opt.value.orderBy.value, opt.value.order));
      }
    }
    ghost var head := sql;
    assert head == base + OrderText(order);
    var page := NoPage;
    if opt.Some? && opt.value.limit > 0 {
      sql := sql + " LIMIT ?";
      page := LimitOnly;
      if opt.value.offset > 0 {
        sql := sql + " OFFSET ?";
        page := LimitOffset;
      }
    } else if opt.Some? && opt.value.offset > 0 {
      sql := sql + " LIMIT -1 OFFSET ?";
      page := OffsetOnly;
    }
    assert sql == head + PageSql(page);
    AppendAssoc(base, OrderText(order), PageSql(page));
    PlanTailLength(opt, entity);
    tail := Tail(order, page);
  }

  /** The binding half of `db_query`: the WHERE values at positions 1..k,
      then the limit and the offset at `param_idx`, which starts at k + 1
      (src/db.c:162, src/db.c:182-210). */
  method BindParams(opt: Option<QueryOptions>, values: seq<DbValue>) returns (binds: seq<DbValue>)
    ensures binds == values + PageBinds(opt)
  {
    binds := [];
    var i := 0;
    while i < |values|
      invariant 0 <= i <= |values|
      invariant binds == values[..i]
    {
      binds := binds + [values[i]];
      i := i + 1;
    }
    assert values[..i] == values;
    var paramIdx := |values| + 1;
    if opt.Some? && opt.value.limit > 0 {
      binds := binds + [IntValue(opt.value.limit)];
      paramIdx := paramIdx + 1;
      if opt.value.offset > 0 {
        binds := binds + [IntValue(opt.value.offset)];
        paramIdx := paramIdx + 1;
      }
    } else if opt.Some? && opt.value.offset > 0 {
      binds := binds + [IntValue(opt.value.offset)];
      paramIdx := paramIdx + 1;
    }
  }

  /** `db_query` (src/db.c:140-213). A statement the engine refuses to
      prepare is not modelled, so the call always succeeds. */
  method BuildQuery(base: string, opt: Option<QueryOptions>, values: seq<DbValue>, entity: Option<string>)
    returns (sql: string, tail: Tail, binds: seq<DbValue>)
    requires |base| < BaseBufferSize
    ensures tail == PlanTail(opt, entity)
    ensures sql == base + TailSql(tail)
    ensures binds == values + PageBinds(opt)
    ensures |sql| < QueryBufferSize
  {
    sql, tail := AppendClauses(base, opt, entity);
    binds := BindParams(opt, values);
  }

  lemma AppendAssoc(a: string, b: string, c: string)
    ensures (a + b) + c == a + (b + c)
  {
  }

  /** The appended text is at most 46 bytes long. */
  lemma PlanTailLength(opt: Option<QueryOptions>, entity: Option<string>)
    ensures |TailSql(PlanTail(opt, entity))| <= 46
  {
    var t := PlanTail(opt, entity);
    if t.order.Some? {
      AllowedColumnsShort(entity, t.order.value.0);
    }
  }

  /** No allowed column is longer than 13 characters or holds a `?`. */
  lemma AllowedColumnsShort(entity: Option<string>, col: string)
    requires col in AllowList(entity)
    ensures |col| <= 13
    ensures '?' !in col
  {
  }

  /** Only an allowed column reaches the statement, the direction is DESC
      exactly for `SortDesc`, and with neither an allowed column nor a
      positive limit or offset the base statement is left as it is. */
  lemma TailShape(opt: Option<QueryOptions>, entity: Option<string>)
    ensures var t := PlanTail(opt, entity);
      && (t.order.Some? <==> opt.Some? && opt.value.orderBy.Some? && opt.value.orderBy.value in AllowList(entity))
      && (t.order.Some? ==> t.order.value.0 == opt.value.orderBy.value
                            && (Direction(t.order.value.1) == "DESC" <==> opt.value.order == SortDesc))
      && (TailSql(t) == "" <==> t.order.None? && t.page == NoPage)
      && (t.page == NoPage <==> opt.None? || (opt.value.limit <= 0 && opt.value.offset <= 0))
  {
    var t := PlanTail(opt, entity);
    if t.order.Some? {
      assert |TailSql(t)| >= |" ORDER BY "|;
    } else if t.page != NoPage {
      assert |TailSql(t)| == |PageSql(t.page)| > 0;
    }
  }

  /** Number of `?` placeholders in a statement text. */
  function Placeholders(s: string): nat {
    multiset(s)['?']
  }

  /** The statement carries exactly one placeholder per value bound after
      the WHERE values, so the pagination values land on their `?`. */
  lemma PlaceholdersMatchBinds(base: string, opt: Option<QueryOptions>, values: seq<DbValue>, entity: Option<string>)
    requires Placeholders(base) == |values|
    ensures Placeholders(base + TailSql(PlanTail(opt, entity))) == |values + PageBinds(opt)|
  {
    var t := PlanTail(opt, entity);
    OrderTextPlaceholders(t.order, entity);
    PageSqlPlaceholders(t.page);
    assert PageArity(t.page) == |PageBinds(opt)|;
    PlaceholdersAppend(OrderText(t.order), PageSql(t.page));
    PlaceholdersAppend(base, TailSql(t));
  }

  /** An ORDER BY over an allowed column has no placeholder. */
  lemma OrderTextPlaceholders(order: Option<(string, SortOrder)>, entity: Option<string>)
    requires order.Some? ==> order.value.0 in AllowList(entity)
    ensures Placeholders(OrderText(order)) == 0
  {
    if order.Some? {
      var col := order.value.0;
      var dir := Direction(order.value.1);
      AllowedColumnsShort(entity, col);
      NoPlaceholder(col);
      OrderByPlaceholders();
      DirectionPlaceholders(order.value.1);
      PlaceholdersAppend(" ORDER BY ", col);
      PlaceholdersAppend(" ORDER BY " + col, " ");
      PlaceholdersAppend(" ORDER BY " + col + " ", dir);
    }
  }

  lemma NoPlaceholder(s: string)
    requires '?' !in s
    ensures Placeholders(s) == 0
  {
  }

  lemma PlaceholdersAppend(a: string, b: string)
    ensures Placeholders(a + b) == Placeholders(a) + Placeholders(b)
  {
    assert multiset(a + b) == multiset(a) + multiset(b);
  }

  lemma OrderByPlaceholders()
    ensures Placeholders(" ORDER BY ") == 0
    ensures Placeholders(" ") == 0
  {
  }

  lemma DirectionPlaceholders(order: SortOrder)
    ensures Placeholders(Direction(order)) == 0
  {
  }

  lemma LimitPlaceholder()
    ensures Placeholders(" LIMIT ?") == 1
  {
  }

  lemma OffsetPlaceholder()
    ensures Placeholders(" OFFSET ?") == 1
  {
  }

  lemma LimitAllOffsetPlaceholder()
    ensures Placeholders(" LIMIT -1 OFFSET ?") == 1
  {
    assert " LIMIT -1 OFFSET ?" == " LIMIT -1" + " OFFSET ?";
    NoPlaceholder(" LIMIT -1");
    OffsetPlaceholder();
    PlaceholdersAppend(" LIMIT -1", " OFFSET ?");
  }

  /** One placeholder per pagination value. */
  lemma PageSqlPlaceholders(page: Page)
    ensures Placeholders(PageSql(page)) == PageArity(page)
  {
    match page
    case NoPage =>
    case LimitOnly =>
      LimitPlaceholder();
    case LimitOffset =>
      LimitPlaceholder();
      OffsetPlaceholder();
      PlaceholdersAppend(" LIMIT ?", " OFFSET ?");
    case OffsetOnly =>
      LimitAllOffsetPlaceholder();
  }

  /** The engine reads the integer bound at 1-based position `pos`; a value
      of another type there is a datatype mismatch. */
  function IntParam(params: seq<SqlValue>, pos: nat): Option<int> {
    if 1 <= pos <= |params| && params[pos - 1].SqlInt? then Some(params[pos - 1].n) else None
  }

  /** ORDER BY `col`, ascending or descending. */
  function SortOn<T>(rows: seq<T>, col: string, desc: bool, column: (string, T) -> SortKey): (r: seq<T>)
    ensures multiset(r) == multiset(rows)
    ensures |r| == |rows|
  {
    SortBy(rows, (x: T) => column(col, x), desc)
  }

  /** The rows come out in ORDER BY order of the column. */
  lemma SortOnSorted<T>(rows: seq<T>, col: string, desc: bool, column: (string, T) -> SortKey)
    ensures var r := SortOn(rows, col, desc, column);
      forall i, j :: 0 <= i < j < |r| ==> Before(column(col, r[i]), column(col, r[j]), desc)
  {
    SortBySorted(rows, (x: T) => column(col, x), desc);
  }

  /** What the engine returns for the rows `rows` that satisfied the WHERE
      clause, given the appended clauses and the bound parameters, `k` of
      which belong to the WHERE clause. The `?` after LIMIT is parameter
      k + 1 and the one after OFFSET the next. None means the statement
      cannot run. */
  function Execute<T>(rows: seq<T>, tail: Tail, params: seq<SqlValue>, k: nat, column: (string, T) -> SortKey): Option<seq<T>> {
    ApplyPage(OrderRows(rows, tail.order, column), tail.page, params, k)
  }

  /** The rows in ORDER BY order, or as they are without an ORDER BY. */
  function OrderRows<T>(rows: seq<T>, order: Option<(string, SortOrder)>, column: (string, T) -> SortKey): seq<T> {
    if order.Some? then SortOn(rows, order.value.0, order.value.1 == SortDesc, column) else rows
  }

  /** LIMIT and OFFSET with the values bound after the `k` WHERE values. */
  function ApplyPage<T>(sorted: seq<T>, page: Page, params: seq<SqlValue>, k: nat): Option<seq<T>> {
    match page
    case NoPage => Some(sorted)
    case LimitOnly =>
      var limit := IntParam(params, k + 1);
      if limit.None? then None else Some(SqlWindow(sorted, limit.value, 0))
    case LimitOffset =>
      var limit := IntParam(params, k + 1);
      var offset := IntParam(params, k + 2);
      if limit.None? || offset.None? then None else Some(SqlWindow(sorted, limit.value, offset.value))
    case OffsetOnly =>
      var offset := IntParam(params, k + 1);
      if offset.None? then None else Some(SqlWindow(sorted, -1, offset.value))
  }

  /** The rows after the first `offset`; nothing is skipped unless
      `offset` is positive. */
  function DropRows<T>(rows: seq<T>, offset: int): (r: seq<T>)
    ensures |r| <= |rows|
    ensures multiset(r) <= multiset(rows)
  {
    if offset <= 0 then rows
    else if offset < |rows| then
      assert rows == rows[..offset] + rows[offset..];
      rows[offset..]
    else []
  }

  /** The first `limit` rows; every row is kept unless `limit` is positive. */
  function TakeRows<T>(rows: seq<T>, limit: int): (r: seq<T>)
    ensures |r| <= |rows|
    ensures multiset(r) <= multiset(rows)
    ensures limit > 0 ==> |r| <= limit
  {
    if 0 < limit < |rows| then
      assert rows == rows[..limit] + rows[limit..];
      rows[..limit]
    else rows
  }

  /** What a list promises: the matching rows, sorted when the column is
      allowed, without the first `offset` rows when it is positive, and at
      most `limit` of them when it is positive. */
  function ListSpec<T>(rows: seq<T>, opt: Option<QueryOptions>, allowed: seq<string>, column: (string, T) -> SortKey): (r: seq<T>)
    ensures |r| <= |rows|
    ensures multiset(r) <= multiset(rows)
    ensures opt.Some? && opt.value.limit > 0 ==> |r| <= opt.value.limit
  {
    if opt.None? then rows
    else
      var o := opt.value;
      var sorted := if o.orderBy.Some? && o.orderBy.value in allowed then SortOn(rows, o.orderBy.value, o.order == SortDesc, column) else rows;
      TakeRows(DropRows(sorted, o.offset), o.limit)
  }

  /** LIMIT and OFFSET as the engine applies them agree with dropping and
      taking rows, with `LIMIT -1` for "no limit". */
  lemma WindowIsDropTake<T>(rows: seq<T>, limit: int, offset: int)
    ensures SqlWindow(rows, if limit > 0 then limit else -1, offset) == TakeRows(DropRows(rows, offset), limit)
  {
  }

  /** The engine finds the integers `db_query` bound right after the WHERE
      values. */
  lemma PageParams(opt: Option<QueryOptions>, values: seq<DbValue>)
    requires opt.Some?
    ensures var params := BindAll(values + PageBinds(opt));
      && (opt.value.limit > 0 ==> IntParam(params, |values| + 1) == Some(opt.value.limit))
      && (opt.value.limit > 0 && opt.value.offset > 0 ==> IntParam(params, |values| + 2) == Some(opt.value.offset))
      && (opt.value.limit <= 0 && opt.value.offset > 0 ==> IntParam(params, |values| + 1) == Some(opt.value.offset))
  {
    var params := BindAll(values + PageBinds(opt));
    var k := |values|;
    if opt.value.limit > 0 {
      assert params[k] == Bound(IntValue(opt.value.limit));
      if opt.value.offset > 0 {
        assert params[k + 1] == Bound(IntValue(opt.value.offset));
      }
    } else if opt.value.offset > 0 {
      assert params[k] == Bound(IntValue(opt.value.offset));
    }
  }

  /** The statement `db_query` builds, with the values it binds, returns
      exactly the rows the list promises. */
  lemma QueryMeaning<T>(rows: seq<T>, opt: Option<QueryOptions>, values: seq<DbValue>, entity: Option<string>, column: (string, T) -> SortKey)
    ensures Execute(rows, PlanTail(opt, entity), BindAll(values + PageBinds(opt)), |values|, column)
            == Some(ListSpec(rows, opt, AllowList(entity), column))
  {
    if opt.Some? {
      var o := opt.value;
      var sorted := OrderRows(rows, PlanOrder(opt, entity), column);
      assert ListSpec(rows, opt, AllowList(entity), column) == TakeRows(DropRows(sorted, o.offset), o.limit);
      PageMeaning(sorted, opt, values);
    }
  }

  /** The pagination clause and its bound values keep the rows the list
      promises after the first `offset`, at most `limit` of them. */
  lemma PageMeaning<T>(sorted: seq<T>, opt: Option<QueryOptions>, values: seq<DbValue>)
    requires opt.Some?
    ensures ApplyPage(sorted, PlanPage(opt), BindAll(values + PageBinds(opt)), |values|)
            == Some(TakeRows(DropRows(sorted, opt.value.offset), opt.value.limit))
  {
    var o := opt.value;
    var params := BindAll(values + PageBinds(opt));
    var k := |values|;
    PageParams(opt, values);
    WindowIsDropTake(sorted, o.limit, o.offset);
    match PlanPage(opt)
    case NoPage =>
      assert DropRows(sorted, o.offset) == sorted;
    case LimitOnly =>
      WindowIsDropTake(sorted, o.limit, 0);
      assert ApplyPage(sorted, LimitOnly, params, k) == Some(SqlWindow(sorted, o.limit, 0));
    case LimitOffset =>
      assert ApplyPage(sorted, LimitOffset, params, k) == Some(SqlWindow(sorted, o.limit, o.offset));
    case OffsetOnly =>
      assert ApplyPage(sorted, OffsetOnly, params, k) == Some(SqlWindow(sorted, -1, o.offset));
  }
}
