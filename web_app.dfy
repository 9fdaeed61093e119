/** The data handling of the browser front end in web/app.js: the CSV
    reader used for imports, the client-side pages of the three tables and
    their page counters, the filters, and the import loop. Strings are
    JavaScript strings, taken as sequences of characters rather than
    of UTF-16 code units. */
module WebApp {
  import opened Wrappers
  import opened Text
  import opened DbTypes
  import Store
  import Handlers

  /** `String.prototype.trim`. */
  function JsTrim(s: string): (r: string)
    ensures |r| <= |s|
    ensures r != [] ==> !IsJsSpace(r[0]) && !IsJsSpace(r[|r| - 1])
  {
    Trim(s, IsJsSpace)
  }

  // Splitting the text into lines: `text.split(/\r?\n/)`, then dropping
  // the lines that are blank after trimming.

  function IndexOf(s: string, c: char): (i: nat)
    requires c in s
    ensures i < |s| && s[i] == c && c !in s[..i]
  {
    if s[0] == c then 0 else 1 + IndexOf(s[1..], c)
  }

  function JoinNewlines(ls: seq<string>): string {
    if ls == [] then ""
    else if |ls| == 1 then ls[0]
    else ls[0] + "\n" + JoinNewlines(ls[1..])
  }

  /** The pieces of `text` between its newlines; joined back with newlines
      they give the text. */
  function SplitNewlines(text: string): (r: seq<string>)
    ensures |r| >= 1
    ensures forall k :: 0 <= k < |r| ==> '\n' !in r[k]
    ensures JoinNewlines(r) == text
    decreases |text|
  {
    if '\n' !in text then [text]
    else
      var i := IndexOf(text, '\n');
      var rest := SplitNewlines(text[i + 1..]);
      assert ([text[..i]] + rest)[1..] == rest;
      assert text == text[..i] + "\n" + text[i + 1..];
      [text[..i]] + rest
  }

  /** A piece followed by "\r\n" loses its carriage return. */
  function DropCr(l: string): string {
    if l != [] && l[|l| - 1] == '\r' then l[..|l| - 1] else l
  }

  function LinePieces(text: string): (r: seq<string>)
    ensures |r| >= 1
    ensures forall k :: 0 <= k < |r| ==> '\n' !in r[k]
  {
    var p := SplitNewlines(text);
    seq(|p|, k requires 0 <= k < |p| => if k < |p| - 1 then DropCr(p[k]) else p[k])
  }

  predicate NonBlank(l: string) {
    JsTrim(l) != ""
  }

  /** The lines `parseCSV` parses. */
  function CsvLines(text: string): seq<string> {
    Keep(LinePieces(text), NonBlank)
  }

  /** Every line parsed is a single line, and not blank. */
  lemma CsvLinesNonBlank(text: string)
    ensures forall l :: l in CsvLines(text) ==> '\n' !in l && NonBlank(l)
  {
  }

  // One line: '"' toggles quoting and is dropped, a comma outside quotes
  // ends a cell, '\r' is dropped, each cell is trimmed. The state holds
  // the cells before trimming.

  datatype CsvState = CsvState(cells: seq<string>, cell: string, inQuotes: bool)

  const Start := CsvState([], "", false)

  function Step(st: CsvState, c: char): CsvState {
    if c == '"' then st.(inQuotes := !st.inQuotes)
    else if c == ',' && !st.inQuotes then CsvState(st.cells + [st.cell], "", st.inQuotes)
    else if c != '\r' then st.(cell := st.cell + [c])
    else st
  }

  function RunFrom(st: CsvState, s: string): CsvState
    decreases |s|
  {
    if s == [] then st else RunFrom(Step(st, s[0]), s[1..])
  }

  function TrimAll(cells: seq<string>): (r: seq<string>)
    ensures |r| == |cells|
  {
    if cells == [] then [] else [JsTrim(cells[0])] + TrimAll(cells[1..])
  }

  lemma {:induction false} TrimAllAt(cells: seq<string>, k: nat)
    requires k < |cells|
    ensures TrimAll(cells)[k] == JsTrim(cells[k])
    decreases |cells|
  {
    if k > 0 {
      TrimAllAt(cells[1..], k - 1);
    }
  }

  lemma {:induction false} TrimAllAppend(a: seq<string>, b: seq<string>)
    ensures TrimAll(a + b) == TrimAll(a) + TrimAll(b)
    decreases |a|
  {
    if a == [] {
      assert a + b == b;
    } else {
      assert (a + b)[1..] == a[1..] + b;
      TrimAllAppend(a[1..], b);
    }
  }

  /** The cells `parseCSV` makes of one line. */
  function LineCells(line: string): seq<string> {
    var st := RunFrom(Start, line);
    TrimAll(st.cells + [st.cell])
  }

  /** The loop of `parseCSV` over one line (web/app.js:860-877). */
  method ParseLine(line: string) returns (cells: seq<string>)
    ensures cells == LineCells(line)
  {
    cells := [];
    ghost var raw: seq<string> := [];
    var cell := "";
    var inQuotes := false;
    var i := 0;
    while i < |line|
      invariant 0 <= i <= |line|
      invariant cells == TrimAll(raw)
      invariant RunFrom(CsvState(raw, cell, inQuotes), line[i..]) == RunFrom(Start, line)
    {
      assert line[i..] == [line[i]] + line[i + 1..];
      var c := line[i];
      RunCons(CsvState(raw, cell, inQuotes), c, line[i + 1..]);
      ghost var next := Step(CsvState(raw, cell, inQuotes), c);
      if c == '"' {
        inQuotes := !inQuotes;
      } else if c == ',' && !inQuotes {
        TrimAllAppend(raw, [cell]);
        cells := cells + [JsTrim(cell)];
        raw := raw + [cell];
        cell := "";
      } else if c != '\r' {
        cell := cell + [c];
      }
      assert CsvState(raw, cell, inQuotes) == next;
      i := i + 1;
    }
    TrimAllAppend(raw, [cell]);
    cells := cells + [JsTrim(cell)];
  }

  /** The cells of each line, in order. */
  function CellsOfLines(lines: seq<string>): (rows: seq<seq<string>>)
    ensures |rows| == |lines|
    ensures forall k :: 0 <= k < |rows| ==> |rows[k]| >= 1
  {
    if lines == [] then []
    else CellsOfLines(lines[..|lines| - 1]) + [LineCells(lines[|lines| - 1])]
  }

  /** `parseCSV`: the rows of cells of the non-blank lines. */
  function ParseCsv(text: string): seq<seq<string>> {
    CellsOfLines(CsvLines(text))
  }

  /** The commas of `s` that are outside quotes, when `s` is read
      starting inside quotes or not. */
  function CommasOutside(s: string, inQuotes: bool): nat
    decreases |s|
  {
    if s == [] then 0
    else if s[0] == '"' then CommasOutside(s[1..], !inQuotes)
    else (if s[0] == ',' && !inQuotes then 1 else 0) + CommasOutside(s[1..], inQuotes)
  }

  lemma {:induction false} CellsFrom(st: CsvState, s: string)
    ensures |RunFrom(st, s).cells| == |st.cells| + CommasOutside(s, st.inQuotes)
    decreases |s|
  {
    if s != [] {
      CellsFrom(Step(st, s[0]), s[1..]);
    }
  }

  /** A line has one cell more than it has commas outside quotes. */
  lemma CellCount(line: string)
    ensures |LineCells(line)| == CommasOutside(line, false) + 1
  {
    CellsFrom(Start, line);
  }

  /** Text with no quote and no carriage return. */
  predicate Clean(s: string) {
    '"' !in s && '\r' !in s
  }

  predicate CleanState(st: CsvState) {
    Clean(st.cell) && forall c :: c in st.cells ==> Clean(c)
  }

  lemma CleanTrim(s: string)
    requires Clean(s)
    ensures Clean(JsTrim(s))
  {
    TrimChars(s, IsJsSpace);
  }

  lemma {:induction false} CleanFrom(st: CsvState, s: string)
    requires CleanState(st)
    ensures CleanState(RunFrom(st, s))
    decreases |s|
  {
    if s != [] {
      CleanFrom(Step(st, s[0]), s[1..]);
    }
  }

  /** No cell holds a quote or a carriage return. */
  lemma CellsClean(line: string)
    ensures forall c :: c in LineCells(line) ==> Clean(c)
  {
    var st := RunFrom(Start, line);
    CleanFrom(Start, line);
    var raw := st.cells + [st.cell];
    forall k | 0 <= k < |raw| ensures Clean(TrimAll(raw)[k]) {
      assert raw[k] in raw;
      TrimAllAt(raw, k);
      CleanTrim(raw[k]);
    }
  }

  lemma {:induction false} RunFromAppend(st: CsvState, a: string, b: string)
    ensures RunFrom(st, a + b) == RunFrom(RunFrom(st, a), b)
    decreases |a|
  {
    if a == [] {
      assert a + b == b;
    } else {
      assert (a + b)[0] == a[0];
      assert (a + b)[1..] == a[1..] + b;
      RunFromAppend(Step(st, a[0]), a[1..], b);
    }
  }

  /** Inside quotes, clean text goes into the cell as it is. */
  lemma {:induction false} RunQuoted(st: CsvState, s: string)
    requires st.inQuotes && Clean(s)
    ensures RunFrom(st, s) == st.(cell := st.cell + s)
    decreases |s|
  {
    if s != [] {
      assert st.cell + [s[0]] + s[1..] == st.cell + s;
      RunQuoted(Step(st, s[0]), s[1..]);
    }
  }

  function Quote(c: string): string {
    "\"" + c + "\""
  }

  /** Cells written as a line with every cell in quotes. */
  function QuotedLine(cells: seq<string>): string
    requires |cells| >= 1
  {
    if |cells| == 1 then Quote(cells[0]) else Quote(cells[0]) + "," + QuotedLine(cells[1..])
  }

  lemma QuotedCell(pre: seq<string>, c: string)
    requires Clean(c)
    ensures RunFrom(CsvState(pre, "", false), Quote(c)) == CsvState(pre, c, false)
  {
    var st := CsvState(pre, "", false);
    RunFromAppend(st, "\"" + c, "\"");
    RunFromAppend(st, "\"", c);
    RunQuoted(CsvState(pre, "", true), c);
  }

  lemma {:induction false} QuotedLineFrom(pre: seq<string>, cells: seq<string>)
    requires |cells| >= 1 && forall c :: c in cells ==> Clean(c)
    ensures RunFrom(CsvState(pre, "", false), QuotedLine(cells))
            == CsvState(pre + cells[..|cells| - 1], cells[|cells| - 1], false)
    decreases |cells|
  {
    var st := CsvState(pre, "", false);
    QuotedCell(pre, cells[0]);
    if |cells| > 1 {
      var rest := cells[1..];
      assert QuotedLine(cells) == Quote(cells[0]) + ("," + QuotedLine(rest));
      RunFromAppend(st, Quote(cells[0]), "," + QuotedLine(rest));
      RunFromAppend(CsvState(pre, cells[0], false), ",", QuotedLine(rest));
      QuotedLineFrom(pre + [cells[0]], rest);
      assert cells[..|cells| - 1] == [cells[0]] + rest[..|rest| - 1];
    }
  }

  lemma LastSplit<T>(s: seq<T>)
    requires |s| >= 1
    ensures s[..|s| - 1] + [s[|s| - 1]] == s
  {
  }

  lemma LineCellsOfRun(line: string, raw: seq<string>, last: string, q: bool)
    requires RunFrom(Start, line) == CsvState(raw, last, q)
    ensures LineCells(line) == TrimAll(raw + [last])
  {
  }

  /** Round trip: cells free of quotes and carriage returns, each written
      in quotes and separated by commas, read back as the trimmed cells,
      commas inside them included. */
  lemma QuotedLineRoundTrip(cells: seq<string>)
    requires |cells| >= 1 && forall c :: c in cells ==> Clean(c)
    ensures LineCells(QuotedLine(cells)) == TrimAll(cells)
  {
    QuotedLineFrom([], cells);
    var n := |cells| - 1;
    assert [] + cells[..n] == cells[..n];
    LastSplit(cells);
    LineCellsOfRun(QuotedLine(cells), cells[..n], cells[n], false);
  }

  /** The doubled quote of section 2 of RFC 4180 is not an escape here:
      `"a""b"` reads as `ab`. */
  lemma DoubledQuoteIsNotEscape()
    ensures LineCells("\"a\"\"b\"") == ["ab"]
  {
    DoubledQuoteRun();
    LineCellsOfRun("\"a\"\"b\"", [], "ab", false);
    TrimOfTrimmed("ab", IsJsSpace);
  }

  lemma DoubledQuoteRun()
    ensures RunFrom(Start, "\"a\"\"b\"") == CsvState([], "ab", false)
  {
    var q := CsvState([], "", true);
    assert "\"a\"\"b\"" == ['"'] + "a\"\"b\"";
    RunCons(Start, '"', "a\"\"b\"");
    assert "a\"\"b\"" == ['a'] + "\"\"b\"";
    RunCons(q, 'a', "\"\"b\"");
    assert "\"\"b\"" == ['"'] + "\"b\"";
    RunCons(q.(cell := "a"), '"', "\"b\"");
    assert "\"b\"" == ['"'] + "b\"";
    RunCons(Start.(cell := "a"), '"', "b\"");
    assert "b\"" == ['b'] + "\"";
    assert q.(cell := "a" + ['b']) == q.(cell := "ab");
    RunCons(q.(cell := "a"), 'b', "\"");
    assert "\"" == ['"'] + "";
    RunCons(q.(cell := "ab"), '"', "");
  }

  lemma RunCons(st: CsvState, c: char, rest: string)
    ensures RunFrom(st, [c] + rest) == RunFrom(Step(st, c), rest)
  {
    assert ([c] + rest)[1..] == rest;
  }

  // The line level.

  /** Lines ending in a carriage return when `crlf` holds, as a file
      written with "\r\n" line ends is. */
  function WithCr(ls: seq<string>, crlf: bool): (r: seq<string>)
    ensures |r| == |ls|
  {
    if !crlf || |ls| <= 1 then ls
    else seq(|ls|, k requires 0 <= k < |ls| => if k < |ls| - 1 then ls[k] + "\r" else ls[k])
  }

  lemma {:induction false} SplitJoin(ls: seq<string>)
    requires |ls| >= 1 && forall l :: l in ls ==> '\n' !in l
    ensures SplitNewlines(JoinNewlines(ls)) == ls
    decreases |ls|
  {
    if |ls| > 1 {
      var text := JoinNewlines(ls);
      assert text == ls[0] + "\n" + JoinNewlines(ls[1..]);
      assert text[|ls[0]|] == '\n';
      assert text[..|ls[0]|] == ls[0];
      assert IndexOf(text, '\n') == |ls[0]| by {
        IndexOfFirst(text, '\n', |ls[0]|);
      }
      assert text[|ls[0]| + 1..] == JoinNewlines(ls[1..]);
      SplitJoin(ls[1..]);
    }
  }

  lemma IndexOfFirst(s: string, c: char, i: nat)
    requires i < |s| && s[i] == c && c !in s[..i]
    ensures IndexOf(s, c) == i
  {
    var j := IndexOf(s, c);
    forall m | 0 <= m < i ensures s[m] != c {
      assert s[..i][m] == s[m];
    }
    forall m | 0 <= m < j ensures s[m] != c {
      assert s[..j][m] == s[m];
    }
  }

  lemma DropCrOfCr(l: string)
    ensures DropCr(l + "\r") == l
  {
    assert (l + "\r")[..|l|] == l;
  }

  lemma PieceAt(w: seq<string>, k: nat)
    requires |w| >= 1 && k < |w| && SplitNewlines(JoinNewlines(w)) == w
    requires forall l :: l in w ==> '\n' !in l
    ensures LinePieces(JoinNewlines(w))[k] == if k < |w| - 1 then DropCr(w[k]) else w[k]
  {
  }

  /** Round trip: non-blank lines joined with "\n" or with "\r\n" are the
      lines `parseCSV` reads back. */
  lemma LinesRoundTrip(ls: seq<string>, crlf: bool)
    requires |ls| >= 1
    requires forall l :: l in ls ==> '\n' !in l && NonBlank(l) && (l == [] || l[|l| - 1] != '\r')
    ensures CsvLines(JoinNewlines(WithCr(ls, crlf))) == ls
  {
    PiecesOfJoined(ls, crlf);
    KeepAll(ls, NonBlank);
  }

  lemma PiecesOfJoined(ls: seq<string>, crlf: bool)
    requires |ls| >= 1
    requires forall l :: l in ls ==> '\n' !in l && (l == [] || l[|l| - 1] != '\r')
    ensures LinePieces(JoinNewlines(WithCr(ls, crlf))) == ls
  {
    var w := WithCr(ls, crlf);
    forall l | l in w ensures '\n' !in l {
      var k :| 0 <= k < |w| && w[k] == l;
      assert ls[k] in ls;
    }
    SplitJoin(w);
    var p := LinePieces(JoinNewlines(w));
    forall k | 0 <= k < |ls| ensures p[k] == ls[k] {
      assert ls[k] in ls;
      PieceAt(w, k);
      if crlf && |ls| > 1 && k < |ls| - 1 {
        DropCrOfCr(ls[k]);
      }
    }
  }

  // Client-side pages.

  /** `Math.ceil(n / d)`. */
  function CeilDiv(n: nat, d: nat): (r: nat)
    requires d > 0
    ensures r * d >= n
    ensures r > 0 ==> (r - 1) * d < n
    ensures r == 0 <==> n == 0
  {
    var q := (n + d - 1) / d;
    assert n + d - 1 == q * d + (n + d - 1) % d;
    q
  }

  /** `items.slice(page * perPage, page * perPage + perPage)`. */
  function PageSlice<T>(items: seq<T>, page: nat, perPage: nat): (r: seq<T>)
    ensures |r| <= perPage
    ensures forall k :: 0 <= k < |r| ==> page * perPage + k < |items| && r[k] == items[page * perPage + k]
    ensures page * perPage + perPage <= |items| ==> |r| == perPage
    ensures page * perPage < |items| < page * perPage + perPage ==> |r| == |items| - page * perPage
    ensures perPage > 0 && page * perPage < |items| ==> |r| > 0
  {
    var start := page * perPage;
    var end := start + perPage;
    if start >= |items| then [] else items[start..if end < |items| then end else |items|]
  }

  /** Every item is shown on a page, the page `k / perPage` at position
      `k % perPage`, and that page is one the counter offers. */
  lemma ItemOnItsPage<T>(items: seq<T>, perPage: nat, k: nat)
    requires perPage > 0 && k < |items|
    ensures k / perPage < CeilDiv(|items|, perPage)
    ensures var p := PageSlice(items, k / perPage, perPage);
            k % perPage < |p| && p[k % perPage] == items[k]
  {
    PageOfItemCounted(|items|, perPage, k);
    var q, m := k / perPage, k % perPage;
    var start := q * perPage;
    assert k == start + m && m < perPage;
    var p := PageSlice(items, q, perPage);
    assert m < |p|;
    assert p[m] == items[start + m];
  }

  lemma PageOfItemCounted(n: nat, perPage: nat, k: nat)
    requires perPage > 0 && k < n
    ensures k / perPage < CeilDiv(n, perPage)
  {
    var q := k / perPage;
    assert q * perPage <= k;
    var c := CeilDiv(n, perPage);
    assert (c - q) * perPage == c * perPage - q * perPage;
    PositiveFactor(c - q, perPage);
  }

  lemma PositiveFactor(x: int, d: int)
    requires d > 0 && x * d > 0
    ensures x > 0
  {
  }

  /** The page counter of `updatePageInfo`: the page shown, counted from
      1, and the number of pages, which is 1 for an empty table. */
  function PageInfo(page: nat, perPage: nat, total: nat): (r: (nat, nat))
    requires perPage > 0
    ensures r.0 == page + 1
    ensures r.1 >= 1 && r.1 * perPage >= total
    ensures total > 0 ==> (r.1 - 1) * perPage < total
    ensures total == 0 ==> r.1 == 1
  {
    var pages := CeilDiv(total, perPage);
    (page + 1, if pages == 0 then 1 else pages)
  }

  /** The page state of one table (web/app.js:11-15): ten rows a page. */
  class Pagination {
    var page: nat
    const perPage: nat

    constructor ()
      ensures page == 0 && perPage == 10
    {
      page := 0;
      perPage := 10;
    }

    /** The page is one the counter offers for a table of `len` rows. */
    predicate InRange(len: nat)
      reads this
    {
      perPage > 0 && page <= if CeilDiv(len, perPage) == 0 then 0 else CeilDiv(len, perPage) - 1
    }

    /** `nextPage` with `len` the length of the full list of the view. */
    method NextPage(len: nat)
      modifies this
      requires perPage > 0
      ensures page == if old(page) + 1 < CeilDiv(len, perPage) then old(page) + 1 else old(page)
      ensures old(InRange(len)) ==> InRange(len)
    {
      var totalPages := CeilDiv(len, perPage);
      if page + 1 < totalPages {
        page := page + 1;
      }
    }

    /** `prevPage`. */
    method PrevPage()
      modifies this
      ensures page == if old(page) > 0 then old(page) - 1 else 0
      ensures forall len: nat :: old(InRange(len)) ==> InRange(len)
    {
      if page > 0 {
        page := page - 1;
      }
    }

    /** The reset that follows every reload of the table. */
    method Reset()
      modifies this
      ensures page == 0
      ensures forall len: nat :: perPage > 0 ==> InRange(len)
    {
      page := 0;
    }
  }

  // Filters.

  /** A JavaScript value that is truthy: present and non-empty. */
  predicate Truthy(v: Option<string>) {
    v.Some? && v.value != ""
  }

  /** `v && v.toLowerCase().includes(q)`. */
  predicate Mentions(v: Option<string>, q: string) {
    Truthy(v) && Contains(LowerAscii(v.value), q)
  }

  predicate StudentHit(s: Student, q: string) {
    Mentions(Some(s.studentId), q) || Mentions(s.name, q) || Mentions(s.email, q)
  }

  /** `searchStudents` (web/app.js:274-282). */
  function SearchStudents(rows: seq<Student>, query: string): (r: seq<Student>)
    ensures forall s :: s in r <==> s in rows && StudentHit(s, LowerAscii(query))
    ensures forall s :: multiset(r)[s] == if StudentHit(s, LowerAscii(query)) then multiset(rows)[s] else 0
  {
    var q := LowerAscii(query);
    Keep(rows, (s: Student) => StudentHit(s, q))
  }

  /** The search keeps the order of the list: searching two lists one
      after the other gives the two results one after the other. */
  lemma SearchStudentsAppend(a: seq<Student>, b: seq<Student>, query: string)
    ensures SearchStudents(a + b, query) == SearchStudents(a, query) + SearchStudents(b, query)
  {
    var q := LowerAscii(query);
    KeepAppend(a, b, (s: Student) => StudentHit(s, q));
  }

  lemma LowerAsciiIdempotent(s: string)
    ensures LowerAscii(LowerAscii(s)) == LowerAscii(s)
  {
  }

  /** The search ignores the case of the query. */
  lemma SearchIgnoresCase(rows: seq<Student>, query: string)
    ensures SearchStudents(rows, query) == SearchStudents(rows, LowerAscii(query))
  {
    LowerAsciiIdempotent(query);
  }

  /** An empty search keeps the students with an id, a name or an e-mail
      that is not empty. */
  lemma EmptySearch(rows: seq<Student>)
    ensures forall s :: s in SearchStudents(rows, "") <==>
              s in rows && (s.studentId != "" || Truthy(s.name) || Truthy(s.email))
  {
    forall v: string ensures Contains(v, "") {
      ContainsAt(v, "", 0);
    }
  }

  predicate CourseHit(c: Course, q: string) {
    Mentions(Some(c.courseId), q) || Mentions(c.name, q)
  }

  /** `searchCourses` (web/app.js:453-460). */
  function SearchCourses(rows: seq<Course>, query: string): (r: seq<Course>)
    ensures forall c :: c in r <==> c in rows && CourseHit(c, LowerAscii(query))
    ensures multiset(r) <= multiset(rows)
  {
    var q := LowerAscii(query);
    Keep(rows, (c: Course) => CourseHit(c, q))
  }

  /** `filterCourses` (web/app.js:462-477): exact type and semester, each
      only when its filter is not empty. */
  function FilterCourses(rows: seq<Course>, typeFilter: string, semesterFilter: string): (r: seq<Course>)
    ensures forall c :: c in r <==> (c in rows
                                     && (typeFilter == "" || c.courseType == Some(typeFilter))
                                     && (semesterFilter == "" || c.semester == Some(semesterFilter)))
    ensures multiset(r) <= multiset(rows)
  {
    var byType := if typeFilter != "" then Keep(rows, (c: Course) => c.courseType == Some(typeFilter)) else rows;
    if semesterFilter != "" then Keep(byType, (c: Course) => c.semester == Some(semesterFilter)) else byType
  }

  /** With both filters empty the list is shown whole, in its order. */
  lemma NoCourseFilter(rows: seq<Course>)
    ensures FilterCourses(rows, "", "") == rows
  {
  }

  /** Filtering again with the same filters changes nothing. */
  lemma FilterCoursesIdempotent(rows: seq<Course>, t: string, s: string)
    ensures FilterCourses(FilterCourses(rows, t, s), t, s) == FilterCourses(rows, t, s)
  {
    var once := FilterCourses(rows, t, s);
    if t != "" {
      KeepAll(once, (c: Course) => c.courseType == Some(t));
    }
    if s != "" {
      var byType := if t != "" then Keep(once, (c: Course) => c.courseType == Some(t)) else once;
      KeepAll(byType, (c: Course) => c.semester == Some(s));
    }
  }

  /** `filterEnrollments` (web/app.js:623-642): case-insensitive substring
      tests on the student id and the course id, each only when its
      filter is not empty. */
  function FilterEnrollments(rows: seq<Enrollment>, studentFilter: string, courseFilter: string): (r: seq<Enrollment>)
    ensures forall e :: e in r <==> (e in rows
      && (studentFilter == "" || Contains(LowerAscii(e.studentId), LowerAscii(studentFilter)))
      && (courseFilter == "" || Contains(LowerAscii(e.courseId), LowerAscii(courseFilter))))
    ensures multiset(r) <= multiset(rows)
  {
    var sf := LowerAscii(studentFilter);
    var cf := LowerAscii(courseFilter);
    var byStudent := if sf != "" then Keep(rows, (e: Enrollment) => Contains(LowerAscii(e.studentId), sf)) else rows;
    if cf != "" then Keep(byStudent, (e: Enrollment) => Contains(LowerAscii(e.courseId), cf)) else byStudent
  }

  // The import of web/app.js:893-945.

  /** The header row, lower-cased and trimmed. */
  function Headers(row: seq<string>): seq<string> {
    seq(|row|, k requires 0 <= k < |row| => JsTrim(LowerAscii(row[k])))
  }

  predicate Filled(row: seq<string>, idx: int) {
    0 <= idx < |row| && row[idx] != ""
  }

  /** The object a data row becomes: each header whose cell is not empty
      maps to the trimmed cell, a later column winning over an earlier one
      with the same header. */
  function RowObject(headers: seq<string>, row: seq<string>): (r: map<string, string>)
    ensures forall k :: k in r <==> exists idx :: 0 <= idx < |headers| && headers[idx] == k && Filled(row, idx)
    decreases |headers|
  {
    if headers == [] then map[]
    else
      var n := |headers| - 1;
      var m := RowObject(headers[..n], row);
      assert forall idx :: 0 <= idx < n ==> headers[..n][idx] == headers[idx];
      if Filled(row, n) then m[headers[n] := JsTrim(row[n])] else m
  }

  /** The value of a header is the trimmed cell of the last column under
      that header whose cell is not empty. */
  lemma {:induction false} RowObjectLast(headers: seq<string>, row: seq<string>, idx: nat)
    requires idx < |headers| && Filled(row, idx)
    requires forall j :: idx < j < |headers| && headers[j] == headers[idx] ==> !Filled(row, j)
    ensures headers[idx] in RowObject(headers, row)
    ensures RowObject(headers, row)[headers[idx]] == JsTrim(row[idx])
    decreases |headers|
  {
    var n := |headers| - 1;
    if idx < n {
      RowObjectLast(headers[..n], row, idx);
    }
  }

  /** `obj[key]`, undefined when absent. */
  function Lookup(obj: map<string, string>, key: string): Option<string> {
    if key in obj then Some(obj[key]) else None
  }

  /** JavaScript's `a || b` on strings that may be undefined. */
  function Or(a: Option<string>, b: Option<string>): (r: Option<string>)
    ensures Truthy(a) ==> r == a
    ensures !Truthy(a) ==> r == b
  {
    if Truthy(a) then a else b
  }

  /** The id an imported student row is sent with: `student_id`, else `id`. */
  function ImportedId(obj: map<string, string>): Option<string> {
    Or(Lookup(obj, "student_id"), Lookup(obj, "id"))
  }

  /** The body `api.addStudent` sends for an imported row: an undefined id
      is left out by `JSON.stringify`, name and e-mail default to "", and
      the credits are 0. */
  function StudentImportBody(obj: map<string, string>): (j: Handlers.Json)
    ensures j.JObject?
    ensures "student_id" in j.fields <==> ImportedId(obj).Some?
    ensures Handlers.IsString(Handlers.Get(j, "name"))
  {
    var base := map["name" := Handlers.JString(Or(Lookup(obj, "name"), Some("")).value),
                    "email" := Handlers.JString(Or(Lookup(obj, "email"), Some("")).value),
                    "credits" := Handlers.JInt(0)];
    var id := ImportedId(obj);
    Handlers.JObject(if id.Some? then base["student_id" := Handlers.JString(id.value)] else base)
  }

  /** One imported student: posted to /student/add, counted a success
      when the reply is 200. */
  function SendStudent(db: Store.Db, obj: map<string, string>): (r: (bool, Store.Db))
    ensures r.0 <==> ImportedId(obj).Some? && ImportedId(obj).value !in db.students
    ensures r.0 ==> r.1.students.Keys == db.students.Keys + {ImportedId(obj).value}
    ensures !r.0 ==> r.1 == db
  {
    var reply := Handlers.HandleStudentAdd(db, Some(StudentImportBody(obj)));
    (reply.code == 200, reply.db)
  }

  /** The successes of posting `objs` one after another from state `s`,
      and the state they leave. */
  function Replay<S>(s: S, objs: seq<map<string, string>>, send: (S, map<string, string>) -> (bool, S)): (nat, S)
    decreases |objs|
  {
    if objs == [] then (0, s)
    else
      var first := send(s, objs[0]);
      var rest := Replay(first.1, objs[1..], send);
      ((if first.0 then 1 else 0) + rest.0, rest.1)
  }

  datatype ImportResult = TooFewRows | Imported(successes: nat, failures: nat)

  /** The objects of the data rows under the header row. */
  function DataObjects(rows: seq<seq<string>>): (objs: seq<map<string, string>>)
    requires |rows| >= 1
    ensures |objs| == |rows| - 1
  {
    seq(|rows| - 1, k requires 0 <= k < |rows| - 1 => DataObject(rows, k + 1))
  }

  /** The object of row `k` under the header row. */
  function DataObject(rows: seq<seq<string>>, k: nat): map<string, string>
    requires 1 <= k < |rows|
  {
    RowObject(Headers(rows[0]), rows[k])
  }

  /** `importCSV`: fewer than two rows is refused; otherwise every data row
      is posted in order, each counted once as a success or a failure.
      `send` stands for the request and the server's reply. */
  method ImportCsv<S>(text: string, s0: S, send: (S, map<string, string>) -> (bool, S))
    returns (result: ImportResult, s: S)
    ensures var rows := ParseCsv(text);
      if |rows| < 2 then result == TooFewRows && s == s0
      else result.Imported? && result.successes + result.failures == |rows| - 1
           && (result.successes, s) == Replay(s0, DataObjects(rows), send)
  {
    var rows := ParseCsv(text);
    if |rows| < 2 {
      return TooFewRows, s0;
    }
    result, s := ImportRows(rows, s0, send);
  }

  /** The loop of `importCSV` over the data rows. */
  method ImportRows<S>(rows: seq<seq<string>>, s0: S, send: (S, map<string, string>) -> (bool, S))
    returns (result: ImportResult, s: S)
    requires |rows| >= 2
    ensures result.Imported? && result.successes + result.failures == |rows| - 1
    ensures (result.successes, s) == Replay(s0, DataObjects(rows), send)
  {
    ghost var objs := DataObjects(rows);
    var successCount, errorCount := 0, 0;
    s := s0;
    var i := 0;
    while i < |rows| - 1
      invariant 0 <= i <= |rows| - 1
      invariant successCount + errorCount == i
      invariant successCount + Replay(s, objs[i..], send).0 == Replay(s0, objs, send).0
      invariant Replay(s, objs[i..], send).1 == Replay(s0, objs, send).1
    {
      assert objs[i..][1..] == objs[i + 1..];
      var obj := DataObject(rows, i + 1);
      assert obj == objs[i];
      var sent := send(s, obj);
      if sent.0 {
        successCount := successCount + 1;
      } else {
        errorCount := errorCount + 1;
      }
      s := sent.1;
      i := i + 1;
    }
    assert objs[i..] == [];
    result := Imported(successCount, errorCount);
  }

  /** The ids a sequence of imported rows carries. */
  function ImportedIds(objs: seq<map<string, string>>): set<string> {
    if objs == [] then {}
    else (if ImportedId(objs[0]).Some? then {ImportedId(objs[0]).value} else {}) + ImportedIds(objs[1..])
  }

  lemma NewIdCounted(stored: set<string>, x: string, rest: set<string>)
    requires x !in stored
    ensures |({x} + rest) - stored| == 1 + |rest - (stored + {x})|
  {
    assert ({x} + rest) - stored == {x} + (rest - (stored + {x}));
    assert x !in rest - (stored + {x});
  }

  lemma StoredIdNotCounted(stored: set<string>, x: string, rest: set<string>)
    requires x in stored
    ensures ({x} + rest) - stored == rest - stored
  {
  }

  /** A students import succeeds once for every distinct id it carries
      that the store does not already hold: a repeated id and an id
      already stored are counted as failures. */
  lemma {:induction false} StudentImportSuccesses(db: Store.Db, objs: seq<map<string, string>>)
    ensures Replay(db, objs, SendStudent).0 == |ImportedIds(objs) - db.students.Keys|
    decreases |objs|
  {
    if objs != [] {
      var first := SendStudent(db, objs[0]);
      StudentImportSuccesses(first.1, objs[1..]);
      var rest := ImportedIds(objs[1..]);
      var id := ImportedId(objs[0]);
      if id.Some? {
        assert ImportedIds(objs) == {id.value} + rest;
        if first.0 {
          NewIdCounted(db.students.Keys, id.value, rest);
        } else {
          StoredIdNotCounted(db.students.Keys, id.value, rest);
        }
      } else {
        assert ImportedIds(objs) == rest;
      }
    }
  }
}
