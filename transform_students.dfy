/** utils/transform_students.py: the clean-up of e-mail parts, the set of
    alternate ids, and the selection of the student records that become
    CSV rows. A record is the dictionary `json.load` gives for one
    student; a Python exception that is not caught is the result `None`. */
module TransformStudents {
  import opened Wrappers
  import opened Text
  import QueryString

  /** A value `json.load` produces. JSON numbers with a fraction or an
      exponent are `float`s; the others are `int`s. */
  datatype Value =
    | JNull
    | JBool(b: bool)
    | JInt(i: int)
    | JReal(r: real)
    | JStr(s: string)
    | JList(items: seq<Value>)
    | JObject(fields: map<string, Value>)

  type Record = map<string, Value>

  /** `record.get(key)`: a missing key reads as None, like a JSON null. */
  function Get(rec: Record, key: string): Value {
    if key in rec then rec[key] else JNull
  }

  /** Python truth value of a JSON value. */
  predicate Truthy(v: Value) {
    match v
    case JNull => false
    case JBool(b) => b
    case JInt(i) => i != 0
    case JReal(r) => r != 0.0
    case JStr(s) => s != []
    case JList(items) => items != []
    case JObject(fields) => fields != map[]
  }

  /** Python `a or b`. */
  function Or(a: Value, b: Value): (r: Value)
    ensures Truthy(r) <==> Truthy(a) || Truthy(b)
  {
    if Truthy(a) then a else b
  }

  /** `str.isspace`: the ASCII white space, the information separators
      \x1c-\x1f, and the Unicode spaces and line separators. */
  predicate IsPySpace(c: char) {
    IsCSpace(c) || ('\U{1C}' <= c <= '\U{1F}') || c == '\U{85}' || c == '\U{A0}'
    || c == '\U{1680}' || ('\U{2000}' <= c <= '\U{200A}') || c == '\U{2028}' || c == '\U{2029}'
    || c == '\U{202F}' || c == '\U{205F}' || c == '\U{3000}'
  }

  /** The characters `[a-z0-9_\-]` that survive the clean-up. */
  predicate Allowed(c: char) {
    'a' <= c <= 'z' || IsDigit(c) || c == '_' || c == '-'
  }

  /** `re.sub(r"\s+", "", s)`. */
  function RemoveSpaces(s: string): (r: string)
    ensures |r| <= |s|
  {
    if s == [] then []
    else (if IsPySpace(s[0]) then [] else [s[0]]) + RemoveSpaces(s[1..])
  }

  /** `re.sub(r"[^a-z0-9_\-]", "", s)`. */
  function AllowedOnly(s: string): (r: string)
    ensures forall k :: 0 <= k < |r| ==> Allowed(r[k])
  {
    if s == [] then []
    else (if Allowed(s[0]) then [s[0]] else []) + AllowedOnly(s[1..])
  }

  /** The clean-up of `sanitize_local` and `sanitize_school`: strip,
      lower-case, remove white space, drop what is not allowed. */
  function Clean(s: string): (r: string)
    ensures forall k :: 0 <= k < |r| ==> Allowed(r[k])
  {
    AllowedOnly(RemoveSpaces(LowerAscii(Trim(s, IsPySpace))))
  }

  lemma {:induction false} AllowedOnlyAppend(a: string, b: string)
    ensures AllowedOnly(a + b) == AllowedOnly(a) + AllowedOnly(b)
    decreases |a|
  {
    if a == [] {
      assert a + b == b;
    } else {
      assert (a + b)[1..] == a[1..] + b;
      AllowedOnlyAppend(a[1..], b);
    }
  }

  /** White space alone leaves nothing allowed. */
  lemma {:induction false} AllowedOnlySpaces(s: string)
    requires forall k :: 0 <= k < |s| ==> IsPySpace(s[k])
    ensures AllowedOnly(s) == []
    decreases |s|
  {
    if s != [] {
      AllowedOnlySpaces(s[1..]);
    }
  }

  /** Removing white space before the filter changes nothing. */
  lemma {:induction false} AllowedOnlyRemoveSpaces(s: string)
    ensures AllowedOnly(RemoveSpaces(s)) == AllowedOnly(s)
    decreases |s|
  {
    if s != [] {
      AllowedOnlyRemoveSpaces(s[1..]);
      var head := if IsPySpace(s[0]) then [] else [s[0]];
      AllowedOnlyAppend(head, RemoveSpaces(s[1..]));
      assert AllowedOnly(head) == if Allowed(s[0]) then [s[0]] else [];
    }
  }

  /** A string of allowed characters passes the filter whole. */
  lemma {:induction false} AllowedOnlyAllowed(s: string)
    requires forall k :: 0 <= k < |s| ==> Allowed(s[k])
    ensures AllowedOnly(s) == s
    decreases |s|
  {
    if s != [] {
      AllowedOnlyAllowed(s[1..]);
    }
  }

  /** Stripping and removing white space do nothing the last filter would
      not do: the clean-up keeps the allowed characters of the lower-cased
      input, in order. */
  lemma CleanIsFilter(s: string)
    ensures Clean(s) == AllowedOnly(LowerAscii(s))
  {
    var x := LowerAscii(s);
    TrimSlice(s, IsPySpace);
    var i, j :| 0 <= i <= j <= |s| && Trim(s, IsPySpace) == s[i..j]
                && (forall k :: 0 <= k < i ==> IsPySpace(s[k]))
                && (forall k :: j <= k < |s| ==> IsPySpace(s[k]));
    LowerSlice(s, i, j);
    AllowedOnlyRemoveSpaces(x[i..j]);
    LowerKeepsSpaces(s, i, j);
    AllowedOnlyInner(x, i, j);
  }

  lemma LowerSlice(s: string, i: nat, j: nat)
    requires i <= j <= |s|
    ensures LowerAscii(s[i..j]) == LowerAscii(s)[i..j]
  {
  }

  /** Lower-casing leaves white space white space. */
  lemma LowerKeepsSpaces(s: string, i: nat, j: nat)
    requires i <= j <= |s|
    requires forall k :: 0 <= k < i || j <= k < |s| ==> IsPySpace(s[k])
    ensures forall k :: 0 <= k < i || j <= k < |s| ==> IsPySpace(LowerAscii(s)[k])
  {
  }

  /** White space around a piece passes nothing through the filter. */
  lemma AllowedOnlyInner(x: string, i: nat, j: nat)
    requires i <= j <= |x|
    requires forall k :: 0 <= k < i || j <= k < |x| ==> IsPySpace(x[k])
    ensures AllowedOnly(x) == AllowedOnly(x[i..j])
  {
    var a, m, c := x[..i], x[i..j], x[j..];
    SplitThree(x, i, j);
    forall k | 0 <= k < |a| ensures IsPySpace(a[k]) {
      assert a[k] == x[k];
    }
    forall k | 0 <= k < |c| ensures IsPySpace(c[k]) {
      assert c[k] == x[j + k];
    }
    AllowedOnlySpaces(a);
    AllowedOnlySpaces(c);
    AllowedOnlyAppend(a, m);
    AllowedOnlyAppend(a + m, c);
  }

  lemma SplitThree(x: string, i: nat, j: nat)
    requires i <= j <= |x|
    ensures x == x[..i] + x[i..j] + x[j..]
  {
    assert x[..j] == x[..i] + x[i..j];
  }

  /** Cleaning a cleaned string changes nothing. */
  lemma CleanIdempotent(s: string)
    ensures Clean(Clean(s)) == Clean(s)
  {
    var c := Clean(s);
    CleanIsFilter(c);
    assert LowerAscii(c) == c;
    AllowedOnlyAllowed(c);
  }

  /** `sanitize_local` (utils/transform_students.py:22-29): None gives "",
      a string is cleaned, and any other value raises AttributeError at
      `.strip()`. */
  function SanitizeLocal(v: Value): (r: Option<string>)
    ensures r.None? <==> !(v.JNull? || v.JStr?)
    ensures r.Some? ==> forall k :: 0 <= k < |r.value| ==> Allowed(r.value[k])
  {
    match v
    case JNull => Some("")
    case JStr(s) => Some(Clean(s))
    case _ => None
  }

  /** `sanitize_school` (utils/transform_students.py:32-38): a falsy value
      gives "", a string is cleaned, any other value raises. */
  function SanitizeSchool(v: Value): (r: Option<string>)
    ensures r.None? <==> Truthy(v) && !v.JStr?
    ensures r.Some? ==> forall k :: 0 <= k < |r.value| ==> Allowed(r.value[k])
  {
    if !Truthy(v) then Some("")
    else if v.JStr? then Some(Clean(v.s))
    else None
  }

  /** `make_email` (utils/transform_students.py:60-67). Both parts are
      cleaned before the local part is looked at, so a school that raises
      raises even when the local part is empty. */
  function MakeEmail(pathname: Value, school: Value): (r: Option<string>)
    ensures r.None? <==> SanitizeLocal(pathname).None? || SanitizeSchool(school).None?
  {
    var local := SanitizeLocal(pathname);
    var schoolClean := SanitizeSchool(school);
    if local.None? || schoolClean.None? then None
    else if local.value == "" then Some("")
    else if schoolClean.value != "" then Some(local.value + "@" + schoolClean.value + ".edu")
    else Some(local.value + "@gmail.com")
  }

  /** An address splits back, at its only '@', into the cleaned local part
      and a domain; the domain is the school's `.edu` exactly when the
      cleaned school is not empty. An empty local part gives no address. */
  lemma EmailSplits(pathname: Value, school: Value)
    requires MakeEmail(pathname, school).Some?
    ensures var e := MakeEmail(pathname, school).value;
      var local := SanitizeLocal(pathname).value;
      var schoolClean := SanitizeSchool(school).value;
      && (e == "" <==> local == "")
      && (e != "" ==>
            && e[..|local|] == local
            && e[|local|] == '@'
            && '@' !in local
            && '@' !in e[|local| + 1..]
            && |e| > 4
            && (e[|e| - 4..] == ".edu" <==> schoolClean != ""))
  {
    var local := SanitizeLocal(pathname).value;
    var schoolClean := SanitizeSchool(school).value;
    if local != "" {
      var domain := Domain(schoolClean);
      assert MakeEmail(pathname, school).value == local + "@" + domain;
      NoAt(local);
      DomainShape(schoolClean);
      AddressParts(local, domain);
    }
  }

  /** The part after the '@': the school's `.edu`, or gmail.com. */
  function Domain(schoolClean: string): string {
    if schoolClean != "" then schoolClean + ".edu" else "gmail.com"
  }

  lemma NoAt(s: string)
    requires forall k :: 0 <= k < |s| ==> Allowed(s[k])
    ensures '@' !in s
  {
  }

  lemma DomainShape(schoolClean: string)
    requires forall k :: 0 <= k < |schoolClean| ==> Allowed(schoolClean[k])
    ensures var d := Domain(schoolClean);
      '@' !in d && |d| >= 4 && (d[|d| - 4..] == ".edu" <==> schoolClean != "")
  {
    NoAt(schoolClean);
    var d := Domain(schoolClean);
    if schoolClean == "" {
      assert d[|d| - 4..] == ".com";
    } else {
      assert d[|d| - 4..] == ".edu";
    }
  }

  /** `local@domain` splits back at its '@' when neither part has one. */
  lemma AddressParts(local: string, domain: string)
    requires '@' !in local && '@' !in domain && |domain| >= 4
    ensures var e := local + "@" + domain;
      && e[..|local|] == local && e[|local|] == '@' && e[|local| + 1..] == domain
      && |e| > 4 && e[|e| - 4..] == domain[|domain| - 4..]
  {
    var e := local + "@" + domain;
    assert e[|local| + 1..] == domain;
  }

  /** `int(x)` on a JSON value: None where Python raises. */
  function IntOf(v: Value): Option<int> {
    match v
    case JInt(i) => Some(i)
    case JBool(b) => Some(if b then 1 else 0)
    case JReal(r) => Some(Truncate(r))
    case JStr(s) => ParseInt(s)
    case _ => None
  }

  /** `int(r)` on a float: rounds toward zero. */
  function Truncate(r: real): (n: int)
    ensures r >= 0.0 ==> n as real <= r < n as real + 1.0 && n >= 0
    ensures r < 0.0 ==> n as real - 1.0 < r <= n as real && n <= 0
  {
    if r >= 0.0 then r.Floor else -((-r).Floor)
  }

  /** `int(s)` on a string: white space around, an optional sign, then one
      or more decimal digits. */
  function ParseInt(s: string): Option<int> {
    ParseSigned(Trim(s, IsPySpace))
  }

  /** `int` on a stripped string. */
  function ParseSigned(t: string): Option<int> {
    var body := if t != [] && (t[0] == '-' || t[0] == '+') then t[1..] else t;
    if body != [] && forall k :: 0 <= k < |body| ==> IsDigit(body[k]) then
      Some(if t[0] == '-' then -(QueryString.DigitsValue(body) as int) else QueryString.DigitsValue(body))
    else None
  }

  /** `int(str(n)) == n`. */
  lemma ParseIntOfDecimal(n: int)
    ensures ParseInt(QueryString.Itoa(n)) == Some(n)
  {
    StripDecimal(n);
    var m := if n < 0 then -n else n;
    QueryString.NatDigitsValue(m);
    ParseDigits(QueryString.NatDigits(m));
  }

  /** A decimal numeral has no white space to strip. */
  lemma StripDecimal(n: int)
    ensures Trim(QueryString.Itoa(n), IsPySpace) == QueryString.Itoa(n)
  {
    var s := QueryString.Itoa(n);
    var ds := QueryString.NatDigits(if n < 0 then -n else n);
    assert IsDigit(ds[|ds| - 1]);
    assert s[0] == '-' || IsDigit(s[0]);
    assert s[|s| - 1] == ds[|ds| - 1];
    TrimOfTrimmed(s, IsPySpace);
  }

  lemma ParseDigits(ds: string)
    requires ds != [] && forall k :: 0 <= k < |ds| ==> IsDigit(ds[k])
    ensures ParseSigned(ds) == Some(QueryString.DigitsValue(ds))
    ensures ParseSigned("-" + ds) == Some(-(QueryString.DigitsValue(ds) as int))
  {
    assert ds[0] != '-' && ds[0] != '+';
    assert ("-" + ds)[1..] == ds;
  }

  /** The integers `int()` reads from a list of alternates, skipping the
      ones it cannot convert. */
  function IntsOf(alts: seq<Value>): set<int>
    decreases |alts|
  {
    if alts == [] then {}
    else
      var last := IntOf(alts[|alts| - 1]);
      IntsOf(alts[..|alts| - 1]) + if last.Some? then {last.value} else {}
  }

  /** The set holds exactly the values of the entries that convert. */
  lemma {:induction false} IntsOfMembers(alts: seq<Value>, x: int)
    ensures x in IntsOf(alts) <==> exists k :: 0 <= k < |alts| && IntOf(alts[k]) == Some(x)
    decreases |alts|
  {
    if alts != [] {
      var prev := alts[..|alts| - 1];
      IntsOfMembers(prev, x);
      assert forall k :: 0 <= k < |prev| ==> prev[k] == alts[k];
    }
  }

  /** The alternates of one record: nothing unless `FavorAlts` is a list. */
  function AltIds(fav: Value): set<int> {
    if fav.JList? then IntsOf(fav.items) else {}
  }

  /** The inner loop of utils/transform_students.py:49-56 and 111-118:
      every convertible entry of `fav`, when it is a list, joins `ignore`. */
  method AddAlts(ignore: set<int>, fav: Value) returns (r: set<int>)
    ensures r == ignore + AltIds(fav)
  {
    r := ignore;
    if fav.JList? {
      var j := 0;
      while j < |fav.items|
        invariant 0 <= j <= |fav.items|
        invariant r == ignore + IntsOf(fav.items[..j])
      {
        assert fav.items[..j + 1][..j] == fav.items[..j];
        var alt := IntOf(fav.items[j]);
        if alt.Some? {
          r := r + {alt.value};
        }
        j := j + 1;
      }
      assert fav.items[..j] == fav.items;
    }
  }

  /** The alternates of every record, in the sense of `build_ignore_set`. */
  function AllAlts(students: seq<Record>): set<int>
    decreases |students|
  {
    if students == [] then {}
    else AllAlts(students[..|students| - 1]) + AltIds(Get(students[|students| - 1], "FavorAlts"))
  }

  /** An id is collected exactly when some record lists it. */
  lemma {:induction false} AllAltsMembers(students: seq<Record>, x: int)
    ensures x in AllAlts(students) <==> exists i :: 0 <= i < |students| && x in AltIds(Get(students[i], "FavorAlts"))
    decreases |students|
  {
    if students != [] {
      var prev := students[..|students| - 1];
      AllAltsMembers(prev, x);
      assert forall i :: 0 <= i < |prev| ==> prev[i] == students[i];
    }
  }

  /** `build_ignore_set` (utils/transform_students.py:46-57). */
  method BuildIgnoreSet(students: seq<Record>) returns (ignore: set<int>)
    ensures ignore == AllAlts(students)
  {
    ignore := {};
    var i := 0;
    while i < |students|
      invariant 0 <= i <= |students|
      invariant ignore == AllAlts(students[..i])
    {
      assert students[..i + 1][..i] == students[..i];
      ignore := AddAlts(ignore, Get(students[i], "FavorAlts"));
      i := i + 1;
    }
    assert students[..i] == students;
  }

  /** The `student_id` of a row: `int(Id)` when that converts, else the
      `Id` as it was. */
  datatype StudentId = IntId(n: int) | RawId(raw: Value)

  function IdOf(v: Value): StudentId {
    var n := IntOf(v);
    if n.Some? then IntId(n.value) else RawId(v)
  }

  /** One output row: student_id, name, email and credits. */
  datatype Row = Row(studentId: StudentId, name: Value, email: string, credits: int)

  /** A record is skipped when it has no `Id`, or when its id converts to
      an integer among the alternates collected so far. */
  predicate Skipped(s: Record, ignore: set<int>) {
    var sid := Get(s, "Id");
    sid == JNull || (IdOf(sid).IntId? && IdOf(sid).n in ignore)
  }

  /** The records the loop of `transform` emits, and the ignore set it
      has built, after `students`; the alternates of a record join the set
      only once the record has been emitted. */
  function Selection(students: seq<Record>): (r: (seq<Record>, set<int>))
    ensures |r.0| <= |students|
    decreases |students|
  {
    if students == [] then ([], {})
    else
      var prev := Selection(students[..|students| - 1]);
      var s := students[|students| - 1];
      if Skipped(s, prev.1) then prev
      else (prev.0 + [s], prev.1 + AltIds(Get(s, "FavorAlts")))
  }

  /** Every emitted record has an `Id`, and the ignore set is what
      `build_ignore_set` would collect from the emitted records alone. */
  lemma {:induction false} SelectionFacts(students: seq<Record>)
    ensures forall k :: 0 <= k < |Selection(students).0| ==> Get(Selection(students).0[k], "Id") != JNull
    ensures Selection(students).1 == AllAlts(Selection(students).0)
    decreases |students|
  {
    if students != [] {
      var prev := students[..|students| - 1];
      SelectionFacts(prev);
      var p := Selection(prev).0;
      var s := students[|students| - 1];
      assert (p + [s])[..|p|] == p;
    }
  }

  /** `a` is `b` with some elements left out, the rest in their order. */
  predicate Subsequence<T(==)>(a: seq<T>, b: seq<T>)
    decreases |b|
  {
    if a == [] then true
    else if b == [] then false
    else (a[|a| - 1] == b[|b| - 1] && Subsequence(a[..|a| - 1], b[..|b| - 1]))
         || Subsequence(a, b[..|b| - 1])
  }

  /** The emitted records keep the order of the input. */
  lemma {:induction false} SelectionInOrder(students: seq<Record>)
    ensures Subsequence(Selection(students).0, students)
    decreases |students|
  {
    if students != [] {
      var prev := students[..|students| - 1];
      SelectionInOrder(prev);
      var kept := Selection(students).0;
      if kept == Selection(prev).0 {
        if kept != [] {
          assert Subsequence(kept, prev);
        }
      } else {
        assert kept[..|kept| - 1] == Selection(prev).0;
      }
    }
  }

  /** What is emitted after a prefix of the input starts what is emitted
      after the whole of it. */
  lemma {:induction false} SelectionPrefix(students: seq<Record>, i: nat)
    requires i <= |students|
    ensures |Selection(students[..i]).0| <= |Selection(students).0|
    ensures Selection(students).0[..|Selection(students[..i]).0|] == Selection(students[..i]).0
    decreases |students| - i
  {
    if i < |students| {
      var prev := students[..|students| - 1];
      assert prev[..i] == students[..i];
      SelectionPrefix(prev, i);
    } else {
      assert students[..i] == students;
    }
  }

  /** The first record with an `Id` is always emitted. */
  lemma FirstWithIdEmitted(students: seq<Record>)
    requires students != [] && Get(students[0], "Id") != JNull
    ensures Selection(students).0 != [] && Selection(students).0[0] == students[0]
  {
    SelectionPrefix(students, 1);
    assert students[..1][..0] == [];
  }

  function NameOf(s: Record): Value {
    Or(Or(Get(s, "Name"), Get(s, "PersonalName")), JStr(""))
  }

  function PathNameOf(s: Record): Value {
    Or(Or(Get(s, "PathName"), Get(s, "DevName")), JStr(""))
  }

  /** The row an emitted record becomes, None when `make_email` raises. */
  function RowOf(s: Record): (r: Option<Row>)
    ensures r.None? <==> MakeEmail(PathNameOf(s), Get(s, "School")).None?
    ensures r.Some? ==> r.value.credits == 0 && r.value.studentId == IdOf(Get(s, "Id"))
  {
    var email := MakeEmail(PathNameOf(s), Get(s, "School"));
    if email.None? then None
    else Some(Row(IdOf(Get(s, "Id")), NameOf(s), email.value, 0))
  }

  /** `[f(x) for x in xs]` where `f` may raise: the results in order, or
      None as soon as one call raises. */
  function MapAll<A, B>(xs: seq<A>, f: A -> Option<B>): Option<seq<B>>
    decreases |xs|
  {
    if xs == [] then Some([])
    else
      var done := MapAll(xs[..|xs| - 1], f);
      var last := f(xs[|xs| - 1]);
      if done.None? || last.None? then None else Some(done.value + [last.value])
  }

  /** The rows of the emitted records, in order; None as soon as one of
      them raises. */
  function RowsOf(kept: seq<Record>): Option<seq<Row>> {
    MapAll(kept, RowOf)
  }

  /** There are results exactly when no call raises. */
  lemma {:induction false} MapAllEach<A, B>(xs: seq<A>, f: A -> Option<B>)
    ensures MapAll(xs, f).Some? <==> forall k :: 0 <= k < |xs| ==> f(xs[k]).Some?
    decreases |xs|
  {
    if xs != [] {
      var prev := xs[..|xs| - 1];
      MapAllEach(prev, f);
      if forall k :: 0 <= k < |xs| ==> f(xs[k]).Some? {
        forall k | 0 <= k < |prev| ensures f(prev[k]).Some? {
          assert prev[k] == xs[k];
        }
      }
      if MapAll(xs, f).Some? {
        forall k | 0 <= k < |xs| ensures f(xs[k]).Some? {
          if k < |prev| {
            assert prev[k] == xs[k];
          }
        }
      }
    }
  }

  /** The results are the calls' results, one each, in order. */
  lemma {:induction false} MapAllInOrder<A, B>(xs: seq<A>, f: A -> Option<B>)
    requires MapAll(xs, f).Some?
    ensures |MapAll(xs, f).value| == |xs|
    ensures forall k :: 0 <= k < |xs| ==> f(xs[k]) == Some(MapAll(xs, f).value[k])
    decreases |xs|
  {
    if xs != [] {
      var prev := xs[..|xs| - 1];
      MapAllInOrder(prev, f);
      assert forall k :: 0 <= k < |prev| ==> prev[k] == xs[k];
    }
  }

  /** A call that raises on a prefix makes the whole map raise. */
  lemma MapAllExtends<A, B>(xs: seq<A>, n: nat, f: A -> Option<B>)
    requires n <= |xs| && MapAll(xs[..n], f).None?
    ensures MapAll(xs, f).None?
  {
    MapAllEach(xs[..n], f);
    MapAllEach(xs, f);
    var k :| 0 <= k < n && f(xs[..n][k]).None?;
    assert xs[..n][k] == xs[k];
  }

  lemma MapAllSnoc<A, B>(xs: seq<A>, x: A, f: A -> Option<B>)
    ensures MapAll(xs + [x], f) ==
      if MapAll(xs, f).None? || f(x).None? then None else Some(MapAll(xs, f).value + [f(x).value])
  {
    assert (xs + [x])[..|xs|] == xs;
  }

  /** One more record either is skipped or is emitted and contributes its
      alternates. */
  lemma SelectionStep(students: seq<Record>, i: nat)
    requires i < |students|
    ensures var prev := Selection(students[..i]);
      Selection(students[..i + 1]) ==
        if Skipped(students[i], prev.1) then prev
        else (prev.0 + [students[i]], prev.1 + AltIds(Get(students[i], "FavorAlts")))
  {
    assert students[..i + 1][..i] == students[..i];
  }

  /** An `Id` that `int()` refuses and that cannot be hashed: the test
      `sid_int in ignore_ids` raises `TypeError` on it. */
  predicate UnhashableId(s: Record) {
    Get(s, "Id").JList? || Get(s, "Id").JObject?
  }

  lemma HashableStep(students: seq<Record>, i: nat)
    requires i < |students| && !UnhashableId(students[i])
    requires forall k :: 0 <= k < i ==> !UnhashableId(students[k])
    ensures forall k :: 0 <= k < i + 1 ==> !UnhashableId(students[k])
  {
  }

  /** The selection loop of `transform` (utils/transform_students.py:81-118):
      the rows written to the CSV; None when some record's `Id` is a list
      or an object, or when a record's e-mail parts raise. */
  method Transform(students: seq<Record>) returns (rows: Option<seq<Row>>)
    ensures (exists k :: 0 <= k < |students| && UnhashableId(students[k])) ==> rows.None?
    ensures (forall k :: 0 <= k < |students| ==> !UnhashableId(students[k])) ==>
      rows == RowsOf(Selection(students).0)
  {
    var ignore: set<int> := {};
    var out: seq<Row> := [];
    var i := 0;
    while i < |students|
      invariant 0 <= i <= |students|
      invariant ignore == Selection(students[..i]).1
      invariant RowsOf(Selection(students[..i]).0) == Some(out)
      invariant forall k :: 0 <= k < i ==> !UnhashableId(students[k])
    {
      var s := students[i];
      SelectionStep(students, i);
      var sid := Get(s, "Id");
      if !sid.JList? && !sid.JObject? {
        HashableStep(students, i);
      }
      if sid != JNull {
        var sidInt := IdOf(sid);
        // `int()` refuses a list or an object, so `sid_int` is the value
        // itself, and the membership test cannot hash it.
        if sid.JList? || sid.JObject? {
          return None;
        }
        if !(sidInt.IntId? && sidInt.n in ignore) {
          var name := NameOf(s);
          var pathname := PathNameOf(s);
          var school := Get(s, "School");
          var email := MakeEmail(pathname, school);
          ghost var kept := Selection(students[..i]).0;
          MapAllSnoc(kept, s, RowOf);
          if email.None? {
            SelectionPrefix(students, i + 1);
            MapAllExtends(Selection(students).0, |kept| + 1, RowOf);
            return None;
          }
          assert RowOf(s) == Some(Row(sidInt, name, email.value, 0));
          assert Selection(students[..i + 1]).0 == kept + [s];
          out := out + [Row(sidInt, name, email.value, 0)];
          ignore := AddAlts(ignore, Get(s, "FavorAlts"));
        } else {
          assert Selection(students[..i + 1]) == Selection(students[..i]);
        }
      } else {
        assert Selection(students[..i + 1]) == Selection(students[..i]);
      }
      i := i + 1;
    }
    assert students[..i] == students;
    rows := Some(out);
  }

  // Two records that list each other as alternates.

  const First: Record := map["Id" := JInt(1), "FavorAlts" := JList([JInt(2)])]
  const Second: Record := map["Id" := JStr("2"), "FavorAlts" := JList([JStr("1")])]

  /** Of two records, the second is dropped when its id converts to one
      of the first's alternates. */
  lemma SecondListedByFirst(a: Record, b: Record)
    requires Get(a, "Id") != JNull
    requires IdOf(Get(b, "Id")).IntId? && IdOf(Get(b, "Id")).n in AltIds(Get(a, "FavorAlts"))
    ensures Selection([a, b]).0 == [a]
  {
    var ss := [a, b];
    SelectionStep(ss, 0);
    assert ss[..0] == [];
    assert Selection(ss[..0]) == ([], {});
    assert !Skipped(a, {});
    assert ss[0] == a && [] + [a] == [a];
    assert {} + AltIds(Get(a, "FavorAlts")) == AltIds(Get(a, "FavorAlts"));
    assert Selection(ss[..1]) == ([a], AltIds(Get(a, "FavorAlts")));
    SelectionStep(ss, 1);
    assert ss[..2] == ss;
  }

  /** De-duplication depends on the order of the input: of two records
      that list each other, the one that comes first is kept. */
  lemma OrderDecides()
    ensures Selection([First, Second]).0 == [First]
    ensures Selection([Second, First]).0 == [Second]
  {
    MutualAlts();
    SecondListedByFirst(First, Second);
    SecondListedByFirst(Second, First);
  }

  /** `First` and `Second` list each other's ids. */
  lemma MutualAlts()
    ensures IdOf(Get(First, "Id")) == IntId(1) && IdOf(Get(Second, "Id")) == IntId(2)
    ensures AltIds(Get(First, "FavorAlts")) == {2} && AltIds(Get(Second, "FavorAlts")) == {1}
  {
    SmallDecimals();
    assert IntsOf([JInt(2)]) == {2};
    assert IntsOf([JStr("1")]) == {1};
  }

  lemma SmallDecimals()
    ensures ParseInt("1") == Some(1) && ParseInt("2") == Some(2)
  {
    ParseIntOfDecimal(1);
    assert QueryString.Itoa(1) == "1";
    ParseIntOfDecimal(2);
    assert QueryString.Itoa(2) == "2";
  }

  /** `build_ignore_set` over the same two records holds both ids, so the
      rule of the module's docstring, skipping every id in that set, would
      keep neither. */
  lemma DocumentedRuleKeepsNeither()
    ensures 1 in AllAlts([First, Second]) && 2 in AllAlts([First, Second])
  {
    MutualAlts();
  }

  /** A skipped record's alternates are not collected: the third record,
      listed only by the skipped second one, is kept. */
  lemma SkippedAltsIgnored()
    ensures var third: Record := map["Id" := JInt(3)];
      var second: Record := map["Id" := JInt(2), "FavorAlts" := JList([JInt(3)])];
      var first: Record := map["Id" := JInt(1), "FavorAlts" := JList([JInt(2)])];
      Selection([first, second, third]).0 == [first, third]
  {
    var third: Record := map["Id" := JInt(3)];
    var second: Record := map["Id" := JInt(2), "FavorAlts" := JList([JInt(3)])];
    var first: Record := map["Id" := JInt(1), "FavorAlts" := JList([JInt(2)])];
    var ss := [first, second, third];
    assert IntsOf([JInt(2)]) == {2};
    SelectionStep(ss, 0);
    assert ss[..0] == [];
    assert Selection(ss[..0]) == ([], {});
    assert !Skipped(first, {});
    assert ss[0] == first && [] + [first] == [first];
    assert {} + AltIds(Get(first, "FavorAlts")) == {2};
    assert Selection(ss[..1]) == ([first], {2});
    SelectionStep(ss, 1);
    assert Selection(ss[..2]) == ([first], {2});
    SelectionStep(ss, 2);
    assert ss[..3] == ss;
  }
}
