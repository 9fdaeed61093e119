/** The terminal client of cli/main.c: the in-place `trim` of the input
    buffers, the course-list pager and the empty-id check before a student's
    enrollments are requested. A buffer is an `array<char>` holding a C
    string: the characters before its first NUL. */
module Cli {
  import opened Wrappers
  import opened Text
  import WebApp
  import Router

  /** The buffer after `trim`: the trimmed string, then NULs up to where
      the shifted string's terminator landed, then the old bytes, which
      neither the shift nor the NUL writes reach. */
  function TrimmedBuffer(b: seq<char>): (r: seq<char>)
    requires '\0' in b
    ensures |r| == |b|
  {
    var str := CString(b);
    var lead := LeadingSpace(str, IsCSpace);
    var t := Trim(str, IsCSpace);
    seq(|b|, k requires 0 <= k < |b| =>
      if k < |t| then t[k] else if k <= |str| - lead then '\0' else b[k])
  }

  /** A buffer holding a NUL holds its C string strictly before its end. */
  lemma CStringWithin(b: seq<char>)
    requires '\0' in b
    ensures |CString(b)| < |b|
  {
    var r := CString(b);
    var j :| 0 <= j < |b| && b[j] == '\0';
    assert forall k :: 0 <= k < |r| ==> b[k] == r[k] && r[k] in r;
  }

  /** The C string of a buffer is whatever precedes the first NUL. */
  lemma {:induction false} CStringOfTerminated(b: seq<char>, t: string)
    requires '\0' !in t && |t| < |b| && b[..|t|] == t && b[|t|] == '\0'
    ensures CString(b) == t
    decreases |t|
  {
    if t != [] {
      assert b[0] == t[0];
      assert b[1..][..|t| - 1] == t[1..];
      CStringOfTerminated(b[1..], t[1..]);
    }
  }

  /** `LeadingSpace` is the only count of white space followed by a
      character that is not. */
  lemma {:induction false} LeadingSpaceUnique(s: string, ws: char -> bool, n: nat)
    requires n <= |s| && (forall k :: 0 <= k < n ==> ws(s[k])) && (n < |s| ==> !ws(s[n]))
    ensures LeadingSpace(s, ws) == n
    decreases n
  {
    if n > 0 {
      LeadingSpaceUnique(s[1..], ws, n - 1);
    }
  }

  lemma {:induction false} TrailingSpaceUnique(s: string, ws: char -> bool, n: nat)
    requires n <= |s| && (forall k :: |s| - n <= k < |s| ==> ws(s[k])) && (n < |s| ==> !ws(s[|s| - n - 1]))
    ensures TrailingSpace(s, ws) == n
    decreases n
  {
    if n > 0 {
      var s' := s[..|s| - 1];
      assert forall k :: |s'| - (n - 1) <= k < |s'| ==> s'[k] == s[k];
      TrailingSpaceUnique(s', ws, n - 1);
    }
  }

  /** `strlen(s + from)`: the distance from `from` to the next NUL. */
  method StrLen(s: array<char>, from: nat) returns (n: nat)
    requires exists k :: from <= k < s.Length && s[k] == '\0'
    ensures from + n < s.Length && s[from + n] == '\0'
    ensures forall k :: from <= k < from + n ==> s[k] != '\0'
  {
    n := 0;
    while s[from + n] != '\0'
      invariant from + n < s.Length
      invariant forall k :: from <= k < from + n ==> s[k] != '\0'
      invariant exists k :: from + n <= k < s.Length && s[k] == '\0'
      decreases s.Length - from - n
    {
      n := n + 1;
    }
  }

  /** `memmove(s, s + from, count)`: the `count` characters at `from` are
      copied to the start of the buffer, front to back. */
  method MemMove(s: array<char>, from: nat, count: nat)
    modifies s
    requires from + count <= s.Length
    ensures forall k :: 0 <= k < count ==> s[k] == old(s[from + k])
    ensures forall k :: count <= k < s.Length ==> s[k] == old(s[k])
  {
    var i := 0;
    while i < count
      invariant 0 <= i <= count
      invariant forall k :: 0 <= k < i ==> s[k] == old(s[from + k])
      invariant forall k :: i <= k < s.Length ==> s[k] == old(s[k])
    {
      s[i] := s[from + i];
      i := i + 1;
    }
  }

  /** The buffer after the string from `p` on, with its terminator, is
      moved to the front. */
  ghost function Shifted(b: seq<char>, p: nat): (r: seq<char>)
    requires '\0' in b && p <= |CString(b)|
  {
    seq(|b|, k requires 0 <= k < |b| => if k + p <= |CString(b)| then b[k + p] else b[k])
  }

  lemma ShiftedString(b: seq<char>, p: nat)
    requires '\0' in b && p <= |CString(b)|
    ensures var u := CString(b)[p..];
      && |u| < |b|
      && (forall k :: 0 <= k < |u| ==> Shifted(b, p)[k] == u[k])
      && Shifted(b, p)[|u|] == '\0'
      && (forall k :: |u| < k < |b| ==> Shifted(b, p)[k] == b[k])
  {
    CStringWithin(b);
  }

  /** `trim` (cli/main.c:78-87): a NULL buffer is left alone; otherwise the
      string is shifted left over its leading white space and its trailing
      white space is overwritten with NULs. */
  method TrimInPlace(s: array?<char>)
    modifies s
    requires s != null ==> '\0' in s[..]
    ensures s != null ==> s[..] == TrimmedBuffer(old(s[..]))
  {
    if s == null {
      return;
    }
    ghost var b := s[..];
    var p := TrimLeading(s);
    ShiftedString(b, p);
    var n := TrimTrailing(s, CString(b)[p..]);
    TrimmedBufferShape(b);
    assert s[..] == TrimmedBuffer(b);
  }

  /** The first half of `trim` (cli/main.c:81-83): the string is moved
      to the front of the buffer over its `p` leading white-space characters. */
  method TrimLeading(s: array<char>) returns (p: nat)
    modifies s
    requires '\0' in s[..]
    ensures p == LeadingSpace(CString(old(s[..])), IsCSpace)
    ensures s[..] == Shifted(old(s[..]), p)
  {
    ghost var b := s[..];
    ghost var str := CString(b);
    CStringWithin(b);
    assert b[..|str|] == str;
    // Skip the leading white space.
    p := 0;
    while s[p] != '\0' && IsCSpace(s[p])
      invariant 0 <= p <= |str|
      invariant forall k :: 0 <= k < p ==> IsCSpace(str[k])
      decreases |str| - p
    {
      assert s[p] == str[p];
      p := p + 1;
    }
    assert p < |str| ==> s[p] == str[p];
    LeadingSpaceUnique(str, IsCSpace, p);
    if p != 0 {
      // memmove(s, s + p, strlen(s + p) + 1)
      var m := StrLen(s, p);
      assert p + m == |str| by {
        assert s[|str|] == '\0';
        assert forall k :: p <= k < |str| ==> s[k] == str[k] && str[k] in str;
      }
      MemMove(s, p, m + 1);
      assert s[..] == Shifted(b, p);
    } else {
      assert s[..] == Shifted(b, 0);
    }
  }

  /** The buffer after `trim`, position by position, in terms of the
      string after its leading white space. */
  lemma TrimmedBufferShape(b: seq<char>)
    requires '\0' in b
    ensures var str := CString(b);
      var u := str[LeadingSpace(str, IsCSpace)..];
      var n := |u| - TrailingSpace(u, IsCSpace);
      forall k :: 0 <= k < |b| ==> TrimmedBuffer(b)[k] == if k < n then u[k] else if k <= |u| then '\0' else b[k]
  {
  }

  /** The second half of `trim` (cli/main.c:85-86): the string `u` the
      buffer holds loses its trailing white space to NULs. */
  method TrimTrailing(s: array<char>, ghost u: string) returns (n: nat)
    modifies s
    requires '\0' !in u && |u| < s.Length
    requires forall k :: 0 <= k < |u| ==> s[k] == u[k]
    requires s[|u|] == '\0'
    ensures n == |u| - TrailingSpace(u, IsCSpace)
    ensures forall k :: 0 <= k < n ==> s[k] == u[k]
    ensures forall k :: n <= k <= |u| ==> s[k] == '\0'
    ensures forall k :: |u| < k < s.Length ==> s[k] == old(s[k])
  {
    n := StrLen(s, 0);
    assert n == |u| by {
      assert forall k :: 0 <= k < |u| ==> s[k] == u[k] && u[k] in u;
    }
    while n > 0 && IsCSpace(s[n - 1])
      invariant 0 <= n <= |u|
      invariant forall k :: 0 <= k < n ==> s[k] == u[k]
      invariant forall k :: n <= k <= |u| ==> s[k] == '\0'
      invariant forall k :: |u| < k < s.Length ==> s[k] == old(s[k])
      invariant forall k :: n <= k < |u| ==> IsCSpace(u[k])
    {
      n := n - 1;
      s[n] := '\0';
    }
    TrailingSpaceUnique(u, IsCSpace, |u| - n);
  }

  /** The string the buffer holds after `trim` is the trimmed string. */
  lemma TrimmedString(b: seq<char>)
    requires '\0' in b
    ensures '\0' in TrimmedBuffer(b)
    ensures CString(TrimmedBuffer(b)) == Trim(CString(b), IsCSpace)
  {
    var str := CString(b);
    var t := Trim(str, IsCSpace);
    var r := TrimmedBuffer(b);
    CStringWithin(b);
    TrimChars(str, IsCSpace);
    assert r[|t|] == '\0';
    assert r[..|t|] == t;
    CStringOfTerminated(r, t);
  }

  /** What is left is one contiguous piece of the old string with white
      space only outside it. */
  lemma TrimmedIsSlice(b: seq<char>)
    requires '\0' in b
    ensures '\0' in TrimmedBuffer(b)
    ensures exists i, j :: 0 <= i <= j <= |CString(b)|
                           && CString(TrimmedBuffer(b)) == CString(b)[i..j]
                           && (forall k :: 0 <= k < i ==> IsCSpace(CString(b)[k]))
                           && (forall k :: j <= k < |CString(b)| ==> IsCSpace(CString(b)[k]))
  {
    TrimmedString(b);
    TrimSlice(CString(b), IsCSpace);
  }

  /** A second `trim` leaves the buffer exactly as the first left it. */
  lemma TrimTwice(b: seq<char>)
    requires '\0' in b
    ensures '\0' in TrimmedBuffer(b)
    ensures TrimmedBuffer(TrimmedBuffer(b)) == TrimmedBuffer(b)
  {
    var str := CString(b);
    var t := Trim(str, IsCSpace);
    var r := TrimmedBuffer(b);
    TrimmedString(b);
    TrimOfTrimmed(t, IsCSpace);
    LeadingSpaceUnique(t, IsCSpace, 0);
    var r2 := TrimmedBuffer(r);
    forall k | 0 <= k < |b| ensures r2[k] == r[k] {
    }
  }

  /** Rows per screen of the course list. */
  const PerPage: nat := 5

  /** The rows of `items` the screen for `page` lists: from `page * 5`
      while fewer than five are shown and rows remain. */
  function Screen<T>(items: seq<T>, page: nat): (rows: seq<T>)
    ensures |rows| == if page * PerPage >= |items| then 0
                      else if |items| - page * PerPage < PerPage then |items| - page * PerPage
                      else PerPage
    ensures forall i :: 0 <= i < |rows| ==> page * PerPage + i < |items| && rows[i] == items[page * PerPage + i]
  {
    var start := page * PerPage;
    if start >= |items| then [] else items[start..if start + PerPage < |items| then start + PerPage else |items|]
  }

  /** The drawing loop of the pager screen (cli/main.c:209-218). */
  method DrawScreen<T>(items: seq<T>, page: nat) returns (rows: seq<T>)
    ensures rows == Screen(items, page)
  {
    var start := page * PerPage;
    rows := [];
    var i := 0;
    while i < PerPage && start + i < |items|
      invariant 0 <= i <= PerPage
      invariant |rows| == i
      invariant start + i <= |items| || i == 0
      invariant forall j :: 0 <= j < i ==> start + j < |items| && rows[j] == items[start + j]
    {
      rows := rows + [items[start + i]];
      i := i + 1;
    }
    assert |rows| == |Screen(items, page)|;
  }

  /** Row `i` of the list is listed on exactly one screen, `i / 5`. */
  lemma ItemScreen<T>(items: seq<T>, i: nat, page: nat)
    requires i < |items|
    ensures items[i] in Screen(items, i / PerPage)
    ensures page * PerPage <= i < page * PerPage + |Screen(items, page)| <==> page == i / PerPage
  {
    var rows := Screen(items, i / PerPage);
    assert rows[i - i / PerPage * PerPage] == items[i];
  }

  /** The course-list pager: the page shown, whether the user has left it,
      and the number of courses fetched. */
  class Pager {
    var page: nat
    var done: bool
    const total: nat

    constructor (total: nat)
      ensures this.total == total && page == 0 && !done
    {
      this.total := total;
      page := 0;
      done := false;
    }

    /** The page shown lists at least one course, unless there are none. */
    predicate Valid()
      reads this
    {
      page == 0 || page * PerPage < total
    }

    /** The title's "Page a/b" (cli/main.c:207). */
    function Title(): (r: (nat, nat))
      reads this
      ensures Valid() && total > 0 ==> 1 <= r.0 <= r.1
      ensures r.1 * PerPage >= total && (r.1 > 0 ==> (r.1 - 1) * PerPage < total)
    {
      (page + 1, WebApp.CeilDiv(total, PerPage))
    }

    /** One key at the pager (cli/main.c:223-226). */
    method Press(k: char)
      modifies this
      requires !done
      ensures k == 'n' && old(page) * PerPage + PerPage < total ==> page == old(page) + 1 && !done
      ensures k == 'p' && old(page) > 0 ==> page == old(page) - 1 && !done
      ensures !(k == 'n' && old(page) * PerPage + PerPage < total) && !(k == 'p' && old(page) > 0)
              ==> page == old(page) && done
      ensures old(Valid()) ==> Valid()
    {
      var start := page * PerPage;
      if k == 'n' && start + PerPage < total {
        page := page + 1;
      } else if k == 'p' && page > 0 {
        page := page - 1;
      } else {
        done := true;
      }
    }

    /** The pager loop (cli/main.c:203-227) over the keys typed: it reads
        keys until one leaves the list, or the keys run out. */
    method Browse(keys: seq<char>) returns (used: nat)
      modifies this
      requires !done
      ensures used <= |keys|
      ensures page == PageAfter(total, old(page), keys[..used])
      ensures done <==> used > 0 && !Moves(total, PageAfter(total, old(page), keys[..used - 1]), keys[used - 1])
      ensures !done ==> used == |keys|
      ensures old(Valid()) ==> Valid()
    {
      used := 0;
      ghost var page0 := page;
      while !done && used < |keys|
        invariant used <= |keys|
        invariant page == PageAfter(total, page0, keys[..used])
        invariant done <==> used > 0 && !Moves(total, PageAfter(total, page0, keys[..used - 1]), keys[used - 1])
        invariant old(Valid()) ==> Valid()
        decreases |keys| - used
      {
        Press(keys[used]);
        used := used + 1;
        PageAfterSnoc(total, page0, keys[..used - 1], keys[used - 1]);
        assert keys[..used][..used - 1] == keys[..used - 1];
      }
    }
  }

  /** Whether key `k` moves the pager off `page` rather than leaving it. */
  predicate Moves(total: nat, page: nat, k: char) {
    (k == 'n' && page * PerPage + PerPage < total) || (k == 'p' && page > 0)
  }

  /** The page after the moving keys of `keys`, applied in order. */
  function PageAfter(total: nat, page: nat, keys: seq<char>): nat
    decreases |keys|
  {
    if keys == [] then page
    else
      var k := keys[|keys| - 1];
      var before := PageAfter(total, page, keys[..|keys| - 1]);
      if k == 'n' && before * PerPage + PerPage < total then before + 1
      else if k == 'p' && before > 0 then before - 1
      else before
  }

  lemma PageAfterSnoc(total: nat, page: nat, keys: seq<char>, k: char)
    ensures (keys + [k])[..|keys|] == keys
    ensures PageAfter(total, page, keys + [k]) ==
      var before := PageAfter(total, page, keys);
      if k == 'n' && before * PerPage + PerPage < total then before + 1
      else if k == 'p' && before > 0 then before - 1
      else before
  {
    assert (keys + [k])[..|keys|] == keys;
  }

  /** Pressing 'n' `m` times from the first page reaches page `m` as long
      as that page still lists a course, so every course can be reached. */
  lemma {:induction false} NextReaches(total: nat, m: nat)
    requires m * PerPage < total
    ensures PageAfter(total, 0, seq(m, _ => 'n')) == m
  {
    if m > 0 {
      var keys := seq(m, _ => 'n');
      assert keys[..m - 1] == seq(m - 1, _ => 'n');
      NextReaches(total, m - 1);
    }
  }

  /** From a page that is not the last, 'n' then 'p' comes back. */
  lemma NextThenPrev(total: nat, page: nat)
    requires page * PerPage + PerPage < total
    ensures PageAfter(total, page, ['n', 'p']) == page
  {
    assert ['n', 'p'][..1] == ['n'];
    assert ['n'][..0] == [];
  }

  /** What the enrollment view does with the id typed in. */
  datatype ViewOutcome = EmptyId | Lookup(id: string)

  /** The start of option 7 (cli/main.c:343-352): the typed id is trimmed
      and, when nothing is left, refused before any request is made. */
  method ViewStudentStart(sid: array<char>) returns (r: ViewOutcome)
    modifies sid
    requires '\0' in sid[..]
    ensures r.EmptyId? <==> Trim(CString(old(sid[..])), IsCSpace) == []
    ensures r.Lookup? ==> r.id == Trim(CString(old(sid[..])), IsCSpace)
    ensures sid[..] == TrimmedBuffer(old(sid[..]))
  {
    ghost var b := sid[..];
    TrimInPlace(sid);
    TrimmedString(b);
    assert sid[..] == TrimmedBuffer(b);
    var n := StrLen(sid, 0);
    ghost var t := Trim(CString(b), IsCSpace);
    assert n == |t| by {
      TrimChars(CString(b), IsCSpace);
      assert sid[|t|] == '\0';
      assert forall k :: 0 <= k < |t| ==> sid[k] == t[k] && t[k] in t;
    }
    if n == 0 {
      return EmptyId;
    }
    r := Lookup(sid[..n]);
  }

  /** The two requests of the enrollment view, with `enc` the encoded id,
      reach the student search by id and the enrollment search by student. */
  lemma ViewRequestsRouted(enc: string)
    ensures Router.Route("GET", "/student/find", Some("student_id=" + enc)) == Router.StudentFindById
    ensures Router.Route("GET", "/enrollment", Some("student_id=" + enc)) == Router.EnrollmentFindByStudent
  {
    var qs := "student_id=" + enc;
    assert qs[0..11] == "student_id=";
    ContainsAt(qs, "student_id=", 0);
  }
}
