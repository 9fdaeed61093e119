/** Character classes and small string operations shared by the C, JavaScript
    and Python parts of the system. A C string is a `seq<char>` with one
    character per byte. */
module Text {

  /** C `isdigit`. */
  predicate IsDigit(c: char) {
    '0' <= c <= '9'
  }

  /** C `isxdigit`. */
  predicate IsHexDigit(c: char) {
    IsDigit(c) || 'a' <= c <= 'f' || 'A' <= c <= 'F'
  }

  /** C `isspace` in the default locale: space, \t, \n, \v, \f and \r. */
  predicate IsCSpace(c: char) {
    c == ' ' || c == '\t' || c == '\n' || c == '\U{0B}' || c == '\U{0C}' || c == '\r'
  }

  predicate IsAsciiUpper(c: char) {
    'A' <= c <= 'Z'
  }

  predicate IsAsciiLower(c: char) {
    'a' <= c <= 'z'
  }

  /** ASCII case mapping; every other character is left alone. */
  function ToLowerAscii(c: char): char {
    if IsAsciiUpper(c) then (c as int + 32) as char else c
  }

  function LowerAscii(s: string): (r: string)
    ensures |r| == |s|
    ensures forall i :: 0 <= i < |s| ==> r[i] == ToLowerAscii(s[i])
  {
    seq(|s|, i requires 0 <= i < |s| => ToLowerAscii(s[i]))
  }

  predicate StartsWith(s: string, prefix: string) {
    |prefix| <= |s| && s[..|prefix|] == prefix
  }

  /** `sub` occurs in `s` starting at index `i`. */
  predicate OccursAt(s: string, sub: string, i: int) {
    0 <= i <= |s| - |sub| && s[i..i + |sub|] == sub
  }

  /** `strstr(s, sub) != NULL`, and JavaScript `s.includes(sub)`. */
  predicate Contains(s: string, sub: string) {
    exists i | 0 <= i <= |s| - |sub| :: OccursAt(s, sub, i)
  }

  /** The C string a byte buffer denotes: everything before the first NUL. */
  function CString(s: string): (r: string)
    ensures '\0' !in r
    ensures StartsWith(s, r)
    ensures |r| < |s| ==> s[|r|] == '\0'
  {
    if s == [] then []
    else if s[0] == '\0' then []
    else [s[0]] + CString(s[1..])
  }

  lemma {:induction false} CStringOfNulFree(s: string)
    requires '\0' !in s
    ensures CString(s) == s
  {
    if s != [] {
      CStringOfNulFree(s[1..]);
    }
  }

  /** A witness for `Contains`: `sub` occurs in `s` at index `i`. */
  lemma ContainsAt(s: string, sub: string, i: int)
    requires OccursAt(s, sub, i)
    ensures Contains(s, sub)
  {
  }

  /** JavaScript's `String.prototype.trim` white space: the ASCII controls
      \t, \n, \v, \f, \r, the space, the no-break and byte-order marks,
      the line and paragraph separators and the other space separators. */
  predicate IsJsSpace(c: char) {
    IsCSpace(c) || c == '\U{00A0}' || c == '\U{FEFF}' || c == '\U{1680}'
    || ('\U{2000}' <= c <= '\U{200A}') || c == '\U{2028}' || c == '\U{2029}'
    || c == '\U{202F}' || c == '\U{205F}' || c == '\U{3000}'
  }

  /** The number of leading characters of `s` that are white space. */
  function LeadingSpace(s: string, ws: char -> bool): (n: nat)
    ensures n <= |s|
    ensures forall k :: 0 <= k < n ==> ws(s[k])
    ensures n < |s| ==> !ws(s[n])
  {
    if s == [] || !ws(s[0]) then 0 else 1 + LeadingSpace(s[1..], ws)
  }

  /** The number of trailing characters of `s` that are white space. */
  function TrailingSpace(s: string, ws: char -> bool): (n: nat)
    ensures n <= |s|
    ensures forall k :: |s| - n <= k < |s| ==> ws(s[k])
    ensures n < |s| ==> !ws(s[|s| - n - 1])
  {
    if s == [] || !ws(s[|s| - 1]) then 0 else 1 + TrailingSpace(s[..|s| - 1], ws)
  }

  /** `s` without white space at either end, for the white space `ws`. */
  function Trim(s: string, ws: char -> bool): (r: string)
    ensures |r| <= |s|
    ensures r != [] ==> !ws(r[0]) && !ws(r[|r| - 1])
  {
    var a := LeadingSpace(s, ws);
    var t := s[a..];
    var b := TrailingSpace(t, ws);
    t[..|t| - b]
  }

  /** What trimming removes is white space at the two ends: the result is
      the slice between them. */
  lemma TrimSlice(s: string, ws: char -> bool)
    ensures exists i, j :: 0 <= i <= j <= |s| && Trim(s, ws) == s[i..j]
                           && (forall k :: 0 <= k < i ==> ws(s[k]))
                           && (forall k :: j <= k < |s| ==> ws(s[k]))
  {
    var a := LeadingSpace(s, ws);
    var t := s[a..];
    var b := TrailingSpace(t, ws);
    assert t[..|t| - b] == s[a..a + |t| - b];
    forall k | a + |t| - b <= k < |s| ensures ws(s[k]) {
      assert s[k] == t[k - a];
    }
  }

  /** Trimming keeps only characters of the original. */
  lemma TrimChars(s: string, ws: char -> bool)
    ensures forall c :: c in Trim(s, ws) ==> c in s
  {
    var a := LeadingSpace(s, ws);
    var t := s[a..];
    var r := t[..|t| - TrailingSpace(t, ws)];
    forall c | c in r ensures c in s {
      var k :| 0 <= k < |r| && r[k] == c;
      assert s[a + k] == c;
    }
  }

  /** Trimming a string with no white space at its ends changes nothing;
      in particular trimming twice is trimming once. */
  lemma TrimOfTrimmed(s: string, ws: char -> bool)
    requires s != [] ==> !ws(s[0]) && !ws(s[|s| - 1])
    ensures Trim(s, ws) == s
  {
    assert LeadingSpace(s, ws) == 0;
    assert TrailingSpace(s, ws) == 0;
  }

  lemma TrimIdempotent(s: string, ws: char -> bool)
    ensures Trim(Trim(s, ws), ws) == Trim(s, ws)
  {
    TrimOfTrimmed(Trim(s, ws), ws);
  }

  /** A string of white space trims to nothing. */
  lemma TrimOfSpace(s: string, ws: char -> bool)
    requires forall k :: 0 <= k < |s| ==> ws(s[k])
    ensures Trim(s, ws) == []
  {
  }

  /** The elements of `s` that satisfy `p`, in their order. */
  function Keep<T(!new)>(s: seq<T>, p: T -> bool): (r: seq<T>)
    ensures forall x :: x in r <==> x in s && p(x)
    ensures forall x :: multiset(r)[x] == if p(x) then multiset(s)[x] else 0
    ensures |r| <= |s|
  {
    if s == [] then []
    else
      assert s == [s[0]] + s[1..];
      (if p(s[0]) then [s[0]] else []) + Keep(s[1..], p)
  }

  lemma {:induction false} KeepAll<T(!new)>(s: seq<T>, p: T -> bool)
    requires forall x :: x in s ==> p(x)
    ensures Keep(s, p) == s
  {
    if s != [] {
      KeepAll(s[1..], p);
    }
  }

  lemma SeqAssoc<T>(x: seq<T>, y: seq<T>, z: seq<T>)
    ensures x + (y + z) == (x + y) + z
  {
  }

  /** Filtering a concatenation filters each part in turn, so the kept
      elements stay in their order. */
  lemma {:induction false} KeepAppend<T(!new)>(a: seq<T>, b: seq<T>, p: T -> bool)
    ensures Keep(a + b, p) == Keep(a, p) + Keep(b, p)
  {
    if a == [] {
      assert a + b == b;
    } else {
      var head := if p(a[0]) then [a[0]] else [];
      assert (a + b)[0] == a[0];
      assert (a + b)[1..] == a[1..] + b;
      KeepAppend(a[1..], b, p);
      calc {
        Keep(a + b, p);
        head + Keep(a[1..] + b, p);
        head + (Keep(a[1..], p) + Keep(b, p));
        { SeqAssoc(head, Keep(a[1..], p), Keep(b, p)); }
        (head + Keep(a[1..], p)) + Keep(b, p);
        Keep(a, p) + Keep(b, p);
      }
    }
  }
}
