/** The behaviour of the embedded SQL engine that the store relies on: the
    order a table scan visits rows in, how ORDER BY compares column values,
    and which rows LIMIT and OFFSET keep. The engine itself is not part of
    this model; these definitions fix what the store's queries mean. */
module Engine {

  /** A column value as ORDER BY sees it. NULL sorts before every number and
      every number before every text value. */
  datatype SortKey = KNull | KNum(x: real) | KText(s: string)

  /** Byte-wise comparison of text (the BINARY collation). */
  predicate TextLe(a: string, b: string)
    decreases |a|
  {
    if a == [] then true
    else if b == [] then false
    else if a[0] != b[0] then a[0] < b[0]
    else TextLe(a[1..], b[1..])
  }

  predicate KeyLe(a: SortKey, b: SortKey) {
    match (a, b)
    case (KNull, _) => true
    case (_, KNull) => false
    case (KNum(x), KNum(y)) => x <= y
    case (KNum(_), KText(_)) => true
    case (KText(_), KNum(_)) => false
    case (KText(s), KText(t)) => TextLe(s, t)
  }

  /** `a` may come before `b` in an ORDER BY of direction `desc`. */
  predicate Before(a: SortKey, b: SortKey, desc: bool) {
    if desc then KeyLe(b, a) else KeyLe(a, b)
  }

  lemma {:induction false} TextLeTotal(a: string, b: string)
    ensures TextLe(a, b) || TextLe(b, a)
    decreases |a|
  {
    if a != [] && b != [] && a[0] == b[0] {
      TextLeTotal(a[1..], b[1..]);
    }
  }

  lemma {:induction false} TextLeTrans(a: string, b: string, c: string)
    requires TextLe(a, b) && TextLe(b, c)
    ensures TextLe(a, c)
    decreases |a|
  {
    if a != [] && b != [] && c != [] && a[0] == b[0] && b[0] == c[0] {
      TextLeTrans(a[1..], b[1..], c[1..]);
    }
  }

  lemma {:induction false} TextLeAntisym(a: string, b: string)
    requires TextLe(a, b) && TextLe(b, a)
    ensures a == b
    decreases |a|
  {
    if a != [] {
      TextLeAntisym(a[1..], b[1..]);
      assert a == [a[0]] + a[1..];
      assert b == [b[0]] + b[1..];
    }
  }

  lemma BeforeTotal(a: SortKey, b: SortKey, desc: bool)
    ensures Before(a, b, desc) || Before(b, a, desc)
  {
    if a.KText? && b.KText? {
      TextLeTotal(a.s, b.s);
    }
  }

  lemma BeforeTrans(a: SortKey, b: SortKey, c: SortKey, desc: bool)
    requires Before(a, b, desc) && Before(b, c, desc)
    ensures Before(a, c, desc)
  {
    if a.KText? && b.KText? && c.KText? {
      if desc {
        TextLeTrans(c.s, b.s, a.s);
      } else {
        TextLeTrans(a.s, b.s, c.s);
      }
    }
  }

  lemma BeforeAntisym(a: SortKey, b: SortKey, desc: bool)
    requires Before(a, b, desc) && Before(b, a, desc)
    ensures a == b
  {
    if a.KText? && b.KText? {
      TextLeAntisym(a.s, b.s);
    }
  }

  /** Every pair of rows is in ORDER BY order. */
  ghost predicate SortedBy<T>(s: seq<T>, key: T -> SortKey, desc: bool) {
    forall i, j :: 0 <= i < j < |s| ==> Before(key(s[i]), key(s[j]), desc)
  }

  /** Sorted, and no two rows share a sort key. */
  ghost predicate StrictlySortedBy<T>(s: seq<T>, key: T -> SortKey, desc: bool) {
    forall i, j :: 0 <= i < j < |s| ==> Before(key(s[i]), key(s[j]), desc) && key(s[i]) != key(s[j])
  }

  /** Place `x` before the first row it may precede. Rows that tie with `x`
      and came later stay after it. */
  function Insert<T>(x: T, s: seq<T>, key: T -> SortKey, desc: bool): (r: seq<T>)
    ensures multiset(r) == multiset(s) + multiset{x}
    ensures |r| == |s| + 1
  {
    if s == [] then [x]
    else if Before(key(x), key(s[0]), desc) then [x] + s
    else
      assert s == [s[0]] + s[1..];
      [s[0]] + Insert(x, s[1..], key, desc)
  }

  /** One sort the engine may perform for ORDER BY (an insertion sort). */
  function SortBy<T>(s: seq<T>, key: T -> SortKey, desc: bool): (r: seq<T>)
    ensures multiset(r) == multiset(s)
    ensures |r| == |s|
  {
    if s == [] then []
    else
      assert s == [s[0]] + s[1..];
      Insert(s[0], SortBy(s[1..], key, desc), key, desc)
  }

  lemma {:induction false} InsertSorted<T>(x: T, s: seq<T>, key: T -> SortKey, desc: bool)
    requires SortedBy(s, key, desc)
    ensures SortedBy(Insert(x, s, key, desc), key, desc)
  {
    var r := Insert(x, s, key, desc);
    if s == [] {
    } else if Before(key(x), key(s[0]), desc) {
      forall i, j | 0 <= i < j < |r| ensures Before(key(r[i]), key(r[j]), desc) {
        if i == 0 && j > 1 {
          BeforeTrans(key(x), key(s[0]), key(s[j - 1]), desc);
        }
      }
    } else {
      BeforeTotal(key(x), key(s[0]), desc);
      var tail := Insert(x, s[1..], key, desc);
      InsertSorted(x, s[1..], key, desc);
      forall j | 0 <= j < |tail| ensures Before(key(s[0]), key(tail[j]), desc) {
        assert tail[j] in multiset(tail);
        assert tail[j] == x || tail[j] in multiset(s[1..]);
        if tail[j] != x {
          var k :| 0 <= k < |s[1..]| && s[1..][k] == tail[j];
          assert s[k + 1] == tail[j];
        }
      }
      assert r == [s[0]] + tail;
    }
  }

  /** ORDER BY yields the rows it was given, in order. */
  lemma {:induction false} SortBySorted<T>(s: seq<T>, key: T -> SortKey, desc: bool)
    ensures SortedBy(SortBy(s, key, desc), key, desc)
  {
    if s != [] {
      SortBySorted(s[1..], key, desc);
      InsertSorted(s[0], SortBy(s[1..], key, desc), key, desc);
    }
  }

  /** Two orderings of the same rows that are both strictly sorted are the
      same sequence: with distinct keys the order is fully determined. */
  lemma {:induction false} StrictlySortedUnique<T>(s: seq<T>, t: seq<T>, key: T -> SortKey, desc: bool)
    requires StrictlySortedBy(s, key, desc) && StrictlySortedBy(t, key, desc)
    requires forall x :: x in s <==> x in t
    ensures s == t
  {
    if t != [] { assert t[0] in s; }
    if s != [] { assert s[0] in t; }
    if s != [] {
      assert s[0] in t;
      assert t != [];
      if s[0] != t[0] {
        assert t[0] in s;
        var k :| 0 <= k < |s| && s[k] == t[0];
        var m :| 0 <= m < |t| && t[m] == s[0];
        assert k > 0 && m > 0;
        BeforeAntisym(key(s[0]), key(t[0]), desc);
        assert false;
      }
      assert s == [s[0]] + s[1..];
      assert t == [t[0]] + t[1..];
      forall x ensures x in s[1..] <==> x in t[1..] {
        if x in s[1..] {
          var k :| 1 <= k < |s| && s[k] == x;
          assert key(s[0]) != key(s[k]);
          assert x in t;
          var m :| 0 <= m < |t| && t[m] == x;
          assert m != 0;
          assert t[1..][m - 1] == x;
        }
        if x in t[1..] {
          var k :| 1 <= k < |t| && t[k] == x;
          assert key(t[0]) != key(t[k]);
          assert x in s;
          var m :| 0 <= m < |s| && s[m] == x;
          assert m != 0;
          assert s[1..][m - 1] == x;
        }
      }
      StrictlySortedUnique(s[1..], t[1..], key, desc);
    }
  }

  /** The rows LIMIT `limit` OFFSET `offset` keeps: a negative limit keeps
      everything, an offset that is not positive skips nothing. */
  function SqlWindow<T>(rows: seq<T>, limit: int, offset: int): (r: seq<T>)
    ensures 0 <= limit ==> |r| <= limit
    ensures |r| <= |rows|
  {
    var skip := if offset <= 0 then 0 else if offset < |rows| then offset else |rows|;
    var rest := rows[skip..];
    if 0 <= limit < |rest| then rest[..limit] else rest
  }

  ghost predicate Distinct<T>(s: seq<T>) {
    forall i, j :: 0 <= i < j < |s| ==> s[i] != s[j]
  }

  /** `s` lists every element of `elems` exactly once. */
  ghost predicate Enumerates<T(!new)>(s: seq<T>, elems: set<T>) {
    Distinct(s) && forall x :: x in s <==> x in elems
  }

  /** A full table scan: every row once, in an order the engine chooses. */
  method Scan<T(==,!new)>(table: set<T>) returns (rows: seq<T>)
    ensures Enumerates(rows, table)
  {
    rows := [];
    var rest := table;
    while rest != {}
      invariant Distinct(rows)
      invariant forall x :: x in rows ==> x in table && x !in rest
      invariant forall x :: x in table ==> x in rows || x in rest
      invariant rest <= table
      decreases rest
    {
      var x :| x in rest;
      rows := rows + [x];
      rest := rest - {x};
    }
  }
}
