/** The query-string side of src/handlers.c: `hexval`, `url_decode`,
    `get_qs_param`, `atoi` as it reads `limit` and `offset`, and
    `parse_query_options`. Decoding follows application/x-www-form-urlencoded
    (section 5.1 of the WHATWG URL Standard) with percent-decoding (section
    2.1 of RFC 3986). A query string is a C string: one `char` per byte. */
module QueryString {
  import opened Wrappers
  import opened Text
  import opened DbTypes

  // Percent-decoding.

  /** `hexval`: the value of a hexadecimal digit, 0 for anything else. */
  function HexVal(c: char): (r: nat)
    ensures r < 16
    ensures IsDigit(c) ==> r == c as int - '0' as int
    ensures 'a' <= c <= 'f' ==> r == c as int - 'a' as int + 10
    ensures 'A' <= c <= 'F' ==> r == c as int - 'A' as int + 10
    ensures !IsHexDigit(c) ==> r == 0
  {
    if '0' <= c <= '9' then c as int - '0' as int
    else if 'a' <= c <= 'f' then c as int - 'a' as int + 10
    else if 'A' <= c <= 'F' then c as int - 'A' as int + 10
    else 0
  }

  /** The byte `%hl` denotes. */
  function HexPair(h: char, l: char): char {
    (HexVal(h) * 16 + HexVal(l)) as char
  }

  /** What `url_decode` produces: '+' is a space, '%' and two hexadecimal
      digits is that byte, and every other character, a '%' without two
      digits after it included, is kept. */
  function Decode(s: string): (r: string)
    ensures |r| <= |s|
    decreases |s|
  {
    if s == [] then []
    else if s[0] == '+' then " " + Decode(s[1..])
    else if s[0] == '%' && |s| > 2 && IsHexDigit(s[1]) && IsHexDigit(s[2]) then [HexPair(s[1], s[2])] + Decode(s[3..])
    else [s[0]] + Decode(s[1..])
  }

  /** `url_decode` (src/handlers.c:48-68): a read pointer `p` and a write
      pointer `dst` over a buffer one byte longer than the input; `dst`
      never passes `p`, so the buffer never overflows. */
  method UrlDecode(s: string) returns (r: string)
    ensures r == Decode(s)
  {
    var out := new char[|s| + 1];
    var dst := 0;
    var p := 0;
    while p < |s|
      invariant 0 <= dst <= p <= |s|
      invariant out[..dst] + Decode(s[p..]) == Decode(s)
    {
      ghost var before := out[..dst];
      DecodeSuffix(s, p);
      var c: char;
      var next := p + 1;
      if s[p] == '+' {
        c := ' ';
      } else if s[p] == '%' && p + 1 < |s| && IsHexDigit(s[p + 1]) && p + 2 < |s| && IsHexDigit(s[p + 2]) {
        c := HexPair(s[p + 1], s[p + 2]);
        next := p + 3;
      } else {
        c := s[p];
      }
      assert Decode(s[p..]) == [c] + Decode(s[next..]);
      out[dst] := c;
      assert out[..dst + 1] == before + [c];
      Regroup(before, c, Decode(s[next..]));
      dst := dst + 1;
      p := next;
    }
    out[dst] := '\0';
    r := out[..dst];
  }

  lemma Regroup(before: string, c: char, rest: string)
    ensures (before + [c]) + rest == before + ([c] + rest)
  {
  }

  /** One step of the decoder at position `p`. */
  lemma DecodeSuffix(s: string, p: nat)
    requires p < |s|
    ensures Decode(s[p..]) ==
      if s[p] == '+' then " " + Decode(s[p + 1..])
      else if s[p] == '%' && p + 2 < |s| && IsHexDigit(s[p + 1]) && IsHexDigit(s[p + 2]) then
        [HexPair(s[p + 1], s[p + 2])] + Decode(s[p + 3..])
      else [s[p]] + Decode(s[p + 1..])
  {
    var t := s[p..];
    assert t[1..] == s[p + 1..];
    if p + 2 < |s| {
      assert t[3..] == s[p + 3..];
    }
  }

  /** A character the encoder below leaves as it is. */
  predicate Unreserved(c: char) {
    IsDigit(c) || IsAsciiLower(c) || IsAsciiUpper(c) || c == '-' || c == '.' || c == '_' || c == '~'
  }

  function HexDigitChar(v: nat): (c: char)
    requires v < 16
    ensures IsHexDigit(c) && HexVal(c) == v
  {
    "0123456789ABCDEF"[v]
  }

  /** Percent-encode one byte unless it is unreserved. */
  function EncodeChar(c: char): (r: string)
    requires c as int < 256
  {
    if Unreserved(c) then [c]
    else ['%', HexDigitChar(c as int / 16), HexDigitChar(c as int % 16)]
  }

  /** A percent-encoder for byte strings, the inverse the decoder is
      checked against. */
  function Encode(s: string): (r: string)
    requires forall i :: 0 <= i < |s| ==> s[i] as int < 256
    ensures '&' !in r && '\0' !in r && '+' !in r
  {
    if s == [] then [] else EncodeChar(s[0]) + Encode(s[1..])
  }

  lemma DecodeChunk(c: char, t: string)
    requires c as int < 256
    ensures Decode(EncodeChar(c) + t) == [c] + Decode(t)
  {
    var e := EncodeChar(c) + t;
    if Unreserved(c) {
      assert e[1..] == t;
    } else {
      assert e[3..] == t;
      assert HexPair(e[1], e[2]) == c;
    }
  }

  /** Decoding undoes encoding. */
  lemma {:induction false} DecodeEncode(s: string)
    requires forall i :: 0 <= i < |s| ==> s[i] as int < 256
    ensures Decode(Encode(s)) == s
  {
    if s != [] {
      DecodeChunk(s[0], Encode(s[1..]));
      DecodeEncode(s[1..]);
    }
  }

  /** Text with neither '+' nor '%' decodes to itself. */
  lemma {:induction false} DecodePlain(s: string)
    requires '+' !in s && '%' !in s
    ensures Decode(s) == s
  {
    if s != [] {
      assert s == [s[0]] + s[1..];
      DecodePlain(s[1..]);
    }
  }

  // Query parameters.

  /** Index of the first '&' at or after `p`, or the end (`strchr`). */
  function SegmentEnd(qs: string, p: nat): (e: nat)
    requires p <= |qs|
    ensures p <= e <= |qs|
    ensures '&' !in qs[p..e]
    ensures e < |qs| ==> qs[e] == '&'
    decreases |qs| - p
  {
    if p == |qs| || qs[p] == '&' then p else SegmentEnd(qs, p + 1)
  }

  /** `key=` starts at `p`. */
  predicate KeyAt(qs: string, p: nat, key: string) {
    p + |key| < |qs| && qs[p..p + |key|] == key && qs[p + |key|] == '='
  }

  /** The scan of `get_qs_param` from segment start `p`. */
  function ScanFrom(qs: string, p: nat, key: string): Option<string>
    requires p <= |qs|
    decreases |qs| - p
  {
    if p == |qs| then None
    else if KeyAt(qs, p, key) then
      var v := p + |key| + 1;
      Some(Decode(qs[v..SegmentEnd(qs, v)]))
    else if SegmentEnd(qs, p) == |qs| then None
    else ScanFrom(qs, SegmentEnd(qs, p) + 1, key)
  }

  /** `get_qs_param` (src/handlers.c:95-117): NULL for a missing query
      string or key, else the decoded value. */
  function QsParam(qs: Option<string>, key: string): Option<string> {
    if qs.None? then None else ScanFrom(qs.value, 0, key)
  }

  /** `get_qs_param` as the C walks it. */
  method GetQsParam(qs: Option<string>, key: string) returns (r: Option<string>)
    ensures r == QsParam(qs, key)
  {
    if qs.None? {
      return None;
    }
    var s := qs.value;
    var p := 0;
    while p < |s|
      invariant p <= |s|
      invariant ScanFrom(s, p, key) == ScanFrom(s, 0, key)
      decreases |s| - p
    {
      if p + |key| < |s| && s[p..p + |key|] == key && s[p + |key|] == '=' {
        var v := p + |key| + 1;
        var end := SegmentEnd(s, v);
        var decoded := UrlDecode(s[v..end]);
        return Some(decoded);
      }
      var amp := SegmentEnd(s, p);
      if amp == |s| {
        break;
      }
      p := amp + 1;
    }
    return None;
  }

  /** The '&'-separated segments of `qs` from `p` on. */
  function SegmentsFrom(qs: string, p: nat): (r: seq<string>)
    requires p <= |qs|
    ensures |r| > 0
    ensures forall i :: 0 <= i < |r| ==> '&' !in r[i]
    decreases |qs| - p
  {
    var e := SegmentEnd(qs, p);
    if e == |qs| then [qs[p..]] else [qs[p..e]] + SegmentsFrom(qs, e + 1)
  }

  function Segments(qs: string): seq<string> {
    SegmentsFrom(qs, 0)
  }

  /** `seg` is `key=value`. */
  predicate Names(seg: string, key: string) {
    |key| < |seg| && seg[..|key|] == key && seg[|key|] == '='
  }

  /** The decoded value of the first segment that names `key`. */
  function FirstParam(segs: seq<string>, key: string): (r: Option<string>)
    ensures r.None? <==> forall i :: 0 <= i < |segs| ==> !Names(segs[i], key)
  {
    if segs == [] then None
    else if Names(segs[0], key) then Some(Decode(segs[0][|key| + 1..]))
    else FirstParam(segs[1..], key)
  }

  lemma SegmentEndSkip(qs: string, p: nat, q: nat)
    requires p <= |qs| && p <= q <= SegmentEnd(qs, p)
    ensures SegmentEnd(qs, q) == SegmentEnd(qs, p)
    decreases q - p
  {
    if p < q {
      SegmentEndSkip(qs, p + 1, q);
    }
  }

  /** For a key without '&', the scan finds the first segment naming the
      key: the C loop is the segment-wise reading of the query string. */
  lemma {:induction false} ScanIsFirstParam(qs: string, p: nat, key: string)
    requires p <= |qs| && '&' !in key
    ensures ScanFrom(qs, p, key) == FirstParam(SegmentsFrom(qs, p), key)
    decreases |qs| - p
  {
    var e := SegmentEnd(qs, p);
    var segs := SegmentsFrom(qs, p);
    if KeyAt(qs, p, key) {
      ScanHere(qs, p, key);
    } else {
      assert segs[0] == qs[p..e];
      assert !Names(segs[0], key);
      assert FirstParam(segs, key) == FirstParam(segs[1..], key);
      if e < |qs| {
        ScanIsFirstParam(qs, e + 1, key);
        assert segs[1..] == SegmentsFrom(qs, e + 1);
        assert ScanFrom(qs, p, key) == ScanFrom(qs, e + 1, key);
      } else {
        assert segs[1..] == [];
        assert ScanFrom(qs, p, key) == None;
      }
    }
  }

  /** The scan stopping at a segment that names the key. */
  lemma ScanHere(qs: string, p: nat, key: string)
    requires '&' !in key
    requires KeyAt(qs, p, key)
    ensures ScanFrom(qs, p, key) == FirstParam(SegmentsFrom(qs, p), key)
  {
    var e := SegmentEnd(qs, p);
    var v := p + |key| + 1;
    forall i | p <= i < v ensures qs[i] != '&' {
      if i < p + |key| {
        assert qs[i] == key[i - p];
      }
    }
    SegmentEndSkip(qs, p, v);
    var seg := qs[p..e];
    assert SegmentsFrom(qs, p)[0] == seg;
    assert seg[..|key|] == key;
    assert Names(seg, key);
    assert qs[v..e] == seg[|key| + 1..];
  }


  // atoi.

  /** The longest prefix of decimal digits. */
  function DigitPrefix(s: string): (r: string)
    ensures StartsWith(s, r)
    ensures forall i :: 0 <= i < |r| ==> IsDigit(r[i])
    ensures |r| < |s| ==> !IsDigit(s[|r|])
  {
    if s != [] && IsDigit(s[0]) then [s[0]] + DigitPrefix(s[1..]) else []
  }

  /** The value of a string of decimal digits. */
  function DigitsValue(ds: string): nat
    requires forall i :: 0 <= i < |ds| ==> IsDigit(ds[i])
  {
    if ds == [] then 0
    else
      assert IsDigit(ds[|ds| - 1]);
      DigitsValue(ds[..|ds| - 1]) * 10 + (ds[|ds| - 1] as int - '0' as int)
  }

  function DropSpaces(s: string): (r: string)
    ensures |r| <= |s| && s[|s| - |r|..] == r
    ensures r != [] ==> !IsCSpace(r[0])
  {
    if s != [] && IsCSpace(s[0]) then DropSpaces(s[1..]) else s
  }

  /** C `atoi`: leading white space, an optional sign, then as many digits
      as there are; no digit at all reads as 0. */
  function Atoi(s: string): int {
    var t := DropSpaces(s);
    if t != [] && t[0] == '-' then -(DigitsValue(DigitPrefix(t[1..])) as int)
    else if t != [] && t[0] == '+' then DigitsValue(DigitPrefix(t[1..]))
    else DigitsValue(DigitPrefix(t))
  }

  function DigitChar(d: nat): (c: char)
    requires d < 10
    ensures IsDigit(c)
  {
    ('0' as int + d) as char
  }

  /** Decimal digits of a natural number. */
  function NatDigits(n: nat): (r: string)
    ensures |r| > 0
    ensures forall i :: 0 <= i < |r| ==> IsDigit(r[i])
  {
    if n < 10 then [DigitChar(n)] else NatDigits(n / 10) + [DigitChar(n % 10)]
  }

  /** How the front end writes an integer into a query string. */
  function Itoa(n: int): (r: string)
    ensures '&' !in r && '+' !in r && '%' !in r && '\0' !in r
  {
    if n < 0 then "-" + NatDigits(-n) else NatDigits(n)
  }

  lemma {:induction false} NatDigitsValue(n: nat)
    ensures DigitsValue(NatDigits(n)) == n
  {
    if n >= 10 {
      var r := NatDigits(n);
      assert r[..|r| - 1] == NatDigits(n / 10);
      NatDigitsValue(n / 10);
    }
  }

  lemma {:induction false} DigitPrefixAll(s: string)
    requires forall i :: 0 <= i < |s| ==> IsDigit(s[i])
    ensures DigitPrefix(s) == s
  {
    if s != [] {
      DigitPrefixAll(s[1..]);
    }
  }

  /** `atoi` reads back what `Itoa` wrote. */
  lemma AtoiItoa(n: int)
    ensures Atoi(Itoa(n)) == n
  {
    if n < 0 {
      NatDigitsValue(-n);
      AtoiNegative(NatDigits(-n));
    } else {
      NatDigitsValue(n);
      AtoiDigits(NatDigits(n));
    }
  }

  lemma AtoiDigits(ds: string)
    requires ds != [] && forall i :: 0 <= i < |ds| ==> IsDigit(ds[i])
    ensures Atoi(ds) == DigitsValue(ds)
  {
    assert !IsCSpace(ds[0]) && ds[0] != '-' && ds[0] != '+';
    assert DropSpaces(ds) == ds;
    DigitPrefixAll(ds);
  }

  lemma AtoiNegative(ds: string)
    requires ds != [] && forall i :: 0 <= i < |ds| ==> IsDigit(ds[i])
    ensures Atoi("-" + ds) == -(DigitsValue(ds) as int)
  {
    var s := "-" + ds;
    assert DropSpaces(s) == s;
    assert s[1..] == ds;
    DigitPrefixAll(ds);
  }

  /** Input that does not start, after white space and a sign, with a
      digit reads as 0. */
  lemma AtoiNonNumeric(s: string)
    requires var t := DropSpaces(s);
      var u := if t != [] && (t[0] == '-' || t[0] == '+') then t[1..] else t;
      u == [] || !IsDigit(u[0])
    ensures Atoi(s) == 0
  {
  }

  // parse_query_options.

  /** The value of a parameter as the C code sees it: decoded, then read
      up to its first NUL. */
  function CParam(qs: Option<string>, key: string): Option<string> {
    var v := QsParam(qs, key);
    if v.Some? then Some(CString(v.value)) else None
  }

  /** `parse_query_options` (src/handlers.c:119-163): no ORDER BY,
      ascending, limit -1 and offset 0 unless the query string says
      otherwise; `limit` and `offset` through `atoi`; descending only for
      exactly "desc"; `order_by` passed through unchecked. */
  function ParseQueryOptions(qs: Option<string>): (r: QueryOptions)
    ensures qs.None? ==> r == QueryOptions(None, SortAsc, -1, 0)
  {
    var limit := CParam(qs, "limit");
    var offset := CParam(qs, "offset");
    var order := CParam(qs, "order");
    QueryOptions(
      CParam(qs, "order_by"),
      if order == Some("desc") then SortDesc else SortAsc,
      if limit.Some? then Atoi(limit.value) else -1,
      if offset.Some? then Atoi(offset.value) else 0)
  }

  /** Join segments with '&'. */
  function Join(segs: seq<string>): string
    requires |segs| > 0
  {
    if |segs| == 1 then segs[0] else segs[0] + "&" + Join(segs[1..])
  }

  lemma SegmentsOfJoin(segs: seq<string>)
    requires |segs| > 0
    requires forall i :: 0 <= i < |segs| ==> '&' !in segs[i]
    ensures Segments(Join(segs)) == segs
  {
    JoinSegments(segs, Join(segs), 0);
  }

  /** The segments of a string whose tail from `p` is `Join(segs)`. */
  lemma {:induction false} JoinSegments(segs: seq<string>, qs: string, p: nat)
    requires |segs| > 0 && p <= |qs| && qs[p..] == Join(segs)
    requires forall i :: 0 <= i < |segs| ==> '&' !in segs[i]
    ensures SegmentsFrom(qs, p) == segs
    decreases |segs|
  {
    var s0 := segs[0];
    var e := p + |s0|;
    if |segs| == 1 {
      JoinLast(segs, qs, p);
    } else {
      JoinHead(segs, qs, p);
      JoinSegments(segs[1..], qs, e + 1);
      JoinStep(segs, qs, p);
    }
  }

  lemma JoinStep(segs: seq<string>, qs: string, p: nat)
    requires |segs| > 1 && '&' !in segs[0]
    requires var e := p + |segs[0]|;
      e < |qs| && qs[p..e] == segs[0] && qs[e] == '&' && SegmentsFrom(qs, e + 1) == segs[1..]
    ensures SegmentsFrom(qs, p) == segs
  {
    var e := p + |segs[0]|;
    SegmentEndAt(qs, p, e);
    assert SegmentsFrom(qs, p) == [qs[p..e]] + SegmentsFrom(qs, e + 1);
    assert segs == [segs[0]] + segs[1..];
  }

  lemma JoinLast(segs: seq<string>, qs: string, p: nat)
    requires |segs| == 1 && p <= |qs| && qs[p..] == Join(segs) && '&' !in segs[0]
    ensures SegmentsFrom(qs, p) == segs
  {
    assert qs[p..] == segs[0];
    assert qs[p..|qs|] == qs[p..];
    SegmentEndAt(qs, p, |qs|);
  }

  lemma JoinHead(segs: seq<string>, qs: string, p: nat)
    requires |segs| > 1 && p <= |qs| && qs[p..] == Join(segs)
    ensures var e := p + |segs[0]|;
      e < |qs| && qs[p..e] == segs[0] && qs[e] == '&' && qs[e + 1..] == Join(segs[1..])
  {
    var s0 := segs[0];
    var tail := qs[p..];
    assert tail == s0 + "&" + Join(segs[1..]);
    assert qs[p..p + |s0|] == tail[..|s0|] == s0;
    assert qs[p + |s0|] == tail[|s0|] == '&';
    assert qs[p + |s0| + 1..] == tail[|s0| + 1..];
  }

  lemma SegmentEndAt(qs: string, p: nat, e: nat)
    requires p <= e <= |qs| && '&' !in qs[p..e]
    requires e < |qs| ==> qs[e] == '&'
    ensures SegmentEnd(qs, p) == e
    decreases e - p
  {
    if p < e {
      assert qs[p] == qs[p..e][0];
      assert qs[p + 1..e] == qs[p..e][1..];
      SegmentEndAt(qs, p + 1, e);
    }
  }

  /** A query string the way a client writes the list options. */
  function RenderOptions(o: QueryOptions): string
    requires o.orderBy.Some? ==> forall i :: 0 <= i < |o.orderBy.value| ==> o.orderBy.value[i] as int < 256
  {
    Join(OptionSegments(o))
  }

  function OptionSegments(o: QueryOptions): (r: seq<string>)
    requires o.orderBy.Some? ==> forall i :: 0 <= i < |o.orderBy.value| ==> o.orderBy.value[i] as int < 256
    ensures |r| > 0 && forall i :: 0 <= i < |r| ==> '&' !in r[i]
  {
    ["limit=" + Itoa(o.limit), "offset=" + Itoa(o.offset), "order=" + OrderWord(o.order)] + OrderByTail(o.orderBy)
  }

  /** The value a key finds in the rendered options, read as the C code reads it. */
  lemma RenderedParam(o: QueryOptions, key: string)
    requires o.orderBy.Some? ==> forall i :: 0 <= i < |o.orderBy.value| ==> o.orderBy.value[i] as int < 256
    requires '&' !in key
    ensures QsParam(Some(RenderOptions(o)), key) == FirstParam(OptionSegments(o), key)
  {
    SegmentsOfJoin(OptionSegments(o));
    ScanIsFirstParam(RenderOptions(o), 0, key);
  }

  function OrderWord(order: SortOrder): string {
    if order == SortDesc then "desc" else "asc"
  }

  function OrderByTail(orderBy: Option<string>): seq<string>
    requires orderBy.Some? ==> forall i :: 0 <= i < |orderBy.value| ==> orderBy.value[i] as int < 256
  {
    if orderBy.Some? then ["order_by=" + Encode(orderBy.value)] else []
  }

  lemma LimitFirst(x: string, y: string, w: string, tail: seq<string>)
    ensures FirstParam(["limit=" + x, "offset=" + y, "order=" + w] + tail, "limit") == Some(Decode(x))
  {
    var seg := "limit=" + x;
    assert seg[..5] == "limit" && seg[5] == '=';
    assert seg[6..] == x;
  }

  lemma OffsetFirst(x: string, y: string, w: string, tail: seq<string>)
    ensures FirstParam(["limit=" + x, "offset=" + y, "order=" + w] + tail, "offset") == Some(Decode(y))
  {
    var segs := ["limit=" + x, "offset=" + y, "order=" + w] + tail;
    assert segs[0][..6][0] == 'l';
    FirstParamSkip(segs, 1, "offset");
    var seg := segs[1..][0];
    assert seg == "offset=" + y;
    assert seg[..6] == "offset" && seg[6] == '=';
    assert seg[7..] == y;
  }

  lemma OrderFirst(x: string, y: string, w: string, tail: seq<string>)
    ensures FirstParam(["limit=" + x, "offset=" + y, "order=" + w] + tail, "order") == Some(Decode(w))
  {
    var segs := ["limit=" + x, "offset=" + y, "order=" + w] + tail;
    assert segs[0][..5][0] == 'l';
    assert segs[1][..5][1] == 'f';
    FirstParamSkip(segs, 2, "order");
    var seg := segs[2..][0];
    assert seg == "order=" + w;
    assert seg[..5] == "order" && seg[5] == '=';
    assert seg[6..] == w;
  }

  lemma OrderByAfter(x: string, y: string, w: string, tail: seq<string>)
    requires |w| <= 4
    ensures FirstParam(["limit=" + x, "offset=" + y, "order=" + w] + tail, "order_by") == FirstParam(tail, "order_by")
  {
    var segs := ["limit=" + x, "offset=" + y, "order=" + w] + tail;
    assert segs[0][0] == 'l';
    assert segs[1][1] == 'f';
    assert |segs[2]| <= 10 && segs[2][5] == '=';
    FirstParamSkip(segs, 3, "order_by");
    assert segs[3..] == tail;
  }

  lemma LimitParam(o: QueryOptions)
    requires o.orderBy.Some? ==> forall i :: 0 <= i < |o.orderBy.value| ==> o.orderBy.value[i] as int < 256
    ensures CParam(Some(RenderOptions(o)), "limit") == Some(Itoa(o.limit))
  {
    RenderedParam(o, "limit");
    LimitFirst(Itoa(o.limit), Itoa(o.offset), OrderWord(o.order), OrderByTail(o.orderBy));
    PlainValue(Itoa(o.limit));
  }

  lemma OffsetParam(o: QueryOptions)
    requires o.orderBy.Some? ==> forall i :: 0 <= i < |o.orderBy.value| ==> o.orderBy.value[i] as int < 256
    ensures CParam(Some(RenderOptions(o)), "offset") == Some(Itoa(o.offset))
  {
    RenderedParam(o, "offset");
    OffsetFirst(Itoa(o.limit), Itoa(o.offset), OrderWord(o.order), OrderByTail(o.orderBy));
    PlainValue(Itoa(o.offset));
  }

  lemma OrderParam(o: QueryOptions)
    requires o.orderBy.Some? ==> forall i :: 0 <= i < |o.orderBy.value| ==> o.orderBy.value[i] as int < 256
    ensures CParam(Some(RenderOptions(o)), "order") == Some(if o.order == SortDesc then "desc" else "asc")
  {
    RenderedParam(o, "order");
    OrderFirst(Itoa(o.limit), Itoa(o.offset), OrderWord(o.order), OrderByTail(o.orderBy));
    PlainValue(OrderWord(o.order));
  }

  lemma OrderByParam(o: QueryOptions)
    requires o.orderBy.Some? ==> forall i :: 0 <= i < |o.orderBy.value| ==> 0 < o.orderBy.value[i] as int < 256
    ensures CParam(Some(RenderOptions(o)), "order_by") == o.orderBy
  {
    RenderedParam(o, "order_by");
    var tail := OrderByTail(o.orderBy);
    OrderByAfter(Itoa(o.limit), Itoa(o.offset), OrderWord(o.order), tail);
    if o.orderBy.Some? {
      var col := o.orderBy.value;
      var seg := tail[0];
      assert seg == "order_by=" + Encode(col);
      assert seg[..8] == "order_by" && seg[8] == '=';
      assert seg[9..] == Encode(col);
      assert FirstParam(tail, "order_by") == Some(Decode(Encode(col)));
      DecodeEncode(col);
      CStringOfNulFree(col);
    }
  }

  /** Segments before the `k`-th that do not name the key are passed over. */
  lemma {:induction false} FirstParamSkip(segs: seq<string>, k: nat, key: string)
    requires k <= |segs| && forall j :: 0 <= j < k ==> !Names(segs[j], key)
    ensures FirstParam(segs, key) == FirstParam(segs[k..], key)
  {
    if k > 0 {
      FirstParamSkip(segs[1..], k - 1, key);
      assert segs[1..][k - 1..] == segs[k..];
    }
  }

  /** A value without '+', '%' or NUL reads back as written. */
  lemma PlainValue(v: string)
    requires '+' !in v && '%' !in v && '\0' !in v
    ensures CString(Decode(v)) == v
  {
    DecodePlain(v);
    CStringOfNulFree(v);
  }

  /** Options written as a query string parse back to themselves, for any
      column name without a NUL byte. */
  lemma ParseRenderedOptions(o: QueryOptions)
    requires o.orderBy.Some? ==> forall i :: 0 <= i < |o.orderBy.value| ==> 0 < o.orderBy.value[i] as int < 256
    ensures ParseQueryOptions(Some(RenderOptions(o))) == o
  {
    LimitParam(o);
    OffsetParam(o);
    OrderParam(o);
    OrderByParam(o);
    AtoiItoa(o.limit);
    AtoiItoa(o.offset);
  }
}
