/**
 * The Go `strings` functions the tool relies on: TrimSpace, ASCII case
 * mapping, Contains, Split and Join on the Windows list separator `;`.
 */
module Text {

  /** unicode.IsSpace: the characters strings.TrimSpace removes. */
  predicate IsSpace(c: char) {
    || c == ' ' || c == '\t' || c == '\n' || c == '\U{000B}' || c == '\U{000C}' || c == '\r'
    || c == '\U{0085}' || c == '\U{00A0}' || c == '\U{1680}'
    || ('\U{2000}' <= c <= '\U{200A}')
    || c == '\U{2028}' || c == '\U{2029}' || c == '\U{202F}' || c == '\U{205F}' || c == '\U{3000}'
  }

  /** The class `\s` of Go's regexp package (RE2): no vertical tab, ASCII only. */
  predicate IsReSpace(c: char) {
    c == ' ' || c == '\t' || c == '\n' || c == '\U{000C}' || c == '\r'
  }

  predicate AllSpace(s: string) {
    forall i :: 0 <= i < |s| ==> IsSpace(s[i])
  }

  /** Drops leading white space: the result is a suffix of `s`, it does not
      start with a space, and everything dropped was a space. */
  function TrimLeft(s: string): (r: string)
    ensures |r| <= |s| && r == s[|s| - |r|..]
    ensures r != [] ==> !IsSpace(r[0])
    ensures forall i :: 0 <= i < |s| - |r| ==> IsSpace(s[i])
    decreases |s|
  {
    if |s| > 0 && IsSpace(s[0]) then TrimLeft(s[1..]) else s
  }

  /** Drops trailing white space: the result is a prefix of `s`, it does not
      end with a space, and everything dropped was a space. */
  function TrimRight(s: string): (r: string)
    ensures |r| <= |s| && r == s[..|r|]
    ensures r != [] ==> !IsSpace(r[|r| - 1])
    ensures forall i :: |r| <= i < |s| ==> IsSpace(s[i])
    decreases |s|
  {
    if |s| > 0 && IsSpace(s[|s| - 1]) then TrimRight(s[..|s| - 1]) else s
  }

  /** strings.TrimSpace. */
  function TrimSpace(s: string): string {
    TrimLeft(TrimRight(s))
  }

  function LowerChar(c: char): char {
    if 'A' <= c <= 'Z' then (c as int + 32) as char else c
  }

  function UpperChar(c: char): char {
    if 'a' <= c <= 'z' then (c as int - 32) as char else c
  }

  /** strings.ToLower, restricted to ASCII letters. */
  function ToLower(s: string): string {
    seq(|s|, i requires 0 <= i < |s| => LowerChar(s[i]))
  }

  /** strings.ToUpper, restricted to ASCII letters. */
  function ToUpper(s: string): string {
    seq(|s|, i requires 0 <= i < |s| => UpperChar(s[i]))
  }

  /** strings.Contains. */
  predicate Contains(s: string, sub: string)
    decreases |s|
  {
    sub <= s || (|s| > 0 && Contains(s[1..], sub))
  }

  /** strings.Split(s, ";"): never empty, no part holds the separator. */
  function Split(s: string): (parts: seq<string>)
    ensures |parts| >= 1
    ensures forall i :: 0 <= i < |parts| ==> ';' !in parts[i]
    decreases |s|
  {
    if s == [] then [""]
    else
      var rest := Split(s[1..]);
      if s[0] == ';' then [""] + rest
      else [[s[0]] + rest[0]] + rest[1..]
  }

  /** strings.Join(parts, ";"). */
  function Join(parts: seq<string>): string
    decreases |parts|
  {
    if |parts| == 0 then ""
    else if |parts| == 1 then parts[0]
    else parts[0] + ";" + Join(parts[1..])
  }

  // ---------------------------------------------------------------------
  // TrimSpace

  /** A string with no white space at either end is its own TrimSpace. */
  lemma TrimSpaceOfTrimmed(s: string)
    requires s == [] || (!IsSpace(s[0]) && !IsSpace(s[|s| - 1]))
    ensures TrimSpace(s) == s
  {
  }

  /** TrimSpace is a projection. */
  lemma TrimSpaceIdempotent(s: string)
    ensures TrimSpace(TrimSpace(s)) == TrimSpace(s)
  {
    var t := TrimSpace(s);
    var m := TrimRight(s);
    if t != [] {
      assert t == m[|m| - |t|..];
      assert t[|t| - 1] == m[|m| - 1];
      TrimSpaceOfTrimmed(t);
    }
  }

  /** One trailing white-space character makes no difference to TrimSpace. */
  lemma TrimSpaceAppendSpace(s: string, c: char)
    requires IsSpace(c)
    ensures TrimSpace(s + [c]) == TrimSpace(s)
  {
    var t := s + [c];
    assert t[|t| - 1] == c;
    assert t[..|t| - 1] == s;
    assert TrimRight(t) == TrimRight(s);
  }

  lemma {:induction false} TrimRightOfAllSpace(s: string)
    requires AllSpace(s)
    ensures TrimRight(s) == []
  {
  }

  lemma {:induction false} TrimLeftSpacePrefix(a: string, b: string)
    requires AllSpace(a)
    ensures TrimLeft(a + b) == TrimLeft(b)
    decreases |a|
  {
    if a != [] {
      assert (a + b)[0] == a[0];
      assert (a + b)[1..] == a[1..] + b;
      assert AllSpace(a[1..]);
      TrimLeftSpacePrefix(a[1..], b);
    } else {
      assert a + b == b;
    }
  }

  lemma {:induction false} TrimRightConcat(a: string, b: string)
    requires !AllSpace(b)
    ensures TrimRight(a + b) == a + TrimRight(b)
    decreases |b|
  {
    var n := |b|;
    if IsSpace(b[n - 1]) {
      assert (a + b)[..|a + b| - 1] == a + b[..n - 1];
      TrimRightConcat(a, b[..n - 1]);
    }
  }

  /** White space in front of a string makes no difference to TrimSpace. */
  lemma TrimSpaceDropSpacePrefix(a: string, b: string)
    requires AllSpace(a)
    ensures TrimSpace(a + b) == TrimSpace(b)
  {
    if AllSpace(b) {
      assert AllSpace(a + b);
      TrimRightOfAllSpace(a + b);
      TrimRightOfAllSpace(b);
    } else {
      TrimRightConcat(a, b);
      TrimLeftSpacePrefix(a, TrimRight(b));
    }
  }

  /** Leading white space of `v` makes no difference to TrimSpace. */
  lemma TrimSpaceDropLeading(v: string, k: nat)
    requires k <= |v| && AllSpace(v[..k])
    ensures TrimSpace(v[k..]) == TrimSpace(v)
  {
    var a, t := v[..k], v[k..];
    assert a + t == v;
    TrimSpaceDropSpacePrefix(a, t);
  }

  /** White space after a string makes no difference to TrimSpace. */
  lemma {:induction false} TrimSpaceDropSpaceSuffix(a: string, b: string)
    requires AllSpace(b)
    ensures TrimSpace(a + b) == TrimSpace(a)
    decreases |b|
  {
    if b == [] {
      assert a + b == a;
    } else {
      var n := |b|;
      assert a + b == (a + b[..n - 1]) + [b[n - 1]];
      TrimSpaceAppendSpace(a + b[..n - 1], b[n - 1]);
      TrimSpaceDropSpaceSuffix(a, b[..n - 1]);
    }
  }

  /** TrimSpace only removes characters. */
  lemma TrimSpaceChars(s: string)
    ensures forall c :: c in TrimSpace(s) ==> c in s
  {
    var m := TrimRight(s);
    var t := TrimSpace(s);
    forall c | c in t ensures c in s {
      var i :| 0 <= i < |t| && t[i] == c;
      assert t[i] == m[|m| - |t| + i];
      assert m[|m| - |t| + i] == s[|m| - |t| + i];
    }
  }

  /** A trimmed non-empty string starts and ends with a non-space. */
  lemma TrimmedEnds(s: string)
    requires TrimSpace(s) == s && s != []
    ensures !IsSpace(s[0]) && !IsSpace(s[|s| - 1])
  {
    var m := TrimRight(s);
    assert |m| == |s|;
    assert m == s;
  }

  /** Two trimmed strings joined by `;` are trimmed. */
  lemma TrimmedJoin(a: string, b: string)
    requires TrimSpace(a) == a && a != []
    requires TrimSpace(b) == b && b != []
    ensures TrimSpace(a + ";" + b) == a + ";" + b
  {
    TrimmedEnds(a);
    TrimmedEnds(b);
    var s := a + ";" + b;
    assert s[0] == a[0] && s[|s| - 1] == b[|b| - 1];
    TrimSpaceOfTrimmed(s);
  }

  // ---------------------------------------------------------------------
  // Split and Join

  /** Joining the parts of a split gives back the original string. */
  lemma {:induction false} JoinSplit(s: string)
    ensures Join(Split(s)) == s
    decreases |s|
  {
    if s != [] {
      JoinSplit(s[1..]);
    }
  }

  lemma {:induction false} SplitPrefix(p: string, t: string)
    requires ';' !in p
    ensures Split(p + t) == [p + Split(t)[0]] + Split(t)[1..]
    decreases |p|
  {
    if p != [] {
      assert (p + t)[0] == p[0];
      assert (p + t)[1..] == p[1..] + t;
      SplitPrefix(p[1..], t);
      var tail := Split(t);
      var rest := Split(p[1..] + t);
      assert rest == [p[1..] + tail[0]] + tail[1..];
      assert Split(p + t) == [[p[0]] + rest[0]] + rest[1..];
      assert [p[0]] + (p[1..] + tail[0]) == p + tail[0];
    } else {
      var parts := Split(t);
      assert p + t == t;
      assert p + parts[0] == parts[0];
      assert parts == [parts[0]] + parts[1..];
    }
  }

  /** Splitting a join of separator-free parts gives back the parts. */
  lemma {:induction false} SplitJoin(parts: seq<string>)
    requires |parts| >= 1
    requires forall i :: 0 <= i < |parts| ==> ';' !in parts[i]
    ensures Split(Join(parts)) == parts
    decreases |parts|
  {
    if |parts| == 1 {
      SplitPrefix(parts[0], "");
      assert parts[0] + "" == parts[0];
      assert Split("") == [""];
      assert Split(parts[0]) == [parts[0]];
    } else {
      var j := Join(parts[1..]);
      SplitJoin(parts[1..]);
      SplitPrefix(parts[0], ";" + j);
      assert Join(parts) == parts[0] + (";" + j);
      assert (";" + j)[1..] == j;
      assert Split(";" + j) == [""] + Split(j);
      assert parts[0] + "" == parts[0];
      assert parts == [parts[0]] + parts[1..];
    }
  }

  lemma {:induction false} JoinConcat(xs: seq<string>, ys: seq<string>)
    requires |xs| >= 1 && |ys| >= 1
    ensures Join(xs) + ";" + Join(ys) == Join(xs + ys)
    decreases |xs|
  {
    if |xs| > 1 {
      JoinConcat(xs[1..], ys);
      assert (xs + ys)[1..] == xs[1..] + ys;
    } else {
      assert (xs + ys)[1..] == ys;
    }
  }

  /** Appending `;b` to a list adds exactly the parts of `b` after the parts of `a`. */
  lemma SplitConcat(a: string, b: string)
    ensures Split(a + ";" + b) == Split(a) + Split(b)
  {
    JoinSplit(a);
    JoinSplit(b);
    JoinConcat(Split(a), Split(b));
    SplitJoin(Split(a) + Split(b));
  }

  lemma {:induction false} JoinAppendLast(parts: seq<string>, b: string)
    requires |parts| >= 1
    ensures Join(parts[..|parts| - 1] + [parts[|parts| - 1] + b]) == Join(parts) + b
    decreases |parts|
  {
    var n := |parts|;
    var q := parts[..n - 1] + [parts[n - 1] + b];
    if n > 1 {
      assert q[0] == parts[0];
      assert q[1..] == parts[1..][..n - 2] + [parts[1..][n - 2] + b];
      JoinAppendLast(parts[1..], b);
    }
  }

  /** Text after the last separator extends the last part. */
  lemma SplitAppend(t: string, b: string)
    requires ';' !in b
    ensures var parts := Split(t);
      Split(t + b) == parts[..|parts| - 1] + [parts[|parts| - 1] + b]
  {
    var parts := Split(t);
    var n := |parts|;
    var q := parts[..n - 1] + [parts[n - 1] + b];
    JoinSplit(t);
    JoinAppendLast(parts, b);
    forall i | 0 <= i < |q| ensures ';' !in q[i] {
      if i == n - 1 {
        assert q[i] == parts[n - 1] + b;
      } else {
        assert q[i] == parts[i];
      }
    }
    SplitJoin(q);
  }

  lemma TrimRightTail(v: string) returns (b: string)
    ensures AllSpace(b) && v == TrimRight(v) + b
  {
    var r := TrimRight(v);
    b := v[|r|..];
    forall i | 0 <= i < |b| ensures IsSpace(b[i]) {
      assert b[i] == v[|r| + i];
    }
    assert r == v[..|r|];
  }

  lemma TrimLeftHead(r: string) returns (a: string)
    ensures AllSpace(a) && r == a + TrimLeft(r)
  {
    var m := TrimLeft(r);
    a := r[..|r| - |m|];
    forall i | 0 <= i < |a| ensures IsSpace(a[i]) {
      assert a[i] == r[i];
    }
    assert m == r[|r| - |m|..];
  }

  lemma AllSpaceNoSeparator(s: string)
    requires AllSpace(s)
    ensures ';' !in s
  {
    assert forall i :: 0 <= i < |s| ==> IsSpace(s[i]);
  }

  /** Text without separators around a list extends its first and its
      last part. */
  lemma SplitAroundShape(a: string, m: string, b: string)
    requires ';' !in a && ';' !in b
    ensures var p, parts := Split(m), Split((a + m) + b);
      && |parts| == |p|
      && (|p| == 1 ==> parts[0] == a + (p[0] + b))
      && (|p| > 1 ==> parts[0] == a + p[0] && parts[|p| - 1] == p[|p| - 1] + b)
      && (forall i :: 0 < i < |p| - 1 ==> parts[i] == p[i])
  {
    assert (a + m) + b == a + (m + b);
    var p := Split(m);
    var n := |p|;
    SplitAppend(m, b);
    var q := Split(m + b);
    SplitPrefix(a, m + b);
    var parts := Split(a + (m + b));
    assert parts == [a + q[0]] + q[1..];
  }

  /** White space around a list changes its entries only by white space at
      the ends of the first and the last entry. */
  lemma SplitAround(a: string, m: string, b: string)
    requires AllSpace(a) && AllSpace(b)
    ensures |Split((a + m) + b)| == |Split(m)|
    ensures forall i :: 0 <= i < |Split(m)| ==> TrimSpace(Split((a + m) + b)[i]) == TrimSpace(Split(m)[i])
  {
    AllSpaceNoSeparator(a);
    AllSpaceNoSeparator(b);
    SplitAroundShape(a, m, b);
    var p := Split(m);
    var n := |p|;
    var parts := Split((a + m) + b);
    forall i | 0 <= i < n ensures TrimSpace(parts[i]) == TrimSpace(p[i]) {
      if i == 0 && n == 1 {
        TrimSpaceDropSpacePrefix(a, p[0] + b);
        TrimSpaceDropSpaceSuffix(p[0], b);
      } else if i == 0 {
        TrimSpaceDropSpacePrefix(a, p[0]);
      } else if i == n - 1 {
        TrimSpaceDropSpaceSuffix(p[n - 1], b);
      }
    }
  }

  /** Trimming the whole list does not change any entry once the entry is
      trimmed: only the first and the last entry lose white space. */
  lemma SplitOfTrimmed(v: string)
    ensures |Split(TrimSpace(v))| == |Split(v)|
    ensures forall i :: 0 <= i < |Split(v)| ==> TrimSpace(Split(v)[i]) == TrimSpace(Split(TrimSpace(v))[i])
  {
    var r := TrimRight(v);
    var b := TrimRightTail(v);
    var a := TrimLeftHead(r);
    SplitAround(a, TrimLeft(r), b);
  }

  /** A string with no separator is a single part. */
  lemma SplitSingle(s: string)
    requires ';' !in s
    ensures Split(s) == [s]
  {
    SplitJoin([s]);
  }

  /** A slice that spells `sub` makes `s` contain it. */
  lemma {:induction false} ContainsAt(s: string, sub: string, a: nat)
    requires a + |sub| <= |s|
    ensures s[a..a + |sub|] == sub ==> Contains(s, sub)
    decreases a
  {
    if a > 0 {
      assert s[1..][a - 1..a - 1 + |sub|] == s[a..a + |sub|];
      ContainsAt(s[1..], sub, a - 1);
    }
  }
}
