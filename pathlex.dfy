/**
 * A lexical model of the Windows flavour of Go's path/filepath functions
 * the tool uses: Clean, Dir and Join, and the comparison key
 * Clean(ToLower(dir)) under which two Path entries are the same directory.
 *
 * Clean here turns `/` into `\`, collapses runs of separators and drops a
 * trailing separator unless the path is a root (`\` or `X:\`); it does not
 * resolve `.` and `..` segments and has no notion of volume or UNC names.
 */
module PathLex {
  import opened Text

  const Sep: char := '\\'

  predicate IsPathSep(c: char) {
    c == '\\' || c == '/'
  }

  function Unify(s: string): (r: string)
    ensures |r| == |s| && '/' !in r
    ensures forall c :: c in r ==> c in s || c == Sep
  {
    seq(|s|, i requires 0 <= i < |s| => if s[i] == '/' then Sep else s[i])
  }

  predicate NoDoubleSep(s: string) {
    forall i :: 0 <= i < |s| - 1 ==> !(s[i] == Sep && s[i + 1] == Sep)
  }

  /** Drops every separator that directly follows another one; keeps the
      first and last characters and introduces no new ones. */
  function Collapse(s: string): (r: string)
    ensures |r| <= |s|
    ensures |s| > 0 ==> |r| > 0 && r[0] == s[0] && r[|r| - 1] == s[|s| - 1]
    ensures NoDoubleSep(r)
    ensures forall c :: c in r ==> c in s
    decreases |s|
  {
    if |s| <= 1 then s
    else if s[0] == Sep && s[1] == Sep then Collapse(s[1..])
    else
      var rest := Collapse(s[1..]);
      assert forall i :: 1 <= i < |rest| ==> ([s[0]] + rest)[i + 1] == rest[i];
      [s[0]] + rest
  }

  predicate IsRoot(s: string) {
    s == [Sep] || (|s| == 3 && s[1] == ':' && s[2] == Sep)
  }

  function StripTrailing(s: string): string {
    if |s| > 1 && s[|s| - 1] == Sep && !IsRoot(s) then s[..|s| - 1] else s
  }

  /** Dropping the trailing separator of a collapsed path makes it clean. */
  lemma StripTrailingClean(s: string)
    requires s != [] && '/' !in s && NoDoubleSep(s)
    ensures IsClean(StripTrailing(s))
    ensures forall c :: c in StripTrailing(s) ==> c in s
  {
    if |s| > 1 && s[|s| - 1] == Sep && !IsRoot(s) {
      var t := s[..|s| - 1];
      assert s[|s| - 2] != Sep;
      assert forall c :: c in t ==> c in s;
    }
  }

  /** What Clean produces: never empty, no `/`, no doubled separator, and a
      trailing separator only on a root. */
  predicate IsClean(s: string) {
    && s != []
    && '/' !in s
    && NoDoubleSep(s)
    && (|s| > 1 && s[|s| - 1] == Sep ==> IsRoot(s))
  }

  /** filepath.Clean (lexical part, see the module comment). */
  function Clean(s: string): (r: string)
    ensures IsClean(r)
    ensures forall c :: c in r ==> c in s || c == Sep || c == '.'
  {
    if s == [] then "."
    else
      var c := Collapse(Unify(s));
      StripTrailingClean(c);
      StripTrailing(c)
  }

  /** The comparison key of a Path entry: Clean(ToLower(dir)). */
  function Norm(s: string): (r: string)
    ensures IsClean(r)
    ensures forall c :: c in r ==> !('A' <= c <= 'Z')
  {
    var l := ToLower(s);
    assert forall c :: c in l ==> !('A' <= c <= 'Z');
    Clean(l)
  }

  // ---------------------------------------------------------------------
  // Clean is a projection

  lemma {:induction false} CollapseNoop(s: string)
    requires NoDoubleSep(s)
    ensures Collapse(s) == s
    decreases |s|
  {
    if |s| > 1 {
      CollapseNoop(s[1..]);
    }
  }

  lemma UnifyNoop(s: string)
    requires '/' !in s
    ensures Unify(s) == s
  {
    assert forall i :: 0 <= i < |s| ==> s[i] != '/' by {
      forall i | 0 <= i < |s| ensures s[i] != '/' {
        assert s[i] in s;
      }
    }
  }

  /** A clean path is left as it is. */
  lemma CleanFixesClean(s: string)
    requires IsClean(s)
    ensures Clean(s) == s
  {
    UnifyNoop(s);
    CollapseNoop(s);
  }

  /** Clean is idempotent. */
  lemma CleanIdempotent(s: string)
    ensures Clean(Clean(s)) == Clean(s)
  {
    CleanFixesClean(Clean(s));
  }

  lemma ToLowerNoop(s: string)
    requires forall c :: c in s ==> !('A' <= c <= 'Z')
    ensures ToLower(s) == s
  {
    forall i | 0 <= i < |s| ensures ToLower(s)[i] == s[i] {
      assert s[i] in s;
    }
  }

  /** Normalising a normalised entry changes nothing. */
  lemma NormIdempotent(s: string)
    ensures Norm(Norm(s)) == Norm(s)
  {
    var n := Norm(s);
    var l := ToLower(s);
    forall c | c in n ensures !('A' <= c <= 'Z') {
      if c in l {
        var i :| 0 <= i < |l| && l[i] == c;
      }
    }
    ToLowerNoop(n);
    CleanFixesClean(n);
  }

  /** Two spellings that differ only in letter case and in the direction of
      their slashes have the same key. */
  lemma NormIgnoresCaseAndSlashes(a: string, b: string)
    requires |a| == |b|
    requires forall i :: 0 <= i < |a| ==>
      LowerChar(a[i]) == LowerChar(b[i]) || (IsPathSep(a[i]) && IsPathSep(b[i]))
    ensures Norm(a) == Norm(b)
  {
    assert Unify(ToLower(a)) == Unify(ToLower(b));
  }

  lemma {:induction false} CollapseAppend(s: string, c: char)
    requires |s| > 0 && !(s[|s| - 1] == Sep && c == Sep)
    ensures Collapse(s + [c]) == Collapse(s) + [c]
    decreases |s|
  {
    if |s| > 1 {
      assert (s + [c])[1..] == s[1..] + [c];
      CollapseAppend(s[1..], c);
    }
  }

  /** A trailing separator does not change the key of a directory. */
  lemma NormIgnoresTrailingSep(t: string)
    requires t != [] && !IsPathSep(t[|t| - 1]) && t[|t| - 1] != ':'
    ensures Norm(t + [Sep]) == Norm(t)
  {
    var u := Unify(ToLower(t));
    assert Unify(ToLower(t + [Sep])) == u + [Sep];
    CollapseAppend(u, Sep);
    var c := Collapse(u);
    assert (c + [Sep])[..|c|] == c;
  }

  // ---------------------------------------------------------------------
  // Dir and Join

  /** Index of the last separator in p[..n], or -1. */
  function LastSep(p: string, n: nat): (k: int)
    requires n <= |p|
    ensures -1 <= k < n
    ensures k >= 0 ==> IsPathSep(p[k])
    ensures forall j :: k < j < n ==> !IsPathSep(p[j])
    decreases n
  {
    if n == 0 then -1
    else if IsPathSep(p[n - 1]) then n - 1
    else LastSep(p, n - 1)
  }

  /** filepath.Dir: Clean of everything up to the last separator. */
  function Dir(p: string): (r: string)
    ensures IsClean(r)
    ensures forall c :: c in r ==> c in p || c == Sep || c == '.'
  {
    var k := LastSep(p, |p|);
    assert forall c :: c in p[..k + 1] ==> c in p;
    Clean(p[..k + 1])
  }

  function DropLeadingSeps(e: string): string
    decreases |e|
  {
    if |e| > 0 && IsPathSep(e[0]) then DropLeadingSeps(e[1..]) else e
  }

  /** One element of filepath.Join on Windows: after a separator, leading
      separators of the element are dropped; after a drive colon nothing is
      inserted (`C:` + `f` is `C:f`, relative to the drive's current
      directory); otherwise a `\` goes in between. */
  function JoinStep(acc: string, e: string): string {
    if acc == [] then e
    else if IsPathSep(acc[|acc| - 1]) then acc + DropLeadingSeps(e)
    else if acc[|acc| - 1] == ':' then acc + e
    else acc + [Sep] + e
  }

  function JoinAll(acc: string, elems: seq<string>): string
    decreases |elems|
  {
    if elems == [] then acc else JoinAll(JoinStep(acc, elems[0]), elems[1..])
  }

  /** filepath.Join. */
  function JoinPath(elems: seq<string>): (r: string)
    ensures r != "" ==> IsClean(r)
    ensures r == "" <==> forall i :: 0 <= i < |elems| ==> elems[i] == ""
  {
    JoinAllEmpty("", elems);
    var b := JoinAll("", elems);
    if b == [] then "" else Clean(b)
  }

  /** Joining adds nothing but separators between non-empty text: the
      result is empty exactly when the start and every element are. */
  lemma {:induction false} JoinAllEmpty(acc: string, elems: seq<string>)
    ensures JoinAll(acc, elems) == "" <==> acc == "" && forall i :: 0 <= i < |elems| ==> elems[i] == ""
    decreases |elems|
  {
    if elems != [] {
      JoinAllEmpty(JoinStep(acc, elems[0]), elems[1..]);
      assert forall i :: 1 <= i < |elems| ==> elems[1..][i - 1] == elems[i];
      if acc != [] {
        assert JoinStep(acc, elems[0])[..|acc|] == acc;
      }
    }
  }

  lemma JoinTwo(a: string, b: string)
    requires a != []
    ensures JoinAll("", [a, b]) == JoinStep(a, b)
  {
    assert [a, b][1..] == [b];
    assert JoinAll("", [a, b]) == JoinAll(a, [b]);
    assert JoinAll(a, [b]) == JoinAll(JoinStep(a, b), []);
  }

  /** The directory part `x` of a joined path, ending in its separator. */
  predicate DirWithSep(x: string) {
    x != [] && x[|x| - 1] == Sep && '/' !in x && NoDoubleSep(x)
  }

  predicate PlainName(name: string) {
    name != [] && forall c :: c in name ==> !IsPathSep(c)
  }

  lemma PlainSuffixClean(x: string, name: string)
    requires DirWithSep(x) && PlainName(name)
    ensures IsClean(x + name)
    ensures LastSep(x + name, |x + name|) == |x| - 1
  {
    var b := x + name;
    assert name[|name| - 1] in name;
    forall j | |x| <= j < |b| ensures !IsPathSep(b[j]) {
      assert b[j] in name;
    }
    assert '/' !in b by {
      forall j | 0 <= j < |b| ensures b[j] != '/' {
        if j < |x| { assert b[j] == x[j]; assert x[j] in x; }
      }
    }
    assert NoDoubleSep(b) by {
      forall j | 0 <= j < |b| - 1 ensures !(b[j] == Sep && b[j + 1] == Sep) {
        if j + 1 < |x| { assert b[j] == x[j] && b[j + 1] == x[j + 1]; }
      }
    }
    assert b[|x| - 1] == Sep;
  }

  lemma SepAppended(d: string)
    requires IsClean(d) && d[|d| - 1] != Sep
    ensures DirWithSep(d + [Sep])
  {
    var x := d + [Sep];
    assert '/' !in x by {
      forall j | 0 <= j < |x| ensures x[j] != '/' {
        if j < |d| { assert x[j] == d[j]; assert d[j] in d; }
      }
    }
    assert NoDoubleSep(x) by {
      forall j | 0 <= j < |x| - 1 ensures !(x[j] == Sep && x[j + 1] == Sep) {
        if j + 1 < |d| { assert x[j] == d[j] && x[j + 1] == d[j + 1]; }
      }
    }
  }

  lemma DirOfPlainSuffix(x: string, name: string)
    requires DirWithSep(x) && PlainName(name)
    ensures Dir(x + name) == Clean(x)
  {
    PlainSuffixClean(x, name);
    assert (x + name)[..|x|] == x;
  }

  lemma CleanDropsTrailingSep(d: string)
    requires IsClean(d) && d[|d| - 1] != Sep && d[|d| - 1] != ':'
    ensures Clean(d + [Sep]) == d
  {
    var x := d + [Sep];
    SepAppended(d);
    UnifyNoop(x);
    CollapseNoop(x);
    assert !IsRoot(x) by {
      assert |x| == 3 ==> x[1] == d[|d| - 1];
    }
    assert x[..|x| - 1] == d;
    assert StripTrailing(x) == d;
  }

  lemma JoinPlain(d: string, name: string) returns (x: string)
    requires IsClean(d) && d[|d| - 1] != ':'
    requires PlainName(name)
    ensures DirWithSep(x) && JoinPath([d, name]) == x + name
    ensures x == if d[|d| - 1] == Sep then d else d + [Sep]
  {
    JoinTwo(d, name);
    assert !IsPathSep(name[0]) by { assert name[0] in name; }
    x := if d[|d| - 1] == Sep then d else d + [Sep];
    if d[|d| - 1] != Sep {
      SepAppended(d);
    }
    assert JoinStep(d, name) == x + name;
    PlainSuffixClean(x, name);
    CleanFixesClean(x + name);
  }

  /** Joining a plain name onto a clean directory and taking Dir of the
      result gives the directory back. */
  lemma DirOfJoin(d: string, name: string)
    requires IsClean(d) && d[|d| - 1] != ':'
    requires PlainName(name)
    ensures Dir(JoinPath([d, name])) == d
  {
    var x := JoinPlain(d, name);
    DirOfPlainSuffix(x, name);
    if d[|d| - 1] == Sep {
      CleanFixesClean(d);
    } else {
      CleanDropsTrailingSep(d);
    }
  }
}
