/**
 * Reading the user's Path value out of the text that
 * `reg query HKCU\Environment /v Path` prints (utils/env_windows.go,
 * readUserPathFromReg; and the older fallback in main.go).
 *
 * The regular expression `Path\s+(REG_SZ|REG_EXPAND_SZ)\s+(.*)` is modelled
 * as Go's leftmost-first matcher runs it: `\s` is RE2's [\t\n\f\r ], both
 * `\s+` are greedy (the second one may cross line ends), and `.` stops at
 * `\n` but takes `\r`.
 */
module RegOutput {
  import opened Wrappers
  import opened Text
  import opened Codec

  datatype ValueKind = RegSz | RegExpandSz

  function KindName(k: ValueKind): string {
    match k
    case RegSz => "REG_SZ"
    case RegExpandSz => "REG_EXPAND_SZ"
  }

  /** End of the run of `\s` characters that starts at i. */
  function SkipReSpace(s: string, i: nat): (j: nat)
    requires i <= |s|
    ensures i <= j <= |s|
    ensures forall k :: i <= k < j ==> IsReSpace(s[k])
    ensures j < |s| ==> !IsReSpace(s[j])
    decreases |s| - i
  {
    if i < |s| && IsReSpace(s[i]) then SkipReSpace(s, i + 1) else i
  }

  /** Position of the first `\n` at or after i, or |s|. */
  function LineEnd(s: string, i: nat): (j: nat)
    requires i <= |s|
    ensures i <= j <= |s|
    ensures forall k :: i <= k < j ==> s[k] != '\n'
    ensures j < |s| ==> s[j] == '\n'
    decreases |s| - i
  {
    if i < |s| && s[i] != '\n' then LineEnd(s, i + 1) else i
  }

  /** End of the type name that starts at k, or k when there is none. With
      allowSz false only `REG_EXPAND_SZ` is accepted (main.go). */
  function TypeEnd(s: string, k: nat, allowSz: bool): (m: nat)
    requires k <= |s|
    ensures m == k || (k < m <= |s|)
  {
    if allowSz && "REG_SZ" <= s[k..] then k + 6
    else if "REG_EXPAND_SZ" <= s[k..] then k + 13
    else k
  }

  /** The rest of the pattern once the type name ends at m (k < m):
      `\s+(.*)`. */
  function CaptureAfterType(s: string, m: nat): (r: Option<string>)
    requires m <= |s|
    ensures r.Some? ==> '\n' !in r.value
  {
    var n := SkipReSpace(s, m);
    if n == m then None
    else
      var e := LineEnd(s, n);
      assert forall c :: c in s[n..e] ==> c != '\n';
      Some(s[n..e])
  }

  /** The rest of the pattern once `Path` ends at j:
      `\s+(REG_SZ|REG_EXPAND_SZ)\s+(.*)`. */
  function MatchAfterPath(s: string, j: nat, allowSz: bool): (r: Option<string>)
    requires j <= |s|
    ensures r.Some? ==> '\n' !in r.value
  {
    var k := SkipReSpace(s, j);
    if k == j then None
    else
      var m := TypeEnd(s, k, allowSz);
      if m == k then None else CaptureAfterType(s, m)
  }

  /** The pattern tried at position i; the result is the text of the last group. */
  function MatchAt(s: string, i: nat, allowSz: bool): (r: Option<string>)
    requires i <= |s|
    ensures r.Some? ==> '\n' !in r.value
  {
    if "Path" <= s[i..] then MatchAfterPath(s, i + 4, allowSz) else None
  }

  /** FindStringSubmatch: the match that starts leftmost, from position i on. */
  function FirstMatch(s: string, i: nat, allowSz: bool): (r: Option<string>)
    requires i <= |s|
    ensures r.Some? ==> '\n' !in r.value
    decreases |s| - i
  {
    var here := MatchAt(s, i, allowSz);
    if here.Some? || i == |s| then here else FirstMatch(s, i + 1, allowSz)
  }

  /** FirstMatch finds nothing when the pattern matches nowhere. */
  lemma {:induction false} FirstMatchNone(s: string, i: nat, allowSz: bool)
    requires i <= |s|
    requires forall j :: i <= j <= |s| ==> MatchAt(s, j, allowSz).None?
    ensures FirstMatch(s, i, allowSz).None?
    decreases |s| - i
  {
    if i < |s| {
      FirstMatchNone(s, i + 1, allowSz);
    }
  }

  /** Positions where the pattern does not match are skipped. */
  lemma {:induction false} FirstMatchAt(s: string, i: nat, p: nat, allowSz: bool)
    requires i <= p <= |s|
    requires forall l :: i <= l < p ==> MatchAt(s, l, allowSz).None?
    ensures FirstMatch(s, i, allowSz) == FirstMatch(s, p, allowSz)
    decreases p - i
  {
    if i < p {
      FirstMatchAt(s, i + 1, p, allowSz);
    }
  }

  /** The parse step of readUserPathFromReg: TrimSpace of the captured value,
      or "" when nothing matches. */
  function ParseUserPath(text: string): (r: string)
    ensures r == TrimSpace(r)
    ensures '\n' !in r
    ensures FirstMatch(text, 0, true).None? ==> r == ""
  {
    match FirstMatch(text, 0, true)
    case None => ""
    case Some(v) => TrimSpaceIdempotent(v); TrimSpaceChars(v); TrimSpace(v)
  }

  /** How `reg` ended: with an exit code, or not at all (could not be run). */
  datatype ExitStatus = Exited(code: int) | NotRun

  /** One run of `reg query`: its exit status and combined output. */
  datatype RegQuery = RegQuery(status: ExitStatus, output: seq<byte>)

  datatype ReadError = UnsupportedPlatform | QueryFailed | OutputNotDecoded

  /** "找不到项目" ("item not found") in UTF-8. */
  const NotFoundMarker: seq<byte> := [230, 137, 190, 228, 184, 141, 229, 136, 176, 233, 161, 185, 231, 155, 174]

  /** The missing-key test: the output, lower-cased, contains the marker. */
  predicate ReportsMissingKey(q: RegQuery) {
    q.status == Exited(1) && Contains(ToLower(RawText(q.output)), RawText(NotFoundMarker))
  }

  /** readUserPathFromReg. A missing key (exit code 1 with the marker) reads
      as ""; any other failure of the query, or of the GBK decoding, is an
      error; otherwise the parsed value. */
  function ReadUserPathFromReg(windows: bool, q: RegQuery, decode: seq<byte> -> Option<string>): (r: Result<string, ReadError>)
    ensures !windows ==> r == Failure(UnsupportedPlatform)
    ensures windows && ReportsMissingKey(q) ==> r == Success("")
    ensures windows && q.status != Exited(0) && !ReportsMissingKey(q) ==> r == Failure(QueryFailed)
    ensures windows && q.status == Exited(0) ==>
      (r.Failure? <==> (|q.output| > 0 && decode(q.output).None?))
    ensures windows && q.status == Exited(0) && |q.output| == 0 ==> r == Success("")
    ensures r.Success? ==> r.value == TrimSpace(r.value)
  {
    if !windows then Failure(UnsupportedPlatform)
    else if q.status != Exited(0) then
      if ReportsMissingKey(q) then Success("") else Failure(QueryFailed)
    else
      match GbkToUtf8(q.output, decode)
      case Failure(_) => Failure(OutputNotDecoded)
      case Success(text) => Success(ParseUserPath(text))
  }

  /** The fallback of main.go's IsDirInPath: any failure of the query, or no
      `REG_EXPAND_SZ` match, gives nothing; the capture is not trimmed. */
  function LegacyReadFromReg(q: RegQuery): (r: Option<string>)
    ensures q.status != Exited(0) ==> r == None
    ensures q.status == Exited(0) ==> r == FirstMatch(RawText(q.output), 0, false)
  {
    if q.status != Exited(0) then None else FirstMatch(RawText(q.output), 0, false)
  }

  // ---------------------------------------------------------------------
  // Round trip with what `reg query` prints

  const Header: string := "\r\nHKEY_CURRENT_USER\\Environment\r\n    "

  /** What follows `Path` on the value's line, up to the value. */
  function TypeField(kind: ValueKind): string {
    match kind
    case RegSz => "    REG_SZ    "
    case RegExpandSz => "    REG_EXPAND_SZ    "
  }

  /** Everything `reg query` prints before the value itself. */
  function Prefix(kind: ValueKind): (p: string)
    ensures |p| == |Header| + 12 + |KindName(kind)|
  {
    Header + "Path" + TypeField(kind)
  }

  /** The text `reg query HKCU\Environment /v Path` prints for a value. */
  function Render(kind: ValueKind, v: string): string {
    Prefix(kind) + v + "\r\n\r\n"
  }

  lemma {:induction false} SkipOverSpaces(s: string, i: nat, j: nat)
    requires i <= j <= |s|
    requires forall k :: i <= k < j ==> IsReSpace(s[k])
    ensures SkipReSpace(s, i) == SkipReSpace(s, j)
    decreases j - i
  {
    if i < j {
      SkipOverSpaces(s, i + 1, j);
    }
  }

  lemma {:induction false} SkipShift(x: string, y: string, i: nat)
    requires i <= |y|
    ensures SkipReSpace(x + y, |x| + i) == |x| + SkipReSpace(y, i)
    decreases |y| - i
  {
    if i < |y| {
      assert (x + y)[|x| + i] == y[i];
      if IsReSpace(y[i]) {
        SkipShift(x, y, i + 1);
      }
    }
  }

  lemma {:induction false} LineEndShift(x: string, y: string, i: nat)
    requires i <= |y|
    ensures LineEnd(x + y, |x| + i) == |x| + LineEnd(y, i)
    decreases |y| - i
  {
    if i < |y| {
      assert (x + y)[|x| + i] == y[i];
      if y[i] != '\n' {
        LineEndShift(x, y, i + 1);
      }
    }
  }

  /** The pattern cannot match where `Pa` does not start. */
  lemma NoMatchWithoutPath(s: string, i: nat, allowSz: bool)
    requires i <= |s|
    requires i + 1 < |s| ==> s[i] != 'P' || s[i + 1] != 'a'
    ensures MatchAt(s, i, allowSz).None?
  {
    if i + 1 < |s| {
      assert s[i..][0] == s[i] && s[i..][1] == s[i + 1];
    }
  }

  /** Where the parts of the prefix sit. */
  lemma PrefixPath(kind: ValueKind)
    ensures Prefix(kind)[|Header|..|Header| + 4] == "Path"
  {
  }

  lemma PrefixName(kind: ValueKind)
    ensures Prefix(kind)[|Header| + 8..|Header| + 8 + |KindName(kind)|] == KindName(kind)
  {
  }

  lemma PrefixSpaces(kind: ValueKind)
    ensures forall j :: |Header| + 4 <= j < |Header| + 8 ==> IsReSpace(Prefix(kind)[j])
    ensures forall j :: |Prefix(kind)| - 4 <= j < |Prefix(kind)| ==> IsReSpace(Prefix(kind)[j])
  {
  }

  /** In the type field no `P` is followed by `a`. */
  lemma TypeFieldNoPa(kind: ValueKind)
    ensures forall k :: 0 <= k < |TypeField(kind)| - 1 ==>
      TypeField(kind)[k] != 'P' || TypeField(kind)[k + 1] != 'a'
  {
    var t := TypeField(kind);
    if kind == RegSz {
      assert 'P' !in t;
      forall k | 0 <= k < |t| - 1 ensures t[k] != 'P' {
        assert t[k] in t;
      }
    } else {
      var x, y := "    REG_EX", "AND_SZ    ";
      assert t == x + "P" + y;
      assert 'P' !in x && 'P' !in y;
      forall k | 0 <= k < |t| - 1 ensures t[k] != 'P' || t[k + 1] != 'a' {
        if k < 10 {
          assert t[k] == x[k] && x[k] in x;
        } else if k > 10 {
          assert t[k] == y[k - 11] && y[k - 11] in y;
        } else {
          assert t[k + 1] == 'A';
        }
      }
    }
  }

  /** Around a `Path` put between a text without `P` and a text where no
      `P` is followed by `a`, `Pa` occurs only at the start of `Path`. */
  lemma NoPaAround(h: string, t: string)
    requires 'P' !in h
    requires forall k :: 0 <= k < |t| - 1 ==> t[k] != 'P' || t[k + 1] != 'a'
    ensures var p := h + "Path" + t;
      forall j :: 0 <= j < |p| - 1 && j != |h| ==> p[j] != 'P' || p[j + 1] != 'a'
  {
    var p := h + "Path" + t;
    var i := |h|;
    forall j | 0 <= j < |p| - 1 && j != i ensures p[j] != 'P' || p[j + 1] != 'a' {
      if j < i {
        assert p[j] == h[j] && h[j] in h;
      } else if j < i + 4 {
        assert p[j] == "Path"[j - i];
      } else {
        assert p[j] == t[j - i - 4] && p[j + 1] == t[j + 1 - i - 4];
      }
    }
  }

  /** `Pa` occurs in the prefix only at the start of `Path` (the `P` of
      `EXPAND` is followed by `A`). */
  lemma PrefixNoPath(kind: ValueKind)
    ensures forall j :: 0 <= j < |Prefix(kind)| - 1 && j != |Header| ==>
      Prefix(kind)[j] != 'P' || Prefix(kind)[j + 1] != 'a'
  {
    assert 'P' !in Header;
    TypeFieldNoPa(kind);
    NoPaAround(Header, TypeField(kind));
  }

  lemma PrefixLayout(kind: ValueKind)
    ensures Prefix(kind)[|Header|..|Header| + 4] == "Path"
    ensures forall j :: |Header| + 4 <= j < |Header| + 8 ==> IsReSpace(Prefix(kind)[j])
    ensures Prefix(kind)[|Header| + 8..|Header| + 8 + |KindName(kind)|] == KindName(kind)
    ensures forall j :: |Prefix(kind)| - 4 <= j < |Prefix(kind)| ==> IsReSpace(Prefix(kind)[j])
    ensures forall j :: 0 <= j < |Prefix(kind)| - 1 && j != |Header| ==>
      Prefix(kind)[j] != 'P' || Prefix(kind)[j + 1] != 'a'
  {
    PrefixPath(kind);
    PrefixName(kind);
    PrefixSpaces(kind);
    PrefixNoPath(kind);
  }

  /** In Render(kind, v) the pattern matches at the `Path` of the prefix and
      its last group starts where the spaces in front of `v` end. */
  lemma MatchAtPrefix(kind: ValueKind, w: string, allowSz: bool)
    requires allowSz || kind == RegExpandSz
    ensures MatchAt(Prefix(kind) + w, |Header|, allowSz) ==
      CaptureAfterType(Prefix(kind) + w, |Prefix(kind)| - 4)
  {
    var s := Prefix(kind) + w;
    var i := |Header|;
    PathInPrefix(kind, w);
    SpacesBeforeType(kind, w);
    TypeInPrefix(kind, w, allowSz);
    assert MatchAt(s, i, allowSz) == MatchAfterPath(s, i + 4, allowSz);
  }

  lemma PathInPrefix(kind: ValueKind, w: string)
    ensures "Path" <= (Prefix(kind) + w)[|Header|..]
  {
    var s := Prefix(kind) + w;
    var i := |Header|;
    PrefixPath(kind);
    assert s[i..i + 4] == Prefix(kind)[i..i + 4];
  }

  lemma SpacesBeforeType(kind: ValueKind, w: string)
    ensures SkipReSpace(Prefix(kind) + w, |Header| + 4) == |Header| + 8
  {
    var s := Prefix(kind) + w;
    var i := |Header|;
    PrefixSpaces(kind);
    assert forall j :: i + 4 <= j < i + 8 ==> s[j] == Prefix(kind)[j];
    SkipOverSpaces(s, i + 4, i + 8);
    assert s[i + 8] == Prefix(kind)[i + 8] == 'R';
  }

  lemma TypeInPrefix(kind: ValueKind, w: string, allowSz: bool)
    requires allowSz || kind == RegExpandSz
    ensures TypeEnd(Prefix(kind) + w, |Header| + 8, allowSz) == |Prefix(kind)| - 4
  {
    var s := Prefix(kind) + w;
    var i := |Header|;
    PrefixName(kind);
    assert s[i + 8..i + 8 + |KindName(kind)|] == KindName(kind);
    if kind == RegExpandSz {
      assert s[i + 8 + 4] == 'E';
      assert !("REG_SZ" <= s[i + 8..]);
    }
  }

  /** The fallback pattern of main.go does not match a REG_SZ line. */
  lemma NoExpandMatchOnRegSz(w: string)
    ensures MatchAt(Prefix(RegSz) + w, |Header|, false).None?
  {
    var p := Prefix(RegSz);
    var s := p + w;
    var i := |Header|;
    PrefixLayout(RegSz);
    assert s[i..i + 4] == p[i..i + 4];
    SkipOverSpaces(s, i + 4, i + 8);
    assert SkipReSpace(s, i + 4) == i + 8;
    assert s[i + 8 + 4] == 'S';
    assert !("REG_EXPAND_SZ" <= s[i + 8..]);
  }

  /** No position of the prefix other than the `Path` can start a match. */
  lemma NoMatchInPrefix(kind: ValueKind, w: string, allowSz: bool)
    ensures forall j :: 0 <= j < |Prefix(kind)| && j != |Header| ==> MatchAt(Prefix(kind) + w, j, allowSz).None?
  {
    var p := Prefix(kind);
    PrefixLayout(kind);
    forall j | 0 <= j < |p| && j != |Header| ensures MatchAt(p + w, j, allowSz).None? {
      assert (p + w)[j] == p[j];
      if j < |p| - 1 {
        assert (p + w)[j + 1] == p[j + 1];
      }
      NoMatchWithoutPath(p + w, j, allowSz);
    }
  }

  /** The spaces `\s+` takes in front of the value are white space of `v`
      (or run into its line end). */
  lemma LeadingSpaces(v: string) returns (k: nat)
    requires '\n' !in v
    ensures k == SkipReSpace(v + "\r\n\r\n", 0)
    ensures k <= |v| ==> AllSpace(v[..k])
    ensures k >= |v| ==> AllSpace(v) && k == |v| + 4
  {
    var w := v + "\r\n\r\n";
    k := SkipReSpace(w, 0);
    if k < |v| {
      forall j | 0 <= j < k ensures IsSpace(v[..k][j]) {
        assert v[..k][j] == w[j];
      }
    } else {
      forall j | 0 <= j < |v| ensures IsSpace(v[j]) {
        assert v[j] == w[j];
      }
    }
  }

  /** Past leading spaces that stop inside `v`, `.*` takes the rest of `v`
      and the `\r` before the first line end. */
  lemma RestOfLine(v: string, k: nat)
    requires '\n' !in v && k < |v|
    ensures LineEnd(v + "\r\n\r\n", k) == |v| + 1
    ensures (v + "\r\n\r\n")[k..|v| + 1] == v[k..] + ['\r']
  {
    var w := v + "\r\n\r\n";
    forall j | k <= j <= |v| ensures w[j] != '\n' {
      if j < |v| {
        assert w[j] == v[j];
        assert v[j] in v;
      }
    }
    assert w[|v| + 1] == '\n';
  }

  /** After the four spaces that end the prefix, the capture is taken from
      the text that follows it. */
  lemma CaptureAfterPrefix(p: string, w: string)
    requires |p| >= 4 && forall j :: |p| - 4 <= j < |p| ==> IsReSpace(p[j])
    ensures CaptureAfterType(p + w, |p| - 4) ==
      Some(w[SkipReSpace(w, 0)..LineEnd(w, SkipReSpace(w, 0))])
  {
    var s := p + w;
    SkipOverSpaces(s, |p| - 4, |p|);
    SkipShift(p, w, 0);
    var k := SkipReSpace(w, 0);
    LineEndShift(p, w, k);
    SliceShift(p, w, k, LineEnd(w, k));
  }

  lemma SliceShift(x: string, y: string, a: nat, b: nat)
    requires a <= b <= |y|
    ensures (x + y)[|x| + a..|x| + b] == y[a..b]
  {
    forall i | 0 <= i < b - a ensures (x + y)[|x| + a..|x| + b][i] == y[a..b][i] {
      assert (x + y)[|x| + a + i] == y[a + i];
    }
  }

  /** What `\s+(.*)` captures from a value line `v` followed by
      `\r\n\r\n`: white space in front of `v` goes to `\s+`, the rest of
      the line (with its `\r`) is captured; trimmed, it is `v` trimmed. */
  lemma CaptureOfValue(v: string)
    requires '\n' !in v
    ensures var w := v + "\r\n\r\n"; var k := SkipReSpace(w, 0);
      TrimSpace(w[k..LineEnd(w, k)]) == TrimSpace(v)
  {
    var w := v + "\r\n\r\n";
    var k := LeadingSpaces(v);
    if k < |v| {
      RestOfLine(v, k);
      var c := v[k..] + ['\r'];
      assert w[k..LineEnd(w, k)] == c;
      TrimSpaceAppendSpace(v[k..], '\r');
      assert TrimSpace(c) == TrimSpace(v[k..]);
      TrimSpaceDropLeading(v, k);
    } else {
      assert LineEnd(w, k) == k;
      assert w[k..k] == [];
      TrimRightOfAllSpace(v);
      assert TrimSpace(v) == [];
    }
  }

  /** The leftmost match in Render(kind, v) is the one at `Path`. */
  lemma FirstMatchOfRender(kind: ValueKind, v: string, allowSz: bool)
    requires allowSz || kind == RegExpandSz
    ensures FirstMatch(Render(kind, v), 0, allowSz) ==
      CaptureAfterType(Prefix(kind) + (v + "\r\n\r\n"), |Prefix(kind)| - 4)
  {
    var p := Prefix(kind);
    var w := v + "\r\n\r\n";
    assert Render(kind, v) == p + w;
    MatchAtPrefix(kind, w, allowSz);
    NoMatchInPrefix(kind, w, allowSz);
    FirstMatchAt(p + w, 0, |Header|, allowSz);
  }

  /** The value text that the pattern captures from Render(kind, v). */
  lemma CaptureOfRender(kind: ValueKind, v: string, allowSz: bool) returns (c: string)
    requires '\n' !in v
    requires allowSz || kind == RegExpandSz
    ensures FirstMatch(Render(kind, v), 0, allowSz) == Some(c)
    ensures TrimSpace(c) == TrimSpace(v)
  {
    var p := Prefix(kind);
    var w := v + "\r\n\r\n";
    FirstMatchOfRender(kind, v, allowSz);
    PrefixSpaces(kind);
    CaptureAfterPrefix(p, w);
    CaptureOfValue(v);
    var k := SkipReSpace(w, 0);
    c := w[k..LineEnd(w, k)];
  }

  /** Reading back what `reg query` prints for a value gives the value, up
      to surrounding white space, whichever of the two types it has. */
  lemma ParseRenderRoundTrip(kind: ValueKind, v: string)
    requires '\n' !in v
    ensures ParseUserPath(Render(kind, v)) == TrimSpace(v)
  {
    var c := CaptureOfRender(kind, v, true);
    TrimSpaceIdempotent(v);
  }

  /** The fallback of main.go reads a REG_EXPAND_SZ value back untrimmed
      (the capture keeps the `\r` of the line end) but equal after trimming. */
  lemma LegacyRenderExpand(v: string) returns (c: string)
    requires '\n' !in v
    ensures FirstMatch(Render(RegExpandSz, v), 0, false) == Some(c)
    ensures TrimSpace(c) == TrimSpace(v)
  {
    c := CaptureOfRender(RegExpandSz, v, false);
  }

  /** `REG_EXPAND_SZ` cannot start in a value that does not contain it, nor
      in the line ends after it. */
  lemma NoExpandTypeAfter(x: string, v: string, k: nat)
    requires !Contains(v, "REG_EXPAND_SZ")
    requires |x| <= k <= |x + v + "\r\n\r\n"|
    ensures !("REG_EXPAND_SZ" <= (x + v + "\r\n\r\n")[k..])
  {
    var s := x + v + "\r\n\r\n";
    var e := "REG_EXPAND_SZ";
    var a := k - |x|;
    if a + 13 <= |v| {
      ContainsAt(v, e, a);
      assert s[k..k + 13] == v[a..a + 13];
    } else if k + 13 <= |s| {
      var t := |x| + |v|;
      assert s[t] == '\r';
      assert s[k..][t - k] != e[t - k];
    }
  }

  /** No match of the REG_EXPAND_SZ pattern starts at or after the value. */
  lemma NoLegacyMatchAfter(x: string, v: string, j: nat)
    requires !Contains(v, "REG_EXPAND_SZ")
    requires |x| <= j <= |x + v + "\r\n\r\n"|
    ensures MatchAt(x + v + "\r\n\r\n", j, false).None?
  {
    var s := x + v + "\r\n\r\n";
    if "Path" <= s[j..] {
      var k := SkipReSpace(s, j + 4);
      NoExpandTypeAfter(x, v, k);
      assert TypeEnd(s, k, false) == k;
    }
  }

  /** The fallback of main.go does not see a REG_SZ value: the only way its
      pattern could match is a value that itself spells `REG_EXPAND_SZ`. */
  lemma LegacyMissesRegSz(v: string)
    requires !Contains(v, "REG_EXPAND_SZ")
    ensures FirstMatch(Render(RegSz, v), 0, false) == None
  {
    var p := Prefix(RegSz);
    var w := v + "\r\n\r\n";
    var s := p + w;
    assert Render(RegSz, v) == s == p + v + "\r\n\r\n";
    NoMatchInPrefix(RegSz, w, false);
    NoExpandMatchOnRegSz(w);
    forall j | |p| <= j <= |s| ensures MatchAt(s, j, false).None? {
      NoLegacyMatchAfter(p, v, j);
    }
    FirstMatchNone(s, 0, false);
  }
}
