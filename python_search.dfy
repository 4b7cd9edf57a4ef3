/**
 * Finding Python installations (FixPythonPath/fix_python_main.go):
 * the list of root directories to search, the rule by which a walk of one
 * root records at most one interpreter, and findPythonInstallation, which
 * gathers the walk hits and the `where` hits into a set.
 *
 * The file system is a parameter: for each path, the tree found there (or
 * nothing). A tree lists each directory's entries in the order
 * filepath.Walk visits them (lexical order). filepath.Abs is a parameter
 * too.
 */
module PythonSearch {
  import opened Wrappers
  import opened Text
  import opened PathLex

  // ---------------------------------------------------------------------
  // The roots

  /** Roots from the two AppData variables, then the two fixed roots. */
  function RootsAfter(systemRoots: seq<string>, localAppData: string, allUsersProfile: string): seq<string> {
    systemRoots
    + (if localAppData != "" then [JoinPath([localAppData, "Programs", "Python"])] else [])
    + (if allUsersProfile != "" then [JoinPath([allUsersProfile, "Programs", "Python"])] else [])
    + ["C:\\Python", "D:\\Python"]
  }

  /** getCommonPythonPaths as written: the drive from SystemDrive is joined
      directly to `Program Files`. */
  function CommonPythonPaths(systemDrive: string, localAppData: string, allUsersProfile: string): (r: seq<string>)
    ensures RootsLayout(r, systemDrive, localAppData, allUsersProfile)
  {
    var systemRoots: seq<string> := if systemDrive != "" then
        [JoinPath([systemDrive, "Program Files", "Python"]),
         JoinPath([systemDrive, "Program Files (x86)", "Python"])]
      else [];
    RootsLayoutAfter(systemRoots, systemDrive, localAppData, allUsersProfile);
    RootsAfter(systemRoots, localAppData, allUsersProfile)
  }

  /** getCommonPythonPaths as intended: the `Program Files` directories at
      the root of the system drive. */
  function CommonPythonPathsFixed(systemDrive: string, localAppData: string, allUsersProfile: string): (r: seq<string>)
    ensures RootsLayout(r, systemDrive, localAppData, allUsersProfile)
  {
    var systemRoots: seq<string> := if systemDrive != "" then
        [JoinPath([systemDrive + [Sep], "Program Files", "Python"]),
         JoinPath([systemDrive + [Sep], "Program Files (x86)", "Python"])]
      else [];
    RootsLayoutAfter(systemRoots, systemDrive, localAppData, allUsersProfile);
    RootsAfter(systemRoots, localAppData, allUsersProfile)
  }

  function Count(b: bool): nat {
    if b then 1 else 0
  }

  /** The layout of a root list: two roots for a set SystemDrive, one for
      each set AppData variable in that order, and always `C:\Python` and
      `D:\Python` last; so between two and six. */
  predicate RootsLayout(r: seq<string>, systemDrive: string, localAppData: string, allUsersProfile: string) {
    && |r| == 2 * Count(systemDrive != "") + Count(localAppData != "") + Count(allUsersProfile != "") + 2
    && 2 <= |r| <= 6
    && r[|r| - 2..] == ["C:\\Python", "D:\\Python"]
    && (localAppData != "" ==> r[2 * Count(systemDrive != "")] == JoinPath([localAppData, "Programs", "Python"]))
    && (allUsersProfile != "" ==>
          r[2 * Count(systemDrive != "") + Count(localAppData != "")] == JoinPath([allUsersProfile, "Programs", "Python"]))
  }

  /** The roots that follow the system drive's, whatever those are. */
  lemma RootsAfterShape(systemRoots: seq<string>, localAppData: string, allUsersProfile: string)
    ensures var r := RootsAfter(systemRoots, localAppData, allUsersProfile);
      && |r| == |systemRoots| + Count(localAppData != "") + Count(allUsersProfile != "") + 2
      && r[..|systemRoots|] == systemRoots
      && r[|r| - 2..] == ["C:\\Python", "D:\\Python"]
      && (localAppData != "" ==> r[|systemRoots|] == JoinPath([localAppData, "Programs", "Python"]))
      && (allUsersProfile != "" ==>
            r[|systemRoots| + Count(localAppData != "")] == JoinPath([allUsersProfile, "Programs", "Python"]))
  {
    var r := RootsAfter(systemRoots, localAppData, allUsersProfile);
    assert r[|r| - 2] == "C:\\Python" && r[|r| - 1] == "D:\\Python";
  }

  /** Two roots for a set SystemDrive, then the rest, give the layout. */
  lemma RootsLayoutAfter(systemRoots: seq<string>, systemDrive: string, localAppData: string, allUsersProfile: string)
    requires |systemRoots| == 2 * Count(systemDrive != "")
    ensures RootsLayout(RootsAfter(systemRoots, localAppData, allUsersProfile), systemDrive, localAppData, allUsersProfile)
  {
    RootsAfterShape(systemRoots, localAppData, allUsersProfile);
  }

  /** The roots after the system drive's do not depend on it. */
  lemma RootsAfterSplit(systemRoots: seq<string>, localAppData: string, allUsersProfile: string)
    ensures RootsAfter(systemRoots, localAppData, allUsersProfile)
      == systemRoots + RootsAfter([], localAppData, allUsersProfile)
  {
  }

  /** Both definitions agree except on the first two roots. */
  lemma RootsDifferOnlyInDrive(systemDrive: string, localAppData: string, allUsersProfile: string)
    ensures var a := CommonPythonPaths(systemDrive, localAppData, allUsersProfile);
      var b := CommonPythonPathsFixed(systemDrive, localAppData, allUsersProfile);
      |a| == |b| && a[2 * Count(systemDrive != "")..] == b[2 * Count(systemDrive != "")..]
  {
    var tail := RootsAfter([], localAppData, allUsersProfile);
    var asWritten: seq<string> := if systemDrive != "" then
        [JoinPath([systemDrive, "Program Files", "Python"]),
         JoinPath([systemDrive, "Program Files (x86)", "Python"])]
      else [];
    var fixed: seq<string> := if systemDrive != "" then
        [JoinPath([systemDrive + [Sep], "Program Files", "Python"]),
         JoinPath([systemDrive + [Sep], "Program Files (x86)", "Python"])]
      else [];
    RootsAfterSplit(asWritten, localAppData, allUsersProfile);
    RootsAfterSplit(fixed, localAppData, allUsersProfile);
    assert |asWritten| == |fixed| == 2 * Count(systemDrive != "");
    assert (asWritten + tail)[|asWritten|..] == tail;
    assert (fixed + tail)[|fixed|..] == tail;
  }

  predicate IsDriveLetter(c: char) {
    'A' <= c <= 'Z' || 'a' <= c <= 'z'
  }

  /** A drive name such as `C:`. */
  predicate DriveName(d: string) {
    |d| == 2 && IsDriveLetter(d[0]) && d[1] == ':'
  }

  lemma JoinThree(a: string, b: string, c: string)
    requires a != []
    ensures JoinAll("", [a, b, c]) == JoinStep(JoinStep(a, b), c)
  {
    assert [a, b, c][1..] == [b, c];
    assert [b, c][1..] == [c];
    assert JoinAll("", [a, b, c]) == JoinAll(a, [b, c]);
    assert JoinAll(a, [b, c]) == JoinAll(JoinStep(a, b), [c]);
    assert JoinAll(JoinStep(a, b), [c]) == JoinAll(JoinStep(JoinStep(a, b), c), []);
  }

  /** `d` + `rest` is clean when `d` is a drive name and `rest` is made of
      letters, spaces, brackets and single backslashes. */
  lemma DriveTailClean(d: string, rest: string)
    requires DriveName(d)
    requires rest != [] && rest[|rest| - 1] != Sep && '/' !in rest && NoDoubleSep(rest)
    requires rest[0] != Sep || |rest| == 1 || rest[1] != Sep
    ensures IsClean(d + rest)
  {
    var x := d + rest;
    assert '/' !in x by {
      forall i | 0 <= i < |x| ensures x[i] != '/' {
        if i >= 2 { assert x[i] == rest[i - 2]; assert rest[i - 2] in rest; }
      }
    }
    assert NoDoubleSep(x) by {
      forall i | 0 <= i < |x| - 1 ensures !(x[i] == Sep && x[i + 1] == Sep) {
        if i >= 2 { assert x[i] == rest[i - 2] && x[i + 1] == rest[i - 1]; }
      }
    }
  }

  /** A plain name, a separator and `Python` has no `/`, no doubled
      separator, and no separator at either end. */
  lemma PlainTail(dir: string)
    requires PlainName(dir)
    ensures var rest := dir + [Sep] + "Python";
      && '/' !in rest && NoDoubleSep(rest) && rest[0] != Sep && rest[|rest| - 1] != Sep
  {
    var rest := dir + [Sep] + "Python";
    var n := |dir|;
    assert forall i :: 0 <= i < n ==> rest[i] == dir[i];
    assert forall i :: 0 <= i < n ==> !IsPathSep(rest[i]) by {
      forall i | 0 <= i < n ensures !IsPathSep(rest[i]) {
        assert dir[i] in dir;
      }
    }
    assert forall i :: n + 1 <= i < |rest| ==> rest[i] == "Python"[i - n - 1];
    assert '/' !in rest by {
      forall i | 0 <= i < |rest| ensures rest[i] != '/' {
        if n + 1 <= i { assert "Python"[i - n - 1] != '/'; }
      }
    }
    assert NoDoubleSep(rest) by {
      forall i | 0 <= i < |rest| - 1 ensures !(rest[i] == Sep && rest[i + 1] == Sep) {
        if n + 1 <= i { assert "Python"[i - n - 1] != Sep; }
      }
    }
    assert rest[|rest| - 1] == 'n';
  }

  /** Go's Join after a bare drive name inserts no separator: `C:`, a plain
      name and `Python` give `C:name\Python`, relative to the current
      directory of that drive. */
  lemma DriveRelativeRoot(d: string, dir: string)
    requires DriveName(d)
    requires PlainName(dir) && dir[|dir| - 1] != ':'
    ensures JoinPath([d, dir, "Python"]) == d + (dir + [Sep] + "Python")
  {
    JoinThree(d, dir, "Python");
    assert JoinStep(d, dir) == d + dir;
    assert dir[|dir| - 1] in dir;
    assert (d + dir)[|d + dir| - 1] == dir[|dir| - 1];
    assert JoinStep(d + dir, "Python") == d + dir + [Sep] + "Python";
    PlainTail(dir);
    var rest := dir + [Sep] + "Python";
    assert rest[0] == dir[0];
    DriveTailClean(d, rest);
    assert d + dir + [Sep] + "Python" == d + rest;
    CleanFixesClean(d + rest);
  }

  /** The two roots getCommonPythonPaths builds from a drive name as written
      are both relative to the current directory of that drive:
      `C:Program Files\Python` and `C:Program Files (x86)\Python`, with no
      separator after the colon. */
  lemma DriveRelativeProgramFiles(d: string)
    requires DriveName(d)
    ensures CommonPythonPaths(d, "", "")[0] == d + "Program Files\\Python"
    ensures CommonPythonPaths(d, "", "")[1] == d + "Program Files (x86)\\Python"
    ensures CommonPythonPaths(d, "", "")[0][2] != Sep && CommonPythonPaths(d, "", "")[1][2] != Sep
  {
    ProgramFilesPlain();
    DriveRelativeRoot(d, "Program Files");
    DriveRelativeRoot(d, "Program Files (x86)");
  }

  /** Joining the root of a drive, a plain directory name and `Python`
      puts one separator between the parts. */
  lemma RootJoin(d: string, dir: string)
    requires DriveName(d)
    requires PlainName(dir) && dir[|dir| - 1] != ':'
    ensures JoinAll("", [d + [Sep], dir, "Python"]) == d + [Sep] + dir + [Sep] + "Python"
  {
    JoinThree(d + [Sep], dir, "Python");
    assert dir[0] in dir && dir[|dir| - 1] in dir;
    assert DropLeadingSeps(dir) == dir;
  }

  /** That join is already clean. */
  lemma RootClean(d: string, dir: string)
    requires DriveName(d) && PlainName(dir)
    ensures IsClean(d + [Sep] + dir + [Sep] + "Python")
  {
    var rest := [Sep] + dir + [Sep] + "Python";
    var n := |dir|;
    assert forall i :: 1 <= i <= n ==> rest[i] == dir[i - 1];
    assert forall i :: 1 <= i <= n ==> !IsPathSep(rest[i]) by {
      forall i | 1 <= i <= n ensures !IsPathSep(rest[i]) {
        assert dir[i - 1] in dir;
      }
    }
    assert forall i :: n + 2 <= i < |rest| ==> rest[i] == "Python"[i - n - 2];
    assert '/' !in rest by {
      forall i | 0 <= i < |rest| ensures rest[i] != '/' {
        if n + 2 <= i { assert "Python"[i - n - 2] != '/'; }
      }
    }
    assert NoDoubleSep(rest) by {
      forall i | 0 <= i < |rest| - 1 ensures !(rest[i] == Sep && rest[i + 1] == Sep) {
        if n + 2 <= i + 1 { assert "Python"[i + 1 - n - 2] != Sep; }
      }
    }
    DriveTailClean(d, rest);
    assert d + rest == d + [Sep] + dir + [Sep] + "Python";
  }

  /** Joining the root of a drive, a plain directory name and `Python`
      gives the three parts with one separator between each. */
  lemma RootPath(d: string, dir: string)
    requires DriveName(d)
    requires PlainName(dir) && dir[|dir| - 1] != ':'
    ensures JoinPath([d + [Sep], dir, "Python"]) == d + [Sep] + dir + [Sep] + "Python"
  {
    RootJoin(d, dir);
    RootClean(d, dir);
    CleanFixesClean(d + [Sep] + dir + [Sep] + "Python");
  }

  lemma ProgramFilesPlain()
    ensures var n := "Program Files"; PlainName(n) && n[|n| - 1] != ':'
    ensures var n := "Program Files (x86)"; PlainName(n) && n[|n| - 1] != ':'
    ensures [Sep] + "Program Files" + [Sep] + "Python" == "\\Program Files\\Python"
    ensures [Sep] + "Program Files (x86)" + [Sep] + "Python" == "\\Program Files (x86)\\Python"
    ensures "Program Files" + [Sep] + "Python" == "Program Files\\Python"
    ensures "Program Files (x86)" + [Sep] + "Python" == "Program Files (x86)\\Python"
  {
  }

  lemma DriveThenTail(d: string, dir: string)
    ensures d + [Sep] + dir + [Sep] + "Python" == d + ([Sep] + dir + [Sep] + "Python")
  {
  }

  /** With the root of the drive joined in, the two Program Files roots are
      absolute: `C:\Program Files\Python` and `C:\Program Files (x86)\Python`. */
  lemma FixedRootsAbsolute(d: string)
    requires DriveName(d)
    ensures CommonPythonPathsFixed(d, "", "")[0] == d + "\\Program Files\\Python"
    ensures CommonPythonPathsFixed(d, "", "")[1] == d + "\\Program Files (x86)\\Python"
  {
    ProgramFilesPlain();
    RootPath(d, "Program Files");
    DriveThenTail(d, "Program Files");
    RootPath(d, "Program Files (x86)");
    DriveThenTail(d, "Program Files (x86)");
  }

  // ---------------------------------------------------------------------
  // The walk of one root

  /** An entry of the file system: a file, a directory with its entries in
      visiting order, or an entry whose Lstat or directory listing fails. */
  datatype Node = File(name: string) | Folder(name: string, children: seq<Node>) | Unreadable(name: string)

  /** What the walk of an entry tells its parent: go on; skip the rest of
      the parent directory (SkipDir returned for a file); stop, having
      recorded `path` (SkipAll); or fail with the error it met. */
  datatype Signal = Continue | SkipParent | Found(path: string) | Failed

  /** strings.EqualFold against `python.exe` or `python3.exe`. Neither name
      holds a letter with a non-ASCII case variant, so ASCII folding is
      exact here. */
  predicate IsPythonExe(name: string) {
    ToLower(name) == "python.exe" || ToLower(name) == "python3.exe"
  }

  /** The interpreters a walk could record, in visiting order: the absolute
      paths of files named like an interpreter. */
  function Candidates(path: string, n: Node, abs: string -> string): seq<string>
    decreases n
  {
    match n
    case File(name) => if IsPythonExe(name) then [abs(path)] else []
    case Folder(_, kids) => CandidatesIn(path, kids, abs)
    case Unreadable(_) => []
  }

  function CandidatesIn(dir: string, kids: seq<Node>, abs: string -> string): seq<string>
    decreases kids
  {
    if kids == [] then []
    else Candidates(JoinPath([dir, kids[0].name]), kids[0], abs) + CandidatesIn(dir, kids[1..], abs)
  }

  /** The walk of one entry with the callback of findPythonInstallation:
      an error ends the walk; a matching file whose absolute path contains
      `Lib` skips the rest of its directory; any other matching file is
      recorded and ends the walk. Only a hit is ever recorded, and it is
      one of the candidates. */
  function Visit(path: string, n: Node, abs: string -> string): (s: Signal)
    ensures s.Found? ==> s.path in Candidates(path, n, abs) && !Contains(s.path, "Lib")
    decreases n
  {
    match n
    case Unreadable(_) => Failed
    case File(name) =>
      if IsPythonExe(name) then
        var absPath := abs(path);
        if Contains(absPath, "Lib") then SkipParent else Found(absPath)
      else Continue
    case Folder(_, kids) => VisitIn(path, kids, abs)
  }

  /** The loop of filepath.Walk over a directory's entries: go on after a
      child that continues, and after a directory child that skipped;
      hand anything else up. */
  function VisitIn(dir: string, kids: seq<Node>, abs: string -> string): (s: Signal)
    ensures s.Found? ==> s.path in CandidatesIn(dir, kids, abs) && !Contains(s.path, "Lib")
    decreases kids
  {
    if kids == [] then Continue
    else
      var s := Visit(JoinPath([dir, kids[0].name]), kids[0], abs);
      if s == Continue || (s == SkipParent && kids[0].Folder?) then VisitIn(dir, kids[1..], abs)
      else s
  }

  /** No entry of the tree fails to be read. */
  predicate Readable(n: Node)
    decreases n
  {
    match n
    case File(_) => true
    case Unreadable(_) => false
    case Folder(_, kids) => forall i :: 0 <= i < |kids| ==> Readable(kids[i])
  }

  /** In a readable tree where no candidate's path contains `Lib`, the walk
      records the first candidate in visiting order, and records nothing
      only when there is none. */
  lemma {:induction false} VisitFindsFirst(path: string, n: Node, abs: string -> string)
    requires Readable(n)
    requires forall c :: c in Candidates(path, n, abs) ==> !Contains(c, "Lib")
    ensures var cs := Candidates(path, n, abs);
      Visit(path, n, abs) == if cs == [] then Continue else Found(cs[0])
    decreases n
  {
    match n
    case File(_) =>
    case Folder(_, kids) =>
      VisitInFindsFirst(path, kids, abs);
  }

  lemma {:induction false} VisitInFindsFirst(dir: string, kids: seq<Node>, abs: string -> string)
    requires forall i :: 0 <= i < |kids| ==> Readable(kids[i])
    requires forall c :: c in CandidatesIn(dir, kids, abs) ==> !Contains(c, "Lib")
    ensures var cs := CandidatesIn(dir, kids, abs);
      VisitIn(dir, kids, abs) == if cs == [] then Continue else Found(cs[0])
    decreases kids
  {
    if kids != [] {
      var p := JoinPath([dir, kids[0].name]);
      var first := Candidates(p, kids[0], abs);
      var rest := CandidatesIn(dir, kids[1..], abs);
      assert CandidatesIn(dir, kids, abs) == first + rest;
      VisitFindsFirst(p, kids[0], abs);
      if first == [] {
        VisitInFindsFirst(dir, kids[1..], abs);
      } else {
        assert (first + rest)[0] == first[0];
      }
    }
  }

  /** One root: a missing root is skipped; otherwise the walk's hit, if it
      recorded one. A failed walk is skipped too. */
  function WalkRoot(fs: string -> Option<Node>, abs: string -> string, base: string): (hit: Option<string>)
    ensures hit.Some? ==> fs(base).Some? && hit.value in Candidates(base, fs(base).value, abs) && !Contains(hit.value, "Lib")
  {
    match fs(base)
    case None => None
    case Some(n) =>
      match Visit(base, n, abs)
      case Found(a) => Some(a)
      case _ => None
  }

  function Hits(hit: Option<string>): set<string> {
    if hit.Some? then {hit.value} else {}
  }

  /** What the walks of the roots record. */
  function RootHits(roots: seq<string>, fs: string -> Option<Node>, abs: string -> string): set<string>
    decreases |roots|
  {
    if roots == [] then {}
    else RootHits(roots[..|roots| - 1], fs, abs) + Hits(WalkRoot(fs, abs, roots[|roots| - 1]))
  }

  /** What the `where` lines add: each non-blank line, trimmed, made
      absolute. */
  function WhereHits(lines: seq<string>, abs: string -> string): set<string>
    decreases |lines|
  {
    if lines == [] then {} else WhereHits(lines[..|lines| - 1], abs) + WhereHit(lines[|lines| - 1], abs)
  }

  /** What one `where` line adds. */
  function WhereHit(line: string, abs: string -> string): set<string> {
    var p := TrimSpace(line);
    if p == "" then {} else {abs(p)}
  }

  /** Every walk hit is a Lib-free candidate of one of the roots. */
  lemma {:induction false} RootHitsAreCandidates(roots: seq<string>, fs: string -> Option<Node>, abs: string -> string, x: string)
    requires x in RootHits(roots, fs, abs)
    ensures !Contains(x, "Lib")
    ensures exists i :: 0 <= i < |roots| && fs(roots[i]).Some? && x in Candidates(roots[i], fs(roots[i]).value, abs)
    decreases |roots|
  {
    var last := |roots| - 1;
    if x in Hits(WalkRoot(fs, abs, roots[last])) {
      assert fs(roots[last]).Some? && x in Candidates(roots[last], fs(roots[last]).value, abs);
    } else {
      RootHitsAreCandidates(roots[..last], fs, abs, x);
      var i :| 0 <= i < last && fs(roots[..last][i]).Some? && x in Candidates(roots[..last][i], fs(roots[..last][i]).value, abs);
      assert roots[..last][i] == roots[i];
    }
  }

  /** Each root contributes at most one interpreter. */
  lemma {:induction false} RootHitsBound(roots: seq<string>, fs: string -> Option<Node>, abs: string -> string)
    ensures |RootHits(roots, fs, abs)| <= |roots|
    decreases |roots|
  {
    if roots != [] {
      var last := |roots| - 1;
      RootHitsBound(roots[..last], fs, abs);
      var prev := RootHits(roots[..last], fs, abs);
      var h := Hits(WalkRoot(fs, abs, roots[last]));
      assert |h| <= 1;
      assert |prev + h| <= |prev| + |h|;
    }
  }

  /** Every `where` hit is the absolute form of a non-blank trimmed line. */
  lemma {:induction false} WhereHitsAreLines(lines: seq<string>, abs: string -> string, x: string)
    requires x in WhereHits(lines, abs)
    ensures exists i :: 0 <= i < |lines| && TrimSpace(lines[i]) != "" && x == abs(TrimSpace(lines[i]))
    decreases |lines|
  {
    var last := |lines| - 1;
    var p := TrimSpace(lines[last]);
    if p != "" && x == abs(p) {
      assert 0 <= last < |lines| && TrimSpace(lines[last]) != "" && x == abs(TrimSpace(lines[last]));
    } else {
      assert x in WhereHits(lines[..last], abs);
      WhereHitsAreLines(lines[..last], abs, x);
      var i :| 0 <= i < last && TrimSpace(lines[..last][i]) != "" && x == abs(TrimSpace(lines[..last][i]));
      assert lines[..last][i] == lines[i];
    }
  }

  predicate Distinct(s: seq<string>) {
    forall i, j :: 0 <= i < j < |s| ==> s[i] != s[j]
  }

  /** findPythonInstallation: walk every root, add the `where` hits, and
      return the collected set in some order, without duplicates. */
  method FindPythonInstallation(roots: seq<string>, fs: string -> Option<Node>, abs: string -> string, whereLines: seq<string>)
    returns (result: seq<string>)
    ensures Distinct(result)
    ensures forall p :: p in result <==> p in RootHits(roots, fs, abs) + WhereHits(whereLines, abs)
    ensures |result| == |RootHits(roots, fs, abs) + WhereHits(whereLines, abs)|
  {
    var walked := WalkRoots(roots, fs, abs);
    var pythonPaths := CollectWhere(walked, whereLines, abs);
    result := Enumerate(pythonPaths);
  }

  /** The first loop of findPythonInstallation: one walk per root. */
  method WalkRoots(roots: seq<string>, fs: string -> Option<Node>, abs: string -> string)
    returns (pythonPaths: set<string>)
    ensures pythonPaths == RootHits(roots, fs, abs)
  {
    pythonPaths := {};
    var i := 0;
    while i < |roots|
      invariant 0 <= i <= |roots|
      invariant pythonPaths == RootHits(roots[..i], fs, abs)
    {
      assert roots[..i + 1][..i] == roots[..i];
      var basePath := roots[i];
      if fs(basePath).Some? {
        match Visit(basePath, fs(basePath).value, abs)
        case Found(absPath) =>
          pythonPaths := pythonPaths + {absPath};
        case _ =>
      }
      i := i + 1;
    }
    assert roots[..|roots|] == roots;
  }

  /** The second loop of findPythonInstallation: the `where` lines. */
  method CollectWhere(walked: set<string>, whereLines: seq<string>, abs: string -> string)
    returns (pythonPaths: set<string>)
    ensures pythonPaths == walked + WhereHits(whereLines, abs)
  {
    pythonPaths := walked;
    var k := 0;
    assert whereLines[..0] == [];
    while k < |whereLines|
      invariant 0 <= k <= |whereLines|
      invariant pythonPaths == walked + WhereHits(whereLines[..k], abs)
    {
      assert whereLines[..k + 1][..k] == whereLines[..k];
      pythonPaths := AddWhereLine(pythonPaths, whereLines[k], abs);
      k := k + 1;
    }
    assert whereLines[..k] == whereLines;
  }

  /** The body of that loop: a non-blank line, trimmed and made absolute,
      joins the set. */
  method AddWhereLine(paths: set<string>, line: string, abs: string -> string) returns (paths': set<string>)
    ensures paths' == paths + WhereHit(line, abs)
  {
    paths' := paths;
    var path := TrimSpace(line);
    if path != "" {
      paths' := paths' + {abs(path)};
    }
  }

  /** The loop over the map's keys: each element once, in an order the
      model does not fix. */
  method Enumerate(paths: set<string>) returns (result: seq<string>)
    ensures Distinct(result)
    ensures forall p :: p in result <==> p in paths
    ensures |result| == |paths|
  {
    result := [];
    var rest := paths;
    while rest != {}
      invariant Distinct(result)
      invariant forall p :: p in result ==> p !in rest
      invariant forall p :: p in paths <==> p in result || p in rest
      invariant |result| + |rest| == |paths|
      decreases |rest|
    {
      var path :| path in rest;
      result := result + [path];
      rest := rest - {path};
    }
  }
}
