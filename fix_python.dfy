/**
 * The FixPythonPath tool (FixPythonPath/fix_python_main.go): choose one of
 * the Python installations found, clear the old Python directories from
 * the user's Path, and add the chosen interpreter's directory and its
 * Scripts directory.
 *
 * The console is two streams of reads: the results of `Scanf("%d\n")` for
 * the index prompt, and the lines read by the two Y/N prompts. The output
 * of `where` (for the search, and the directories it prints for the
 * cleanup) is given with the machine.
 */
module FixPython {
  import opened Wrappers
  import opened Text
  import opened PathLex
  import opened UserPath
  import opened Prompt
  import opened PythonSearch

  // ---------------------------------------------------------------------
  // extractPythonDirPath

  /** The interpreter's directory and the Scripts directory inside it;
      both come out cleaned, whatever the spelling of `p`. */
  function ExtractPythonDirPath(p: string): (r: (string, string))
    ensures IsClean(r.0) && IsClean(r.1)
  {
    var pythonDir := Dir(p);
    assert [pythonDir, "Scripts"][1] != "";
    (pythonDir, JoinPath([pythonDir, "Scripts"]))
  }

  /** The Scripts directory's parent is the interpreter's directory (unless
      that directory is a bare drive-relative volume such as `C:`, after
      which Join inserts no separator). */
  lemma ScriptsInPythonDir(p: string)
    requires Dir(p)[|Dir(p)| - 1] != ':'
    ensures var (pythonDir, scriptsDir) := ExtractPythonDirPath(p);
      Dir(scriptsDir) == pythonDir
  {
    DirOfJoin(Dir(p), "Scripts");
  }

  /** The directory part inverts the join that made the interpreter's path. */
  lemma PythonDirOfInterpreter(d: string, name: string)
    requires IsClean(d) && d[|d| - 1] != ':'
    requires PlainName(name)
    ensures ExtractPythonDirPath(JoinPath([d, name])).0 == d
  {
    DirOfJoin(d, name);
  }

  // ---------------------------------------------------------------------
  // The index prompt

  /** A read of the index prompt that selects an installation: an integer
      from 1 to `count`. */
  predicate ValidChoice(r: Option<int>, count: nat) {
    r.Some? && 1 <= r.value <= count
  }

  /** The first valid choice from `start` on, as a 0-based index, and the
      position after it; none when the reads run out first. */
  function FirstChoice(choices: seq<Option<int>>, start: nat, count: nat): (Option<nat>, nat)
    requires start <= |choices|
    decreases |choices| - start
  {
    if start == |choices| then (None, start)
    else if ValidChoice(choices[start], count) then (Some(choices[start].value - 1), start + 1)
    else FirstChoice(choices, start + 1, count)
  }

  /** Every read before the accepted one is invalid, and the accepted one
      selects an index below `count`. */
  lemma {:induction false} FirstChoiceSkipsInvalid(choices: seq<Option<int>>, start: nat, count: nat)
    requires start <= |choices|
    ensures var (index, next) := FirstChoice(choices, start, count);
      && start <= next <= |choices|
      && (forall j :: start <= j < next - 1 ==> !ValidChoice(choices[j], count))
      && (index.Some? ==> next > start && index.value < count && choices[next - 1] == Some(index.value + 1))
      && (index.None? ==> next == |choices| && forall j :: start <= j < |choices| ==> !ValidChoice(choices[j], count))
    decreases |choices| - start
  {
    if start < |choices| && !ValidChoice(choices[start], count) {
      FirstChoiceSkipsInvalid(choices, start + 1, count);
    }
  }

  /** The selection loop of op: re-prompt on a read that is not an integer
      or is out of range. */
  method ChooseIndex(choices: seq<Option<int>>, start: nat, count: nat) returns (index: Option<nat>, next: nat)
    requires start <= |choices|
    ensures (index, next) == FirstChoice(choices, start, count)
  {
    var i := start;
    while i < |choices|
      invariant start <= i <= |choices|
      invariant FirstChoice(choices, i, count) == FirstChoice(choices, start, count)
    {
      var choice := choices[i];
      i := i + 1;
      if choice.None? {
        continue;
      }
      if choice.value < 1 || choice.value > count {
        continue;
      }
      return Some(choice.value - 1), i;
    }
    return None, i;
  }

  // ---------------------------------------------------------------------
  // clearPythonPaths

  /** The Path entries the second pass deletes, in order: those containing
      `WindowsApps` (case-sensitive). */
  function WindowsAppsEntries(entries: seq<string>): (r: seq<string>)
    ensures forall x :: x in r <==> x in entries && Contains(x, "WindowsApps")
    decreases |entries|
  {
    if entries == [] then []
    else (if Contains(entries[0], "WindowsApps") then [entries[0]] else []) + WindowsAppsEntries(entries[1..])
  }

  function Deletions(dirs: seq<string>): seq<Effect> {
    seq(|dirs|, i requires 0 <= i < |dirs| => Deleted(dirs[i]))
  }

  /** Delete each directory in turn, stopping at the first failure. */
  function DeleteAll(st: Registry, h: Host, dirs: seq<string>): (r: (Registry, bool))
    ensures |st.log| <= |r.0.log| <= |st.log| + |dirs| && r.0.log[..|st.log|] == st.log
    ensures r.1 ==> |r.0.log| == |st.log| + |dirs|
    decreases |dirs|
  {
    if dirs == [] then (st, true)
    else
      var (next, ok) := DeleteStep(st, h, dirs[0]);
      if !ok then (next, false) else DeleteAll(next, h, dirs[1..])
  }

  /** The deletions that happen are those of a prefix of the directories,
      in order; the whole list exactly when no deletion failed. */
  lemma {:induction false} DeleteAllLog(st: Registry, h: Host, dirs: seq<string>) returns (k: nat)
    ensures k <= |dirs|
    ensures DeleteAll(st, h, dirs).0.log == st.log + Deletions(dirs[..k])
    ensures DeleteAll(st, h, dirs).1 <==> k == |dirs|
    decreases |dirs|
  {
    if dirs == [] {
      k := 0;
    } else {
      match h.delete(st.stored, dirs[0]) {
        case None =>
          k := 0;
          assert Deletions(dirs[..0]) == [];
        case Some(s) =>
          var next := Registry(s, st.log + [Deleted(dirs[0])]);
          var rest := DeleteAllLog(next, h, dirs[1..]);
          k := rest + 1;
          assert dirs[..k] == [dirs[0]] + dirs[1..][..rest];
          assert Deletions(dirs[..k]) == [Deleted(dirs[0])] + Deletions(dirs[1..][..rest]);
      }
    }
  }

  /** The entries the WindowsApps pass works through: none unless every
      `where` directory was deleted and the Path list could be read. */
  function AppsToDelete(st: Registry, h: Host, whereDirs: seq<string>): seq<string> {
    if whereDirs == [] then []
    else
      var (afterDirs, ok) := DeleteAll(st, h, whereDirs);
      if !ok then []
      else
        match h.pathList(afterDirs.stored)
        case None => []
        case Some(entries) => WindowsAppsEntries(entries)
  }

  /** clearPythonPaths as a step: nothing without `where` directories; else
      delete them, and only when all went, the WindowsApps entries. */
  function ClearSpec(st: Registry, h: Host, whereDirs: seq<string>): (r: Registry)
    ensures whereDirs == [] ==> r == st
    ensures |st.log| <= |r.log| && r.log[..|st.log|] == st.log
  {
    if whereDirs == [] then st
    else
      var (afterDirs, ok) := DeleteAll(st, h, whereDirs);
      if !ok then afterDirs
      else DeleteAll(afterDirs, h, AppsToDelete(st, h, whereDirs)).0
  }

  /** What clearPythonPaths does to the log: it deletes a prefix of the
      `where` directories, and then a prefix of the WindowsApps entries,
      which it reaches only after every `where` directory is gone. With no
      `where` directories it changes nothing. */
  lemma ClearLog(st: Registry, h: Host, whereDirs: seq<string>) returns (k: nat, m: nat)
    ensures k <= |whereDirs| && m <= |AppsToDelete(st, h, whereDirs)|
    ensures ClearSpec(st, h, whereDirs).log
      == st.log + Deletions(whereDirs[..k]) + Deletions(AppsToDelete(st, h, whereDirs)[..m])
    ensures AppsToDelete(st, h, whereDirs) != [] ==> k == |whereDirs|
    ensures whereDirs == [] ==> ClearSpec(st, h, whereDirs) == st
  {
    var apps := AppsToDelete(st, h, whereDirs);
    if whereDirs == [] {
      k, m := 0, 0;
      assert Deletions(whereDirs[..0]) == [] && Deletions(apps[..0]) == [];
    } else {
      k := DeleteAllLog(st, h, whereDirs);
      var (afterDirs, ok) := DeleteAll(st, h, whereDirs);
      if !ok {
        m := 0;
        assert Deletions(apps[..0]) == [];
      } else {
        m := DeleteAllLog(afterDirs, h, apps);
      }
    }
  }

  /** The first loop of clearPythonPaths. */
  method DeleteEach(env: UserEnvironment, h: Host, dirs: seq<string>) returns (ok: bool)
    modifies env
    ensures (env.State(), ok) == DeleteAll(old(env.State()), h, dirs)
  {
    ghost var st := env.State();
    var i := 0;
    while i < |dirs|
      invariant 0 <= i <= |dirs|
      invariant DeleteAll(st, h, dirs) == DeleteAll(env.State(), h, dirs[i..])
    {
      assert dirs[i..][0] == dirs[i] && dirs[i..][1..] == dirs[i + 1..];
      ok := env.DeleteDirFromUserPath(h, dirs[i]);
      if !ok {
        return;
      }
      i := i + 1;
    }
    return true;
  }

  /** The second loop of clearPythonPaths: delete the entries containing
      `WindowsApps`, stopping at the first failure. */
  method DeleteWindowsApps(env: UserEnvironment, h: Host, entries: seq<string>) returns (ok: bool)
    modifies env
    ensures (env.State(), ok) == DeleteAll(old(env.State()), h, WindowsAppsEntries(entries))
  {
    ghost var st := env.State();
    var i := 0;
    while i < |entries|
      invariant 0 <= i <= |entries|
      invariant DeleteAll(st, h, WindowsAppsEntries(entries)) == DeleteAll(env.State(), h, WindowsAppsEntries(entries[i..]))
    {
      assert entries[i..][0] == entries[i] && entries[i..][1..] == entries[i + 1..];
      var path := entries[i];
      ghost var later := WindowsAppsEntries(entries[i + 1..]);
      if Contains(path, "WindowsApps") {
        assert WindowsAppsEntries(entries[i..]) == [path] + later;
        assert ([path] + later)[1..] == later;
        ghost var before := env.State();
        ok := env.DeleteDirFromUserPath(h, path);
        if !ok {
          return;
        }
        assert DeleteAll(before, h, [path] + later) == DeleteAll(env.State(), h, later);
      } else {
        assert WindowsAppsEntries(entries[i..]) == [] + later;
        assert [] + later == later;
      }
      i := i + 1;
    }
    assert entries[|entries|..] == [];
    return true;
  }

  /** clearPythonPaths. */
  method ClearPythonPaths(env: UserEnvironment, h: Host, whereDirs: seq<string>)
    modifies env
    ensures env.State() == ClearSpec(old(env.State()), h, whereDirs)
  {
    if |whereDirs| == 0 {
      return;
    }
    var ok := DeleteEach(env, h, whereDirs);
    if !ok {
      return;
    }
    var pathList := env.GetPathList(h);
    if pathList.None? {
      return;
    }
    ok := DeleteWindowsApps(env, h, pathList.value);
  }

  // ---------------------------------------------------------------------
  // op

  /** How op ends: no installation found; the reads ran out at a prompt
      (where the source would wait for ever); a prompt declined; or both
      adds attempted, with their results. */
  datatype OpEnd =
    | NoPython
    | InputExhausted
    | DeclinedCleanup
    | DeclinedAdd
    | Added(dirResult: Outcome<AddError>, scriptsResult: Outcome<AddError>)

  /** What the machine offers op besides the Path: the three environment
      variables, the file system and filepath.Abs, the lines `where` prints
      for the search, and the directories it prints for the cleanup. */
  datatype Machine = Machine(
    systemDrive: string,
    localAppData: string,
    allUsersProfile: string,
    fs: string -> Option<Node>,
    abs: string -> string,
    whereLines: seq<string>,
    whereDirs: seq<string>)

  /** The installations findPythonInstallation reports. */
  function Installations(m: Machine): set<string> {
    RootHits(CommonPythonPathsFixed(m.systemDrive, m.localAppData, m.allUsersProfile), m.fs, m.abs)
    + WhereHits(m.whereLines, m.abs)
  }

  /** The part of op after an installation is chosen: confirm, clean,
      confirm, add the directory, then (whatever the first add gave) the
      Scripts directory. */
  method ConfirmAndAdd(env: UserEnvironment, h: Host, whereDirs: seq<string>, pythonPath: string, lines: seq<LineRead>)
    returns (end: OpEnd)
    modifies env
    ensures !end.NoPython?
    ensures end.DeclinedCleanup? ==> env.State() == old(env.State())
    ensures end.DeclinedAdd? ==> env.State() == ClearSpec(old(env.State()), h, whereDirs)
    ensures var (first, next) := FirstAnswer(Answers(lines), 0);
      && next <= |lines|
      && (first == Some(false) <==> end.DeclinedCleanup?)
      && (first.None? ==> end.InputExhausted? && env.State() == old(env.State()))
      && (first == Some(true) ==>
            var second := FirstAnswer(Answers(lines), next).0;
            && (second.None? <==> end.InputExhausted?)
            && (second == Some(false) <==> end.DeclinedAdd?)
            && (second != Some(true) ==> env.State() == ClearSpec(old(env.State()), h, whereDirs)))
    ensures end.Added? ==>
      var (pythonDir, scriptsDir) := ExtractPythonDirPath(pythonPath);
      var (afterDir, dirResult) := AddStep(ClearSpec(old(env.State()), h, whereDirs), h, pythonDir);
      end.dirResult == dirResult && (env.State(), end.scriptsResult) == AddStep(afterDir, h, scriptsDir)
  {
    var pythonDirPath, pythonScriptsDirPath := ExtractPythonDirPath(pythonPath).0, ExtractPythonDirPath(pythonPath).1;
    FirstAnswerSkipsAgain(Answers(lines), 0);
    var option, next := Confirm(lines, 0);
    if option.None? {
      return InputExhausted;
    }
    if !option.value {
      return DeclinedCleanup;
    }
    ClearPythonPaths(env, h, whereDirs);
    option, next := Confirm(lines, next);
    if option.None? {
      return InputExhausted;
    }
    if !option.value {
      return DeclinedAdd;
    }
    var dirResult := env.AddDirToUserPath(h, pythonDirPath);
    var scriptsResult := env.AddDirToUserPath(h, pythonScriptsDirPath);
    return Added(dirResult, scriptsResult);
  }

  /** op: find the installations, stop when there are none, ask for one by
      its number, then confirm, clean and add. */
  method Op(env: UserEnvironment, h: Host, m: Machine, choices: seq<Option<int>>, lines: seq<LineRead>)
    returns (end: OpEnd, chosen: Option<string>)
    modifies env
    ensures end.NoPython? <==> Installations(m) == {}
    ensures end.NoPython? ==> env.State() == old(env.State())
    ensures chosen.None? ==> env.State() == old(env.State())
    ensures chosen.None? && !end.NoPython? ==>
      end.InputExhausted? && FirstChoice(choices, 0, |Installations(m)|).0.None?
    ensures chosen.Some? ==> chosen.value in Installations(m) && FirstChoice(choices, 0, |Installations(m)|).0.Some?
    ensures end.DeclinedCleanup? ==> chosen.Some? && env.State() == old(env.State())
    ensures end.DeclinedAdd? ==> chosen.Some? && env.State() == ClearSpec(old(env.State()), h, m.whereDirs)
    ensures end.Added? ==> chosen.Some?
    ensures end.Added? && chosen.Some? ==>
      var (pythonDir, scriptsDir) := ExtractPythonDirPath(chosen.value);
      var (afterDir, dirResult) := AddStep(ClearSpec(old(env.State()), h, m.whereDirs), h, pythonDir);
      end.dirResult == dirResult && (env.State(), end.scriptsResult) == AddStep(afterDir, h, scriptsDir)
  {
    var roots := CommonPythonPathsFixed(m.systemDrive, m.localAppData, m.allUsersProfile);
    var pythonPaths := FindPythonInstallation(roots, m.fs, m.abs, m.whereLines);
    if |pythonPaths| == 0 {
      return NoPython, None;
    }
    assert pythonPaths[0] in Installations(m);
    var index, _ := ChooseIndex(choices, 0, |pythonPaths|);
    if index.None? {
      return InputExhausted, None;
    }
    FirstChoiceSkipsInvalid(choices, 0, |pythonPaths|);
    var pythonPath := pythonPaths[index.value];
    end := ConfirmAndAdd(env, h, m.whereDirs, pythonPath, lines);
    chosen := Some(pythonPath);
  }
}
