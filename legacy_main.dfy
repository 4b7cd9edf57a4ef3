/**
 * The older AutoAdd2Path program at the root of the repository (main.go),
 * modelled on its own. It differs from utils/env_windows.go in three ways:
 * it looks at the process's PATH first and reads the key only when that is
 * empty; its reading of `reg query` output accepts only REG_EXPAND_SZ,
 * treats every failure as "not present" and does not trim; and it writes
 * `PATH;target` built from the process's PATH, not from the key.
 *
 * The process's PATH is a parameter: writing the key does not change the
 * environment of the running process.
 */
module LegacyMain {
  import opened Wrappers
  import opened Text
  import opened PathLex
  import opened Codec
  import opened RegOutput
  import opened UserPath

  /** The value IsDirInPath looks at: the process's PATH when it is set,
      otherwise what the REG_EXPAND_SZ fallback captures, if anything. */
  function LegacyUserPath(h: Host, stored: Stored, processPath: string): Option<string> {
    if processPath != "" then Some(processPath) else LegacyReadFromReg(h.respond(stored))
  }

  /** IsDirInPath of main.go: an error only off Windows; otherwise false
      when there is no value, and membership in the value when there is. */
  function LegacyCheck(h: Host, stored: Stored, processPath: string, target: string): (r: Result<bool, ReadError>)
    ensures r.Failure? <==> !h.windows
    ensures h.windows && processPath != "" ==> r == Success(InPath(processPath, target))
    ensures h.windows && processPath == "" && h.respond(stored).status != Exited(0) ==> r == Success(false)
  {
    if !h.windows then Failure(UnsupportedPlatform)
    else
      match LegacyUserPath(h, stored, processPath)
      case None => Success(false)
      case Some(userPath) => Success(InPath(userPath, target))
  }

  /** When the process's PATH is empty and the key holds a REG_EXPAND_SZ
      value, the legacy check and the check of utils/env_windows.go agree,
      although only the latter trims the value. */
  lemma LegacyAgreesOnExpandSz(h: Host, v: string, target: string)
    requires h.windows && RegFaithful(h)
    requires '\n' !in v
    requires RawText(h.respond(Present(RegExpandSz, v)).output) == Render(RegExpandSz, v)
    ensures LegacyCheck(h, Present(RegExpandSz, v), "", target) == CheckSpec(h, Present(RegExpandSz, v), target)
  {
    var stored := Present(RegExpandSz, v);
    var c := LegacyRenderExpand(v);
    ReadFaithful(h, stored);
    assert LegacyCheck(h, stored, "", target) == Success(InPath(c, target));
    InPathOfTrimmed(c, target);
    InPathOfTrimmed(v, target);
    if TrimSpace(v) == "" {
      EmptyHoldsNothing(target);
    }
  }

  /** When the process's PATH is empty and the key holds a REG_SZ value, the
      legacy check does not see the value at all. */
  lemma LegacyIgnoresRegSz(h: Host, v: string, target: string)
    requires h.windows
    requires !Contains(v, "REG_EXPAND_SZ")
    requires h.respond(Present(RegSz, v)).status == Exited(0)
    requires RawText(h.respond(Present(RegSz, v)).output) == Render(RegSz, v)
    ensures LegacyCheck(h, Present(RegSz, v), "", target) == Success(false)
  {
    LegacyMissesRegSz(v);
  }

  /** sendEnvironmentChangeMessage of main.go: nothing to do, and no error,
      off Windows. */
  function LegacyBroadcastStep(st: Registry, h: Host): (Registry, bool) {
    if !h.windows then (st, true) else BroadcastStep(st, h)
  }

  /** AddDirToUserPath of main.go as a step on the key. */
  function LegacyAddStep(st: Registry, h: Host, processPath: string, target: string): (r: (Registry, Outcome<AddError>))
    ensures !h.windows ==> r == (st, Fail(NotWindows))
    ensures r.0 != st ==>
      && LegacyCheck(h, st.stored, processPath, target) == Success(false)
      && h.writeOk(processPath + ";" + target)
      && r.0.stored == Present(RegExpandSz, processPath + ";" + target)
  {
    if !h.windows then (st, Fail(NotWindows))
    else
      match LegacyCheck(h, st.stored, processPath, target)
      case Failure(e) => (st, Fail(CheckFailed(e)))
      case Success(exists_) =>
        if exists_ then (st, Pass)
        else WriteStep(st, h, processPath + ";" + target)
  }

  /** Off Windows the legacy add fails without touching the key, while the
      legacy broadcast succeeds without sending anything. */
  lemma LegacyOffWindows(st: Registry, h: Host, processPath: string, target: string)
    requires !h.windows
    ensures LegacyAddStep(st, h, processPath, target) == (st, Fail(NotWindows))
    ensures LegacyCheck(h, st.stored, processPath, target).Failure?
    ensures LegacyBroadcastStep(st, h) == (st, true)
  {
  }

  /** A new directory replaces whatever the key held by the process's PATH
      followed by `;` and the target (so a leading `;` when PATH is empty);
      the write comes before the one broadcast. */
  lemma LegacyOverwritesUserPath(st: Registry, h: Host, processPath: string, target: string)
    requires h.windows
    requires LegacyCheck(h, st.stored, processPath, target) == Success(false)
    requires h.writeOk(processPath + ";" + target)
    ensures var newPath := processPath + ";" + target;
      && LegacyAddStep(st, h, processPath, target).0
           == Registry(Present(RegExpandSz, newPath), st.log + [Wrote(newPath), Broadcast])
      && (LegacyAddStep(st, h, processPath, target).1 == Pass <==> h.broadcastOk)
  {
  }

  /** With the process's PATH empty, a new directory is written after a
      leading `;`. */
  lemma EmptyPathLeadingSeparator(st: Registry, h: Host, target: string)
    requires h.windows && LegacyCheck(h, st.stored, "", target) == Success(false)
    requires h.writeOk(";" + target)
    ensures LegacyAddStep(st, h, "", target).0.stored == Present(RegExpandSz, ";" + target)
  {
    assert "" + ";" + target == ";" + target;
  }

  /** With PATH empty and a REG_SZ value in the key, the value is lost: the
      key ends up holding only `;` and the target. The add of
      utils/env_windows.go keeps every entry of the same value
      (AddKeepsEntries). */
  lemma LegacyLosesRegSzValue(st: Registry, h: Host, v: string, target: string)
    requires h.windows && st.stored == Present(RegSz, v)
    requires !Contains(v, "REG_EXPAND_SZ")
    requires h.respond(st.stored).status == Exited(0)
    requires RawText(h.respond(st.stored).output) == Render(RegSz, v)
    requires h.writeOk(";" + target)
    ensures LegacyAddStep(st, h, "", target).0.stored == Present(RegExpandSz, ";" + target)
  {
    LegacyIgnoresRegSz(h, v, target);
    EmptyPathLeadingSeparator(st, h, target);
  }

  /** A directory already in the process's PATH is never written. */
  lemma LegacyPresentChangesNothing(st: Registry, h: Host, processPath: string, target: string)
    requires h.windows && processPath != "" && InPath(processPath, target)
    ensures LegacyAddStep(st, h, processPath, target) == (st, Pass)
  {
  }

  /** How op of main.go ends. */
  datatype LegacyEnd = NoExeDir | CheckError(cause: ReadError) | AlreadyPresent | AddAttempted(result: Outcome<AddError>)

  /** IsDirInPath of main.go, with its loop. */
  method LegacyIsDirInPath(env: UserEnvironment, h: Host, processPath: string, targetDir: string)
    returns (r: Result<bool, ReadError>)
    ensures r == LegacyCheck(h, env.stored, processPath, targetDir)
  {
    if !h.windows {
      return Failure(UnsupportedPlatform);
    }
    var userPath := processPath;
    if userPath == "" {
      match LegacyReadFromReg(h.respond(env.stored)) {
        case None => return Success(false);
        case Some(captured) => userPath := captured;
      }
    }
    var pathDirs := Split(userPath);
    var key := Norm(targetDir);
    var found := ScanEntries(pathDirs, key);
    return Success(found);
  }

  /** sendEnvironmentChangeMessage of main.go. */
  method LegacySendEnvironmentChangeMessage(env: UserEnvironment, h: Host) returns (ok: bool)
    modifies env
    ensures (env.State(), ok) == LegacyBroadcastStep(old(env.State()), h)
  {
    if !h.windows {
      return true;
    }
    ok := env.SendEnvironmentChangeMessage(h);
  }

  /** AddDirToUserPath of main.go. */
  method LegacyAddDirToUserPath(env: UserEnvironment, h: Host, processPath: string, targetDir: string)
    returns (r: Outcome<AddError>)
    modifies env
    ensures (env.State(), r) == LegacyAddStep(old(env.State()), h, processPath, targetDir)
  {
    if !h.windows {
      return Fail(NotWindows);
    }
    var exists_ := LegacyIsDirInPath(env, h, processPath, targetDir);
    match exists_ {
      case Failure(e) => return Fail(CheckFailed(e));
      case Success(present) =>
        if present {
          return Pass;
        }
    }
    var userPath := processPath;
    var newPath := userPath + ";" + targetDir;
    r := env.WriteNewPath(h, newPath);
  }

  /** op of main.go: find the program's directory (supplied: None when it
      cannot be found), stop if it is already in the Path, else add it. */
  method LegacyOp(env: UserEnvironment, h: Host, processPath: string, exeDir: Option<string>)
    returns (end: LegacyEnd)
    modifies env
    ensures exeDir.None? <==> end.NoExeDir?
    ensures end.CheckError? <==> exeDir.Some? && LegacyCheck(h, env.stored, processPath, exeDir.value).Failure?
    ensures end.AlreadyPresent? <==> exeDir.Some? && LegacyCheck(h, old(env.stored), processPath, exeDir.value) == Success(true)
    ensures !end.AddAttempted? ==> env.State() == old(env.State())
    ensures end.AddAttempted? ==>
      exeDir.Some? && (env.State(), end.result) == LegacyAddStep(old(env.State()), h, processPath, exeDir.value)
  {
    if exeDir.None? {
      return NoExeDir;
    }
    var exists_ := LegacyIsDirInPath(env, h, processPath, exeDir.value);
    if exists_.Failure? {
      return CheckError(exists_.error);
    }
    if exists_.value {
      return AlreadyPresent;
    }
    var r := LegacyAddDirToUserPath(env, h, processPath, exeDir.value);
    return AddAttempted(r);
  }
}
