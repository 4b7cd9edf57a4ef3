/**
 * The user-level Path variable of utils/env_windows.go: the membership test
 * IsDirInPath and the read-modify-write AddDirToUserPath, over a model of
 * the `HKCU\Environment` key.
 *
 * The key is a store the tool reaches only through `reg`: reading it runs
 * `reg query`, whose exit status and output the host supplies as a
 * function of what is stored; writing runs `reg add`, whose success the
 * host decides. The broadcast of WM_SETTINGCHANGE and the delete and list
 * helpers that other parts of the tool call are host behaviour too.
 */
module UserPath {
  import opened Wrappers
  import opened Text
  import opened PathLex
  import opened Codec
  import opened RegOutput

  /** What the `Path` value of `HKCU\Environment` holds. */
  datatype Stored = Absent | Present(kind: ValueKind, text: string)

  /** Effects on the world outside the key, in the order they happen. */
  datatype Effect = Wrote(text: string) | Broadcast | Deleted(dir: string)

  /** The key and the effects so far. */
  datatype Registry = Registry(stored: Stored, log: seq<Effect>)

  /** How the machine answers: the platform, what `reg query` prints for a
      stored value, the GBK decoder, whether `reg add` accepts a value,
      whether the broadcast gets through, and the two helpers outside this
      file (deleting a directory from the Path, listing its entries). */
  datatype Host = Host(
    windows: bool,
    respond: Stored -> RegQuery,
    decode: seq<byte> -> Option<string>,
    writeOk: string -> bool,
    broadcastOk: bool,
    delete: (Stored, string) -> Option<Stored>,
    pathList: Stored -> Option<seq<string>>)

  /** `reg query` behaves as on a real machine: a missing key answers exit
      code 1 with the not-found message; a stored value is printed in the
      layout of Render and decodes without error. */
  ghost predicate RegFaithful(h: Host) {
    && ReportsMissingKey(h.respond(Absent))
    && forall k: ValueKind, t: string :: '\n' !in t ==>
         && h.respond(Present(k, t)).status == Exited(0)
         && |h.respond(Present(k, t)).output| > 0
         && h.decode(h.respond(Present(k, t)).output) == Some(Render(k, t))
  }

  /** readUserPathFromReg run against the store. */
  function Read(h: Host, stored: Stored): Result<string, ReadError> {
    ReadUserPathFromReg(h.windows, h.respond(stored), h.decode)
  }

  /** Reading back a value the key holds gives it trimmed; reading a missing
      key gives "". */
  lemma ReadFaithful(h: Host, stored: Stored)
    requires h.windows && RegFaithful(h)
    requires stored.Present? ==> '\n' !in stored.text
    ensures Read(h, stored) == Success(if stored.Absent? then "" else TrimSpace(stored.text))
  {
    if stored.Present? {
      var q := h.respond(stored);
      assert h.decode(q.output) == Some(Render(stored.kind, stored.text));
      ParseRenderRoundTrip(stored.kind, stored.text);
    }
  }

  // ---------------------------------------------------------------------
  // Membership

  /** One Path entry has the comparison key `key`: trimmed, it is not blank,
      and Clean(ToLower(.)) of it is `key`. */
  predicate HasKey(entry: string, key: string) {
    TrimSpace(entry) != "" && Norm(TrimSpace(entry)) == key
  }

  /** One Path entry names the target: it has the key of the (untrimmed)
      target. */
  predicate EntryNames(entry: string, target: string) {
    HasKey(entry, Norm(target))
  }

  /** Some `;`-separated entry of the value names the target. */
  predicate InPath(value: string, target: string) {
    exists i :: 0 <= i < |Split(value)| && EntryNames(Split(value)[i], target)
  }

  /** The loop of IsDirInPath: scan the entries, stop at the first that
      names the directory whose key is `key`. */
  method ScanEntries(entries: seq<string>, key: string) returns (found: bool)
    ensures found <==> exists i :: 0 <= i < |entries| && HasKey(entries[i], key)
  {
    var i := 0;
    while i < |entries|
      invariant 0 <= i <= |entries|
      invariant forall j :: 0 <= j < i ==> !HasKey(entries[j], key)
    {
      var matches := EntryMatches(entries[i], key);
      if matches {
        assert 0 <= i < |entries| && HasKey(entries[i], key);
        return true;
      }
      i := i + 1;
    }
    return false;
  }

  /** The body of that loop for one entry: a blank entry is skipped, any
      other is compared by its key. */
  method EntryMatches(entry: string, key: string) returns (matches: bool)
    ensures matches == HasKey(entry, key)
  {
    var dir := TrimSpace(entry);
    if dir == "" {
      return false;
    }
    var cleanDir := Norm(dir);
    return cleanDir == key;
  }

  /** Two lists of entries that agree once each entry is trimmed name the
      same directories. */
  lemma SameTrimmedEntries(raw: seq<string>, trimmed: seq<string>, target: string)
    requires |raw| == |trimmed|
    requires forall i :: 0 <= i < |raw| ==> TrimSpace(raw[i]) == TrimSpace(trimmed[i])
    ensures (exists i :: 0 <= i < |raw| && EntryNames(raw[i], target))
        <==> (exists i :: 0 <= i < |trimmed| && EntryNames(trimmed[i], target))
  {
    if exists i :: 0 <= i < |raw| && EntryNames(raw[i], target) {
      var i :| 0 <= i < |raw| && EntryNames(raw[i], target);
      assert EntryNames(trimmed[i], target);
    }
    if exists i :: 0 <= i < |trimmed| && EntryNames(trimmed[i], target) {
      var i :| 0 <= i < |trimmed| && EntryNames(trimmed[i], target);
      assert EntryNames(raw[i], target);
    }
  }

  /** White space around the whole value does not change membership, since
      each entry is trimmed before it is compared. */
  lemma InPathOfTrimmed(value: string, target: string)
    ensures InPath(TrimSpace(value), target) <==> InPath(value, target)
  {
    SplitOfTrimmed(value);
    SameTrimmedEntries(Split(value), Split(TrimSpace(value)), target);
  }

  /** An empty value holds no directory. */
  lemma EmptyHoldsNothing(target: string)
    ensures !InPath("", target)
  {
    assert Split("") == [""];
    assert TrimSpace("") == "";
  }

  /** IsDirInPath: an error when not on Windows or when the read fails;
      false for an empty value; otherwise whether an entry names it. */
  function CheckSpec(h: Host, stored: Stored, target: string): (r: Result<bool, ReadError>)
    ensures !h.windows ==> r == Failure(UnsupportedPlatform)
    ensures Read(h, stored).Failure? ==> r.Failure?
    ensures Read(h, stored) == Success("") ==> r == Success(false)
    ensures h.windows && Read(h, stored).Success? ==> r == Success(InPath(Read(h, stored).value, target))
  {
    EmptyHoldsNothing(target);
    if !h.windows then Failure(UnsupportedPlatform)
    else
      match Read(h, stored)
      case Failure(e) => Failure(e)
      case Success(userPath) =>
        if userPath == "" then Success(false) else Success(InPath(userPath, target))
  }

  /** Whether two spellings of a directory differ only in letter case and
      slash direction. */
  predicate SameSpelling(a: string, b: string) {
    |a| == |b| && forall i :: 0 <= i < |a| ==>
      LowerChar(a[i]) == LowerChar(b[i]) || (IsPathSep(a[i]) && IsPathSep(b[i]))
  }

  /** Membership does not depend on letter case or slash direction. */
  lemma InPathIgnoresSpelling(value: string, a: string, b: string)
    requires SameSpelling(a, b)
    ensures InPath(value, a) <==> InPath(value, b)
  {
    NormIgnoresCaseAndSlashes(a, b);
  }

  /** Membership does not depend on a trailing separator on the target. */
  lemma InPathIgnoresTrailingSep(value: string, t: string)
    requires t != [] && !IsPathSep(t[|t| - 1]) && t[|t| - 1] != ':'
    ensures InPath(value, t + [Sep]) <==> InPath(value, t)
  {
    NormIgnoresTrailingSep(t);
  }

  /** An entry spelled differently from the target in case, slashes or a
      trailing separator still names it. */
  lemma EntrySpellings(entry: string, t: string)
    requires TrimSpace(entry) == entry && entry != ""
    requires SameSpelling(entry, t) || (t != [] && entry == t + [Sep] && !IsPathSep(t[|t| - 1]) && t[|t| - 1] != ':')
    ensures EntryNames(entry, t)
  {
    if SameSpelling(entry, t) {
      NormIgnoresCaseAndSlashes(entry, t);
    } else {
      NormIgnoresTrailingSep(t);
    }
  }

  // ---------------------------------------------------------------------
  // Appending

  /** The new value: the target alone when the current value is empty,
      otherwise `current;target`. Either way the existing entries are kept,
      in order, and the parts of the target follow them. */
  function Appended(current: string, target: string): (r: string)
    ensures current != "" ==> Split(r) == Split(current) + Split(target)
    ensures current == "" ==> Split(r) == Split(target)
  {
    if current == "" then target
    else
      SplitConcat(current, target);
      current + ";" + target
  }

  /** A directory present before an append is present after it. */
  lemma AppendedKeeps(current: string, target: string, x: string)
    requires InPath(current, x)
    ensures InPath(Appended(current, target), x)
  {
    var i :| 0 <= i < |Split(current)| && EntryNames(Split(current)[i], x);
    assert Split(Appended(current, target))[i] == Split(current)[i];
  }

  /** A target that reads back as a single entry naming itself. */
  predicate PlainTarget(t: string) {
    t != "" && TrimSpace(t) == t && ';' !in t && '\n' !in t
  }

  /** After the append, the target is in the value. */
  lemma AppendedFound(current: string, target: string)
    requires PlainTarget(target)
    ensures InPath(Appended(current, target), target)
  {
    SplitSingle(target);
    var parts := Split(Appended(current, target));
    var i := |parts| - 1;
    assert parts[i] == target;
  }

  // ---------------------------------------------------------------------
  // AddDirToUserPath

  datatype AddError =
    | NotWindows
    | CheckFailed(cause: ReadError)
    | ReadFailed(cause: ReadError)
    | WriteFailed
    | BroadcastFailed

  /** sendEnvironmentChangeMessage as a step: the broadcast is sent, and its
      result is the host's. */
  function BroadcastStep(st: Registry, h: Host): (Registry, bool) {
    (Registry(st.stored, st.log + [Broadcast]), h.broadcastOk)
  }

  /** AddDirToUserPath as a step on the key: check membership; stop if the
      directory is there; read the value again; write `Appended`; then
      broadcast. */
  function AddStep(st: Registry, h: Host, target: string): (r: (Registry, Outcome<AddError>))
    ensures !h.windows ==> r == (st, Fail(NotWindows))
    ensures r.0 != st ==>
      && CheckSpec(h, st.stored, target) == Success(false)
      && h.writeOk(Appended(Read(h, st.stored).value, target))
      && r.0.stored == Present(RegExpandSz, Appended(Read(h, st.stored).value, target))
  {
    if !h.windows then (st, Fail(NotWindows))
    else
      match CheckSpec(h, st.stored, target)
      case Failure(e) => (st, Fail(CheckFailed(e)))
      case Success(exists_) =>
        if exists_ then (st, Pass)
        else
          match Read(h, st.stored)
          case Failure(e) => (st, Fail(ReadFailed(e)))
          case Success(currentPath) => WriteStep(st, h, Appended(currentPath, target))
  }

  /** The `reg add` of the new value, then the broadcast. */
  function WriteStep(st: Registry, h: Host, newPath: string): (Registry, Outcome<AddError>) {
    if !h.writeOk(newPath) then (st, Fail(WriteFailed))
    else
      var written := Registry(Present(RegExpandSz, newPath), st.log + [Wrote(newPath)]);
      var (sent, ok) := BroadcastStep(written, h);
      if ok then (sent, Pass) else (sent, Fail(BroadcastFailed))
  }

  /** A directory already present: nothing is written and nothing is sent. */
  lemma AddPresentChangesNothing(st: Registry, h: Host, target: string)
    requires CheckSpec(h, st.stored, target) == Success(true)
    ensures AddStep(st, h, target) == (st, Pass)
  {
  }

  /** A failed read stops before any write. */
  lemma AddReadFailureChangesNothing(st: Registry, h: Host, target: string)
    requires Read(h, st.stored).Failure?
    ensures AddStep(st, h, target).0 == st && AddStep(st, h, target).1.Fail?
  {
  }

  /** A new directory: the stored value becomes `Appended(current, target)`
      of type REG_EXPAND_SZ, the write is followed by exactly one broadcast,
      and a failed broadcast is reported although the write stays. */
  lemma AddNewDirectory(st: Registry, h: Host, target: string)
    requires h.windows && Read(h, st.stored).Success?
    requires !InPath(Read(h, st.stored).value, target)
    requires h.writeOk(Appended(Read(h, st.stored).value, target))
    ensures var newPath := Appended(Read(h, st.stored).value, target);
      && AddStep(st, h, target).0 == Registry(Present(RegExpandSz, newPath), st.log + [Wrote(newPath), Broadcast])
      && (AddStep(st, h, target).1 == Pass <==> h.broadcastOk)
  {
    var v := Read(h, st.stored).value;
    assert CheckSpec(h, st.stored, target) == Success(false);
  }

  /** The value an append writes reads back unchanged, and names the
      target. */
  lemma AppendedReadsBack(h: Host, current: string, target: string)
    requires h.windows && RegFaithful(h) && PlainTarget(target)
    requires TrimSpace(current) == current && '\n' !in current
    ensures Read(h, Present(RegExpandSz, Appended(current, target))) == Success(Appended(current, target))
    ensures InPath(Appended(current, target), target)
  {
    var newPath := Appended(current, target);
    assert TrimSpace(newPath) == newPath && '\n' !in newPath by {
      if current != "" {
        TrimmedJoin(current, target);
      }
    }
    ReadFaithful(h, Present(RegExpandSz, newPath));
    AppendedFound(current, target);
  }

  /** The write step stores the new value or leaves the key alone. */
  lemma WriteStepStores(st: Registry, h: Host, newPath: string)
    ensures WriteStep(st, h, newPath).0.stored == (if h.writeOk(newPath) then Present(RegExpandSz, newPath) else st.stored)
  {
  }

  /** What an add stores depends on what was stored, not on the log. */
  lemma AddStoresByStored(st: Registry, st': Registry, h: Host, target: string)
    requires st.stored == st'.stored
    ensures AddStep(st, h, target).0.stored == AddStep(st', h, target).0.stored
  {
    if h.windows {
      var c := CheckSpec(h, st.stored, target);
      var r := Read(h, st.stored);
      if c.Success? && !c.value && r.Success? {
        var newPath := Appended(r.value, target);
        assert AddStep(st, h, target).0 == WriteStep(st, h, newPath).0;
        assert AddStep(st', h, target).0 == WriteStep(st', h, newPath).0;
        WriteStepStores(st, h, newPath);
        WriteStepStores(st', h, newPath);
      }
    }
  }

  /** Adding a directory twice leaves the key as adding it once. */
  lemma AddTwiceIsAddOnce(st: Registry, h: Host, target: string)
    requires RegFaithful(h) && PlainTarget(target)
    requires st.stored.Present? ==> '\n' !in st.stored.text
    ensures AddStep(AddStep(st, h, target).0, h, target).0.stored == AddStep(st, h, target).0.stored
  {
    var st1 := AddStep(st, h, target).0;
    if st1 != st {
      var cur := Read(h, st.stored).value;
      assert TrimSpace(cur) == cur && '\n' !in cur by {
        ReadFaithful(h, st.stored);
        if st.stored.Present? {
          TrimSpaceIdempotent(st.stored.text);
          TrimSpaceChars(st.stored.text);
        }
      }
      AppendedReadsBack(h, cur, target);
      assert CheckSpec(h, st1.stored, target) == Success(true);
      AddPresentChangesNothing(st1, h, target);
    }
  }

  /** The only value an add ever stores is the append of the target to
      the value it read. */
  lemma AddOnlyAppends(st: Registry, h: Host, target: string)
    ensures var after := AddStep(st, h, target).0.stored;
      || after == st.stored
      || (Read(h, st.stored).Success? && after == Present(RegExpandSz, Appended(Read(h, st.stored).value, target)))
  {
    if h.windows {
      var c := CheckSpec(h, st.stored, target);
      var r := Read(h, st.stored);
      if c.Success? && !c.value && r.Success? {
        var newPath := Appended(r.value, target);
        assert AddStep(st, h, target).0 == WriteStep(st, h, newPath).0;
        WriteStepStores(st, h, newPath);
      }
    }
  }

  /** Every directory the key named before an add is named after it: the
      value is either left alone or extended. */
  lemma AddKeepsEntries(st: Registry, h: Host, target: string, x: string)
    requires RegFaithful(h) && st.stored.Present? && '\n' !in st.stored.text
    requires InPath(st.stored.text, x)
    ensures var after := AddStep(st, h, target).0.stored;
      after == st.stored || (after.Present? && InPath(after.text, x))
  {
    AddOnlyAppends(st, h, target);
    if AddStep(st, h, target).0.stored != st.stored {
      ReadFaithful(h, st.stored);
      InPathOfTrimmed(st.stored.text, x);
      AppendedKeeps(TrimSpace(st.stored.text), target, x);
    }
  }

  // ---------------------------------------------------------------------
  // Deleting (the helper is host behaviour)

  /** DeleteDirFromUserPath as a step: the host decides the new value, or
      fails and leaves the key alone. */
  function DeleteStep(st: Registry, h: Host, dir: string): (Registry, bool) {
    match h.delete(st.stored, dir)
    case None => (st, false)
    case Some(s) => (Registry(s, st.log + [Deleted(dir)]), true)
  }

  /** The user's Path as a class: the stored value and the effects log, and
      the operations of utils/env_windows.go on them. */
  class UserEnvironment {
    var stored: Stored
    var log: seq<Effect>

    function State(): Registry
      reads this
    {
      Registry(stored, log)
    }

    constructor (initial: Stored)
      ensures State() == Registry(initial, [])
    {
      stored := initial;
      log := [];
    }

    /** IsDirInPath (utils/env_windows.go). */
    method IsDirInPath(h: Host, targetDir: string) returns (r: Result<bool, ReadError>)
      ensures r == CheckSpec(h, stored, targetDir)
    {
      if !h.windows {
        return Failure(UnsupportedPlatform);
      }
      var read := Read(h, stored);
      if read.Failure? {
        return Failure(read.error);
      }
      var userPath := read.value;
      if userPath == "" {
        return Success(false);
      }
      var pathDirs := Split(userPath);
      var key := Norm(targetDir);
      var found := ScanEntries(pathDirs, key);
      return Success(found);
    }

    /** sendEnvironmentChangeMessage, whose result the host decides. */
    method SendEnvironmentChangeMessage(h: Host) returns (ok: bool)
      modifies this
      ensures (State(), ok) == BroadcastStep(old(State()), h)
    {
      log := log + [Broadcast];
      ok := h.broadcastOk;
    }

    /** AddDirToUserPath (utils/env_windows.go). */
    method AddDirToUserPath(h: Host, targetDir: string) returns (r: Outcome<AddError>)
      modifies this
      ensures (State(), r) == AddStep(old(State()), h, targetDir)
    {
      if !h.windows {
        return Fail(NotWindows);
      }
      ghost var st := State();
      var exists_ := IsDirInPath(h, targetDir);
      if exists_.Failure? {
        assert AddStep(st, h, targetDir) == (st, Fail(CheckFailed(exists_.error)));
        return Fail(CheckFailed(exists_.error));
      }
      if exists_.value {
        assert AddStep(st, h, targetDir) == (st, Pass);
        return Pass;
      }
      var currentPath: string;
      match Read(h, stored) {
        case Failure(e) => return Fail(ReadFailed(e));
        case Success(v) => currentPath := v;
      }
      var newPath: string;
      if currentPath == "" {
        newPath := targetDir;
      } else {
        newPath := currentPath + ";" + targetDir;
      }
      assert newPath == Appended(currentPath, targetDir);
      assert AddStep(st, h, targetDir) == WriteStep(st, h, newPath);
      r := WriteNewPath(h, newPath);
    }

    /** Steps 4 and 5 of AddDirToUserPath: `reg add` of the new value as
        REG_EXPAND_SZ, then the broadcast. */
    method WriteNewPath(h: Host, newPath: string) returns (r: Outcome<AddError>)
      modifies this
      ensures (State(), r) == WriteStep(old(State()), h, newPath)
    {
      if !h.writeOk(newPath) {
        return Fail(WriteFailed);
      }
      stored, log := Present(RegExpandSz, newPath), log + [Wrote(newPath)];
      var ok := SendEnvironmentChangeMessage(h);
      if !ok {
        return Fail(BroadcastFailed);
      }
      return Pass;
    }

    /** DeleteDirFromUserPath, whose effect the host decides. */
    method DeleteDirFromUserPath(h: Host, dir: string) returns (ok: bool)
      modifies this
      ensures (State(), ok) == DeleteStep(old(State()), h, dir)
    {
      match h.delete(stored, dir)
      case None =>
        ok := false;
      case Some(s) =>
        stored, log := s, log + [Deleted(dir)];
        ok := true;
    }

    /** GetPathList, whose answer the host decides. */
    method GetPathList(h: Host) returns (r: Option<seq<string>>)
      ensures r == h.pathList(stored)
    {
      r := h.pathList(stored);
    }
  }
}
