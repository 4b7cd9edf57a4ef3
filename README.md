# AutoPath, modelled in Dafny

AutoPath is a small Windows tool that keeps directories on the user-level
`Path` environment variable. The variable lives in the `Path` value of the
registry key `HKCU\Environment`. The tool never touches the registry
directly: it runs `reg query` to read it, runs `reg add` to write it back as
`REG_EXPAND_SZ`, and then broadcasts `WM_SETTINGCHANGE`. It has three parts,
all modelled here:

- `utils/env_windows.go`
  - `readUserPathFromReg` parses what `reg query` prints:
    - a missing key reads as "";
    - the output is decoded from GBK;
    - `Path\s+(REG_SZ|REG_EXPAND_SZ)\s+(.*)` picks the value, which is then trimmed.
  - `IsDirInPath` compares the `;`-separated entries with the target. Each
    entry is trimmed (blank entries are skipped), lower-cased and passed
    through `filepath.Clean`. The target is lower-cased and cleaned but not
    trimmed, so a target with surrounding blanks is never found.
  - `AddDirToUserPath` checks membership, reads the value again, appends
    `;target` (or writes just the target when the value is empty), writes
    the result, and broadcasts.
- `FixPythonPath/fix_python_main.go`, the "fix my Python" command. It:
  1. lists candidate installation roots;
  2. walks each root and stops at the first `python.exe`/`python3.exe`;
  3. adds what `where` prints;
  4. asks the user to pick one installation by number;
  5. after a Y/N confirmation, deletes the `where` directories and the
     `WindowsApps` entries from the Path;
  6. after a second confirmation, adds the chosen interpreter's directory and
     its `Scripts` directory.
- `main.go`, the older single-file "add my own directory" command. Its
  `IsDirInPath` prefers the process `PATH` and falls back to an
  `REG_EXPAND_SZ`-only regular expression. Its `AddDirToUserPath` writes
  `PATH;target` into the user key.

The Dafny modules follow that structure:

| module | file | models |
|---|---|---|
| `Wrappers` | wrappers.dfy | `Option`, `Result`, `Outcome` |
| `Text` | text.dfy | `strings.TrimSpace`, `Split`/`Join` on `;`, ASCII case mapping |
| `PathLex` | pathlex.dfy | the lexical part of `filepath.Clean`, `Dir` and `Join` on Windows |
| `Codec` | codec.dfy | `GbkToUtf8`, `Utf8ToGbk` (the codec itself is a parameter) |
| `RegOutput` | reg_output.dfy | `reg query` output, its layout and both parsers |
| `UserPath` | user_path.dfy | the key as a class `UserEnvironment`; `IsDirInPath` and `AddDirToUserPath` |
| `Prompt` | prompt.dfy | `Confirm` |
| `PythonSearch` | python_search.dfy | `getCommonPythonPaths`, `findPythonInstallation` |
| `FixPython` | fix_python.dfy | `extractPythonDirPath`, `clearPythonPaths` and `op` of the Python fixer |
| `LegacyMain` | legacy_main.dfy | `IsDirInPath`, `AddDirToUserPath`, `sendEnvironmentChangeMessage` and `op` of `main.go` |

**How the machine is modelled.**
- The machine is a `Host` value. It says:
  - whether this is Windows;
  - what `reg query` prints for each stored value;
  - how GBK decodes;
  - whether `reg add` accepts a value;
  - whether the broadcast gets through.
- `RegFaithful` states the assumption that `reg query` prints a stored value
  in the layout `Render` describes.
- State that the source changes lives in `UserPath.UserEnvironment`: the
  stored value plus a log of effects (writes, broadcasts, deletions). Its
  methods are proved against step functions such as `AddStep` and
  `WriteStep`, and the lemmas about those functions carry the properties.
- The file system that `filepath.Walk` visits is a tree of `Node`s, given by
  a function from root path to tree. Children are in lexical order.

## Model

| member | source | states |
|---|---|---|
| Codec.GbkToUtf8 | utils/utils.go:36-49 | empty input decodes to "" without consulting the decoder; otherwise the call fails exactly when the GBK decoder rejects the bytes, and succeeds with the decoder's text |
| Codec.Utf8ToGbk | utils/utils.go:52-62 | "" encodes to no bytes; otherwise it fails exactly when the encoder rejects the text, and otherwise gives the encoder's bytes |
| RegOutput.ReadUserPathFromReg | utils/env_windows.go:15-49 | off Windows it is an error; exit code 1 with the not-found marker reads as ""; any other query failure is an error; for a successful query, a decode failure of non-empty output is the only error; empty output reads as ""; every value returned is already trimmed |
| RegOutput.ParseUserPath | utils/env_windows.go:43-48 | the parsed value is trimmed and holds no line break; output without a `Path … REG_(EXPAND_)SZ` line gives "" |
| RegOutput.ParseRenderRoundTrip | utils/env_windows.go:43-48 | parsing what `reg query` prints for a stored value of either type gives back that value, trimmed |
| RegOutput.CaptureOfRender | utils/env_windows.go:43-44 | the first regex match in the rendered output captures exactly the stored value, up to surrounding white space |
| RegOutput.LegacyReadFromReg | main.go:55-67 | a failed query gives no value; a successful one gives the first `REG_EXPAND_SZ` capture of the raw, undecoded, untrimmed output |
| RegOutput.LegacyRenderExpand | main.go:62-67 | the legacy expression finds an `REG_EXPAND_SZ` value and captures it, up to white space |
| RegOutput.LegacyMissesRegSz | main.go:62-66 | the legacy expression finds nothing in the output for a `REG_SZ` value, unless the value itself spells `REG_EXPAND_SZ` |
| RegOutput.FirstMatchAt | utils/env_windows.go:44 | leftmost-match search: positions where no match starts can be skipped |
| UserPath.ReadFaithful | utils/env_windows.go:15-49 | on a faithful `reg`, reading gives the stored text trimmed, or "" for a missing key |
| UserPath.CheckSpec | utils/env_windows.go:52-86 | an error off Windows and whenever the read fails; "" holds no directory; otherwise true exactly when some entry names the target |
| UserPath.ScanEntries | utils/env_windows.go:73-85 | the loop answers true exactly when some entry, trimmed, is non-blank and normalises to the target's key |
| UserPath.EntryMatches | utils/env_windows.go:74-83 | one entry matches exactly when it is non-blank after trimming and its cleaned lower-case form is the key |
| UserPath.InPathOfTrimmed | utils/env_windows.go:48-74 | trimming the whole value before splitting does not change which directories it holds |
| UserPath.EmptyHoldsNothing | utils/env_windows.go:62-64 | the empty value names no directory, so the early `false` agrees with the loop |
| UserPath.InPathIgnoresSpelling | utils/env_windows.go:71-79 | membership does not depend on letter case or on `/` versus `\` in the target |
| UserPath.InPathIgnoresTrailingSep | utils/env_windows.go:71-79 | a target with a trailing separator is in the Path exactly when the one without it is |
| UserPath.EntrySpellings | utils/env_windows.go:74-81 | an entry spelled differently in case, slashes or a trailing separator still names the target |
| UserPath.AddStep | utils/env_windows.go:89-132 | off Windows it fails with no change; whenever it changes the key, the check said "absent", `reg add` accepted the appended value, and the key holds it as `REG_EXPAND_SZ` |
| UserPath.Appended | utils/env_windows.go:110-115 | the new value's entries are the old entries followed by the target's, or only the target's when the value was empty |
| UserPath.AppendedKeeps | utils/env_windows.go:110-115 | every directory in the old value is still in the new one |
| UserPath.AppendedFound | utils/env_windows.go:110-115 | after appending, the target is in the value |
| UserPath.AddPresentChangesNothing | utils/env_windows.go:95-101 | when the directory is already present, nothing is written or sent and the call succeeds |
| UserPath.AddReadFailureChangesNothing | utils/env_windows.go:95-107 | when the read fails, the call fails and the key and the log are untouched |
| UserPath.AddNewDirectory | utils/env_windows.go:103-131 | a new directory gets the appended value stored as `REG_EXPAND_SZ`, one write then one broadcast in the log; success exactly when the broadcast succeeds |
| UserPath.AppendedReadsBack | utils/env_windows.go:110-119 | on a faithful `reg`, the written value reads back unchanged and holds the target |
| UserPath.AddTwiceIsAddOnce | utils/env_windows.go:89-132 | adding the same plain directory twice leaves the key as one add does |
| UserPath.AddOnlyAppends | utils/env_windows.go:89-132 | an add either leaves the key alone or stores exactly the read value with the target appended |
| UserPath.AddKeepsEntries | utils/env_windows.go:89-132 | every directory in the Path before an add is still there after it |
| UserPath.AddStoresByStored | utils/env_windows.go:89-132 | what an add stores depends on the stored value only, not on the log |
| UserPath.UserEnvironment.IsDirInPath | utils/env_windows.go:52-86 | the method computes CheckSpec of the stored value |
| UserPath.UserEnvironment.AddDirToUserPath | utils/env_windows.go:89-132 | the new state and result are AddStep of the old state |
| UserPath.UserEnvironment.WriteNewPath | utils/env_windows.go:117-131 | a rejected `reg add` fails with no change; otherwise it stores the value as `REG_EXPAND_SZ`, logs it, then broadcasts |
| UserPath.UserEnvironment.SendEnvironmentChangeMessage | utils/env_windows.go:125-129 | the broadcast is logged and its result is the host's |
| UserPath.UserEnvironment.DeleteDirFromUserPath | FixPythonPath/fix_python_main.go:74 | a deletion the host refuses changes nothing; one it performs stores its result and is logged |
| UserPath.UserEnvironment.GetPathList | FixPythonPath/fix_python_main.go:80 | the list is the host's listing of the stored value, without changing it |
| Prompt.Classify | utils/utils.go:71-89 | a read is a "yes" exactly when it is a line that, trimmed, is `y` or `Y`, and a "no" exactly when it is `n` or `N`; a read error and every other line ask again |
| Prompt.FirstAnswerSkipsAgain | utils/utils.go:69-90 | the answer comes from the first line that is Y or N; every read before it was an error or another word; with no such line the reads are used up |
| Prompt.Confirm | utils/utils.go:64-91 | the loop returns the first Y/N answer from `start` and where reading stopped |
| PythonSearch.CommonPythonPaths | FixPythonPath/fix_python_main.go:98-126 | the roots as written come in source order: two for a set SystemDrive, one for each set AppData variable, then `C:\Python` and `D:\Python`; so between two and six |
| PythonSearch.CommonPythonPathsFixed | FixPythonPath/fix_python_main.go:98-126 | the corrected roots have the same layout; only the two SystemDrive roots differ |
| PythonSearch.RootsDifferOnlyInDrive | FixPythonPath/fix_python_main.go:102-106 | the written and corrected root lists differ only in the two SystemDrive entries |
| PythonSearch.DriveRelativeProgramFiles | FixPythonPath/fix_python_main.go:104-105 | as written, SystemDrive `C:` yields `C:Program Files\Python` and `C:Program Files (x86)\Python`, with no separator after the drive |
| PythonSearch.DriveRelativeRoot | FixPythonPath/fix_python_main.go:104-105 | Join of a bare drive name, a plain directory name and `Python` puts no separator after the drive, and one between the other parts |
| PythonSearch.FixedRootsAbsolute | FixPythonPath/fix_python_main.go:102-106 | corrected, SystemDrive `C:` yields `C:\Program Files\Python` and `C:\Program Files (x86)\Python` |
| PythonSearch.Visit | FixPythonPath/fix_python_main.go:26-41 | a recorded interpreter is a candidate of the tree and has no `Lib` in its path |
| PythonSearch.VisitFindsFirst | FixPythonPath/fix_python_main.go:26-41 | in a readable tree with no `Lib` candidates, the walk records exactly the first interpreter in lexical order, if any |
| PythonSearch.VisitInFindsFirst | FixPythonPath/fix_python_main.go:26-41 | the same for the children of one directory, in order |
| PythonSearch.WalkRoot | FixPythonPath/fix_python_main.go:19-45 | a hit exists only for a root that exists, and is one of its Lib-free candidates |
| PythonSearch.RootHitsAreCandidates | FixPythonPath/fix_python_main.go:19-45 | every walk hit is a Lib-free candidate of some existing root |
| PythonSearch.RootHitsBound | FixPythonPath/fix_python_main.go:19-45 | the walks record at most one interpreter per root |
| PythonSearch.WhereHitsAreLines | FixPythonPath/fix_python_main.go:49-57 | every `where` hit is the absolute form of a non-blank, trimmed output line |
| PythonSearch.FindPythonInstallation | FixPythonPath/fix_python_main.go:13-65 | the result has no duplicates and holds exactly the walk hits and the `where` hits |
| PythonSearch.WalkRoots | FixPythonPath/fix_python_main.go:19-46 | the loop over the roots collects exactly their walk hits |
| PythonSearch.CollectWhere | FixPythonPath/fix_python_main.go:49-57 | the loop over the `where` lines adds exactly their hits |
| PythonSearch.AddWhereLine | FixPythonPath/fix_python_main.go:51-56 | a blank line adds nothing; any other adds its absolute form |
| PythonSearch.Enumerate | FixPythonPath/fix_python_main.go:60-64 | turning the set into a slice keeps every element once and adds nothing |
| PathLex.Clean | utils/env_windows.go:71-79 | the result is clean: no `/`, no doubled separator, and no trailing separator except at a root |
| PathLex.Norm | utils/env_windows.go:71-79 | the key of a spelling is clean and holds no upper-case letter |
| PathLex.CleanIdempotent | utils/env_windows.go:71-79 | cleaning twice is cleaning once |
| PathLex.NormIdempotent | utils/env_windows.go:71-79 | normalising (lower-case then clean) is idempotent, so a key compares equal to itself |
| PathLex.NormIgnoresCaseAndSlashes | utils/env_windows.go:71-79 | spellings that differ only in case or slash direction get the same key |
| PathLex.NormIgnoresTrailingSep | utils/env_windows.go:71-79 | a trailing separator does not change the key |
| PathLex.Dir | FixPythonPath/fix_python_main.go:135 | the directory part is clean and made of the path's own characters, separators and `.` |
| PathLex.JoinPath | FixPythonPath/fix_python_main.go:139 | the join is empty exactly when every element is empty, and clean otherwise |
| PathLex.DirOfJoin | FixPythonPath/fix_python_main.go:135-139 | the directory of `Join(d, name)` is `d` again |
| PathLex.JoinPlain | FixPythonPath/fix_python_main.go:139 | joining a clean directory and a plain name puts exactly one separator between them |
| FixPython.ExtractPythonDirPath | FixPythonPath/fix_python_main.go:132-142 | both directories come out cleaned, whatever the spelling of the interpreter's path |
| FixPython.ScriptsInPythonDir | FixPythonPath/fix_python_main.go:132-142 | the Scripts directory lies directly inside the interpreter's directory |
| FixPython.PythonDirOfInterpreter | FixPythonPath/fix_python_main.go:132-135 | for an interpreter at `d\name`, the directory extracted is `d` |
| FixPython.FirstChoiceSkipsInvalid | FixPythonPath/fix_python_main.go:159-174 | the choice is the first read that parses and lies in 1..count, as a 0-based index; every read before it was invalid; with none, the reads are used up |
| FixPython.ChooseIndex | FixPythonPath/fix_python_main.go:159-174 | the selection loop returns the first valid choice and where reading stopped |
| FixPython.WindowsAppsEntries | FixPythonPath/fix_python_main.go:85-86 | the entries selected are exactly those whose text contains `WindowsApps` (case-sensitive) |
| FixPython.DeleteAll | FixPythonPath/fix_python_main.go:72-79 | the loop only appends to the log, at most one entry per directory, and exactly one per directory when every deletion succeeds |
| FixPython.DeleteAllLog | FixPythonPath/fix_python_main.go:72-79 | the deletions logged are a prefix of the list; the whole list exactly when every deletion succeeded |
| FixPython.ClearLog | FixPythonPath/fix_python_main.go:67-95 | the log grows by a prefix of the `where` directories, then a prefix of the `WindowsApps` entries; those are reached only when every `where` directory was deleted; no `where` directories means no change |
| FixPython.ClearSpec | FixPythonPath/fix_python_main.go:67-95 | no `where` directories means no change; otherwise the cleanup only appends to the log |
| FixPython.DeleteEach | FixPythonPath/fix_python_main.go:72-79 | the first loop's new state and result are DeleteAll of the `where` directories |
| FixPython.DeleteWindowsApps | FixPythonPath/fix_python_main.go:85-94 | the second loop deletes exactly the `WindowsApps` entries, in order, stopping at the first failure |
| FixPython.ClearPythonPaths | FixPythonPath/fix_python_main.go:67-95 | the new state is ClearSpec of the old one |
| FixPython.ConfirmAndAdd | FixPythonPath/fix_python_main.go:175-199 | a "no" at the first prompt changes nothing; a "no" at the second leaves the cleanup only; two "yes" answers clean and then add the interpreter's directory and then its Scripts directory, whatever the first add gave |
| FixPython.Op | FixPythonPath/fix_python_main.go:148-200 | with no installation, or with no valid choice, nothing changes; a chosen path is one of the installations found; the rest is ConfirmAndAdd |
| LegacyMain.LegacyCheck | main.go:46-89 | an error exactly off Windows; a non-empty process PATH decides membership; with an empty PATH, a failed query means "not present" |
| LegacyMain.LegacyAgreesOnExpandSz | main.go:46-89 | for a stored `REG_EXPAND_SZ` value and an empty process PATH, the legacy check agrees with the utils one |
| LegacyMain.LegacyIgnoresRegSz | main.go:62-66 | a stored `REG_SZ` value that does not itself spell `REG_EXPAND_SZ` is never seen, so every directory reads as absent |
| LegacyMain.LegacyOffWindows | main.go:92-132 | off Windows the add fails with no change, while the broadcast reports success without sending |
| LegacyMain.LegacyOverwritesUserPath | main.go:106-125 | a new directory makes the user key hold the process `PATH;target`, written then broadcast |
| LegacyMain.EmptyPathLeadingSeparator | main.go:107-109 | with an empty process PATH the value written starts with `;` |
| LegacyMain.LegacyLosesRegSzValue | main.go:55-117 | a user Path stored as `REG_SZ` (any value that does not itself spell `REG_EXPAND_SZ`), with an empty process PATH, is replaced by `;target` |
| LegacyMain.LegacyPresentChangesNothing | main.go:98-104 | a directory already on the process PATH changes nothing |
| LegacyMain.LegacyAddStep | main.go:92-126 | off Windows it fails with no change; whenever it changes the key, the legacy check said "absent", `reg add` accepted the process `PATH;target`, and the key holds it as `REG_EXPAND_SZ` |
| LegacyMain.LegacyIsDirInPath | main.go:46-89 | the method computes LegacyCheck |
| LegacyMain.LegacySendEnvironmentChangeMessage | main.go:129-154 | off Windows nothing is sent and the result is success; otherwise one broadcast with the host's result |
| LegacyMain.LegacyAddDirToUserPath | main.go:92-126 | the new state and result are LegacyAddStep of the old state |
| LegacyMain.LegacyOp | main.go:161-189 | no executable directory, a check error or a present directory change nothing; otherwise one legacy add of the executable directory |

## Left out

- Running `reg`, `where` and the Win32 broadcast is not modelled: the `Host` supplies their exit status, output and success.
- The GBK codec is not modelled either; `Host.decode` and the encoder parameter of `Utf8ToGbk` stand in for `simplifiedchinese.GBK`.
- The missing-key test compares the raw output with the UTF-8 text of the marker. The model does the same on undecoded bytes, as written. On a real machine the GBK-encoded message may never match, and a missing key would then read as an error.
- `filepath.Clean` is modelled only lexically: slashes, doubled separators and the trailing separator. It leaves out `.`, `..`, UNC and volume handling. So entries that differ only there compare equal in the source but unequal in the model: `C:\a\..\b` against `C:\b`, `.\x` against `x`, and `C:` against `C:.` (the source cleans an empty path after a volume to `.`). `CheckSpec` and `IsDirInPath` can therefore answer false, and `AddDirToUserPath` append, where the source would answer true and write nothing.
- `strings.ToLower`, `ToUpper` and `EqualFold` are modelled on ASCII letters only.
- The two registry reads of `AddDirToUserPath` are not modelled as able to race with other writers. The key is read twice from the same stored value.
- `os.Stat`, `filepath.Walk`, `filepath.Abs`, `os.Getenv` and `GetExeDir` are not modelled as calls; they are inputs: a tree per root with children in lexical order, a path function, and the variables' values. A root whose stat fails is treated as missing.
- Go's map iteration order is not modelled. `FindPythonInstallation` returns the set as some duplicate-free sequence, and `Op` is stated for any such order.
- `Where`, `WhereWithoutFileName`, `DeleteDirFromUserPath`, `GetPathList` and the `utils` version of `sendEnvironmentChangeMessage` are not part of this model. Their results are host behaviour.
- Prompt.Confirm: the source loops forever when input keeps failing. The model reads a finite list of lines and reports exhaustion.
- Each `Confirm` makes a fresh `bufio.Reader`, so buffered input can be lost between the two prompts. This is not modelled: the prompts read consecutive lines.
- `fmt.Scanf("%d\n")` is modelled only as a list of `Option<int>` reads. This stream is separate from the `Confirm` lines; how the two share standard input is not modelled.
- Console messages (`fmt.Print*`) and `PressEnterToContinue` are left out, as output only.
- `GetExeDir` of both files is not modelled: its result is a parameter.
- `AutoAdd2Path/main.go`, the root `utils.go` and `syscall_windows.go` are not part of this model. They only wire the modelled functions together or declare the Win32 procedure.
- FixPython.Op uses the corrected root list, see Findings. The written root list is modelled by `PythonSearch.CommonPythonPaths`.

## Findings

| source | as written | input that shows it | evidently intended | confidence | as-written member | corrected member |
|---|---|---|---|---|---|---|
| FixPythonPath/fix_python_main.go:104-105 | `filepath.Join(systemDrive, "Program Files", "Python")` joins a bare drive name to a relative path, giving a path relative to the current directory on that drive | SystemDrive = `C:` gives `C:Program Files\Python` (and `C:Program Files (x86)\Python`) | `C:\Program Files\Python` and `C:\Program Files (x86)\Python`, the installation roots at the top of the system drive | not executed | PythonSearch.DriveRelativeProgramFiles | PythonSearch.FixedRootsAbsolute |
