# Git Manager web back end and client helpers, in Dafny

This project models the decision logic of `GitManagerWeb`, the Flask back end of
Git Manager, together with the pure helpers of its browser client.

- **Git's answers.** `run_git_command` is an oracle `Git = (Trace, Argv) -> CmdResult`. The
  answer to a command may depend on every command the same operation ran
  before it, because git is stateful. A `CmdResult` is `Ok(output)` or
  `Failed(error)`, mirroring the `success`/`output`/`error` dictionary.
- **Traces.** Every operation returns its reply together with the trace of
  `(argv, result)` calls it made. `Commands.Answered` ties each recorded result
  to the oracle. So the contracts can say which commands ran, in which order,
  and which never ran.
- **Parsers.** Two parsers are modelled:
  - `Porcelain` parses the output of `git status --porcelain`, which is git's
    short format, porcelain version 1;
  - `Branches` parses the output of `git branch`.
  Both rest on Python's `strip`, `split('\n')` and `isspace`, which live in
  `Text`.
- **Operations.** `WebApp` models every operation of `GitManagerWeb` that
  reaches git except the history view:
  - status, init, add, commit and branch listing;
  - create and switch branch, remote setup, push and pull;
  - the quick backup.
- **Parameters.** Whether the directory holds a repository
  (`check_git_repo`) is a boolean parameter. The formatted current time
  (`datetime.now().strftime(...)`) is a string parameter.
- **Client helpers.** `Client` models `truncatePath`, `getStatusText`,
  the flag logic of `updateButtons` and the file counters of
  `updateStatusDisplay`.
- **Errors that escape.** The model covers two exceptions that escape an
  operation in the code:
  - a one-character status line that is not `M` makes `get_status` read
    `status[1]` and raise `IndexError`;
  - `add_files` with an explicit file list reads the missing key `'error'`
    when an add fails.
  Both are error outcomes: `Porcelain.ShortStatusLine` and
  `WebApp.KeyError`. No message is invented for them.
- **Status parse.** `WebApp.GetStatus` uses the status parse as the code
  writes it (`Porcelain.ParsePorcelain`). The corrected parse is modelled
  next to it; see Findings.

## Model

| member | source | states |
|---|---|---|
| Text.Strip | git_web_app.py:69 | `str.strip()`: the result is empty exactly when the input is all whitespace, and otherwise it starts and ends with a visible character |
| Text.StripPadded | git_web_app.py:69 | what `str.strip()` keeps: whitespace on both sides of any string with visible ends is removed and exactly that string is left |
| Text.Split | git_web_app.py:69 | `split('\n')` always yields at least one piece and no piece holds the separator |
| Text.JoinSplit | git_web_app.py:69 | joining the pieces of a split with the separator rebuilds the input |
| Text.SplitJoin | git_web_app.py:69 | splitting a join of separator-free pieces gives the pieces back |
| Text.NonBlank | git_web_app.py:70 | the `if line.strip()` filter keeps only non-blank lines, and every non-blank line survives it |
| Text.NonBlankAppend | git_web_app.py:70 | the filter goes line by line: filtering a concatenation is filtering each part, so order and repeated lines are kept |
| Text.NonBlankSingle | git_web_app.py:70 | a single line is kept exactly when it is not blank |
| Text.Contains | git_web_app.py:313 | the `in` test on strings holds exactly when the needle occurs at some position |
| Porcelain.Classify | git_web_app.py:71-91 | first-match precedence, one if-and-only-if per kind: `??` untracked, first char `M` modified_staged, second char `M` modified, `A` added, `D` deleted, else unknown |
| Porcelain.ClassifyPrecedence | git_web_app.py:77-91 | codes matching several rules take the earliest, e.g. `MM` is modified_staged and `AM` is modified |
| Porcelain.ParseLine | git_web_app.py:70-97 | a non-blank line succeeds exactly when it has at least two characters or is a lone `M`, and then yields code `line[:2]` and name `line[3:]`; otherwise it is the `IndexError` of `status[1]` |
| Porcelain.ParseLines | git_web_app.py:69-97 | the loop succeeds exactly when every non-blank line is accepted, yields one entry per non-blank line in order, and otherwise reports the first rejected line |
| Porcelain.ParsePorcelain | git_web_app.py:66-97 | blank output yields no file; on the lines of the stripped, split output the parse succeeds exactly when every non-blank line is accepted, then with one entry per non-blank line in order, and otherwise fails with the first rejected line |
| Porcelain.NothingParsedIffBlank | git_web_app.py:66-106 | the parse finds no file exactly when the output is blank, which is what selects "Working tree curat" |
| Porcelain.IntendedRoundTrip | git_web_app.py:69-97 | with only trailing whitespace dropped, the parse of output git prints for records whose paths are non-empty and end in a visible character recovers every path and its classification, in order |
| Porcelain.AgreeWithoutLeadingSpace | git_web_app.py:69 | when the output does not start with whitespace, the as-written and the corrected parse agree |
| Porcelain.FirstLineShiftCounterexample | git_web_app.py:69 | for a first line ` M path`, the as-written parse reports `path[1..]` as modified_staged while the corrected parse reports `path` as modified |
| Branches.ParseBranchLines | git_web_app.py:235-243 | one branch per non-blank line in order; current exactly for lines starting with `*`; names `line[2:].strip()` or `line.strip()`; the reported current is the last starred name, or none |
| Branches.ParseBranches | git_web_app.py:229-245 | on the lines of the stripped, split output: one branch per non-blank line in order, current exactly for starred lines, and the reported current is the last starred name or none; `Branches.RoundTrip` is its inverse |
| Branches.RoundTrip | git_web_app.py:229-245 | parsing what `git branch` prints for valid names gives back the branches, with the last marked branch as current and none when nothing is marked |
| Commands.Invoke | git_web_app.py:34-53 | running a command appends exactly one call, with that argument vector and the oracle's answer, and keeps earlier calls |
| WebApp.BranchName | git_web_app.py:100-101 | the branch is `main` when `git branch --show-current` fails, otherwise its stripped output, which stripping again leaves unchanged |
| WebApp.GetStatus | git_web_app.py:55-108 | without a repository no command runs; otherwise status then branch query; a failed status query means no files; the branch defaults to `main` when its query fails; the message says whether files were found; a short line aborts before the branch query |
| WebApp.InitializeRepo | git_web_app.py:110-120 | an existing repository runs nothing and is refused; otherwise one `git init`, whose success decides the reply and whose error is reported |
| WebApp.AddEach | git_web_app.py:172-176 | one `git add <f>` per listed file, in order, whatever earlier ones returned |
| WebApp.AddFiles | git_web_app.py:166-183 | `None` or `['all']` runs exactly one `git add .`; an explicit list runs one add per file; it succeeds exactly when every add passed (an empty list with no call); any failed add raises the missing-key error |
| WebApp.CommitChanges | git_web_app.py:185-206 | a blank message runs nothing; otherwise it commits `message [timestamp]`; `rev-parse` runs exactly when the commit passed; the hash is `unknown` when `rev-parse` fails |
| WebApp.GetBranches | git_web_app.py:225-247 | no repository runs nothing; otherwise one `git branch`, parsed on success, a failure otherwise |
| WebApp.CreateBranch | git_web_app.py:249-258 | a blank name runs nothing; otherwise one `git checkout -b <name>`, whose outcome is the reply |
| WebApp.SwitchBranch | git_web_app.py:260-266 | no validation: exactly one `git checkout <name>`, whose outcome is the reply |
| WebApp.SetupRemote | git_web_app.py:268-284 | a blank URL runs nothing; `remote remove origin` runs exactly when `remote -v` passed with output and its result is ignored; success exactly when `remote add origin <url>` passed |
| WebApp.PushChanges | git_web_app.py:286-307 | no repository runs nothing; without a remote only `remote -v` runs; otherwise the branch query, then `push -u origin <branch>` on a first push (branch `main` if the query failed) or plain `push`, whose outcome is the reply |
| WebApp.PullChanges | git_web_app.py:309-318 | one `git pull`; on success the message is "up to date" exactly when the output contains `Already up to date` |
| WebApp.QuickBackup | git_web_app.py:320-355 | the calls follow status, add, commit, remote check, push; each step runs exactly when the previous one let it through; blank status succeeds with nothing else run; a failed status, add or commit stops with failure; once committed the reply is success, with the message telling whether the push ran and passed |
| WebApp.StatusAgreesWithBackup | git_web_app.py:320-331 | the status view and the backup read the same first answer; the backup finds nothing to save exactly when the status query passed and the status view lists no file |
| Client.SliceFromEnd | static/script.js:171 | `slice(-n)`: the last `n` characters for positive `n`, the whole string for `n == 0` because `-0` is `0` |
| Client.TruncatePath | static/script.js:170-172 | a path no longer than the limit is unchanged; a longer one becomes `...` followed by exactly its last `maxLength` characters |
| Client.TruncateBound | static/script.js:170-172 | with a positive limit the result is at most limit + 3 characters long |
| Client.TruncateIdempotent | static/script.js:170-172 | with a positive limit, truncating twice equals truncating once |
| Client.DefaultTruncation | static/script.js:170-172 | with the default limit 40 the result has at most 43 characters and is stable |
| Client.ZeroLimitGrows | static/script.js:170-172 | a zero limit prefixes the whole path with dots, so repeated truncation keeps growing |
| Client.StatusText | static/script.js:174-183 | total: each of the five known status names maps to its own label, and exactly the other inputs map to `Necunoscut` |
| Client.WireLabels | static/script.js:174-183 | every kind the back end sends gets a distinct label, and only `unknown` gets `Necunoscut` |
| Client.UpdateButtons | static/script.js:133-161 | without git, all but init are disabled and init is untouched; with git, init is disabled iff initialized, add/history/branch/pull iff not initialized, and commit/push/backup iff there are no files |
| Client.ButtonsSettle | static/script.js:143-160 | with git installed the previous button state does not matter, and repeating an update changes nothing |
| Client.CountsPartition | static/script.js:85-87 | the two filters split the list: modified plus untracked counts equal its length |
| Client.CountFiles | static/script.js:85-87 | untrackedCount is the number of occurrences of `untracked` among the statuses, modifiedCount the rest of fileCount; a missing list counts as empty; fileCount > 0 exactly when there are files; no untracked count exactly when no file is untracked |
| Client.CountUntracked | static/script.js:87 | the untracked filter counts exactly the occurrences of `untracked` in the list of statuses |
| Client.UntrackedNone | static/script.js:87 | the untracked count is zero exactly when no file has status `untracked` |

## Left out

- `run_git_command` process execution (`subprocess.run`, working directory, captured streams) is the oracle; the `FileNotFoundError` it lets escape when git is missing is not modelled.
- `check_git_installation` and `check_git_repo` are not modelled; the latter is the `isRepo` parameter.
- `datetime.now()` and its formatting are the `timestamp` parameter.
- `create_gitignore` (writing `.gitignore` after `git init`) is left out: it is file I/O and its outcome does not affect the reply.
- `get_commit_history` is left out: it only splits `git log --oneline` lines.
- The file icons of `get_status` are left out: they are display-only and determined by the kind.
- Flask routes, JSON (de)serialisation and server start-up are left out: plumbing around the operations.
- Browser code other than the four helpers (DOM rendering, `fetch`, modals, event listeners, the periodic refresh) is left out: I/O and timing.
- Client.TruncatePath: lengths are counted in characters, not in the UTF-16 code units JavaScript counts, so paths with characters outside the Basic Multilingual Plane are not modelled exactly.
- Client.UpdateButtons: takes `hasFiles` as a boolean; `Client.HasFiles` gives its value for an optional file list.
- Porcelain.IntendedRoundTrip: holds for records whose paths are non-empty and end in a visible character; the corrected parse drops all trailing whitespace, so a last path ending in whitespace loses it.
- Commands.Invoke: the oracle sees the calls made so far in the same operation, not earlier operations; the state git keeps between operations is not modelled.

## Findings

| source | as written | input that shows it | evidently intended | confidence | as-written member | corrected member |
|---|---|---|---|---|---|---|
| git_web_app.py:69 | the whole porcelain output is `.strip()`ped before splitting, so the leading space of the first line's status code is removed and its columns shift | status output ` M a.txt\n` (an unstaged change as the first line) is reported as `.txt`, modified_staged | drop only trailing whitespace (`rstrip()`), keeping both status columns of every line; `a.txt` is reported as modified | high, not executed | Porcelain.FirstLineShiftCounterexample | Porcelain.IntendedRoundTrip |

`WebApp.GetStatus` keeps the parse as written, so that the model of the
operation describes what the program does; `Porcelain.ParsePorcelainIntended`
is the drop-in replacement the finding calls for.
