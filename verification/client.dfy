/** The pure helpers of the browser client: path truncation, status labels,
    the enabled/disabled state of the action buttons and the file counters
    of the status panel. Lengths are counted in characters. */
module Client {
  import opened Outcomes
  import Porcelain

  /** The default `maxLength` of `truncatePath`. */
  const DefaultLimit := 40

  /** JavaScript `s.slice(-n)`. A negative start counts from the end; `-0` is
      `0`, so `n == 0` keeps the whole string, and a negative `n` becomes a
      positive start. */
  function SliceFromEnd(s: string, n: int): (r: string)
    ensures n > 0 ==> r == s[|s| - (if n < |s| then n else |s|)..]
    ensures n == 0 ==> r == s
    ensures n < 0 ==> r == s[(if -n < |s| then -n else |s|)..]
  {
    var start := if n > 0 then (if |s| - n > 0 then |s| - n else 0)
                 else if n == 0 then 0
                 else (if -n < |s| then -n else |s|);
    s[start..]
  }

  /** `truncatePath`: paths longer than the limit are shown as `...` and
      their tail. */
  function TruncatePath(path: string, maxLength: int): (r: string)
    ensures |path| <= maxLength ==> r == path
    ensures |path| > maxLength >= 1 ==> r == "..." + path[|path| - maxLength..]
  {
    if |path| > maxLength then "..." + SliceFromEnd(path, maxLength) else path
  }

  /** With a positive limit the shown text is never longer than the limit plus
      the three dots. */
  lemma TruncateBound(path: string, maxLength: int)
    requires maxLength >= 1
    ensures |TruncatePath(path, maxLength)| <= maxLength + 3
    ensures |path| > maxLength ==> |TruncatePath(path, maxLength)| == maxLength + 3
  {
  }

  /** With a positive limit, truncating an already truncated path changes
      nothing. */
  lemma TruncateIdempotent(path: string, maxLength: int)
    requires maxLength >= 1
    ensures TruncatePath(TruncatePath(path, maxLength), maxLength) == TruncatePath(path, maxLength)
  {
    if |path| > maxLength {
      var r := TruncatePath(path, maxLength);
      var tail := path[|path| - maxLength..];
      assert r == "..." + tail;
      assert r[|r| - maxLength..] == tail;
    }
  }

  /** The default limit in particular: at most 43 characters, and stable. */
  lemma DefaultTruncation(path: string)
    ensures |TruncatePath(path, DefaultLimit)| <= 43
    ensures TruncatePath(TruncatePath(path, DefaultLimit), DefaultLimit) == TruncatePath(path, DefaultLimit)
  {
    TruncateBound(path, DefaultLimit);
    TruncateIdempotent(path, DefaultLimit);
  }

  /** A limit of zero keeps the whole path behind the dots, so truncation is
      then not stable (the client never passes zero). */
  lemma ZeroLimitGrows(path: string)
    requires path != []
    ensures TruncatePath(path, 0) == "..." + path
    ensures TruncatePath(TruncatePath(path, 0), 0) == "......" + path
  {
    assert "..." + ("..." + path) == "......" + path;
  }

  const LabelUntracked := "Neurmărit"
  const LabelModified := "Modificat"
  const LabelAdded := "Adăugat"
  const LabelDeleted := "Șters"
  const LabelModifiedStaged := "Modificat (stag.)"
  const LabelUnknown := "Necunoscut"

  /** The five status names the server sends for a known kind. */
  predicate KnownStatus(status: string) {
    status in {"untracked", "modified", "added", "deleted", "modified_staged"}
  }

  /** `getStatusText`: a label for every input. */
  function StatusText(status: string): (text: string)
    ensures text == LabelUnknown <==> !KnownStatus(status)
    ensures status == "untracked" <==> text == LabelUntracked
    ensures status == "modified" <==> text == LabelModified
    ensures status == "added" <==> text == LabelAdded
    ensures status == "deleted" <==> text == LabelDeleted
    ensures status == "modified_staged" <==> text == LabelModifiedStaged
  {
    match status
    case "untracked" => LabelUntracked
    case "modified" => LabelModified
    case "added" => LabelAdded
    case "deleted" => LabelDeleted
    case "modified_staged" => LabelModifiedStaged
    case _ => LabelUnknown
  }

  /** Server and client agree: every kind the parser produces gets its own
      label, and only the parser's `unknown` falls through to the default. */
  lemma WireLabels(a: Porcelain.StatusKind, b: Porcelain.StatusKind)
    ensures StatusText(a.Wire()) == LabelUnknown <==> a == Porcelain.Unknown
    ensures StatusText(a.Wire()) == StatusText(b.Wire()) <==> a == b
  {
  }

  /** The `disabled` flag of each action button. */
  datatype Buttons = Buttons(
    init: bool, add: bool, commit: bool, history: bool,
    branch: bool, push: bool, pull: bool, backup: bool)

  /** `status.files && status.files.length > 0`. */
  predicate HasFiles<T>(files: Option<seq<T>>) {
    files.Some? && |files.value| > 0
  }

  /** `updateButtons`, as the same sequence of assignments: without git
      everything but init is disabled; otherwise init follows `initialized`,
      the rest is first set from `initialized`, and then commit, push and
      backup are set again from whether there are files. */
  function UpdateButtons(prev: Buttons, gitInstalled: bool, initialized: bool, hasFiles: bool): (b: Buttons)
    ensures !gitInstalled ==>
      && b.init == prev.init
      && b.add && b.commit && b.history && b.branch && b.push && b.pull && b.backup
    ensures gitInstalled ==>
      && (b.init <==> initialized)
      && (b.add <==> !initialized) && (b.history <==> !initialized)
      && (b.branch <==> !initialized) && (b.pull <==> !initialized)
      && (b.commit <==> !hasFiles) && (b.push <==> !hasFiles) && (b.backup <==> !hasFiles)
  {
    if !gitInstalled then
      prev.(add := true, commit := true, history := true, branch := true, push := true, pull := true, backup := true)
    else
      var b := prev.(init := initialized);
      var off := !initialized;
      var b := b.(add := off, commit := off, history := off, branch := off, push := off, pull := off, backup := off);
      b.(commit := !hasFiles, push := !hasFiles, backup := !hasFiles)
  }

  /** Once git is known to be installed the previous state no longer matters,
      and repeating an update changes nothing. */
  lemma ButtonsSettle(p: Buttons, q: Buttons, gitInstalled: bool, initialized: bool, hasFiles: bool)
    ensures gitInstalled ==> UpdateButtons(p, true, initialized, hasFiles) == UpdateButtons(q, true, initialized, hasFiles)
    ensures var b := UpdateButtons(p, gitInstalled, initialized, hasFiles);
      UpdateButtons(b, gitInstalled, initialized, hasFiles) == b
  {
  }

  /** What the client reads of one file entry. */
  datatype UiFile = UiFile(name: string, status: string)

  /** Number of files whose status is (`untracked == true`) or is not
      (`untracked == false`) `'untracked'`. */
  function CountWhere(files: seq<UiFile>, untracked: bool): (n: nat)
    ensures n <= |files|
    decreases |files|
  {
    if files == [] then 0
    else CountWhere(files[1..], untracked) + (if (files[0].status == "untracked") == untracked then 1 else 0)
  }

  /** The two filters split the list: every file is counted exactly once. */
  lemma {:induction false} CountsPartition(files: seq<UiFile>)
    ensures CountWhere(files, true) + CountWhere(files, false) == |files|
    decreases |files|
  {
    if files != [] {
      CountsPartition(files[1..]);
    }
  }

  /** The statuses of the files, in order. */
  function Statuses(files: seq<UiFile>): (ss: seq<string>)
    ensures |ss| == |files|
  {
    seq(|files|, k requires 0 <= k < |files| => files[k].status)
  }

  /** The untracked filter counts the occurrences of `untracked` among the
      statuses. */
  lemma {:induction false} CountUntracked(files: seq<UiFile>)
    ensures CountWhere(files, true) == multiset(Statuses(files))["untracked"]
    decreases |files|
  {
    if files != [] {
      CountUntracked(files[1..]);
      assert Statuses(files) == [files[0].status] + Statuses(files[1..]);
    }
  }

  /** The file counters of the status panel. */
  datatype Counters = Counters(total: nat, modified: nat, untracked: nat)

  /** `fileCount`, `modifiedCount` and `untrackedCount`; a missing list counts
      as empty. */
  function CountFiles(files: Option<seq<UiFile>>): (c: Counters)
    ensures c.modified + c.untracked == c.total
    ensures c.total == (if files.Some? then |files.value| else 0)
    ensures files.Some? ==> c.untracked == multiset(Statuses(files.value))["untracked"]
    ensures c.modified == c.total - c.untracked
    ensures c.total > 0 <==> HasFiles(files)
    ensures c.untracked == 0 <==> files.None? || forall k :: 0 <= k < |files.value| ==> files.value[k].status != "untracked"
  {
    match files
    case None => Counters(0, 0, 0)
    case Some(fs) =>
      CountsPartition(fs);
      CountUntracked(fs);
      UntrackedNone(fs);
      Counters(|fs|, CountWhere(fs, false), CountWhere(fs, true))
  }

  /** No untracked file is counted exactly when none is untracked. */
  lemma {:induction false} UntrackedNone(files: seq<UiFile>)
    ensures CountWhere(files, true) == 0 <==> forall k :: 0 <= k < |files| ==> files[k].status != "untracked"
    decreases |files|
  {
    if files != [] {
      UntrackedNone(files[1..]);
      assert forall k :: 1 <= k < |files| ==> files[k] == files[1..][k - 1];
    }
  }
}
