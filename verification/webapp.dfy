/** The decision logic of `GitManagerWeb`: each operation is a short chain of
    git commands that branches on their success and output. Whether the
    working directory holds a repository (`check_git_repo`) and the current
    time (`datetime.now()`, already formatted) are parameters. */
module WebApp {
  import opened Outcomes
  import opened Text
  import opened Porcelain
  import Branches
  import opened Commands

  /** An operation's answer together with the calls it made. */
  datatype Run<T> = Run(value: T, trace: Trace)

  /** The `{'success': ..., 'message': ...}` dictionary most operations return. */
  datatype Reply = Reply(success: bool, message: string)

  /** What `get_status` returns. */
  datatype StatusReport = StatusReport(initialized: bool, files: seq<FileEntry>, branch: Option<string>, message: string)

  /** What `commit_changes` returns: on success also the short hash and the
      message actually committed. */
  datatype CommitReply =
    | Committed(message: string, hash: string, fullMessage: string)
    | CommitRejected(message: string)

  /** What `get_branches` returns. */
  datatype BranchReply = Listed(listing: Branches.Listing) | ListFailed

  /** An exception escaping an operation: `add_files` reads an `'error'` key
      that its aggregate result for an explicit file list never has. */
  datatype Raised = KeyError(key: string)

  const MsgNotInitialized := "Repository nu este inițializat"
  const MsgHasChanges := "Repository inițializat"
  const MsgCleanTree := "Working tree curat"
  const MsgAlreadyInitialized := "Repository deja inițializat"
  const MsgInitialized := "Repository inițializat cu succes"
  const MsgFilesAdded := "Fișiere adăugate cu succes"
  const MsgEmptyMessage := "Mesajul nu poate fi gol"
  const MsgCommitted := "Commit realizat cu succes"
  const MsgEmptyBranchName := "Numele branch-ului nu poate fi gol"
  const MsgEmptyUrl := "URL-ul nu poate fi gol"
  const MsgRemoteConfigured := "Repository remote configurat"
  const MsgNoRemote := "Nu este configurat repository remote"
  const MsgPushed := "Modificări trimise pe server"
  const MsgUpToDate := "Proiectul este deja la zi"
  const MsgPulled := "Modificări descărcate și combinate"
  const MsgStatusUnavailable := "Nu se poate verifica status-ul"
  const MsgNothingToBackup := "Nu există modificări de salvat"
  const MsgBackupFull := "Backup complet realizat (local + server)"
  const MsgBackupPushFailed := "Backup local realizat (eroare la push)"
  const MsgBackupLocal := "Backup local realizat"

  function ErrorMsg(error: string): string { "Eroare: " + error }
  function BranchCreatedMsg(name: string): string { "Branch " + name + " creat și activat" }
  function SwitchedMsg(name: string): string { "Comutat pe branch-ul " + name }
  function AddFailedMsg(error: string): string { "Eroare la adăugare: " + error }
  function CommitFailedMsg(error: string): string { "Eroare la commit: " + error }

  /** The text pulled output must contain to count as already up to date. */
  const UpToDateMarker := "Already up to date"

  /** The current branch as `get_status` and `push_changes` read it from
      `git branch --show-current`, `main` when the query fails. */
  function BranchName(res: CmdResult): (name: string)
    ensures res.Failed? ==> name == "main"
    ensures res.Ok? ==> name == Strip(res.output) && Strip(name) == name
  {
    if res.Ok? then
      StripVisible(Strip(res.output));
      Strip(res.output)
    else "main"
  }

  /** `get_status`. The status query always runs in a repository; the branch
      query runs after it unless parsing the status raised. */
  function GetStatus(isRepo: bool, git: Git): (r: Run<Result<StatusReport, ParseError>>)
    ensures Answered(git, r.trace)
    ensures !isRepo ==> r.trace == [] && r.value == Success(StatusReport(false, [], None, MsgNotInitialized))
    ensures isRepo ==> Follows(r.trace, [StatusCmd, CurrentBranchCmd]) && |r.trace| >= 1
    ensures r.value.Failure? <==>
      isRepo && Passed(r.trace[0]) && ParsePorcelain(r.trace[0].result.output).Failure?
    ensures r.value.Failure? ==>
      |r.trace| == 1 && r.value.error == ParsePorcelain(r.trace[0].result.output).error
    ensures isRepo && r.value.Success? ==>
      && |r.trace| == 2
      && r.value.value.initialized
      && r.value.value.branch == Some(BranchName(r.trace[1].result))
      && r.value.value.files == (if Passed(r.trace[0]) then ParsePorcelain(r.trace[0].result.output).value else [])
      && (r.value.value.message == MsgHasChanges <==> r.value.value.files != [])
      && (r.value.value.message == MsgCleanTree <==> r.value.value.files == [])
  {
    if !isRepo then Run(Success(StatusReport(false, [], None, MsgNotInitialized)), [])
    else
      var plan := [StatusCmd, CurrentBranchCmd];
      InvokeFollows(git, [], StatusCmd, plan);
      var t := Invoke(git, [], StatusCmd);
      var status := t[0].result;
      var parsed := if status.Ok? && status.output != "" then ParsePorcelain(status.output) else Success([]);
      if parsed.Failure? then Run(Failure(parsed.error), t)
      else
        InvokeFollows(git, t, CurrentBranchCmd, plan);
        var t := Invoke(git, t, CurrentBranchCmd);
        var files := parsed.value;
        var message := if files != [] then MsgHasChanges else MsgCleanTree;
        Run(Success(StatusReport(true, files, Some(BranchName(t[1].result)), message)), t)
  }

  /** `initialize_repo`; writing `.gitignore` afterwards is not modelled (its
      outcome does not affect the reply). */
  function InitializeRepo(isRepo: bool, git: Git): (r: Run<Reply>)
    ensures Answered(git, r.trace)
    ensures isRepo <==> r.trace == []
    ensures isRepo ==> r.value == Reply(false, MsgAlreadyInitialized)
    ensures !isRepo ==> Follows(r.trace, [InitCmd]) && |r.trace| == 1
    ensures !isRepo ==> (r.value.success <==> Passed(r.trace[0]))
    ensures !isRepo && Passed(r.trace[0]) ==> r.value.message == MsgInitialized
    ensures !isRepo && !Passed(r.trace[0]) ==> r.value.message == ErrorMsg(r.trace[0].result.error)
  {
    if isRepo then Run(Reply(false, MsgAlreadyInitialized), [])
    else
      var t := Invoke(git, [], InitCmd);
      match t[0].result
      case Ok(_) => Run(Reply(true, MsgInitialized), t)
      case Failed(e) => Run(Reply(false, ErrorMsg(e)), t)
  }

  /** `files is None or files == ['all']`. */
  predicate AddsEverything(files: Option<seq<string>>) {
    files.None? || files.value == ["all"]
  }

  /** Every call of the trace succeeded. */
  predicate AllPassed(t: Trace) {
    forall k :: 0 <= k < |t| ==> Passed(t[k])
  }

  /** The loop of `add_files` over an explicit list: one `git add` per
      element, in order, whatever the earlier ones returned. */
  function AddEach(git: Git, files: seq<string>, t: Trace): (r: Trace)
    requires Answered(git, t)
    ensures Answered(git, r)
    ensures |r| == |t| + |files| && r[..|t|] == t
    ensures forall k :: 0 <= k < |files| ==> r[|t| + k].argv == AddCmd(files[k])
    decreases |files|
  {
    if files == [] then t
    else
      var t' := Invoke(git, t, AddCmd(files[0]));
      var r := AddEach(git, files[1..], t');
      forall k | 0 <= k < |files|
        ensures r[|t| + k].argv == AddCmd(files[k])
      {
        if k == 0 {
          assert r[|t|] == r[..|t'|][|t|];
        } else {
          assert r[|t'| + (k - 1)].argv == AddCmd(files[1..][k - 1]);
        }
      }
      r
  }

  /** `add_files`. */
  function AddFiles(isRepo: bool, files: Option<seq<string>>, git: Git): (r: Run<Result<Reply, Raised>>)
    ensures Answered(git, r.trace)
    ensures !isRepo ==> r.trace == [] && r.value == Success(Reply(false, MsgNotInitialized))
    ensures isRepo && AddsEverything(files) ==>
      && Follows(r.trace, [AddAllCmd]) && |r.trace| == 1
      && (Passed(r.trace[0]) ==> r.value == Success(Reply(true, MsgFilesAdded)))
      && (!Passed(r.trace[0]) ==> r.value == Success(Reply(false, ErrorMsg(r.trace[0].result.error))))
    ensures isRepo && !AddsEverything(files) ==>
      && |r.trace| == |files.value|
      && (forall k :: 0 <= k < |r.trace| ==> r.trace[k].argv == AddCmd(files.value[k]))
      && (AllPassed(r.trace) <==> r.value == Success(Reply(true, MsgFilesAdded)))
      && (!AllPassed(r.trace) <==> r.value == Failure(KeyError("error")))
  {
    if !isRepo then Run(Success(Reply(false, MsgNotInitialized)), [])
    else if AddsEverything(files) then
      var t := Invoke(git, [], AddAllCmd);
      match t[0].result
      case Ok(_) => Run(Success(Reply(true, MsgFilesAdded)), t)
      case Failed(e) => Run(Success(Reply(false, ErrorMsg(e))), t)
    else
      var t := AddEach(git, files.value, []);
      assert forall k :: 0 <= k < |t| ==> t[k].argv == AddCmd(files.value[k]) by {
        assert forall k :: 0 <= k < |files.value| ==> t[0 + k].argv == AddCmd(files.value[k]);
      }
      if AllPassed(t) then Run(Success(Reply(true, MsgFilesAdded)), t)
      else Run(Failure(KeyError("error")), t)
  }

  /** The message `commit_changes` commits: the user's text with the
      timestamp (`%Y-%m-%d %H:%M`) in square brackets after it. */
  function StampedMessage(message: string, timestamp: string): string {
    message + " [" + timestamp + "]"
  }

  /** `commit_changes`. There is no repository check and no check that
      anything is staged. */
  function CommitChanges(message: string, timestamp: string, git: Git): (r: Run<CommitReply>)
    ensures Answered(git, r.trace)
    ensures IsBlank(message) <==> r.trace == []
    ensures IsBlank(message) ==> r.value == CommitRejected(MsgEmptyMessage)
    ensures !IsBlank(message) ==>
      Follows(r.trace, [CommitCmd(StampedMessage(message, timestamp)), RevParseCmd]) && |r.trace| >= 1
    ensures r.value.Committed? <==> |r.trace| == 2
    ensures r.value.Committed? <==> !IsBlank(message) && Passed(r.trace[0])
    ensures r.value.Committed? ==>
      && r.value.message == MsgCommitted
      && r.value.fullMessage == StampedMessage(message, timestamp)
      && r.value.hash == (if Passed(r.trace[1]) then Strip(r.trace[1].result.output) else "unknown")
    ensures !IsBlank(message) && !Passed(r.trace[0]) ==>
      r.value == CommitRejected(ErrorMsg(r.trace[0].result.error))
  {
    if IsBlank(message) then Run(CommitRejected(MsgEmptyMessage), [])
    else
      var full := StampedMessage(message, timestamp);
      var plan := [CommitCmd(full), RevParseCmd];
      InvokeFollows(git, [], CommitCmd(full), plan);
      var t := Invoke(git, [], CommitCmd(full));
      match t[0].result
      case Failed(e) => Run(CommitRejected(ErrorMsg(e)), t)
      case Ok(_) =>
        InvokeFollows(git, t, RevParseCmd, plan);
        var t := Invoke(git, t, RevParseCmd);
        var hash := if t[1].result.Ok? then Strip(t[1].result.output) else "unknown";
        Run(Committed(MsgCommitted, hash, full), t)
  }

  /** `get_branches`. */
  function GetBranches(isRepo: bool, git: Git): (r: Run<BranchReply>)
    ensures Answered(git, r.trace)
    ensures !isRepo <==> r.trace == []
    ensures !isRepo ==> r.value == ListFailed
    ensures isRepo ==> Follows(r.trace, [BranchListCmd]) && |r.trace| == 1
    ensures isRepo && Passed(r.trace[0]) ==> r.value == Listed(Branches.ParseBranches(r.trace[0].result.output))
    ensures isRepo && !Passed(r.trace[0]) ==> r.value == ListFailed
  {
    if !isRepo then Run(ListFailed, [])
    else
      InvokeFollows(git, [], BranchListCmd, [BranchListCmd]);
      var t := Invoke(git, [], BranchListCmd);
      match t[0].result
      case Ok(out) => Run(Listed(Branches.ParseBranches(out)), t)
      case Failed(_) => Run(ListFailed, t)
  }

  /** `create_branch`: one `git checkout -b`, with the name as given. */
  function CreateBranch(name: string, git: Git): (r: Run<Reply>)
    ensures Answered(git, r.trace)
    ensures IsBlank(name) <==> r.trace == []
    ensures IsBlank(name) ==> r.value == Reply(false, MsgEmptyBranchName)
    ensures !IsBlank(name) ==> Follows(r.trace, [CheckoutNewCmd(name)]) && |r.trace| == 1
    ensures !IsBlank(name) ==> (r.value.success <==> Passed(r.trace[0]))
    ensures !IsBlank(name) && Passed(r.trace[0]) ==> r.value.message == BranchCreatedMsg(name)
    ensures !IsBlank(name) && !Passed(r.trace[0]) ==> r.value.message == ErrorMsg(r.trace[0].result.error)
  {
    if IsBlank(name) then Run(Reply(false, MsgEmptyBranchName), [])
    else
      var t := Invoke(git, [], CheckoutNewCmd(name));
      match t[0].result
      case Ok(_) => Run(Reply(true, BranchCreatedMsg(name)), t)
      case Failed(e) => Run(Reply(false, ErrorMsg(e)), t)
  }

  /** `switch_branch`: no validation of the name at all, one `git checkout`. */
  function SwitchBranch(name: string, git: Git): (r: Run<Reply>)
    ensures Answered(git, r.trace)
    ensures Follows(r.trace, [CheckoutCmd(name)]) && |r.trace| == 1
    ensures r.value.success <==> Passed(r.trace[0])
    ensures Passed(r.trace[0]) ==> r.value.message == SwitchedMsg(name)
    ensures !Passed(r.trace[0]) ==> r.value.message == ErrorMsg(r.trace[0].result.error)
  {
    var t := Invoke(git, [], CheckoutCmd(name));
    match t[0].result
    case Ok(_) => Run(Reply(true, SwitchedMsg(name)), t)
    case Failed(e) => Run(Reply(false, ErrorMsg(e)), t)
  }

  /** `setup_remote`: list the remotes; when that succeeds with output,
      remove `origin`, ignoring the outcome; then add `origin` with the URL
      as given. The reply depends on the last command only. */
  function SetupRemote(url: string, git: Git): (r: Run<Reply>)
    ensures Answered(git, r.trace)
    ensures IsBlank(url) <==> r.trace == []
    ensures IsBlank(url) ==> r.value == Reply(false, MsgEmptyUrl)
    ensures !IsBlank(url) ==>
      && 2 <= |r.trace| <= 3
      && r.trace[0].argv == RemoteListCmd
      && (|r.trace| == 3 <==> PassedWithOutput(r.trace[0]))
      && (|r.trace| == 3 ==> r.trace[1].argv == RemoteRemoveCmd)
      && r.trace[|r.trace| - 1].argv == RemoteAddCmd(url)
      && (r.value.success <==> Passed(r.trace[|r.trace| - 1]))
      && (Passed(r.trace[|r.trace| - 1]) ==> r.value.message == MsgRemoteConfigured)
      && (!Passed(r.trace[|r.trace| - 1]) ==> r.value.message == ErrorMsg(r.trace[|r.trace| - 1].result.error))
  {
    if IsBlank(url) then Run(Reply(false, MsgEmptyUrl), [])
    else
      var t := Invoke(git, [], RemoteListCmd);
      var t := if PassedWithOutput(t[0]) then Invoke(git, t, RemoteRemoveCmd) else t;
      var t := Invoke(git, t, RemoteAddCmd(url));
      match t[|t| - 1].result
      case Ok(_) => Run(Reply(true, MsgRemoteConfigured), t)
      case Failed(e) => Run(Reply(false, ErrorMsg(e)), t)
  }

  /** `push_changes`: refuses without a configured remote; a first push sets
      the upstream of the current branch. */
  function PushChanges(isRepo: bool, firstPush: bool, git: Git): (r: Run<Reply>)
    ensures Answered(git, r.trace)
    ensures !isRepo <==> r.trace == []
    ensures !isRepo ==> r.value == Reply(false, MsgNotInitialized)
    ensures isRepo ==> r.trace[0].argv == RemoteListCmd
    ensures isRepo ==> (|r.trace| == 3 <==> PassedWithOutput(r.trace[0])) && 1 <= |r.trace| <= 3 && |r.trace| != 2
    ensures isRepo && |r.trace| == 1 ==> r.value == Reply(false, MsgNoRemote)
    ensures |r.trace| == 3 ==>
      && r.trace[1].argv == CurrentBranchCmd
      && r.trace[2].argv == (if firstPush then PushUpstreamCmd(BranchName(r.trace[1].result)) else PushCmd)
      && (r.value.success <==> Passed(r.trace[2]))
      && (Passed(r.trace[2]) ==> r.value.message == MsgPushed)
      && (!Passed(r.trace[2]) ==> r.value.message == ErrorMsg(r.trace[2].result.error))
  {
    if !isRepo then Run(Reply(false, MsgNotInitialized), [])
    else
      var t := Invoke(git, [], RemoteListCmd);
      if !PassedWithOutput(t[0]) then Run(Reply(false, MsgNoRemote), t)
      else
        var t := Invoke(git, t, CurrentBranchCmd);
        var branch := BranchName(t[1].result);
        var t := Invoke(git, t, if firstPush then PushUpstreamCmd(branch) else PushCmd);
        match t[2].result
        case Ok(_) => Run(Reply(true, MsgPushed), t)
        case Failed(e) => Run(Reply(false, ErrorMsg(e)), t)
  }

  /** `pull_changes`: no repository check; the message depends on whether
      git reported that nothing changed. */
  function PullChanges(git: Git): (r: Run<Reply>)
    ensures Answered(git, r.trace)
    ensures Follows(r.trace, [PullCmd]) && |r.trace| == 1
    ensures r.value.success <==> Passed(r.trace[0])
    ensures Passed(r.trace[0]) ==>
      (r.value.message == MsgUpToDate <==> exists i :: OccursAt(r.trace[0].result.output, UpToDateMarker, i))
    ensures Passed(r.trace[0]) ==> r.value.message in {MsgUpToDate, MsgPulled}
    ensures !Passed(r.trace[0]) ==> r.value.message == ErrorMsg(r.trace[0].result.error)
  {
    var t := Invoke(git, [], PullCmd);
    match t[0].result
    case Ok(out) => Run(Reply(true, if Contains(out, UpToDateMarker) then MsgUpToDate else MsgPulled), t)
    case Failed(e) => Run(Reply(false, ErrorMsg(e)), t)
  }

  /** The commit message of an automatic backup (`%Y-%m-%d %H:%M:%S` time). */
  function BackupMessage(timestamp: string): string {
    "Backup automat - " + timestamp
  }

  /** The commands `quick_backup` may run, in the order it runs them. */
  function BackupPlan(timestamp: string): seq<Argv> {
    [StatusCmd, AddAllCmd, CommitCmd(BackupMessage(timestamp)), RemoteListCmd, PushCmd]
  }

  /** The status query reports something to back up. */
  predicate ReportsChanges(c: Call) {
    c.result.Ok? && !IsBlank(c.result.output)
  }

  /** `quick_backup`: status, stage everything, commit, then push when a
      remote is configured. Each step runs only when the one before it let
      the backup through; nothing is undone, and a failed push after a
      successful commit still counts as success. */
  function QuickBackup(isRepo: bool, timestamp: string, git: Git): (r: Run<Reply>)
    ensures Answered(git, r.trace)
    ensures Follows(r.trace, BackupPlan(timestamp))
    ensures !isRepo <==> r.trace == []
    ensures !isRepo ==> r.value == Reply(false, MsgNotInitialized)
    ensures |r.trace| >= 2 <==> |r.trace| >= 1 && ReportsChanges(r.trace[0])
    ensures |r.trace| >= 3 <==> |r.trace| >= 2 && Passed(r.trace[1])
    ensures |r.trace| >= 4 <==> |r.trace| >= 3 && Passed(r.trace[2])
    ensures |r.trace| == 5 <==> |r.trace| >= 4 && PassedWithOutput(r.trace[3])
    ensures r.value.success <==> (|r.trace| == 1 && Passed(r.trace[0])) || |r.trace| >= 4
    ensures |r.trace| == 1 ==>
      r.value.message == if Passed(r.trace[0]) then MsgNothingToBackup else MsgStatusUnavailable
    ensures |r.trace| == 2 ==> r.value.message == AddFailedMsg(r.trace[1].result.error)
    ensures |r.trace| == 3 ==> r.value.message == CommitFailedMsg(r.trace[2].result.error)
    ensures |r.trace| == 4 ==> r.value.message == MsgBackupLocal
    ensures |r.trace| == 5 ==>
      r.value.message == if Passed(r.trace[4]) then MsgBackupFull else MsgBackupPushFailed
  {
    if !isRepo then Run(Reply(false, MsgNotInitialized), [])
    else
      var plan := BackupPlan(timestamp);
      InvokeFollows(git, [], StatusCmd, plan);
      var t := Invoke(git, [], StatusCmd);
      if t[0].result.Failed? then Run(Reply(false, MsgStatusUnavailable), t)
      else if t[0].result.output == "" || IsBlank(t[0].result.output) then Run(Reply(true, MsgNothingToBackup), t)
      else
        InvokeFollows(git, t, AddAllCmd, plan);
        var t := Invoke(git, t, AddAllCmd);
        if t[1].result.Failed? then Run(Reply(false, AddFailedMsg(t[1].result.error)), t)
        else
          InvokeFollows(git, t, CommitCmd(BackupMessage(timestamp)), plan);
          var t := Invoke(git, t, CommitCmd(BackupMessage(timestamp)));
          if t[2].result.Failed? then Run(Reply(false, CommitFailedMsg(t[2].result.error)), t)
          else
            InvokeFollows(git, t, RemoteListCmd, plan);
            var t := Invoke(git, t, RemoteListCmd);
            if PassedWithOutput(t[3]) then
              InvokeFollows(git, t, PushCmd, plan);
              var t := Invoke(git, t, PushCmd);
              if t[4].result.Ok? then Run(Reply(true, MsgBackupFull), t)
              else Run(Reply(true, MsgBackupPushFailed), t)
            else Run(Reply(true, MsgBackupLocal), t)
  }

  /** The status screen and the quick backup read the same first answer, and
      they agree on it: the backup finds nothing to save exactly when the
      status query succeeded and the status screen lists no file. */
  lemma StatusAgreesWithBackup(timestamp: string, git: Git)
    ensures GetStatus(true, git).trace[0] == QuickBackup(true, timestamp, git).trace[0]
    ensures var s := GetStatus(true, git);
      QuickBackup(true, timestamp, git).value == Reply(true, MsgNothingToBackup) <==>
        Passed(s.trace[0]) && s.value.Success? && s.value.value.files == []
  {
    var s := GetStatus(true, git);
    var b := QuickBackup(true, timestamp, git);
    assert s.trace[0].result == git([], StatusCmd) == b.trace[0].result by {
      assert s.trace[..0] == [] && b.trace[..0] == [];
    }
    if Passed(s.trace[0]) {
      NothingParsedIffBlank(s.trace[0].result.output);
    }
  }
}
