/** `run_git_command` as an injected oracle, and the argument vectors the web
    app passes to it. Every operation threads a trace of the calls it made, so
    that which commands ran, in which order and with which result is part of
    its outcome. */
module Commands {

  /** An argument vector, passed to the process without a shell. */
  type Argv = seq<string>

  /** What `run_git_command` returns: the standard output on a zero exit
      status, otherwise the error text (standard error, or the exception's
      text when that is empty). */
  datatype CmdResult = Ok(output: string) | Failed(error: string)

  datatype Call = Call(argv: Argv, result: CmdResult)

  type Trace = seq<Call>

  /** The outside world: the result of running a command may depend on every
      command run before it in the same operation (git is stateful). */
  type Git = (Trace, Argv) -> CmdResult

  /** Every call of the trace got the answer the oracle gives after the calls
      before it. */
  predicate Answered(git: Git, t: Trace) {
    forall k :: 0 <= k < |t| ==> t[k].result == git(t[..k], t[k].argv)
  }

  /** The calls of `t` are, in order, the first commands of `plan`. */
  predicate Follows(t: Trace, plan: seq<Argv>) {
    |t| <= |plan| && forall k :: 0 <= k < |t| ==> t[k].argv == plan[k]
  }

  /** Runs one more command. */
  function Invoke(git: Git, t: Trace, argv: Argv): (r: Trace)
    requires Answered(git, t)
    ensures |r| == |t| + 1 && r[..|t|] == t && r[|t|].argv == argv
    ensures forall k :: 0 <= k < |t| ==> r[k] == t[k]
    ensures Answered(git, r)
  {
    var r := t + [Call(argv, git(t, argv))];
    assert forall k :: 0 <= k <= |t| ==> r[..k] == t[..k];
    r
  }

  /** Running the next planned command keeps the trace on the plan. */
  lemma InvokeFollows(git: Git, t: Trace, argv: Argv, plan: seq<Argv>)
    requires Answered(git, t) && Follows(t, plan) && |t| < |plan| && plan[|t|] == argv
    ensures Follows(Invoke(git, t, argv), plan)
  {
  }

  predicate Passed(c: Call) {
    c.result.Ok?
  }

  /** `result['success'] and result['output']`: success with non-empty output. */
  predicate PassedWithOutput(c: Call) {
    c.result.Ok? && c.result.output != ""
  }

  const StatusCmd: Argv := ["git", "status", "--porcelain"]
  const CurrentBranchCmd: Argv := ["git", "branch", "--show-current"]
  const InitCmd: Argv := ["git", "init"]
  const AddAllCmd: Argv := ["git", "add", "."]
  function AddCmd(path: string): Argv { ["git", "add", path] }
  function CommitCmd(message: string): Argv { ["git", "commit", "-m", message] }
  const RevParseCmd: Argv := ["git", "rev-parse", "--short", "HEAD"]
  const BranchListCmd: Argv := ["git", "branch"]
  function CheckoutNewCmd(name: string): Argv { ["git", "checkout", "-b", name] }
  function CheckoutCmd(name: string): Argv { ["git", "checkout", name] }
  const RemoteListCmd: Argv := ["git", "remote", "-v"]
  const RemoteRemoveCmd: Argv := ["git", "remote", "remove", "origin"]
  function RemoteAddCmd(url: string): Argv { ["git", "remote", "add", "origin", url] }
  const PushCmd: Argv := ["git", "push"]
  function PushUpstreamCmd(branch: string): Argv { ["git", "push", "-u", "origin", branch] }
  const PullCmd: Argv := ["git", "pull"]
}
