/**
 * `commit` (commit.command.ts): check the trimmed message against a subset of
 * Conventional Commits, then, when `git status --porcelain` shows changes,
 * stage everything and commit. A failing command is reported, not rethrown.
 */
module Commit {
  import opened Wrappers
  import opened Text
  import opened Git
  import opened CommitMessage

  datatype CommitOutcome =
    | InvalidMessage              // "Invalid commit message format..."
    | NoChanges                   // "No changes detected to commit."
    | Committed                   // "Changes committed successfully."
    | CommitFailed(message: string)  // "Failed to commit changes:" with the wrapped message

  /** `hasChangesToCommit`: the trimmed porcelain status is not empty; a failing status counts as no changes. */
  function HasChangesOf(s: GitState, f: map<Cmd, string>, log: seq<Cmd>): (p: Step<bool>)
    ensures p.ran == log + [StatusPorcelain] && p.state == s
    ensures p.result <==> Raw(s, f, StatusPorcelain).Ok? && Trim(Raw(s, f, StatusPorcelain).value) != ""
  {
    match ExecResult(s, f, StatusPorcelain, true)
    case Ok(out) => Step(|out| > 0, log + [StatusPorcelain], s)
    case Err(_) => Step(false, log + [StatusPorcelain], s)
  }

  /** `git add .`, then `git commit -m`, stopping at the first failure. */
  function StageAndCommitOf(s: GitState, f: map<Cmd, string>, message: string, log: seq<Cmd>): (p: Step<CommitOutcome>)
    ensures p.result == Committed || p.result.CommitFailed?
    ensures Raw(s, f, AddAll).Err? ==>
              p.ran == log + [AddAll] && p.state == s &&
              p.result == CommitFailed(ExecResult(s, f, AddAll, false).error)
    ensures Raw(s, f, AddAll).Ok? ==> p.ran == log + [AddAll] + [CommitStaged(message)]
    ensures p.result == Committed <==>
              Raw(s, f, AddAll).Ok? && Raw(Effect(s, AddAll), f, CommitStaged(message)).Ok?
    ensures p.result == Committed ==> p.state == Effect(Effect(s, AddAll), CommitStaged(message))
  {
    match ExecResult(s, f, AddAll, false)
    case Err(e) => Step(CommitFailed(e), log + [AddAll], s)
    case Ok(_) =>
      var staged := Effect(s, AddAll);
      match ExecResult(staged, f, CommitStaged(message), false)
      case Err(e) => Step(CommitFailed(e), log + [AddAll] + [CommitStaged(message)], staged)
      case Ok(_) => Step(Committed, log + [AddAll] + [CommitStaged(message)], After(staged, f, CommitStaged(message)))
  }

  /** `run` for the trimmed message. */
  function RunOf(s: GitState, f: map<Cmd, string>, message: string, log: seq<Cmd>): (p: Step<CommitOutcome>)
    // an invalid message runs nothing
    ensures p.result == InvalidMessage <==> !IsValidCommitMessage(message)
    ensures p.result == InvalidMessage ==> p.ran == log && p.state == s
    // no changes: only the status ran
    ensures p.result == NoChanges <==> IsValidCommitMessage(message) && !HasChangesOf(s, f, log).result
    ensures p.result == NoChanges ==> p.ran == log + [StatusPorcelain] && p.state == s
    // otherwise staging, then committing
    ensures p.result == Committed || p.result.CommitFailed? ==>
              p == StageAndCommitOf(s, f, message, log + [StatusPorcelain])
  {
    if !IsValidCommitMessage(message) then Step(InvalidMessage, log, s)
    else
      var changes := HasChangesOf(s, f, log);
      if !changes.result then Step(NoChanges, changes.ran, s)
      else StageAndCommitOf(s, f, message, changes.ran)
  }

  class CommitCommand {
    constructor () {}

    /** `run` with the `-m` option as given on the command line. */
    method Run(repo: Repo, option: string) returns (out: CommitOutcome)
      modifies repo`state, repo`ran
      ensures var p := RunOf(old(repo.state), repo.faults, Trim(option), old(repo.ran));
              out == p.result && repo.state == p.state && repo.ran == p.ran
    {
      var commitMessage := Trim(option);
      if !IsValidCommitMessage(commitMessage) {
        return InvalidMessage;
      }
      var changes := HasChangesToCommit(repo);
      if !changes {
        return NoChanges;
      }
      out := StageAndCommit(repo, commitMessage);
    }

    method HasChangesToCommit(repo: Repo) returns (b: bool)
      modifies repo`state, repo`ran
      ensures var p := HasChangesOf(old(repo.state), repo.faults, old(repo.ran));
              b == p.result && repo.state == p.state && repo.ran == p.ran
    {
      var status := ExecuteCommand(repo, StatusPorcelain, true);
      match status
      case Ok(out) => b := |out| > 0;
      case Err(_) => b := false;
    }

    /** The body of `run`'s try block once changes are found. */
    method StageAndCommit(repo: Repo, message: string) returns (out: CommitOutcome)
      modifies repo`state, repo`ran
      ensures var p := StageAndCommitOf(old(repo.state), repo.faults, message, old(repo.ran));
              out == p.result && repo.state == p.state && repo.ran == p.ran
    {
      var add := ExecuteCommand(repo, AddAll, false);
      if add.Err? {
        return CommitFailed(add.error);
      }
      var commit := ExecuteCommand(repo, CommitStaged(message), false);
      out := if commit.Ok? then Committed else CommitFailed(commit.error);
    }
  }

  /** Inside a repository where nothing fails, the status reports pending changes exactly when there are some. */
  lemma ChangesSeen(s: GitState, log: seq<Cmd>)
    requires s.insideWorkTree
    ensures HasChangesOf(s, map[], log) == Step(Trim(s.changes) != "", log + [StatusPorcelain], s)
  {
    StatusReportsChanges(s);
  }

  /** Inside a repository where nothing fails, pending changes are staged and the commit succeeds and cleans the tree. */
  lemma StagedAndCommitted(s: GitState, message: string, log: seq<Cmd>)
    requires s.insideWorkTree && s.changes != ""
    ensures var p := StageAndCommitOf(s, map[], message, log);
            p.result == Committed && p.state.changes == "" && !p.state.staged &&
            p.ran == log + [AddAll] + [CommitStaged(message)]
  {
    StageSucceeds(s);
    CommitSucceeds(Effect(s, AddAll), message);
  }

  /** In a repository where nothing fails, pending changes are staged and committed with the trimmed message. */
  lemma PendingChangesCommitted(s: GitState, option: string, log: seq<Cmd>)
    requires s.insideWorkTree && Trim(s.changes) != "" && IsValidCommitMessage(Trim(option))
    ensures var p := RunOf(s, map[], Trim(option), log);
            p.result == Committed && p.state.changes == "" && !p.state.staged &&
            p.ran == log + [StatusPorcelain] + [AddAll] + [CommitStaged(Trim(option))]
  {
    ChangesSeen(s, log);
    assert s.changes != "" by {
      assert Trim("") == "";
    }
    StagedAndCommitted(s, Trim(option), log + [StatusPorcelain]);
  }

  /** A clean working tree commits nothing, whatever the message. */
  lemma CleanTreeNotCommitted(s: GitState, message: string, log: seq<Cmd>)
    requires s.insideWorkTree && Trim(s.changes) == "" && IsValidCommitMessage(message)
    ensures RunOf(s, map[], message, log) == Step(NoChanges, log + [StatusPorcelain], s)
  {
    ChangesSeen(s, log);
  }

  /**
   * Outside a repository the failing status reads as "no changes": the
   * command never reports that there is no repository.
   */
  lemma OutsideRepositoryNoChanges(s: GitState, message: string, log: seq<Cmd>)
    requires !s.insideWorkTree && IsValidCommitMessage(message)
    ensures RunOf(s, map[], message, log).result == NoChanges
  {
  }

  /** When the commit itself fails, the failure names the commit command and the staging is kept. */
  lemma CommitFailureReported(s: GitState, f: map<Cmd, string>, message: string, log: seq<Cmd>)
    requires Raw(s, f, AddAll).Ok? && Raw(Effect(s, AddAll), f, CommitStaged(message)).Err?
    ensures var p := StageAndCommitOf(s, f, message, log);
            var raw := Raw(Effect(s, AddAll), f, CommitStaged(message)).error;
            p.result == CommitFailed("Command failed: " + CmdText(CommitStaged(message)) + "\n" +
                                     ExecSyncMessage(CommitStaged(message), raw, false)) &&
            p.state == Effect(s, AddAll)
  {
  }
}
