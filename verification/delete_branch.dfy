/**
 * `branch:delete` (delete-branch.command.ts): delete a branch locally and on
 * origin, each only where git lists it. The local delete uses `git branch -d`
 * and retries with `-D` when the failure mentions "not fully merged"; any other
 * local failure aborts the command before the remote step, while a failing
 * remote delete is only logged.
 *
 * Each step is specified by a function of the repository state and of the
 * command log so far, giving what it reports, the extended log and the state it
 * leaves; the methods of `DeleteBranchCommand` are proved to follow them.
 */
module DeleteBranch {
  import opened Wrappers
  import opened Text
  import opened Git

  /** The message `getCurrentBranchName` replaces any failure with. */
  const CurrentBranchUnreadable := "\U{274C} Failed to get current branch name"

  /** What `deleteLocalBranch` looks for in a failure before forcing the deletion. */
  const NotFullyMerged := "not fully merged"

  datatype LocalDeletion = NotLocal | Deleted | ForceDeleted
  datatype RemoteDeletion = NotRemote | DeletedRemote | RemoteDeleteFailed(message: string)

  datatype DeleteBranchOutcome =
    | NotARepository
    | IsCurrentBranch
    | Aborted(message: string)   // reported as "Failed to delete branch:"
    | Finished(local: LocalDeletion, remote: RemoteDeletion)

  /** `getCurrentBranchName`: the trimmed output of `git branch --show-current`. */
  function CurrentBranchName(s: GitState, f: map<Cmd, string>): (r: Result<string, string>)
    ensures r.Ok? <==> Raw(s, f, ShowCurrent).Ok?
    ensures r.Err? ==> r.error == CurrentBranchUnreadable
    ensures WellFormed(s) && s.insideWorkTree && f == map[] ==> r == Ok(s.current)
  {
    assert WellFormed(s) && s.insideWorkTree && f == map[] ==> ExecResult(s, f, ShowCurrent, true) == Ok(s.current) by {
      if WellFormed(s) && s.insideWorkTree && f == map[] { ShowCurrentReads(s); }
    }
    match ExecResult(s, f, ShowCurrent, true)
    case Ok(b) => Ok(b)
    case Err(_) => Err(CurrentBranchUnreadable)
  }

  /**
   * `deleteLocalBranch`: `git branch -d`, then `git branch -D` when the first
   * failure mentions "not fully merged". `piped` says whether the `-d` failure
   * carries git's own message: the command as written runs it with
   * `stdio: 'inherit'`, so it does not.
   */
  function DeleteLocalOf(s: GitState, f: map<Cmd, string>, name: string, log: seq<Cmd>, piped: bool)
    : (p: Step<Result<LocalDeletion, string>>)
    ensures p.ran == log + [DeleteLocal(name, false)] || p.ran == log + [DeleteLocal(name, false)] + [DeleteLocal(name, true)]
    ensures p.result != Ok(NotLocal)
    // a deletion removes the branch and nothing else; a failure leaves the state as it was
    ensures p.result.Ok? ==> p.state == s.(local := Remove(s.local, name), unmerged := s.unmerged - {name})
    ensures p.result.Err? ==> p.state == s
    // the plain delete succeeds exactly when git accepts it
    ensures p.result == Ok(Deleted) <==> Raw(s, f, DeleteLocal(name, false)).Ok?
    // forcing happens only after a "not fully merged" failure
    ensures |p.ran| == |log| + 2 ==>
              Raw(s, f, DeleteLocal(name, false)).Err? &&
              Contains(ExecResult(s, f, DeleteLocal(name, false), piped).error, NotFullyMerged)
  {
    var first := ExecResult(s, f, DeleteLocal(name, false), piped);
    if first.Ok? then
      Step(Ok(Deleted), log + [DeleteLocal(name, false)], After(s, f, DeleteLocal(name, false)))
    else if !Contains(first.error, NotFullyMerged) then
      Step(Err(first.error), log + [DeleteLocal(name, false)], s)
    else
      var second := ExecResult(s, f, DeleteLocal(name, true), false);
      Step(if second.Ok? then Ok(ForceDeleted) else Err(second.error),
           log + [DeleteLocal(name, false)] + [DeleteLocal(name, true)],
           After(s, f, DeleteLocal(name, true)))
  }

  /** `deleteRemoteBranch`: `git push origin --delete`, whose failure is only logged. */
  function DeleteRemoteOf(s: GitState, f: map<Cmd, string>, name: string, log: seq<Cmd>): (p: Step<RemoteDeletion>)
    ensures p.ran == log + [PushDelete(name)]
    ensures p.result != NotRemote
    ensures p.result == DeletedRemote <==> Raw(s, f, PushDelete(name)).Ok?
    ensures p.result == DeletedRemote ==> p.state == s.(remote := Remove(s.remote, name))
    ensures p.result != DeletedRemote ==> p.state == s
  {
    match ExecResult(s, f, PushDelete(name), false)
    case Ok(_) => Step(DeletedRemote, log + [PushDelete(name)], After(s, f, PushDelete(name)))
    case Err(e) => Step(RemoteDeleteFailed(e), log + [PushDelete(name)], s)
  }

  /** The local step: deleted only when the local check lists the name. */
  function LocalPhase(s: GitState, f: map<Cmd, string>, name: string, log: seq<Cmd>, piped: bool)
    : (p: Step<Result<LocalDeletion, string>>)
    ensures p.result == Ok(NotLocal) <==> !LocalBranchListed(s, f, name)
    ensures p.result == Ok(NotLocal) ==> p.ran == log + [BranchList] && p.state == s
  {
    if LocalBranchListed(s, f, name) then DeleteLocalOf(s, f, name, log + [BranchList], piped)
    else Step(Ok(NotLocal), log + [BranchList], s)
  }

  /** The remote step: deleted only when `ls-remote` lists the name. */
  function RemotePhase(s: GitState, f: map<Cmd, string>, name: string, log: seq<Cmd>): (p: Step<RemoteDeletion>)
    ensures p.result == NotRemote <==> !RemoteHeadListed(s, f, name)
    ensures p.result == NotRemote ==> p.ran == log + [LsRemoteHeads(name)] && p.state == s
  {
    if RemoteHeadListed(s, f, name) then DeleteRemoteOf(s, f, name, log + [LsRemoteHeads(name)])
    else Step(NotRemote, log + [LsRemoteHeads(name)], s)
  }

  /** The deletions once the checks have passed: local, then (unless the local step threw) remote. */
  function DeletionsOf(s: GitState, f: map<Cmd, string>, name: string, log: seq<Cmd>, piped: bool)
    : (p: Step<DeleteBranchOutcome>)
    ensures p.result.Aborted? || p.result.Finished?
    ensures p.result.Aborted? ==> p.state == s
    // the remote step runs whatever the local one found, unless it failed
    ensures p.result.Finished? <==> LocalPhase(s, f, name, log, piped).result.Ok?
  {
    var local := LocalPhase(s, f, name, log, piped);
    match local.result
    case Err(e) => Step(Aborted(e), local.ran, local.state)
    case Ok(deletion) =>
      var remote := RemotePhase(local.state, f, name, local.ran);
      Step(Finished(deletion, remote.result), remote.ran, remote.state)
  }

  /** `run`: the repository check, the current-branch refusal, then the deletions. */
  function RunOf(s: GitState, f: map<Cmd, string>, name: string, log: seq<Cmd>, piped: bool)
    : (p: Step<DeleteBranchOutcome>)
    // nothing is deleted outside a repository, for the current branch, or when a step throws
    ensures !p.result.Finished? ==> p.state == s
    ensures !RepoDetected(s, f) ==> p.result == NotARepository && p.ran == log + [RevParse]
    ensures RepoDetected(s, f) && CurrentBranchName(s, f).Err? ==>
              p.result == Aborted(CurrentBranchUnreadable) && p.ran == log + [RevParse] + [ShowCurrent]
    ensures RepoDetected(s, f) && CurrentBranchName(s, f) == Ok(name) ==>
              p.result == IsCurrentBranch && p.ran == log + [RevParse] + [ShowCurrent]
    ensures RepoDetected(s, f) && CurrentBranchName(s, f).Ok? && CurrentBranchName(s, f).value != name ==>
              p == DeletionsOf(s, f, name, log + [RevParse] + [ShowCurrent], piped)
  {
    if !RepoDetected(s, f) then Step(NotARepository, log + [RevParse], s)
    else match CurrentBranchName(s, f)
      case Err(e) => Step(Aborted(e), log + [RevParse] + [ShowCurrent], s)
      case Ok(current) =>
        if current == name then Step(IsCurrentBranch, log + [RevParse] + [ShowCurrent], s)
        else DeletionsOf(s, f, name, log + [RevParse] + [ShowCurrent], piped)
  }

  class DeleteBranchCommand {
    constructor () {}

    /** `run` with the `--name` option as given on the command line. */
    method Run(repo: Repo, option: string) returns (out: DeleteBranchOutcome)
      modifies repo`state, repo`ran
      ensures var p := RunOf(old(repo.state), repo.faults, Trim(option), old(repo.ran), false);
              out == p.result && repo.state == p.state && repo.ran == p.ran
    {
      var branchName := Trim(option);
      var isRepo := IsGitRepository(repo);
      if !isRepo {
        return NotARepository;
      }
      var current := GetCurrentBranchName(repo);
      if current.Err? {
        return Aborted(current.error);
      }
      if current.value == branchName {
        return IsCurrentBranch;
      }
      out := Deletions(repo, branchName);
    }

    method GetCurrentBranchName(repo: Repo) returns (r: Result<string, string>)
      modifies repo`state, repo`ran
      ensures r == CurrentBranchName(old(repo.state), repo.faults)
      ensures repo.state == old(repo.state) && repo.ran == old(repo.ran) + [ShowCurrent]
    {
      r := ExecuteCommand(repo, ShowCurrent, true);
      if r.Err? {
        r := Err(CurrentBranchUnreadable);
      }
    }

    /** The body of `run`'s try block after the current-branch check. */
    method Deletions(repo: Repo, name: string) returns (out: DeleteBranchOutcome)
      modifies repo`state, repo`ran
      ensures var p := DeletionsOf(old(repo.state), repo.faults, name, old(repo.ran), false);
              out == p.result && repo.state == p.state && repo.ran == p.ran
    {
      var local := BranchExistsLocally(repo, name);
      var deletion: LocalDeletion := NotLocal;
      if local {
        var r := DeleteLocalBranch(repo, name);
        if r.Err? {
          return Aborted(r.error);
        }
        deletion := r.value;
      }
      var remote := BranchExistsRemotely(repo, name);
      var remoteDeletion: RemoteDeletion := NotRemote;
      if remote {
        remoteDeletion := DeleteRemoteBranch(repo, name);
      }
      out := Finished(deletion, remoteDeletion);
    }

    method DeleteLocalBranch(repo: Repo, name: string) returns (r: Result<LocalDeletion, string>)
      modifies repo`state, repo`ran
      ensures var p := DeleteLocalOf(old(repo.state), repo.faults, name, old(repo.ran), false);
              r == p.result && repo.state == p.state && repo.ran == p.ran
    {
      var first := ExecuteCommand(repo, DeleteLocal(name, false), false);
      if first.Ok? {
        return Ok(Deleted);
      }
      if !Contains(first.error, NotFullyMerged) {
        return Err(first.error);
      }
      var second := ExecuteCommand(repo, DeleteLocal(name, true), false);
      r := if second.Ok? then Ok(ForceDeleted) else Err(second.error);
    }

    method DeleteRemoteBranch(repo: Repo, name: string) returns (d: RemoteDeletion)
      modifies repo`state, repo`ran
      ensures var p := DeleteRemoteOf(old(repo.state), repo.faults, name, old(repo.ran));
              d == p.result && repo.state == p.state && repo.ran == p.ran
    {
      var r := ExecuteCommand(repo, PushDelete(name), false);
      d := if r.Ok? then DeletedRemote else RemoteDeleteFailed(r.error);
    }
  }

  /** Inside a well-formed repository where nothing fails, any name but the current branch reaches the deletions. */
  lemma ChecksPass(s: GitState, name: string, log: seq<Cmd>, piped: bool)
    requires WellFormed(s) && s.insideWorkTree && name != s.current
    ensures RunOf(s, map[], name, log, piped) == DeletionsOf(s, map[], name, log + [RevParse] + [ShowCurrent], piped)
  {
    DetectedInside(s);
  }

  /** The current branch is refused, and nothing is deleted. */
  lemma CurrentBranchRefused(s: GitState, log: seq<Cmd>, piped: bool)
    requires WellFormed(s) && s.insideWorkTree
    ensures RunOf(s, map[], s.current, log, piped) == Step(IsCurrentBranch, log + [RevParse] + [ShowCurrent], s)
  {
    DetectedInside(s);
  }

  /** A local branch that is not found leaves the remote step to run on the unchanged state. */
  lemma {:induction false} AbsentLocallyStillDeletesRemotely(s: GitState, f: map<Cmd, string>, name: string, log: seq<Cmd>, piped: bool)
    requires !LocalBranchListed(s, f, name)
    ensures var p := DeletionsOf(s, f, name, log, piped);
            var remote := RemotePhase(s, f, name, log + [BranchList]);
            p == Step(Finished(NotLocal, remote.result), remote.ran, remote.state)
  {
  }

  /** A listed branch goes to `deleteLocalBranch`. */
  lemma ListedGoesToDelete(s: GitState, f: map<Cmd, string>, name: string, log: seq<Cmd>, piped: bool)
    requires LocalBranchListed(s, f, name)
    ensures LocalPhase(s, f, name, log, piped) == DeleteLocalOf(s, f, name, log + [BranchList], piped)
  {
  }

  /** A merged branch is deleted by `git branch -d`. */
  lemma MergedDeleted(s: GitState, name: string, log: seq<Cmd>, piped: bool)
    requires WellFormed(s) && s.insideWorkTree
    requires name in s.local && name != s.current && name !in s.unmerged
    ensures var p := LocalPhase(s, map[], name, log, piped);
            p.result == Ok(Deleted) && p.state.local == Remove(s.local, name) &&
            p.ran == log + [BranchList] + [DeleteLocal(name, false)]
  {
    OtherBranchListed(s, name);
    ListedGoesToDelete(s, map[], name, log, piped);
    DeleteMergedSucceeds(s, name);
  }

  /**
   * As written, `git branch -d` runs with its error output going to the
   * terminal, so the failure it reports for an unmerged branch does not say
   * "not fully merged", and the `-D` retry never
   * happens: the command aborts, deleting nothing.
   */
  lemma UnmergedNotForced(s: GitState, name: string, log: seq<Cmd>)
    requires WellFormed(s) && s.insideWorkTree
    requires name in s.local && name != s.current && name in s.unmerged
    ensures var p := LocalPhase(s, map[], name, log, false);
            p.result.Err? && p.state == s && p.ran == log + [BranchList] + [DeleteLocal(name, false)]
  {
    OtherBranchListed(s, name);
    ListedGoesToDelete(s, map[], name, log, false);
    var k :| 0 <= k < |s.local| && s.local[k] == name;
    UnmergedRefusalUnrecognised(s, name, log + [BranchList]);
  }

  lemma UnmergedRefusalUnrecognised(s: GitState, name: string, log: seq<Cmd>)
    requires s.insideWorkTree && name in s.local && name != s.current && name in s.unmerged && PlainBranchName(name)
    ensures var p := DeleteLocalOf(s, map[], name, log, false);
            p.result.Err? && p.state == s && p.ran == log + [DeleteLocal(name, false)]
  {
    DeleteUnmergedRefused(s, name);
    InheritedRefusalSilent(name, Raw(s, map[], DeleteLocal(name, false)).error);
  }

  /** No 'y' of `t` is directly followed by a space, as the one in "not fully merged" is. */
  predicate NoYThenSpace(t: string) {
    forall k :: 0 <= k < |t| - 1 ==> !(t[k] == 'y' && t[k + 1] == ' ')
  }

  lemma NoYThenSpaceConcat(a: string, b: string)
    requires NoYThenSpace(a) && NoYThenSpace(b)
    requires a == [] || b == [] || a[|a| - 1] != 'y' || b[0] != ' '
    ensures NoYThenSpace(a + b)
  {
    var t := a + b;
    forall k | 0 <= k < |t| - 1
      ensures !(t[k] == 'y' && t[k + 1] == ' ')
    {
      if k + 1 < |a| {
        assert t[k] == a[k] && t[k + 1] == a[k + 1];
      } else if k >= |a| {
        assert t[k] == b[k - |a|] && t[k + 1] == b[k + 1 - |a|];
      }
    }
  }

  /**
   * The failure of `git branch -d` with inherited output never mentions "not
   * fully merged" for a non-empty name without whitespace: the phrase has a
   * space right after its 'y', while every 'y' of the wrapped message lies in the whitespace-free name,
   * followed by more of the name, the line break, or the end.
   */
  lemma InheritedRefusalSilent(name: string, stderr: string)
    requires PlainBranchName(name)
    ensures !Contains("Command failed: " + CmdText(DeleteLocal(name, false)) + "\n" +
                      ExecSyncMessage(DeleteLocal(name, false), stderr, false), NotFullyMerged)
  {
    var failed := "Command failed: " + CmdText(DeleteLocal(name, false));
    assert ExecSyncMessage(DeleteLocal(name, false), stderr, false) == failed;
    WrappedCommandNoYThenSpace(name);
    NoYThenSpaceConcat(failed, "\n");
    NoYThenSpaceConcat(failed + "\n", failed);
    PhraseNeedsYThenSpace(failed + "\n" + failed);
  }

  /** "Command failed: git branch -d <name>" has no 'y' before a space. */
  lemma WrappedCommandNoYThenSpace(name: string)
    requires PlainBranchName(name)
    ensures NoYThenSpace("Command failed: " + CmdText(DeleteLocal(name, false)))
  {
    var pre := "Command failed: git branch -d ";
    assert "Command failed: " + CmdText(DeleteLocal(name, false)) == pre + name;
    assert NoYThenSpace(pre);
    forall k | 0 <= k < |name| - 1
      ensures !(name[k] == 'y' && name[k + 1] == ' ')
    {
      assert !IsWhitespace(name[k + 1]);
    }
    NoYThenSpaceConcat(pre, name);
  }

  /** A text with no 'y' before a space cannot contain "not fully merged". */
  lemma PhraseNeedsYThenSpace(t: string)
    requires NoYThenSpace(t)
    ensures !Contains(t, NotFullyMerged)
  {
    if Contains(t, NotFullyMerged) {
      var j :| 0 <= j <= |t| && OccursAt(t, NotFullyMerged, j);
      assert t[j + 8] == 'y' && t[j + 9] == ' ' by {
        assert t[j..j + |NotFullyMerged|] == NotFullyMerged;
      }
      assert false;
    }
  }

  /** With git's message captured, an unmerged branch is force-deleted as intended. */
  lemma UnmergedForced(s: GitState, name: string, log: seq<Cmd>)
    requires WellFormed(s) && s.insideWorkTree
    requires name in s.local && name != s.current && name in s.unmerged
    ensures var p := LocalPhase(s, map[], name, log, true);
            p.result == Ok(ForceDeleted) && name !in p.state.local &&
            p.ran == log + [BranchList] + [DeleteLocal(name, false)] + [DeleteLocal(name, true)]
  {
    OtherBranchListed(s, name);
    ListedGoesToDelete(s, map[], name, log, true);
    UnmergedRefusalRecognised(s, name, log + [BranchList]);
  }

  lemma UnmergedRefusalRecognised(s: GitState, name: string, log: seq<Cmd>)
    requires s.insideWorkTree && name in s.local && name != s.current && name in s.unmerged
    ensures var p := DeleteLocalOf(s, map[], name, log, true);
            p.result == Ok(ForceDeleted) && name !in p.state.local &&
            p.ran == log + [DeleteLocal(name, false)] + [DeleteLocal(name, true)]
  {
    DeleteUnmergedRefused(s, name);
    PipedRefusalRecognised(name);
  }

  /** With git's message captured, the failure of `git branch -d` on an unmerged branch mentions "not fully merged". */
  lemma PipedRefusalRecognised(name: string)
    ensures Contains("Command failed: " + CmdText(DeleteLocal(name, false)) + "\n" +
                     ExecSyncMessage(DeleteLocal(name, false), "error: The branch '" + name + "' is not fully merged.", true),
                     NotFullyMerged)
  {
    var failed := "Command failed: " + CmdText(DeleteLocal(name, false));
    var stderr := "error: The branch '" + name + "' is not fully merged.";
    assert ExecSyncMessage(DeleteLocal(name, false), stderr, true) == failed + "\n" + stderr;
    var prefix := failed + "\n" + failed + "\n";
    assert failed + "\n" + (failed + "\n" + stderr) == prefix + stderr;
    RefusalMentionsNotFullyMerged(prefix, name);
  }

  /** git's refusal of an unmerged branch says "not fully merged", whatever text precedes it. */
  lemma RefusalMentionsNotFullyMerged(prefix: string, name: string)
    ensures Contains(prefix + ("error: The branch '" + name + "' is not fully merged."), NotFullyMerged)
  {
    var head := prefix + "error: The branch '" + name + "' is ";
    assert prefix + ("error: The branch '" + name + "' is not fully merged.") == head + NotFullyMerged + ".";
    ContainsInfix(head, NotFullyMerged, ".");
  }

  /** A branch origin has is deleted there. */
  lemma RemoteDeleted(s: GitState, name: string, log: seq<Cmd>)
    requires s.insideWorkTree && name in s.remote
    ensures var p := RemotePhase(s, map[], name, log);
            p.result == DeletedRemote && name !in p.state.remote &&
            p.ran == log + [LsRemoteHeads(name)] + [PushDelete(name)]
  {
    RemoteBranchListed(s, name);
    PushDeleteSucceeds(s, name);
  }

  /** A merged branch that is not checked out and exists on origin is deleted in both places. */
  lemma MergedBranchDeletedEverywhere(s: GitState, name: string, log: seq<Cmd>, piped: bool)
    requires WellFormed(s) && s.insideWorkTree
    requires name in s.local && name != s.current && name !in s.unmerged && name in s.remote
    ensures var p := RunOf(s, map[], name, log, piped);
            p.result == Finished(Deleted, DeletedRemote) &&
            name !in p.state.local && name !in p.state.remote &&
            p.ran == log + [RevParse] + [ShowCurrent] + [BranchList] + [DeleteLocal(name, false)] +
                     [LsRemoteHeads(name)] + [PushDelete(name)]
  {
    var log1 := log + [RevParse] + [ShowCurrent];
    ChecksPass(s, name, log, piped);
    MergedDeleted(s, name, log1, piped);
    var local := LocalPhase(s, map[], name, log1, piped);
    RemoteDeleted(local.state, name, local.ran);
  }

  /** As written, an unmerged branch makes the whole command abort before the remote step. */
  lemma UnmergedBranchAborts(s: GitState, name: string, log: seq<Cmd>)
    requires WellFormed(s) && s.insideWorkTree
    requires name in s.local && name != s.current && name in s.unmerged
    ensures var p := RunOf(s, map[], name, log, false);
            p.result.Aborted? && p.state == s &&
            p.ran == log + [RevParse] + [ShowCurrent] + [BranchList] + [DeleteLocal(name, false)]
  {
    ChecksPass(s, name, log, false);
    UnmergedNotForced(s, name, log + [RevParse] + [ShowCurrent]);
  }

  /** With git's message captured, an unmerged branch is force-deleted and the remote step still runs. */
  lemma UnmergedBranchForceDeleted(s: GitState, name: string, log: seq<Cmd>)
    requires WellFormed(s) && s.insideWorkTree
    requires name in s.local && name != s.current && name in s.unmerged
    ensures var p := RunOf(s, map[], name, log, true);
            p.result.Finished? && p.result.local == ForceDeleted && name !in p.state.local
  {
    var log1 := log + [RevParse] + [ShowCurrent];
    ChecksPass(s, name, log, true);
    UnmergedForced(s, name, log1);
    LocalResultKept(s, map[], name, log1, true);
  }

  /** Once the local step succeeds, the remote step keeps what it found and the local branches it left. */
  lemma LocalResultKept(s: GitState, f: map<Cmd, string>, name: string, log: seq<Cmd>, piped: bool)
    requires LocalPhase(s, f, name, log, piped).result.Ok?
    ensures var local := LocalPhase(s, f, name, log, piped);
            var p := DeletionsOf(s, f, name, log, piped);
            p.result.Finished? && p.result.local == local.result.value && p.state.local == local.state.local
  {
    var local := LocalPhase(s, f, name, log, piped);
    RemotePhaseKeepsLocal(local.state, f, name, local.ran);
  }

  /** The remote step touches origin only. */
  lemma RemotePhaseKeepsLocal(s: GitState, f: map<Cmd, string>, name: string, log: seq<Cmd>)
    ensures RemotePhase(s, f, name, log).state.local == s.local
  {
    if RemoteHeadListed(s, f, name) {
      var p := DeleteRemoteOf(s, f, name, log + [LsRemoteHeads(name)]);
      assert p.state == s || p.state == s.(remote := Remove(s.remote, name));
    }
  }
}
