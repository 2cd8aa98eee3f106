/**
 * `branch` (create-branch.command.ts): create a branch with
 * `git checkout -b` unless git reports it already, locally first, then on
 * origin. The name option is trimmed when it is parsed.
 *
 * `ChecksOf` and `RunOf` give, for a repository state and the command log so
 * far, what `run` reports, the extended log and the state it leaves;
 * `BranchCommand.Run` is proved to follow them.
 */
module CreateBranch {
  import opened Wrappers
  import opened Text
  import opened Git

  datatype CreateBranchOutcome =
    | NotARepository
    | AlreadyLocal
    | AlreadyRemote
    | BranchCreated
    | CreateFailed(message: string)   // reported as "Failed to create branch:"

  /** The repository check, then the local and the remote existence checks; `None` lets creation go ahead. */
  function ChecksOf(s: GitState, f: map<Cmd, string>, name: string, log: seq<Cmd>)
    : (p: Step<Option<CreateBranchOutcome>>)
    ensures p.state == s
    // each check runs only when the previous ones passed, and a match stops the command
    ensures !RepoDetected(s, f) ==> p.result == Some(NotARepository) && p.ran == log + [RevParse]
    ensures RepoDetected(s, f) && LocalBranchListed(s, f, name) ==>
              p.result == Some(AlreadyLocal) && p.ran == log + [RevParse] + [BranchList]
    ensures RepoDetected(s, f) && !LocalBranchListed(s, f, name) ==>
              p.ran == log + [RevParse] + [BranchList] + [LsRemoteHeads(name)] &&
              (p.result == Some(AlreadyRemote) <==> RemoteHeadListed(s, f, name))
    ensures p.result == None <==>
              RepoDetected(s, f) && !LocalBranchListed(s, f, name) && !RemoteHeadListed(s, f, name)
  {
    if !RepoDetected(s, f) then Step(Some(NotARepository), log + [RevParse], s)
    else if LocalBranchListed(s, f, name) then Step(Some(AlreadyLocal), log + [RevParse] + [BranchList], s)
    else
      var ran := log + [RevParse] + [BranchList] + [LsRemoteHeads(name)];
      Step(if RemoteHeadListed(s, f, name) then Some(AlreadyRemote) else None, ran, s)
  }

  /** `run` for the trimmed name: the checks, then exactly one `git checkout -b`. */
  function RunOf(s: GitState, f: map<Cmd, string>, name: string, log: seq<Cmd>): (p: Step<CreateBranchOutcome>)
    // only a created branch changes the repository: it is new, appended, and checked out
    ensures p.result != BranchCreated ==> p.state == s
    ensures p.result == BranchCreated ==>
              name !in s.local && p.state == s.(local := s.local + [name], current := name)
  {
    var checks := ChecksOf(s, f, name, log);
    match checks.result
    case Some(verdict) => Step(verdict, checks.ran, s)
    case None => CheckoutOf(s, f, name, checks.ran)
  }

  /** `git checkout -b`, reporting its wrapped failure. */
  function CheckoutOf(s: GitState, f: map<Cmd, string>, name: string, log: seq<Cmd>): (p: Step<CreateBranchOutcome>)
    ensures p.ran == log + [CheckoutNew(name)]
    ensures p.result == BranchCreated <==> Raw(s, f, CheckoutNew(name)).Ok?
    ensures p.result != BranchCreated ==> p.state == s && p.result.CreateFailed?
    ensures p.result == BranchCreated ==>
              name !in s.local && p.state == s.(local := s.local + [name], current := name)
  {
    match ExecResult(s, f, CheckoutNew(name), false)
    case Ok(_) => Step(BranchCreated, log + [CheckoutNew(name)], After(s, f, CheckoutNew(name)))
    case Err(e) => Step(CreateFailed(e), log + [CheckoutNew(name)], s)
  }

  class BranchCommand {
    constructor () {}

    /** `run` with the `--name` option as given on the command line. */
    method Run(repo: Repo, option: string) returns (out: CreateBranchOutcome)
      modifies repo`state, repo`ran
      ensures var p := RunOf(old(repo.state), repo.faults, Trim(option), old(repo.ran));
              out == p.result && repo.state == p.state && repo.ran == p.ran
    {
      var branchName := Trim(option);
      var verdict := Checks(repo, branchName);
      if verdict.Some? {
        return verdict.value;
      }
      out := Checkout(repo, branchName);
    }

    method Checkout(repo: Repo, name: string) returns (out: CreateBranchOutcome)
      modifies repo`state, repo`ran
      ensures var p := CheckoutOf(old(repo.state), repo.faults, name, old(repo.ran));
              out == p.result && repo.state == p.state && repo.ran == p.ran
    {
      var r := ExecuteCommand(repo, CheckoutNew(name), false);
      out := if r.Ok? then BranchCreated else CreateFailed(r.error);
    }

    /** The repository check and the two existence checks, in that order. */
    method Checks(repo: Repo, name: string) returns (verdict: Option<CreateBranchOutcome>)
      modifies repo`state, repo`ran
      ensures var p := ChecksOf(old(repo.state), repo.faults, name, old(repo.ran));
              verdict == p.result && repo.state == p.state && repo.ran == p.ran
    {
      var isRepo := IsGitRepository(repo);
      if !isRepo {
        return Some(NotARepository);
      }
      var local := BranchExistsLocally(repo, name);
      if local {
        return Some(AlreadyLocal);
      }
      var remote := BranchExistsRemotely(repo, name);
      verdict := if remote then Some(AlreadyRemote) else None;
    }
  }

  /** Inside a well-formed repository where nothing fails, a name that neither side lists passes the checks. */
  lemma ChecksPass(s: GitState, name: string, log: seq<Cmd>)
    requires WellFormed(s) && s.insideWorkTree
    requires !LocalBranchListed(s, map[], name) && !RemoteHeadListed(s, map[], name)
    ensures ChecksOf(s, map[], name, log) == Step(None, log + [RevParse] + [BranchList] + [LsRemoteHeads(name)], s)
  {
    DetectedInside(s);
  }

  /**
   * The current branch's own name gets past the local check (its line reads
   * "* name") and, when origin has no such head, reaches `git checkout -b`,
   * which refuses it: the command reports a failure instead of "already exists".
   */
  lemma CurrentBranchReachesCheckout(s: GitState, log: seq<Cmd>)
    requires WellFormed(s) && s.insideWorkTree
    requires s.current in s.local
    requires forall h :: h in s.remote ==> !HeadMatches(h, s.current)
    ensures var p := RunOf(s, map[], s.current, log);
            p.result.CreateFailed? && p.state == s &&
            p.ran == log + [RevParse] + [BranchList] + [LsRemoteHeads(s.current)] + [CheckoutNew(s.current)]
  {
    CurrentNotListed(s);
    UnmatchedNotListed(s, s.current);
    ChecksPass(s, s.current, log);
    CheckoutRefusesExisting(s, s.current);
  }

  /** On a repository with no failures, a new plain name that origin does not have is created and checked out. */
  lemma NewBranchIsCreated(s: GitState, name: string, log: seq<Cmd>)
    requires WellFormed(s) && s.insideWorkTree
    requires PlainBranchName(name) && name !in s.local
    requires forall h :: h in s.remote ==> !HeadMatches(h, name)
    ensures var p := RunOf(s, map[], name, log);
            p.result == BranchCreated && p.state.local == s.local + [name] && p.state.current == name &&
            p.ran == log + [RevParse] + [BranchList] + [LsRemoteHeads(name)] + [CheckoutNew(name)]
  {
    AbsentNotListed(s, name);
    UnmatchedNotListed(s, name);
    ChecksPass(s, name, log);
    CheckoutCreatesNew(s, name);
  }
}
