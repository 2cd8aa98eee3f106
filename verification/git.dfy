/**
 * The git working copy the `branch`, `branch:delete`, `commit` and `log`
 * commands shell out to, as an abstract state: local and remote branches, the
 * current branch, pending changes and the commit history. `Raw` gives what a
 * command prints (its standard output, or the message it fails with) and
 * `Effect` what a successful command changes. Commands listed in `faults`
 * fail with the given message whatever the state, which stands for every
 * failure the state does not explain (a network error, a lock file, ...).
 */
module Git {
  import opened Wrappers
  import opened Text

  datatype Cmd =
    | RevParse                           // git rev-parse --is-inside-work-tree
    | BranchList                         // git branch --list
    | ShowCurrent                        // git branch --show-current
    | LsRemoteHeads(pattern: string)     // git ls-remote --heads origin <pattern>
    | CheckoutNew(name: string)          // git checkout -b <name>
    | DeleteLocal(name: string, force: bool)  // git branch -d|-D <name>
    | PushDelete(name: string)           // git push origin --delete <name>
    | StatusPorcelain                    // git status --porcelain
    | AddAll                             // git add .
    | CommitStaged(message: string)      // git commit -m "<message>"
    | Log                                // git log --pretty=format:"%h - %an, %ar : %s"

  /** The command line, as it appears in the "Command failed" message. */
  function CmdText(c: Cmd): string {
    match c
    case RevParse => "git rev-parse --is-inside-work-tree"
    case BranchList => "git branch --list"
    case ShowCurrent => "git branch --show-current"
    case LsRemoteHeads(p) => "git ls-remote --heads origin " + p
    case CheckoutNew(n) => "git checkout -b " + n
    case DeleteLocal(n, force) => (if force then "git branch -D " else "git branch -d ") + n
    case PushDelete(n) => "git push origin --delete " + n
    case StatusPorcelain => "git status --porcelain"
    case AddAll => "git add ."
    case CommitStaged(m) => "git commit -m \"" + m + "\""
    case Log => "git log --pretty=format:\"%h - %an, %ar : %s\""
  }

  /** One commit with the fields the log format prints: short hash, author name, relative date, subject. */
  datatype LogRecord = LogRecord(hash: string, author: string, relativeDate: string, subject: string)

  /** The line `%h - %an, %ar : %s` prints for a commit. */
  function FormatLogLine(e: LogRecord): string {
    e.hash + " - " + e.author + ", " + e.relativeDate + " : " + e.subject
  }

  function FormatLog(history: seq<LogRecord>): (lines: seq<string>)
    ensures |lines| == |history|
    ensures forall k :: 0 <= k < |history| ==> lines[k] == FormatLogLine(history[k])
  {
    if history == [] then [] else [FormatLogLine(history[0])] + FormatLog(history[1..])
  }

  datatype GitState = GitState(
    insideWorkTree: bool,
    local: seq<string>,       // local branches, in the order `git branch` lists them
    current: string,          // "" when HEAD is detached
    unmerged: set<string>,    // local branches `git branch -d` refuses to delete
    remote: seq<string>,      // branches on origin
    changes: string,          // what `git status --porcelain` prints
    staged: bool,             // whether the index holds something to commit
    history: seq<LogRecord>)  // newest first

  /** The branch names the model admits: non-empty and free of whitespace (git itself forbids only ASCII space and control characters). */
  predicate PlainBranchName(n: string) {
    n != [] && forall i :: 0 <= i < |n| ==> !IsWhitespace(n[i])
  }

  ghost predicate WellFormed(s: GitState) {
    && (s.current == "" || PlainBranchName(s.current))
    && (forall k :: 0 <= k < |s.local| ==> PlainBranchName(s.local[k]))
    && (forall k :: 0 <= k < |s.remote| ==> PlainBranchName(s.remote[k]))
  }

  /** `xs` without any occurrence of `x`. */
  function Remove(xs: seq<string>, x: string): (r: seq<string>)
    ensures forall y :: y in r <==> y in xs && y != x
    ensures forall k :: 0 <= k < |r| ==> r[k] in xs
  {
    if xs == [] then [] else (if xs[0] == x then [] else [xs[0]]) + Remove(xs[1..], x)
  }

  /** A line of `git branch --list`: the current branch is marked with "* ", the others indented. */
  function ListingLine(b: string, current: string): string {
    (if b == current then "* " else "  ") + b
  }

  function ListingLines(local: seq<string>, current: string): (lines: seq<string>)
    ensures |lines| == |local|
    ensures forall k :: 0 <= k < |local| ==> lines[k] == ListingLine(local[k], current)
  {
    if local == [] then [] else [ListingLine(local[0], current)] + ListingLines(local[1..], current)
  }

  function RawBranchList(local: seq<string>, current: string): string {
    if local == [] then "" else Join(ListingLines(local, current), "\n") + "\n"
  }

  predicate EndsWith(s: string, t: string) {
    |t| <= |s| && s[|s| - |t|..] == t
  }

  /** `ls-remote` matches a head whose full ref name ends in "/" + the pattern; no pattern lists every head. */
  predicate HeadMatches(head: string, pattern: string) {
    pattern == "" || EndsWith("refs/heads/" + head, "/" + pattern)
  }

  /** The lines `ls-remote --heads` prints (object ids left out), one per matching head. */
  function HeadLines(remote: seq<string>, pattern: string): (lines: seq<string>)
    ensures lines == [] <==> forall h :: h in remote ==> !HeadMatches(h, pattern)
    ensures forall k :: 0 <= k < |lines| ==> lines[k] != [] && lines[k][0] == 'r'
  {
    if remote == [] then []
    else (if HeadMatches(remote[0], pattern) then ["refs/heads/" + remote[0]] else []) + HeadLines(remote[1..], pattern)
  }

  function RawRemoteHeads(remote: seq<string>, pattern: string): string {
    var lines := HeadLines(remote, pattern);
    if lines == [] then "" else Join(lines, "\n") + "\n"
  }

  const NotARepositoryMessage := "fatal: not a git repository (or any of the parent directories): .git"

  /** What a command prints when it succeeds, or the message it fails with. */
  function Raw(s: GitState, faults: map<Cmd, string>, c: Cmd): Result<string, string> {
    if c in faults then Err(faults[c])
    else if !s.insideWorkTree then Err(NotARepositoryMessage)
    else match c
      case RevParse => Ok("true\n")
      case BranchList => Ok(RawBranchList(s.local, s.current))
      case ShowCurrent => Ok(s.current + "\n")
      case LsRemoteHeads(p) => Ok(RawRemoteHeads(s.remote, p))
      case CheckoutNew(n) =>
        if n in s.local then Err("fatal: a branch named '" + n + "' already exists")
        else if !PlainBranchName(n) then Err("fatal: '" + n + "' is not a valid branch name")
        else Ok("")
      case DeleteLocal(n, force) =>
        if n !in s.local then Err("error: branch '" + n + "' not found.")
        else if n == s.current then Err("error: Cannot delete branch '" + n + "' checked out")
        else if !force && n in s.unmerged then Err("error: The branch '" + n + "' is not fully merged.")
        else Ok("Deleted branch " + n + "\n")
      case PushDelete(n) =>
        if n !in s.remote then Err("error: unable to delete '" + n + "': remote ref does not exist")
        else Ok("")
      case StatusPorcelain => Ok(s.changes)
      case AddAll => Ok("")
      case CommitStaged(_) =>
        if !s.staged then Err("nothing to commit, working tree clean") else Ok("")
      case Log =>
        if s.history == [] then Err("fatal: your current branch does not have any commits yet")
        else Ok(Join(FormatLog(s.history), "\n"))
  }

  /** What a step of a command reports, the command log once it has run, and the state it leaves. */
  datatype Step<T> = Step(result: T, ran: seq<Cmd>, state: GitState)

  /** What a successful command changes. */
  function Effect(s: GitState, c: Cmd): GitState {
    match c
    case CheckoutNew(n) => s.(local := s.local + [n], current := n)
    case DeleteLocal(n, _) => s.(local := Remove(s.local, n), unmerged := s.unmerged - {n})
    case PushDelete(n) => s.(remote := Remove(s.remote, n))
    case AddAll => s.(staged := s.staged || s.changes != "")
    case CommitStaged(_) => s.(changes := "", staged := false)
    case _ => s
  }

  /** The state after running `c`: a failing command changes nothing. */
  function After(s: GitState, faults: map<Cmd, string>, c: Cmd): GitState {
    if Raw(s, faults, c).Ok? then Effect(s, c) else s
  }

  /** Running any command keeps every branch name plain. */
  lemma AfterWellFormed(s: GitState, faults: map<Cmd, string>, c: Cmd)
    requires WellFormed(s)
    ensures WellFormed(After(s, faults, c))
  {
  }

  /** A repository the commands run in: its state, the commands that fail, and every command run so far. */
  class Repo {
    var state: GitState
    const faults: map<Cmd, string>
    var ran: seq<Cmd>

    constructor (state0: GitState, faults0: map<Cmd, string>)
      ensures state == state0 && faults == faults0 && ran == []
    {
      state := state0;
      faults := faults0;
      ran := [];
    }

    /** `execSync(command)`: runs `c` once. */
    method Exec(c: Cmd) returns (r: Result<string, string>)
      modifies this`state, this`ran
      ensures r == Raw(old(state), faults, c)
      ensures state == After(old(state), faults, c)
      ensures ran == old(ran) + [c]
    {
      r := Raw(state, faults, c);
      state := After(state, faults, c);
      ran := ran + [c];
    }
  }

  /**
   * The message `execSync` fails with: "Command failed: <command>", followed by
   * what git wrote to standard error only when that stream is piped; with
   * `stdio: 'inherit'` git's message goes to the terminal instead.
   */
  function ExecSyncMessage(c: Cmd, stderr: string, piped: bool): string {
    "Command failed: " + CmdText(c) + (if piped then "\n" + stderr else "")
  }

  /**
   * The `executeCommand` helper of `branch`, `branch:delete` and `commit`: the
   * trimmed output (or "" when the output is not captured), or the failure
   * wrapped as "Command failed: <command>\n<execSync's message>".
   */
  function ExecResult(s: GitState, faults: map<Cmd, string>, c: Cmd, returnOutput: bool): (r: Result<string, string>)
    ensures r.Ok? <==> Raw(s, faults, c).Ok?
    ensures r.Ok? ==> Trimmed(r.value) && (!returnOutput ==> r.value == "")
  {
    match Raw(s, faults, c)
    case Ok(out) => Ok(if returnOutput then Trim(out) else "")
    case Err(msg) => Err("Command failed: " + CmdText(c) + "\n" + ExecSyncMessage(c, msg, returnOutput))
  }

  method ExecuteCommand(repo: Repo, c: Cmd, returnOutput: bool) returns (r: Result<string, string>)
    modifies repo`state, repo`ran
    ensures r == ExecResult(old(repo.state), repo.faults, c, returnOutput)
    ensures repo.state == After(old(repo.state), repo.faults, c)
    ensures repo.ran == old(repo.ran) + [c]
  {
    var raw := repo.Exec(c);
    match raw
    case Ok(out) => r := Ok(if returnOutput then Trim(out) else "");
    case Err(msg) => r := Err("Command failed: " + CmdText(c) + "\n" + ExecSyncMessage(c, msg, returnOutput));
  }

  /** `branchExistsLocally`'s test on the listing: some line, trimmed, is exactly the name. */
  predicate ListsBranch(listing: string, name: string) {
    exists line | line in Split(listing, "\n") :: Trim(line) == name
  }

  /** `branchExistsRemotely`'s test on the `ls-remote` output. */
  predicate ListsRemoteHead(output: string) {
    Trim(output) != ""
  }

  /** How a listed branch looks once its line is trimmed. */
  function Shown(b: string, current: string): string {
    if b == current then "* " + b else b
  }

  lemma ShownTrimmed(b: string, current: string)
    requires PlainBranchName(b)
    ensures Trimmed(Shown(b, current))
  {
    var shown := Shown(b, current);
    assert shown[|shown| - 1] == b[|b| - 1];
    assert !IsWhitespace(b[0]) && !IsWhitespace('*');
  }

  lemma TrimShown(b: string, current: string)
    requires PlainBranchName(b)
    ensures Trim(Shown(b, current)) == Shown(b, current)
  {
    var shown := Shown(b, current);
    ShownTrimmed(b, current);
    TrimOf([], shown, []);
    assert [] + shown + [] == shown;
  }

  lemma TrimListingLine(b: string, current: string)
    requires PlainBranchName(b)
    ensures Trim(ListingLine(b, current)) == Shown(b, current)
    ensures Trim(Shown(b, current)) == Shown(b, current)
  {
    TrimShown(b, current);
    if b != current {
      IndentedLineTrims(b, current);
    }
  }

  lemma IndentedLineTrims(b: string, current: string)
    requires PlainBranchName(b) && b != current
    ensures Trim(ListingLine(b, current)) == b
  {
    ShownTrimmed(b, current);
    assert AllWhitespace("  ");
    TrimOf("  ", b, []);
    assert "  " + b + [] == ListingLine(b, current);
  }

  lemma ListingLineShape(b: string, current: string)
    requires PlainBranchName(b)
    ensures ListingLine(b, current) != [] && '\n' !in ListingLine(b, current)
    ensures Shown(b, current) != [] && '\n' !in Shown(b, current)
    ensures Shown(b, current)[|Shown(b, current)| - 1] == b[|b| - 1]
  {
    assert IsWhitespace('\n');
    var line := ListingLine(b, current);
    var shown := Shown(b, current);
    assert line == line[..2] + b;
    assert shown == shown[..|shown| - |b|] + b;
    assert forall i :: 0 <= i < |b| ==> b[i] != '\n';
  }

  /** The listing after `trim`: only the first line's indentation goes. */
  function TrimmedListing(local: seq<string>, current: string): (lines: seq<string>)
    requires local != []
    ensures |lines| == |local| && lines[0] == Shown(local[0], current)
    ensures forall k :: 1 <= k < |local| ==> lines[k] == ListingLine(local[k], current)
  {
    [Shown(local[0], current)] + ListingLines(local, current)[1..]
  }

  lemma TrimmedListingShape(local: seq<string>, current: string)
    requires local != [] && forall k :: 0 <= k < |local| ==> PlainBranchName(local[k])
    ensures forall k :: 0 <= k < |local| ==>
              TrimmedListing(local, current)[k] != [] && '\n' !in TrimmedListing(local, current)[k]
    ensures var lines := TrimmedListing(local, current);
            var last := lines[|lines| - 1];
            !IsWhitespace(lines[0][0]) && !IsWhitespace(last[|last| - 1])
  {
    var lines := TrimmedListing(local, current);
    forall k | 0 <= k < |local|
      ensures lines[k] != [] && '\n' !in lines[k]
    {
      ListingLineShape(local[k], current);
    }
    ShownTrimmed(local[0], current);
    var n := |local| - 1;
    ListingLineShape(local[n], current);
    assert lines[n][|lines[n]| - 1] == local[n][|local[n]| - 1];
  }

  lemma JoinTrimmedListing(local: seq<string>, current: string)
    requires local != [] && forall k :: 0 <= k < |local| ==> PlainBranchName(local[k])
    ensures Trimmed(Join(TrimmedListing(local, current), "\n"))
  {
    var lines := TrimmedListing(local, current);
    TrimmedListingShape(local, current);
    JoinEnds(lines, "\n");
  }

  lemma RawBranchListShape(local: seq<string>, current: string)
    requires local != []
    ensures RawBranchList(local, current) ==
              (if local[0] == current then "" else "  ") + Join(TrimmedListing(local, current), "\n") + "\n"
  {
    var lines := ListingLines(local, current);
    var lines' := TrimmedListing(local, current);
    var w := if local[0] == current then "" else "  ";
    assert lines[0] == w + lines'[0];
    assert lines == [w + lines'[0]] + lines'[1..];
    JoinPrepend(w, lines', "\n");
  }

  lemma TrimRawBranchList(local: seq<string>, current: string)
    requires local != [] && forall k :: 0 <= k < |local| ==> PlainBranchName(local[k])
    ensures Trim(RawBranchList(local, current)) == Join(TrimmedListing(local, current), "\n")
  {
    var w := if local[0] == current then "" else "  ";
    RawBranchListShape(local, current);
    JoinTrimmedListing(local, current);
    assert AllWhitespace(w) && AllWhitespace("\n");
    TrimOf(w, Join(TrimmedListing(local, current), "\n"), "\n");
  }

  lemma SplitTrimmedListing(local: seq<string>, current: string)
    requires local != [] && forall k :: 0 <= k < |local| ==> PlainBranchName(local[k])
    ensures Split(Join(TrimmedListing(local, current), "\n"), "\n") == TrimmedListing(local, current)
  {
    TrimmedListingShape(local, current);
    assert "\n" == ['\n'];
    SplitJoin(TrimmedListing(local, current), '\n');
  }

  lemma ListingSplits(local: seq<string>, current: string)
    requires local != [] && forall k :: 0 <= k < |local| ==> PlainBranchName(local[k])
    ensures Split(Trim(RawBranchList(local, current)), "\n") == TrimmedListing(local, current)
  {
    TrimRawBranchList(local, current);
    SplitTrimmedListing(local, current);
  }

  lemma LinesShowBranches(local: seq<string>, current: string)
    requires local != [] && forall k :: 0 <= k < |local| ==> PlainBranchName(local[k])
    ensures forall k :: 0 <= k < |local| ==> Trim(TrimmedListing(local, current)[k]) == Shown(local[k], current)
  {
    forall k | 0 <= k < |local|
      ensures Trim(TrimmedListing(local, current)[k]) == Shown(local[k], current)
    {
      LineShowsBranch(local, current, k);
    }
  }

  lemma LineShowsBranch(local: seq<string>, current: string, k: int)
    requires 0 <= k < |local| && PlainBranchName(local[k])
    ensures Trim(TrimmedListing(local, current)[k]) == Shown(local[k], current)
  {
    var line := TrimmedListing(local, current)[k];
    if k == 0 {
      assert line == Shown(local[0], current);
      TrimShown(local[0], current);
    } else {
      assert line == ListingLine(local[k], current);
      TrimListingLine(local[k], current);
    }
  }

  /** Matching trimmed lines that show the branches one by one. */
  lemma MatchLines(lines: seq<string>, local: seq<string>, current: string, name: string)
    requires |lines| == |local| && forall k :: 0 <= k < |local| ==> Trim(lines[k]) == Shown(local[k], current)
    ensures (exists line | line in lines :: Trim(line) == name) <==>
              exists k | 0 <= k < |local| :: Shown(local[k], current) == name
  {
    if exists line | line in lines :: Trim(line) == name {
      var line :| line in lines && Trim(line) == name;
      var k :| 0 <= k < |lines| && lines[k] == line;
      assert Shown(local[k], current) == name;
    }
    if exists k | 0 <= k < |local| :: Shown(local[k], current) == name {
      var k :| 0 <= k < |local| && Shown(local[k], current) == name;
      assert lines[k] in lines && Trim(lines[k]) == name;
    }
  }

  /** Matching the trimmed lines of the listing is matching how each branch is shown. */
  lemma MatchListing(local: seq<string>, current: string, name: string)
    requires local != [] && forall k :: 0 <= k < |local| ==> PlainBranchName(local[k])
    ensures ListsBranch(Trim(RawBranchList(local, current)), name) <==>
              exists k | 0 <= k < |local| :: Shown(local[k], current) == name
  {
    ListingSplits(local, current);
    LinesShowBranches(local, current);
    MatchLines(TrimmedListing(local, current), local, current, name);
  }

  lemma MatchShown(local: seq<string>, current: string, name: string)
    ensures (exists k | 0 <= k < |local| :: Shown(local[k], current) == name) <==>
              (name in local && name != current) || (current in local && name == "* " + current)
  {
    if exists k | 0 <= k < |local| :: Shown(local[k], current) == name {
      var k :| 0 <= k < |local| && Shown(local[k], current) == name;
      assert local[k] in local;
    }
    if name in local && name != current {
      var k :| 0 <= k < |local| && local[k] == name;
      assert Shown(local[k], current) == name;
    }
    if current in local && name == "* " + current {
      var k :| 0 <= k < |local| && local[k] == current;
      assert Shown(local[k], current) == name;
    }
  }

  /** With no branches, git lists nothing, and only the empty name matches. */
  lemma EmptyListing(current: string, name: string)
    ensures ListsBranch(Trim(RawBranchList([], current)), name) <==> name == ""
  {
    var empty: string := [];
    assert RawBranchList([], current) == empty;
    TrimOf(empty, empty, empty);
    assert empty + empty + empty == empty;
    assert Trim(RawBranchList([], current)) == empty;
    SplitNone(empty, "\n");
    assert Split(empty, "\n") == [empty];
  }

  /**
   * The branch-list matcher against the repository: a name is found locally
   * exactly when it is a branch other than the current one; the current branch
   * is only found under its "* " line, and an empty listing matches the empty name.
   */
  lemma ListsBranchIff(local: seq<string>, current: string, name: string)
    requires forall k :: 0 <= k < |local| ==> PlainBranchName(local[k])
    ensures ListsBranch(Trim(RawBranchList(local, current)), name) <==>
              || (name in local && name != current)
              || (current in local && name == "* " + current)
              || (local == [] && name == "")
  {
    if local == [] {
      EmptyListing(current, name);
    } else {
      MatchListing(local, current, name);
      MatchShown(local, current, name);
    }
  }

  /** The remote matcher against the repository: the output is non-blank exactly when some head matches. */
  lemma ListsRemoteHeadIff(remote: seq<string>, pattern: string)
    ensures ListsRemoteHead(Trim(RawRemoteHeads(remote, pattern))) <==> exists h :: h in remote && HeadMatches(h, pattern)
  {
    var lines := HeadLines(remote, pattern);
    if lines == [] {
      TrimOf([], [], []);
      assert RawRemoteHeads(remote, pattern) == [] + [] + [];
    } else {
      var raw := RawRemoteHeads(remote, pattern);
      assert forall k :: 0 <= k < |lines| ==> lines[k] != [];
      JoinEnds(lines, "\n");
      assert raw[0] == 'r';
      TrimNonBlank(raw);
      TrimIdempotent(raw);
    }
  }

  /** `isGitRepository` of `branch` and `branch:delete`: `rev-parse` succeeds. */
  predicate RepoDetected(s: GitState, faults: map<Cmd, string>) {
    ExecResult(s, faults, RevParse, true).Ok?
  }

  /** `branchExistsLocally`: a listing that fails counts as "not there". */
  function LocalBranchListed(s: GitState, faults: map<Cmd, string>, name: string): (listed: bool)
    ensures WellFormed(s) ==>
              (listed <==> s.insideWorkTree && BranchList !in faults &&
                           (|| (name in s.local && name != s.current)
                            || (s.current in s.local && name == "* " + s.current)
                            || (s.local == [] && name == "")))
  {
    match ExecResult(s, faults, BranchList, true)
    case Ok(listing) =>
      BranchListingOf(s, faults, name);
      ListsBranch(listing, name)
    case Err(_) => false
  }

  /** A successful `git branch --list` prints the trimmed listing of the local branches, matched as `ListsBranchIff` says. */
  lemma BranchListingOf(s: GitState, faults: map<Cmd, string>, name: string)
    requires ExecResult(s, faults, BranchList, true).Ok?
    ensures s.insideWorkTree && BranchList !in faults
    ensures ExecResult(s, faults, BranchList, true).value == Trim(RawBranchList(s.local, s.current))
    ensures WellFormed(s) ==>
              (ListsBranch(ExecResult(s, faults, BranchList, true).value, name) <==>
                 || (name in s.local && name != s.current)
                 || (s.current in s.local && name == "* " + s.current)
                 || (s.local == [] && name == ""))
  {
    if WellFormed(s) { ListsBranchIff(s.local, s.current, name); }
  }

  /** `branchExistsRemotely`: a lookup that fails counts as "not there". */
  function RemoteHeadListed(s: GitState, faults: map<Cmd, string>, name: string): (listed: bool)
    ensures listed <==> s.insideWorkTree && LsRemoteHeads(name) !in faults &&
                        exists h :: h in s.remote && HeadMatches(h, name)
  {
    match ExecResult(s, faults, LsRemoteHeads(name), true)
    case Ok(output) =>
      assert output == Trim(RawRemoteHeads(s.remote, name));
      ListsRemoteHeadIff(s.remote, name);
      ListsRemoteHead(output)
    case Err(_) => false
  }

  method IsGitRepository(repo: Repo) returns (b: bool)
    modifies repo`state, repo`ran
    ensures b == RepoDetected(old(repo.state), repo.faults)
    ensures repo.state == old(repo.state) && repo.ran == old(repo.ran) + [RevParse]
  {
    var r := ExecuteCommand(repo, RevParse, true);
    b := r.Ok?;
  }

  method BranchExistsLocally(repo: Repo, name: string) returns (b: bool)
    modifies repo`state, repo`ran
    ensures b == LocalBranchListed(old(repo.state), repo.faults, name)
    ensures repo.state == old(repo.state) && repo.ran == old(repo.ran) + [BranchList]
  {
    var r := ExecuteCommand(repo, BranchList, true);
    b := r.Ok? && ListsBranch(r.value, name);
  }

  method BranchExistsRemotely(repo: Repo, name: string) returns (b: bool)
    modifies repo`state, repo`ran
    ensures b == RemoteHeadListed(old(repo.state), repo.faults, name)
    ensures repo.state == old(repo.state) && repo.ran == old(repo.ran) + [LsRemoteHeads(name)]
  {
    var r := ExecuteCommand(repo, LsRemoteHeads(name), true);
    b := r.Ok? && ListsRemoteHead(r.value);
  }

  /** Inside a working tree where nothing fails, `rev-parse` succeeds. */
  lemma DetectedInside(s: GitState)
    requires s.insideWorkTree
    ensures RepoDetected(s, map[])
  {
  }

  /** The current branch is never found by the local check. */
  lemma CurrentNotListed(s: GitState)
    requires WellFormed(s) && s.current in s.local
    ensures !LocalBranchListed(s, map[], s.current)
  {
    assert s.current != "* " + s.current;
  }

  /** A plain name that is not a local branch is not found by the local check. */
  lemma AbsentNotListed(s: GitState, name: string)
    requires WellFormed(s) && PlainBranchName(name) && name !in s.local
    ensures !LocalBranchListed(s, map[], name)
  {
    StarredNotPlain(s.current);
  }

  /** A "* "-marked line is never a plain branch name. */
  lemma StarredNotPlain(b: string)
    ensures !PlainBranchName("* " + b)
  {
    assert ("* " + b)[1] == ' ';
  }

  /** A pattern no head of origin matches is not found by the remote check. */
  lemma UnmatchedNotListed(s: GitState, name: string)
    requires forall h :: h in s.remote ==> !HeadMatches(h, name)
    ensures !RemoteHeadListed(s, map[], name)
  {
  }

  /** `git checkout -b` refuses a name that is already a local branch. */
  lemma CheckoutRefusesExisting(s: GitState, name: string)
    requires name in s.local
    ensures ExecResult(s, map[], CheckoutNew(name), false).Err?
  {
  }

  /** `git checkout -b` creates a new plain name and switches to it. */
  lemma CheckoutCreatesNew(s: GitState, name: string)
    requires s.insideWorkTree && PlainBranchName(name) && name !in s.local
    ensures Raw(s, map[], CheckoutNew(name)).Ok?
    ensures After(s, map[], CheckoutNew(name)).local == s.local + [name]
    ensures After(s, map[], CheckoutNew(name)).current == name
  {
  }

  /** A head is matched by its own name. */
  lemma HeadMatchesItself(h: string)
    ensures HeadMatches(h, h)
  {
    var full := "refs/heads/" + h;
    assert full[|full| - |"/" + h|..] == "/" + h;
  }

  /** `git branch --show-current`, trimmed, is the current branch of a well-formed state. */
  lemma ShowCurrentReads(s: GitState)
    requires WellFormed(s) && s.insideWorkTree
    ensures ExecResult(s, map[], ShowCurrent, true) == Ok(s.current)
  {
    TrimOf([], s.current, "\n");
    assert [] + s.current + "\n" == s.current + "\n";
  }

  /** A branch other than the current one is found by the local check. */
  lemma OtherBranchListed(s: GitState, name: string)
    requires WellFormed(s) && s.insideWorkTree && name in s.local && name != s.current
    ensures LocalBranchListed(s, map[], name)
  {
  }

  /** A branch origin has is found by the remote check. */
  lemma RemoteBranchListed(s: GitState, name: string)
    requires s.insideWorkTree && name in s.remote
    ensures RemoteHeadListed(s, map[], name)
  {
    HeadMatchesItself(name);
  }

  /** `git branch -d` deletes a merged branch that is not checked out. */
  lemma DeleteMergedSucceeds(s: GitState, name: string)
    requires s.insideWorkTree && name in s.local && name != s.current && name !in s.unmerged
    ensures Raw(s, map[], DeleteLocal(name, false)).Ok?
  {
  }

  /** `git branch -d` refuses an unmerged branch, saying so; `-D` deletes it anyway. */
  lemma DeleteUnmergedRefused(s: GitState, name: string)
    requires s.insideWorkTree && name in s.local && name != s.current && name in s.unmerged
    ensures Raw(s, map[], DeleteLocal(name, false)) == Err("error: The branch '" + name + "' is not fully merged.")
    ensures Raw(s, map[], DeleteLocal(name, true)).Ok?
  {
  }

  /** `git push origin --delete` deletes a branch origin has. */
  lemma PushDeleteSucceeds(s: GitState, name: string)
    requires s.insideWorkTree && name in s.remote
    ensures Raw(s, map[], PushDelete(name)).Ok?
  {
  }

  /** `git status --porcelain` prints the pending changes. */
  lemma StatusReportsChanges(s: GitState)
    requires s.insideWorkTree
    ensures Raw(s, map[], StatusPorcelain) == Ok(s.changes)
  {
  }

  /** `git commit` succeeds exactly when something is staged, and leaves nothing pending. */
  lemma CommitNeedsStaged(s: GitState, message: string)
    requires s.insideWorkTree
    ensures Raw(s, map[], CommitStaged(message)).Ok? <==> s.staged
    ensures Effect(s, CommitStaged(message)).changes == "" && !Effect(s, CommitStaged(message)).staged
  {
  }

  /** `git add .` succeeds inside a repository and stages whatever is pending. */
  lemma StageSucceeds(s: GitState)
    requires s.insideWorkTree
    ensures ExecResult(s, map[], AddAll, false) == Ok("")
    ensures Effect(s, AddAll).staged == (s.staged || s.changes != "")
  {
  }

  /** With something staged, `git commit` succeeds and leaves a clean tree. */
  lemma CommitSucceeds(s: GitState, message: string)
    requires s.insideWorkTree && s.staged
    ensures ExecResult(s, map[], CommitStaged(message), false) == Ok("")
    ensures After(s, map[], CommitStaged(message)) == s.(changes := "", staged := false)
  {
  }
}
