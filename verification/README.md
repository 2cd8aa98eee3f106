# rael-cli, modelled in Dafny

rael-cli is a command-line tool for a team's repositories. It has four groups of commands:

- Logging in: `auth:credential` checks an email and password against the user table. `auth:google` runs the Google OAuth flow through a local callback server. Either way, a token for `{ userId }` is cached in a file under the user's configuration directory.
- Managing repositories: `repos:create`, `repos:delete` and `repos:list`. They keep two stores in step: the remote hosting provider (a GitHub organization) and a local registry of repository records.
- Working with git: `branch`, `branch:delete`, `commit` and `log` shell out to git in the working copy.
- The token cache itself: `saveToken` and `getToken`.

The model follows the code command by command:

- **Commands are classes.** Each command is a `class` whose `Run` method mirrors `run`, private helper for private helper. Its options are fields set by the option setters.
- **The world is explicit state.** It is a file system (`TokenStore.FileSystem`), the provider (`Backend.Provider`), the registry (`Backend.Registry`) and a git working copy (`Git.Repo`). The provider and the git working copy record the calls made to them. Which calls fail is part of the state of the provider, the registry and the git working copy (`faults`); the file system never fails.
- **Each `run` is proved against a function.** Every `run` is tied to a specification function of the old state: `RunOf`, `Precheck`, `ProvisionEffect` or `DeleteTarget`. The properties the commands promise are lemmas about those functions.
- **JavaScript string operations are modelled exactly.** `trim`, `split`, `slice`, `padEnd` and `includes` are spelled out in module `Text`. So are the commit-message regular expression (module `CommitMessage`) and the `git log` line parser (module `Logs`).

Where the code departs from what the commands evidently intend, the model follows the code:

- `repos:delete` has no `try`/`catch`. A failing token check, registry update or remote delete leaves `run` as an exception; it is not printed as a message.
- The registry record `repos:delete` acts on is the first one with the name, whatever its status. `repos:create` checks names only among ACTIVE records (src/repos/commands/create-repos.command.ts:181-188), so a name may be reused after a deletion.
- `log`'s repository check never fails.
- The password comparison of `auth:credential` is not awaited.

The "## Findings" section gives each of these discrepancies both ways. The `Run` methods model the code as written.

## Model

| member | source | states |
|---|---|---|
| TokenStore.ConfigDir | src/commands/auth/login/save-token.ts:10-20 | the directory lies under the home directory and ends in `rael-cli`, at `AppData/Local` on Windows, `Library/Application Support` on macOS and `.config` elsewhere |
| TokenStore.TokenPath | src/commands/auth/login/save-token.ts:22-30 | the token file is `auth-token` directly inside the configuration directory |
| TokenStore.EnsureConfigDir | src/commands/auth/login/save-token.ts:25-27 | afterwards the configuration directory exists; only it and its ancestors are added, and nothing is added when something is already there |
| TokenStore.EnsureConfigDirIdempotent | src/commands/auth/login/save-token.ts:25-27 | a second `getTokenPath` creates no directory |
| TokenStore.SaveLoadRoundTrip | src/commands/auth/login/get-token.ts:3-12 | loading after storing a token gives that token back, whatever was stored before |
| TokenStore.GetTokenPath | src/commands/auth/login/save-token.ts:22-30 | returns the token path, writes no file, and creates the configuration directory when it is absent |
| TokenStore.SaveToken | src/commands/auth/login/save-token.ts:5-8 | the token file holds exactly the token and no other file changes |
| TokenStore.GetToken | src/commands/auth/login/get-token.ts:3-12 | the stored text, or `None` when the file is missing; never writes a file |
| TokenStore.SaveThenGet | src/commands/auth/login/get-token.ts:3-12 | on the file system, `getToken()` after `saveToken(t)` returns `t` |
| Identity.FindUserById | src/repos/commands/create-repos.command.ts:156-164 | a user found has that id; `None` exactly when no user has it |
| Identity.FindUserByEmail | src/commands/auth/login/command/auth-credential.command.ts:46-50 | a user found has that email; `None` exactly when no user has it |
| Identity.Verify | src/repos/commands/create-repos.command.ts:148-154 | a token verifies exactly when the token service knows it, giving its payload |
| Identity.VerifySigned | src/commands/auth/login/services/GoogleAuthCallback.ts:43 | a token signed for a user id verifies to that user id |
| CredentialLogin.Login | src/commands/auth/login/command/auth-credential.command.ts:40-69 | with the comparison awaited: missing credentials exactly when either is empty; logged in exactly when the email is known and the password matches its hash, with the token signed for that user |
| CredentialLogin.LoginAsWritten | src/commands/auth/login/command/auth-credential.command.ts:40-69 | as written: logged in exactly when both are given and the email is known, whatever the password |
| CredentialLogin.AnyPasswordAccepted | src/commands/auth/login/command/auth-credential.command.ts:57-62 | as written, any two non-empty passwords give the same outcome |
| CredentialLogin.WrongPasswordLogsIn | src/commands/auth/login/command/auth-credential.command.ts:57-62 | a known email with a wrong password logs in as written and is refused once the comparison is awaited |
| CredentialLogin.AgreeOnMatchingPassword | src/commands/auth/login/command/auth-credential.command.ts:57-62 | both chains agree whenever the password matches |
| CredentialLogin.AuthCredentialCommand.SetEmail | src/commands/auth/login/command/auth-credential.command.ts:28-30 | the email option is stored |
| CredentialLogin.AuthCredentialCommand.SetPassword | src/commands/auth/login/command/auth-credential.command.ts:37-39 | the password option is stored |
| CredentialLogin.AuthCredentialCommand.Run | src/commands/auth/login/command/auth-credential.command.ts:40-69 | the outcome is `LoginAsWritten`; a login overwrites the token file with the new token, and every other outcome leaves the disk unchanged |
| GoogleCallback.Execute | src/commands/auth/login/services/GoogleAuthCallback.ts:14-44 | the code is exchanged first. Each failure stops the chain: the exchange, the profile, a missing email, an unknown user. The user lookup uses exactly the profile's email. A token is returned only for a user with that email and is signed for that user's id |
| GoogleCallback.IssuedTokenVerifies | src/commands/auth/login/services/GoogleAuthCallback.ts:33-43 | the token the callback issues verifies to the user whose email Google returned |
| GoogleLogin.GoogleAuthCommand.Run | src/auth/command/auth-google.command.ts:19-27 | the browser is tried first, a failure only shows the URL, and then the server listens on port 8080 at the callback route with the signal handlers installed |
| GoogleLogin.GoogleAuthCommand.OpenBrowser | src/auth/command/auth-google.command.ts:29-35 | a failure to open is reported with the URL and swallowed |
| GoogleLogin.GoogleAuthCommand.StartCallbackServer | src/auth/command/auth-google.command.ts:37-47 | the listener is up, stored and covered by the signal handlers |
| GoogleLogin.GoogleAuthCommand.CloseServer | src/auth/command/auth-google.command.ts:90-96 | asks a stored server to close and does nothing before one is stored |
| GoogleLogin.GoogleAuthCommand.HandleCallback | src/auth/command/auth-google.command.ts:49-74 | no code: 400, nothing saved, server left up. Otherwise the token is saved exactly when `execute` succeeds (200, else 500), and the server is closed either way |
| GoogleLogin.GoogleAuthCommand.OnSignal | src/auth/command/auth-google.command.ts:76-88 | SIGINT and SIGTERM close the server and exit with status 0 |
| GoogleLogin.LoginSession | src/auth/command/auth-google.command.ts:49-74 | a stray request without a code leaves the server up; the real callback then saves the issued token and closes it |
| GoogleLogin.OpenAndStray | src/auth/command/auth-google.command.ts:19-55 | `run` with a failing browser, then a request without a code: 400 and the server still listening |
| Backend.FirstMember | src/providers/github/GithubProvider.ts:33-40 | the member found has that login; `None` exactly when no member has it |
| Backend.Provider.GetUser | src/providers/github/GithubProvider.ts:20-41 | the call is recorded; the first member with the login, or a failure |
| Backend.Provider.CreateRepos | src/providers/github/GithubProvider.ts:43-70 | a new repository under a fresh id with the given name, description and visibility, or "Error creating repository" with nothing changed |
| Backend.Provider.CreateFile | src/providers/github/GithubProvider.ts:89-120 | succeeds exactly when the repository exists and the write is not refused; only that file of that repository changes |
| Backend.Provider.DeleteRepos | src/providers/github/GithubProvider.ts:122-134 | removes exactly that repository; a missing one is "Error deleting repository", not a no-op |
| Backend.FirstNamed | src/repos/commands/delete-repos.command.ts:56-60 | the first record with the name, whatever its status; `None` exactly when no record has it |
| Backend.FirstActiveNamed | src/repos/commands/create-repos.command.ts:181-188 | the first ACTIVE record with the name; `None` exactly when no ACTIVE record has it |
| Backend.IndexOfId | src/repos/commands/delete-repos.command.ts:74-81 | the record with that id; `None` exactly when there is none |
| Backend.Registry.Insert | src/repos/commands/create-repos.command.ts:202-212 | appends one ACTIVE record under a fresh id with the given fields, or fails and changes nothing |
| Backend.Registry.MarkDeleted | src/repos/commands/delete-repos.command.ts:74-81 | succeeds exactly when the id exists and the update is not refused, and then changes only that record's status to DELETED |
| CreateRepos.GenerateRepoDescription | src/repos/commands/create-repos.command.ts:214-231 | the generated text, or exactly "No description provided" when generation fails |
| CreateRepos.ChosenDescription | src/repos/commands/create-repos.command.ts:106-108 | the description changes only when generation is asked for and none was given, and then it is the generated one |
| CreateRepos.ValidateToken | src/repos/commands/create-repos.command.ts:140-146 | succeeds exactly for a present, non-empty token and returns it |
| CreateRepos.ExtractUserIdFromToken | src/repos/commands/create-repos.command.ts:148-154 | succeeds exactly when the token verifies to a payload with a non-empty `userId`, returning it; otherwise says which step failed |
| CreateRepos.FindUserInDatabase | src/repos/commands/create-repos.command.ts:156-164 | the user with that id, or "User not found" exactly when there is none |
| CreateRepos.Authenticate | src/repos/commands/create-repos.command.ts:88-90 | a user is returned only for a non-empty stored token that verifies to that user's id, and such a token for any known user with a non-empty id does authenticate as a user with that id; no token means "not logged in" |
| CreateRepos.Precheck | src/repos/commands/create-repos.command.ts:88-104 | passes exactly when the token authenticates, the provider lookup does not fail, the user is a provider member and no ACTIVE record has the name; an authentication failure is passed on unchanged |
| CreateRepos.MemberWithFreeNamePasses | src/repos/commands/create-repos.command.ts:88-104 | a logged-in user whose id is unique, known to the provider and asking for a name no ACTIVE record has, passes every check as that user |
| CreateRepos.NameTakenIffActiveRecord | src/repos/commands/create-repos.command.ts:181-188 | past the earlier checks, the name is refused exactly when an ACTIVE record carries it |
| CreateRepos.DeletedNamesReusable | src/repos/commands/create-repos.command.ts:181-188 | a name carried only by DELETED records is free |
| CreateRepos.CreateReposCommand.constructor | src/repos/commands/create-repos.command.ts:15-20 | every flag off and no description |
| CreateRepos.CreateReposCommand.SetName | src/repos/commands/create-repos.command.ts:38-40 | the name option is stored |
| CreateRepos.CreateReposCommand.SetDescription | src/repos/commands/create-repos.command.ts:46-48 | the description option is stored |
| CreateRepos.CreateReposCommand.SetPrivate | src/repos/commands/create-repos.command.ts:55-57 | the repository will be private |
| CreateRepos.CreateReposCommand.SetIncludeReadme | src/repos/commands/create-repos.command.ts:64-66 | a README will be created |
| CreateRepos.CreateReposCommand.SetIncludeGitignore | src/repos/commands/create-repos.command.ts:73-75 | a .gitignore will be created |
| CreateRepos.CreateReposCommand.SetGenerateDescription | src/repos/commands/create-repos.command.ts:82-84 | a description will be generated when none is given |
| CreateRepos.CreateReposCommand.CreateFileInRepository | src/repos/commands/create-repos.command.ts:166-179 | exactly one file call; only that file of that repository changes, and only on success |
| CreateRepos.CreateReposCommand.Run | src/repos/commands/create-repos.command.ts:86-138 | the token file is only read. A failed check writes nothing to either store and stops with the check's outcome. Past the checks, the provider lookup runs and then exactly what `ProvisionEffect` describes, with the chosen description |
| CreateRepos.CreateReposCommand.Checks | src/repos/commands/create-repos.command.ts:88-104 | the verdict is `Precheck`'s; only the provider lookup call is made, and no repository is created |
| CreateRepos.CreateReposCommand.Provision | src/repos/commands/create-repos.command.ts:106-131 | the description is chosen first, then the provider-first writes of `ProvisionEffect` |
| CreateRepos.CreateReposCommand.Publish | src/repos/commands/create-repos.command.ts:110-131 | the remote create comes first. If it fails, nothing is written. If the record write fails, the remote repository stays without a record. Once the record is written, no later failure removes it |
| CreateRepos.CreateReposCommand.Record | src/repos/commands/create-repos.command.ts:111-131 | a failed record write makes no further call; otherwise exactly one ACTIVE record for the remote id is appended, then the starter files follow |
| CreateRepos.CreateReposCommand.CreateStarterFiles | src/repos/commands/create-repos.command.ts:114-131 | README first, then .gitignore, each only when asked for, with the fixed contents; a failing file ends the run |
| CreateRepos.ProvisionCalls | src/repos/commands/create-repos.command.ts:110-131 | the remote create is always the first provider call, and the only one when it or the record write fails |
| DeleteRepos.DeleteTarget | src/repos/commands/delete-repos.command.ts:35-72 | a record is targeted only for a non-empty token verifying to an existing user. The record is the first with the name and is owned by that user. Conversely, a logged-in owner of the first record with the name always reaches the update, with that record. No token means "not logged in"; "not found" only when no record has the name. A failure is never a write outcome |
| DeleteRepos.ActiveDeleteTarget | src/repos/commands/delete-repos.command.ts:56-72 | the corrected lookup: the targeted record is the first ACTIVE one with the name and is owned by the user, and the logged-in owner of that record always reaches the update. It agrees with `DeleteTarget` on every earlier failure |
| DeleteRepos.OwnerTargeted | src/repos/commands/delete-repos.command.ts:35-72 | a logged-in user who owns the first record with the name is the one `run` goes on to delete that record for |
| DeleteRepos.DeletedRecordTargeted | src/repos/commands/delete-repos.command.ts:56-72 | as written, a DELETED record listed first under the name is the one targeted; the corrected lookup never targets it |
| DeleteRepos.LiveRecordUnreachable | src/repos/commands/delete-repos.command.ts:56-60 | once the first record with a name is DELETED, every target under that name is that record, so no ACTIVE record with the name is ever reached |
| DeleteRepos.ActiveFirstAgrees | src/repos/commands/delete-repos.command.ts:56-72 | when the first record with the name is ACTIVE, both lookups agree |
| DeleteRepos.IndexOfOwnId | src/repos/commands/delete-repos.command.ts:74-81 | with distinct ids, the update by id reaches the record that was found |
| DeleteRepos.DeleteReposCommand.SetName | src/repos/commands/delete-repos.command.ts:31-33 | the name option is stored |
| DeleteRepos.DeleteReposCommand.Run | src/repos/commands/delete-repos.command.ts:35-88 | a failed check changes neither store. A failed registry update stops before the provider is called. Otherwise exactly the targeted record becomes DELETED, and only then is its remote repository deleted; success is reported exactly when that delete succeeds |
| DeleteRepos.NonOwnerChangesNothing | src/repos/commands/delete-repos.command.ts:67-72 | a user who does not own the record is refused before any write |
| DeleteRepos.SoftDeleteKeepsRecord | src/repos/commands/delete-repos.command.ts:74-81 | deletion is never physical: the record keeps its place and id and only becomes DELETED |
| ListRepos.Truncate | src/repos/commands/list-repos.command.ts:43-45 | a string that fits is unchanged; a longer one becomes a prefix of itself followed by "...", exactly the limit long when the limit is at least 3 |
| ListRepos.TruncateBelowThree | src/repos/commands/list-repos.command.ts:43-45 | below 3 the negative slice end counts from the end, so the result is longer than the limit |
| ListRepos.ActiveRecords | src/repos/commands/list-repos.command.ts:26-28 | only ACTIVE records are listed |
| ListRepos.ActiveRecordsMembers | src/repos/commands/list-repos.command.ts:26-28 | a record is listed exactly when it is in the registry and ACTIVE |
| ListRepos.ActiveRecordsAppend | src/repos/commands/list-repos.command.ts:26-28 | the filter keeps registry order |
| ListRepos.ListedInCreationOrder | src/repos/commands/list-repos.command.ts:26-28 | two repositories created one after the other are listed in that order, after the earlier ones |
| ListRepos.BuildRow | src/repos/commands/list-repos.command.ts:54-58 | the name is padded to 20 and never cut. The description cell is always exactly 30 wide, with "No description" for a missing one. Private reads "Yes" or "No" padded to 10. The owner id is as stored |
| ListRepos.Dashes | src/repos/commands/list-repos.command.ts:36 | the rule is `n` dashes |
| ListRepos.RenderTable | src/repos/commands/list-repos.command.ts:35-40 | the header, then one rendered row per record in order |
| ListRepos.ListReposCommand.Run | src/repos/commands/list-repos.command.ts:18-41 | no token: the login message. No ACTIVE record: "No repositories found." Otherwise the header and one row per ACTIVE record in registry order |
| Git.FormatLog | src/repos/commands/logs.command.ts:19-22 | one `%h - %an, %ar : %s` line per commit, in order |
| Git.Repo.Exec | src/branches/commands/delete-branch.command.ts:141-143 | the command runs once, is logged, and changes the state only when it succeeds |
| Git.ExecResult | src/branches/commands/delete-branch.command.ts:139-149 | succeeds exactly when git does, with trimmed output (empty when not captured) |
| Git.ExecuteCommand | src/branches/commands/delete-branch.command.ts:139-149 | the result is `ExecResult`'s; the command is appended to the log and its effect applied |
| Git.ListsBranchIff | src/branches/commands/delete-branch.command.ts:75-88 | a name matches a trimmed listing line exactly when it is a branch other than the current one, or is "* " followed by the current branch, or (with no branches) is empty |
| Git.ListsRemoteHeadIff | src/branches/commands/delete-branch.command.ts:90-104 | the `ls-remote` output is non-blank exactly when some head of origin matches the pattern |
| Git.LocalBranchListed | src/branches/commands/delete-branch.command.ts:75-88 | in a well-formed repository: found exactly as `ListsBranchIff` says, and a failing listing counts as "not there" |
| Git.RemoteHeadListed | src/branches/commands/delete-branch.command.ts:90-104 | found exactly when the lookup does not fail and some head of origin matches |
| Git.IsGitRepository | src/branches/commands/delete-branch.command.ts:58-65 | true exactly when `rev-parse` succeeds; only that command runs |
| Git.BranchExistsLocally | src/branches/commands/delete-branch.command.ts:75-88 | the answer is `LocalBranchListed`; only `git branch --list` runs |
| Git.BranchExistsRemotely | src/branches/commands/delete-branch.command.ts:90-104 | the answer is `RemoteHeadListed`; only `ls-remote` runs |
| Git.CurrentNotListed | src/branches/commands/delete-branch.command.ts:78-80 | the current branch is never found by the local check, since its line is starred |
| Git.AbsentNotListed | src/branches/commands/create-branch.command.ts:62-75 | a plain name that is not a branch is not found locally |
| Git.OtherBranchListed | src/branches/commands/delete-branch.command.ts:75-88 | any branch other than the current one is found locally |
| Git.RemoteBranchListed | src/branches/commands/delete-branch.command.ts:90-104 | a branch origin has is found remotely |
| Git.UnmatchedNotListed | src/branches/commands/delete-branch.command.ts:90-104 | a name no head of origin matches is not found remotely |
| Git.ShowCurrentReads | src/branches/commands/delete-branch.command.ts:67-73 | the trimmed `--show-current` output is the current branch |
| CreateBranch.ChecksOf | src/branches/commands/create-branch.command.ts:25-42 | the repository check, then the local check, then the remote check, each run only after the previous one passed. Creation goes ahead exactly when all three pass. Nothing changes |
| CreateBranch.RunOf | src/branches/commands/create-branch.command.ts:18-51 | only a created branch changes the repository, and then the name was new, is appended and is checked out |
| CreateBranch.CheckoutOf | src/branches/commands/create-branch.command.ts:44-47 | exactly one `checkout -b`; created exactly when git accepts it, otherwise a reported failure with nothing changed |
| CreateBranch.BranchCommand.Run | src/branches/commands/create-branch.command.ts:18-51 | result, commands run and new state are those of `RunOf` for the trimmed name |
| CreateBranch.BranchCommand.Checkout | src/branches/commands/create-branch.command.ts:44-47 | follows `CheckoutOf` |
| CreateBranch.BranchCommand.Checks | src/branches/commands/create-branch.command.ts:25-42 | follows `ChecksOf` |
| CreateBranch.ChecksPass | src/branches/commands/create-branch.command.ts:25-42 | a name neither side lists passes all three checks |
| CreateBranch.CurrentBranchReachesCheckout | src/branches/commands/create-branch.command.ts:32-45 | the current branch's own name gets past the local check and fails at `checkout -b`, instead of "already exists" |
| CreateBranch.NewBranchIsCreated | src/branches/commands/create-branch.command.ts:18-51 | a new plain name that origin lacks is created and checked out, after exactly the four commands |
| DeleteBranch.CurrentBranchName | src/branches/commands/delete-branch.command.ts:67-73 | the current branch, or the fixed "Failed to get current branch name" message exactly when git fails |
| DeleteBranch.DeleteLocalOf | src/branches/commands/delete-branch.command.ts:106-124 | a deletion removes only that branch; a failure changes nothing. The plain delete succeeds exactly when git accepts it. `-D` runs only after a failure mentioning "not fully merged" |
| DeleteBranch.DeleteRemoteOf | src/branches/commands/delete-branch.command.ts:126-137 | deleted on origin exactly when the push succeeds; a failure is kept as a report and changes nothing |
| DeleteBranch.LocalPhase | src/branches/commands/delete-branch.command.ts:40-44 | "not local" exactly when the local check does not list the name, and then nothing changes |
| DeleteBranch.RemotePhase | src/branches/commands/delete-branch.command.ts:46-52 | "not remote" exactly when `ls-remote` does not list the name, and then nothing changes |
| DeleteBranch.DeletionsOf | src/branches/commands/delete-branch.command.ts:40-52 | the remote step runs exactly when the local step did not throw; an abort changes nothing |
| DeleteBranch.RunOf | src/branches/commands/delete-branch.command.ts:18-56 | outside a repository, for the current branch or when the branch name cannot be read, nothing is deleted and the command stops at that check; any other name reaches the deletions |
| DeleteBranch.DeleteBranchCommand.Run | src/branches/commands/delete-branch.command.ts:18-56 | follows `RunOf` as written (git's error output not captured) for the trimmed name |
| DeleteBranch.DeleteBranchCommand.GetCurrentBranchName | src/branches/commands/delete-branch.command.ts:67-73 | follows `CurrentBranchName`; only `--show-current` runs |
| DeleteBranch.DeleteBranchCommand.Deletions | src/branches/commands/delete-branch.command.ts:40-52 | follows `DeletionsOf` as written |
| DeleteBranch.DeleteBranchCommand.DeleteLocalBranch | src/branches/commands/delete-branch.command.ts:106-124 | follows `DeleteLocalOf` as written |
| DeleteBranch.DeleteBranchCommand.DeleteRemoteBranch | src/branches/commands/delete-branch.command.ts:126-137 | follows `DeleteRemoteOf` |
| DeleteBranch.ChecksPass | src/branches/commands/delete-branch.command.ts:25-38 | any name other than the current branch reaches the deletions |
| DeleteBranch.CurrentBranchRefused | src/branches/commands/delete-branch.command.ts:32-38 | the current branch is refused and nothing is deleted |
| DeleteBranch.AbsentLocallyStillDeletesRemotely | src/branches/commands/delete-branch.command.ts:40-52 | a branch missing locally still goes through the remote step, on the unchanged state |
| DeleteBranch.ListedGoesToDelete | src/branches/commands/delete-branch.command.ts:40-41 | a listed branch goes to `deleteLocalBranch` |
| DeleteBranch.MergedDeleted | src/branches/commands/delete-branch.command.ts:106-110 | a merged branch is deleted by `-d` alone |
| DeleteBranch.UnmergedNotForced | src/branches/commands/delete-branch.command.ts:106-124 | as written, an unmerged branch's `-d` failure is not recognised, so nothing is forced and nothing deleted |
| DeleteBranch.InheritedRefusalSilent | src/branches/commands/delete-branch.command.ts:139-147 | with inherited output, the wrapped failure never contains "not fully merged" for any non-empty name without whitespace |
| DeleteBranch.UnmergedForced | src/branches/commands/delete-branch.command.ts:111-119 | with git's message captured, an unmerged branch is force-deleted |
| DeleteBranch.PipedRefusalRecognised | src/branches/commands/delete-branch.command.ts:112 | git's captured refusal contains "not fully merged" |
| DeleteBranch.RemoteDeleted | src/branches/commands/delete-branch.command.ts:126-130 | a branch origin has is deleted there |
| DeleteBranch.MergedBranchDeletedEverywhere | src/branches/commands/delete-branch.command.ts:18-56 | a merged, non-current branch that origin has is deleted in both places, by exactly six commands |
| DeleteBranch.UnmergedBranchAborts | src/branches/commands/delete-branch.command.ts:18-56 | as written, an unmerged branch aborts the whole command before the remote step, deleting nothing |
| DeleteBranch.UnmergedBranchForceDeleted | src/branches/commands/delete-branch.command.ts:18-56 | with git's message captured, an unmerged branch is force-deleted and the remote step still runs |
| DeleteBranch.LocalResultKept | src/branches/commands/delete-branch.command.ts:40-52 | the remote step keeps the local result and the local branches |
| DeleteBranch.RemotePhaseKeepsLocal | src/branches/commands/delete-branch.command.ts:46-52 | the remote step touches origin only |
| CommitMessage.WordPrefix | src/commands/repos/commit.command.ts:54 | `\w+` takes the longest run of word characters |
| CommitMessage.AfterTypeShape | src/commands/repos/commit.command.ts:54 | what follows the type is accepted exactly when it is an optional `(\w+)` scope, ": " and a subject without line terminators |
| CommitMessage.MatchesGivesHeader | src/commands/repos/commit.command.ts:54 | for any type group, an accepted message has the header shape |
| CommitMessage.HeaderGivesMatch | src/commands/repos/commit.command.ts:54 | for any type group, a message with the header shape is accepted |
| CommitMessage.ValidIffConventional | src/commands/repos/commit.command.ts:52-56 | the pattern accepts a message exactly when it is `<type><scope>: <subject>` with one of the eleven types |
| CommitMessage.AcceptsScoped | src/commands/repos/commit.command.ts:29 | a scoped message like the command's own example is accepted |
| CommitMessage.LowerCaseStart | src/commands/repos/commit.command.ts:54 | a message not starting with a lower-case letter is refused |
| CommitMessage.RejectsCapitalType | src/commands/repos/commit.command.ts:54 | the type is case-sensitive |
| CommitMessage.RejectsBang | src/commands/repos/commit.command.ts:54 | there is no `!` breaking-change marker |
| CommitMessage.RejectsEmptyScope | src/commands/repos/commit.command.ts:54 | an empty scope is refused |
| CommitMessage.RejectsMissingSpace | src/commands/repos/commit.command.ts:54 | the colon must be followed by a space |
| Commit.HasChangesOf | src/commands/repos/commit.command.ts:58-66 | changes exactly when the status succeeds with non-blank output; a failing status counts as none |
| Commit.StageAndCommitOf | src/commands/repos/commit.command.ts:40-46 | a failing `git add` stops before the commit. Committed exactly when both succeed, and then the state is staged and then committed |
| Commit.RunOf | src/commands/repos/commit.command.ts:18-50 | an invalid message runs nothing. "No changes" exactly when the message is valid and the status shows none, and then only the status ran. Otherwise it stages and commits |
| Commit.CommitCommand.Run | src/commands/repos/commit.command.ts:18-50 | follows `RunOf` for the trimmed message |
| Commit.CommitCommand.HasChangesToCommit | src/commands/repos/commit.command.ts:58-66 | follows `HasChangesOf` |
| Commit.CommitCommand.StageAndCommit | src/commands/repos/commit.command.ts:40-49 | follows `StageAndCommitOf` |
| Commit.ChangesSeen | src/commands/repos/commit.command.ts:58-66 | in a repository, changes are seen exactly when some are pending |
| Commit.StagedAndCommitted | src/commands/repos/commit.command.ts:40-46 | pending changes are staged and committed, leaving a clean tree |
| Commit.PendingChangesCommitted | src/commands/repos/commit.command.ts:18-50 | a valid message with pending changes commits them with the trimmed message, by exactly three commands |
| Commit.CleanTreeNotCommitted | src/commands/repos/commit.command.ts:35-38 | a clean tree commits nothing, whatever the message |
| Commit.OutsideRepositoryNoChanges | src/commands/repos/commit.command.ts:58-66 | outside a repository the failing status reads as "no changes" |
| Commit.CommitFailureReported | src/commands/repos/commit.command.ts:44-49 | a failing commit reports the wrapped command failure and keeps the staging |
| Logs.Captured | src/repos/commands/logs.command.ts:44-57 | output only for a captured command that succeeds, and then trimmed; every failure is swallowed |
| Logs.ParseLine | src/repos/commands/logs.command.ts:67-71 | a line without " - " is skipped; a shown or aborted line has a non-empty hash without " - " |
| Logs.ShowRest | src/repos/commands/logs.command.ts:72-77 | never skipped; a shown commit keeps the hash, its author has no comma and no " : " and its date is trimmed; an aborted line keeps the hash and a comma-free author |
| Logs.ParsedLines | src/repos/commands/logs.command.ts:60 | one result per line, in order |
| Logs.RunOf | src/repos/commands/logs.command.ts:9-33 | as written: never "not a repository"; `rev-parse` and `git log` always run; "no commits" exactly when `git log` fails or prints only whitespace; otherwise its trimmed output is displayed |
| Logs.CorrectedRunOf | src/repos/commands/logs.command.ts:9-16 | with a repository check that can fail: "not a repository" exactly when `rev-parse` fails, and then nothing else runs; otherwise as `RunOf` |
| Logs.LogCommand.Run | src/repos/commands/logs.command.ts:9-33 | follows `RunOf` |
| Logs.LogCommand.IsGitRepository | src/repos/commands/logs.command.ts:35-42 | always true; runs `rev-parse` and changes nothing |
| Logs.LogCommand.ExecuteCommand | src/repos/commands/logs.command.ts:44-57 | the result is `Captured`; the command runs once |
| Logs.LogCommand.FormatAndDisplayLog | src/repos/commands/logs.command.ts:59-79 | the display is that of the parsed lines, in order, stopping at the first line that throws |
| Logs.AbortPersists | src/repos/commands/logs.command.ts:67-78 | once a line has thrown, no later line changes the display |
| Logs.NoAbortNoneThrew | src/repos/commands/logs.command.ts:67-78 | a display without an abort comes from lines none of which threw |
| Logs.AllShown | src/repos/commands/logs.command.ts:67-78 | lines that are all shown give exactly their entries, in order |
| Logs.ParseRecordLine | src/repos/commands/logs.command.ts:67-77 | round trip: the line `git log` prints for an unambiguous commit is shown with that commit's own hash, author, date and subject |
| Logs.HistoryDisplayed | src/repos/commands/logs.command.ts:9-33 | in a repository, a non-empty history of displayable commits is shown commit by commit, newest first, and nothing throws |
| Logs.OutputDisplayed | src/repos/commands/logs.command.ts:24-29 | non-blank output that `trim` leaves alone is displayed as it is |
| Logs.HistoryShown | src/repos/commands/logs.command.ts:59-79 | the output for displayable commits shows each of them, in order |
| Logs.OutputLines | src/repos/commands/logs.command.ts:60 | that output is left alone by `trim` and splits back into the commits' lines |
| Logs.HyphenatedAuthorAborts | src/repos/commands/logs.command.ts:68-76 | an author with " - " in the name cuts the line short, and reading the date throws |
| Logs.NoCommaAborts | src/repos/commands/logs.command.ts:75-76 | a rest without a comma has no date and throws after the hash and author were printed |
| Logs.EmptyHistoryNoCommits | src/repos/commands/logs.command.ts:24-27 | a repository without commits reports "no commits" |
| Logs.OutsideRepositoryReportsNoCommits | src/repos/commands/logs.command.ts:35-42 | as written, outside a repository the command runs `git log` and reports "no commits" |
| Logs.OutsideRepositoryReported | src/repos/commands/logs.command.ts:11-16 | corrected: outside a repository it reports so and runs nothing more |
| Logs.CorrectedAgreesInside | src/repos/commands/logs.command.ts:11-16 | inside a repository the corrected command behaves exactly as written |
| Text.Trim | src/branches/commands/delete-branch.command.ts:15 | no whitespace at either end; what was removed is whitespace around it |
| Text.TrimIdempotent | src/branches/commands/delete-branch.command.ts:15 | trimming twice is trimming once |
| Text.BlankIffTrimmedEmpty | src/repos/commands/logs.command.ts:53 | trimming leaves nothing exactly of an all-whitespace string |
| Text.Split | src/branches/commands/delete-branch.command.ts:78-80 | at least one piece, none containing the separator, and joining them gives the string back; the first cut is at the leftmost occurrence, and nothing is cut exactly when there is none |
| Text.SplitJoin | src/branches/commands/delete-branch.command.ts:78-80 | splitting a join of separator-free pieces gives the pieces back |
| Text.SliceTo | src/repos/commands/list-repos.command.ts:44 | a prefix; a negative end counts from the end, and both ends are clamped |
| Text.PadEnd | src/repos/commands/list-repos.command.ts:56 | the string followed by spaces up to the width, never shortened |

## Left out

- Strings are sequences of characters. JavaScript's UTF-16 code units (which matter to `length`, `slice` and `padEnd` for characters outside the BMP) are not modelled.
- Console output is reduced to an outcome value per message. Colours, emoji and exact wording are not modelled, except where the code tests or returns the text.
- File-system errors (`mkdirSync`, `readFileSync`, `writeFileSync` throwing) are not modelled. The disk is a map of paths to contents.
- The registry writes (`repository.create`, `repository.update`) and the four provider calls fail through an explicit `faults` set: such an operation either succeeds or fails. Partial writes, timeouts and retries are not modelled.
- Database reads never fail in the model: `user.findUnique` (src/repos/commands/create-repos.command.ts:156-164, src/repos/commands/delete-repos.command.ts:45-49, src/commands/auth/login/command/auth-credential.command.ts:46-50), `repository.findFirst` (src/repos/commands/create-repos.command.ts:181-188, src/repos/commands/delete-repos.command.ts:56-60) and `repository.findMany` (src/repos/commands/list-repos.command.ts:26-28). In the source such a throw is printed by `repos:create`'s catch and escapes `run` in `repos:delete` and `repos:list`.
- `repository.findFirst` has no `orderBy`, so which record comes "first" is up to the database. The model takes registry (insertion) order; the `repos:delete` finding relies on a database that returns the earlier record first.
- The OAuth client, the Google userinfo request, bcrypt and the JWT secret and expiry are oracles: maps and functions given as parameters.
- The OpenAI prompt is an oracle from prompt to answer.
- The process environment (home directory, platform) is a parameter.
- `auth:google`: the express server, HTTP parsing, concurrent requests, `process.exit`'s effect on pending work and the asynchronous close callback are reduced to an event log. The authorisation URL is a parameter, because building it (`GoogleConfig`) is not part of this model.
- Git is an abstract state: branches, pending changes, history and remote heads. `ls-remote` object ids, the shell quoting of the commit message and git's own option parsing are not modelled. `git commit` does not add a commit to the history.
- Backend.Registry.Insert: the new record is ACTIVE. The schema that sets this default is not part of this model.
- Backend.RepoRecord keeps the provider id as a number. The `String(providerId)` conversion at the record write is the identity here.
- Backend.Provider.CreateFile: the repository lookup by id and the base64 encoding of the content are folded into one step.
- Logs.LogEntry: a missing message is `None` where the command prints "undefined". The "Fetching commit history..." line is not modelled.
- Logs.LogCommand.FormatAndDisplayLog: the `logs.length === 0` branch is not modelled, since `split` always returns at least one piece.
- The text of the TypeError a missing date raises is not modelled. The display records the abort and what was printed before it.
- Git.PlainBranchName: branch names are assumed free of whitespace in the ECMAScript sense; git itself forbids only ASCII space and control characters, so names holding, say, U+00A0 or U+3000 are outside the model. The branch commands' interpolation of the name into a shell command is not modelled.
- The `pull` and `push` commands, module wiring and dependency injection are not part of this model. So are `getRepository` of the GitHub client (only its use inside `createFile`) and the seed script.

## Findings

| source | as written | input that shows it | evidently intended | confidence | as-written member | corrected member |
|---|---|---|---|---|---|---|
| src/commands/auth/login/command/auth-credential.command.ts:57-62 | `compare` is not awaited, so `isMatch` is a pending promise, which is always truthy | a known email with any wrong non-empty password logs in | the login is refused unless the password matches the stored hash | high, not executed | CredentialLogin.WrongPasswordLogsIn | CredentialLogin.Login |
| src/repos/commands/logs.command.ts:35-42 | `isGitRepository` returns true even when `rev-parse` fails, because this command's `executeCommand` swallows errors | running `log` outside a git working copy prints "No commits found" | "Not a Git repository" is reported and `git log` is not run | high, not executed | Logs.OutsideRepositoryReportsNoCommits | Logs.OutsideRepositoryReported |
| src/branches/commands/delete-branch.command.ts:109-122 | `git branch -d` runs with `stdio: 'inherit'`, so the thrown message lacks git's "not fully merged" text and the `-D` retry never runs | any unmerged branch that is not checked out: the command aborts with nothing deleted | the unmerged branch is force-deleted and the remote step runs | medium, not executed | DeleteBranch.UnmergedBranchAborts | DeleteBranch.UnmergedBranchForceDeleted |
| src/repos/commands/delete-repos.command.ts:56-60 | the record is looked up by name only, whatever its status | records `[demo, DELETED]` then `[demo, ACTIVE]` of the same owner: the DELETED record is targeted again: it is marked DELETED once more, the delete request for its already-deleted remote repository is repeated and fails, and `run` ends with that error, while the ACTIVE `demo` record and its live repository cannot be reached by name | the live (ACTIVE) record with the name is deleted | medium, not executed | DeleteRepos.DeletedRecordTargeted | DeleteRepos.ActiveDeleteTarget |
