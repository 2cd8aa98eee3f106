/**
 * `repos:create` (create-repos.command.ts): provider-first creation of a
 * repository. The remote repository is created before the registry record is
 * written, so a failing registry write leaves a remote repository without a
 * record, while a failing remote create leaves the registry untouched.
 */
module CreateRepos {
  import opened Wrappers
  import opened Text
  import opened TokenStore
  import opened Identity
  import opened Backend

  /** Where `run` stops; every case but `Created` is printed by the catch-all. */
  datatype CreateOutcome =
    | NotLoggedIn                                   // "You need to be logged in to create a repository"
    | TokenRejected                                 // `jwtService.verify` threw
    | NoUserIdInToken                               // "Invalid token: User ID not found"
    | UserNotFound                                  // "User not found"
    | ProviderLookupFailed                          // `getUser` threw
    | NotAProviderMember                            // "User not found on the provider, please contact support."
    | NameTaken                                     // `Repository with the name "<name>" already exists`
    | RemoteCreateFailed                            // "Error creating repository"
    | RecordWriteFailed(providerId: nat)            // the registry write threw after the remote create
    | FileCreateFailed(providerId: nat, path: string)  // a starter file could not be created
    | Created(providerId: nat)

  const ReadmePath := "README.md"
  const GitignorePath := ".gitignore"
  const GitignoreContent := "node_modules/\n.env\n"
  const DescriptionFallback := "No description provided"

  function ReadmeContent(name: string): string {
    "# " + name
  }

  /** The text-generation service: the answer it gives to each prompt it can answer; every other prompt fails. */
  datatype TextGenerator = TextGenerator(answers: map<string, string>)

  function DescriptionPrompt(name: string): string {
    "Generate a brief and descriptive summary for a repository named \"" + name + "\"."
  }

  /** `generateRepoDescription`: the generated text, or exactly the fallback text when generation fails. */
  function GenerateRepoDescription(ai: TextGenerator, name: string): (d: string)
    ensures DescriptionPrompt(name) in ai.answers ==> d == ai.answers[DescriptionPrompt(name)]
    ensures DescriptionPrompt(name) !in ai.answers ==> d == DescriptionFallback
  {
    var prompt := DescriptionPrompt(name);
    if prompt in ai.answers then ai.answers[prompt] else DescriptionFallback
  }

  /** The description after line 106-108: replaced only when generation is asked for and none was given. */
  function ChosenDescription(given: Option<string>, generate: bool, ai: TextGenerator, name: string): (d: Option<string>)
    ensures d != given ==> generate && Falsy(given)
    ensures generate && Falsy(given) ==> d == Some(GenerateRepoDescription(ai, name))
  {
    if generate && Falsy(given) then Some(GenerateRepoDescription(ai, name)) else given
  }

  /** `validateToken`: the cached token, unless it is missing or empty. */
  function ValidateToken(token: Option<string>): (r: Result<string, CreateOutcome>)
    ensures r.Ok? <==> !Falsy(token)
    ensures r.Ok? ==> token == Some(r.value)
    ensures r.Err? ==> r.error == NotLoggedIn
  {
    if Falsy(token) then Err(NotLoggedIn) else Ok(token.value)
  }

  /** `extractUserIdFromToken`: the verified payload's non-empty `userId`. */
  function ExtractUserIdFromToken(jwt: JwtService, token: string): (r: Result<string, CreateOutcome>)
    ensures r.Ok? <==> Verify(jwt, token).Ok? && !Falsy(Verify(jwt, token).value.userId)
    ensures r.Ok? ==> Verify(jwt, token) == Ok(Claims(Some(r.value)))
    ensures r.Err? ==> r.error == (if Verify(jwt, token).Ok? then NoUserIdInToken else TokenRejected)
  {
    match Verify(jwt, token)
    case Err(_) => Err(TokenRejected)
    case Ok(claims) => if Falsy(claims.userId) then Err(NoUserIdInToken) else Ok(claims.userId.value)
  }

  /** `findUserInDatabase`. */
  function FindUserInDatabase(users: seq<User>, userId: string): (r: Result<User, CreateOutcome>)
    ensures r.Ok? ==> r.value in users && r.value.id == userId
    ensures r.Err? ==> r.error == UserNotFound && forall u :: u in users ==> u.id != userId
  {
    match FindUserById(users, userId)
    case None => Err(UserNotFound)
    case Some(u) => Ok(u)
  }

  /** The first three steps of `run`: the stored token, its user id, the user row. */
  function Authenticate(token: Option<string>, jwt: JwtService, users: seq<User>): (r: Result<User, CreateOutcome>)
    ensures r.Ok? ==> (token.Some? && token.value != "" && r.value in users &&
                       Verify(jwt, token.value) == Ok(Claims(Some(r.value.id))))
    ensures Falsy(token) ==> r == Err(NotLoggedIn)
    ensures r.Err? ==> r.error in {NotLoggedIn, TokenRejected, NoUserIdInToken, UserNotFound}
    // a stored token that verifies to the non-empty id of a known user authenticates as a user with that id
    ensures forall u :: (u in users && !Falsy(token) && u.id != "" &&
                         Verify(jwt, token.value) == Ok(Claims(Some(u.id)))) ==> r.Ok? && r.value.id == u.id
  {
    match ValidateToken(token)
    case Err(e) => Err(e)
    case Ok(t) =>
      match ExtractUserIdFromToken(jwt, t)
      case Err(e) => Err(e)
      case Ok(uid) => FindUserInDatabase(users, uid)
  }

  /**
   * Everything `run` checks before its first write (lines 88-104): the user
   * it acts for, or the outcome it stops with. Only the provider lookup has
   * been called when the name check fails.
   */
  function Precheck(token: Option<string>, jwt: JwtService, users: seq<User>,
                    members: seq<Member>, providerFaults: set<ProviderOp>,
                    records: seq<RepoRecord>, name: string): (r: Result<User, CreateOutcome>)
    ensures r.Ok? ==> Authenticate(token, jwt, users) == Ok(r.value)
    ensures r.Ok? <==> Authenticate(token, jwt, users).Ok? && GetUserOp !in providerFaults &&
                       FirstMember(members, Authenticate(token, jwt, users).value.userName).Some? &&
                       forall j :: 0 <= j < |records| ==> !(records[j].name == name && records[j].status == Active)
    ensures Authenticate(token, jwt, users).Err? ==> r == Authenticate(token, jwt, users)
  {
    match Authenticate(token, jwt, users)
    case Err(e) => Err(e)
    case Ok(user) =>
      if GetUserOp in providerFaults then Err(ProviderLookupFailed)
      else if FirstMember(members, user.userName).None? then Err(NotAProviderMember)
      else if FirstActiveNamed(records, name).Some? then Err(NameTaken)
      else Ok(user)
  }

  /** The provider calls `run` makes before its remote create. */
  function LookupCalls(auth: Result<User, CreateOutcome>): seq<ProviderCall> {
    if auth.Ok? then [GetUserCall(auth.value.userName)] else []
  }

  /** A name is taken exactly when an ACTIVE record carries it; the lookup has run by then. */
  lemma NameTakenIffActiveRecord(token: Option<string>, jwt: JwtService, users: seq<User>,
                                 members: seq<Member>, providerFaults: set<ProviderOp>,
                                 records: seq<RepoRecord>, name: string)
    requires Authenticate(token, jwt, users).Ok?
    requires GetUserOp !in providerFaults
    requires FirstMember(members, Authenticate(token, jwt, users).value.userName).Some?
    ensures Precheck(token, jwt, users, members, providerFaults, records, name) == Err(NameTaken)
        <==> exists r :: r in records && r.name == name && r.status == Active
  {
    if exists r :: r in records && r.name == name && r.status == Active {
      var r :| r in records && r.name == name && r.status == Active;
      var j :| 0 <= j < |records| && records[j] == r;
      assert FirstActiveNamed(records, name).Some?;
    }
  }

  /**
   * The success half of the checks: a logged-in user the provider knows, asking
   * for a name no ACTIVE record carries, passes every check before the first write.
   */
  lemma MemberWithFreeNamePasses(token: Option<string>, jwt: JwtService, users: seq<User>,
                                 members: seq<Member>, providerFaults: set<ProviderOp>,
                                 records: seq<RepoRecord>, name: string, u: User)
    requires u in users && u.id != "" && !Falsy(token) && Verify(jwt, token.value) == Ok(Claims(Some(u.id)))
    requires forall v :: v in users && v.id == u.id ==> v == u
    requires GetUserOp !in providerFaults && FirstMember(members, u.userName).Some?
    requires forall r :: r in records ==> !(r.name == name && r.status == Active)
    ensures Precheck(token, jwt, users, members, providerFaults, records, name) == Ok(u)
  {
    assert Authenticate(token, jwt, users) == Ok(u);
    assert forall j :: 0 <= j < |records| ==> records[j] in records;
  }

  /** A DELETED record never blocks its name: only ACTIVE ones are consulted. */
  lemma DeletedNamesReusable(records: seq<RepoRecord>, name: string)
    requires forall r :: r in records && r.name == name ==> r.status == Deleted
    ensures FirstActiveNamed(records, name) == None
  {
  }

  class CreateReposCommand {
    var name: string
    var description: Option<string>
    var isPrivate: bool
    var includeReadme: bool
    var includeGitignore: bool
    var generateDescription: bool

    /** The command before its options are parsed: every flag off, no description. */
    constructor ()
      ensures name == "" && description == None
      ensures !isPrivate && !includeReadme && !includeGitignore && !generateDescription
    {
      name := "";
      description := None;
      isPrivate := false;
      includeReadme := false;
      includeGitignore := false;
      generateDescription := false;
    }

    method SetName(n: string)
      modifies this`name
      ensures name == n
    {
      name := n;
    }

    method SetDescription(d: string)
      modifies this`description
      ensures description == Some(d)
    {
      description := Some(d);
    }

    method SetPrivate()
      modifies this`isPrivate
      ensures isPrivate
    {
      isPrivate := true;
    }

    method SetIncludeReadme()
      modifies this`includeReadme
      ensures includeReadme
    {
      includeReadme := true;
    }

    method SetIncludeGitignore()
      modifies this`includeGitignore
      ensures includeGitignore
    {
      includeGitignore := true;
    }

    method SetGenerateDescription()
      modifies this`generateDescription
      ensures generateDescription
    {
      generateDescription := true;
    }

    /** `createFileInRepository`. */
    method CreateFileInRepository(provider: Provider, repoId: nat, path: string, content: string)
      returns (r: Result<(), string>)
      requires provider.Valid()
      modifies provider`repos, provider`calls
      ensures provider.Valid()
      ensures provider.calls == old(provider.calls) + [CreateFileCall(repoId, path, content)]
      ensures r.Ok? <==> repoId in old(provider.repos) && CreateFileOp(path) !in provider.faults
      ensures r.Ok? ==> provider.repos == old(provider.repos)[repoId := old(provider.repos)[repoId].(files := old(provider.repos)[repoId].files[path := content])]
      ensures r.Err? ==> provider.repos == old(provider.repos)
    {
      r := provider.CreateFile(repoId, path, content);
    }

    /** `run`: token, user, provider member, name check, then the writes of `Provision`. */
    method Run(fs: FileSystem, env: Env, jwt: JwtService, users: seq<User>,
               provider: Provider, registry: Registry, ai: TextGenerator) returns (out: CreateOutcome)
      requires provider.Valid() && registry.Valid()
      modifies this`description, fs, provider, registry
      ensures provider.Valid() && registry.Valid()
      // the token is only read: at most the config directory is created
      ensures fs.files == old(fs.files)
      ensures fs.dirs == EnsureConfigDir(old(fs.files), old(fs.dirs), env)
      // a failed check writes nothing anywhere
      ensures var pre := Precheck(LoadToken(old(fs.files), env), jwt, users, provider.members,
                                  provider.faults, old(registry.records), name);
        pre.Err? ==>
          && out == pre.error
          && description == old(description)
          && registry.records == old(registry.records)
          && provider.repos == old(provider.repos)
          && provider.calls == old(provider.calls) + LookupCalls(Authenticate(LoadToken(old(fs.files), env), jwt, users))
      // past the checks: the lookup call, then exactly what `Provision` does
      ensures var pre := Precheck(LoadToken(old(fs.files), env), jwt, users, provider.members,
                                  provider.faults, old(registry.records), name);
        pre.Ok? ==>
          && description == ChosenDescription(old(description), generateDescription, ai, name)
          && provider.calls == old(provider.calls) + [GetUserCall(pre.value.userName)] +
               ProvisionCalls(name, description, isPrivate, includeReadme, includeGitignore,
                              pre.value.id, old(provider.nextId), provider.faults, registry.faults)
          && ProvisionEffect(name, description, isPrivate, includeReadme, includeGitignore, pre.value.id,
                             provider.faults, registry.faults,
                             old(provider.repos), old(provider.nextId), old(registry.records), old(registry.nextId),
                             provider.repos, registry.records, out)
      ensures name == old(name) && isPrivate == old(isPrivate) && includeReadme == old(includeReadme)
      ensures includeGitignore == old(includeGitignore) && generateDescription == old(generateDescription)
    {
      ghost var auth := Authenticate(LoadToken(fs.files, env), jwt, users);
      var pre := Checks(fs, env, jwt, users, provider, registry);
      assert pre == Precheck(LoadToken(old(fs.files), env), jwt, users, provider.members,
                             provider.faults, old(registry.records), name);
      if pre.Err? {
        return pre.error;
      }
      assert auth == Ok(pre.value);
      out := Provision(provider, registry, pre.value.id, ai);
    }

    /** Lines 88-104 of `run`: every check made before the first write. */
    method Checks(fs: FileSystem, env: Env, jwt: JwtService, users: seq<User>,
                  provider: Provider, registry: Registry) returns (pre: Result<User, CreateOutcome>)
      modifies fs, provider`calls
      ensures fs.files == old(fs.files)
      ensures fs.dirs == EnsureConfigDir(old(fs.files), old(fs.dirs), env)
      ensures pre == Precheck(LoadToken(old(fs.files), env), jwt, users, provider.members,
                              provider.faults, registry.records, name)
      ensures provider.calls == old(provider.calls) + LookupCalls(Authenticate(LoadToken(old(fs.files), env), jwt, users))
      ensures provider.repos == old(provider.repos) && provider.nextId == old(provider.nextId)
    {
      var stored := GetToken(fs, env);
      var auth := Authenticate(stored, jwt, users);
      if auth.Err? {
        return Err(auth.error);
      }
      var user := auth.value;

      var userProvider := provider.GetUser(user.userName);
      if userProvider.Err? {
        return Err(ProviderLookupFailed);
      }
      if userProvider.value.None? {
        return Err(NotAProviderMember);
      }

      if FirstActiveNamed(registry.records, name).Some? {
        return Err(NameTaken);
      }
      pre := Ok(user);
    }

    /** Lines 106-131 of `run`: the description, the remote repository, its record, the starter files. */
    method Provision(provider: Provider, registry: Registry, ownerId: string, ai: TextGenerator)
      returns (out: CreateOutcome)
      requires provider.Valid() && registry.Valid()
      modifies this`description, provider`repos, provider`nextId, provider`calls, registry`records, registry`nextId
      ensures provider.Valid() && registry.Valid()
      ensures description == ChosenDescription(old(description), generateDescription, ai, name)
      ensures provider.calls == old(provider.calls) + ProvisionCalls(name, description, isPrivate, includeReadme, includeGitignore,
                                                                     ownerId, old(provider.nextId), provider.faults, registry.faults)
      ensures ProvisionEffect(name, description, isPrivate, includeReadme, includeGitignore, ownerId,
                              provider.faults, registry.faults,
                              old(provider.repos), old(provider.nextId), old(registry.records), old(registry.nextId),
                              provider.repos, registry.records, out)
    {
      if generateDescription && Falsy(description) {
        description := Some(GenerateRepoDescription(ai, name));
      }
      out := Publish(provider, registry, ownerId);
    }

    /** Lines 110-131: the remote create, then the record and the starter files. */
    method Publish(provider: Provider, registry: Registry, ownerId: string) returns (out: CreateOutcome)
      requires provider.Valid() && registry.Valid()
      modifies provider`repos, provider`nextId, provider`calls, registry`records, registry`nextId
      ensures provider.Valid() && registry.Valid()
      ensures provider.calls == old(provider.calls) + ProvisionCalls(name, description, isPrivate, includeReadme, includeGitignore,
                                                                     ownerId, old(provider.nextId), provider.faults, registry.faults)
      ensures ProvisionEffect(name, description, isPrivate, includeReadme, includeGitignore, ownerId,
                              provider.faults, registry.faults,
                              old(provider.repos), old(provider.nextId), old(registry.records), old(registry.nextId),
                              provider.repos, registry.records, out)
    {
      var created := provider.CreateRepos(name, description, isPrivate, ownerId);
      if created.Err? {
        return RemoteCreateFailed;
      }
      out := Record(provider, registry, created.value, ownerId);
    }

    /** Lines 112-131: the registry record for the remote repository `repoId`, then its starter files. */
    method Record(provider: Provider, registry: Registry, repoId: nat, ownerId: string) returns (out: CreateOutcome)
      requires provider.Valid() && registry.Valid() && repoId in provider.repos
      modifies provider`repos, provider`calls, registry`records, registry`nextId
      ensures provider.Valid() && registry.Valid()
      ensures InsertOp in registry.faults ==>
                out == RecordWriteFailed(repoId) && provider.calls == old(provider.calls) &&
                provider.repos == old(provider.repos) && registry.records == old(registry.records)
      ensures InsertOp !in registry.faults ==>
                && out == StarterFilesOutcome(repoId, includeReadme, includeGitignore, provider.faults)
                && provider.calls == old(provider.calls) + StarterFileCalls(repoId, name, includeReadme, includeGitignore, provider.faults)
                && provider.repos == old(provider.repos)[repoId := old(provider.repos)[repoId].(files :=
                     WithStarterFiles(old(provider.repos)[repoId].files, name, includeReadme, includeGitignore, provider.faults))]
                && registry.records == old(registry.records) +
                     [RepoRecord(old(registry.nextId), name, description, isPrivate, repoId, ownerId, Active)]
    {
      var saved := registry.Insert(name, description, isPrivate, repoId, ownerId);
      if saved.Err? {
        return RecordWriteFailed(repoId);
      }
      out := CreateStarterFiles(provider, repoId);
    }

    /** Lines 114-131: README first, then .gitignore, each only when asked for; a failure ends the run. */
    method CreateStarterFiles(provider: Provider, repoId: nat) returns (out: CreateOutcome)
      requires provider.Valid() && repoId in provider.repos
      modifies provider`repos, provider`calls
      ensures provider.Valid()
      ensures provider.calls == old(provider.calls) + StarterFileCalls(repoId, name, includeReadme, includeGitignore, provider.faults)
      ensures provider.repos == old(provider.repos)[repoId := old(provider.repos)[repoId].(files :=
                WithStarterFiles(old(provider.repos)[repoId].files, name, includeReadme, includeGitignore, provider.faults))]
      ensures out == StarterFilesOutcome(repoId, includeReadme, includeGitignore, provider.faults)
    {
      if includeReadme {
        var r := CreateFileInRepository(provider, repoId, ReadmePath, ReadmeContent(name));
        if r.Err? {
          return FileCreateFailed(repoId, ReadmePath);
        }
      }

      if includeGitignore {
        var r := CreateFileInRepository(provider, repoId, GitignorePath, GitignoreContent);
        if r.Err? {
          return FileCreateFailed(repoId, GitignorePath);
        }
      }

      out := Created(repoId);
    }
  }

  /**
   * What lines 106-131 leave behind, given the stores before (`repos0`,
   * `providerNext`, `records0`, `registryNext`) and after (`repos1`,
   * `records1`), for the description in use.
   * The remote create comes first: when it fails nothing is written; when the
   * record write fails the remote repository stays without a record; once the
   * record is written, no later failure removes it.
   */
  ghost predicate ProvisionEffect(name: string, description: Option<string>, isPrivate: bool,
                                  readme: bool, gitignore: bool, ownerId: string,
                                  providerFaults: set<ProviderOp>, registryFaults: set<RegistryOp>,
                                  repos0: map<nat, RemoteRepo>, providerNext: nat,
                                  records0: seq<RepoRecord>, registryNext: nat,
                                  repos1: map<nat, RemoteRepo>, records1: seq<RepoRecord>, out: CreateOutcome)
  {
    if CreateReposOp in providerFaults then
      out == RemoteCreateFailed && repos1 == repos0 && records1 == records0
    else
      var newRepo := RemoteRepo(name, description, isPrivate, map[]);
      if InsertOp in registryFaults then
        && out == RecordWriteFailed(providerNext)
        && repos1 == repos0[providerNext := newRepo]
        && records1 == records0
      else
        && out == StarterFilesOutcome(providerNext, readme, gitignore, providerFaults)
        && repos1 == repos0[providerNext := newRepo.(files := WithStarterFiles(map[], name, readme, gitignore, providerFaults))]
        && records1 == records0 + [RepoRecord(registryNext, name, description, isPrivate, providerNext, ownerId, Active)]
  }

  /** The provider calls of lines 110-131: the remote create always comes first, the file calls only after a written record. */
  function ProvisionCalls(name: string, description: Option<string>, isPrivate: bool,
                          readme: bool, gitignore: bool, ownerId: string, providerNext: nat,
                          providerFaults: set<ProviderOp>, registryFaults: set<RegistryOp>): (calls: seq<ProviderCall>)
    ensures |calls| >= 1 && calls[0] == CreateReposCall(name, description, isPrivate, ownerId)
    ensures CreateReposOp in providerFaults || InsertOp in registryFaults ==> |calls| == 1
  {
    [CreateReposCall(name, description, isPrivate, ownerId)] +
    if CreateReposOp in providerFaults || InsertOp in registryFaults then []
    else StarterFileCalls(providerNext, name, readme, gitignore, providerFaults)
  }

  /** The starter-file calls, README first; a failing README call ends the run before the .gitignore one. */
  function StarterFileCalls(repoId: nat, name: string, readme: bool, gitignore: bool, faults: set<ProviderOp>): seq<ProviderCall> {
    var readmeCalls := if readme then [CreateFileCall(repoId, ReadmePath, ReadmeContent(name))] else [];
    var readmeFailed := readme && CreateFileOp(ReadmePath) in faults;
    var gitignoreCalls := if gitignore && !readmeFailed then [CreateFileCall(repoId, GitignorePath, GitignoreContent)] else [];
    readmeCalls + gitignoreCalls
  }

  /** The files of the new remote repository once the starter files that succeeded are added to `files`. */
  function WithStarterFiles(files: map<string, string>, name: string, readme: bool, gitignore: bool,
                            faults: set<ProviderOp>): map<string, string>
  {
    var readmeOk := readme && CreateFileOp(ReadmePath) !in faults;
    var readmeFailed := readme && CreateFileOp(ReadmePath) in faults;
    var gitignoreOk := gitignore && !readmeFailed && CreateFileOp(GitignorePath) !in faults;
    var afterReadme := if readmeOk then files[ReadmePath := ReadmeContent(name)] else files;
    if gitignoreOk then afterReadme[GitignorePath := GitignoreContent] else afterReadme
  }

  /** How `run` ends once the record is written. */
  function StarterFilesOutcome(repoId: nat, readme: bool, gitignore: bool, faults: set<ProviderOp>): CreateOutcome {
    if readme && CreateFileOp(ReadmePath) in faults then FileCreateFailed(repoId, ReadmePath)
    else if gitignore && CreateFileOp(GitignorePath) in faults then FileCreateFailed(repoId, GitignorePath)
    else Created(repoId)
  }
}
