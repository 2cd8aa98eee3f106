/**
 * `repos:delete` (delete-repos.command.ts): registry-first deletion. The
 * record is marked DELETED before the remote repository is deleted, so a
 * failing remote delete leaves a DELETED record next to a live remote
 * repository. `run` has no try/catch: a throwing step ends it with the error.
 */
module DeleteRepos {
  import opened Wrappers
  import opened Text
  import opened TokenStore
  import opened Identity
  import opened Backend

  /** Where `run` stops. */
  datatype DeleteOutcome =
    | NotLoggedIn          // "You must be logged in to list repositories."
    | VerifyThrew          // `jwtService.verify` threw out of `run`
    | UserLookupThrew      // a payload without `userId` makes the unique lookup throw out of `run`
    | UserNotFound         // "User not found."
    | RepoNotFound         // "Repository <name> not found"
    | NotOwner             // "You are not the owner of the repository <name>"
    | UpdateThrew          // the registry update threw out of `run`
    | RemoteDeleteThrew    // `deleteRepos` threw out of `run`; the record is already DELETED
    | RepositoryDeleted    // "Repository deleted successfully"

  /** The outcomes that leave `run` as an exception rather than a printed message. */
  predicate Escapes(out: DeleteOutcome) {
    out.VerifyThrew? || out.UserLookupThrew? || out.UpdateThrew? || out.RemoteDeleteThrew?
  }

  /**
   * Lines 36-72: the user and the index of the record `run` goes on to delete,
   * or where it stops. The record is the first one with the name, whatever
   * its status.
   */
  function DeleteTarget(token: Option<string>, jwt: JwtService, users: seq<User>,
                        records: seq<RepoRecord>, name: string): (r: Result<(User, nat), DeleteOutcome>)
    ensures r.Ok? ==> token.Some? && token.value != ""
    ensures r.Ok? ==> r.value.0 in users && Verify(jwt, token.value) == Ok(Claims(Some(r.value.0.id)))
    ensures r.Ok? ==> FirstNamed(records, name) == Some(r.value.1)
    ensures r.Ok? ==> records[r.value.1].ownerId == r.value.0.id
    ensures r.Err? ==> !r.error.RepositoryDeleted? && !r.error.UpdateThrew? && !r.error.RemoteDeleteThrew?
    ensures Falsy(token) ==> r == Err(NotLoggedIn)
    ensures r == Err(RepoNotFound) ==> FirstNamed(records, name) == None
    // the owner of the first record with the name, logged in with a token for their id, reaches the update
    ensures forall u :: (u in users && !Falsy(token) && Verify(jwt, token.value) == Ok(Claims(Some(u.id))) &&
                         FirstNamed(records, name).Some? && records[FirstNamed(records, name).value].ownerId == u.id)
                        ==> r.Ok? && r.value.0.id == u.id && r.value.1 == FirstNamed(records, name).value
  {
    if token.None? || token.value == "" then Err(NotLoggedIn)
    else match Verify(jwt, token.value)
      case Err(_) => Err(VerifyThrew)
      case Ok(claims) =>
        if claims.userId.None? then Err(UserLookupThrew)
        else match FindUserById(users, claims.userId.value)
          case None => Err(UserNotFound)
          case Some(user) =>
            match FirstNamed(records, name)
            case None => Err(RepoNotFound)
            case Some(i) =>
              if records[i].ownerId != user.id then Err(NotOwner)
              else Ok((user, i))
  }

  /**
   * `DeleteTarget` with the record looked up among the ACTIVE ones only, the
   * way `repos:create` checks names: once a name has been reused, the live
   * record is the one deleted, never the earlier DELETED one.
   */
  function ActiveDeleteTarget(token: Option<string>, jwt: JwtService, users: seq<User>,
                              records: seq<RepoRecord>, name: string): (r: Result<(User, nat), DeleteOutcome>)
    ensures r.Ok? ==> r.value.0 in users && FirstActiveNamed(records, name) == Some(r.value.1)
    ensures r.Ok? ==> records[r.value.1].status == Active && records[r.value.1].ownerId == r.value.0.id
    ensures r == Err(RepoNotFound) ==> FirstActiveNamed(records, name) == None
    ensures forall u :: (u in users && !Falsy(token) && Verify(jwt, token.value) == Ok(Claims(Some(u.id))) &&
                         FirstActiveNamed(records, name).Some? && records[FirstActiveNamed(records, name).value].ownerId == u.id)
                        ==> r.Ok? && r.value.0.id == u.id && r.value.1 == FirstActiveNamed(records, name).value
    ensures DeleteTarget(token, jwt, users, records, name).Err? &&
            DeleteTarget(token, jwt, users, records, name).error != RepoNotFound &&
            DeleteTarget(token, jwt, users, records, name).error != NotOwner ==>
              r == DeleteTarget(token, jwt, users, records, name)
  {
    if token.None? || token.value == "" then Err(NotLoggedIn)
    else match Verify(jwt, token.value)
      case Err(_) => Err(VerifyThrew)
      case Ok(claims) =>
        if claims.userId.None? then Err(UserLookupThrew)
        else match FindUserById(users, claims.userId.value)
          case None => Err(UserNotFound)
          case Some(user) =>
            match FirstActiveNamed(records, name)
            case None => Err(RepoNotFound)
            case Some(i) =>
              if records[i].ownerId != user.id then Err(NotOwner)
              else Ok((user, i))
  }

  /**
   * As written, a DELETED record listed before a live one with the same name
   * is the one `run` goes on to delete: it is marked DELETED again and the
   * delete request for its remote repository is repeated, which fails on a
   * repository already gone, so `run` ends with `RemoteDeleteThrew`. The lookup
   * among ACTIVE records never picks it.
   */
  lemma DeletedRecordTargeted(token: Option<string>, jwt: JwtService, users: seq<User>,
                              records: seq<RepoRecord>, name: string, user: User, i: nat)
    requires !Falsy(token) && Verify(jwt, token.value) == Ok(Claims(Some(user.id)))
    requires FindUserById(users, user.id) == Some(user)
    requires FirstNamed(records, name) == Some(i) && records[i].status == Deleted && records[i].ownerId == user.id
    ensures DeleteTarget(token, jwt, users, records, name) == Ok((user, i))
    ensures ActiveDeleteTarget(token, jwt, users, records, name).Ok? ==>
              ActiveDeleteTarget(token, jwt, users, records, name).value.1 != i
  {
  }

  /**
   * Once the first record with a name is DELETED, no later record with that
   * name, in particular a live one, can be reached by `repos:delete` under that name.
   */
  lemma LiveRecordUnreachable(token: Option<string>, jwt: JwtService, users: seq<User>,
                              records: seq<RepoRecord>, name: string, i: nat)
    requires FirstNamed(records, name) == Some(i) && records[i].status == Deleted
    ensures DeleteTarget(token, jwt, users, records, name).Ok? ==>
              DeleteTarget(token, jwt, users, records, name).value.1 == i
    ensures forall j :: 0 <= j < |records| && records[j].status == Active ==>
              (DeleteTarget(token, jwt, users, records, name).Ok? ==> DeleteTarget(token, jwt, users, records, name).value.1 != j)
  {
  }

  /** The owner of the first record with the name, logged in, is the one `run` goes on to delete it for. */
  lemma OwnerTargeted(token: Option<string>, jwt: JwtService, users: seq<User>,
                      records: seq<RepoRecord>, name: string, u: User, i: nat)
    requires !Falsy(token) && Verify(jwt, token.value) == Ok(Claims(Some(u.id)))
    requires FindUserById(users, u.id) == Some(u)
    requires FirstNamed(records, name) == Some(i) && records[i].ownerId == u.id
    ensures DeleteTarget(token, jwt, users, records, name) == Ok((u, i))
  {
  }

  /** The two lookups agree whenever the first record with the name is ACTIVE. */
  lemma ActiveFirstAgrees(token: Option<string>, jwt: JwtService, users: seq<User>,
                          records: seq<RepoRecord>, name: string, i: nat)
    requires FirstNamed(records, name) == Some(i) && records[i].status == Active
    ensures ActiveDeleteTarget(token, jwt, users, records, name) == DeleteTarget(token, jwt, users, records, name)
  {
    assert FirstActiveNamed(records, name) == Some(i);
  }

  /** With distinct ids, looking a record up by its own id finds that record. */
  lemma IndexOfOwnId(records: seq<RepoRecord>, bound: nat, i: nat)
    requires IdsBelow(records, bound) && i < |records|
    ensures IndexOfId(records, records[i].id) == Some(i)
  {
  }

  class DeleteReposCommand {
    var reposName: string

    constructor ()
      ensures reposName == ""
    {
      reposName := "";
    }

    method SetName(name: string)
      modifies this`reposName
      ensures reposName == name
    {
      reposName := name;
    }

    /** `run`: token, user, first record by name, owner check, then registry update before remote delete. */
    method Run(fs: FileSystem, env: Env, jwt: JwtService, users: seq<User>,
               provider: Provider, registry: Registry) returns (out: DeleteOutcome)
      requires provider.Valid() && registry.Valid()
      modifies fs, provider`repos, provider`calls, registry`records
      ensures provider.Valid() && registry.Valid()
      ensures fs.files == old(fs.files)
      ensures fs.dirs == EnsureConfigDir(old(fs.files), old(fs.dirs), env)
      // a failed check changes neither store
      ensures var target := DeleteTarget(LoadToken(old(fs.files), env), jwt, users, old(registry.records), reposName);
        target.Err? ==>
          && out == target.error
          && registry.records == old(registry.records)
          && provider.repos == old(provider.repos) && provider.calls == old(provider.calls)
      // a failed registry update stops before the provider is called
      ensures var target := DeleteTarget(LoadToken(old(fs.files), env), jwt, users, old(registry.records), reposName);
        target.Ok? && UpdateOp in registry.faults ==>
          && out == UpdateThrew
          && registry.records == old(registry.records)
          && provider.repos == old(provider.repos) && provider.calls == old(provider.calls)
      // otherwise exactly that record becomes DELETED, and only then is the remote delete called
      ensures var target := DeleteTarget(LoadToken(old(fs.files), env), jwt, users, old(registry.records), reposName);
        target.Ok? && UpdateOp !in registry.faults ==>
          var i := target.value.1;
          var record := old(registry.records)[i];
          && registry.records == old(registry.records)[i := record.(status := Deleted)]
          && provider.calls == old(provider.calls) + [DeleteReposCall(record.providerId)]
          && (out == RepositoryDeleted <==> record.providerId in old(provider.repos) && DeleteReposOp !in provider.faults)
          && (out == RepositoryDeleted ==> provider.repos == old(provider.repos) - {record.providerId})
          && (out != RepositoryDeleted ==> out == RemoteDeleteThrew && provider.repos == old(provider.repos))
    {
      var token := GetToken(fs, env);
      if token.None? || token.value == "" {
        return NotLoggedIn;
      }

      var verified := Verify(jwt, token.value);
      if verified.Err? {
        return VerifyThrew;
      }
      if verified.value.userId.None? {
        return UserLookupThrew;
      }

      var user := FindUserById(users, verified.value.userId.value);
      if user.None? {
        return UserNotFound;
      }

      var repo := FirstNamed(registry.records, reposName);
      if repo.None? {
        return RepoNotFound;
      }
      var record := registry.records[repo.value];

      var isOwner := record.ownerId == user.value.id;
      if !isOwner {
        return NotOwner;
      }

      IndexOfOwnId(registry.records, registry.nextId, repo.value);
      var updated := registry.MarkDeleted(record.id);
      if updated.Err? {
        return UpdateThrew;
      }

      var removed := provider.DeleteRepos(record.providerId);
      if removed.Err? {
        return RemoteDeleteThrew;
      }
      out := RepositoryDeleted;
    }
  }

  /** A non-owner changes nothing: the owner check comes before every write. */
  lemma NonOwnerChangesNothing(token: Option<string>, jwt: JwtService, users: seq<User>,
                               records: seq<RepoRecord>, name: string, user: User, i: nat)
    requires !Falsy(token) && Verify(jwt, token.value) == Ok(Claims(Some(user.id)))
    requires FindUserById(users, user.id) == Some(user)
    requires FirstNamed(records, name) == Some(i) && records[i].ownerId != user.id
    ensures DeleteTarget(token, jwt, users, records, name) == Err(NotOwner)
  {
  }

  /** Marking a record DELETED keeps it, and its id, in place: deletion is never physical. */
  lemma SoftDeleteKeepsRecord(records: seq<RepoRecord>, bound: nat, i: nat)
    requires IdsBelow(records, bound) && i < |records|
    ensures var after := records[i := records[i].(status := Deleted)];
      && |after| == |records|
      && IndexOfId(after, records[i].id) == Some(i)
      && after[i].status == Deleted
      && IdsBelow(after, bound)
  {
    var after := records[i := records[i].(status := Deleted)];
    assert forall j :: 0 <= j < |after| ==> after[j].id == records[j].id;
    IndexOfOwnId(after, bound, i);
  }
}
