/**
 * The two stores the repository commands coordinate: the remote hosting
 * provider (the four operations of the `RepositoryProvider` interface, with
 * the organization-member lookup of the GitHub implementation) and the local
 * repository registry (the `repository` table). Every call either succeeds or
 * fails; which ones fail is part of each store's state (`faults`), standing
 * for network errors and rejected requests.
 */
module Backend {
  import opened Wrappers

  datatype Status = Active | Deleted

  /**
   * A row of the `repository` table. `providerId` is the remote id; the
   * source stores `String(id)`, kept here as the number itself.
   */
  datatype RepoRecord = RepoRecord(
    id: nat,
    name: string,
    description: Option<string>,
    isPrivate: bool,
    providerId: nat,
    ownerId: string,
    status: Status)

  /** A member of the provider organization. */
  datatype Member = Member(id: nat, login: string)

  /** A repository on the remote host, with the files created in it. */
  datatype RemoteRepo = RemoteRepo(name: string, description: Option<string>, isPrivate: bool, files: map<string, string>)

  /** The provider operations the environment can make fail. */
  datatype ProviderOp = GetUserOp | CreateReposOp | CreateFileOp(path: string) | DeleteReposOp

  /** One call made to the provider, with its arguments. */
  datatype ProviderCall =
    | GetUserCall(userName: string)
    | CreateReposCall(name: string, description: Option<string>, isPrivate: bool, ownerId: string)
    | CreateFileCall(repoId: nat, path: string, content: string)
    | DeleteReposCall(repoId: nat)

  /** The first member whose login is `login`, as the GitHub `getUser` scans the member list. */
  function FirstMember(members: seq<Member>, login: string): (r: Option<Member>)
    ensures r.Some? ==> r.value in members && r.value.login == login
    ensures r.None? <==> forall m :: m in members ==> m.login != login
  {
    if |members| == 0 then None
    else if members[0].login == login then Some(members[0])
    else FirstMember(members[1..], login)
  }

  /** The remote host, as the `RepositoryProvider` interface exposes it. */
  class Provider {
    const members: seq<Member>
    const faults: set<ProviderOp>
    var repos: map<nat, RemoteRepo>
    var nextId: nat
    var calls: seq<ProviderCall>

    ghost predicate Valid()
      reads this
    {
      forall id :: id in repos ==> id < nextId
    }

    constructor (members: seq<Member>, faults: set<ProviderOp>, repos: map<nat, RemoteRepo>, nextId: nat)
      requires forall id :: id in repos ==> id < nextId
      ensures Valid()
      ensures this.members == members && this.faults == faults
      ensures this.repos == repos && this.nextId == nextId && calls == []
    {
      this.members := members;
      this.faults := faults;
      this.repos := repos;
      this.nextId := nextId;
      calls := [];
    }

    /** `getUser(userName)`: the organization member with that login, `None` for `undefined`. */
    method GetUser(userName: string) returns (r: Result<Option<Member>, string>)
      modifies this`calls
      ensures calls == old(calls) + [GetUserCall(userName)]
      ensures GetUserOp in faults ==> r.Err?
      ensures GetUserOp !in faults ==> r == Ok(FirstMember(members, userName))
    {
      calls := calls + [GetUserCall(userName)];
      if GetUserOp in faults {
        return Err("Failed to list organization members");
      }
      r := Ok(FirstMember(members, userName));
    }

    /** `createRepos`: a new remote repository under a fresh id, or "Error creating repository". */
    method CreateRepos(name: string, description: Option<string>, isPrivate: bool, ownerId: string)
      returns (r: Result<nat, string>)
      requires Valid()
      modifies this`repos, this`nextId, this`calls
      ensures Valid()
      ensures calls == old(calls) + [CreateReposCall(name, description, isPrivate, ownerId)]
      ensures CreateReposOp in faults ==> r == Err("Error creating repository") && repos == old(repos) && nextId == old(nextId)
      ensures CreateReposOp !in faults ==>
        && r == Ok(old(nextId))
        && old(nextId) !in old(repos)
        && repos == old(repos)[old(nextId) := RemoteRepo(name, description, isPrivate, map[])]
        && nextId == old(nextId) + 1
    {
      calls := calls + [CreateReposCall(name, description, isPrivate, ownerId)];
      if CreateReposOp in faults {
        return Err("Error creating repository");
      }
      var id := nextId;
      repos := repos[id := RemoteRepo(name, description, isPrivate, map[])];
      nextId := nextId + 1;
      r := Ok(id);
    }

    /** `createFile`: puts `content` at `path` in the repository `repoId`, which must exist remotely. */
    method CreateFile(repoId: nat, path: string, content: string) returns (r: Result<(), string>)
      requires Valid()
      modifies this`repos, this`calls
      ensures Valid()
      ensures calls == old(calls) + [CreateFileCall(repoId, path, content)]
      ensures r.Ok? <==> repoId in old(repos) && CreateFileOp(path) !in faults
      ensures r.Ok? ==> repos == old(repos)[repoId := old(repos)[repoId].(files := old(repos)[repoId].files[path := content])]
      ensures r.Err? ==> repos == old(repos)
    {
      calls := calls + [CreateFileCall(repoId, path, content)];
      if repoId !in repos {
        return Err("Error getting repository");
      }
      if CreateFileOp(path) in faults {
        return Err("Error creating file");
      }
      var repo := repos[repoId];
      repos := repos[repoId := repo.(files := repo.files[path := content])];
      r := Ok(());
    }

    /** `deleteRepos`: removes the remote repository; a missing one is an error, not a no-op. */
    method DeleteRepos(repoId: nat) returns (r: Result<(), string>)
      requires Valid()
      modifies this`repos, this`calls
      ensures Valid()
      ensures calls == old(calls) + [DeleteReposCall(repoId)]
      ensures r.Ok? <==> repoId in old(repos) && DeleteReposOp !in faults
      ensures r.Ok? ==> repos == old(repos) - {repoId}
      ensures r.Err? ==> r == Err("Error deleting repository") && repos == old(repos)
    {
      calls := calls + [DeleteReposCall(repoId)];
      if repoId !in repos || DeleteReposOp in faults {
        return Err("Error deleting repository");
      }
      repos := repos - {repoId};
      r := Ok(());
    }
  }

  /** The registry writes the environment can make fail. */
  datatype RegistryOp = InsertOp | UpdateOp

  /** Record ids below `bound` and pairwise distinct. */
  ghost predicate IdsBelow(records: seq<RepoRecord>, bound: nat) {
    && (forall i :: 0 <= i < |records| ==> records[i].id < bound)
    && (forall i, j :: 0 <= i < j < |records| ==> records[i].id != records[j].id)
  }

  /** `repository.findFirst({ where: { name } })`: the index of the first record with that name, whatever its status. */
  function FirstNamed(records: seq<RepoRecord>, name: string): (r: Option<nat>)
    ensures r.Some? ==> r.value < |records| && records[r.value].name == name
    ensures r.Some? ==> forall j :: 0 <= j < r.value ==> records[j].name != name
    ensures r.None? <==> forall j :: 0 <= j < |records| ==> records[j].name != name
  {
    if |records| == 0 then None
    else if records[0].name == name then Some(0)
    else match FirstNamed(records[1..], name)
      case None => None
      case Some(i) => Some(i + 1)
  }

  /** `repository.findFirst({ where: { name, status: 'ACTIVE' } })`. */
  function FirstActiveNamed(records: seq<RepoRecord>, name: string): (r: Option<nat>)
    ensures r.Some? ==> r.value < |records| && records[r.value].name == name && records[r.value].status == Active
    ensures r.Some? ==> forall j :: 0 <= j < r.value ==> !(records[j].name == name && records[j].status == Active)
    ensures r.None? <==> forall j :: 0 <= j < |records| ==> !(records[j].name == name && records[j].status == Active)
  {
    if |records| == 0 then None
    else if records[0].name == name && records[0].status == Active then Some(0)
    else match FirstActiveNamed(records[1..], name)
      case None => None
      case Some(i) => Some(i + 1)
  }

  /** The index of the record with id `id`. */
  function IndexOfId(records: seq<RepoRecord>, id: nat): (r: Option<nat>)
    ensures r.Some? ==> r.value < |records| && records[r.value].id == id
    ensures r.None? <==> forall j :: 0 <= j < |records| ==> records[j].id != id
  {
    if |records| == 0 then None
    else if records[0].id == id then Some(0)
    else match IndexOfId(records[1..], id)
      case None => None
      case Some(i) => Some(i + 1)
  }

  /** The local `repository` table, in insertion order. */
  class Registry {
    const faults: set<RegistryOp>
    var records: seq<RepoRecord>
    var nextId: nat

    ghost predicate Valid()
      reads this
    {
      IdsBelow(records, nextId)
    }

    constructor (faults: set<RegistryOp>, records: seq<RepoRecord>, nextId: nat)
      requires IdsBelow(records, nextId)
      ensures Valid() && this.faults == faults && this.records == records && this.nextId == nextId
    {
      this.faults := faults;
      this.records := records;
      this.nextId := nextId;
    }

    /**
     * `repository.create`: appends one record under a fresh id. The schema is
     * not part of this model; the new record being ACTIVE (the column's default)
     * is an assumption the ACTIVE filters rely on.
     */
    method Insert(name: string, description: Option<string>, isPrivate: bool, providerId: nat, ownerId: string)
      returns (r: Result<RepoRecord, string>)
      requires Valid()
      modifies this`records, this`nextId
      ensures Valid()
      ensures InsertOp in faults ==> r.Err? && records == old(records) && nextId == old(nextId)
      ensures InsertOp !in faults ==>
        && r == Ok(RepoRecord(old(nextId), name, description, isPrivate, providerId, ownerId, Active))
        && records == old(records) + [r.value]
        && nextId == old(nextId) + 1
    {
      if InsertOp in faults {
        return Err("Failed to create repository record");
      }
      var record := RepoRecord(nextId, name, description, isPrivate, providerId, ownerId, Active);
      records := records + [record];
      nextId := nextId + 1;
      r := Ok(record);
    }

    /** `repository.update({ where: { id }, data: { status: 'DELETED' } })`. */
    method MarkDeleted(id: nat) returns (r: Result<(), string>)
      requires Valid()
      modifies this`records
      ensures Valid()
      ensures r.Ok? <==> UpdateOp !in faults && IndexOfId(old(records), id).Some?
      ensures r.Ok? ==> var i := IndexOfId(old(records), id).value;
        records == old(records)[i := old(records)[i].(status := Deleted)]
      ensures r.Err? ==> records == old(records)
    {
      var i := IndexOfId(records, id);
      if UpdateOp in faults || i.None? {
        return Err("Failed to update repository record");
      }
      records := records[i.value := records[i.value].(status := Deleted)];
      r := Ok(());
    }
  }
}
