/**
 * `repos:list` (list-repos.command.ts): the ACTIVE records, one table row
 * each, in the order the registry returns them. The token is only checked
 * for presence, never verified. Printed lines are returned in order; colours
 * are not modelled.
 */
module ListRepos {
  import opened Wrappers
  import opened Text
  import opened TokenStore
  import opened Backend

  const NameWidth := 20
  const DescriptionWidth := 30
  const PrivateWidth := 10

  /**
   * `truncate(str, maxLength)`: `str` itself when it fits, otherwise
   * `str.slice(0, maxLength - 3) + '...'`, which is exactly `maxLength` long
   * when `maxLength` is at least 3.
   */
  function Truncate(s: string, maxLength: int): (r: string)
    ensures |s| <= maxLength ==> r == s
    ensures |s| > maxLength ==> 3 <= |r| <= |s| + 3 && r[|r| - 3..] == "..." && r[..|r| - 3] == s[..|r| - 3]
    ensures |s| > maxLength && maxLength >= 3 ==> |r| == maxLength
    ensures maxLength >= 3 ==> |r| <= maxLength
  {
    if |s| > maxLength then SliceTo(s, maxLength - 3) + "..." else s
  }

  /** Below 3 the slice end is negative and counts from the end, so the result is longer than the limit. */
  lemma TruncateBelowThree()
    ensures Truncate("abcde", 2) == "abcd..."
  {
    assert SliceTo("abcde", -1) == "abcd";
  }

  /** `findMany({ where: { status: 'ACTIVE' } })`: the ACTIVE records in registry order. */
  function ActiveRecords(records: seq<RepoRecord>): (r: seq<RepoRecord>)
    ensures |r| <= |records|
    ensures forall i :: 0 <= i < |r| ==> r[i].status == Active
  {
    if records == [] then []
    else (if records[0].status == Active then [records[0]] else []) + ActiveRecords(records[1..])
  }

  /** A record is listed exactly when it is in the registry and ACTIVE. */
  lemma {:induction false} ActiveRecordsMembers(records: seq<RepoRecord>, x: RepoRecord)
    ensures x in ActiveRecords(records) <==> x in records && x.status == Active
  {
    if records != [] {
      ActiveRecordsMembers(records[1..], x);
      assert records == [records[0]] + records[1..];
    }
  }

  /** Filtering keeps registry order: the ACTIVE records of `xs + ys` are those of `xs`, then those of `ys`. */
  lemma {:induction false} ActiveRecordsAppend(xs: seq<RepoRecord>, ys: seq<RepoRecord>)
    ensures ActiveRecords(xs + ys) == ActiveRecords(xs) + ActiveRecords(ys)
  {
    if xs == [] {
      assert xs + ys == ys;
    } else {
      assert (xs + ys)[1..] == xs[1..] + ys;
      ActiveRecordsAppend(xs[1..], ys);
    }
  }

  /** A single ACTIVE record is listed on its own. */
  lemma ActiveSingleton(x: RepoRecord)
    requires x.status == Active
    ensures ActiveRecords([x]) == [x]
  {
    assert [x][1..] == [];
  }

  /** Records created one after the other are listed in creation order, after the earlier ones. */
  lemma ListedInCreationOrder(records: seq<RepoRecord>, first: RepoRecord, second: RepoRecord)
    requires first.status == Active && second.status == Active
    ensures ActiveRecords(records + [first] + [second]) == ActiveRecords(records) + [first, second]
  {
    ActiveRecordsAppend(records + [first], [second]);
    ActiveRecordsAppend(records, [first]);
    ActiveSingleton(first);
    ActiveSingleton(second);
    calc {
      ActiveRecords(records + [first] + [second]);
      ActiveRecords(records + [first]) + ActiveRecords([second]);
      ActiveRecords(records) + [first] + [second];
      ActiveRecords(records) + [first, second];
    }
  }

  /** The four cells of a table row, already padded. */
  datatype Row = Row(name: string, description: string, isPrivate: string, ownerId: string)

  /** `buildTable`'s cells for one record. */
  function BuildRow(record: RepoRecord): (row: Row)
    // the name is padded to at least 20 characters and never truncated
    ensures |row.name| == (if |record.name| >= NameWidth then |record.name| else NameWidth)
    ensures row.name[..|record.name|] == record.name
    ensures forall i :: |record.name| <= i < |row.name| ==> row.name[i] == ' '
    // the description column is always exactly 30 wide; a missing or empty description reads "No description"
    ensures |row.description| == DescriptionWidth
    ensures Falsy(record.description) ==> row.description == PadEnd("No description", DescriptionWidth)
    ensures !Falsy(record.description) && |record.description.value| <= DescriptionWidth ==>
              row.description == PadEnd(record.description.value, DescriptionWidth)
    ensures !Falsy(record.description) && |record.description.value| > DescriptionWidth ==>
              row.description == record.description.value[..DescriptionWidth - 3] + "..."
    ensures row.isPrivate == PadEnd(if record.isPrivate then "Yes" else "No", PrivateWidth)
    ensures row.ownerId == record.ownerId
  {
    var description := if Falsy(record.description) then "No description" else record.description.value;
    Row(PadEnd(record.name, NameWidth),
        PadEnd(Truncate(description, DescriptionWidth), DescriptionWidth),
        PadEnd(if record.isPrivate then "Yes" else "No", PrivateWidth),
        record.ownerId)
  }

  function RenderRow(row: Row): string {
    row.name + " | " + row.description + " | " + row.isPrivate + " | " + row.ownerId
  }

  function Dashes(n: nat): (r: string)
    ensures |r| == n && forall i :: 0 <= i < n ==> r[i] == '-'
  {
    if n == 0 then [] else Dashes(n - 1) + "-"
  }

  /** `buildHeader` and the rule under it. */
  function Header(): seq<string> {
    [ "Repositories:",
      PadEnd("Name", NameWidth) + " | " + PadEnd("Description", DescriptionWidth) + " | " +
        PadEnd("Private", PrivateWidth) + " | " + "Owner ID",
      Dashes(70) ]
  }

  const NotLoggedInMessage := "You must be logged in to list repositories."
  const EmptyMessage := "No repositories found."

  /** The header, then one row per record in order. */
  method RenderTable(repoList: seq<RepoRecord>) returns (lines: seq<string>)
    ensures |lines| == 3 + |repoList|
    ensures lines[..3] == Header()
    ensures forall i :: 0 <= i < |repoList| ==> lines[3 + i] == RenderRow(BuildRow(repoList[i]))
  {
    lines := Header();
    for i := 0 to |repoList|
      invariant |lines| == 3 + i
      invariant lines[..3] == Header()
      invariant forall k :: 0 <= k < i ==> lines[3 + k] == RenderRow(BuildRow(repoList[k]))
    {
      lines := lines + [RenderRow(BuildRow(repoList[i]))];
    }
  }

  class ListReposCommand {
    constructor () {}

    /** `run`: the lines it prints. */
    method Run(fs: FileSystem, env: Env, registry: Registry) returns (lines: seq<string>)
      modifies fs
      ensures fs.files == old(fs.files)
      ensures fs.dirs == EnsureConfigDir(old(fs.files), old(fs.dirs), env)
      ensures Falsy(LoadToken(old(fs.files), env)) ==> lines == [NotLoggedInMessage]
      ensures !Falsy(LoadToken(old(fs.files), env)) && ActiveRecords(registry.records) == [] ==> lines == [EmptyMessage]
      ensures !Falsy(LoadToken(old(fs.files), env)) && ActiveRecords(registry.records) != [] ==>
                |lines| == 3 + |ActiveRecords(registry.records)| && lines[..3] == Header() &&
                forall i :: 0 <= i < |ActiveRecords(registry.records)| ==>
                  lines[3 + i] == RenderRow(BuildRow(ActiveRecords(registry.records)[i]))
    {
      var token := GetToken(fs, env);
      if Falsy(token) {
        return [NotLoggedInMessage];
      }

      var repoList := ActiveRecords(registry.records);
      if |repoList| == 0 {
        return [EmptyMessage];
      }

      lines := RenderTable(repoList);
    }
  }
}
