/** The join (`process_repo_list`): one column heading per repository, and each
    collaborator's permission written into the record of the member with that login. */
module Aggregate {
  import opened GitHubData

  /** A repository's column heading: its name, marked when it is archived. */
  function Heading(repo: RepoEdge): string
  {
    if repo.isArchived then repo.name + "(ARCHIVED)" else repo.name
  }

  /** The collaborator edges the join visits: none when `collaborators` is null
      or has no `edges` key. */
  function CollaboratorsOf(repo: RepoEdge): seq<Collaborator>
  {
    if repo.collaborators.Edges? then repo.collaborators.edges else []
  }

  /** A record's cell in a column: None when the record has no such key (a blank
      cell in the report), otherwise the value stored there. */
  function Cell(row: Record, column: string): Option<Option<string>>
  {
    if column in row then Some(row[column]) else None
  }

  /** The member map after one repository's collaborator edges are written, in
      order, under `heading`; edges whose login is not a key are dropped. */
  function JoinCollaborators(m: map<string, Record>, heading: string, cs: seq<Collaborator>): map<string, Record>
  {
    if cs == [] then m
    else
      var c := cs[|cs| - 1];
      var m' := JoinCollaborators(m, heading, cs[..|cs| - 1]);
      if c.login in m' then m'[c.login := m'[c.login][heading := Some(c.permission)]] else m'
  }

  /** The member map after every repository is joined, in order. */
  function Join(m: map<string, Record>, repos: seq<RepoEdge>): map<string, Record>
  {
    if repos == [] then m
    else
      var r := repos[|repos| - 1];
      JoinCollaborators(Join(m, repos[..|repos| - 1]), Heading(r), CollaboratorsOf(r))
  }

  /** Reference for one cell: the permission of the last edge in `cs` with this login. */
  function LastIn(cs: seq<Collaborator>, login: string): (r: Option<string>)
    ensures r.None? <==> forall i :: 0 <= i < |cs| ==> cs[i].login != login
    ensures r.Some? ==> exists i :: 0 <= i < |cs| && cs[i].login == login && cs[i].permission == r.value
                                    && forall j :: i < j < |cs| ==> cs[j].login != login
  {
    if cs == [] then None
    else if cs[|cs| - 1].login == login then Some(cs[|cs| - 1].permission)
    else LastIn(cs[..|cs| - 1], login)
  }

  /** Reference for one cell: the permission of the last collaborator edge with
      this login among the repositories whose heading is `heading`. */
  function LastPermission(repos: seq<RepoEdge>, login: string, heading: string): Option<string>
  {
    if repos == [] then None
    else
      var r := repos[|repos| - 1];
      var p := LastIn(CollaboratorsOf(r), login);
      if Heading(r) == heading && p.Some? then p else LastPermission(repos[..|repos| - 1], login, heading)
  }

  /** The join of one repository adds and removes no member. */
  lemma {:induction false} JoinCollaboratorsKeys(m: map<string, Record>, heading: string, cs: seq<Collaborator>)
    ensures JoinCollaborators(m, heading, cs).Keys == m.Keys
  {
    if cs != [] {
      JoinCollaboratorsKeys(m, heading, cs[..|cs| - 1]);
    }
  }

  /** `process_repo_list` adds and removes no member. */
  lemma {:induction false} JoinKeys(m: map<string, Record>, repos: seq<RepoEdge>)
    ensures Join(m, repos).Keys == m.Keys
  {
    if repos != [] {
      var r := repos[|repos| - 1];
      JoinKeys(m, repos[..|repos| - 1]);
      JoinCollaboratorsKeys(Join(m, repos[..|repos| - 1]), Heading(r), CollaboratorsOf(r));
    }
  }

  /** A collaborator whose login is not a member changes nothing. */
  lemma UnknownCollaboratorIgnored(m: map<string, Record>, heading: string, cs: seq<Collaborator>, c: Collaborator)
    requires c.login !in m
    ensures JoinCollaborators(m, heading, cs + [c]) == JoinCollaborators(m, heading, cs)
  {
    assert (cs + [c])[..|cs|] == cs;
    JoinCollaboratorsKeys(m, heading, cs);
  }

  /** One repository's join, cell by cell: a member's cell under `heading` holds
      the permission of its last edge there, and every other cell is unchanged. */
  lemma {:induction false} JoinCollaboratorsCell(m: map<string, Record>, heading: string, cs: seq<Collaborator>,
                                                 login: string, column: string)
    requires login in m
    ensures login in JoinCollaborators(m, heading, cs)
    ensures Cell(JoinCollaborators(m, heading, cs)[login], column) ==
            if column == heading && LastIn(cs, login).Some? then Some(LastIn(cs, login)) else Cell(m[login], column)
  {
    if cs != [] {
      JoinCollaboratorsCell(m, heading, cs[..|cs| - 1], login, column);
    }
  }

  /** After `process_repo_list`, a member's cell under a heading holds the
      permission of the last collaborator edge with that login among the
      repositories with that heading; with no such edge it is as it was. */
  lemma {:induction false} JoinCell(m: map<string, Record>, repos: seq<RepoEdge>, login: string, column: string)
    requires login in m
    ensures login in Join(m, repos)
    ensures Cell(Join(m, repos)[login], column) ==
            if LastPermission(repos, login, column).Some? then Some(LastPermission(repos, login, column))
            else Cell(m[login], column)
  {
    if repos != [] {
      var r := repos[|repos| - 1];
      var front := repos[..|repos| - 1];
      JoinCell(m, front, login, column);
      JoinCollaboratorsCell(Join(m, front), Heading(r), CollaboratorsOf(r), login, column);
    }
  }

  /** A repository whose `collaborators` is null or has no `edges` key gives a
      heading but writes no cell. */
  lemma NoEdgesNoCells(m: map<string, Record>, repos: seq<RepoEdge>, repo: RepoEdge)
    requires !repo.collaborators.Edges?
    ensures Join(m, repos + [repo]) == Join(m, repos)
  {
    assert (repos + [repo])[..|repos|] == repos;
  }

  /** An archived repository's column is distinct from that of an unarchived
      repository with the same name. */
  lemma ArchivedHeadingDistinct(archived: RepoEdge, live: RepoEdge)
    requires archived.isArchived && !live.isArchived && archived.name == live.name
    ensures Heading(archived) != Heading(live)
  {
    assert |Heading(archived)| == |live.name| + 10;
  }

  /** Records are flat: a repository whose heading is `login` overwrites the
      member's own `login` field with the permission. */
  lemma HeadingOverwritesLogin(m: map<string, Record>, repos: seq<RepoEdge>, login: string)
    requires login in m && LastPermission(repos, login, "login").Some?
    ensures login in Join(m, repos)
    ensures "login" in Join(m, repos)[login]
    ensures Join(m, repos)[login]["login"] == Some(LastPermission(repos, login, "login").value)
  {
    JoinCell(m, repos, login, "login");
  }

  /** `process_repo_list`: returns the headings, one per repository in order,
      and writes every permission of a known member into its record. */
  method ProcessRepoList(repos: seq<RepoEdge>, table: MemberTable) returns (headings: seq<string>)
    modifies table
    ensures |headings| == |repos|
    ensures forall i :: 0 <= i < |repos| ==> headings[i] == Heading(repos[i])
    ensures table.entries == Join(old(table.entries), repos)
  {
    headings := [];
    for i := 0 to |repos|
      invariant |headings| == i
      invariant forall j :: 0 <= j < i ==> headings[j] == Heading(repos[j])
      invariant table.entries == Join(old(table.entries), repos[..i])
    {
      var repo := repos[i];
      var repoName := Heading(repo);
      headings := headings + [repoName];
      ghost var before := table.entries;
      if repo.collaborators.Edges? {
        var cs := repo.collaborators.edges;
        for j := 0 to |cs|
          invariant table.entries == JoinCollaborators(before, repoName, cs[..j])
        {
          var login := cs[j].login;
          var permission := cs[j].permission;
          if login in table.entries {
            table.entries := table.entries[login := table.entries[login][repoName := Some(permission)]];
          }
          assert cs[..j + 1][..j] == cs[..j];
        }
        assert cs[..|cs|] == cs;
      }
      assert repos[..i + 1][..i] == repos[..i];
    }
    assert repos[..|repos|] == repos;
  }
}
