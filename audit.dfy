/** Facts that connect the stages of a run: what the records look like after
    the member traversal and the join, and a worked two-member organization. */
module Audit {
  import opened GitHubData
  import opened Members
  import opened Aggregate
  import opened Report
  import Repos

  /** Every record's `login` field holds the login it is keyed by. */
  ghost predicate LoginFieldsMatchKeys(m: map<string, Record>)
  {
    forall l :: l in m ==> "login" in m[l] && m[l]["login"] == Some(l)
  }

  /** The member traversal keeps every record's `login` field equal to its key. */
  lemma {:induction false} AddEdgesLoginFields(m: map<string, Record>, edges: seq<MemberEdge>)
    requires LoginFieldsMatchKeys(m)
    ensures LoginFieldsMatchKeys(AddEdges(m, edges))
  {
    if edges != [] {
      AddEdgesLoginFields(m, edges[..|edges| - 1]);
    }
  }

  /** Without a repository headed `login`, no cell of that column is ever written. */
  lemma {:induction false} NoLoginHeadingNoLoginCell(repos: seq<RepoEdge>, login: string)
    requires forall i :: 0 <= i < |repos| ==> Heading(repos[i]) != "login"
    ensures LastPermission(repos, login, "login").None?
  {
    if repos != [] {
      NoLoginHeadingNoLoginCell(repos[..|repos| - 1], login);
    }
  }

  /** The join writes only strings, so every record keeps a string `login`
      field and the row sort key stays defined. */
  lemma JoinKeepsLoginPresent(m: map<string, Record>, repos: seq<RepoEdge>)
    requires LoginFieldsPresent(m)
    ensures LoginFieldsPresent(Join(m, repos))
  {
    JoinKeys(m, repos);
    forall l | l in Join(m, repos)
      ensures "login" in Join(m, repos)[l] && Join(m, repos)[l]["login"].Some?
    {
      JoinCell(m, repos, l, "login");
    }
  }

  /** Unless some repository is headed `login`, the join leaves every record's
      `login` field equal to its key, so rows sort by the member's login. */
  lemma JoinKeepsLoginFields(m: map<string, Record>, repos: seq<RepoEdge>)
    requires LoginFieldsMatchKeys(m)
    requires forall i :: 0 <= i < |repos| ==> Heading(repos[i]) != "login"
    ensures LoginFieldsMatchKeys(Join(m, repos))
  {
    JoinKeys(m, repos);
    forall l | l in Join(m, repos)
      ensures "login" in Join(m, repos)[l] && Join(m, repos)[l]["login"] == Some(l)
    {
      JoinCell(m, repos, l, "login");
      NoLoginHeadingNoLoginCell(repos, l);
    }
  }

  /** The member records of the worked example. */
  function AliceRecord(): Record { map["login" := Some("alice"), "name" := Some("Alice")] }
  function BobRecord(): Record { map["login" := Some("bob"), "name" := Some("Bob")] }

  lemma ScenarioMembers()
    ensures AddEdges(map[], [MemberEdge("alice", Some("Alice")), MemberEdge("bob", Some("Bob"))])
            == map["alice" := AliceRecord(), "bob" := BobRecord()]
  {
    var ea, eb := MemberEdge("alice", Some("Alice")), MemberEdge("bob", Some("Bob"));
    assert [ea, eb][..1] == [ea] && [ea][..0] == [];
    assert AddEdges(map[], [ea]) == map["alice" := AliceRecord()];
  }

  /** The live repository `core` writes alice's permission under `core`. */
  lemma ScenarioJoinCore()
    ensures Join(map["alice" := AliceRecord(), "bob" := BobRecord()],
                 [RepoEdge("core", false, Edges([Collaborator("alice", "ADMIN")]))])
            == map["alice" := AliceRecord()["core" := Some("ADMIN")], "bob" := BobRecord()]
  {
    var members := map["alice" := AliceRecord(), "bob" := BobRecord()];
    var ca := Collaborator("alice", "ADMIN");
    var core := RepoEdge("core", false, Edges([ca]));
    assert [ca][..0] == [] && [core][..0] == [];
    assert JoinCollaborators(members, "core", [ca]) == members["alice" := AliceRecord()["core" := Some("ADMIN")]];
  }

  lemma ScenarioJoin()
    ensures Join(map["alice" := AliceRecord(), "bob" := BobRecord()],
                 [RepoEdge("core", false, Edges([Collaborator("alice", "ADMIN")])),
                  RepoEdge("old", true, Edges([Collaborator("bob", "READ")]))])
            == map["alice" := AliceRecord()["core" := Some("ADMIN")],
                   "bob" := BobRecord()["old(ARCHIVED)" := Some("READ")]]
  {
    var cb := Collaborator("bob", "READ");
    var core := RepoEdge("core", false, Edges([Collaborator("alice", "ADMIN")]));
    var archived := RepoEdge("old", true, Edges([cb]));
    var afterCore := map["alice" := AliceRecord()["core" := Some("ADMIN")], "bob" := BobRecord()];
    assert Heading(archived) == "old(ARCHIVED)" by {
      assert "old" + "(ARCHIVED)" == "old(ARCHIVED)";
    }
    ScenarioJoinCore();
    assert [core, archived][..1] == [core] && [cb][..0] == [];
    assert JoinCollaborators(afterCore, "old(ARCHIVED)", [cb]) == afterCore["bob" := BobRecord()["old(ARCHIVED)" := Some("READ")]];
  }

  lemma ScenarioRows(alice: Record, bob: Record)
    requires LoginKey(alice) == "alice" && LoginKey(bob) == "bob"
    ensures SortBy([alice, bob], LoginKey) == [alice, bob]
    ensures SortBy([bob, alice], LoginKey) == [alice, bob]
  {
    assert LexLe("alice", "bob") && !LexLe("bob", "alice");
    assert [alice, bob][1..] == [bob] && [bob][1..] == [];
    assert [bob, alice][1..] == [alice] && [alice][1..] == [];
    assert SortBy([bob], LoginKey) == [bob];
    assert SortBy([alice], LoginKey) == [alice];
    assert Insert(bob, [alice], LoginKey) == [alice] + Insert(bob, [], LoginKey);
  }

  /** The header of the scenario: the live repository under its name, the
      archived one marked. */
  lemma ScenarioHeader()
    ensures var repos := [RepoEdge("core", false, Edges([Collaborator("alice", "ADMIN")])),
                          RepoEdge("old", true, Edges([Collaborator("bob", "READ")]))];
            ["login", "name"] + [Heading(repos[0]), Heading(repos[1])] == ["login", "name", "core", "old(ARCHIVED)"]
  {
    assert "old" + "(ARCHIVED)" == "old(ARCHIVED)";
  }

  /** Two members, one live and one archived repository: each member gets the
      permission of its repository under that repository's heading, the header
      lists both headings after `login` and `name`, and the rows come out in
      login order whichever order the dictionary lists them. */
  lemma TwoMemberScenario()
    ensures var members := AddEdges(map[], [MemberEdge("alice", Some("Alice")), MemberEdge("bob", Some("Bob"))]);
            var repos := [RepoEdge("core", false, Edges([Collaborator("alice", "ADMIN")])),
                          RepoEdge("old", true, Edges([Collaborator("bob", "READ")]))];
            var alice := map["login" := Some("alice"), "name" := Some("Alice"), "core" := Some("ADMIN")];
            var bob := map["login" := Some("bob"), "name" := Some("Bob"), "old(ARCHIVED)" := Some("READ")];
            && Join(members, repos) == map["alice" := alice, "bob" := bob]
            && ["login", "name"] + [Heading(repos[0]), Heading(repos[1])] == ["login", "name", "core", "old(ARCHIVED)"]
            && SortBy([alice, bob], LoginKey) == [alice, bob]
            && SortBy([bob, alice], LoginKey) == [alice, bob]
  {
    ScenarioMembers();
    ScenarioJoin();
    ScenarioHeader();
    var alice := map["login" := Some("alice"), "name" := Some("Alice"), "core" := Some("ADMIN")];
    var bob := map["login" := Some("bob"), "name" := Some("Bob"), "old(ARCHIVED)" := Some("READ")];
    assert AliceRecord()["core" := Some("ADMIN")] == alice;
    assert BobRecord()["old(ARCHIVED)" := Some("READ")] == bob;
    assert CaseFold("alice") == "alice" && CaseFold("bob") == "bob";
    ScenarioRows(alice, bob);
  }

  /** The member traversal keeps every record's `login` field equal to its key. */
  lemma {:induction false} TraverseLoginFields(replies: seq<Page<MemberEdge>>, cursor: Option<Cursor>, m: map<string, Record>)
    requires LoginFieldsMatchKeys(m)
    ensures LoginFieldsMatchKeys(Members.Traverse(replies, cursor, m).state)
  {
    if replies != [] && replies[0].edges.Some? {
      AddEdgesLoginFields(m, replies[0].edges.value);
      if replies[0].pageInfo.hasNextPage {
        TraverseLoginFields(replies[1..], replies[0].pageInfo.endCursor, AddEdges(m, replies[0].edges.value));
      }
    }
  }

  /** The entry point: the member traversal into an empty dictionary, the
      repository traversal into an empty list, the join, then the columns and
      the sorted rows. A failed traversal ends the run with its error and no
      report. */
  method AuditRun(memberReplies: seq<Page<MemberEdge>>, repoReplies: seq<Page<RepoEdge>>)
    returns (report: Result<Csv>, ghost order: seq<string>)
    ensures var members := Members.Traverse(memberReplies, None, map[]);
            var repos := Repos.Traverse(repoReplies, None, [], true);
            && (members.outcome.Err? ==> report == Err(members.outcome.error))
            && (members.outcome.Ok? && repos.outcome.Err? ==> report == Err(repos.outcome.error))
            && (members.outcome.Ok? && repos.outcome.Ok? ==>
                  && report.Ok?
                  && |report.value.columns| == 2 + |repos.state|
                  && report.value.columns[..2] == ["login", "name"]
                  && (forall i :: 0 <= i < |repos.state| ==> report.value.columns[i + 2] == Heading(repos.state[i]))
                  && |report.value.rows| == |members.state|
                  && SortedBy(report.value.rows, LoginKey))
    ensures var members := Members.Traverse(memberReplies, None, map[]);
            var repos := Repos.Traverse(repoReplies, None, [], true);
            var joined := Join(members.state, repos.state);
            members.outcome.Ok? && repos.outcome.Ok? ==>
              && report.Ok?
              && Enumerates(order, joined.Keys) && joined.Keys == members.state.Keys
              && multiset(report.value.rows) == multiset(ValuesIn(joined, order))
  {
    var table := new MemberTable();
    var _, memberOutcome := GetMembers(table, memberReplies);
    if memberOutcome.Err? {
      return Err(memberOutcome.error), [];
    }
    var list := new RepoList();
    var _, repoOutcome := Repos.GetReposAndPerms(list, repoReplies);
    if repoOutcome.Err? {
      return Err(repoOutcome.error), [];
    }
    TraverseLoginFields(memberReplies, None, map[]);
    JoinKeepsLoginPresent(table.entries, list.items);
    var headings := ProcessRepoList(list.items, table);
    JoinKeys(Members.Traverse(memberReplies, None, map[]).state, list.items);
    var csv;
    csv, order := PrepareReport(table.entries, headings);
    report := Ok(csv);
  }
}
