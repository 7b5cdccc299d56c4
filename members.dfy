/** The member traversal (`get_members` with its inner `add_member_data`):
    every page's edges are written into the caller's dictionary keyed by login,
    and the number of keys is checked against the last page's `totalCount`. */
module Members {
  import opened GitHubData
  import opened Paging

  /** The record written for one member edge: `{'login': l, 'name': n}`. */
  function MemberRecord(e: MemberEdge): Record
  {
    map["login" := Some(e.login), "name" := e.name]
  }

  /** The logins occurring in a run of edges. */
  function Logins(edges: seq<MemberEdge>): set<string>
  {
    set e | e in edges :: e.login
  }

  /** The dictionary `m` after the edges are written into it one by one. */
  function AddEdges(m: map<string, Record>, edges: seq<MemberEdge>): map<string, Record>
  {
    if edges == [] then m
    else
      var e := edges[|edges| - 1];
      AddEdges(m, edges[..|edges| - 1])[e.login := MemberRecord(e)]
  }

  /** Writing edges adds exactly their logins as keys, and leaves the entry of
      every login that does not occur among them as it was. */
  lemma {:induction false} AddEdgesKeys(m: map<string, Record>, edges: seq<MemberEdge>)
    ensures AddEdges(m, edges).Keys == m.Keys + Logins(edges)
    ensures forall l :: l in m && l !in Logins(edges) ==> AddEdges(m, edges)[l] == m[l]
  {
    if edges != [] {
      var front := edges[..|edges| - 1];
      AddEdgesKeys(m, front);
      assert edges == front + [edges[|edges| - 1]];
      assert Logins(edges) == Logins(front) + {edges[|edges| - 1].login};
    }
  }

  /** Last write wins: a login's entry is the record of the last edge carrying it. */
  lemma {:induction false} AddEdgesLastWins(m: map<string, Record>, edges: seq<MemberEdge>, i: nat)
    requires i < |edges|
    requires forall j :: i < j < |edges| ==> edges[j].login != edges[i].login
    ensures edges[i].login in AddEdges(m, edges)
    ensures AddEdges(m, edges)[edges[i].login] == MemberRecord(edges[i])
  {
    if i < |edges| - 1 {
      AddEdgesLastWins(m, edges[..|edges| - 1], i);
    }
  }

  /** Writing two runs of edges one after the other is writing their concatenation. */
  lemma {:induction false} AddEdgesAppend(m: map<string, Record>, a: seq<MemberEdge>, b: seq<MemberEdge>)
    ensures AddEdges(m, a + b) == AddEdges(AddEdges(m, a), b)
  {
    if b == [] {
      assert a + b == a;
    } else {
      var b' := b[..|b| - 1];
      assert (a + b)[..|a + b| - 1] == a + b';
      assert (a + b)[|a + b| - 1] == b[|b| - 1];
      AddEdgesAppend(m, a, b');
    }
  }

  /** `add_member_data`: writes each edge's record under its login, in order. */
  method AddMemberData(table: MemberTable, edges: seq<MemberEdge>)
    modifies table
    ensures table.entries == AddEdges(old(table.entries), edges)
  {
    for i := 0 to |edges|
      invariant table.entries == AddEdges(old(table.entries), edges[..i])
    {
      var member := edges[i];
      table.entries := table.entries[member.login := MemberRecord(member)];
      assert edges[..i + 1][..i] == edges[..i];
    }
    assert edges[..|edges|] == edges;
  }

  /** Writing the first page's edges and then those of the pages after it is
      writing the edges of the whole run. */
  lemma AddEdgesCons(m: map<string, Record>, pages: seq<Page<MemberEdge>>, j: nat)
    requires j < |pages|
    ensures AddEdges(AddEdges(m, EdgesOf(pages[0])), AllEdges(pages[1..][..j])) == AddEdges(m, AllEdges(pages[..j + 1]))
  {
    AllEdgesCons(pages, j);
    AddEdgesAppend(m, EdgesOf(pages[0]), AllEdges(pages[1..][..j]));
  }

  /** The member traversal from the request that carries `cursor` on, when
      `replies` answer the requests in turn and the dictionary holds `m`. */
  function Traverse(replies: seq<Page<MemberEdge>>, cursor: Option<Cursor>, m: map<string, Record>)
    : (r: Run<map<string, Record>>)
    ensures 1 <= |r.requests| <= |replies| + 1 && r.requests[0] == cursor
    decreases |replies|
  {
    if replies == [] then Run([cursor], m, Err(Transport))
    else if replies[0].edges.None? then Run([cursor], m, Err(MissingEdges))
    else
      var m' := AddEdges(m, replies[0].edges.value);
      if replies[0].pageInfo.hasNextPage then
        var r := Traverse(replies[1..], replies[0].pageInfo.endCursor, m');
        Run([cursor] + r.requests, r.state, r.outcome)
      else Run([cursor], m', CheckCount(|m'|, replies[0].totalCount))
  }

  /** Cursor threading: request i + 1 is sent only after reply i had edges and
      `hasNextPage`, and it carries reply i's `endCursor`. */
  lemma {:induction false} TraverseRequests(replies: seq<Page<MemberEdge>>, cursor: Option<Cursor>, m: map<string, Record>)
    ensures var r := Traverse(replies, cursor, m);
            forall i :: 0 <= i < |r.requests| - 1 ==>
              && replies[i].edges.Some? && replies[i].pageInfo.hasNextPage
              && r.requests[i + 1] == replies[i].pageInfo.endCursor
  {
    if replies != [] && replies[0].edges.Some? && replies[0].pageInfo.hasNextPage {
      var m' := AddEdges(m, replies[0].edges.value);
      TraverseRequests(replies[1..], replies[0].pageInfo.endCursor, m');
    }
  }

  /** After a failed call the dictionary holds every page fetched. */
  lemma {:induction false} TraverseTransport(replies: seq<Page<MemberEdge>>, cursor: Option<Cursor>, m: map<string, Record>)
    ensures var r := Traverse(replies, cursor, m);
            |r.requests| == |replies| + 1 ==> r.state == AddEdges(m, AllEdges(replies))
  {
    var r := Traverse(replies, cursor, m);
    if replies != [] && replies[0].edges.Some? && replies[0].pageInfo.hasNextPage && |r.requests| == |replies| + 1 {
      var e := replies[0].edges.value;
      var rest := replies[1..];
      TraverseTransport(rest, replies[0].pageInfo.endCursor, AddEdges(m, e));
      AllEdgesFirst(replies);
      AddEdgesAppend(m, e, AllEdges(rest));
    }
  }

  /** After a reply without `edges` the dictionary holds every page before it. */
  lemma {:induction false} TraverseMissing(replies: seq<Page<MemberEdge>>, cursor: Option<Cursor>, m: map<string, Record>)
    ensures var r := Traverse(replies, cursor, m); var n := |r.requests|;
            n <= |replies| && replies[n - 1].edges.None? ==> r.state == AddEdges(m, AllEdges(replies[..n - 1]))
  {
    if replies == [] {
    } else if replies[0].edges.None? {
      assert replies[..0] == [];
    } else if replies[0].pageInfo.hasNextPage {
      var m' := AddEdges(m, replies[0].edges.value);
      TraverseMissing(replies[1..], replies[0].pageInfo.endCursor, m');
      TraverseMissingStep(replies, cursor, m);
    }
  }

  /** The inductive step of `TraverseMissing`: the claim for the pages after a
      first page with edges and a next page gives the claim for the whole run. */
  lemma TraverseMissingStep(replies: seq<Page<MemberEdge>>, cursor: Option<Cursor>, m: map<string, Record>)
    requires replies != [] && replies[0].edges.Some? && replies[0].pageInfo.hasNextPage
    requires var m' := AddEdges(m, replies[0].edges.value);
             var r' := Traverse(replies[1..], replies[0].pageInfo.endCursor, m'); var n' := |r'.requests|;
             n' <= |replies[1..]| && replies[1..][n' - 1].edges.None? ==> r'.state == AddEdges(m', AllEdges(replies[1..][..n' - 1]))
    ensures var r := Traverse(replies, cursor, m); var n := |r.requests|;
            n <= |replies| && replies[n - 1].edges.None? ==> r.state == AddEdges(m, AllEdges(replies[..n - 1]))
  {
    var r' := Traverse(replies[1..], replies[0].pageInfo.endCursor, AddEdges(m, replies[0].edges.value));
    var n' := |r'.requests|;
    if n' < |replies| && replies[n'].edges.None? {
      assert replies[1..][n' - 1] == replies[n'];
      AddEdgesCons(m, replies, n' - 1);
    }
  }

  /** How a member traversal ends: a failed call or a reply without `edges` is
      an error; otherwise the last reply has no next page and the outcome is the
      count check against that reply's `totalCount`. */
  lemma {:induction false} TraverseStops(replies: seq<Page<MemberEdge>>, cursor: Option<Cursor>, m: map<string, Record>)
    ensures var r := Traverse(replies, cursor, m); var n := |r.requests|;
            && (n == |replies| + 1 ==> r.outcome == Err(Transport))
            && (n <= |replies| && replies[n - 1].edges.None? ==> r.outcome == Err(MissingEdges))
            && (n <= |replies| && replies[n - 1].edges.Some? ==>
                  && !replies[n - 1].pageInfo.hasNextPage
                  && r.outcome == CheckCount(|r.state|, replies[n - 1].totalCount))
  {
    var r := Traverse(replies, cursor, m);
    var n := |r.requests|;
    if replies != [] && replies[0].edges.Some? && replies[0].pageInfo.hasNextPage {
      var rest := replies[1..];
      var m' := AddEdges(m, replies[0].edges.value);
      var r' := Traverse(rest, replies[0].pageInfo.endCursor, m');
      assert r.requests == [cursor] + r'.requests && r.state == r'.state && r.outcome == r'.outcome;
      TraverseStops(rest, replies[0].pageInfo.endCursor, m');
      if n <= |replies| {
        assert rest[n - 2] == replies[n - 1];
      }
    }
  }

  /** A traversal that ends on a reply with edges leaves every page's edges in
      the dictionary. */
  lemma {:induction false} TraverseComplete(replies: seq<Page<MemberEdge>>, cursor: Option<Cursor>, m: map<string, Record>)
    ensures var r := Traverse(replies, cursor, m); var n := |r.requests|;
            n <= |replies| && replies[n - 1].edges.Some? ==> r.state == AddEdges(m, AllEdges(replies[..n]))
  {
    if replies == [] || replies[0].edges.None? {
    } else if !replies[0].pageInfo.hasNextPage {
      AllEdgesCons(replies, 0);
      assert replies[1..][..0] == [];
      assert AllEdges(replies[..1]) == replies[0].edges.value + [] == replies[0].edges.value;
    } else {
      var m' := AddEdges(m, replies[0].edges.value);
      TraverseComplete(replies[1..], replies[0].pageInfo.endCursor, m');
      TraverseCompleteStep(replies, cursor, m);
    }
  }

  /** The inductive step of `TraverseComplete`. */
  lemma TraverseCompleteStep(replies: seq<Page<MemberEdge>>, cursor: Option<Cursor>, m: map<string, Record>)
    requires replies != [] && replies[0].edges.Some? && replies[0].pageInfo.hasNextPage
    requires var m' := AddEdges(m, replies[0].edges.value);
             var r' := Traverse(replies[1..], replies[0].pageInfo.endCursor, m'); var n' := |r'.requests|;
             n' <= |replies[1..]| && replies[1..][n' - 1].edges.Some? ==> r'.state == AddEdges(m', AllEdges(replies[1..][..n']))
    ensures var r := Traverse(replies, cursor, m); var n := |r.requests|;
            n <= |replies| && replies[n - 1].edges.Some? ==> r.state == AddEdges(m, AllEdges(replies[..n]))
  {
    var r' := Traverse(replies[1..], replies[0].pageInfo.endCursor, AddEdges(m, replies[0].edges.value));
    var n' := |r'.requests|;
    if n' < |replies| && replies[n'].edges.Some? {
      assert replies[1..][n' - 1] == replies[n'];
      AddEdgesCons(m, replies, n');
    }
  }

  /** `get_members`. Request k is answered by `replies[k]`; a request with no
      reply left is a failed service call. `requests` lists the cursor sent with
      each request. The traversal stops after the first reply whose `hasNextPage`
      is false, then checks the number of keys against that reply's `totalCount`. */
  method GetMembers(table: MemberTable, replies: seq<Page<MemberEdge>>)
    returns (requests: seq<Option<Cursor>>, outcome: Result<int>)
    modifies table
    ensures Run(requests, table.entries, outcome) == Traverse(replies, None, old(table.entries))
  {
    ghost var run := Traverse(replies, None, table.entries);
    // The source sends the first, cursor-less request before its loop; starting
    // the loop with no cursor and `hasNextPage` set sends the same requests.
    var endCursor: Option<Cursor> := None;
    var hasNextPage := true;
    var k := 0;
    requests := [];
    while hasNextPage
      invariant k <= |replies|
      invariant hasNextPage ==>
                  var r := Traverse(replies[k..], endCursor, table.entries);
                  Run(requests + r.requests, r.state, r.outcome) == run
      invariant !hasNextPage ==>
                  0 < k && Run(requests, table.entries, CheckCount(|table.entries|, replies[k - 1].totalCount)) == run
      decreases |replies| - k, hasNextPage
    {
      requests := requests + [endCursor];
      if k == |replies| {
        outcome := Err(Transport);
        return;
      }
      var ret := replies[k];
      if ret.edges.None? {
        outcome := Err(MissingEdges);
        return;
      }
      assert replies[k..][1..] == replies[k + 1..];
      AddMemberData(table, ret.edges.value);
      hasNextPage := ret.pageInfo.hasNextPage;
      endCursor := ret.pageInfo.endCursor;
      k := k + 1;
    }
    // the count check uses the `totalCount` of the last reply only
    outcome := CheckCount(|table.entries|, replies[k - 1].totalCount);
  }
}
