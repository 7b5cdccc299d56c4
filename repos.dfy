/** The repository traversal (`get_repos_and_perms`): every page's edges are
    appended to the caller's list, a later page without an `edges` key is
    skipped, and the list's length is checked against the last page's `totalCount`. */
module Repos {
  import opened GitHubData
  import opened Paging

  /** The repository traversal from the request that carries `cursor` on, when
      `replies` answer the requests in turn and the list holds `items`. `first`
      says whether this request is the first one, which is sent outside the
      `try`: a first reply without `edges` aborts the traversal, a later one
      contributes nothing. */
  function Traverse(replies: seq<Page<RepoEdge>>, cursor: Option<Cursor>, items: seq<RepoEdge>, first: bool)
    : (r: Run<seq<RepoEdge>>)
    ensures 1 <= |r.requests| <= |replies| + 1 && r.requests[0] == cursor
    decreases |replies|
  {
    if replies == [] then Run([cursor], items, Err(Transport))
    else if first && replies[0].edges.None? then Run([cursor], items, Err(MissingEdges))
    else
      var items' := items + EdgesOf(replies[0]);
      if replies[0].pageInfo.hasNextPage then
        var r := Traverse(replies[1..], replies[0].pageInfo.endCursor, items', false);
        Run([cursor] + r.requests, r.state, r.outcome)
      else Run([cursor], items', CheckCount(|items'|, replies[0].totalCount))
  }

  /** Cursor threading: request i + 1 is sent only after reply i had
      `hasNextPage`, and it carries reply i's `endCursor`; a second request
      follows only a first reply with edges. */
  lemma {:induction false} TraverseRequests(replies: seq<Page<RepoEdge>>, cursor: Option<Cursor>, items: seq<RepoEdge>, first: bool)
    ensures var r := Traverse(replies, cursor, items, first);
            && (forall i :: 0 <= i < |r.requests| - 1 ==>
                  replies[i].pageInfo.hasNextPage && r.requests[i + 1] == replies[i].pageInfo.endCursor)
            && (first && |r.requests| > 1 ==> replies[0].edges.Some?)
  {
    if replies != [] && !(first && replies[0].edges.None?) && replies[0].pageInfo.hasNextPage {
      TraverseRequests(replies[1..], replies[0].pageInfo.endCursor, items + EdgesOf(replies[0]), false);
    }
  }

  /** How a repository traversal ends: a failed call, or a first reply without
      `edges`, is an error (the latter leaves the list as it was); otherwise the last reply has no next page and the
      outcome is the count check against that reply's `totalCount`. */
  lemma {:induction false} TraverseStops(replies: seq<Page<RepoEdge>>, cursor: Option<Cursor>, items: seq<RepoEdge>, first: bool)
    ensures var r := Traverse(replies, cursor, items, first); var n := |r.requests|;
            && (n == |replies| + 1 ==> r.outcome == Err(Transport))
            && (first && replies != [] && replies[0].edges.None? ==>
                  n == 1 && r.outcome == Err(MissingEdges) && r.state == items)
            && (n <= |replies| && !(first && replies[0].edges.None?) ==>
                  && !replies[n - 1].pageInfo.hasNextPage
                  && r.outcome == CheckCount(|r.state|, replies[n - 1].totalCount))
  {
    var r := Traverse(replies, cursor, items, first);
    var n := |r.requests|;
    if replies != [] && !(first && replies[0].edges.None?) && replies[0].pageInfo.hasNextPage {
      var rest := replies[1..];
      var r' := Traverse(rest, replies[0].pageInfo.endCursor, items + EdgesOf(replies[0]), false);
      assert r.requests == [cursor] + r'.requests && r.state == r'.state && r.outcome == r'.outcome;
      TraverseStops(rest, replies[0].pageInfo.endCursor, items + EdgesOf(replies[0]), false);
      if n <= |replies| {
        assert rest[n - 2] == replies[n - 1];
      }
    }
  }

  /** After a failed call the list holds the caller's items followed by the
      edges of every page fetched, in fetch order; a later page without `edges`
      contributes nothing. */
  lemma {:induction false} TraverseTransport(replies: seq<Page<RepoEdge>>, cursor: Option<Cursor>, items: seq<RepoEdge>, first: bool)
    ensures var r := Traverse(replies, cursor, items, first);
            |r.requests| == |replies| + 1 ==> r.state == items + AllEdges(replies)
  {
    var r := Traverse(replies, cursor, items, first);
    if replies != [] && !(first && replies[0].edges.None?) && replies[0].pageInfo.hasNextPage
       && |r.requests| == |replies| + 1 {
      var e := EdgesOf(replies[0]);
      var rest := replies[1..];
      var r' := Traverse(rest, replies[0].pageInfo.endCursor, items + e, false);
      assert r.requests == [cursor] + r'.requests && r.state == r'.state;
      TraverseTransport(rest, replies[0].pageInfo.endCursor, items + e, false);
      AllEdgesFirst(replies);
      assert (items + e) + AllEdges(rest) == items + (e + AllEdges(rest));
    }
  }

  /** A traversal that ends on a reply leaves in the list the caller's items
      followed by the edges of every page, in fetch order; a later page without
      `edges` contributes nothing. */
  lemma {:induction false} TraverseComplete(replies: seq<Page<RepoEdge>>, cursor: Option<Cursor>, items: seq<RepoEdge>, first: bool)
    ensures var r := Traverse(replies, cursor, items, first); var n := |r.requests|;
            n <= |replies| && !(first && replies[0].edges.None?) ==> r.state == items + AllEdges(replies[..n])
  {
    var r := Traverse(replies, cursor, items, first);
    var n := |r.requests|;
    if replies == [] || (first && replies[0].edges.None?) || n > |replies| {
    } else if !replies[0].pageInfo.hasNextPage {
      AllEdgesCons(replies, 0);
      assert replies[1..][..0] == [];
      assert AllEdges(replies[..1]) == EdgesOf(replies[0]) + [] == EdgesOf(replies[0]);
    } else {
      var e := EdgesOf(replies[0]);
      var rest := replies[1..];
      var r' := Traverse(rest, replies[0].pageInfo.endCursor, items + e, false);
      assert r.requests == [cursor] + r'.requests && r.state == r'.state;
      var n' := n - 1;
      TraverseComplete(rest, replies[0].pageInfo.endCursor, items + e, false);
      AllEdgesCons(replies, n');
      assert (items + e) + AllEdges(rest[..n']) == items + (e + AllEdges(rest[..n']));
    }
  }

  /** `get_repos_and_perms`. Request k is answered by `replies[k]`; a request
      with no reply left is a failed service call. `requests` lists the cursor
      sent with each request. The traversal stops after the first reply whose
      `hasNextPage` is false, then checks the list's length against that
      reply's `totalCount`. */
  method GetReposAndPerms(repos: RepoList, replies: seq<Page<RepoEdge>>)
    returns (requests: seq<Option<Cursor>>, outcome: Result<int>)
    modifies repos
    ensures Run(requests, repos.items, outcome) == Traverse(replies, None, old(repos.items), true)
  {
    ghost var run := Traverse(replies, None, repos.items, true);
    // The source sends the first, cursor-less request before its loop; starting
    // the loop with no cursor and `hasNextPage` set sends the same requests.
    var endCursor: Option<Cursor> := None;
    var hasNextPage := true;
    var k := 0;
    requests := [];
    while hasNextPage
      invariant k <= |replies|
      invariant hasNextPage ==>
                  var r := Traverse(replies[k..], endCursor, repos.items, k == 0);
                  Run(requests + r.requests, r.state, r.outcome) == run
      invariant !hasNextPage ==>
                  0 < k && Run(requests, repos.items, CheckCount(|repos.items|, replies[k - 1].totalCount)) == run
      decreases |replies| - k, hasNextPage
    {
      requests := requests + [endCursor];
      if k == |replies| {
        outcome := Err(Transport);
        return;
      }
      var ret := replies[k];
      if k == 0 && ret.edges.None? {
        // the first page is read outside the `try`: the missing key aborts
        outcome := Err(MissingEdges);
        return;
      }
      // later pages are read inside the `try`: a missing key adds nothing
      repos.items := repos.items + EdgesOf(ret);
      assert replies[k..][1..] == replies[k + 1..];
      hasNextPage := ret.pageInfo.hasNextPage;
      endCursor := ret.pageInfo.endCursor;
      k := k + 1;
    }
    // the count check uses the `totalCount` of the last reply only
    outcome := CheckCount(|repos.items|, replies[k - 1].totalCount);
  }
}
