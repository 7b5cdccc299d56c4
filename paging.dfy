/** What the two cursor-paginated traversals share: the edges a run of pages
    contributes, and the count check made against the last page's `totalCount`. */
module Paging {
  import opened GitHubData

  /** The edges one page contributes; a page without an `edges` key contributes none. */
  function EdgesOf<E>(p: Page<E>): seq<E>
  {
    if p.edges.Some? then p.edges.value else []
  }

  /** The edges of a run of pages, in fetch order. */
  function AllEdges<E>(pages: seq<Page<E>>): seq<E>
  {
    if pages == [] then [] else AllEdges(pages[..|pages| - 1]) + EdgesOf(pages[|pages| - 1])
  }

  /** Fetching one more page appends exactly that page's edges. */
  lemma AllEdgesSnoc<E>(pages: seq<Page<E>>, k: nat)
    requires k < |pages|
    ensures AllEdges(pages[..k + 1]) == AllEdges(pages[..k]) + EdgesOf(pages[k])
  {
    assert pages[..k + 1][..k] == pages[..k];
  }

  /** The edges of two consecutive runs of pages are the concatenation of theirs. */
  lemma {:induction false} AllEdgesAppend<E>(a: seq<Page<E>>, b: seq<Page<E>>)
    ensures AllEdges(a + b) == AllEdges(a) + AllEdges(b)
  {
    if b == [] {
      assert a + b == a;
    } else {
      var b', x := b[..|b| - 1], b[|b| - 1];
      AllEdgesAppend(a, b');
      calc {
        AllEdges(a + b);
        { assert (a + b)[..|a + b| - 1] == a + b' && (a + b)[|a + b| - 1] == x; }
        AllEdges(a + b') + EdgesOf(x);
        AllEdges(a) + AllEdges(b') + EdgesOf(x);
        AllEdges(a) + AllEdges(b);
      }
    }
  }

  /** A page whose `edges` key is missing contributes nothing: the pages around it
      contribute what they would without it. */
  lemma AllEdgesSkipsMissing<E>(pages: seq<Page<E>>, k: nat)
    requires k < |pages| && pages[k].edges.None?
    ensures AllEdges(pages) == AllEdges(pages[..k]) + AllEdges(pages[k + 1..])
  {
    var front := pages[..k + 1];
    assert pages == front + pages[k + 1..];
    AllEdgesAppend(front, pages[k + 1..]);
    AllEdgesSnoc(pages, k);
  }

  /** The edges of a run of pages are the first page's followed by the rest's. */
  lemma AllEdgesCons<E>(pages: seq<Page<E>>, j: nat)
    requires j < |pages|
    ensures AllEdges(pages[..j + 1]) == EdgesOf(pages[0]) + AllEdges(pages[1..][..j])
  {
    assert pages[..j + 1] == [pages[0]] + pages[1..][..j];
    AllEdgesAppend([pages[0]], pages[1..][..j]);
    assert [pages[0]][..0] == [];
  }

  /** The edges of a non-empty run of pages: the first page's, then the rest's. */
  lemma AllEdgesFirst<E>(pages: seq<Page<E>>)
    requires pages != []
    ensures AllEdges(pages) == EdgesOf(pages[0]) + AllEdges(pages[1..])
  {
    AllEdgesCons(pages, |pages| - 1);
    assert pages[..|pages|] == pages && pages[1..][..|pages| - 1] == pages[1..];
  }

  /** What a traversal yields: the cursor sent with each request, the caller's
      collection afterwards and the outcome. */
  datatype Run<S> = Run(requests: seq<Option<Cursor>>, state: S, outcome: Result<int>)

  /** The check that closes a traversal: the number of items accumulated must
      equal the `totalCount` the service reported; the count is returned. */
  function CheckCount(accumulated: nat, reported: int): (r: Result<int>)
    ensures r.Ok? <==> accumulated == reported
    ensures r.Ok? ==> r.value == accumulated
    ensures r.Err? ==> r.error == CountMismatch(accumulated, reported)
  {
    if accumulated != reported then Err(CountMismatch(accumulated, reported)) else Ok(reported)
  }
}
