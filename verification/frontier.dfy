/** The frontier store: the FIFO list of URLs still to visit (the
    "visiting" file), the set of URLs already visited, the deny-list filter
    and the seed rule. */
module Frontier {
  import opened Wrappers
  import opened Text

  type Url = string

  /** `urlsBlocked.some((blocked) => url.includes(blocked))`: the URL holds
      one of the deny-list entries as a substring (case-sensitive). */
  predicate Blocked(denyList: seq<string>, url: Url)
    decreases |denyList|
  {
    |denyList| > 0 && (Contains(url, denyList[0]) || Blocked(denyList[1..], url))
  }

  /** Blocked means: some entry of the deny-list occurs in the URL. */
  lemma {:induction false} BlockedIffSomeEntry(denyList: seq<string>, url: Url)
    ensures Blocked(denyList, url) <==> exists k :: 0 <= k < |denyList| && Contains(url, denyList[k])
    decreases |denyList|
  {
    if |denyList| > 0 {
      BlockedIffSomeEntry(denyList[1..], url);
      if exists k :: 0 <= k < |denyList| && Contains(url, denyList[k]) {
        var k :| 0 <= k < |denyList| && Contains(url, denyList[k]);
        if k > 0 {
          assert denyList[1..][k - 1] == denyList[k];
        }
      }
    }
  }

  /** The seed rule: the base URL joins the tail of the frontier only when it
      is in neither the frontier nor the visited set. */
  function Seed(base: Url, frontier: seq<Url>, visited: set<Url>): (r: seq<Url>)
    ensures r == frontier || r == frontier + [base]
    ensures r == frontier + [base] <==> base !in frontier && base !in visited
    ensures base in r || base in visited
  {
    if base !in frontier && base !in visited then frontier + [base] else frontier
  }

  /** Seeding again changes nothing, so a restarted loop never enqueues the
      base URL a second time. */
  lemma SeedIdempotent(base: Url, frontier: seq<Url>, visited: set<Url>)
    ensures Seed(base, Seed(base, frontier, visited), visited) == Seed(base, frontier, visited)
  {
  }

  /** The link filter of one loop iteration: a discovered link survives when it
      is not blocked and is in neither the (already shifted) frontier nor the
      visited set. Survivors keep their discovery order. The frontier and the
      visited set are not updated while the batch is filtered, so a link that
      occurs twice in one batch survives twice. */
  function FilterLinks(denyList: seq<string>, links: seq<Url>, frontier: seq<Url>, visited: set<Url>): (r: seq<Url>)
    ensures |r| <= |links|
    ensures forall u :: u in r <==> (u in links && !Blocked(denyList, u) && u !in frontier && u !in visited)
    decreases |links|
  {
    if |links| == 0 then []
    else
      var rest := FilterLinks(denyList, links[1..], frontier, visited);
      if !Blocked(denyList, links[0]) && links[0] !in frontier && links[0] !in visited
      then [links[0]] + rest
      else rest
  }

  /** Filtering a concatenation filters each part in turn: the survivors
      keep the relative order in which the links were discovered. */
  lemma {:induction false} FilterLinksConcat(denyList: seq<string>, a: seq<Url>, b: seq<Url>, frontier: seq<Url>, visited: set<Url>)
    ensures FilterLinks(denyList, a + b, frontier, visited)
         == FilterLinks(denyList, a, frontier, visited) + FilterLinks(denyList, b, frontier, visited)
    decreases |a|
  {
    if |a| > 0 {
      assert (a + b)[1..] == a[1..] + b;
      FilterLinksConcat(denyList, a[1..], b, frontier, visited);
    } else {
      assert a + b == b;
    }
  }

  /** A single link is kept exactly when it passes all three tests. */
  lemma FilterLinksSingle(denyList: seq<string>, u: Url, frontier: seq<Url>, visited: set<Url>)
    ensures FilterLinks(denyList, [u], frontier, visited)
         == if !Blocked(denyList, u) && u !in frontier && u !in visited then [u] else []
  {
  }

  /** Two equal links in one batch both reach the frontier: the frontier may
      hold duplicates. */
  lemma SameBatchDuplicatesSurvive(u: Url)
    ensures FilterLinks([], [u, u], [], {}) == [u, u]
  {
    assert [u, u][1..] == [u];
  }

  /** `loadUrlsFromFile(path)` for the visited file: a missing file is an
      empty set, otherwise the set of the stored URLs. */
  function LoadVisited(blob: Option<seq<Url>>): set<Url>
  {
    match blob
    case None => {}
    case Some(urls) => set u | u in urls
  }

  /** `loadUrlsFromFile(path, false)` for the frontier file: a missing file is
      an empty list, otherwise the stored list in stored order. */
  function LoadFrontier(blob: Option<seq<Url>>): seq<Url>
  {
    match blob
    case None => []
    case Some(urls) => urls
  }

  /** `saveUrlsToFile(FILE_ACCESSED_URLS, [...visitedUrls])`: the visited set
      written as a list holding each URL once; loading it back gives the same
      set. */
  method SaveVisited(visited: set<Url>) returns (blob: seq<Url>)
    ensures LoadVisited(Some(blob)) == visited
    ensures forall i, j :: 0 <= i < j < |blob| ==> blob[i] != blob[j]
  {
    blob := [];
    var left := visited;
    while left != {}
      invariant left <= visited
      invariant forall u :: u in blob <==> u in visited && u !in left
      invariant forall i, j :: 0 <= i < j < |blob| ==> blob[i] != blob[j]
      decreases left
    {
      var u :| u in left;
      blob := blob + [u];
      left := left - {u};
    }
  }
}
