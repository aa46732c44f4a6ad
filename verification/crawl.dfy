/** The crawl loop (`execute`): seed, then repeatedly shift the head of the
    frontier, skip it if visited, mark it visited, extract it and enqueue
    its new links. */
module Crawl {
  import opened Wrappers
  import opened Text
  import opened Frontier
  import opened Sink
  import opened Site
  import opened Extraction

  /** The in-memory state of one crawler: the frontier, the visited set and
      the contents of its questions file. */
  datatype CrawlState = CrawlState(frontier: seq<Url>, visited: set<Url>, records: seq<Record>)

  /** The iteration on `s` extracts the head of the frontier: it is a
      non-empty URL that has not been visited. */
  predicate Extracts(s: CrawlState) {
    |s.frontier| > 0 && s.frontier[0] != "" && s.frontier[0] !in s.visited
  }

  /** One iteration of the `while` loop against the renderer of that
      iteration. */
  function Step(adapter: Adapter, renderer: Renderer, s: CrawlState): (r: CrawlState)
    requires |s.frontier| > 0
    // exactly the head is removed; the other entries keep their order
    ensures |r.frontier| >= |s.frontier| - 1
    ensures r.frontier[..|s.frontier| - 1] == s.frontier[1..]
    // a skipped URL (empty or visited) changes nothing else
    ensures !Extracts(s) ==> r == s.(frontier := s.frontier[1..])
    // the visited set only grows, and only by the extracted URL
    ensures r.visited == if Extracts(s) then s.visited + {s.frontier[0]} else s.visited
    // the record log is append-only
    ensures s.records <= r.records
    // appended links are unblocked, new, and never the URL just extracted
    ensures forall u :: u in r.frontier[|s.frontier| - 1..] ==>
              !Blocked(adapter.blocked, u) && u !in s.frontier[1..] && u !in r.visited
  {
    var url := s.frontier[0];
    var rest := s.frontier[1..];
    if url == "" || url in s.visited then s.(frontier := rest)
    else
      var visited := s.visited + {url};
      var visit := CheckContent(adapter, renderer, url);
      var records := match visit.content
        case None => s.records
        case Some(content) => SaveContent(s.records, content);
      var added := FilterLinks(adapter.blocked, visit.links, rest, visited);
      assert (rest + added)[|rest|..] == added;
      CrawlState(rest + added, visited, records)
  }

  /** An extracting iteration enqueues exactly the filtered links of the
      page, and stores the page's pairs when `saveContent` ran. */
  lemma StepEnqueuesFilteredLinks(adapter: Adapter, renderer: Renderer, s: CrawlState)
    requires Extracts(s)
    ensures var visit := CheckContent(adapter, renderer, s.frontier[0]);
            var r := Step(adapter, renderer, s);
            && r.frontier == s.frontier[1..] + FilterLinks(adapter.blocked, visit.links, s.frontier[1..], s.visited + {s.frontier[0]})
            && r.records == (if visit.content.Some? then SaveContent(s.records, visit.content.value) else s.records)
  {
  }

  /** A page that fails to load is marked visited and adds neither links nor
      records. */
  lemma NavigationFailureSkipsPage(adapter: Adapter, renderer: Renderer, s: CrawlState)
    requires Extracts(s) && s.frontier[0] !in renderer
    ensures Step(adapter, renderer, s) == CrawlState(s.frontier[1..], s.visited + {s.frontier[0]}, s.records)
  {
    assert FilterLinks(adapter.blocked, [], s.frontier[1..], s.visited + {s.frontier[0]}) == [];
    assert s.frontier[1..] + [] == s.frontier[1..];
  }

  /** Every entry of the frontier is either inherited from `origin` or passed
      the deny-list. */
  ghost predicate FrontierFiltered(blocked: seq<string>, origin: seq<Url>, frontier: seq<Url>) {
    forall u :: u in frontier ==> u in origin || !Blocked(blocked, u)
  }

  /** One iteration keeps the frontier free of blocked links it did not
      inherit, and keeps a pending or visited URL pending or visited. */
  lemma StepKeepsFrontierFiltered(adapter: Adapter, renderer: Renderer, s: CrawlState, origin: seq<Url>)
    requires |s.frontier| > 0
    requires FrontierFiltered(adapter.blocked, origin, s.frontier)
    ensures var r := Step(adapter, renderer, s);
            && FrontierFiltered(adapter.blocked, origin, r.frontier)
            && forall u :: u != "" && (u in s.visited || u in s.frontier) ==> u in r.visited || u in r.frontier
  {
    var r := Step(adapter, renderer, s);
    var n := |s.frontier| - 1;
    forall u | u in r.frontier
      ensures u in origin || !Blocked(adapter.blocked, u)
    {
      var k :| 0 <= k < |r.frontier| && r.frontier[k] == u;
      if k < n {
        assert u == s.frontier[1..][k];
      } else {
        assert u in r.frontier[n..];
      }
    }
    forall u | u != "" && (u in s.visited || u in s.frontier)
      ensures u in r.visited || u in r.frontier
    {
      if u !in r.visited && u != s.frontier[0] {
        var k :| 0 <= k < |s.frontier| && s.frontier[k] == u;
        assert u == r.frontier[..n][k - 1];
      }
    }
  }

  /** The visited set after an iteration is the visited set before it plus
      the URL the iteration extracted, which was not yet visited. */
  lemma StepRecordsExtraction(adapter: Adapter, renderer: Renderer, s: CrawlState, before: set<Url>, extracted: seq<Url>)
    requires |s.frontier| > 0
    requires s.visited == before + set u | u in extracted
    ensures Extracts(s) ==> s.frontier[0] !in extracted && s.frontier[0] !in before
    ensures var e := if Extracts(s) then extracted + [s.frontier[0]] else extracted;
            Step(adapter, renderer, s).visited == before + set u | u in e
  {
    if Extracts(s) {
      var url := s.frontier[0];
      assert (set u | u in extracted + [url]) == (set u | u in extracted) + {url};
    }
  }

  /** The reference run: iteration `i` takes its renderer from `renderers[i]`
      and the run stops when either the renderers or the frontier run out.
      Returns the final state and the URLs extracted, in order. */
  function Run(adapter: Adapter, renderers: seq<Renderer>, s: CrawlState): (r: (CrawlState, seq<Url>))
    ensures s.records <= r.0.records
    ensures r.0.visited == s.visited + set u | u in r.1
    ensures |r.1| <= |renderers|
    ensures forall u :: u in r.1 ==> u !in s.visited
    decreases |renderers|
  {
    if |renderers| == 0 || |s.frontier| == 0 then (s, [])
    else
      var next := Run(adapter, renderers[1..], Step(adapter, renderers[0], s));
      if Extracts(s) then
        assert (set u | u in [s.frontier[0]] + next.1) == {s.frontier[0]} + set u | u in next.1;
        (next.0, [s.frontier[0]] + next.1)
      else next
  }

  /** The number of iterations of the reference run: one per renderer until
      the frontier empties. Each iteration extracts at most one URL. */
  function RunLength(adapter: Adapter, renderers: seq<Renderer>, s: CrawlState): (n: nat)
    ensures n <= |renderers|
    ensures |s.frontier| == 0 ==> n == 0
    ensures n < |renderers| ==> Run(adapter, renderers, s).0.frontier == []
    ensures |Run(adapter, renderers, s).1| <= n
    decreases |renderers|
  {
    if |renderers| == 0 || |s.frontier| == 0 then 0
    else 1 + RunLength(adapter, renderers[1..], Step(adapter, renderers[0], s))
  }

  /** What `execute` keeps true from one iteration to the next, for a run
      that started from `init` and has extracted `extracted` so far. */
  ghost predicate LoopInvariant(adapter: Adapter, init: CrawlState, s: CrawlState, extracted: seq<Url>) {
    && (forall i, j :: 0 <= i < j < |extracted| ==> extracted[i] != extracted[j])
    && (forall u :: u in extracted ==> u !in init.visited)
    && s.visited == init.visited + (set u | u in extracted)
    && init.records <= s.records
    && FrontierFiltered(adapter.blocked, init.frontier + [adapter.baseUrl], s.frontier)
    && (adapter.baseUrl != "" ==> adapter.baseUrl in s.visited || adapter.baseUrl in s.frontier)
  }

  /** One iteration keeps the loop invariant. */
  lemma StepKeepsLoopInvariant(adapter: Adapter, renderer: Renderer, init: CrawlState, s: CrawlState, extracted: seq<Url>)
    requires |s.frontier| > 0
    requires LoopInvariant(adapter, init, s, extracted)
    ensures LoopInvariant(adapter, init, Step(adapter, renderer, s),
                          if Extracts(s) then extracted + [s.frontier[0]] else extracted)
  {
    StepKeepsFrontierFiltered(adapter, renderer, s, init.frontier + [adapter.baseUrl]);
    StepRecordsExtraction(adapter, renderer, s, init.visited, extracted);
    var r := Step(adapter, renderer, s);
    if Extracts(s) {
      var e := extracted + [s.frontier[0]];
      assert forall i, j :: 0 <= i < j < |e| ==> e[i] != e[j] by {
        forall i, j | 0 <= i < j < |e|
          ensures e[i] != e[j]
        {
          if j == |extracted| {
            assert e[i] in extracted;
          }
        }
      }
    }
  }

  /** The remainder of the reference run from iteration `i` on, with the
      URLs already extracted, is the whole run. */
  ghost predicate RunRemains(adapter: Adapter, renderers: seq<Renderer>, i: nat, s: CrawlState,
                             extracted: seq<Url>, whole: (CrawlState, seq<Url>))
    requires i <= |renderers|
  {
    var rest := Run(adapter, renderers[i..], s);
    whole.0 == rest.0 && whole.1 == extracted + rest.1
  }

  /** One iteration of the loop keeps `RunRemains`. */
  lemma RunAdvances(adapter: Adapter, renderers: seq<Renderer>, i: nat, s: CrawlState,
                    extracted: seq<Url>, whole: (CrawlState, seq<Url>))
    requires i < |renderers| && |s.frontier| > 0
    requires RunRemains(adapter, renderers, i, s, extracted, whole)
    ensures RunRemains(adapter, renderers, i + 1, Step(adapter, renderers[i], s),
                       if Extracts(s) then extracted + [s.frontier[0]] else extracted, whole)
    ensures RunLength(adapter, renderers[i..], s) == 1 + RunLength(adapter, renderers[i + 1..], Step(adapter, renderers[i], s))
  {
    var r := Step(adapter, renderers[i], s);
    assert renderers[i..][0] == renderers[i];
    assert renderers[i..][1..] == renderers[i + 1..];
    var next := Run(adapter, renderers[i + 1..], r);
    assert Run(adapter, renderers[i..], s) == if Extracts(s) then (next.0, [s.frontier[0]] + next.1) else next;
    if Extracts(s) {
      assert extracted + ([s.frontier[0]] + next.1) == (extracted + [s.frontier[0]]) + next.1;
    }
    assert RunLength(adapter, renderers[i..], s) == 1 + RunLength(adapter, renderers[i + 1..], r);
  }

  /** Everything the loop of `execute` keeps: the reference run still to go
      from iteration `i` completes the whole run and its length, and
      `LoopInvariant` holds. */
  ghost predicate ExecuteInvariant(adapter: Adapter, renderers: seq<Renderer>, init: CrawlState, i: nat,
                                   s: CrawlState, extracted: seq<Url>, whole: (CrawlState, seq<Url>), total: nat)
    requires i <= |renderers|
  {
    && RunRemains(adapter, renderers, i, s, extracted, whole)
    && total == i + RunLength(adapter, renderers[i..], s)
    && LoopInvariant(adapter, init, s, extracted)
  }

  /** The invariant holds on the seeded state before the first iteration. */
  lemma ExecuteStarts(adapter: Adapter, renderers: seq<Renderer>, init: CrawlState, s: CrawlState)
    requires s == init.(frontier := Seed(adapter.baseUrl, init.frontier, init.visited))
    ensures ExecuteInvariant(adapter, renderers, init, 0, s, [],
                             Run(adapter, renderers, s), RunLength(adapter, renderers, s))
  {
    assert renderers[0..] == renderers;
    assert [] + Run(adapter, renderers, s).1 == Run(adapter, renderers, s).1;
    assert FrontierFiltered(adapter.blocked, init.frontier + [adapter.baseUrl], s.frontier);
  }

  /** One iteration keeps the invariant. */
  lemma ExecuteAdvances(adapter: Adapter, renderers: seq<Renderer>, init: CrawlState, i: nat,
                        s: CrawlState, extracted: seq<Url>, whole: (CrawlState, seq<Url>), total: nat)
    requires i < |renderers| && |s.frontier| > 0
    requires ExecuteInvariant(adapter, renderers, init, i, s, extracted, whole, total)
    ensures ExecuteInvariant(adapter, renderers, init, i + 1, Step(adapter, renderers[i], s),
                             if Extracts(s) then extracted + [s.frontier[0]] else extracted, whole, total)
  {
    StepKeepsLoopInvariant(adapter, renderers[i], init, s, extracted);
    RunAdvances(adapter, renderers, i, s, extracted, whole);
  }

  /** When the loop stops, the whole reference run has been taken. */
  lemma ExecuteFinishes(adapter: Adapter, renderers: seq<Renderer>, init: CrawlState, i: nat,
                        s: CrawlState, extracted: seq<Url>, whole: (CrawlState, seq<Url>), total: nat)
    requires i <= |renderers| && (i == |renderers| || |s.frontier| == 0)
    requires ExecuteInvariant(adapter, renderers, init, i, s, extracted, whole, total)
    ensures whole == (s, extracted) && total == i
    ensures LoopInvariant(adapter, init, s, extracted)
  {
    assert Run(adapter, renderers[i..], s) == (s, []);
    assert RunLength(adapter, renderers[i..], s) == 0;
    assert extracted + [] == extracted;
  }

  /** A bounded run of `execute`: seed, then at most `|renderers|` iterations,
      iteration `i` seeing `renderers[i]`. The loop stops early exactly when
      the frontier empties. `extracted` lists the URLs handed to
      `checkContent`, in order. */
  method Execute(adapter: Adapter, renderers: seq<Renderer>, init: CrawlState)
    returns (final: CrawlState, extracted: seq<Url>, iterations: nat)
    // the loop computes the reference run from the seeded state
    ensures (final, extracted) == Run(adapter, renderers, init.(frontier := Seed(adapter.baseUrl, init.frontier, init.visited)))
    ensures iterations == RunLength(adapter, renderers, init.(frontier := Seed(adapter.baseUrl, init.frontier, init.visited)))
    ensures iterations <= |renderers|
    ensures iterations < |renderers| ==> final.frontier == []
    // no URL is extracted twice, nor one visited before the run
    ensures forall i, j :: 0 <= i < j < |extracted| ==> extracted[i] != extracted[j]
    ensures forall u :: u in extracted ==> u !in init.visited
    // the visited set grows by exactly the extracted URLs
    ensures final.visited == init.visited + set u | u in extracted
    ensures init.records <= final.records
    // the frontier holds nothing blocked except what it started with and the base URL
    ensures forall u :: u in final.frontier ==>
              u in init.frontier || u == adapter.baseUrl || !Blocked(adapter.blocked, u)
    // after seeding, the base URL is always pending or visited
    ensures adapter.baseUrl != "" ==> adapter.baseUrl in final.visited || adapter.baseUrl in final.frontier
  {
    var s := init.(frontier := Seed(adapter.baseUrl, init.frontier, init.visited));
    ghost var whole := Run(adapter, renderers, s);
    ghost var total := RunLength(adapter, renderers, s);
    extracted := [];
    iterations := 0;
    ExecuteStarts(adapter, renderers, init, s);
    while iterations < |renderers| && |s.frontier| > 0
      invariant iterations <= |renderers|
      invariant ExecuteInvariant(adapter, renderers, init, iterations, s, extracted, whole, total)
    {
      var r := Step(adapter, renderers[iterations], s);
      ExecuteAdvances(adapter, renderers, init, iterations, s, extracted, whole, total);
      if Extracts(s) {
        extracted := extracted + [s.frontier[0]];
      }
      s := r;
      iterations := iterations + 1;
    }
    ExecuteFinishes(adapter, renderers, init, iterations, s, extracted, whole, total);
    final := s;
  }

  /** The crawler's constructor reads the visited set and the frontier from
      their files (missing files give empty containers). It does not read the
      questions file: `saveContent` re-reads and rewrites that file on every
      save. Nothing else writes it, so between saves the file holds exactly
      the log `saveContent` last wrote, and the model carries that log in
      `records` (`recordsBlob` is the file as found at start-up). */
  function Resume(visitedBlob: Option<seq<Url>>, frontierBlob: Option<seq<Url>>,
                  recordsBlob: Option<seq<Record>>): (s: CrawlState)
    ensures visitedBlob.None? ==> s.visited == {}
    ensures frontierBlob.None? ==> s.frontier == []
    ensures frontierBlob.Some? ==> s.frontier == frontierBlob.value
  {
    CrawlState(LoadFrontier(frontierBlob), LoadVisited(visitedBlob), LoadRecords(recordsBlob))
  }

  /** The two `saveUrlsToFile` calls at the end of an iteration (with the
      questions file as `saveContent` left it): resuming from what they wrote
      restores the state. */
  method Persist(s: CrawlState) returns (visitedBlob: seq<Url>, frontierBlob: seq<Url>, recordsBlob: seq<Record>)
    ensures Resume(Some(visitedBlob), Some(frontierBlob), Some(recordsBlob)) == s
  {
    visitedBlob := SaveVisited(s.visited);
    frontierBlob := s.frontier;
    recordsBlob := s.records;
  }

  /** After a restart the next URL taken is the head of the saved frontier:
      seeding only appends. */
  lemma ResumeTakesSavedHead(base: Url, visitedBlob: Option<seq<Url>>, frontier: seq<Url>, records: Option<seq<Record>>)
    requires |frontier| > 0
    ensures var s := Resume(visitedBlob, Some(frontier), records);
            Seed(base, s.frontier, s.visited)[0] == frontier[0]
  {
  }

  /** With the saved frontier ["https://site/b"] and visited set
      {"https://site/a"}, the restarted crawl extracts ".../b" next, and
      ".../a" is never extracted again (see `Execute`). */
  lemma RestartExample(base: Url)
    ensures var s := Resume(Some(["https://site/a"]), Some(["https://site/b"]), None);
            var seeded := s.(frontier := Seed(base, s.frontier, s.visited));
            && Extracts(seeded) && seeded.frontier[0] == "https://site/b"
            && "https://site/a" in seeded.visited
  {
    var s := Resume(Some(["https://site/a"]), Some(["https://site/b"]), None);
    assert "https://site/a" in s.visited;
    assert "https://site/b" != "https://site/a";
  }

  /** The frontier and the visited set can overlap: a page `p` linking to
      `u` twice puts both copies on the frontier, and after `u` is extracted
      it is both visited and still pending. The visited check at the head of
      the loop is what keeps it from being extracted twice. */
  lemma LoopLeavesDuplicatePending(adapter: Adapter, p: Url, u: Url, r1: Renderer, r2: Renderer)
    requires p != "" && u != "" && p != u
    requires !Blocked(adapter.blocked, u)
    requires p in r1 && r1[p] == Page("", [], [], [], [], [], [], Some([u, u]))
    requires u !in r2
    ensures var s1 := Step(adapter, r1, CrawlState([p], {}, []));
            var s2 := Step(adapter, r2, s1);
            && s1.frontier == [u, u]
            && s2.frontier == [u] && s2.visited == {p, u}
            && !Extracts(s2)
  {
    DoubleLinkEnqueuedTwice(adapter, p, u, r1);
    NavigationFailureSkipsPage(adapter, r2, CrawlState([u, u], {p}, []));
  }

  /** The first of those two iterations: both copies of the link are
      enqueued. */
  lemma DoubleLinkEnqueuedTwice(adapter: Adapter, p: Url, u: Url, r1: Renderer)
    requires p != "" && p != u
    requires !Blocked(adapter.blocked, u)
    requires p in r1 && r1[p] == Page("", [], [], [], [], [], [], Some([u, u]))
    ensures Step(adapter, r1, CrawlState([p], {}, [])) == CrawlState([u, u], {p}, [])
  {
    var s0 := CrawlState([p], {}, []);
    var page := r1[p];
    assert !BreadcrumbFault(adapter, page) && |page.primary| == 0;
    var visit := CheckContent(adapter, r1, p);
    assert visit == Visit(None, PageLinks(page));
    assert SameOrigin([u, u], "") == [u, u] by {
      assert StartsWith(u, "");
      assert [u, u][1..] == [u];
      assert [u][1..] == [];
    }
    assert FilterLinks(adapter.blocked, [u, u], [], {p}) == [u, u] by {
      assert [u, u][1..] == [u];
      assert [u][1..] == [];
    }
    StepEnqueuesFilteredLinks(adapter, r1, s0);
    assert [p][1..] == [];
  }

  /** Records written by the generic inspector carry no subcategory. */
  lemma GenericInspectorRecords(renderer: Renderer, s: CrawlState)
    requires |s.frontier| > 0
    ensures var r := Step(GenericInspector, renderer, s);
            forall i :: |s.records| <= i < |r.records| ==> r.records[i].subcategory.None?
  {
    var r := Step(GenericInspector, renderer, s);
    if Extracts(s) {
      var visit := CheckContent(GenericInspector, renderer, s.frontier[0]);
      StepEnqueuesFilteredLinks(GenericInspector, renderer, s);
      GenericInspectorContent(renderer, s.frontier[0]);
      if visit.content.Some? {
        NewRecordsShareFields(s.records, visit.content.value);
      }
    }
  }
}
