# Crawl engine model

A Dafny model of the crawl engine of a question-and-answer web crawler. The
repository has three near-identical crawler classes: `InspectMercadoLivreUseCase`,
`InspectZattiniUseCase` and the generic `InspectUrlUseCase`. Each one keeps a
FIFO frontier of URLs (the "visiting" file) and a set of visited URLs. Each
loop iteration takes the head of the frontier and skips it if visited.
Otherwise it marks the URL visited and extracts the page (`checkContent`),
appends the page's question/answer pairs to a records file (`saveContent`),
and enqueues the page's same-origin links that pass a deny-list.

The browser is replaced by a renderer oracle: a `map<Url, Page>` per loop
iteration. A `Page` lists what the site's selectors find on that page. A
URL that is not a key fails to load. Every iteration is then a pure
function of the frontier, the visited set, the records and the renderer.

Modules, leaf first:

- `Wrappers` (wrappers.dfy): `Option` and `Result`.
- `Text` (text.dfy): `trim`, `substring(0, 100)`, `includes` and `startsWith`.
- `Sink` (sink.dfy): records and the append-only `saveContent`.
- `Frontier` (frontier.dfy): the deny-list test, the seed rule, the link filter, and loading and saving the URL files.
- `Site` (site.dfy): the three adapters. Each holds a base URL, a deny-list, which breadcrumb holds which field, and how secondary questions are reached.
- `Extraction` (extraction.dfy): `checkContent` and its getters.
- `Crawl` (crawl.dfy): one loop iteration (`Step`) and a bounded run of `execute` (`Execute`).

The adapters in `Site` carry each class's constants: `MercadoLivre` and
`MercadoLivreBlocked` (src/use-cases/crawl/inspect-mercado-livre.ts:8,23-73),
`Zattini` and `ZattiniBlocked` (src/use-cases/crawl/inspect-zattini.ts:8,22-31),
and `GenericInspector`, which reuses Mercado Livre's base URL and an identical
deny-list (src/use-cases/crawl/inspect-url.ts:9,18-68).

Three behaviours of the code are easy to miss:

- The frontier may hold duplicates and overlap the visited set. A batch of
  links is filtered only against the frontier and visited set as they were
  before the batch. So a link that occurs twice on one page is enqueued
  twice, and after the first copy is extracted the second is both visited
  and pending. The visited check at the head of the loop still ensures no
  URL is extracted twice (`Crawl.LoopLeavesDuplicatePending`, `Crawl.Execute`).
- Besides navigation failures, too few breadcrumbs also abort a page. The
  category and subcategory getters check only that some breadcrumb matched,
  then read index 1 (Mercado Livre subcategory) or indexes 1 and 2 (Zattini).
  Too few breadcrumbs throws, and the `catch` in `checkContent` turns the
  page into "no links, no records" (`Extraction.BreadcrumbFault`,
  `Extraction.BreadcrumbFaultPerSite`). A failure to load the Mercado Livre
  questions iframe does the same, and it also drops the primary pairs
  already gathered.
- A missing frontier file loads as an empty list, and the seed rule then
  appends the base URL, so a first run starts from the base URL alone.

## Model

| member | source | states |
|---|---|---|
| Text.Trim | src/use-cases/crawl/inspect-mercado-livre.ts:202-203 | trimmed text has no whitespace at either end and is the input with whitespace cut from the front, then the back |
| Text.TrimIdempotent | src/use-cases/crawl/inspect-zattini.ts:160-161 | trimming an already trimmed string changes nothing |
| Text.Truncate | src/use-cases/crawl/inspect-mercado-livre.ts:170 | the result is the prefix of the input of length min(length, 100) |
| Text.CleanField | src/use-cases/crawl/inspect-mercado-livre.ts:166-191 | a field is "" when the value is null; otherwise the trimmed text when it has at most 100 characters, and exactly its first 100 characters when it is longer |
| Text.CleanFieldTrimsFirst | src/use-cases/crawl/inspect-zattini.ts:142-149 | whitespace around a raw value is cut before the 100-character limit applies, so a raw value and its trimmed text are stored alike |
| Text.ContainsAt | src/use-cases/crawl/inspect-mercado-livre.ts:118 | `includes` holds exactly when the substring starts at some position of the URL |
| Text.Contains | src/use-cases/crawl/inspect-mercado-livre.ts:118 | `includes`: the entry occurs in the URL; `Text.ContainsAt` pins it to an occurrence at some position |
| Text.StartsWith | src/use-cases/crawl/inspect-mercado-livre.ts:157 | `startsWith`: the origin is a prefix of the `href` |
| Text.MissingCharNotContained | src/use-cases/crawl/inspect-zattini.ts:76 | a URL lacking a character of a deny-list entry does not include that entry |
| Frontier.Blocked | src/use-cases/crawl/inspect-mercado-livre.ts:118 | `urlsBlocked.some(includes)`; `Frontier.BlockedIffSomeEntry` pins it to "some entry occurs in the URL" |
| Frontier.BlockedIffSomeEntry | src/use-cases/crawl/inspect-mercado-livre.ts:118 | a link is blocked exactly when some deny-list entry is a substring of it |
| Frontier.Seed | src/use-cases/crawl/inspect-mercado-livre.ts:103-105 | the base URL is appended exactly when it is in neither the frontier nor the visited set; afterwards it is pending or visited |
| Frontier.SeedIdempotent | src/use-cases/crawl/inspect-zattini.ts:60-62 | seeding twice adds the base URL at most once, so re-entering `execute` is harmless |
| Frontier.FilterLinks | src/use-cases/crawl/inspect-mercado-livre.ts:116-121 | a discovered link survives exactly when it is not blocked and is in neither the frontier nor the visited set |
| Frontier.FilterLinksConcat | src/use-cases/crawl/inspect-url.ts:110-117 | filtering preserves discovery order: a concatenation filters to the concatenation of the filtered parts |
| Frontier.FilterLinksSingle | src/use-cases/crawl/inspect-zattini.ts:74-79 | a single link is kept exactly when it passes all three tests |
| Frontier.SameBatchDuplicatesSurvive | src/use-cases/crawl/inspect-mercado-livre.ts:116-123 | a link occurring twice in one batch is enqueued twice |
| Frontier.SaveVisited | src/use-cases/crawl/inspect-mercado-livre.ts:125 | the visited set is written as a list without repeats that loads back to the same set |
| Sink.SaveContent | src/use-cases/crawl/inspect-mercado-livre.ts:258-277 | the new collection is the old one, unchanged, followed by one record per pair in pair order |
| Sink.NewRecordsShareFields | src/use-cases/crawl/inspect-zattini.ts:206-214 | every appended record shares the page's product, category and subcategory |
| Sink.SaveContentSplits | src/use-cases/crawl/inspect-zattini.ts:198-217 | saving two batches one after the other equals saving them together |
| Site.CartLinkBlocked | src/use-cases/crawl/inspect-zattini.ts:22-31 | a Zattini `/cart` link is on the deny-list |
| Site.DenyListExcludesCart | src/use-cases/crawl/inspect-zattini.ts:76 | with the deny-list ["/cart"], a cart link is blocked |
| Site.DenyListKeepsProduct | src/use-cases/crawl/inspect-zattini.ts:76 | with the deny-list ["/cart"], a product link is not blocked |
| Extraction.FieldAt | src/use-cases/crawl/inspect-zattini.ts:124-140 | no matching element gives ""; an index inside the list gives the cleaned value; an index past the end of a non-empty list throws |
| Extraction.GroupText | src/use-cases/crawl/inspect-mercado-livre.ts:202-203 | a missing question or answer element reads as "", otherwise as exactly its trimmed text |
| Extraction.PairOf | src/use-cases/crawl/inspect-mercado-livre.ts:205-207 | a group yields a pair exactly when both trimmed strings are non-empty |
| Extraction.BlankTextDropsPair | src/use-cases/crawl/inspect-mercado-livre.ts:202-207 | a question or answer made only of whitespace yields no pair |
| Extraction.Pairs | src/use-cases/crawl/inspect-mercado-livre.ts:197-208 | at most one pair per group, each with a non-empty trimmed question and answer |
| Extraction.PairsSingle | src/use-cases/crawl/inspect-zattini.ts:160-165 | one group gives exactly one pair with its trimmed strings when answered, none otherwise |
| Extraction.PairsConcat | src/use-cases/crawl/inspect-zattini.ts:182-193 | pairs come out in group order |
| Extraction.EmptyAnswerDropsPair | src/use-cases/crawl/inspect-mercado-livre.ts:203-207 | a group whose answer is empty yields no pair, whatever its question |
| Extraction.TrimmedGroupGivesPair | src/use-cases/crawl/inspect-mercado-livre.ts:202-207 | a group with trimmed, non-empty question and answer yields exactly that pair |
| Extraction.ShipsExample | src/use-cases/crawl/inspect-url.ts:188-193 | an empty answer gives no pair; question "Does it ship?" with answer "Yes" gives exactly that pair |
| Extraction.Labelled | src/use-cases/crawl/inspect-mercado-livre.ts:214-215 | a trigger qualifies when its text, trimmed, equals the label exactly |
| Extraction.FirstLabelled | src/use-cases/crawl/inspect-mercado-livre.ts:213-216 | the chosen trigger is the first whose trimmed label equals the expected label; none when no trigger has it |
| Extraction.FirstMatchingSrc | src/use-cases/crawl/inspect-mercado-livre.ts:219-225 | the followed iframe is the first whose `src` contains the marker; none when no iframe has it |
| Extraction.FollowedSrc | src/use-cases/crawl/inspect-mercado-livre.ts:220-222 | the followed `src` is one of the page's iframes and contains the marker |
| Extraction.GetQuestions | src/use-cases/crawl/inspect-mercado-livre.ts:193-234 | primary pairs come first; the inline modal adds its pairs exactly when a trigger exists; a followed iframe adds the iframe document's pairs and the browser ends there; in every other case the result is exactly the primary pairs on the same page; only loading the iframe fails |
| Extraction.InlineExpansionPairs | src/use-cases/crawl/inspect-zattini.ts:168-176 | with a see-more trigger the modal pairs follow the primary ones; without one the result is exactly the primary pairs |
| Extraction.IframeFollowsFirstMatch | src/use-cases/crawl/inspect-mercado-livre.ts:213-229 | with a labelled trigger, the first marked iframe is loaded and its pairs follow the primary ones |
| Extraction.IframeNeedsLabelledTrigger | src/use-cases/crawl/inspect-mercado-livre.ts:210-231 | with no trigger carrying the label, only primary pairs are gathered |
| Extraction.SameOrigin | src/use-cases/crawl/inspect-mercado-livre.ts:153-158 | a link is returned exactly when it is an anchor `href` starting with the page origin |
| Extraction.SameOriginSingle | src/use-cases/crawl/inspect-mercado-livre.ts:157 | one anchor is kept exactly when it starts with the origin |
| Extraction.SameOriginConcat | src/use-cases/crawl/inspect-mercado-livre.ts:154-158 | `.filter` keeps document order and repeats: anchors split anywhere filter to the concatenation of the filtered parts |
| Extraction.PageLinks | src/use-cases/crawl/inspect-url.ts:148-154 | a failed anchor read returns no links; otherwise the same-origin anchors in document order with repeats, all starting with the origin |
| Extraction.BreadcrumbFault | src/use-cases/crawl/inspect-zattini.ts:124-140 | a getter throws when some breadcrumb matched but there is no breadcrumb at the 0-based index it reads (at most `index` breadcrumbs); `Extraction.BreadcrumbFaultPerSite` gives the counts per site |
| Extraction.SubcategoryOf | src/use-cases/crawl/inspect-mercado-livre.ts:175-182 | a subcategory exists exactly for adapters that read one; it throws when the breadcrumb list is non-empty but too short |
| Extraction.CheckContent | src/use-cases/crawl/inspect-mercado-livre.ts:139-164 | a navigation failure or breadcrumb fault gives no links and no content; no primary group gives the page's links only; otherwise every gathered pair is handed to `saveContent` with the getters' fields and the links are those of the page the browser ends on, unless the iframe fails to load, which drops the page |
| Extraction.GenericInspectorContent | src/use-cases/crawl/inspect-url.ts:133-146 | the generic inspector never hands over a subcategory |
| Extraction.BreadcrumbFaultPerSite | src/use-cases/crawl/inspect-zattini.ts:124-140 | exactly one breadcrumb faults on Mercado Livre, one or two on Zattini, and none on the generic inspector |
| Extraction.ContentFields | src/use-cases/crawl/inspect-mercado-livre.ts:143-150 | the saved fields are the category, product and subcategory getters' results |
| Extraction.ZattiniFields | src/use-cases/crawl/inspect-zattini.ts:124-149 | Zattini saves the second and third breadcrumb texts (or "" for both) and the first product title |
| Extraction.MercadoLivreFields | src/use-cases/crawl/inspect-mercado-livre.ts:166-191 | Mercado Livre saves the first and second breadcrumb titles (or "" for both) and the first product title |
| Extraction.GenericInspectorFields | src/use-cases/crawl/inspect-url.ts:161-197 | the generic inspector saves the first breadcrumb title, no subcategory and only primary pairs |
| Crawl.Step | src/use-cases/crawl/inspect-mercado-livre.ts:107-123 | exactly the head is removed; an empty or visited head changes nothing else; visited grows only by the extracted URL; records are append-only; appended links are unblocked, new and not the URL just visited |
| Crawl.StepEnqueuesFilteredLinks | src/use-cases/crawl/inspect-zattini.ts:70-81 | an extracting iteration appends exactly the filtered links of the page and stores its pairs when `saveContent` ran |
| Crawl.NavigationFailureSkipsPage | src/use-cases/crawl/inspect-url.ts:133-158 | a page that fails to load is marked visited and adds neither links nor records |
| Crawl.StepKeepsFrontierFiltered | src/use-cases/crawl/inspect-zattini.ts:74-81 | an iteration never adds a blocked link, and a pending or visited URL stays pending or visited |
| Crawl.Run | src/use-cases/crawl/inspect-mercado-livre.ts:107-123 | the reference run iterates `Step` until the renderers or the frontier run out; the visited set grows by exactly the extracted URLs, none previously visited, and records are append-only |
| Crawl.RunLength | src/use-cases/crawl/inspect-mercado-livre.ts:107-109 | the reference run takes at most one iteration per renderer, none on an empty frontier, stops early only on an empty frontier, and extracts at most one URL per iteration |
| Crawl.StepKeepsLoopInvariant | src/use-cases/crawl/inspect-mercado-livre.ts:107-123 | one iteration keeps the extracted list free of repeats and of previously visited URLs, the visited set equal to the start plus the extracted URLs, and no blocked link added |
| Crawl.Execute | src/use-cases/crawl/inspect-mercado-livre.ts:96-137 | the loop computes the reference run `Crawl.Run` from the seeded state, in exactly `Crawl.RunLength` iterations; no URL is extracted twice or after being visited; visited grows by exactly the extracted URLs; records are append-only; blocked links never enter; the loop stops early only on an empty frontier |
| Crawl.Resume | src/use-cases/crawl/inspect-mercado-livre.ts:91-94 | missing URL files give an empty visited set and an empty frontier; a saved frontier is restored in order |
| Crawl.Persist | src/use-cases/crawl/inspect-zattini.ts:83-84 | resuming from the written files restores the frontier, visited set and records |
| Crawl.ResumeTakesSavedHead | src/use-cases/crawl/inspect-zattini.ts:49-65 | after a restart the next URL taken is the head of the saved frontier |
| Crawl.RestartExample | src/use-cases/crawl/inspect-url.ts:85-104 | with saved frontier [b] and visited {a}, the restart extracts b next and a is visited |
| Crawl.LoopLeavesDuplicatePending | src/use-cases/crawl/inspect-mercado-livre.ts:107-123 | two iterations on a page linking to u twice leave u both visited and pending, and u is not extracted again |
| Crawl.DoubleLinkEnqueuedTwice | src/use-cases/crawl/inspect-mercado-livre.ts:113-123 | an iteration on a page linking to u twice marks the page visited and enqueues u twice |
| Crawl.StepRecordsExtraction | src/use-cases/crawl/inspect-mercado-livre.ts:111-113 | an iteration grows the visited set by exactly the URL it extracts, which was not visited before |
| Crawl.GenericInspectorRecords | src/use-cases/crawl/inspect-url.ts:199-218 | records appended by the generic inspector have no subcategory |

## Left out

- Browser automation (`chromium.launch`, `page.goto`, `$`, `$$`, `$$eval`, `waitForSelector`, `click`, `getProperty`) is foreign code. It is replaced by the renderer oracle. Clicks and per-group child queries are assumed not to throw; only page loads and breadcrumb indexing fail in the model.
- The selectors are not modelled, since their meaning lives in the browser. A `Page` holds what they match. The getters are assumed to see the same breadcrumb list each time they query it.
- The probe for a primary question group runs before the 5-second wait in `getQuestions`. The model uses one primary group list for both.
- File reads and writes and `JSON.parse`/`JSON.stringify` are I/O. Loading and saving are modelled on the in-memory values. Malformed files are not modelled. A malformed URL file makes the constructor throw. A malformed or unwritable questions file is only touched inside `saveContent`, within the `try` of `checkContent`. So every page with a primary question group would then be marked visited and return no links and no records, and start-up is unaffected.
- The random 10–15 second politeness delay (`Math.random`, `setTimeout`) is timing and randomness.
- The recursive `this.execute()` in the `catch` of `execute` is an unbounded asynchronous retry. `Execute` starts from any in-memory state, and `Frontier.SeedIdempotent` shows re-seeding is harmless.
- Crawl.Execute: models only the first `|renderers|` iterations, because the real loop need not terminate on a large site.
- The Fastify server, its error handler, and the two crawlers launched concurrently without `await` are plumbing and concurrency.
- Console logging is left out.
- Text.Trim: strips ASCII whitespace, the no-break space, the byte-order mark and the line and paragraph separators, a subset of what JavaScript `trim` strips.
- Text.Truncate: counts Unicode scalar values, where JavaScript `substring` counts UTF-16 code units. The two differ only for characters outside the Basic Multilingual Plane.
- `saveContent` with zero pairs still creates the records file. The model records it as leaving the collection unchanged.
