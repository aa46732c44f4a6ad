/** The page extractor (`checkContent` and the getters it calls), run
    against a renderer oracle in place of the browser. */
module Extraction {
  import opened Wrappers
  import opened Text
  import opened Frontier
  import opened Sink
  import opened Site

  /** A DOM element as the crawler reads it: its text content and its `title`
      attribute, either of which may be null. */
  datatype Element = Element(text: Option<string>, title: Option<string>)

  /** A question group: the text of its question child and of its answer
      child, `None` when the child is missing or its text is null. */
  datatype QaGroup = QaGroup(question: Option<string>, answer: Option<string>)

  /** What the site's selectors find on one loaded page.
      - breadcrumbs, titles: the breadcrumb and product-title elements;
      - primary: the primary question groups;
      - seeMore: the "see more" triggers, in document order;
      - iframes: the `src` of each question iframe present once a trigger is
        clicked;
      - secondary: the secondary question groups (the inline modal, or the
        list inside a followed iframe document);
      - anchors: the `href` of every anchor, `None` when reading them
        failed;
      - origin: the page's origin. */
  datatype Page = Page(
    origin: string,
    breadcrumbs: seq<Element>,
    titles: seq<Element>,
    primary: seq<QaGroup>,
    seeMore: seq<Element>,
    iframes: seq<string>,
    secondary: seq<QaGroup>,
    anchors: Option<seq<string>>)

  /** The browser, as an oracle: the page each URL loads to. A URL that is not
      a key fails to load. */
  type Renderer = map<Url, Page>

  /** The errors that abort a page. */
  datatype Fault = NavigationFailed(url: Url) | MissingElement(index: nat)

  function Read(e: Element, source: Source): Option<string> {
    match source
    case TitleAttribute => e.title
    case TextContent => e.text
  }

  /** The category, subcategory and product getters: with no matching element
      the field is "", otherwise element `index` is read, trimmed and cut to
      100 characters. The only guard is that some element matched, so an
      index past the end of a non-empty list throws. */
  function FieldAt(elems: seq<Element>, index: nat, source: Source): (r: Result<string, Fault>)
    ensures r.Err? <==> 0 < |elems| <= index
    ensures r.Err? ==> r.error == MissingElement(index)
    ensures |elems| == 0 ==> r == Ok("")
    ensures r.Ok? ==> |r.value| <= FieldLimit
    ensures index < |elems| ==> r == Ok(CleanField(Read(elems[index], source)))
  {
    if |elems| == 0 then Ok("")
    else if index < |elems| then Ok(CleanField(Read(elems[index], source)))
    else Err(MissingElement(index))
  }

  /** `elem ? (await elem.textContent())?.trim() || "" : ""`. */
  function GroupText(value: Option<string>): (r: string)
    ensures Trimmed(r)
    ensures value.None? ==> r == ""
    ensures value.Some? ==> r == Trim(value.value)
  {
    match value
    case None => ""
    case Some(t) => Trim(t)
  }

  /** A group yields a pair when both its trimmed question and trimmed answer
      are non-empty. */
  predicate Answered(g: QaGroup) {
    GroupText(g.question) != "" && GroupText(g.answer) != ""
  }

  /** A question or answer made only of whitespace reads as empty, so its
      group yields no pair. */
  lemma BlankTextDropsPair(g: QaGroup)
    requires (g.question.Some? && AllSpace(g.question.value)) || (g.answer.Some? && AllSpace(g.answer.value))
    ensures !Answered(g)
  {
    if g.question.Some? && AllSpace(g.question.value) {
      TrimAllSpace(g.question.value);
    } else {
      TrimAllSpace(g.answer.value);
    }
  }

  /** Both strings of a stored pair are trimmed and non-empty. */
  predicate WellFormedPair(p: QuestionResponse) {
    p.question != "" && p.response != "" && Trimmed(p.question) && Trimmed(p.response)
  }

  /** The pair a group yields, if it is answered. */
  function PairOf(g: QaGroup): (r: Option<QuestionResponse>)
    ensures r.Some? <==> Answered(g)
    ensures r.Some? ==> WellFormedPair(r.value)
  {
    if Answered(g) then Some(QuestionResponse(GroupText(g.question), GroupText(g.answer))) else None
  }

  /** The loop over question groups in `getQuestions` and
      `getMoreQuestions`. */
  function Pairs(groups: seq<QaGroup>): (r: seq<QuestionResponse>)
    ensures |r| <= |groups|
    ensures forall p :: p in r ==> WellFormedPair(p)
    decreases |groups|
  {
    if |groups| == 0 then []
    else
      match PairOf(groups[0])
      case Some(p) => [p] + Pairs(groups[1..])
      case None => Pairs(groups[1..])
  }

  /** A single group yields exactly one pair, with the trimmed strings, when
      it is answered, and nothing otherwise. */
  lemma PairsSingle(g: QaGroup)
    ensures |Pairs([g])| == 1 <==> Answered(g)
    ensures Answered(g) ==> Pairs([g]) == [QuestionResponse(GroupText(g.question), GroupText(g.answer))]
    ensures !Answered(g) ==> Pairs([g]) == []
  {
    assert [g][1..] == [];
  }

  /** Pairs come out in group order. */
  lemma {:induction false} PairsConcat(a: seq<QaGroup>, b: seq<QaGroup>)
    ensures Pairs(a + b) == Pairs(a) + Pairs(b)
    decreases |a|
  {
    if |a| > 0 {
      assert (a + b)[0] == a[0];
      assert (a + b)[1..] == a[1..] + b;
      PairsConcat(a[1..], b);
      match PairOf(a[0])
      case None =>
        assert Pairs(a + b) == Pairs(a[1..] + b);
        assert Pairs(a) == Pairs(a[1..]);
      case Some(p) =>
        assert Pairs(a + b) == [p] + Pairs(a[1..] + b);
        assert Pairs(a) == [p] + Pairs(a[1..]);
    } else {
      assert a + b == b;
    }
  }

  /** A group whose answer is empty yields no pair, whatever its
      question. */
  lemma EmptyAnswerDropsPair(question: Option<string>)
    ensures Pairs([QaGroup(question, Some(""))]) == []
  {
    assert Trim("") == "";
    PairsSingle(QaGroup(question, Some("")));
  }

  /** A group whose question and answer are already trimmed and non-empty
      yields exactly that pair. */
  lemma TrimmedGroupGivesPair(q: string, a: string)
    requires q != "" && a != "" && Trimmed(q) && Trimmed(a)
    ensures Pairs([QaGroup(Some(q), Some(a))]) == [QuestionResponse(q, a)]
  {
    TrimmedIsFixed(q);
    TrimmedIsFixed(a);
    PairsSingle(QaGroup(Some(q), Some(a)));
  }

  /** A question with an empty answer is dropped; a question with an answer
      gives exactly one pair carrying those strings. */
  lemma ShipsExample()
    ensures Pairs([QaGroup(Some("Does it ship?"), Some(""))]) == []
    ensures Pairs([QaGroup(Some("Does it ship?"), Some("Yes"))])
         == [QuestionResponse("Does it ship?", "Yes")]
  {
    EmptyAnswerDropsPair(Some("Does it ship?"));
    TrimmedGroupGivesPair("Does it ship?", "Yes");
  }

  /** The trigger label test of the Mercado Livre flow. */
  predicate Labelled(e: Element, expected: string) {
    e.text.Some? && Trim(e.text.value) == expected
  }

  /** The index of the first true flag. */
  function FirstTrue(flags: seq<bool>): (r: Option<nat>)
    ensures r.Some? ==> r.value < |flags| && flags[r.value]
    ensures r.Some? ==> forall j :: 0 <= j < r.value ==> !flags[j]
    ensures r.None? ==> forall j :: 0 <= j < |flags| ==> !flags[j]
    decreases |flags|
  {
    if |flags| == 0 then None
    else if flags[0] then Some(0)
    else
      match FirstTrue(flags[1..])
      case None => None
      case Some(k) => Some(k + 1)
  }

  /** The index of the first trigger with the expected label. */
  function FirstLabelled(buttons: seq<Element>, expected: string): (r: Option<nat>)
    ensures r.Some? ==> r.value < |buttons| && Labelled(buttons[r.value], expected)
    ensures r.Some? ==> forall j :: 0 <= j < r.value ==> !Labelled(buttons[j], expected)
    ensures r.None? ==> forall j :: 0 <= j < |buttons| ==> !Labelled(buttons[j], expected)
  {
    var flags := seq(|buttons|, i requires 0 <= i < |buttons| => Labelled(buttons[i], expected));
    assert forall j :: 0 <= j < |buttons| ==> flags[j] == Labelled(buttons[j], expected);
    FirstTrue(flags)
  }

  /** The index of the first iframe whose `src` contains the marker. */
  function FirstMatchingSrc(srcs: seq<string>, marker: string): (r: Option<nat>)
    ensures r.Some? ==> r.value < |srcs| && Contains(srcs[r.value], marker)
    ensures r.Some? ==> forall j :: 0 <= j < r.value ==> !Contains(srcs[j], marker)
    ensures r.None? ==> forall j :: 0 <= j < |srcs| ==> !Contains(srcs[j], marker)
  {
    var flags := seq(|srcs|, i requires 0 <= i < |srcs| => Contains(srcs[i], marker));
    assert forall j :: 0 <= j < |srcs| ==> flags[j] == Contains(srcs[j], marker);
    FirstTrue(flags)
  }

  /** The pairs gathered on a page and the page the browser ends on (the
      Mercado Livre flow navigates away to the iframe document). */
  datatype Gathered = Gathered(questions: seq<QuestionResponse>, last: Page)

  /** The page `FollowIframe` ends on, when a labelled trigger exists and
      some iframe `src` carries the marker. */
  predicate FollowsIframe(variant: Variant, page: Page) {
    && variant.IframeRedirect?
    && FirstLabelled(page.seeMore, variant.buttonLabel).Some?
    && FirstMatchingSrc(page.iframes, variant.srcMarker).Some?
  }

  function FollowedSrc(variant: Variant, page: Page): (src: string)
    requires FollowsIframe(variant, page)
    ensures Contains(src, variant.srcMarker) && src in page.iframes
  {
    page.iframes[FirstMatchingSrc(page.iframes, variant.srcMarker).value]
  }

  /** `getQuestions` (with `getMoreQuestions`): the primary pairs, followed by
      the secondary pairs when the variant's trigger leads to them. Only
      loading the iframe document can fail. */
  function GetQuestions(variant: Variant, renderer: Renderer, page: Page): (r: Result<Gathered, Fault>)
    ensures r.Ok? ==> Pairs(page.primary) <= r.value.questions
    ensures r.Ok? && !FollowsIframe(variant, page) ==> r.value.last == page
    ensures r.Ok? && FollowsIframe(variant, page) ==>
              FollowedSrc(variant, page) in renderer
              && r.value.last == renderer[FollowedSrc(variant, page)]
              && r.value.questions == Pairs(page.primary) + Pairs(r.value.last.secondary)
    ensures r.Err? <==> FollowsIframe(variant, page) && FollowedSrc(variant, page) !in renderer
    ensures variant.PrimaryOnly? ==> r == Ok(Gathered(Pairs(page.primary), page))
    // the inline modal is opened exactly when some trigger exists
    ensures variant.InlineExpansion? ==>
              r == Ok(Gathered(Pairs(page.primary) + (if |page.seeMore| > 0 then Pairs(page.secondary) else []), page))
    // without a followed iframe or an opened modal, exactly the primary pairs
    ensures !FollowsIframe(variant, page) && !(variant.InlineExpansion? && |page.seeMore| > 0) ==>
              r == Ok(Gathered(Pairs(page.primary), page))
  {
    var primary := Pairs(page.primary);
    match variant
    case PrimaryOnly => Ok(Gathered(primary, page))
    case InlineExpansion =>
      if |page.seeMore| > 0 then Ok(Gathered(primary + Pairs(page.secondary), page))
      else
        assert primary + [] == primary;
        Ok(Gathered(primary, page))
    case IframeRedirect(buttonLabel, srcMarker) =>
      if !FollowsIframe(variant, page) then Ok(Gathered(primary, page))
      else
        var src := FollowedSrc(variant, page);
        if src in renderer then Ok(Gathered(primary + Pairs(renderer[src].secondary), renderer[src]))
        else Err(NavigationFailed(src))
  }

  /** The inline flow: with a trigger the modal's pairs follow the primary
      ones; without one the result is exactly the primary pairs. */
  lemma InlineExpansionPairs(renderer: Renderer, page: Page)
    ensures |page.seeMore| > 0 ==>
              GetQuestions(InlineExpansion, renderer, page)
              == Ok(Gathered(Pairs(page.primary) + Pairs(page.secondary), page))
    ensures |page.seeMore| == 0 ==>
              GetQuestions(InlineExpansion, renderer, page) == Ok(Gathered(Pairs(page.primary), page))
  {
  }

  /** The iframe flow follows the first marked iframe behind the first
      labelled trigger, and nothing when no trigger carries the label. */
  lemma IframeFollowsFirstMatch(buttonLabel: string, srcMarker: string, renderer: Renderer, page: Page, b: nat, k: nat)
    ensures (&& b < |page.seeMore| && Labelled(page.seeMore[b], buttonLabel)
             && k < |page.iframes| && Contains(page.iframes[k], srcMarker)
             && (forall j :: 0 <= j < k ==> !Contains(page.iframes[j], srcMarker))
             && page.iframes[k] in renderer)
            ==> GetQuestions(IframeRedirect(buttonLabel, srcMarker), renderer, page)
                == Ok(Gathered(Pairs(page.primary) + Pairs(renderer[page.iframes[k]].secondary),
                               renderer[page.iframes[k]]))
  {
    if && b < |page.seeMore| && Labelled(page.seeMore[b], buttonLabel)
       && k < |page.iframes| && Contains(page.iframes[k], srcMarker)
       && (forall j :: 0 <= j < k ==> !Contains(page.iframes[j], srcMarker))
       && page.iframes[k] in renderer
    {
      var variant := IframeRedirect(buttonLabel, srcMarker);
      var m := FirstMatchingSrc(page.iframes, srcMarker);
      assert m.Some?;
      assert m.value == k;
      assert FirstLabelled(page.seeMore, buttonLabel).Some?;
      assert FollowsIframe(variant, page);
      assert FollowedSrc(variant, page) == page.iframes[k];
    }
  }

  lemma IframeNeedsLabelledTrigger(buttonLabel: string, srcMarker: string, renderer: Renderer, page: Page)
    requires forall j :: 0 <= j < |page.seeMore| ==> !Labelled(page.seeMore[j], buttonLabel)
    ensures GetQuestions(IframeRedirect(buttonLabel, srcMarker), renderer, page)
         == Ok(Gathered(Pairs(page.primary), page))
  {
    assert FirstLabelled(page.seeMore, buttonLabel).None?;
  }

  /** The anchors whose `href` starts with the page origin. */
  function SameOrigin(hrefs: seq<string>, origin: string): (r: seq<Url>)
    ensures |r| <= |hrefs|
    ensures forall u :: u in r <==> u in hrefs && StartsWith(u, origin)
    decreases |hrefs|
  {
    if |hrefs| == 0 then []
    else if StartsWith(hrefs[0], origin) then [hrefs[0]] + SameOrigin(hrefs[1..], origin)
    else SameOrigin(hrefs[1..], origin)
  }

  /** A single anchor is kept exactly when it starts with the origin. */
  lemma SameOriginSingle(href: string, origin: string)
    ensures SameOrigin([href], origin) == if StartsWith(href, origin) then [href] else []
  {
    assert [href][1..] == [];
  }

  /** The filter keeps document order and repeats: anchors split anywhere
      filter to the concatenation of the filtered parts. */
  lemma {:induction false} SameOriginConcat(a: seq<string>, b: seq<string>, origin: string)
    ensures SameOrigin(a + b, origin) == SameOrigin(a, origin) + SameOrigin(b, origin)
    decreases |a|
  {
    if |a| == 0 {
      assert a + b == b;
    } else {
      assert (a + b)[0] == a[0];
      assert (a + b)[1..] == a[1..] + b;
      SameOriginConcat(a[1..], b, origin);
    }
  }

  /** The links `checkContent` returns for the page the browser is on: the
      same-origin anchors, or none when reading the anchors failed. */
  function PageLinks(page: Page): (r: seq<Url>)
    ensures forall u :: u in r ==> StartsWith(u, page.origin)
    ensures page.anchors.None? ==> r == []
    ensures page.anchors.Some? ==> forall u :: u in r <==> u in page.anchors.value && StartsWith(u, page.origin)
    // in document order, with repeats (see SameOriginConcat)
    ensures page.anchors.Some? ==> r == SameOrigin(page.anchors.value, page.origin)
  {
    match page.anchors
    case None => []
    case Some(hrefs) => SameOrigin(hrefs, page.origin)
  }

  /** The outcome of `checkContent` for one URL: the content handed to
      `saveContent`, if it ran, and the discovered links. */
  datatype Visit = Visit(content: Option<Content>, links: seq<Url>)

  /** The breadcrumb list is non-empty but too short for the index the
      adapter reads, so a getter throws. */
  predicate BreadcrumbFault(adapter: Adapter, page: Page) {
    && 0 < |page.breadcrumbs|
    && (|page.breadcrumbs| <= adapter.categoryIndex
        || (adapter.subcategoryIndex.Some? && |page.breadcrumbs| <= adapter.subcategoryIndex.value))
  }

  /** The subcategory getter, for adapters that have one. */
  function SubcategoryOf(adapter: Adapter, page: Page): (r: Result<Option<string>, Fault>)
    ensures r.Ok? ==> (r.value.Some? <==> adapter.subcategoryIndex.Some?)
    ensures r.Ok? && r.value.Some? ==> |r.value.value| <= FieldLimit
    ensures r.Err? <==> adapter.subcategoryIndex.Some? && 0 < |page.breadcrumbs| <= adapter.subcategoryIndex.value
  {
    match adapter.subcategoryIndex
    case None => Ok(None)
    case Some(i) =>
      match FieldAt(page.breadcrumbs, i, adapter.breadcrumbSource)
      case Ok(s) => Ok(Some(s))
      case Err(e) => Err(e)
  }

  /** `checkContent`: load the page, read its fields, gather and hand over
      its pairs when a primary question group exists, and return its
      same-origin links. Any thrown error is caught and turns the page into
      "no links"; pairs are handed over only after gathering succeeded. */
  function CheckContent(adapter: Adapter, renderer: Renderer, url: Url): (r: Visit)
    ensures url !in renderer ==> r == Visit(None, [])
    ensures url in renderer && BreadcrumbFault(adapter, renderer[url]) ==> r == Visit(None, [])
    ensures (url in renderer && !BreadcrumbFault(adapter, renderer[url]) && |renderer[url].primary| == 0)
              ==> r == Visit(None, PageLinks(renderer[url]))
    ensures r.content.Some? ==>
              && url in renderer
              && |renderer[url].primary| > 0
              && Pairs(renderer[url].primary) <= r.content.value.questions
              && |r.content.value.product| <= FieldLimit
              && |r.content.value.category| <= FieldLimit
              && (r.content.value.subcategory.Some? <==> adapter.subcategoryIndex.Some?)
              && (r.content.value.subcategory.Some? ==> |r.content.value.subcategory.value| <= FieldLimit)
    ensures url in renderer && !FollowsIframe(adapter.variant, renderer[url]) ==>
              forall u :: u in r.links ==> StartsWith(u, renderer[url].origin)
    // the main path: every gathered pair is handed over, and the links are
    // those of the page the browser ends on; an iframe that fails to load
    // drops the page
    ensures url in renderer && !BreadcrumbFault(adapter, renderer[url]) && |renderer[url].primary| > 0 ==>
              match GetQuestions(adapter.variant, renderer, renderer[url])
              case Err(_) => r == Visit(None, [])
              case Ok(g) => r.content.Some? && r.content.value.questions == g.questions && r.links == PageLinks(g.last)
  {
    if url !in renderer then Visit(None, [])
    else
      var page := renderer[url];
      var category := FieldAt(page.breadcrumbs, adapter.categoryIndex, adapter.breadcrumbSource);
      var product := FieldAt(page.titles, 0, TextContent);
      var subcategory := SubcategoryOf(adapter, page);
      if category.Err? || product.Err? || subcategory.Err? then Visit(None, [])
      else if |page.primary| == 0 then Visit(None, PageLinks(page))
      else
        match GetQuestions(adapter.variant, renderer, page)
        case Err(_) => Visit(None, [])
        case Ok(g) =>
          Visit(Some(Content(g.questions, product.value, category.value, subcategory.value)), PageLinks(g.last))
  }

  /** The generic inspector never hands over a subcategory. */
  lemma GenericInspectorContent(renderer: Renderer, url: Url)
    ensures var visit := CheckContent(GenericInspector, renderer, url);
            visit.content.Some? ==> visit.content.value.subcategory.None?
  {
  }

  /** Which breadcrumb counts throw: Mercado Livre reads the second
      breadcrumb, so exactly one breadcrumb throws; Zattini reads the third,
      so one or two throw; the generic inspector reads only the first. */
  lemma BreadcrumbFaultPerSite(page: Page)
    ensures BreadcrumbFault(MercadoLivre, page) <==> |page.breadcrumbs| == 1
    ensures BreadcrumbFault(Zattini, page) <==> 1 <= |page.breadcrumbs| <= 2
    ensures !BreadcrumbFault(GenericInspector, page)
  {
  }

  /** The page fields handed to `saveContent` are the getters' results. */
  lemma ContentFields(adapter: Adapter, renderer: Renderer, url: Url)
    ensures var visit := CheckContent(adapter, renderer, url);
            visit.content.Some? ==>
              && url in renderer
              && visit.content.value.category
                 == FieldAt(renderer[url].breadcrumbs, adapter.categoryIndex, adapter.breadcrumbSource).value
              && visit.content.value.product == FieldAt(renderer[url].titles, 0, TextContent).value
              && visit.content.value.subcategory == SubcategoryOf(adapter, renderer[url]).value
  {
  }

  /** Zattini stores the texts of the second and third breadcrumbs (or "" for
      both when there is none) and the text of the first product title. */
  lemma ZattiniFields(renderer: Renderer, url: Url)
    ensures var visit := CheckContent(Zattini, renderer, url);
            visit.content.Some? ==>
              var page := renderer[url];
              var c := visit.content.value;
              var bc := page.breadcrumbs;
              && ((|bc| == 0 && c.category == "" && c.subcategory == Some(""))
                  || (|bc| >= 3 && c.category == CleanField(bc[1].text)
                      && c.subcategory == Some(CleanField(bc[2].text))))
              && c.product == (if |page.titles| == 0 then "" else CleanField(page.titles[0].text))
  {
    ContentFields(Zattini, renderer, url);
  }

  /** Mercado Livre stores the `title` attributes of the first and second
      breadcrumbs (or "" for both when there is none). */
  lemma MercadoLivreFields(renderer: Renderer, url: Url)
    ensures var visit := CheckContent(MercadoLivre, renderer, url);
            visit.content.Some? ==>
              var page := renderer[url];
              var c := visit.content.value;
              var bc := page.breadcrumbs;
              && ((|bc| == 0 && c.category == "" && c.subcategory == Some(""))
                  || (|bc| >= 2 && c.category == CleanField(bc[0].title)
                      && c.subcategory == Some(CleanField(bc[1].title))))
              && c.product == (if |page.titles| == 0 then "" else CleanField(page.titles[0].text))
  {
    ContentFields(MercadoLivre, renderer, url);
  }

  /** The generic inspector stores the first breadcrumb's `title` and no
      subcategory, and only primary pairs. */
  lemma GenericInspectorFields(renderer: Renderer, url: Url)
    ensures var visit := CheckContent(GenericInspector, renderer, url);
            visit.content.Some? ==>
              var page := renderer[url];
              var c := visit.content.value;
              && c.category == (if |page.breadcrumbs| == 0 then "" else CleanField(page.breadcrumbs[0].title))
              && c.subcategory == None
              && c.questions == Pairs(page.primary)
  {
    ContentFields(GenericInspector, renderer, url);
  }
}
