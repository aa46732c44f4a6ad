/** Site adapters: the constants that make each of the three crawler
    classes differ (base URL, deny-list, which breadcrumb holds which field,
    and how extra questions are reached). */
module Site {
  import opened Wrappers
  import opened Text
  import opened Frontier

  /** Where a breadcrumb's value is read from. */
  datatype Source = TitleAttribute | TextContent

  /** How the questions behind a "see more" trigger are reached.
      - IframeRedirect: click the first trigger whose trimmed label is `buttonLabel`,
        then follow the first question iframe whose `src` contains `srcMarker`.
      - InlineExpansion: click the first trigger, if any; the extra questions
        appear on the same page.
      - PrimaryOnly: there is no secondary flow. */
  datatype Variant =
    | IframeRedirect(buttonLabel: string, srcMarker: string)
    | InlineExpansion
    | PrimaryOnly

  datatype Adapter = Adapter(
    baseUrl: Url,
    blocked: seq<string>,
    breadcrumbSource: Source,
    categoryIndex: nat,
    subcategoryIndex: Option<nat>,
    variant: Variant)

  const MercadoLivreBase: Url := "https://www.mercadolivre.com.br/"

  /** The Mercado Livre deny-list. The generic inspector declares an
      identical copy. */
  const MercadoLivreBlocked: seq<string> := [
    "/c/", "=cetegories", "/categorias", "/ofertas", "/cupons",
    "play.mercadolivre", "ajuda", "registration", "/jms/mlb/lgz/",
    "/gz/cart/", "/acessibilidade/feedback", "lista.mercadolivre",
    "/assinaturas/", "#root-app", "/navigation/addresses", "/veiculos/",
    "/imoveis/", "/importados/", "/produtos-sustentaveis", "/lojas-oficiais",
    "/syi/core/", "/compra-garantida/",
    "/A/1", "/B/1", "/C/1", "/D/1", "/E/1", "/F/1", "/G/1", "/H/1", "/I/1",
    "/J/1", "/K/1", "/L/1", "/M/1", "/N/1", "/O/1", "/P/1", "/Q/1", "/R/1",
    "/S/1", "/T/1", "/U/1", "/V/1", "/W/1", "/X/1", "/Y/1", "/Z/1",
    "/blog/"
  ]

  const SeeAllQuestionsLabel: string := "Ver todas as perguntas"
  const QuestionsIframeMarker: string := "/noindex/questions/"

  /** Mercado Livre: category and subcategory are the `title` attributes of
      the first and second breadcrumb; extra questions live in an iframe. */
  const MercadoLivre: Adapter := Adapter(
    MercadoLivreBase, MercadoLivreBlocked, TitleAttribute, 0, Some(1),
    IframeRedirect(SeeAllQuestionsLabel, QuestionsIframeMarker))

  const ZattiniBase: Url := "https://www.zattini.com.br/"

  const ZattiniBlocked: seq<string> := [
    "/cartao-netshoes", "/auth/login", "/institucional/acessibilidade",
    "/mobile-app-zattini", "/wishlist", "/login", "/account/", "/cart"
  ]

  /** Zattini: category and subcategory are the texts of the second and
      third breadcrumb; extra questions open in a modal on the same page. */
  const Zattini: Adapter := Adapter(
    ZattiniBase, ZattiniBlocked, TextContent, 1, Some(2), InlineExpansion)

  /** The generic inspector: Mercado Livre's base URL and deny-list, the first
      breadcrumb's `title` as category, no subcategory, primary questions
      only. */
  const GenericInspector: Adapter := Adapter(
    MercadoLivreBase, MercadoLivreBlocked, TitleAttribute, 0, None, PrimaryOnly)

  /** A Zattini cart link is on the deny-list. */
  lemma CartLinkBlocked()
    ensures Blocked(ZattiniBlocked, "https://www.zattini.com.br/cart/items")
  {
    var url := "https://www.zattini.com.br/cart/items";
    assert "/cart" <= url[26..];
    ContainsAt(url, "/cart");
    assert ZattiniBlocked[7] == "/cart";
    BlockedIffSomeEntry(ZattiniBlocked, url);
  }

  /** With the deny-list ["/cart"], a cart link is excluded and a product link
      is not (this lemma and the next). */
  lemma DenyListExcludesCart()
    ensures Blocked(["/cart"], "https://site/cart/items")
  {
    var cart := "https://site/cart/items";
    assert "/cart" <= cart[12..];
    ContainsAt(cart, "/cart");
  }

  lemma DenyListKeepsProduct()
    ensures !Blocked(["/cart"], "https://site/product/123")
  {
    var product := "https://site/product/123";
    assert 'a' in "/cart";
    MissingCharNotContained(product, "/cart", 'a');
  }
}
