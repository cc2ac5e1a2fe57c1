/** `fetch_pubmed`: the literature-search query URL for an ingredient, and
    the list of (title, url) entries taken from the listing page. The HTTP
    request and the HTML parsing are outside the model: `get` stands for
    "request this URL and parse the reply", and returns either the
    exception the request raised or the listing's result blocks in
    document order. */
module PubMed {
  import opened Outcomes
  import opened Text

  const QueryPrefix: string := "https://pubmed.ncbi.nlm.nih.gov/?term="
  const Origin: string := "https://pubmed.ncbi.nlm.nih.gov"

  /** One `<article class="full-docsum">` block as the parser sees it: the
      text of its `docsum-title` anchor (None when it has none) and the
      `href` of its first anchor (None when that anchor has no href). */
  datatype Article = Article(titleText: Option<string>, firstHref: Option<string>)

  /** A parsed listing page: its result blocks, in document order. */
  datatype Page = Page(articles: seq<Article>)

  /** One `{"title": ..., "url": ...}` entry of `fetch_pubmed`'s result. */
  datatype ReferenceEntry = ReferenceEntry(title: string, url: string)

  /** The message Python gives when `.text` is read off a missing anchor. */
  const NoTitleMessage: string := "'NoneType' object has no attribute 'text'"

  /** The query URL: the fixed prefix followed by the raw ingredient name,
      with no escaping. */
  function QueryUrl(ingredient: string): (url: string)
    ensures |url| == |QueryPrefix| + |ingredient|
    ensures QueryPrefix <= url && url[|QueryPrefix|..] == ingredient
  {
    QueryPrefix + ingredient
  }

  /** The name is read back from the query URL unchanged, so different
      ingredients are sent to different URLs. */
  lemma QueryUrlRoundTrip(ingredient: string)
    ensures DropPrefix(QueryPrefix, QueryUrl(ingredient)) == Some(ingredient)
  {
    DropPrefixConcat(QueryPrefix, ingredient);
  }

  /** Reading one result block: the title anchor's text is looked up first
      (an AttributeError when the block has none), then the first anchor's
      href (a KeyError when it has none); the link is the site origin
      followed by the href. */
  function ReadArticle(a: Article): (r: Raises<ReferenceEntry>)
    ensures a.titleText.None? ==> r == Raised(AttributeError(NoTitleMessage))
    ensures a.titleText.Some? && a.firstHref.None? ==> r == Raised(KeyError("href"))
    ensures r.Ok? <==> a.titleText.Some? && a.firstHref.Some?
    ensures r.Ok? ==> Origin <= r.value.url && r.value.url[|Origin|..] == a.firstHref.value
    ensures r.Ok? ==> r.value.title == Strip(a.titleText.value)
  {
    match a.titleText
    case None => Raised(AttributeError(NoTitleMessage))
    case Some(text) =>
      match a.firstHref
      case None => Raised(KeyError("href"))
      case Some(href) => Ok(ReferenceEntry(Strip(text), Origin + href))
  }

  predicate WellFormed(a: Article)
  {
    a.titleText.Some? && a.firstHref.Some?
  }

  /** The entries read from a page's result blocks, front to back; the
      first block that cannot be read raises and ends the reading. */
  function Links(articles: seq<Article>): (r: Raises<seq<ReferenceEntry>>)
    ensures r.Ok? <==> forall k :: 0 <= k < |articles| ==> WellFormed(articles[k])
    ensures r.Ok? ==> |r.value| == |articles|
    ensures r.Ok? ==> forall k :: 0 <= k < |articles| ==> Ok(r.value[k]) == ReadArticle(articles[k])
    decreases |articles|
  {
    if articles == [] then Ok([])
    else
      var front := articles[..|articles| - 1];
      assert forall k :: 0 <= k < |front| ==> front[k] == articles[k];
      match Links(front)
      case Raised(e) =>
        assert !WellFormed(articles[FirstBroken(front)]);
        Raised(e)
      case Ok(entries) =>
        var last := articles[|articles| - 1];
        match ReadArticle(last)
        case Raised(e) => Raised(e)
        case Ok(entry) =>
          assert forall k :: 0 <= k < |front| ==> (entries + [entry])[k] == entries[k];
          Ok(entries + [entry])
  }

  /** When block `k` is the first block that cannot be read, reading the
      page raises the exception reading that block raises. */
  lemma {:induction false} LinksRaisesFirst(articles: seq<Article>, k: nat)
    requires FirstIllFormed(articles, k)
    ensures Links(articles) == Raised(ReadArticle(articles[k]).exc)
    decreases |articles|
  {
    var front := articles[..|articles| - 1];
    assert forall m :: 0 <= m < |front| ==> front[m] == articles[m];
    if k < |front| {
      LinksRaisesFirst(front, k);
    }
  }

  /** The position of the first block that cannot be read. */
  function FirstBroken(articles: seq<Article>): (k: nat)
    requires exists m :: 0 <= m < |articles| && !WellFormed(articles[m])
    ensures FirstIllFormed(articles, k)
    decreases |articles|
  {
    if !WellFormed(articles[0]) then 0
    else
      assert forall m :: 0 <= m < |articles| - 1 ==> articles[1..][m] == articles[m + 1];
      1 + FirstBroken(articles[1..])
  }

  /** Block `k` is the first block that cannot be read. */
  predicate FirstIllFormed(articles: seq<Article>, k: nat)
  {
    && k < |articles|
    && !WellFormed(articles[k])
    && forall m :: 0 <= m < k ==> WellFormed(articles[m])
  }

  /** `fetch_pubmed` as a function: fetch the query URL, then read the
      listing. A request that raises makes the whole call raise. */
  function FetchResult(ingredient: string, get: string -> Raises<Page>): (r: Raises<seq<ReferenceEntry>>)
    ensures get(QueryUrl(ingredient)).Raised? ==> r == Raised(get(QueryUrl(ingredient)).exc)
    ensures r.Ok? <==>
              && get(QueryUrl(ingredient)).Ok?
              && forall k :: 0 <= k < |get(QueryUrl(ingredient)).value.articles| ==> WellFormed(get(QueryUrl(ingredient)).value.articles[k])
    ensures r.Ok? ==> |r.value| == |get(QueryUrl(ingredient)).value.articles|
  {
    match get(QueryUrl(ingredient))
    case Raised(e) => Raised(e)
    case Ok(page) => Links(page.articles)
  }

  /** A listing with no result blocks reads as an empty list, not as an error. */
  lemma EmptyListing(ingredient: string, get: string -> Raises<Page>)
    requires get(QueryUrl(ingredient)) == Ok(Page([]))
    ensures FetchResult(ingredient, get) == Ok([])
  {
  }

  /** Every result link is the site origin followed by its block's href,
      one link per block, in document order. */
  lemma LinksUrls(articles: seq<Article>, k: nat)
    requires Links(articles).Ok? && k < |articles|
    ensures articles[k].firstHref.Some?
    ensures |Links(articles).value| == |articles|
    ensures Links(articles).value[k].url == Origin + articles[k].firstHref.value
    ensures DropPrefix(Origin, Links(articles).value[k].url) == articles[k].firstHref
  {
    var href := articles[k].firstHref.value;
    assert Ok(Links(articles).value[k]) == ReadArticle(articles[k]);
    DropPrefixConcat(Origin, href);
  }

  /** `fetch_pubmed` as the loop it is: request the query URL, then append
      one entry per result block; the first unreadable block raises. */
  method FetchPubMed(ingredient: string, get: string -> Raises<Page>) returns (r: Raises<seq<ReferenceEntry>>)
    ensures r == FetchResult(ingredient, get)
    ensures r.Ok? ==> get(QueryUrl(ingredient)).Ok? && |r.value| == |get(QueryUrl(ingredient)).value.articles|
  {
    var url := QueryUrl(ingredient);
    var response := get(url);
    if response.Raised? {
      return Raised(response.exc);
    }
    var articles := response.value.articles;
    var results: seq<ReferenceEntry> := [];
    var i := 0;
    while i < |articles|
      invariant 0 <= i <= |articles|
      invariant Links(articles[..i]) == Ok(results)
    {
      assert articles[..i + 1][..i] == articles[..i];
      var entry := ReadArticle(articles[i]);
      if entry.Raised? {
        assert Links(articles[..i + 1]) == Raised(entry.exc);
        LinksRaisedExtends(articles, i + 1);
        return Raised(entry.exc);
      }
      results := results + [entry.value];
      i := i + 1;
    }
    assert articles[..i] == articles;
    r := Ok(results);
  }

  /** Once reading a prefix of the blocks raises, reading all of them
      raises the same exception. */
  lemma {:induction false} LinksRaisedExtends(articles: seq<Article>, n: nat)
    requires n <= |articles| && Links(articles[..n]).Raised?
    ensures Links(articles) == Links(articles[..n])
    decreases |articles| - n
  {
    if n < |articles| {
      var longer := articles[..n + 1];
      assert longer[..n] == articles[..n];
      assert longer[..|longer| - 1] == articles[..n];
      assert Links(longer) == Links(articles[..n]);
      LinksRaisedExtends(articles, n + 1);
    } else {
      assert articles[..n] == articles;
    }
  }
}
