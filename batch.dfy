/** The two fetch-and-index endpoints. `fetch_and_index_all` runs, for each
    name of the fixed ingredient list in order, fetch -> build (Generic
    sentence) -> index inside a try block, and records a success entry or
    the caught exception's message, never stopping early.
    `fetch_and_index` does the same for one name with the Counted sentence
    and lets any exception escape. The index store is a parameter: `store`
    gives the store's reply to a document write. */
module Batch {
  import opened Outcomes
  import opened Text
  import opened PubMed
  import opened Records

  /** The fixed enumeration the batch endpoint walks. */
  const IngredientsList: seq<string> := [
    "Vitamin B1 (Thiamine)", "Vitamin B2 (Riboflavin)", "Vitamin B3 (Niacin)",
    "Vitamin B5 (Pantothenic Acid)", "Vitamin B6 (Pyridoxine)", "Vitamin B7 (Biotin)",
    "Vitamin B9 (Folate/Folic Acid)", "Vitamin B12 (Cobalamin)", "Vitamin C (Ascorbic Acid)",
    "Vitamin A (Retinol, Beta-Carotene)", "Vitamin D (Cholecalciferol, Ergocalciferol)",
    "Vitamin E (Tocopherols, Tocotrienols)", "Vitamin K (Phylloquinone, Menaquinones)",
    "Choline", "Inositol", "Carnitine", "PABA (Para-Aminobenzoic Acid)",
    "Coenzyme Q10 (Ubiquinone)"
  ]

  /** The fields of the store's reply to a write that the endpoints pass on:
      `response["_id"]` and `response["result"]`. */
  datatype IndexAck = IndexAck(id: string, result: string)

  /** One entry of the batch result: `{ingredient, id, result}` for an
      indexed item or `{ingredient, error}` for an item whose processing
      raised. */
  datatype BatchEntry =
    | Indexed(ingredient: string, id: string, result: string)
    | Failed(ingredient: string, error: string)

  /** Fetch the listing for `ingredient` and build its document in the
      given summary mode; a fetch that raises makes this raise too. */
  function Prepare(ingredient: string, get: string -> Raises<Page>, mode: SummaryMode): (r: Raises<Document>)
    ensures r.Raised? <==> FetchResult(ingredient, get).Raised?
    ensures r.Raised? ==> r.exc == FetchResult(ingredient, get).exc
    ensures r.Ok? ==> r.value.name == ingredient && |r.value.references| == |FetchResult(ingredient, get).value|
  {
    match FetchResult(ingredient, get)
    case Raised(e) => Raised(e)
    case Ok(entries) => Ok(BuildDocument(ingredient, entries, mode))
  }

  /** End to end, a prepared document is named after the ingredient, its
      summary follows the mode with the number of result blocks, and its
      `references` are the site origin followed by each block's href, one
      per block, in document order. It is prepared exactly when the request
      succeeds and every block can be read. */
  lemma PreparedDocument(ingredient: string, get: string -> Raises<Page>, mode: SummaryMode)
    ensures Prepare(ingredient, get, mode).Ok? <==>
              get(QueryUrl(ingredient)).Ok? && Links(get(QueryUrl(ingredient)).value.articles).Ok?
    ensures Prepare(ingredient, get, mode).Ok? ==>
              var doc := Prepare(ingredient, get, mode).value;
              var articles := get(QueryUrl(ingredient)).value.articles;
              && doc.name == ingredient
              && doc.stabilityInfo == Summary(mode, ingredient, |articles|)
              && |doc.references| == |articles|
              && forall k :: 0 <= k < |articles| ==>
                   articles[k].firstHref.Some? && doc.references[k] == Origin + articles[k].firstHref.value
  {
    if Prepare(ingredient, get, mode).Ok? {
      var articles := get(QueryUrl(ingredient)).value.articles;
      forall k | 0 <= k < |articles|
        ensures articles[k].firstHref.Some?
        ensures Links(articles).value[k].url == Origin + articles[k].firstHref.value
      {
        LinksUrls(articles, k);
      }
    }
  }

  /** One pass of the batch loop's try/except: the entry names its
      ingredient; it is a success exactly when the document could be
      prepared and the store accepted it, carrying the store's id and
      result; otherwise it carries the message of the exception raised. */
  function ProcessItem(ingredient: string, get: string -> Raises<Page>, store: Document -> Raises<IndexAck>): (e: BatchEntry)
    ensures e.ingredient == ingredient
    ensures e.Indexed? <==> Prepare(ingredient, get, Generic).Ok? && store(Prepare(ingredient, get, Generic).value).Ok?
    ensures e.Indexed? ==> store(Prepare(ingredient, get, Generic).value) == Ok(IndexAck(e.id, e.result))
    ensures e.Failed? && Prepare(ingredient, get, Generic).Raised? ==>
              e.error == Str(Prepare(ingredient, get, Generic).exc)
    ensures e.Failed? && Prepare(ingredient, get, Generic).Ok? ==>
              e.error == Str(store(Prepare(ingredient, get, Generic).value).exc)
  {
    match Prepare(ingredient, get, Generic)
    case Raised(exc) => Failed(ingredient, Str(exc))
    case Ok(doc) =>
      match store(doc)
      case Raised(exc) => Failed(ingredient, Str(exc))
      case Ok(ack) => Indexed(ingredient, ack.id, ack.result)
  }

  /** The batch over `names`: one entry per name, in the same order, each
      the outcome of that name's own pass. */
  function RunBatch(names: seq<string>, get: string -> Raises<Page>, store: Document -> Raises<IndexAck>): (r: seq<BatchEntry>)
    ensures |r| == |names|
    ensures forall k :: 0 <= k < |names| ==> r[k] == ProcessItem(names[k], get, store)
  {
    Each(n => ProcessItem(n, get, store), names)
  }

  /** `f` applied to every element of `xs`, front to back. */
  function Each<A, B>(f: A -> B, xs: seq<A>): (r: seq<B>)
    ensures |r| == |xs|
    ensures forall k :: 0 <= k < |xs| ==> r[k] == f(xs[k])
    decreases |xs|
  {
    if xs == [] then []
    else
      var front := xs[..|xs| - 1];
      var r := Each(f, front) + [f(xs[|xs| - 1])];
      assert forall k :: 0 <= k < |front| ==> front[k] == xs[k] && r[k] == Each(f, front)[k];
      r
  }

  /** Each batch entry names the ingredient in its position. */
  lemma BatchEntriesNamed(names: seq<string>, get: string -> Raises<Page>, store: Document -> Raises<IndexAck>)
    ensures |RunBatch(names, get, store)| == |names|
    ensures forall k :: 0 <= k < |names| ==> RunBatch(names, get, store)[k].ingredient == names[k]
  {
  }

  /** Extending the list by one name appends that name's entry. */
  lemma RunBatchStep(names: seq<string>, i: nat, get: string -> Raises<Page>, store: Document -> Raises<IndexAck>)
    requires i < |names|
    ensures RunBatch(names[..i + 1], get, store) == RunBatch(names[..i], get, store) + [ProcessItem(names[i], get, store)]
  {
    assert names[..i + 1][..i] == names[..i];
  }

  /** Error containment: an item's entry depends only on the reply to its
      own query and on how the store treats its own document. Whatever
      the other items' fetches or writes do, including raising, does not
      change it and does not stop it from being produced. */
  lemma ItemIsolation(names: seq<string>, k: nat,
                      get1: string -> Raises<Page>, store1: Document -> Raises<IndexAck>,
                      get2: string -> Raises<Page>, store2: Document -> Raises<IndexAck>)
    requires k < |names|
    requires get1(QueryUrl(names[k])) == get2(QueryUrl(names[k]))
    requires forall d: Document :: d.name == names[k] ==> store1(d) == store2(d)
    ensures |RunBatch(names, get1, store1)| == |RunBatch(names, get2, store2)| == |names|
    ensures RunBatch(names, get1, store1)[k] == RunBatch(names, get2, store2)[k]
  {
    var p1, p2 := Prepare(names[k], get1, Generic), Prepare(names[k], get2, Generic);
    assert p1 == p2;
    if p1.Ok? {
      PreparedDocument(names[k], get1, Generic);
      assert store1(p1.value) == store2(p1.value);
    }
  }

  /** `fetch_and_index_all`: the batch loop over the fixed ingredient list.
      Whenever every request and write returns or raises, the result comes
      back with one entry per name, whatever failed. */
  method FetchAndIndexAll(get: string -> Raises<Page>, store: Document -> Raises<IndexAck>) returns (results: seq<BatchEntry>)
    ensures results == RunBatch(IngredientsList, get, store)
    ensures |results| == |IngredientsList|
    ensures forall k :: 0 <= k < |results| ==> results[k].ingredient == IngredientsList[k]
  {
    results := ProcessAll(IngredientsList, get, store);
    BatchEntriesNamed(IngredientsList, get, store);
  }

  /** The batch loop: walk `names` in order, appending one entry per name;
      a raised exception is caught and recorded, and the loop goes on. */
  method ProcessAll(names: seq<string>, get: string -> Raises<Page>, store: Document -> Raises<IndexAck>) returns (results: seq<BatchEntry>)
    ensures results == RunBatch(names, get, store)
  {
    results := [];
    var i := 0;
    while i < |names|
      invariant 0 <= i <= |names|
      invariant results == RunBatch(names[..i], get, store)
    {
      var ingredient := names[i];
      RunBatchStep(names, i, get, store);
      var entry: BatchEntry;
      var pubmedData := FetchPubMed(ingredient, get);
      if pubmedData.Raised? {
        entry := Failed(ingredient, Str(pubmedData.exc));
      } else {
        var document := BuildDocument(ingredient, pubmedData.value, Generic);
        var response := store(document);
        if response.Raised? {
          entry := Failed(ingredient, Str(response.exc));
        } else {
          entry := Indexed(ingredient, response.value.id, response.value.result);
        }
      }
      assert entry == ProcessItem(ingredient, get, store);
      results := results + [entry];
      i := i + 1;
    }
    assert names[..i] == names;
  }

  /** `fetch_and_index`: the same pipeline for one name, with the Counted
      sentence; nothing is caught, so a fetch or store exception escapes
      and the store's reply is returned as it is. */
  function FetchAndIndex(ingredient: string, get: string -> Raises<Page>, store: Document -> Raises<IndexAck>): (r: Raises<IndexAck>)
    ensures Prepare(ingredient, get, Counted).Raised? ==> r == Raised(Prepare(ingredient, get, Counted).exc)
    ensures Prepare(ingredient, get, Counted).Ok? ==> r == store(Prepare(ingredient, get, Counted).value)
  {
    match Prepare(ingredient, get, Counted)
    case Raised(e) => Raised(e)
    case Ok(doc) => store(doc)
  }

  /** With no result blocks on the page, the single-item endpoint writes a
      document with no references whose summary carries the count "0". */
  lemma NoArticlesCounted(ingredient: string, get: string -> Raises<Page>)
    requires get(QueryUrl(ingredient)) == Ok(Page([]))
    ensures Prepare(ingredient, get, Counted).Ok?
    ensures Prepare(ingredient, get, Counted).value.references == []
    ensures Occurs("0", Prepare(ingredient, get, Counted).value.stabilityInfo)
  {
    assert Decimal(0) == "0";
  }
}
