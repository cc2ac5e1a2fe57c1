# Ingredient stability backend — a Dafny model

This project models the sequential logic of one FastAPI backend. The backend scrapes PubMed search listings for nutritional ingredients, stores "stability" documents in an Elasticsearch index, and searches them. It covers four pieces of `backend.py`:

- **`fetch_pubmed`** (module `PubMed`). It builds the query URL: the fixed `https://pubmed.ncbi.nlm.nih.gov/?term=` prefix followed by the raw ingredient name. It then reads each `full-docsum` result block on the parsed page. The title is the stripped text of the block's `docsum-title` anchor. The url is the site origin followed by its first anchor's `href`. A block without a title anchor raises `AttributeError`. A first anchor without an `href` raises `KeyError('href')`. A page with no blocks gives an empty list.
- **Document construction** (module `Records`). A document has `name`, `stability_info` and `references`. The `references` are the entries' urls, in order. `stability_info` is one of two sentences. The Generic sentence is used by `fetch_and_index_all`. The Counted sentence is used by `fetch_and_index` and states the number of articles in decimal.
- **`search_ingredient`** (module `Search`). An empty hit list raises HTTP 404 "Ingredient not found". Otherwise the hits are folded into a dictionary keyed by `name`. The dictionary keeps the first `_source` for each name. Its values are returned in insertion order.
- **`fetch_and_index_all` and `fetch_and_index`** (module `Batch`). The batch loop works through the fixed 18-name `ingredients_list` in order. Each name goes through fetch, build and index inside a `try`. Each name yields either `{ingredient, id, result}` or `{ingredient, error: str(e)}`, and the loop never stops early. The single-item endpoint runs the same pipeline with the Counted sentence. It lets exceptions escape.

The outside world appears only as parameters:
- `get: string -> Raises<Page>` stands for `requests.get` followed by BeautifulSoup. It maps a URL to the exception raised or to the page's result blocks.
- `store: Document -> Raises<IndexAck>` stands for `es.index`.
- A `SearchResponse` value stands for what `es.search` returned.

Python's `str.strip()` (with the full set of characters `str.isspace` accepts), `str(n)` for counts, and `str(e)` for the caught exceptions are modelled in `Text` and `Outcomes`.

Three behaviours of the code are easy to misread, and the model follows the code:
- The code never checks the HTTP status of the PubMed request. A non-success page is parsed like any other.
- A result block that is not laid out as expected raises out of `fetch_pubmed`. It is not read as "no results": the batch records it as an error entry, and the single-item endpoint propagates it.
- Reference urls are built by concatenating the origin and the `href`. They are not resolved, so an absolute `href` would give a malformed url.

## Model

| member | source | states |
|---|---|---|
| PubMed.QueryUrl | backend.py:50 | the query URL is the fixed PubMed prefix followed by the ingredient name, character for character, with no escaping |
| PubMed.QueryUrlRoundTrip | backend.py:50 | removing the prefix from the query URL gives back the raw name, so distinct names are queried at distinct URLs |
| PubMed.ReadArticle | backend.py:56-58 | a block without a title anchor raises AttributeError with Python's message; a title anchor with a first anchor lacking href raises KeyError('href'); otherwise the entry's title is the stripped anchor text and its url is the origin followed by the href |
| PubMed.Links | backend.py:54-58 | reading succeeds exactly when every block is readable, and then gives one entry per block, the k-th entry being what reading block k gives |
| PubMed.LinksRaisesFirst | backend.py:55-58 | when block k is the first unreadable block, reading the page raises exactly the exception that block raises |
| PubMed.LinksUrls | backend.py:57 | on a readable page the k-th url is the origin followed by block k's href, and dropping the origin gives the href back |
| PubMed.LinksRaisedExtends | backend.py:55-58 | once reading the first n blocks has raised, reading the whole page raises the same exception, so the loop may stop there |
| PubMed.EmptyListing | backend.py:54-60 | a page without result blocks yields an empty list, not an error |
| PubMed.FetchResult | backend.py:49-60 | a request that raises makes the fetch raise the same exception; the fetch succeeds exactly when the request succeeds and every result block is readable, and then gives one entry per block |
| PubMed.FetchPubMed | backend.py:49-60 | the loop requests only the query URL, propagates a request exception, appends one entry per block in document order, and raises at the first unreadable block, which is exactly the Links specification |
| Outcomes.Str | backend.py:92 | the caught exception's text: a KeyError shows its key between single quotes, character for character, the other exceptions show their message |
| Text.Strip | backend.py:56 | the stripped title is the slice of the text left after removing leading and trailing whitespace; everything removed is whitespace and the result neither starts nor ends with whitespace |
| Text.StripIdempotent | backend.py:56 | stripping an already stripped title changes nothing |
| Text.StripTrimmed | backend.py:56 | a text with no whitespace at either end is its own stripped form |
| Text.StripBlank | backend.py:56 | an anchor text made only of whitespace strips to the empty title |
| Text.Decimal | backend.py:138 | the count is printed as a non-empty run of decimal digits with no leading zero |
| Text.DecimalRoundTrip | backend.py:138 | reading back the printed digits gives the count |
| Text.DecimalInjective | backend.py:138 | different counts print differently |
| Records.Summary | backend.py:76 | the stability sentence is non-empty, names the ingredient right after its opening words, and in Counted mode contains the decimal count (lines 136-140) |
| Records.GenericSummaryNames | backend.py:76 | the Generic sentence does not depend on the count, and two Generic sentences are equal exactly when the names are |
| Records.CountedSummaryDecodes | backend.py:136-140 | two Counted sentences are equal exactly when both the names and the counts are, so the sentence encodes the number of articles unambiguously |
| Records.SentenceDecodes | backend.py:136-140 | a sentence made of lead, name, separator ending in a non-digit, digits and tail determines its name and its digits |
| Records.References | backend.py:77 | the references list has one url per fetched entry, the k-th being the k-th entry's url (also line 141) |
| Records.BuildDocument | backend.py:80-84 | the document's name is the ingredient, its references are the entries' urls in order with the same length, and its sentence is the mode's sentence for the number of entries (also lines 143-147) |
| Records.TitlesDropped | backend.py:77 | only urls reach the document: entries differing only in their titles give the same document |
| Search.HitList | backend.py:116 | a missing `hits` level, outer or inner, reads as no hits, and when both levels are present the hit list is exactly the one the response carries at `hits.hits` |
| Search.FirstUnique | backend.py:122-129 | never more documents than hits, and the top-ranked hit's document always comes back first |
| Search.FirstUniqueNames | backend.py:122-127 | the returned documents carry exactly the names found among the hits, and no two carry the same name |
| Search.FirstUniqueLength | backend.py:122-129 | the number of returned documents equals the number of distinct names among the hits, so it is non-zero whenever there are hits |
| Search.FirstIndex | backend.py:123-125 | the first hit carrying a name is at the returned rank, and no earlier hit carries it |
| Search.FirstUniqueAt | backend.py:123-126 | each returned document is the `_source` of the first hit carrying its name; later hits with that name are ignored |
| Search.FirstUniqueOrdered | backend.py:122-129 | returned documents are ordered by the rank at which their names first occur |
| Search.MirrorsInsert | backend.py:125-126 | inserting a new name into the insertion-ordered dictionary appends its document to the values |
| Search.CollectUnique | backend.py:122-126 | the dictionary loop leaves exactly the first-occurrence documents in the dictionary, keyed by name, with the keys in first-occurrence order |
| Search.SearchIngredient | backend.py:115-129 | not-found (404, "Ingredient not found") exactly when the response has no hits, a missing level counting as none; otherwise the dictionary loop returns the first-occurrence documents specified by FirstUnique |
| Batch.Prepare | backend.py:73-84 | building the document raises exactly when the fetch raises, with the same exception; a built document is named after the ingredient and has one reference per fetched entry |
| Batch.PreparedDocument | backend.py:73-84 | a document is prepared exactly when the request succeeds and every block is readable; it is named after the ingredient, carries the mode's sentence for the number of blocks, and its k-th reference is the origin followed by block k's href |
| Batch.ProcessItem | backend.py:71-92 | an entry names its ingredient; it is a success exactly when the document was prepared and the store accepted it, and then carries the store's id and result; otherwise its error is the raised exception's text |
| Batch.RunBatch | backend.py:67-94 | the batch has exactly one entry per name, in order, the k-th being the k-th name's own outcome |
| Batch.BatchEntriesNamed | backend.py:89-92 | the k-th entry's ingredient is the k-th name |
| Batch.ItemIsolation | backend.py:71-92 | an entry depends only on the reply to its own query and the store's treatment of its own document, so another item's failure neither changes it nor prevents it |
| Batch.ProcessAll | backend.py:67-94 | the try/except loop, which catches every failure and continues, produces exactly RunBatch over its names |
| Batch.FetchAndIndexAll | backend.py:65-94 | whenever every request and write returns or raises, the endpoint returns one entry per element of the fixed ingredient list, in list order, each naming its ingredient, whatever failed |
| Batch.FetchAndIndex | backend.py:133-150 | the single-item endpoint raises what the fetch raised, and otherwise returns the store's reply for the Counted document |
| Batch.NoArticlesCounted | backend.py:135-147 | with no result blocks, the single-item document has no references and its sentence contains the count "0" |

## Left out

- The Elasticsearch client (`es.info`, `es.index`, `es.search`) is external. Its replies are inputs, and its fuzzy `match` ranking is not modelled.
- `requests.get` and the BeautifulSoup parsing are network and a foreign library. The model starts from the parsed blocks: each block's title-anchor text and first-anchor `href`.
- Batch.ProcessItem: `store` is a function of the document alone. Two writes of the same document therefore get the same reply. In one batch every document carries a different name, so this changes nothing there. Likewise `get` is a function of the URL alone, so two requests for the same URL get the same page. The 18 names of the ingredient list are distinct and `QueryUrlRoundTrip` gives each its own URL, and the single-item endpoint makes one request, so this changes nothing either.
- `add_ingredient` (`POST /ingredients/`) is not modelled. It passes the validated request body to the store unchanged and returns the store's id and result, with no logic of its own.
- FastAPI routing, `async`, Pydantic validation, the static mount and the CORS middleware are framework wiring.
- `requests.get` is called without a timeout (backend.py:51). A request that never answers blocks the batch loop, and the endpoint never returns. The model's `get` always returns or raises, so it does not capture that hang.
- `print` is modelled as always returning. The prints inside the batch's `try` (backend.py:74 and 85) show the scraped titles and the document. If stdout cannot encode one of their characters, `print` raises `UnicodeEncodeError`, line 90 catches it, and the item becomes an error entry without being indexed. A print outside the `try` (lines 69 and 91) that raised would end the endpoint. `warnings.filterwarnings` has no effect on results.
- Search.HitList: an outer `hits` key that is present but holds `null` is read as no hits (404), while Python would raise AttributeError when it calls `.get("hits", [])` on `None`. A null inner `hits` gives 404 in both. Search replies never carry a null there.
- Outcomes.Str: a KeyError's text is the key between single quotes. That equals Python's `repr` only for keys without quote characters, backslashes or non-printing characters. `"href"` is the only key the reading of the listing page can miss. The other keys looked up (`_id` and `result` at backend.py:89, `_source` and `name` at backend.py:124) have plain ASCII names, for which it is exact too.
- A stored `_source` without a `name` field is not modelled. It would make `hit["_source"]["name"]` raise, but every write path sets `name`.
- The English wording of the sentences is copied but not reasoned about. The model proves only that the name and, in Counted mode, the count are in the sentence and can be read back.
