/** `search_ingredient`: the ranked hits the index returns for a name query
    are reduced to one document per distinct `name`, the first one in rank
    order, and an empty hit list is a not-found error. The query itself
    (a fuzzy match on `name`) runs inside the index and is not modelled:
    the response is an input. */
module Search {
  import opened Outcomes
  import opened Records

  /** One search hit: the stored document's id and its `_source`. */
  datatype Hit = Hit(id: string, source: Document)

  /** The parts of the search response the endpoint reads:
      `response["hits"]["hits"]`, either level of which may be absent. */
  datatype HitsSection = HitsSection(hits: Option<seq<Hit>>)
  datatype SearchResponse = SearchResponse(hits: Option<HitsSection>)

  /** `response.get("hits", {}).get("hits", [])`: a missing level reads as
      no hits. */
  function HitList(response: SearchResponse): (h: seq<Hit>)
    ensures response.hits.None? ==> h == []
    ensures response.hits.Some? && response.hits.value.hits.None? ==> h == []
    ensures response.hits.Some? && response.hits.value.hits.Some? ==> h == response.hits.value.hits.value
  {
    match response.hits
    case None => []
    case Some(section) =>
      match section.hits
      case None => []
      case Some(hits) => hits
  }

  /** What the endpoint answers: the deduplicated documents, or the HTTP
      error it raises. */
  datatype SearchOutcome = Found(docs: seq<Document>) | NotFound(status: nat, detail: string)

  const NotFoundStatus: nat := 404
  const NotFoundDetail: string := "Ingredient not found"

  /** The names carried by the hits. */
  function HitNames(hits: seq<Hit>): set<string>
  {
    set k | 0 <= k < |hits| :: hits[k].source.name
  }

  /** The names carried by the documents. */
  function NamesOf(docs: seq<Document>): set<string>
  {
    set k | 0 <= k < |docs| :: docs[k].name
  }

  predicate DistinctNames(docs: seq<Document>)
  {
    forall i, j :: 0 <= i < j < |docs| ==> docs[i].name != docs[j].name
  }

  /** The values of the insertion-ordered dictionary the endpoint builds:
      walking the hits in rank order, a hit's document is kept when its name
      has not been seen before. */
  function FirstUnique(hits: seq<Hit>): (r: seq<Document>)
    ensures |r| <= |hits|
    ensures hits != [] ==> r != [] && r[0] == hits[0].source
    decreases |hits|
  {
    if hits == [] then []
    else
      var prev := FirstUnique(hits[..|hits| - 1]);
      var last := hits[|hits| - 1].source;
      if last.name in NamesOf(prev) then prev else prev + [last]
  }

  /** The kept documents carry every hit's name, and each name once. */
  lemma {:induction false} FirstUniqueNames(hits: seq<Hit>)
    ensures NamesOf(FirstUnique(hits)) == HitNames(hits)
    ensures DistinctNames(FirstUnique(hits))
    decreases |hits|
  {
    if hits != [] {
      var front := hits[..|hits| - 1];
      var prev := FirstUnique(front);
      var last := hits[|hits| - 1].source;
      FirstUniqueNames(front);
      HitNamesSnoc(hits);
      if last.name !in NamesOf(prev) {
        NamesOfSnoc(prev, last);
        assert forall i :: 0 <= i < |prev| ==> prev[i].name in NamesOf(prev);
      }
    }
  }

  /** There are as many kept documents as distinct names among the hits, so
      the result is non-empty whenever there are hits. */
  lemma {:induction false} FirstUniqueLength(hits: seq<Hit>)
    ensures |FirstUnique(hits)| == |HitNames(hits)|
    ensures hits != [] ==> |FirstUnique(hits)| > 0
    decreases |hits|
  {
    if hits != [] {
      var front := hits[..|hits| - 1];
      var prev := FirstUnique(front);
      var last := hits[|hits| - 1].source;
      FirstUniqueLength(front);
      FirstUniqueNames(front);
      HitNamesSnoc(hits);
      if last.name in NamesOf(prev) {
        assert HitNames(hits) == HitNames(front);
      } else {
        assert |HitNames(hits)| == |HitNames(front)| + 1;
      }
    }
  }

  lemma HitNamesSnoc(hits: seq<Hit>)
    requires hits != []
    ensures HitNames(hits) == HitNames(hits[..|hits| - 1]) + {hits[|hits| - 1].source.name}
  {
    var front := hits[..|hits| - 1];
    forall n | n in HitNames(hits) ensures n in HitNames(front) + {hits[|hits| - 1].source.name} {
      var k :| 0 <= k < |hits| && hits[k].source.name == n;
      if k < |front| {
        assert front[k] == hits[k];
      }
    }
    forall n | n in HitNames(front) ensures n in HitNames(hits) {
      var k :| 0 <= k < |front| && front[k].source.name == n;
      assert hits[k] == front[k];
    }
  }

  lemma NamesOfSnoc(docs: seq<Document>, d: Document)
    ensures NamesOf(docs + [d]) == NamesOf(docs) + {d.name}
  {
    var longer := docs + [d];
    forall n | n in NamesOf(longer) ensures n in NamesOf(docs) + {d.name} {
      var k :| 0 <= k < |longer| && longer[k].name == n;
      if k < |docs| {
        assert longer[k] == docs[k];
      }
    }
    forall n | n in NamesOf(docs) ensures n in NamesOf(longer) {
      var k :| 0 <= k < |docs| && docs[k].name == n;
      assert longer[k] == docs[k];
    }
    assert longer[|docs|] == d;
  }

  /** The rank of the first hit carrying `name`. */
  function FirstIndex(hits: seq<Hit>, name: string): (k: nat)
    requires name in HitNames(hits)
    ensures k < |hits| && hits[k].source.name == name
    ensures forall m :: 0 <= m < k ==> hits[m].source.name != name
    decreases |hits|
  {
    var front := hits[..|hits| - 1];
    HitNamesSnoc(hits);
    if name in HitNames(front) then
      var k := FirstIndex(front, name);
      assert forall m :: 0 <= m <= k ==> front[m] == hits[m];
      k
    else
      assert forall m :: 0 <= m < |front| ==> front[m] == hits[m] && front[m].source.name in HitNames(front);
      |hits| - 1
  }

  /** Extending the hits by one: the next hit's document is appended
      exactly when its name is new. */
  lemma FirstUniqueStep(hits: seq<Hit>, i: nat)
    requires i < |hits|
    ensures FirstUnique(hits[..i + 1]) ==
              if hits[i].source.name in NamesOf(FirstUnique(hits[..i]))
              then FirstUnique(hits[..i])
              else FirstUnique(hits[..i]) + [hits[i].source]
  {
    assert hits[..i + 1][..i] == hits[..i];
  }

  /** The first occurrence of a name that already occurs in all hits but
      the last is where it was before the last hit was added. */
  lemma FirstIndexFront(hits: seq<Hit>, name: string)
    requires hits != [] && name in HitNames(hits[..|hits| - 1])
    ensures name in HitNames(hits)
    ensures FirstIndex(hits, name) == FirstIndex(hits[..|hits| - 1], name)
  {
    HitNamesSnoc(hits);
  }

  /** The `i`-th returned document is the `_source` of the first hit
      carrying its name; later hits with that name are ignored. */
  lemma {:induction false} FirstUniqueAt(hits: seq<Hit>, i: nat)
    requires i < |FirstUnique(hits)|
    ensures FirstUnique(hits)[i].name in HitNames(hits)
    ensures FirstUnique(hits)[i] == hits[FirstIndex(hits, FirstUnique(hits)[i].name)].source
    decreases |hits|
  {
    var front := hits[..|hits| - 1];
    var prev := FirstUnique(front);
    var last := hits[|hits| - 1].source;
    HitNamesSnoc(hits);
    FirstUniqueNames(front);
    if i < |prev| {
      FirstUniqueAt(front, i);
      FirstIndexFront(hits, prev[i].name);
      var k := FirstIndex(front, prev[i].name);
      assert front[k] == hits[k];
    } else {
      assert last.name !in HitNames(front);
      assert FirstIndex(hits, last.name) == |hits| - 1;
    }
  }

  /** Returned documents come in the order in which their names first
      occur among the hits. */
  lemma {:induction false} FirstUniqueOrdered(hits: seq<Hit>, i: nat, j: nat)
    requires i < j < |FirstUnique(hits)|
    ensures FirstUnique(hits)[i].name in HitNames(hits) && FirstUnique(hits)[j].name in HitNames(hits)
    ensures FirstIndex(hits, FirstUnique(hits)[i].name) < FirstIndex(hits, FirstUnique(hits)[j].name)
    decreases |hits|
  {
    var front := hits[..|hits| - 1];
    var prev := FirstUnique(front);
    var last := hits[|hits| - 1].source;
    HitNamesSnoc(hits);
    FirstUniqueNames(front);
    assert prev[i].name in NamesOf(prev);
    FirstIndexFront(hits, prev[i].name);
    if j < |prev| {
      FirstUniqueOrdered(front, i, j);
      assert prev[j].name in NamesOf(prev);
      FirstIndexFront(hits, prev[j].name);
    } else {
      assert last.name !in HitNames(front);
      assert FirstIndex(hits, last.name) == |hits| - 1;
    }
  }

  /** The dictionary `unique` with insertion order `order` holds exactly the
      documents `kept`, in that order. */
  ghost predicate Mirrors(unique: map<string, Document>, order: seq<string>, kept: seq<Document>)
  {
    && |order| == |kept|
    && (forall k :: 0 <= k < |order| ==> order[k] == kept[k].name)
    && (forall k :: 0 <= k < |order| ==> order[k] in unique && unique[order[k]] == kept[k])
    && unique.Keys == NamesOf(kept)
  }

  /** Inserting a new name into the dictionary appends its document to the
      values, in insertion order. */
  lemma MirrorsInsert(unique: map<string, Document>, order: seq<string>, kept: seq<Document>, d: Document)
    requires Mirrors(unique, order, kept) && d.name !in unique
    ensures Mirrors(unique[d.name := d], order + [d.name], kept + [d])
  {
    NamesOfSnoc(kept, d);
  }

  /** The dictionary loop of `search_ingredient`: walking the hits in rank
      order, a hit's document is stored under its name unless that name is
      already a key; `order` records the keys in insertion order. The
      dictionary ends up holding exactly the first-occurrence documents. */
  method CollectUnique(hits: seq<Hit>) returns (unique: map<string, Document>, order: seq<string>)
    ensures Mirrors(unique, order, FirstUnique(hits))
  {
    unique := map[];
    order := [];
    var i := 0;
    ghost var kept: seq<Document> := [];   // FirstUnique(hits[..i])
    while i < |hits|
      invariant 0 <= i <= |hits|
      invariant kept == FirstUnique(hits[..i])
      invariant Mirrors(unique, order, kept)
    {
      FirstUniqueStep(hits, i);
      var source := hits[i].source;
      if source.name !in unique {
        MirrorsInsert(unique, order, kept, source);
        unique := unique[source.name := source];
        order := order + [source.name];
        kept := kept + [source];
      }
      i := i + 1;
    }
    assert hits[..i] == hits;
  }

  /** `search_ingredient` on a search response: an empty hit list raises
      the 404 "Ingredient not found" error, and otherwise the documents are
      collected in a dictionary keyed by name, keeping the first document
      seen for each name, and returned in insertion order. */
  method SearchIngredient(response: SearchResponse) returns (r: SearchOutcome)
    ensures r.NotFound? <==> HitList(response) == []
    ensures r.NotFound? ==> r.status == NotFoundStatus && r.detail == NotFoundDetail
    ensures r.Found? ==> r.docs == FirstUnique(HitList(response))
  {
    var hits := HitList(response);
    if hits == [] {
      r := NotFound(NotFoundStatus, NotFoundDetail);
      return;
    }
    var unique, order := CollectUnique(hits);
    ghost var kept := FirstUnique(hits);
    var docs: seq<Document> := [];
    var k := 0;
    while k < |order|
      invariant 0 <= k <= |order|
      invariant docs == kept[..k]
    {
      assert kept[..k + 1] == kept[..k] + [kept[k]];
      docs := docs + [unique[order[k]]];
      k := k + 1;
    }
    assert docs == kept;
    r := Found(docs);
  }
}
