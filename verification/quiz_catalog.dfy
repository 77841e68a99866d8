/** The catalog step of the quiz engine (`loadCatalog`): the catalog document
    names the content packs to load, either as a bare list or as the list in
    its `sources` field. Fetching is outside the model: the fetched document is
    an input, `None` when the fetch or the JSON parse failed. */
module QuizCatalog {
  import opened JsValue
  import opened Seqs

  /** `Array.isArray(data.sources)`. */
  predicate HasSourcesArray(data: Json) {
    Field(data, "sources").Some? && Field(data, "sources").value.JArr?
  }

  /** The list a catalog document carries before falsy entries are dropped:
      the document itself when it is an array, its `sources` field when that is
      an array, and nothing for every other shape (a `null` document throws on
      the field read, which the source catches and also turns into nothing). */
  function CatalogList(data: Json): (r: seq<Json>)
    ensures data.JArr? ==> r == data.elems
    ensures !data.JArr? && HasSourcesArray(data) ==> r == Field(data, "sources").value.elems
    ensures !data.JArr? && !HasSourcesArray(data) ==> r == []
  {
    match data
    case JArr(elems) => elems
    case JObj(fields) =>
      if "sources" in fields && fields["sources"].JArr? then fields["sources"].elems else []
    case _ => []
  }

  /** `loadCatalog`: the catalog's list with falsy entries removed, in order;
      a failed fetch gives the empty list. */
  function LoadCatalog(fetched: Option<Json>): (r: seq<Json>)
    ensures forall x :: x in r ==> Truthy(x)
    ensures fetched.None? ==> r == []
    ensures fetched.Some? ==> IsSubseq(r, CatalogList(fetched.value))
    ensures fetched.Some? ==>
              forall x :: multiset(r)[x] == if Truthy(x) then multiset(CatalogList(fetched.value))[x] else 0
  {
    match fetched
    case None => []
    case Some(data) => Filter(CatalogList(data), Truthy)
  }

  /** An object without a `sources` array names no packs, so nothing is loaded. */
  lemma UnrecognisedCatalogIsEmpty(other: Json)
    ensures LoadCatalog(Some(JObj(map["other" := other]))) == []
  {
  }

  /** A catalog whose entries are all non-empty strings is taken as it is,
      whether it is a bare array or wrapped in a `sources` field. */
  lemma {:induction false} StringCatalogKept(names: seq<string>)
    requires forall i :: 0 <= i < |names| ==> names[i] != ""
    ensures var list := seq(|names|, i requires 0 <= i < |names| => JStr(names[i]));
            && LoadCatalog(Some(JArr(list))) == list
            && LoadCatalog(Some(JObj(map["sources" := JArr(list)]))) == list
  {
    var list := seq(|names|, i requires 0 <= i < |names| => JStr(names[i]));
    FilterAll(list, Truthy);
  }
}
