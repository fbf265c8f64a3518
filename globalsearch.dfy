/** `convert_to_global_search_response`: a Dataverse search response turned
    into the entries a global-search data source returns, one per search
    item, each with a label, a description and a link to the item's page. */
module GlobalSearch {
  import opened Wrappers
  import opened JsonValue

  /** One entry of the converted response: its `label` (here `caption`, as
      `label` is a Dafny keyword), `description` and `link` keys. */
  datatype SearchEntry = SearchEntry(caption: Json, description: Json, link: Json)

  const PageSuffix: string := ".xhtml?persistentId="

  /** `base_url[:-4]`: the base URL without its last four characters (the
      trailing `api/`), or the empty string for a shorter URL. */
  function TrimApiSuffix(base: string): (r: string)
    ensures |r| == if |base| >= 4 then |base| - 4 else 0
    ensures r == base[..|r|]
  {
    if |base| >= 4 then base[..|base| - 4] else ""
  }

  /** `_get_link`: a dataverse links to its own `url`; a dataset or a file
      links to its page under the base URL, by persistent identifier; any
      other item has the empty link. */
  function LinkOf(item: Json, base: string): (r: Json)
    requires item.JObj?
    ensures GetOrNull(item, "type") != JStr("dataverse") ==> r.JStr?
    ensures var kind := GetOrNull(item, "type");
      kind == JStr("dataset") || kind == JStr("file") ==>
        var head := TrimApiSuffix(base) + kind.s + PageSuffix;
        |head| <= |r.s| && r.s[..|head|] == head
  {
    var kind := GetOrNull(item, "type");
    if kind == JStr("dataverse") then GetOrNull(item, "url")
    else if kind == JStr("dataset") then
      JStr(TrimApiSuffix(base) + "dataset" + PageSuffix + PyStr(GetOrNull(item, "global_id")))
    else if kind == JStr("file") then
      JStr(TrimApiSuffix(base) + "file" + PageSuffix + PyStr(GetOrNull(item, "file_persistent_id")))
    else JStr("")
  }

  /** The entry for one search item. */
  function EntryOf(item: Json, base: string): (r: SearchEntry)
    requires item.JObj?
    ensures r.caption == GetOrNull(item, "name") && r.description == GetOrNull(item, "description")
    ensures GetOrNull(item, "type") == JStr("dataverse") ==> r.link == GetOrNull(item, "url")
    ensures GetOrNull(item, "type") != JStr("dataverse") ==> r.link.JStr?
  {
    SearchEntry(GetOrNull(item, "name"), GetOrNull(item, "description"), LinkOf(item, base))
  }

  /** The list comprehension over the items: `.get` on an item that is not a
      dict is an AttributeError. */
  function ConvertItems(items: seq<Json>, base: string): (r: Result<seq<SearchEntry>>)
    ensures r.Success? <==> forall i :: 0 <= i < |items| ==> items[i].JObj?
    ensures r.Failure? ==> r.error == MalformedField("items")
    ensures r.Success? ==> |r.value| == |items| && forall i :: 0 <= i < |items| ==> r.value[i] == EntryOf(items[i], base)
  {
    if items == [] then Success([])
    else if !items[0].JObj? then Failure(MalformedField("items"))
    else
      var rest :- ConvertItems(items[1..], base);
      Success([EntryOf(items[0], base)] + rest)
  }

  /** `convert_to_global_search_response(response, base_url)`. */
  function ConvertToGlobalSearchResponse(response: Json, base: string): (r: Result<seq<SearchEntry>>)
    ensures !HasKey(response, "data") ==> r == Failure(MalformedField("data"))
    ensures HasKey(response, "data") && !HasKey(GetOrNull(response, "data"), "items") ==> r == Failure(MalformedField("items"))
    ensures r.Failure? ==> r.error == MalformedField("data") || r.error == MalformedField("items")
    ensures var items := GetOrNull(GetOrNull(response, "data"), "items");
      r.Success? && items.JArr? ==> |r.value| == |items.items|
  {
    var data :- Field(response, "data");
    var items :- Field(data, "items");
    var xs :- Iterate(items, "items");
    ConvertItems(xs, base)
  }

  /** Each entry carries its item's name and description unchanged and the
      item's link, in item order, and the conversion fails only on a missing
      `data`/`items` or a non-dict item. */
  lemma ConvertShape(response: Json, base: string, items: seq<Json>)
    requires Field(response, "data").Success?
    requires Field(Field(response, "data").value, "items") == Success(JArr(items))
    ensures ConvertToGlobalSearchResponse(response, base).Success? <==> forall i :: 0 <= i < |items| ==> items[i].JObj?
    ensures var r := ConvertToGlobalSearchResponse(response, base);
      r.Success? ==> |r.value| == |items| && forall i :: 0 <= i < |items| ==>
        && r.value[i].caption == GetOrNull(items[i], "name")
        && r.value[i].description == GetOrNull(items[i], "description")
        && r.value[i].link == LinkOf(items[i], base)
  {
  }

  /** The base URL ends in `api/` in use: trimming gives back the site root. */
  lemma TrimApiSuffixRoundTrip(root: string)
    ensures TrimApiSuffix(root + "api/") == root
  {
    assert (root + "api/")[..|root|] == root;
  }

  /** The link of a dataset or file item is the site root, the item type, the
      page suffix and the persistent identifier, and each piece can be read
      back from the link; a dataverse keeps its `url` and any other type gets
      the empty link. */
  lemma LinkShape(item: Json, root: string)
    requires item.JObj?
    ensures var kind := GetOrNull(item, "type");
      kind == JStr("dataverse") ==> LinkOf(item, root + "api/") == GetOrNull(item, "url")
    ensures var kind := GetOrNull(item, "type");
      kind != JStr("dataverse") && kind != JStr("dataset") && kind != JStr("file") ==> LinkOf(item, root + "api/") == JStr("")
    ensures var kind := GetOrNull(item, "type");
      (kind == JStr("dataset") || kind == JStr("file")) ==>
        var link := LinkOf(item, root + "api/");
        var id := PyStr(GetOrNull(item, if kind.s == "dataset" then "global_id" else "file_persistent_id"));
        var n := |root| + |kind.s| + |PageSuffix|;
        && link.JStr? && |link.s| == n + |id|
        && link.s[..|root|] == root
        && link.s[|root|..|root| + |kind.s|] == kind.s
        && link.s[|root| + |kind.s|..n] == PageSuffix
        && link.s[n..] == id
  {
    TrimApiSuffixRoundTrip(root);
  }
}
