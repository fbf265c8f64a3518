/** The three JSON path shapes the rules are annotated with, and what
    `parse(path).find(doc)` yields for each: the list of matched values. */
module JsonPath {
  import opened Wrappers
  import opened JsonValue

  datatype Query =
    | Root                       // "$"
    | Key(key: string)           // "$.key"
    | CitationField(typeName: string)
      // "$.latestVersion.metadataBlocks.citation.fields[?(@.typeName == "<typeName>")]"

  /** `$.latestVersion.metadataBlocks.citation.fields`, or nothing when a step
      of the path is missing or the last value is not a list. */
  function CitationFields(doc: Json): seq<Json> {
    match Member(doc, "latestVersion")
    case None => []
    case Some(lv) =>
      match Member(lv, "metadataBlocks")
      case None => []
      case Some(mb) =>
        match Member(mb, "citation")
        case None => []
        case Some(c) =>
          match Member(c, "fields")
          case Some(JArr(fs)) => fs
          case _ => []
  }

  /** The filter `[?(@.typeName == t)]`: the elements whose `typeName` is the
      string `t`, in list order. */
  function FilterTypeName(fields: seq<Json>, t: string): (r: seq<Json>)
    ensures |r| <= |fields|
  {
    if fields == [] then []
    else
      var rest := FilterTypeName(fields[1..], t);
      if Member(fields[0], "typeName") == Some(JStr(t)) then [fields[0]] + rest else rest
  }

  /** The filter keeps the list order: filtering two lists one after the
      other gives the two filtered lists one after the other. */
  lemma {:induction false} FilterTypeNameAppend(a: seq<Json>, b: seq<Json>, t: string)
    ensures FilterTypeName(a + b, t) == FilterTypeName(a, t) + FilterTypeName(b, t)
    decreases |a|
  {
    if a == [] {
      assert a + b == b;
    } else {
      var h, rest := a[0], a[1..];
      assert a == [h] + rest && a + b == [h] + (rest + b);
      FilterTypeNameCons(h, rest + b, t);
      FilterTypeNameCons(h, rest, t);
      FilterTypeNameAppend(rest, b, t);
      var keep := if Member(h, "typeName") == Some(JStr(t)) then [h] else [];
      var fa, fb := FilterTypeName(rest, t), FilterTypeName(b, t);
      assert keep + (fa + fb) == (keep + fa) + fb;
    }
  }

  /** The filter keeps each value of the type as often as the list holds it,
      and no other value. */
  lemma {:induction false} FilterTypeNameCount(fields: seq<Json>, t: string, v: Json)
    ensures multiset(FilterTypeName(fields, t))[v] ==
      if Member(v, "typeName") == Some(JStr(t)) then multiset(fields)[v] else 0
    decreases |fields|
  {
    if fields != [] {
      assert fields == [fields[0]] + fields[1..];
      FilterTypeNameCount(fields[1..], t, v);
    }
  }

  /** The first element is kept exactly when it has the type, ahead of what
      the filter keeps of the rest; with `rest == []` this is the
      one-element case. */
  lemma FilterTypeNameCons(v: Json, rest: seq<Json>, t: string)
    ensures FilterTypeName([v] + rest, t) ==
      (if Member(v, "typeName") == Some(JStr(t)) then [v] else []) + FilterTypeName(rest, t)
  {
    assert ([v] + rest)[0] == v && ([v] + rest)[1..] == rest;
  }

  /** The matched values, in document order: `$` matches the document once;
      `$.key` matches once exactly when the document has the key; a citation
      filter matches each citation field of that type as often as it occurs,
      and no other value. */
  function Find(q: Query, doc: Json): (r: seq<Json>)
    ensures q.Root? ==> r == [doc]
    ensures q.Key? ==> (|r| == 1 <==> HasKey(doc, q.key)) && |r| <= 1
    ensures q.Key? && HasKey(doc, q.key) ==> Some(r[0]) == Member(doc, q.key)
    ensures q.CitationField? ==> forall v :: v in r <==>
      v in CitationFields(doc) && Member(v, "typeName") == Some(JStr(q.typeName))
    ensures q.CitationField? ==> forall v ::
      multiset(r)[v] == if Member(v, "typeName") == Some(JStr(q.typeName)) then multiset(CitationFields(doc))[v] else 0
  {
    assert q.CitationField? ==> forall v ::
      multiset(FilterTypeName(CitationFields(doc), q.typeName))[v] ==
        if Member(v, "typeName") == Some(JStr(q.typeName)) then multiset(CitationFields(doc))[v] else 0 by {
      if q.CitationField? {
        forall v
          ensures multiset(FilterTypeName(CitationFields(doc), q.typeName))[v] ==
            if Member(v, "typeName") == Some(JStr(q.typeName)) then multiset(CitationFields(doc))[v] else 0
        {
          FilterTypeNameCount(CitationFields(doc), q.typeName, v);
        }
      }
    }
    match q
    case Root => [doc]
    case Key(k) => if HasKey(doc, k) then [GetOrNull(doc, k)] else []
    case CitationField(t) => FilterTypeName(CitationFields(doc), t)
  }
}
