/** The `Dataset` object: the decoded document, the identifier table the
    rules share, and the blank-node allocator, with `to_dcat` running the
    scheduled rules over the document. Every method is proved to agree with
    the functions of the `Rules` and `Conversion` modules. */
module DatasetModel {
  import opened Wrappers
  import opened JsonValue
  import opened Rdf
  import opened Collaborators
  import opened JsonPath
  import opened Scheduler
  import opened Language
  import opened Rules
  import opened Conversion
  import opened Registry
  import opened Renaming

  /** A method's result and the object's new state are the ones `spec`
      describes; after a failure the state is not specified, as the
      conversion stops there. */
  ghost predicate Agrees<S>(r: Result<set<Triple>>, now: S, spec: Result<(set<Triple>, S)>) {
    match spec
    case Success(p) => r == Success(p.0) && now == p.1
    case Failure(e) => r == Failure(e)
  }

  class Dataset {
    const doc: Json
    var identifiers: map<string, Term>
    /** How many blank nodes `BNode()` has handed out. */
    var blankCount: nat

    constructor(doc: Json)
      ensures this.doc == doc && identifiers == map[] && blankCount == 0
    {
      this.doc := doc;
      identifiers := map[];
      blankCount := 0;
    }

    function State(): RunState
      reads this
    {
      RunState(identifiers, blankCount)
    }

    /** `BNode()`: a node no earlier call returned. */
    method NewBlank() returns (b: Term)
      modifies this
      ensures b == Blank(old(blankCount)) && blankCount == old(blankCount) + 1
      ensures identifiers == old(identifiers)
    {
      b := Blank(blankCount);
      blankCount := blankCount + 1;
    }

    /** `general_dataset`. */
    method GeneralDataset(ext: Collaborators, v: Json) returns (r: Result<set<Triple>>)
      modifies this
      ensures Agrees(r, State(), DatasetRule(ext, v, old(State())))
    {
      var ds := NewBlank();
      identifiers := identifiers["dataset" := ds];
      var values :- ReadDataset(ext, v, identifiers);
      var extra :- RawLicense(v, ds);
      return Success(DatasetTriples(ds, values) + extra);
    }

    /** `general_publisher`. */
    method GeneralPublisher(name: Json) returns (r: Result<set<Triple>>)
      modifies this
      ensures Agrees(r, State(), PublisherRule(name, old(State())))
    {
      var p := NewBlank();
      identifiers := identifiers["publisher" := p];
      return Success({Triple(p, RdfType, FoafAgent), Triple(p, FoafName, StringLit(name))});
    }

    /** One author of `block_citation_author`. */
    method DescribeAuthor(author: Json) returns (r: Result<set<Triple>>)
      modifies this
      ensures identifiers == old(identifiers)
      ensures Agrees(r, blankCount, AuthorEntry(author, old(blankCount)))
    {
      var name :- OptionalValue(author, "authorName");
      var aff :- OptionalValue(author, "authorAffiliation");
      var kind :- Classify(name, aff, "authorName", "authorAffiliation");
      if kind == FoafOrganization {
        aff := JNull;
      }
      var me := NewBlank();
      var triples := {Triple(me, RdfType, kind)};
      if Truthy(aff) {
        var org := NewBlank();
        triples := triples + {Triple(org, RdfType, FoafOrganization), Triple(me, FoafMember, org)};
        assert triples == {Triple(me, RdfType, kind), Triple(org, RdfType, FoafOrganization), Triple(me, FoafMember, org)};
      }
      return Success(triples);
    }

    /** One contact of `block_citation_dataset_contact`, classified as an
        author is. */
    method DescribeContact(contact: Json) returns (r: Result<set<Triple>>)
      modifies this
      ensures identifiers == old(identifiers)
      ensures Agrees(r, blankCount, ContactEntry(contact, old(blankCount), identifiers))
    {
      var name :- OptionalValue(contact, "datasetContactName");
      var aff :- OptionalValue(contact, "datasetContactAffiliation");
      var kind :- Classify(name, aff, "datasetContactName", "datasetContactAffiliation");
      var person := kind == FoafAgent;
      if !person {
        aff := JNull;
      }
      var email :- OptionalValue(contact, "datasetContactEmail");
      var me := NewBlank();
      var triples := {Triple(me, RdfType, if person then VcardKind else VcardOrganization)};
      if Truthy(aff) {
        triples := triples + {Triple(me, VcardOrganizationName, StringLit(aff))};
      }
      triples := triples + {Triple(me, VcardFn, StringLit(name))};
      if Truthy(email) {
        triples := triples + {Triple(me, VcardHasEmail, Iri("mailto:" + PyStr(email)))};
      }
      var ds :- Identifier(identifiers, "dataset");
      triples := triples + {Triple(ds, DcatContactPoint, me)};
      assert triples == ContactTriples(me, person, aff, name, email, ds);
      assert ContactEntry(contact, old(blankCount), identifiers) == Success((triples, blankCount));
      return Success(triples);
    }

    /** One language of `block_citation_language`. */
    method DescribeLanguage(ext: Collaborators, language: Json) returns (r: Result<set<Triple>>)
      ensures r == LanguageEntry(ext, language, identifiers)
    {
      var entry :- AsString(language, "language");
      var code :- ResolveLanguage(ext, entry);
      var ds :- Identifier(identifiers, "dataset");
      return Success({Triple(ds, DctLanguage, Iri(LanguageUri(code)))});
    }

    /** One entry of a list-valued field. */
    method DescribeEntry(body: Body, ext: Collaborators, x: Json) returns (r: Result<set<Triple>>)
      requires IsListRule(body)
      modifies this
      ensures identifiers == old(identifiers)
      ensures Agrees(r, blankCount, Entry(body, ext, identifiers, x, old(blankCount)))
    {
      match body
      case Author => r := DescribeAuthor(x);
      case DatasetContact => r := DescribeContact(x);
      case Description => r := DescriptionEntry(x, identifiers);
      case Language => r := DescribeLanguage(ext, x);
    }

    /** The `for x in doc["value"]` loop of the list-valued rules. */
    method ListMethod(body: Body, ext: Collaborators, field: Json) returns (r: Result<set<Triple>>)
      requires IsListRule(body)
      modifies this
      ensures Agrees(r, State(), ListRule(body, ext, field, old(State())))
    {
      var value :- Field(field, "value");
      var xs :- Iterate(value, "value");
      var triples := {};
      var i := 0;
      while i < |xs|
        invariant i <= |xs|
        invariant identifiers == old(identifiers)
        invariant Fold(body, ext, identifiers, xs[i..], triples, blankCount) == Fold(body, ext, identifiers, xs, {}, old(blankCount))
      {
        assert xs[i..][1..] == xs[i + 1..];
        var t :- DescribeEntry(body, ext, xs[i]);
        triples := triples + t;
        i := i + 1;
      }
      return Success(triples);
    }

    /** Calls the method a rule body names on one matched value. */
    method Apply(body: Body, ext: Collaborators, v: Json) returns (r: Result<set<Triple>>)
      modifies this
      ensures Agrees(r, State(), ApplyRule(body, ext, v, old(State())))
    {
      match body
      case GeneralDataset => r := GeneralDataset(ext, v);
      case GeneralPublisher => r := GeneralPublisher(v);
      case Title => r := TitleRule(v, identifiers);
      case AlternativeTitle => r := TitleRule(v, identifiers);
      case _ => r := ListMethod(body, ext, v);
    }

    /** One rule on every value its path matches, adding the triples of
        each call to `graph`. */
    method ApplyAll(body: Body, ext: Collaborators, vs: seq<Json>, graph: set<Triple>) returns (r: Result<set<Triple>>)
      modifies this
      ensures Agrees(r, State(), ApplyMatches(body, ext, vs, graph, old(State())))
    {
      var g := graph;
      var m := 0;
      while m < |vs|
        invariant m <= |vs|
        invariant ApplyMatches(body, ext, vs[m..], g, State()) == ApplyMatches(body, ext, vs, graph, old(State()))
      {
        assert vs[m..][1..] == vs[m + 1..];
        var t :- Apply(body, ext, vs[m]);
        g := g + t;
        m := m + 1;
      }
      return Success(g);
    }

    /** The loop of `to_dcat` over a schedule. */
    method RunAll(rules: seq<Rule>, ext: Collaborators) returns (g: Result<set<Triple>>)
      modifies this
      ensures Agrees(g, State(), RunRules(rules, ext, doc, {}, old(State())))
    {
      var graph := {};
      var k := 0;
      while k < |rules|
        invariant k <= |rules|
        invariant RunRules(rules[k..], ext, doc, graph, State()) == RunRules(rules, ext, doc, {}, old(State()))
      {
        assert rules[k..][1..] == rules[k + 1..];
        graph :- ApplyAll(rules[k].body, ext, Find(rules[k].query, doc), graph);
        k := k + 1;
      }
      return Success(graph);
    }

    /** `to_dcat`: the rules in schedule order, each on every value its path
        matches, all triples in one graph. The result is the run of a
        schedule that respects the declared dependencies, and that run never
        lacks the dataset node. From an empty table, that run is the run from
        blank node 0 with every blank node renumbered `i` to
        `i + old(blankCount)`: where the allocator starts changes only the
        names of the blank nodes. */
    method ToDcat(ext: Collaborators) returns (g: Result<set<Triple>>)
      modifies this
      ensures exists s ::
        && multiset(s) == multiset(Catalogue) && RespectsDependencies(s)
        && Agrees(g, State(), RunRules(s, ext, doc, {}, old(State())))
        && (old(identifiers) == map[] ==>
              RunRules(s, ext, doc, {}, old(State())) ==
              ShiftRun(RunRules(s, ext, doc, {}, RunState(map[], 0)), old(blankCount)))
      ensures g != Failure(UnresolvedReference(DatasetLabel))
    {
      var rules := CatalogueSchedule();
      CatalogueResolves(rules, ext, doc, State());
      FreshRunShift(rules, ext, doc, blankCount);
      g := RunAll(rules, ext);
    }
  }
}
