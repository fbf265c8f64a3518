/** Blank nodes carry no meaning of their own: rdflib mints them with fresh
    random identifiers, so two conversions of one document are meant to give
    the same graph up to a renaming of blank nodes. Here the renaming is the
    shift of every blank-node number by `k`, and a run whose allocator starts
    `k` further on is shown to give exactly the shifted graph and state. */
module Renaming {
  import opened Wrappers
  import opened Text
  import opened JsonValue
  import opened Rdf
  import opened Collaborators
  import opened JsonPath
  import opened Scheduler
  import opened Language
  import opened Rules
  import opened Conversion

  function ShiftTerm(x: Term, k: nat): Term {
    if x.Blank? then Blank(x.id + k) else x
  }

  function ShiftTriple(tr: Triple, k: nat): Triple {
    Triple(ShiftTerm(tr.subj, k), ShiftTerm(tr.pred, k), ShiftTerm(tr.obj, k))
  }

  function ShiftGraph(g: set<Triple>, k: nat): set<Triple> {
    set tr | tr in g :: ShiftTriple(tr, k)
  }

  function ShiftIds(ids: map<string, Term>, k: nat): map<string, Term> {
    map role | role in ids :: ShiftTerm(ids[role], k)
  }

  function ShiftState(st: RunState, k: nat): RunState {
    RunState(ShiftIds(st.ids, k), st.blanks + k)
  }

  /** A run's outcome with its graph and state shifted; errors name no node. */
  function ShiftRun(r: Result<(set<Triple>, RunState)>, k: nat): Result<(set<Triple>, RunState)> {
    match r
    case Success(p) => Success((ShiftGraph(p.0, k), ShiftState(p.1, k)))
    case Failure(e) => Failure(e)
  }

  /** An entry's outcome with its triples and counter shifted. */
  function ShiftEntry(r: Result<(set<Triple>, nat)>, k: nat): Result<(set<Triple>, nat)> {
    match r
    case Success(p) => Success((ShiftGraph(p.0, k), p.1 + k))
    case Failure(e) => Failure(e)
  }

  /** A triple set outcome with its triples shifted. */
  function ShiftTriples(r: Result<set<Triple>>, k: nat): Result<set<Triple>> {
    match r
    case Success(t) => Success(ShiftGraph(t, k))
    case Failure(e) => Failure(e)
  }

  // ------------------------------------------------ the shift is a renaming

  /** Shifting is one-to-one on terms, so it renames blank nodes without
      merging any two of them, and leaves IRIs and literals alone. */
  lemma ShiftTermInjective(x: Term, y: Term, k: nat)
    ensures ShiftTerm(x, k) == ShiftTerm(y, k) <==> x == y
    ensures !x.Blank? ==> ShiftTerm(x, k) == x
    ensures x.Blank? ==> ShiftTerm(x, k).Blank?
  {
  }

  /** A triple is in the shifted graph exactly when it is the shift of a
      triple of the graph. */
  lemma ShiftGraphMember(g: set<Triple>, tr: Triple, k: nat)
    ensures ShiftTriple(tr, k) in ShiftGraph(g, k) <==> tr in g
  {
    if ShiftTriple(tr, k) in ShiftGraph(g, k) {
      var u :| u in g && ShiftTriple(u, k) == ShiftTriple(tr, k);
      ShiftTermInjective(u.subj, tr.subj, k);
      ShiftTermInjective(u.pred, tr.pred, k);
      ShiftTermInjective(u.obj, tr.obj, k);
    }
  }

  lemma ShiftGraphUnion(a: set<Triple>, b: set<Triple>, k: nat)
    ensures ShiftGraph(a + b, k) == ShiftGraph(a, k) + ShiftGraph(b, k)
  {
  }

  lemma ShiftGraphSingle(x: Triple, k: nat)
    ensures ShiftGraph({x}, k) == {ShiftTriple(x, k)}
  {
    assert ShiftTriple(x, k) in ShiftGraph({x}, k);
  }

  lemma ShiftGraphEmpty(k: nat)
    ensures ShiftGraph({}, k) == {}
  {
  }

  lemma ShiftGraphOptional(c: bool, x: Triple, k: nat)
    ensures ShiftGraph(if c then {x} else {}, k) == if c then {ShiftTriple(x, k)} else {}
  {
    ShiftGraphSingle(x, k);
    ShiftGraphEmpty(k);
  }

  lemma ShiftGraphPair(x: Triple, y: Triple, k: nat)
    ensures ShiftGraph({x, y}, k) == {ShiftTriple(x, k), ShiftTriple(y, k)}
  {
    assert {x, y} == {x} + {y};
    ShiftGraphUnion({x}, {y}, k);
    ShiftGraphSingle(x, k);
    ShiftGraphSingle(y, k);
  }

  lemma ShiftGraphThree(x: Triple, y: Triple, z: Triple, k: nat)
    ensures ShiftGraph({x, y, z}, k) == {ShiftTriple(x, k), ShiftTriple(y, k), ShiftTriple(z, k)}
  {
    assert {x, y, z} == {x} + {y} + {z};
    ShiftGraphUnion({x} + {y}, {z}, k);
    ShiftGraphUnion({x}, {y}, k);
    ShiftGraphSingle(x, k);
    ShiftGraphSingle(y, k);
    ShiftGraphSingle(z, k);
  }

  /** Shifting by `i` and then by `j` is shifting by `i + j`. */
  lemma ShiftGraphCompose(g: set<Triple>, i: nat, j: nat)
    ensures ShiftGraph(ShiftGraph(g, i), j) == ShiftGraph(g, i + j)
  {
    forall tr | tr in ShiftGraph(g, i + j)
      ensures tr in ShiftGraph(ShiftGraph(g, i), j)
    {
      var u :| u in g && tr == ShiftTriple(u, i + j);
      assert ShiftTriple(u, i) in ShiftGraph(g, i);
      assert tr == ShiftTriple(ShiftTriple(u, i), j);
    }
  }

  lemma ShiftIdsUpdate(ids: map<string, Term>, role: string, x: Term, k: nat)
    ensures ShiftIds(ids[role := x], k) == ShiftIds(ids, k)[role := ShiftTerm(x, k)]
  {
  }

  lemma IdentifierShift(ids: map<string, Term>, role: string, k: nat)
    ensures var r := Identifier(ShiftIds(ids, k), role);
      && (r.Success? <==> Identifier(ids, role).Success?)
      && (r.Success? ==> r.value == ShiftTerm(Identifier(ids, role).value, k))
      && (r.Failure? ==> r == Identifier(ids, role))
  {
  }

  // ------------------------------------------------------------ one entry

  /** An author entry minted `k` nodes later is the same entry with its
      nodes shifted by `k`. */
  lemma AuthorShift(author: Json, n: nat, k: nat)
    ensures AuthorEntry(author, n + k) == ShiftEntry(AuthorEntry(author, n), k)
  {
    AuthorEntryIs(author, n);
    AuthorEntryIs(author, n + k);
    AuthorNodesShift(AuthorKind(author), n, k);
  }

  /** What an author entry decides before it mints: its type, and whether
      it has an affiliation node. */
  function AuthorKind(author: Json): (r: Result<(Term, bool)>)
    ensures r.Success? ==> r.value.0 == FoafAgent || r.value.0 == FoafOrganization
  {
    var name :- OptionalValue(author, "authorName");
    var aff :- OptionalValue(author, "authorAffiliation");
    var kind :- Classify(name, aff, "authorName", "authorAffiliation");
    var aff' := if kind == FoafOrganization then JNull else aff;
    Success((kind, Truthy(aff')))
  }

  /** The nodes an author entry mints from `n`, once its kind is known. */
  function AuthorNodes(c: Result<(Term, bool)>, n: nat): Result<(set<Triple>, nat)> {
    var (kind, two) :- c;
    if two then
      Success(({Triple(Blank(n), RdfType, kind), Triple(Blank(n + 1), RdfType, FoafOrganization),
                Triple(Blank(n), FoafMember, Blank(n + 1))}, n + 2))
    else
      Success(({Triple(Blank(n), RdfType, kind)}, n + 1))
  }

  lemma AuthorEntryIs(author: Json, n: nat)
    ensures AuthorEntry(author, n) == AuthorNodes(AuthorKind(author), n)
  {
  }

  lemma AuthorNodesShift(c: Result<(Term, bool)>, n: nat, k: nat)
    requires c.Success? ==> c.value.0.Iri?
    ensures AuthorNodes(c, n + k) == ShiftEntry(AuthorNodes(c, n), k)
  {
    if c.Success? {
      var (kind, two) := c.value;
      var x, y, z := Triple(Blank(n), RdfType, kind), Triple(Blank(n + 1), RdfType, FoafOrganization),
        Triple(Blank(n), FoafMember, Blank(n + 1));
      if two {
        ShiftGraphThree(x, y, z, k);
        assert ShiftTriple(x, k) == Triple(Blank(n + k), RdfType, kind);
        assert ShiftTriple(y, k) == Triple(Blank(n + k + 1), RdfType, FoafOrganization);
        assert ShiftTriple(z, k) == Triple(Blank(n + k), FoafMember, Blank(n + k + 1));
      } else {
        ShiftGraphSingle(x, k);
      }
    }
  }

  /** The triples of a contact node and dataset shifted by `k` are the
      triples of the shifted node and dataset. */
  lemma ContactTriplesShift(me: Term, person: bool, aff: Json, name: Json, email: Json, ds: Term, k: nat)
    ensures ShiftGraph(ContactTriples(me, person, aff, name, email, ds), k) ==
      ContactTriples(ShiftTerm(me, k), person, aff, name, email, ShiftTerm(ds, k))
  {
    var typed := Triple(me, RdfType, if person then VcardKind else VcardOrganization);
    var fn := Triple(me, VcardFn, StringLit(name));
    var link := Triple(ds, DcatContactPoint, me);
    var o := Triple(me, VcardOrganizationName, StringLit(aff));
    var m := Triple(me, VcardHasEmail, Iri("mailto:" + PyStr(email)));
    var org := if person && Truthy(aff) then {o} else {};
    var mail := if Truthy(email) then {m} else {};
    var org' := if person && Truthy(aff) then {ShiftTriple(o, k)} else {};
    var mail' := if Truthy(email) then {ShiftTriple(m, k)} else {};
    assert ShiftGraph({typed, fn, link} + org + mail, k) ==
      {ShiftTriple(typed, k), ShiftTriple(fn, k), ShiftTriple(link, k)} + org' + mail' by {
      ShiftGraphThree(typed, fn, link, k);
      ShiftGraphUnion({typed, fn, link} + org, mail, k);
      ShiftGraphUnion({typed, fn, link}, org, k);
      ShiftGraphOptional(person && Truthy(aff), o, k);
      ShiftGraphOptional(Truthy(email), m, k);
    }
  }

  /** A contact entry minted `k` nodes later, against the shifted table, is
      the same entry shifted by `k`. */
  lemma ContactShift(contact: Json, n: nat, ids: map<string, Term>, k: nat)
    ensures ContactEntry(contact, n + k, ShiftIds(ids, k)) == ShiftEntry(ContactEntry(contact, n, ids), k)
  {
    IdentifierShift(ids, "dataset", k);
    var name := OptionalValue(contact, "datasetContactName");
    var aff := OptionalValue(contact, "datasetContactAffiliation");
    var email := OptionalValue(contact, "datasetContactEmail");
    if name.Success? && aff.Success? && email.Success? && "dataset" in ids {
      var kind := Classify(name.value, aff.value, "datasetContactName", "datasetContactAffiliation");
      if kind.Success? {
        ContactTriplesShift(Blank(n), kind.value == FoafAgent, aff.value, name.value, email.value, ids["dataset"], k);
      }
    }
  }

  /** A title against the shifted table is the shifted title. */
  lemma TitleShift(field: Json, ids: map<string, Term>, k: nat)
    ensures TitleRule(field, ShiftIds(ids, k)) == ShiftTriples(TitleRule(field, ids), k)
  {
    IdentifierShift(ids, "dataset", k);
    if "dataset" in ids {
      ShiftGraphSingle(Triple(ids["dataset"], DctTitle, StringLit(GetOrNull(field, "value"))), k);
    }
  }

  /** A description against the shifted table is the shifted description,
      whichever date text it inserts. */
  lemma DescriptionShift(description: Json, ids: map<string, Term>, date: Result<string>, k: nat)
    ensures DescriptionEntryWith(description, ShiftIds(ids, k), date) ==
      ShiftTriples(DescriptionEntryWith(description, ids, date), k)
  {
    IdentifierShift(ids, "dataset", k);
    var field := Field(description, "dsDescriptionValue");
    if field.Success? && Field(field.value, "value").Success? {
      var value := Field(field.value, "value").value;
      var value' := if value == JStr("value unavailable") then JNull else value;
      var text := DescriptionText(description, value', date);
      if value' != JNull && text.Success? && "dataset" in ids {
        ShiftGraphSingle(Triple(ids["dataset"], DctDescription, Lit(text.value, XSD_STRING)), k);
      } else if value' == JNull {
        ShiftGraphEmpty(k);
      }
    }
  }

  /** A language entry against the shifted table is the shifted entry. */
  lemma LanguageShift(ext: Collaborators, language: Json, ids: map<string, Term>, k: nat)
    ensures LanguageEntry(ext, language, ShiftIds(ids, k)) == ShiftTriples(LanguageEntry(ext, language, ids), k)
  {
    IdentifierShift(ids, "dataset", k);
    var entry := AsString(language, "language");
    if entry.Success? {
      var code := FirstCode(ext, Candidates(entry.value), entry.value);
      if code.Success? && "dataset" in ids {
        ShiftGraphSingle(Triple(ids["dataset"], DctLanguage, Iri(LanguageUri(code.value))), k);
      }
    }
  }

  /** The publisher rule run from the shifted state gives the shifted
      outcome. */
  lemma PublisherShift(name: Json, st: RunState, k: nat)
    ensures PublisherRule(name, ShiftState(st, k)) == ShiftRun(PublisherRule(name, st), k)
  {
    var p := Blank(st.blanks);
    ShiftIdsUpdate(st.ids, "publisher", p, k);
    ShiftGraphPair(Triple(p, RdfType, FoafAgent), Triple(p, FoafName, StringLit(name)), k);
  }

  /** The reads of the dataset rule against the shifted table give the same
      values, with the publisher node shifted, and the same errors. */
  lemma ReadDatasetShift(ext: Collaborators, doc: Json, ids: map<string, Term>, k: nat)
    ensures var r := ReadDataset(ext, doc, ShiftIds(ids, k));
      var r0 := ReadDataset(ext, doc, ids);
      && (r.Success? <==> r0.Success?)
      && (r.Failure? ==> r == r0)
      && (r.Success? ==> r.value == r0.value.(publisher := ShiftTerm(r0.value.publisher, k)))
  {
    IdentifierShift(ids, "publisher", k);
  }

  /** The eight dataset triples of a shifted node and publisher are the
      shifted triples. */
  lemma DatasetTriplesShift(ds: Term, v: DatasetValues, k: nat)
    requires v.license.Lit? && v.version.Lit?
    ensures ShiftGraph(DatasetTriples(ds, v), k) ==
      DatasetTriples(ShiftTerm(ds, k), v.(publisher := ShiftTerm(v.publisher, k)))
  {
    var t := DatasetTriples(ds, v);
    var u := DatasetTriples(ShiftTerm(ds, k), v.(publisher := ShiftTerm(v.publisher, k)));
    forall tr | tr in u
      ensures tr in ShiftGraph(t, k)
    {
      var a :| a in t && tr == ShiftTriple(a, k);
      ShiftGraphMember(t, a, k);
    }
  }

  /** The dataset rule run from the shifted state gives the shifted
      outcome. */
  lemma DatasetRuleShift(ext: Collaborators, doc: Json, st: RunState, k: nat)
    ensures DatasetRule(ext, doc, ShiftState(st, k)) == ShiftRun(DatasetRule(ext, doc, st), k)
  {
    DatasetRuleShiftedIs(ext, doc, st, k);
    DatasetRuleAt(ext, doc, st);
    ReadOutcomeAt(ext, doc, st, k);
  }

  /** The two unfolded forms of the dataset rule, from the shifted state
      and from the original one, agree up to the shift. */
  lemma ReadOutcomeAt(ext: Collaborators, doc: Json, st: RunState, k: nat)
    ensures var ids := st.ids["dataset" := Blank(st.blanks)];
      var ids' := ShiftIds(ids, k);
      DatasetOutcome(Blank(st.blanks + k), ReadDataset(ext, doc, ids'), RawLicense(doc, Blank(st.blanks + k)),
                     RunState(ids', ShiftState(st, k).blanks + 1)) ==
        ShiftRun(DatasetOutcome(Blank(st.blanks), ReadDataset(ext, doc, ids), RawLicense(doc, Blank(st.blanks)),
                                RunState(ids, st.blanks + 1)), k)
  {
    var ds, ds' := Blank(st.blanks), Blank(st.blanks + k);
    var ids := st.ids["dataset" := ds];
    var values' := ReadDataset(ext, doc, ShiftIds(ids, k));
    ReadOutcomeShift(ext, doc, ids, ds, st.blanks, k);
    ReadDatasetShift(ext, doc, ids, k);
    RawLicenseNode(doc, ds, ds');
    StateAfterShift(ids, st, k);
    ShiftBlank(st.blanks, k);
    OutcomeRewrite(ShiftTerm(ds, k), ds', values', RawLicense(doc, ds), RawLicense(doc, ds'),
                   ShiftState(RunState(ids, st.blanks + 1), k), RunState(ShiftIds(ids, k), ShiftState(st, k).blanks + 1));
  }

  lemma OutcomeRewrite(ds: Term, ds': Term, values: Result<DatasetValues>, extra: Result<set<Triple>>, extra': Result<set<Triple>>,
                       st: RunState, st': RunState)
    requires values.Success? ==> values.value.license.Lit? && values.value.version.Lit?
    requires ds == ds' && extra == extra' && st == st'
    ensures DatasetOutcome(ds, values, extra, st) == DatasetOutcome(ds', values, extra', st')
  {
  }

  /** Once the node is minted, the rest of the dataset rule against the
      shifted table gives the shifted outcome. */
  lemma ReadOutcomeShift(ext: Collaborators, doc: Json, ids: map<string, Term>, ds: Term, b: nat, k: nat)
    ensures DatasetOutcome(ShiftTerm(ds, k), ReadDataset(ext, doc, ShiftIds(ids, k)), RawLicense(doc, ds), ShiftState(RunState(ids, b + 1), k)) ==
      ShiftRun(DatasetOutcome(ds, ReadDataset(ext, doc, ids), RawLicense(doc, ds), RunState(ids, b + 1)), k)
  {
    ReadDatasetShift(ext, doc, ids, k);
    RawLicenseShape(doc, ds);
    DatasetOutcomeShift(ds, ReadDataset(ext, doc, ids), ReadDataset(ext, doc, ShiftIds(ids, k)), RawLicense(doc, ds), RunState(ids, b + 1), k);
  }

  /** The dataset rule from the shifted state reads the shifted table with
      the shifted node recorded. */
  lemma DatasetRuleShiftedIs(ext: Collaborators, doc: Json, st: RunState, k: nat)
    ensures var ids' := ShiftIds(st.ids["dataset" := Blank(st.blanks)], k);
      DatasetRule(ext, doc, ShiftState(st, k)) ==
        DatasetOutcome(Blank(st.blanks + k), ReadDataset(ext, doc, ids'), RawLicense(doc, Blank(st.blanks + k)),
                       RunState(ids', ShiftState(st, k).blanks + 1))
  {
    DatasetNodeShift(st, k);
    DatasetRuleIs(ext, doc, ShiftState(st, k), Blank(st.blanks + k), ShiftIds(st.ids["dataset" := Blank(st.blanks)], k));
  }

  lemma ShiftBlank(i: nat, k: nat)
    ensures ShiftTerm(Blank(i), k) == Blank(i + k)
  {
  }

  lemma StateAfterShift(ids: map<string, Term>, st: RunState, k: nat)
    ensures ShiftState(RunState(ids, st.blanks + 1), k) == RunState(ShiftIds(ids, k), ShiftState(st, k).blanks + 1)
  {
  }

  lemma DatasetRuleAt(ext: Collaborators, doc: Json, st: RunState)
    ensures DatasetRule(ext, doc, st) ==
      DatasetOutcome(Blank(st.blanks), ReadDataset(ext, doc, st.ids["dataset" := Blank(st.blanks)]), RawLicense(doc, Blank(st.blanks)),
                     RunState(st.ids["dataset" := Blank(st.blanks)], st.blanks + 1))
  {
    DatasetRuleIs(ext, doc, st, Blank(st.blanks), st.ids["dataset" := Blank(st.blanks)]);
  }

  /** Recording the shifted dataset node in the shifted table is shifting
      the table with the node recorded. */
  lemma DatasetNodeShift(st: RunState, k: nat)
    ensures ShiftState(st, k).ids["dataset" := Blank(st.blanks + k)] == ShiftIds(st.ids["dataset" := Blank(st.blanks)], k)
  {
    ShiftIdsUpdate(st.ids, "dataset", Blank(st.blanks), k);
  }

  /** The dataset rule once its reads are done. */
  function DatasetOutcome(ds: Term, values: Result<DatasetValues>, extra: Result<set<Triple>>, st': RunState)
    : Result<(set<Triple>, RunState)>
    requires values.Success? ==> values.value.license.Lit? && values.value.version.Lit?
  {
    var v :- values;
    var e :- extra;
    Success((DatasetTriples(ds, v) + e, st'))
  }

  lemma DatasetRuleIs(ext: Collaborators, doc: Json, st: RunState, ds: Term, ids: map<string, Term>)
    requires ds == Blank(st.blanks) && ids == st.ids["dataset" := ds]
    ensures DatasetRule(ext, doc, st) == DatasetOutcome(ds, ReadDataset(ext, doc, ids), RawLicense(doc, ds), RunState(ids, st.blanks + 1))
  {
  }

  /** The license check does not depend on the dataset node. */
  lemma RawLicenseNode(doc: Json, ds: Term, ds': Term)
    ensures RawLicense(doc, ds) == RawLicense(doc, ds')
  {
  }

  lemma DatasetOutcomeShift(ds: Term, values: Result<DatasetValues>, values': Result<DatasetValues>,
                            extra: Result<set<Triple>>, st': RunState, k: nat)
    requires values.Success? ==> values.value.license.Lit? && values.value.version.Lit?
    requires values.Success? <==> values'.Success?
    requires values'.Failure? ==> values' == values
    requires values'.Success? ==> values'.value == values.value.(publisher := ShiftTerm(values.value.publisher, k))
    requires extra.Success? ==> extra.value == {}
    ensures DatasetOutcome(ShiftTerm(ds, k), values', extra, ShiftState(st', k)) == ShiftRun(DatasetOutcome(ds, values, extra, st'), k)
  {
    if values.Success? && extra.Success? {
      var v, v' := values.value, values'.value;
      DatasetTriplesShift(ds, v, k);
      UnionEmpty(DatasetTriples(ds, v), extra.value);
      UnionEmpty(DatasetTriples(ShiftTerm(ds, k), v'), extra.value);
    }
  }

  lemma UnionEmpty(a: set<Triple>, e: set<Triple>)
    requires e == {}
    ensures a + e == a
  {
  }

  // ---------------------------------------------------------- whole rules

  /** One entry of a list rule, minted `k` later against the shifted table. */
  lemma EntryShift(body: Body, ext: Collaborators, ids: map<string, Term>, x: Json, n: nat, k: nat)
    requires IsListRule(body)
    ensures Entry(body, ext, ShiftIds(ids, k), x, n + k) == ShiftEntry(Entry(body, ext, ids, x, n), k)
  {
    match body
    case Author => AuthorShift(x, n, k);
    case DatasetContact => ContactShift(x, n, ids, k);
    case Description =>
      DescriptionShift(x, ids, DescriptionDate(x), k);
      var t := DescriptionEntry(x, ids);
      assert DescriptionEntry(x, ShiftIds(ids, k)) == ShiftTriples(t, k);
      if t.Success? {
        assert Entry(body, ext, ids, x, n) == Success((t.value, n));
      }
    case Language => LanguageEntryShift(ext, ids, x, n, k);
  }

  /** A triple-set outcome as an entry outcome that mints nothing. */
  function AtCount(r: Result<set<Triple>>, n: nat): Result<(set<Triple>, nat)> {
    match r
    case Success(t) => Success((t, n))
    case Failure(e) => Failure(e)
  }

  lemma LanguageEntryAtCount(ext: Collaborators, ids: map<string, Term>, x: Json, n: nat)
    ensures Entry(Language, ext, ids, x, n) == AtCount(LanguageEntry(ext, x, ids), n)
  {
  }

  lemma LanguageEntryShift(ext: Collaborators, ids: map<string, Term>, x: Json, n: nat, k: nat)
    ensures Entry(Language, ext, ShiftIds(ids, k), x, n + k) == ShiftEntry(Entry(Language, ext, ids, x, n), k)
  {
    LanguageShift(ext, x, ids, k);
    LanguageEntryAtCount(ext, ids, x, n);
    LanguageEntryAtCount(ext, ShiftIds(ids, k), x, n + k);
    AtCountShift(LanguageEntry(ext, x, ids), n, k);
  }

  lemma AtCountShift(r: Result<set<Triple>>, n: nat, k: nat)
    ensures AtCount(ShiftTriples(r, k), n + k) == ShiftEntry(AtCount(r, n), k)
  {
  }

  /** The loop over the entries of a list field, started `k` later with the
      shifted table and graph, ends with the shifted graph and counter. */
  lemma FoldShift(body: Body, ext: Collaborators, ids: map<string, Term>, xs: seq<Json>,
                  acc: set<Triple>, n: nat, k: nat)
    requires IsListRule(body)
    ensures Fold(body, ext, ShiftIds(ids, k), xs, ShiftGraph(acc, k), n + k) ==
      ShiftEntry(Fold(body, ext, ids, xs, acc, n), k)
  {
    FoldIsFoldWith(body, ext, ids, xs, acc, n);
    FoldIsFoldWith(body, ext, ShiftIds(ids, k), xs, ShiftGraph(acc, k), n + k);
    EntryStepShift(body, ext, ids, k);
    FoldWithShift(EntryStep(body, ext, ids), EntryStep(body, ext, ShiftIds(ids, k)), xs, acc, n, k);
  }

  /** The entry loop with its per-entry step as a parameter. */
  function FoldWith(f: (Json, nat) -> Result<(set<Triple>, nat)>, xs: seq<Json>, acc: set<Triple>, n: nat)
    : Result<(set<Triple>, nat)>
    decreases |xs|
  {
    if xs == [] then Success((acc, n))
    else
      var p :- f(xs[0], n);
      FoldWith(f, xs[1..], acc + p.0, p.1)
  }

  /** One entry of a list rule, as a step of the entry loop. */
  function EntryStep(body: Body, ext: Collaborators, ids: map<string, Term>): (Json, nat) -> Result<(set<Triple>, nat)>
    requires IsListRule(body)
  {
    (x, m) => Entry(body, ext, ids, x, m)
  }

  lemma {:induction false} FoldIsFoldWith(body: Body, ext: Collaborators, ids: map<string, Term>, xs: seq<Json>,
                                          acc: set<Triple>, n: nat)
    requires IsListRule(body)
    ensures Fold(body, ext, ids, xs, acc, n) == FoldWith(EntryStep(body, ext, ids), xs, acc, n)
    decreases |xs|
  {
    if xs != [] {
      FoldStep(body, ext, ids, xs, acc, n);
      var e := Entry(body, ext, ids, xs[0], n);
      if e.Success? {
        FoldIsFoldWith(body, ext, ids, xs[1..], acc + e.value.0, e.value.1);
      }
    }
  }

  lemma EntryStepShiftAt(body: Body, ext: Collaborators, ids: map<string, Term>, x: Json, m: nat, k: nat)
    requires IsListRule(body)
    ensures EntryStep(body, ext, ShiftIds(ids, k))(x, m + k) == ShiftEntry(EntryStep(body, ext, ids)(x, m), k)
  {
    EntryShift(body, ext, ids, x, m, k);
    EntryStepApply(body, ext, ids, x, m);
    EntryStepApply(body, ext, ShiftIds(ids, k), x, m + k);
  }

  lemma EntryStepApply(body: Body, ext: Collaborators, ids: map<string, Term>, x: Json, m: nat)
    requires IsListRule(body)
    ensures EntryStep(body, ext, ids)(x, m) == Entry(body, ext, ids, x, m)
  {
  }

  /** Step `g` is step `f` started `k` later, with its outcome shifted by `k`. */
  ghost predicate StepsShifted(f: (Json, nat) -> Result<(set<Triple>, nat)>,
                               g: (Json, nat) -> Result<(set<Triple>, nat)>, k: nat)
  {
    forall x: Json, m: nat {:trigger f(x, m)} :: g(x, m + k) == ShiftEntry(f(x, m), k)
  }

  /** The entry steps from the shifted table are the shifted entry steps. */
  lemma EntryStepShift(body: Body, ext: Collaborators, ids: map<string, Term>, k: nat)
    requires IsListRule(body)
    ensures StepsShifted(EntryStep(body, ext, ids), EntryStep(body, ext, ShiftIds(ids, k)), k)
  {
    var f, g := EntryStep(body, ext, ids), EntryStep(body, ext, ShiftIds(ids, k));
    forall x: Json, m: nat {:trigger f(x, m)}
      ensures g(x, m + k) == ShiftEntry(f(x, m), k)
    {
      EntryStepShiftAt(body, ext, ids, x, m, k);
    }
  }

  /** A loop whose step commutes with the shift by `k` commutes with it too. */
  lemma {:induction false} FoldWithShift(f: (Json, nat) -> Result<(set<Triple>, nat)>,
                                         g: (Json, nat) -> Result<(set<Triple>, nat)>,
                                         xs: seq<Json>, acc: set<Triple>, n: nat, k: nat)
    requires StepsShifted(f, g, k)
    ensures FoldWith(g, xs, ShiftGraph(acc, k), n + k) == ShiftEntry(FoldWith(f, xs, acc, n), k)
    decreases |xs|
  {
    if xs != [] {
      var e := f(xs[0], n);
      if e.Success? {
        ShiftGraphUnion(acc, e.value.0, k);
        FoldWithShift(f, g, xs[1..], acc + e.value.0, e.value.1, k);
      }
    }
  }

  /** The entry loop after its first entry. */
  lemma FoldStep(body: Body, ext: Collaborators, ids: map<string, Term>, xs: seq<Json>, acc: set<Triple>, n: nat)
    requires IsListRule(body) && xs != []
    ensures var e := Entry(body, ext, ids, xs[0], n);
      && (e.Failure? ==> Fold(body, ext, ids, xs, acc, n) == Failure(e.error))
      && (e.Success? ==> Fold(body, ext, ids, xs, acc, n) == Fold(body, ext, ids, xs[1..], acc + e.value.0, e.value.1))
  {
  }

  /** A list rule run from the shifted state gives the shifted outcome. */
  lemma ListRuleShift(body: Body, ext: Collaborators, field: Json, st: RunState, k: nat)
    requires IsListRule(body)
    ensures ListRule(body, ext, field, ShiftState(st, k)) == ShiftRun(ListRule(body, ext, field, st), k)
  {
    ListRuleIsWith(body, ext, field, st);
    ListRuleIsWith(body, ext, field, ShiftState(st, k));
    EntryStepShift(body, ext, st.ids, k);
    ListRuleWithShift(EntryStep(body, ext, st.ids), EntryStep(body, ext, ShiftIds(st.ids, k)), field, st, k);
  }

  /** A list rule with its entry step as a parameter. */
  function ListRuleWith(f: (Json, nat) -> Result<(set<Triple>, nat)>, field: Json, st: RunState)
    : Result<(set<Triple>, RunState)>
  {
    var value :- Field(field, "value");
    var xs :- Iterate(value, "value");
    var p :- FoldWith(f, xs, {}, st.blanks);
    Success((p.0, RunState(st.ids, p.1)))
  }

  lemma ListRuleIsWith(body: Body, ext: Collaborators, field: Json, st: RunState)
    requires IsListRule(body)
    ensures ListRule(body, ext, field, st) == ListRuleWith(EntryStep(body, ext, st.ids), field, st)
  {
    var f := Field(field, "value");
    if f.Success? {
      var xs := Iterate(f.value, "value");
      if xs.Success? {
        ListRuleStep(body, ext, field, st, xs.value);
        FoldIsFoldWith(body, ext, st.ids, xs.value, {}, st.blanks);
      }
    }
  }

  lemma ListRuleWithShift(f: (Json, nat) -> Result<(set<Triple>, nat)>, g: (Json, nat) -> Result<(set<Triple>, nat)>,
                          field: Json, st: RunState, k: nat)
    requires StepsShifted(f, g, k)
    ensures ListRuleWith(g, field, ShiftState(st, k)) == ShiftRun(ListRuleWith(f, field, st), k)
  {
    var v := Field(field, "value");
    if v.Success? {
      var xs := Iterate(v.value, "value");
      if xs.Success? {
        ShiftGraphEmpty(k);
        FoldWithShift(f, g, xs.value, {}, st.blanks, k);
      }
    }
  }

  /** A list rule whose field iterates as `xs` is the entry loop over `xs`. */
  lemma ListRuleStep(body: Body, ext: Collaborators, field: Json, st: RunState, xs: seq<Json>)
    requires IsListRule(body)
    requires Field(field, "value").Success? && Iterate(Field(field, "value").value, "value") == Success(xs)
    ensures var r := Fold(body, ext, st.ids, xs, {}, st.blanks);
      ListRule(body, ext, field, st) == if r.Success? then Success((r.value.0, RunState(st.ids, r.value.1))) else Failure(r.error)
  {
  }

  /** One rule call from the shifted state gives the shifted outcome. */
  lemma ApplyRuleShift(body: Body, ext: Collaborators, v: Json, st: RunState, k: nat)
    ensures ApplyRule(body, ext, v, ShiftState(st, k)) == ShiftRun(ApplyRule(body, ext, v, st), k)
  {
    match body
    case GeneralDataset => DatasetRuleShift(ext, v, st, k);
    case GeneralPublisher => PublisherShift(v, st, k);
    case Title => TitleShift(v, st.ids, k);
    case AlternativeTitle => TitleShift(v, st.ids, k);
    case _ => ListRuleShift(body, ext, v, st, k);
  }

  /** All calls of one rule from the shifted graph and state give the
      shifted outcome. */
  lemma {:induction false} ApplyMatchesShift(body: Body, ext: Collaborators, vs: seq<Json>, acc: set<Triple>,
                                             st: RunState, k: nat)
    ensures ApplyMatches(body, ext, vs, ShiftGraph(acc, k), ShiftState(st, k)) ==
      ShiftRun(ApplyMatches(body, ext, vs, acc, st), k)
    decreases |vs|
  {
    if vs != [] {
      ApplyRuleShift(body, ext, vs[0], st, k);
      var p := ApplyRule(body, ext, vs[0], st);
      if p.Success? {
        ShiftGraphUnion(acc, p.value.0, k);
        ApplyMatchesShift(body, ext, vs[1..], acc + p.value.0, p.value.1, k);
      }
    }
  }

  /** A schedule run from the shifted graph and state ends in the shifted
      graph and state, or fails with the same error. */
  lemma {:induction false} RunRulesShift(rules: seq<Rule>, ext: Collaborators, doc: Json, acc: set<Triple>,
                                         st: RunState, k: nat)
    ensures RunRules(rules, ext, doc, ShiftGraph(acc, k), ShiftState(st, k)) ==
      ShiftRun(RunRules(rules, ext, doc, acc, st), k)
    decreases |rules|
  {
    if rules != [] {
      var vs := Find(rules[0].query, doc);
      ApplyMatchesShift(rules[0].body, ext, vs, acc, st, k);
      var p := ApplyMatches(rules[0].body, ext, vs, acc, st);
      if p.Success? {
        RunRulesShift(rules[1..], ext, doc, p.value.0, p.value.1, k);
      }
    }
  }

  /** Two conversions of one document with one schedule, from an empty
      graph and table, whose allocators start `k` apart, give the same
      graph up to the renaming of blank node `i` to `i + k`, and fail
      alike. */
  lemma FreshRunShift(rules: seq<Rule>, ext: Collaborators, doc: Json, k: nat)
    ensures RunRules(rules, ext, doc, {}, RunState(map[], k)) ==
      ShiftRun(RunRules(rules, ext, doc, {}, RunState(map[], 0)), k)
  {
    ShiftGraphEmpty(k);
    assert ShiftState(RunState(map[], 0), k) == RunState(map[], k);
    RunRulesShift(rules, ext, doc, {}, RunState(map[], 0), k);
  }
}
