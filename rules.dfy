/** What each parsing rule of a dataset computes, as functions of the value
    its JSON path matched and of the shared state of the conversion: the
    `identifiers` table the rules fill in and read, and the number of blank
    nodes minted so far. */
module Rules {
  import opened Wrappers
  import opened Text
  import opened JsonValue
  import opened Rdf
  import opened Collaborators
  import opened Scheduler
  import opened Language

  /** `self.identifiers` and the blank-node allocator. */
  datatype RunState = RunState(ids: map<string, Term>, blanks: nat)

  /** `self.identifiers[role]`. */
  function Identifier(ids: map<string, Term>, role: string): (r: Result<Term>)
    ensures r.Success? <==> role in ids
    ensures r.Failure? ==> r.error == UnresolvedReference(role)
  {
    if role in ids then Success(ids[role]) else Failure(UnresolvedReference(role))
  }

  // ---------------------------------------------------------------- dataset

  /** A Python slice bound: negative values count from the end, and the
      result is clamped to `[0, n]`. */
  function SliceBound(x: int, n: nat): (r: nat)
    ensures r <= n
    ensures 0 <= x <= n ==> r == x
    ensures x < 0 && 0 <= x + n ==> r == x + n
    ensures x + n < 0 ==> r == 0
    ensures n < x ==> r == n
  {
    if x < 0 then (if x + n < 0 then 0 else x + n) else if x > n then n else x
  }

  /** `s[a:b]`: the characters from the clamped start up to the clamped end,
      none when the bounds cross. */
  function PySlice(s: string, a: int, b: int): (r: string)
    ensures exists i, j :: 0 <= i <= j <= |s| && r == s[i..j]
    ensures 0 <= a <= b <= |s| ==> r == s[a..b]
    ensures SliceBound(a, |s|) <= SliceBound(b, |s|) ==> r == s[SliceBound(a, |s|)..SliceBound(b, |s|)]
    ensures SliceBound(b, |s|) <= SliceBound(a, |s|) ==> r == []
  {
    var lo := SliceBound(a, |s|);
    var hi := SliceBound(b, |s|);
    if lo <= hi then s[lo..hi] else s[0..0]
  }

  /** The license literal: the first IRI found in the terms of use, typed
      `xsd:anyURI`, or else the text of the terms with the HTML stripped,
      typed `xsd:string`. */
  function LicenseLiteral(ext: Collaborators, terms: string): (r: Term)
    ensures r.Lit? && (r.dtype == XSD_ANY_URI || r.dtype == XSD_STRING)
    ensures r.dtype == XSD_ANY_URI <==> ext.searchIri(terms).Some?
  {
    assert XSD_ANY_URI[|XSD_NS|] != XSD_STRING[|XSD_NS|];
    match ext.searchIri(terms)
    case Some(span) => Lit(PySlice(terms, span.0, span.1), XSD_ANY_URI)
    case None => Lit(ext.htmlToText(terms), XSD_STRING)
  }

  /** The literal is an IRI exactly when the search finds one, and then it is
      the matched span of the terms of use; otherwise it is the converted text. */
  lemma LicenseChoice(ext: Collaborators, terms: string)
    ensures LicenseLiteral(ext, terms).Lit?
    ensures LicenseLiteral(ext, terms).dtype == XSD_ANY_URI <==> ext.searchIri(terms).Some?
    ensures ext.searchIri(terms).Some? ==>
      exists i, j :: 0 <= i <= j <= |terms| && LicenseLiteral(ext, terms).lexical == terms[i..j]
    ensures var span := ext.searchIri(terms);
      span.Some? && 0 <= span.value.0 <= span.value.1 <= |terms| ==>
        LicenseLiteral(ext, terms).lexical == terms[span.value.0..span.value.1]
    ensures ext.searchIri(terms).None? ==>
      LicenseLiteral(ext, terms) == Lit(ext.htmlToText(terms), XSD_STRING)
  {
    assert XSD_ANY_URI[|XSD_NS|] != XSD_STRING[|XSD_NS|];
  }

  /** `".".join(str(x) for x in (major, minor))`. */
  function VersionString(major: Json, minor: Json): string {
    PyStr(major) + "." + PyStr(minor)
  }

  /** For numeric versions the string splits back into the two numbers. */
  lemma VersionRoundTrip(major: nat, minor: nat)
    ensures Split(VersionString(JNum(major), JNum(minor)), '.') == [NatToString(major), NatToString(minor)]
    ensures ParseNat(NatToString(major)) == major && ParseNat(NatToString(minor)) == minor
  {
    var a, b := NatToString(major), NatToString(minor);
    assert '.' !in a by { assert forall i :: 0 <= i < |a| ==> IsDigit(a[i]); }
    assert '.' !in b by { assert forall i :: 0 <= i < |b| ==> IsDigit(b[i]); }
    assert Join([a, b], '.') == VersionString(JNum(major), JNum(minor));
    SplitJoin([a, b], '.');
    ParseNatToString(major);
    ParseNatToString(minor);
  }

  /** The values `general_dataset` reads for its eight triples. */
  datatype DatasetValues = DatasetValues(
    license: Term, url: Json, issued: Json, modified: Json, publisher: Term, version: Term)

  /** The reads of `general_dataset`, in the order the Python code evaluates
      them. The only unresolved reference is the publisher. */
  function ReadDataset(ext: Collaborators, doc: Json, ids: map<string, Term>): (r: Result<DatasetValues>)
    ensures r.Failure? && r.error.UnresolvedReference? ==> r.error.role == "publisher" && "publisher" !in ids
    ensures r.Success? ==> "publisher" in ids && r.value.publisher == ids["publisher"] && r.value.license.Lit?
    ensures r.Success? ==> r.value.version.Lit?
    ensures r.Success? ==>
      var latest := GetOrNull(doc, "latestVersion");
      && GetOrNull(latest, "termsOfUse").JStr?
      && r.value.license == LicenseLiteral(ext, GetOrNull(latest, "termsOfUse").s)
      && r.value.url == GetOrNull(doc, "persistentUrl")
      && r.value.issued == GetOrNull(doc, "publicationDate")
      && r.value.modified == GetOrNull(latest, "lastUpdateTime")
      && r.value.version ==
           Lit(VersionString(GetOrNull(latest, "versionNumber"), GetOrNull(latest, "versionMinorNumber")), XSD_STRING)
  {
    var latest :- Field(doc, "latestVersion");
    var terms :- Field(latest, "termsOfUse");
    var termsText :- AsString(terms, "termsOfUse");
    var license := LicenseLiteral(ext, termsText);
    LicenseChoice(ext, termsText);
    var url :- Field(doc, "persistentUrl");
    var issued :- Field(doc, "publicationDate");
    var modified :- Field(latest, "lastUpdateTime");
    var publisher :- Identifier(ids, "publisher");
    var major :- Field(latest, "versionNumber");
    var minor :- Field(latest, "versionMinorNumber");
    Success(DatasetValues(license, url, issued, modified, publisher, Lit(VersionString(major, minor), XSD_STRING)))
  }

  /** The eight triples `general_dataset` always emits about the dataset node. */
  function DatasetTriples(ds: Term, v: DatasetValues): (t: set<Triple>)
    requires v.license.Lit? && v.version.Lit?
    ensures forall tr :: tr in t ==> tr.subj == ds && (tr.pred == DctLicense ==> tr.obj.Lit?)
    ensures forall tr :: tr in t ==> !tr.pred.Blank? && (tr.obj.Blank? ==> tr.obj == v.publisher)
    ensures Triple(ds, RdfType, DcatDataset) in t && Triple(ds, DctPublisher, v.publisher) in t
    ensures Triple(ds, DctLicense, v.license) in t
    ensures Triple(ds, PavVersion, v.version) in t && Triple(ds, OwlVersionInfo, v.version) in t
  {
    {
      Triple(ds, RdfType, DcatDataset),
      Triple(ds, DctIdentifier, Lit(PyStr(v.url), XSD_ANY_URI)),
      Triple(ds, DctIssued, Lit(PyStr(v.issued), XSD_DATE)),
      Triple(ds, DctModified, Lit(PyStr(v.modified), XSD_DATE_TIME)),
      Triple(ds, DctPublisher, v.publisher),
      Triple(ds, PavVersion, v.version),
      Triple(ds, OwlVersionInfo, v.version),
      Triple(ds, DctLicense, v.license)
    }
  }

  /** The license name of the latest version, upper-cased. */
  function LicenseName(doc: Json): Result<string> {
    var latest :- Field(doc, "latestVersion");
    var name :- Field(latest, "license");
    var text :- AsString(name, "license");
    Success(Upper(text))
  }

  /** The extra `dcterms:license` triple whose object is the document's own
      `license` value, wanted unless the license name is "NONE". That value
      never reaches the graph: a missing key is a KeyError, a dict or list
      cannot be put in the set of triples (TypeError), and any other decoded
      value is refused by rdflib's `Graph.add`, which only takes RDF terms.
      The method's triples go to `Graph.add` right after it returns, so the
      refusal is modelled here. */
  function RawLicense(doc: Json, ds: Term): (r: Result<set<Triple>>)
    ensures r.Success? <==> LicenseName(doc) == Success("NONE")
    ensures r.Success? ==> r.value == {}
    ensures r.Failure? ==> !r.error.UnresolvedReference?
  {
    var name :- LicenseName(doc);
    if name != "NONE" then
      var raw :- Field(doc, "license");
      if raw.JObj? || raw.JArr? then Failure(Unhashable("license")) else Failure(NotATerm("license"))
    else
      Success({})
  }

  /** `general_dataset`: mints the dataset node and records it as
      `identifiers["dataset"]` before it reads anything. */
  function DatasetRule(ext: Collaborators, doc: Json, st: RunState): (r: Result<(set<Triple>, RunState)>)
    ensures r.Success? ==> r.value.1 == RunState(st.ids["dataset" := Blank(st.blanks)], st.blanks + 1)
    ensures r.Success? ==> LicenseName(doc) == Success("NONE") && "publisher" in st.ids
    ensures r.Failure? && r.error.UnresolvedReference? ==> r.error == UnresolvedReference("publisher") && "publisher" !in st.ids
  {
    var ds := Blank(st.blanks);
    var st' := RunState(st.ids["dataset" := ds], st.blanks + 1);
    var values :- ReadDataset(ext, doc, st'.ids);
    var extra :- RawLicense(doc, ds);
    Success((DatasetTriples(ds, values) + extra, st'))
  }

  /** The license check passes exactly when the license name is "NONE", and
      adds nothing; any other name stops the conversion, with the error the
      kind of the `license` value decides. */
  lemma RawLicenseShape(doc: Json, ds: Term)
    ensures RawLicense(doc, ds).Success? <==> LicenseName(doc) == Success("NONE")
    ensures RawLicense(doc, ds).Success? ==> RawLicense(doc, ds).value == {}
    ensures LicenseName(doc).Success? && LicenseName(doc).value != "NONE" ==>
      && (!HasKey(doc, "license") ==> RawLicense(doc, ds) == Failure(MalformedField("license")))
      && (HasKey(doc, "license") && (GetOrNull(doc, "license").JObj? || GetOrNull(doc, "license").JArr?) ==>
            RawLicense(doc, ds) == Failure(Unhashable("license")))
      && (HasKey(doc, "license") && !GetOrNull(doc, "license").JObj? && !GetOrNull(doc, "license").JArr? ==>
            RawLicense(doc, ds) == Failure(NotATerm("license")))
    ensures RawLicense(doc, ds).Failure? ==> !RawLicense(doc, ds).error.UnresolvedReference?
  {
  }

  /** The dataset rule describes one fresh node and records it as the
      dataset. It succeeds only for the license name "NONE", and then emits
      exactly the eight triples: the type, the persistent URL, the dates,
      the publisher, the version string twice and the terms-of-use license
      literal. Its only unresolved reference is a missing publisher. */
  lemma DatasetRuleShape(ext: Collaborators, doc: Json, st: RunState)
    ensures DatasetRule(ext, doc, st).Failure? && DatasetRule(ext, doc, st).error.UnresolvedReference? ==>
      DatasetRule(ext, doc, st).error.role == "publisher" && "publisher" !in st.ids
    ensures DatasetRule(ext, doc, st).Success? ==>
      var (t, st') := DatasetRule(ext, doc, st).value;
      var ds := Blank(st.blanks);
      && st' == RunState(st.ids["dataset" := ds], st.blanks + 1)
      && (forall tr :: tr in t ==> tr.subj == ds)
      && (forall tr :: tr in t ==> !tr.pred.Blank? && (tr.obj.Blank? ==> tr.obj == st.ids["publisher"]))
      && Triple(ds, RdfType, DcatDataset) in t
      && "publisher" in st.ids && Triple(ds, DctPublisher, st.ids["publisher"]) in t
      && LicenseName(doc) == Success("NONE")
    ensures DatasetRule(ext, doc, st).Success? ==>
      var t := DatasetRule(ext, doc, st).value.0;
      var ds := Blank(st.blanks);
      var latest := GetOrNull(doc, "latestVersion");
      var version :=
        Lit(VersionString(GetOrNull(latest, "versionNumber"), GetOrNull(latest, "versionMinorNumber")), XSD_STRING);
      && GetOrNull(latest, "termsOfUse").JStr?
      && t == {
        Triple(ds, RdfType, DcatDataset),
        Triple(ds, DctIdentifier, Lit(PyStr(GetOrNull(doc, "persistentUrl")), XSD_ANY_URI)),
        Triple(ds, DctIssued, Lit(PyStr(GetOrNull(doc, "publicationDate")), XSD_DATE)),
        Triple(ds, DctModified, Lit(PyStr(GetOrNull(latest, "lastUpdateTime")), XSD_DATE_TIME)),
        Triple(ds, DctPublisher, st.ids["publisher"]),
        Triple(ds, PavVersion, version),
        Triple(ds, OwlVersionInfo, version),
        Triple(ds, DctLicense, LicenseLiteral(ext, GetOrNull(latest, "termsOfUse").s))
      }
  {
    var ds := Blank(st.blanks);
    var ids := st.ids["dataset" := ds];
    assert "publisher" in ids <==> "publisher" in st.ids;
    RawLicenseShape(doc, ds);
    var r := ReadDataset(ext, doc, ids);
    var x := RawLicense(doc, ds);
    if r.Success? && x.Success? {
      assert ids["publisher"] == st.ids["publisher"];
      assert DatasetRule(ext, doc, st).value.0 == DatasetTriples(ds, r.value);
    }
  }

  // -------------------------------------------------------------- publisher

  /** `general_publisher`: a fresh `foaf:Agent` node named after the
      publisher, recorded as `identifiers["publisher"]`. */
  function PublisherRule(name: Json, st: RunState): (r: Result<(set<Triple>, RunState)>)
    ensures r.Success?
    ensures var p := Blank(st.blanks);
      && r.value.1 == RunState(st.ids["publisher" := p], st.blanks + 1)
      && r.value.0 == {Triple(p, RdfType, FoafAgent), Triple(p, FoafName, StringLit(name))}
  {
    var p := Blank(st.blanks);
    Success(({Triple(p, RdfType, FoafAgent), Triple(p, FoafName, StringLit(name))},
             RunState(st.ids["publisher" := p], st.blanks + 1)))
  }

  // ----------------------------------------------------------------- titles

  /** `block_citation_title` and `block_citation_alternative_title`, whose
      bodies are the same: the field's value as a `dcterms:title` of the
      dataset. The dataset reference is read before the value. */
  function TitleRule(field: Json, ids: map<string, Term>): (r: Result<set<Triple>>)
    ensures r.Success? <==> "dataset" in ids && HasKey(field, "value")
    ensures r.Success? ==> r.value == {Triple(ids["dataset"], DctTitle, StringLit(GetOrNull(field, "value")))}
    ensures "dataset" !in ids ==> r == Failure(UnresolvedReference("dataset"))
  {
    var ds :- Identifier(ids, "dataset");
    var v :- Field(field, "value");
    Success({Triple(ds, DctTitle, StringLit(v))})
  }

  // ------------------------------------------------------ author and contact

  /** The person-or-organization test shared by authors and contacts: with no
      affiliation the entry is an organization; otherwise it is a person
      (`foaf:Agent`) when the affiliation and the name differ ignoring case.
      `.lower()` on a value that is not a string is an AttributeError. */
  function Classify(name: Json, aff: Json, nameField: string, affField: string): (r: Result<Term>)
    ensures r.Success? ==> r.value == FoafAgent || r.value == FoafOrganization
    ensures r == Success(FoafAgent) <==> aff.JStr? && name.JStr? && Lower(aff.s) != Lower(name.s)
    ensures r.Failure? <==> aff != JNull && (!aff.JStr? || !name.JStr?)
    ensures r.Failure? ==> r.error.NotAString?
  {
    if aff == JNull then Success(FoafOrganization)
    else
      var a :- LowerOf(aff, affField);
      var n :- LowerOf(name, nameField);
      Success(if a != n then FoafAgent else FoafOrganization)
  }

  /** One author: a fresh node typed person or organization; a person whose
      affiliation is a non-empty string also gets a fresh `foaf:Organization`
      node it is a `foaf:member` of. An organization's affiliation is dropped. */
  function AuthorEntry(author: Json, n: nat): (r: Result<(set<Triple>, nat)>)
    ensures r.Failure? ==> !r.error.UnresolvedReference?
    ensures r.Success? ==> n < r.value.1 <= n + 2
    ensures r.Success? ==> forall tr :: tr in r.value.0 ==> tr.subj.Blank? && n <= tr.subj.id < r.value.1
    ensures r.Success? ==>
      Triple(Blank(n), RdfType, FoafAgent) in r.value.0 || Triple(Blank(n), RdfType, FoafOrganization) in r.value.0
  {
    var name :- OptionalValue(author, "authorName");
    var aff :- OptionalValue(author, "authorAffiliation");
    var kind :- Classify(name, aff, "authorName", "authorAffiliation");
    var aff' := if kind == FoafOrganization then JNull else aff;
    var me := Blank(n);
    if Truthy(aff') then
      var org := Blank(n + 1);
      Success(({Triple(me, RdfType, kind), Triple(org, RdfType, FoafOrganization), Triple(me, FoafMember, org)}, n + 2))
    else
      Success(({Triple(me, RdfType, kind)}, n + 1))
  }

  /** An author is a person exactly when its affiliation is a string that
      differs from its name ignoring case; then, and only when that
      affiliation is not empty, a membership in a second fresh node is
      emitted. Otherwise it is an organization with no membership. */
  lemma AuthorClassification(author: Json, n: nat, name: Json, aff: Json)
    requires OptionalValue(author, "authorName") == Success(name)
    requires OptionalValue(author, "authorAffiliation") == Success(aff)
    ensures AuthorEntry(author, n).Success? <==> aff == JNull || (aff.JStr? && name.JStr?)
    ensures AuthorEntry(author, n).Success? ==>
      var (t, n') := AuthorEntry(author, n).value;
      var person := aff.JStr? && name.JStr? && Lower(aff.s) != Lower(name.s);
      && (Triple(Blank(n), RdfType, FoafAgent) in t <==> person)
      && (Triple(Blank(n), RdfType, FoafOrganization) in t <==> !person)
      && ((exists tr :: tr in t && tr.pred == FoafMember) <==> person && aff.s != "")
      && (forall tr :: tr in t ==> tr.subj == Blank(n) || tr.subj == Blank(n + 1))
      && n' == (if person && aff.s != "" then n + 2 else n + 1)
      && (person && aff.s != "" ==>
            t == {Triple(Blank(n), RdfType, FoafAgent), Triple(Blank(n + 1), RdfType, FoafOrganization),
                  Triple(Blank(n), FoafMember, Blank(n + 1))})
      && (!(person && aff.s != "") ==>
            t == {Triple(Blank(n), RdfType, if person then FoafAgent else FoafOrganization)})
  {
    VocabularyDistinct();
    var kind := Classify(name, aff, "authorName", "authorAffiliation");
    if kind.Success? {
      var me := Blank(n);
      var person := aff.JStr? && name.JStr? && Lower(aff.s) != Lower(name.s);
      assert kind.value == if person then FoafAgent else FoafOrganization;
      if person && aff.s != "" {
        var t := {Triple(me, RdfType, FoafAgent), Triple(Blank(n + 1), RdfType, FoafOrganization), Triple(me, FoafMember, Blank(n + 1))};
        assert AuthorEntry(author, n) == Success((t, n + 2));
        assert Triple(me, FoafMember, Blank(n + 1)) in t;
      } else {
        assert AuthorEntry(author, n) == Success(({Triple(me, RdfType, kind.value)}, n + 1));
      }
    }
  }

  /** The contact classification as written: `.lower()` is called on the
      affiliation unconditionally, so a contact without an affiliation fails. */
  function ContactKindAsWritten(name: Json, aff: Json): (r: Result<Term>)
    ensures aff == JNull ==> r == Failure(NotAString("datasetContactAffiliation"))
  {
    var a :- LowerOf(aff, "datasetContactAffiliation");
    var n :- LowerOf(name, "datasetContactName");
    Success(if a != n then FoafAgent else FoafOrganization)
  }

  /** The two classifications agree wherever the written one succeeds; the
      written one fails on every contact without an affiliation, which the
      shared test classifies as an organization. */
  lemma ContactKindCorrection(name: Json, aff: Json)
    ensures ContactKindAsWritten(name, aff).Success? ==>
      ContactKindAsWritten(name, aff) == Classify(name, aff, "datasetContactName", "datasetContactAffiliation")
    ensures aff == JNull ==>
      && ContactKindAsWritten(name, aff).Failure?
      && Classify(name, aff, "datasetContactName", "datasetContactAffiliation") == Success(FoafOrganization)
  {
  }

  /** A contact that gives only a name: the written rule stops the whole
      conversion with an AttributeError, the corrected one describes an
      organization contact. */
  lemma ContactWithoutAffiliation(ids: map<string, Term>)
    requires "dataset" in ids
    ensures var contact := JObj([("datasetContactName", JObj([("value", JStr("Jane Doe"))]))]);
      && OptionalValue(contact, "datasetContactAffiliation") == Success(JNull)
      && ContactKindAsWritten(JStr("Jane Doe"), JNull).Failure?
      && ContactEntry(contact, 0, ids).Success?
      && Triple(Blank(0), RdfType, VcardOrganization) in ContactEntry(contact, 0, ids).value.0
  {
    var contact := JObj([("datasetContactName", JObj([("value", JStr("Jane Doe"))]))]);
    assert OptionalValue(contact, "datasetContactName") == Success(JStr("Jane Doe"));
    assert !HasKey(contact, "datasetContactAffiliation");
    assert !HasKey(contact, "datasetContactEmail");
    ContactTriplesShape(Blank(0), false, JNull, JStr("Jane Doe"), JNull, ids["dataset"]);
  }

  /** The triples of one contact node `me` once its fields are read. */
  function ContactTriples(me: Term, person: bool, aff: Json, name: Json, email: Json, ds: Term): set<Triple> {
    var typed := Triple(me, RdfType, if person then VcardKind else VcardOrganization);
    var org := if person && Truthy(aff) then {Triple(me, VcardOrganizationName, StringLit(aff))} else {};
    var mail := if Truthy(email) then {Triple(me, VcardHasEmail, Iri("mailto:" + PyStr(email)))} else {};
    {typed, Triple(me, VcardFn, StringLit(name)), Triple(ds, DcatContactPoint, me)} + org + mail
  }

  /** The contact is typed `vcard:Kind` exactly for a person and
      `vcard:Organization` otherwise; it carries an organization name exactly
      for a person with an affiliation, an e-mail link exactly when an e-mail
      is given, always its name, and the dataset always points at it. */
  lemma ContactTriplesShape(me: Term, person: bool, aff: Json, name: Json, email: Json, ds: Term)
    ensures var t := ContactTriples(me, person, aff, name, email, ds);
      && (Triple(me, RdfType, VcardKind) in t <==> person)
      && (Triple(me, RdfType, VcardOrganization) in t <==> !person)
      && ((exists tr :: tr in t && tr.pred == VcardOrganizationName) <==> person && Truthy(aff))
      && (person && Truthy(aff) ==> Triple(me, VcardOrganizationName, StringLit(aff)) in t)
      && ((exists tr :: tr in t && tr.pred == VcardHasEmail) <==> Truthy(email))
      && (Truthy(email) ==> Triple(me, VcardHasEmail, Iri("mailto:" + PyStr(email))) in t)
      && Triple(me, VcardFn, StringLit(name)) in t
      && Triple(ds, DcatContactPoint, me) in t
  {
    VocabularyDistinct();
    var t := ContactTriples(me, person, aff, name, email, ds);
    forall tr | tr in t
      ensures tr.pred == VcardOrganizationName ==> person && Truthy(aff)
      ensures tr.pred == VcardHasEmail ==> Truthy(email)
    {
    }
  }

  /** A set made of triples about `me` with non-blank predicates and objects,
      plus the dataset's link to `me`, keeps to the contact frame. */
  lemma ContactUnionFrame(me: Term, ds: Term, typed: Triple, fn: Triple, org: set<Triple>, mail: set<Triple>)
    requires forall tr :: tr in {typed, fn} + org + mail ==> tr.subj == me && !tr.pred.Blank? && !tr.obj.Blank?
    ensures forall tr :: tr in {typed, fn, Triple(ds, DcatContactPoint, me)} + org + mail ==>
      && (tr.subj == me || tr == Triple(ds, DcatContactPoint, me))
      && !tr.pred.Blank? && (tr.obj.Blank? ==> tr.obj == me)
  {
    forall tr | tr in {typed, fn, Triple(ds, DcatContactPoint, me)} + org + mail
      ensures tr.subj == me || tr == Triple(ds, DcatContactPoint, me)
      ensures !tr.pred.Blank? && (tr.obj.Blank? ==> tr.obj == me)
    {
      if tr != Triple(ds, DcatContactPoint, me) {
        assert tr in {typed, fn} + org + mail;
      }
    }
  }

  /** Every contact triple is about `me`, except the dataset's link to it;
      no predicate is a blank node and `me` is the only blank object. */
  lemma ContactTriplesFrame(me: Term, person: bool, aff: Json, name: Json, email: Json, ds: Term)
    ensures forall tr :: tr in ContactTriples(me, person, aff, name, email, ds) ==>
      && (tr.subj == me || tr == Triple(ds, DcatContactPoint, me))
      && !tr.pred.Blank? && (tr.obj.Blank? ==> tr.obj == me)
  {
    var typed := Triple(me, RdfType, if person then VcardKind else VcardOrganization);
    var org := if person && Truthy(aff) then {Triple(me, VcardOrganizationName, StringLit(aff))} else {};
    var mail := if Truthy(email) then {Triple(me, VcardHasEmail, Iri("mailto:" + PyStr(email)))} else {};
    ContactUnionFrame(me, ds, typed, Triple(me, VcardFn, StringLit(name)), org, mail);
  }

  /** One dataset contact: a fresh VCARD node, typed `vcard:Organization` or
      `vcard:Kind`, with the affiliation as organization name for a person,
      the name as `vcard:fn`, a `mailto:` link when an e-mail is given, and a
      `dcat:contactPoint` link from the dataset. An organization's
      affiliation is dropped before the organization name is considered. */
  function ContactEntry(contact: Json, n: nat, ids: map<string, Term>): (r: Result<(set<Triple>, nat)>)
    ensures r.Success? ==> r.value.1 == n + 1 && "dataset" in ids
    ensures r.Success? ==> Triple(ids["dataset"], DcatContactPoint, Blank(n)) in r.value.0
    ensures r.Failure? && r.error.UnresolvedReference? ==> r.error == UnresolvedReference("dataset") && "dataset" !in ids
  {
    var name :- OptionalValue(contact, "datasetContactName");
    var aff :- OptionalValue(contact, "datasetContactAffiliation");
    var kind :- Classify(name, aff, "datasetContactName", "datasetContactAffiliation");
    var email :- OptionalValue(contact, "datasetContactEmail");
    var ds :- Identifier(ids, "dataset");
    Success((ContactTriples(Blank(n), kind == FoafAgent, aff, name, email, ds), n + 1))
  }

  /** A contact is a `vcard:Kind` exactly when it would be a person author;
      the organization name is given exactly for a person with a non-empty
      affiliation, the e-mail link exactly when an e-mail is given, and the
      dataset always points at the new node. */
  lemma ContactShape(contact: Json, n: nat, ids: map<string, Term>, name: Json, aff: Json, email: Json)
    requires OptionalValue(contact, "datasetContactName") == Success(name)
    requires OptionalValue(contact, "datasetContactAffiliation") == Success(aff)
    requires OptionalValue(contact, "datasetContactEmail") == Success(email)
    ensures ContactEntry(contact, n, ids).Success? <==> (aff == JNull || (aff.JStr? && name.JStr?)) && "dataset" in ids
    ensures ContactEntry(contact, n, ids).Success? ==>
      var (t, n') := ContactEntry(contact, n, ids).value;
      var person := aff.JStr? && name.JStr? && Lower(aff.s) != Lower(name.s);
      && n' == n + 1
      && (Triple(Blank(n), RdfType, VcardKind) in t <==> person)
      && (Triple(Blank(n), RdfType, VcardOrganization) in t <==> !person)
      && ((exists tr :: tr in t && tr.pred == VcardOrganizationName) <==> person && aff.s != "")
      && (person && aff.s != "" ==> Triple(Blank(n), VcardOrganizationName, StringLit(aff)) in t)
      && ((exists tr :: tr in t && tr.pred == VcardHasEmail) <==> Truthy(email))
      && (Truthy(email) ==> Triple(Blank(n), VcardHasEmail, Iri("mailto:" + PyStr(email))) in t)
      && Triple(Blank(n), VcardFn, StringLit(name)) in t
      && Triple(ids["dataset"], DcatContactPoint, Blank(n)) in t
  {
    var kind := Classify(name, aff, "datasetContactName", "datasetContactAffiliation");
    if kind.Success? && "dataset" in ids {
      ContactTriplesShape(Blank(n), kind.value == FoafAgent, aff, name, email, ids["dataset"]);
    }
  }

  /** One contact as written: the classification calls `.lower()` on the
      affiliation and the name unconditionally; past that point the entry is
      the one above, since both classifications then agree. */
  function ContactEntryAsWritten(contact: Json, n: nat, ids: map<string, Term>): (r: Result<(set<Triple>, nat)>)
    ensures r.Success? ==> r == ContactEntry(contact, n, ids)
    ensures OptionalValue(contact, "datasetContactName").Success? &&
            OptionalValue(contact, "datasetContactAffiliation") == Success(JNull) ==>
      r == Failure(NotAString("datasetContactAffiliation"))
  {
    var name :- OptionalValue(contact, "datasetContactName");
    var aff :- OptionalValue(contact, "datasetContactAffiliation");
    var _ :- ContactKindAsWritten(name, aff);
    ContactKindCorrection(name, aff);
    ContactEntry(contact, n, ids)
  }

  /** The written contact entry fails on every contact without an
      affiliation, and wherever it succeeds it gives the corrected entry. */
  lemma ContactAsWritten(contact: Json, n: nat, ids: map<string, Term>, name: Json, aff: Json)
    requires OptionalValue(contact, "datasetContactName") == Success(name)
    requires OptionalValue(contact, "datasetContactAffiliation") == Success(aff)
    ensures aff == JNull ==> ContactEntryAsWritten(contact, n, ids) == Failure(NotAString("datasetContactAffiliation"))
    ensures ContactEntryAsWritten(contact, n, ids).Success? ==>
      ContactEntryAsWritten(contact, n, ids) == ContactEntry(contact, n, ids)
    ensures aff.JStr? && name.JStr? ==> ContactEntryAsWritten(contact, n, ids) == ContactEntry(contact, n, ids)
  {
    ContactKindCorrection(name, aff);
  }

  // ------------------------------------------------------------ description

  /** The date suffix as written: the f-string inserts the whole
      `dsDescriptionDate` field record. */
  function DescriptionDateAsWritten(description: Json): Result<string> {
    var record :- Field(description, "dsDescriptionDate");
    Success(PyStr(record))
  }

  /** The date the suffix is meant to carry: the record's `value`. */
  function DescriptionDate(description: Json): Result<string> {
    var record :- Field(description, "dsDescriptionDate");
    var date :- Field(record, "value");
    Success(PyStr(date))
  }

  /** Whenever the date field is a record, as Dataverse sends it, the written
      suffix starts with the `{` of the record's repr instead of the date. */
  lemma DescriptionDateAsWrittenIsRecord(description: Json, record: Json)
    requires Field(description, "dsDescriptionDate") == Success(record) && record.JObj?
    ensures DescriptionDateAsWritten(description).Success?
    ensures DescriptionDateAsWritten(description).value[0] == '{'
  {
  }

  /** A Dataverse date record: the written suffix carries its repr, the
      corrected one the date. */
  lemma DescriptionDateExample()
    ensures var record := JObj([("typeName", JStr("dsDescriptionDate")), ("value", JStr("2021-06-01"))]);
      var description := JObj([("dsDescriptionValue", JObj([("value", JStr("About"))])), ("dsDescriptionDate", record)]);
      && DescriptionDate(description) == Success("2021-06-01")
      && DescriptionDateAsWritten(description).Success?
      && DescriptionDateAsWritten(description).value != "2021-06-01"
  {
    var record := JObj([("typeName", JStr("dsDescriptionDate")), ("value", JStr("2021-06-01"))]);
    var description := JObj([("dsDescriptionValue", JObj([("value", JStr("About"))])), ("dsDescriptionDate", record)]);
    assert Field(description, "dsDescriptionDate") == Success(record);
    assert Field(record, "value") == Success(JStr("2021-06-01"));
    DescriptionDateAsWrittenIsRecord(description, record);
  }

  /** The text of a description: the value, followed by the date suffix when
      the entry has a date, with `date` the inserted text. Only a string can
      take the suffix. */
  function DescriptionText(description: Json, value: Json, date: Result<string>): (r: Result<string>)
    ensures !HasKey(description, "dsDescriptionDate") ==> r == Success(PyStr(value))
    ensures HasKey(description, "dsDescriptionDate") ==> (r.Success? <==> date.Success? && value.JStr?)
    ensures HasKey(description, "dsDescriptionDate") && r.Success? ==>
      value.JStr? && |r.value| > |value.s| && r.value[..|value.s|] == value.s
  {
    if HasKey(description, "dsDescriptionDate") then
      var date :- date;
      var s :- AsString(value, "dsDescriptionValue");
      var text := s + "(Description provided on " + date + ")";
      assert text[..|s|] == s;
      Success(text)
    else
      Success(PyStr(value))
  }

  /** One description, with `date` the text its date suffix inserts: nothing
      for the sentinel "value unavailable" or a missing value, otherwise the
      (dated) text as `dcterms:description`. */
  function DescriptionEntryWith(description: Json, ids: map<string, Term>, date: Result<string>): (r: Result<set<Triple>>)
    ensures r.Success? ==> |r.value| <= 1
    ensures r.Success? && r.value != {} ==>
      "dataset" in ids && forall tr :: tr in r.value ==> tr.subj == ids["dataset"] && tr.pred == DctDescription && tr.obj.Lit?
    ensures r.Failure? && r.error.UnresolvedReference? ==>
      (r.error == UnresolvedReference("dataset") && "dataset" !in ids) || date == Failure(r.error)
  {
    var field :- Field(description, "dsDescriptionValue");
    var value :- Field(field, "value");
    var value' := if value == JStr("value unavailable") then JNull else value;
    if value' == JNull then Success({})
    else
      var text :- DescriptionText(description, value', date);
      var ds :- Identifier(ids, "dataset");
      Success({Triple(ds, DctDescription, Lit(text, XSD_STRING))})
  }

  /** One description with the date the suffix is meant to carry. */
  function DescriptionEntry(description: Json, ids: map<string, Term>): (r: Result<set<Triple>>)
    ensures !HasKey(description, "dsDescriptionDate") ==> r == DescriptionEntryAsWritten(description, ids)
    ensures r.Success? ==> forall tr :: tr in r.value ==> tr.pred == DctDescription
    ensures r.Failure? && r.error.UnresolvedReference? ==> r.error == UnresolvedReference("dataset") && "dataset" !in ids
  {
    DescriptionEntryWith(description, ids, DescriptionDate(description))
  }

  /** One description as written: the suffix carries the whole date record. */
  function DescriptionEntryAsWritten(description: Json, ids: map<string, Term>): (r: Result<set<Triple>>)
    ensures r.Success? ==> forall tr :: tr in r.value ==> tr.pred == DctDescription
    ensures r.Success? && r.value != {} && HasKey(description, "dsDescriptionDate") ==>
      DescriptionDateAsWritten(description).Success?
  {
    DescriptionEntryWith(description, ids, DescriptionDateAsWritten(description))
  }

  /** The sentinel and a null value give no triple and read no reference; a
      dated string value `s` gives the text
      `s + "(Description provided on " + d + ")"`, from which `s` is the
      prefix, where `d` is the date in the corrected entry and the repr of the
      whole date record in the written one; an undated value gives its own
      text in both. */
  lemma DescriptionShape(description: Json, ids: map<string, Term>, value: Json)
    requires Field(description, "dsDescriptionValue").Success?
    requires Field(Field(description, "dsDescriptionValue").value, "value") == Success(value)
    ensures value == JStr("value unavailable") || value == JNull ==> DescriptionEntry(description, ids) == Success({})
    ensures (value.JStr? && value != JStr("value unavailable") && "dataset" in ids &&
             HasKey(description, "dsDescriptionDate") && DescriptionDate(description).Success?) ==>
      var text := value.s + "(Description provided on " + DescriptionDate(description).value + ")";
      && text[..|value.s|] == value.s
      && DescriptionEntry(description, ids) == Success({Triple(ids["dataset"], DctDescription, Lit(text, XSD_STRING))})
    ensures (value.JStr? && value != JStr("value unavailable") && "dataset" in ids &&
             HasKey(description, "dsDescriptionDate")) ==>
      var text := value.s + "(Description provided on " + PyStr(GetOrNull(description, "dsDescriptionDate")) + ")";
      && text[..|value.s|] == value.s
      && DescriptionEntryAsWritten(description, ids) == Success({Triple(ids["dataset"], DctDescription, Lit(text, XSD_STRING))})
    ensures value != JStr("value unavailable") && value != JNull && "dataset" in ids && !HasKey(description, "dsDescriptionDate") ==>
      && DescriptionEntry(description, ids) == Success({Triple(ids["dataset"], DctDescription, StringLit(value))})
      && DescriptionEntryAsWritten(description, ids) == DescriptionEntry(description, ids)
    ensures value == JStr("value unavailable") || value == JNull ==> DescriptionEntryAsWritten(description, ids) == Success({})
  {
  }

  // --------------------------------------------------------------- language

  /** One language entry: the resolved code's URI as `dcterms:language`. */
  function LanguageEntry(ext: Collaborators, language: Json, ids: map<string, Term>): (r: Result<set<Triple>>)
    ensures r.Failure? && r.error.UnresolvedReference? ==> r.error == UnresolvedReference("dataset") && "dataset" !in ids
    ensures r.Success? ==>
      && "dataset" in ids
      && forall tr :: tr in r.value ==> tr.subj == ids["dataset"] && tr.pred == DctLanguage && tr.obj.Iri?
  {
    var entry :- AsString(language, "language");
    var code :- FirstCode(ext, Candidates(entry), entry);
    var ds :- Identifier(ids, "dataset");
    Success({Triple(ds, DctLanguage, Iri(LanguageUri(code)))})
  }

  /** An entry is refused exactly when no candidate name hits; otherwise it
      links the dataset to the URI of the first hit's code. */
  lemma LanguageShape(ext: Collaborators, entry: string, ids: map<string, Term>)
    ensures var cs := Candidates(entry);
      LanguageEntry(ext, JStr(entry), ids) == Failure(UnsupportedLanguage(entry)) <==>
        forall i :: 0 <= i < |cs| ==> !Hit(ext, cs[i])
    ensures var cs := Candidates(entry);
      var r := LanguageEntry(ext, JStr(entry), ids);
      r.Success? ==>
        && "dataset" in ids
        && exists i :: 0 <= i < |cs| && Hit(ext, cs[i]) &&
             (forall j :: 0 <= j < i ==> !Hit(ext, cs[j])) &&
             CodeOf(ext, cs[i]).Success? &&
             r.value == {Triple(ids["dataset"], DctLanguage, Iri(LanguageUri(CodeOf(ext, cs[i]).value)))}
  {
    var cs := Candidates(entry);
    var f := FirstCode(ext, cs, entry);
    var r := LanguageEntry(ext, JStr(entry), ids);
    assert AsString(JStr(entry), "language") == Success(entry);
    assert r == if f.Failure? then Failure(f.error)
                else if "dataset" in ids then Success({Triple(ids["dataset"], DctLanguage, Iri(LanguageUri(f.value)))})
                else Failure(UnresolvedReference("dataset"));
    if f.Success? {
      var i := FirstHitIndex(ext, cs, entry);
      if "dataset" in ids {
        assert f.value == CodeOf(ext, cs[i]).value;
        assert r.value == {Triple(ids["dataset"], DctLanguage, Iri(LanguageUri(f.value)))};
      }
    }
  }
}
