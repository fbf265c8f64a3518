/** The RDF terms and triples the conversion emits, and the vocabulary terms
    it uses (rdflib's `RDF`, `DCAT`, `DCTERMS`, `FOAF`, `OWL`, `XSD` namespaces
    and the two extra ones, PAV and VCARD). */
module Rdf {
  import opened JsonValue

  /** An IRI, a blank node (rdflib's `BNode()`, identified here by the number
      of the allocation that minted it), or a typed literal. */
  datatype Term =
    | Iri(iri: string)
    | Blank(id: nat)
    | Lit(lexical: string, dtype: string)

  datatype Triple = Triple(subj: Term, pred: Term, obj: Term)

  const RDF_NS: string := "http://www.w3.org/1999/02/22-rdf-syntax-ns#"
  const DCAT_NS: string := "http://www.w3.org/ns/dcat#"
  const DCTERMS_NS: string := "http://purl.org/dc/terms/"
  const FOAF_NS: string := "http://xmlns.com/foaf/0.1/"
  const OWL_NS: string := "http://www.w3.org/2002/07/owl#"
  const XSD_NS: string := "http://www.w3.org/2001/XMLSchema#"
  const PAV_NS: string := "http://pav-ontology.github.io/pav/"
  const VCARD_NS: string := "http://www.w3.org/2006/vcard/ns#"

  const RdfType: Term := Iri(RDF_NS + "type")
  const DcatDataset: Term := Iri(DCAT_NS + "Dataset")
  const DcatContactPoint: Term := Iri(DCAT_NS + "contactPoint")
  const DctIdentifier: Term := Iri(DCTERMS_NS + "identifier")
  const DctIssued: Term := Iri(DCTERMS_NS + "issued")
  const DctModified: Term := Iri(DCTERMS_NS + "modified")
  const DctPublisher: Term := Iri(DCTERMS_NS + "publisher")
  const DctLicense: Term := Iri(DCTERMS_NS + "license")
  const DctTitle: Term := Iri(DCTERMS_NS + "title")
  const DctDescription: Term := Iri(DCTERMS_NS + "description")
  const DctLanguage: Term := Iri(DCTERMS_NS + "language")
  const FoafAgent: Term := Iri(FOAF_NS + "Agent")
  const FoafOrganization: Term := Iri(FOAF_NS + "Organization")
  const FoafName: Term := Iri(FOAF_NS + "name")
  const FoafMember: Term := Iri(FOAF_NS + "member")
  const OwlVersionInfo: Term := Iri(OWL_NS + "versionInfo")
  const PavVersion: Term := Iri(PAV_NS + "version")
  const VcardOrganization: Term := Iri(VCARD_NS + "Organization")
  const VcardKind: Term := Iri(VCARD_NS + "Kind")
  const VcardOrganizationName: Term := Iri(VCARD_NS + "organization-name")
  const VcardFn: Term := Iri(VCARD_NS + "fn")
  const VcardHasEmail: Term := Iri(VCARD_NS + "hasEmail")

  const XSD_STRING: string := XSD_NS + "string"
  const XSD_ANY_URI: string := XSD_NS + "anyURI"
  const XSD_DATE: string := XSD_NS + "date"
  const XSD_DATE_TIME: string := XSD_NS + "dateTime"

  /** `Literal(value, datatype=XSD.string)`: the lexical form is `str(value)`. */
  function StringLit(value: Json): Term {
    Lit(PyStr(value), XSD_STRING)
  }

  /** The blank nodes a set of triples mentions, in any position. */
  ghost predicate MentionsBlank(triples: set<Triple>, id: nat) {
    exists t :: t in triples && Blank(id) in {t.subj, t.pred, t.obj}
  }

  /** The vocabulary terms the rules tell apart are different IRIs. */
  lemma VocabularyDistinct()
    ensures FoafAgent != FoafOrganization && VcardKind != VcardOrganization
    ensures RdfType != FoafMember && RdfType != VcardOrganizationName && RdfType != VcardHasEmail
    ensures VcardOrganizationName != VcardFn && VcardOrganizationName != VcardHasEmail
    ensures VcardOrganizationName != DcatContactPoint
    ensures VcardHasEmail != VcardFn && VcardHasEmail != DcatContactPoint
    ensures DctLicense != DctPublisher
  {
    assert FoafAgent.iri[|FOAF_NS|] != FoafOrganization.iri[|FOAF_NS|];
    assert VcardKind.iri[|VCARD_NS|] != VcardOrganization.iri[|VCARD_NS|];
    assert RdfType.iri[7] != FoafMember.iri[7];
    assert RdfType.iri[18] != VcardOrganizationName.iri[18];
    assert RdfType.iri[18] != VcardHasEmail.iri[18];
    assert VcardOrganizationName.iri[|VCARD_NS|] != VcardFn.iri[|VCARD_NS|];
    assert VcardOrganizationName.iri[|VCARD_NS|] != VcardHasEmail.iri[|VCARD_NS|];
    assert VcardOrganizationName.iri[18] != DcatContactPoint.iri[18];
    assert VcardHasEmail.iri[|VCARD_NS|] != VcardFn.iri[|VCARD_NS|];
    assert VcardHasEmail.iri[18] != DcatContactPoint.iri[18];
    assert DctLicense.iri[|DCTERMS_NS|] != DctPublisher.iri[|DCTERMS_NS|];
  }
}
