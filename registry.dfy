/** The parsing methods of a dataset as their decorators declare them, and
    what their declarations guarantee: the label graph has no cycle, the
    publisher is described before the dataset and the dataset before every
    citation block, so the citation blocks always find the dataset node. */
module Registry {
  import opened Wrappers
  import opened TopoSort
  import opened JsonValue
  import opened Collaborators
  import opened JsonPath
  import opened Scheduler
  import opened Rules
  import opened Conversion

  const DatasetLabel := "dataset"
  const PublisherLabel := "publisher"

  const AlternativeTitleRule := Rule("block_citation_alternative_title", CitationField("alternativeTitle"), None, Some({DatasetLabel}), AlternativeTitle)
  const AuthorRule := Rule("block_citation_author", CitationField("author"), None, Some({DatasetLabel}), Author)
  const ContactRule := Rule("block_citation_dataset_contact", CitationField("datasetContact"), None, Some({DatasetLabel}), DatasetContact)
  const DescriptionRule := Rule("block_citation_description", CitationField("dsDescription"), None, Some({DatasetLabel}), Description)
  const LanguageRule := Rule("block_citation_language", CitationField("language"), None, Some({DatasetLabel}), Language)
  const TitleRuleDecl := Rule("block_citation_title", CitationField("title"), None, Some({DatasetLabel}), Title)
  const DatasetRuleDecl := Rule("general_dataset", Root, Some({DatasetLabel}), Some({PublisherLabel}), GeneralDataset)
  const PublisherRuleDecl := Rule("general_publisher", Key("publisher"), Some({PublisherLabel}), None, GeneralPublisher)

  /** The methods carrying a JSON path, in `dir()` order, which is
      alphabetical by name. */
  const Catalogue: seq<Rule> := [
    AlternativeTitleRule, AuthorRule, ContactRule, DescriptionRule,
    LanguageRule, TitleRuleDecl, DatasetRuleDecl, PublisherRuleDecl
  ]

  /** The citation rules: each requires the dataset and provides only itself. */
  predicate IsCitationRule(r: Rule) {
    r in {AlternativeTitleRule, AuthorRule, ContactRule, DescriptionRule, LanguageRule, TitleRuleDecl}
  }

  /** A rank of labels that every edge of the catalogue climbs: no
      requirement, then the publisher, then the dataset, then the rules that
      stand for themselves. */
  function Level(l: Label): (n: nat)
    ensures n <= 3
  {
    match l
    case NoDependency => 0
    case Named(name) => if name == PublisherLabel then 1 else if name == DatasetLabel then 2 else 3
    case Itself(_) => 3
  }

  /** Each catalogue rule's requirements sit strictly below what it provides. */
  lemma RuleClimbs(r: Rule, a: Label, b: Label)
    requires r in Catalogue && a in Requirements(r) && b in Provided(r)
    ensures Level(a) < Level(b)
  {
    if r == DatasetRuleDecl {
      assert b == Named(DatasetLabel);
      assert a == Named(PublisherLabel) || a == NoDependency;
    } else if r == PublisherRuleDecl {
      assert b == Named(PublisherLabel);
    } else {
      assert IsCitationRule(r);
      assert b == Itself(r.name);
      assert a == Named(DatasetLabel) || a == NoDependency;
    }
  }

  lemma {:induction false} PathClimbsLevels(p: seq<Label>, k: nat)
    requires IsPath(LabelEdges(Catalogue), p) && 1 <= k < |p|
    ensures Level(p[0]) < Level(p[k])
  {
    var (a, b) := (p[k - 1], p[k]);
    assert (a, b) in LabelEdges(Catalogue);
    var r :| r in Catalogue && a in Requirements(r) && b in Provided(r);
    RuleClimbs(r, a, b);
    if k > 1 {
      PathClimbsLevels(p, k - 1);
    }
  }

  /** The catalogue's label graph has no cycle, so `topological_sort` does
      not raise. */
  lemma CatalogueAcyclic()
    ensures !Cyclic(LabelEdges(Catalogue))
  {
    if p :| IsPath(LabelEdges(Catalogue), p) && p[0] == p[|p| - 1] {
      PathClimbsLevels(p, |p| - 1);
    }
  }

  /** Every catalogue rule provides a label, so `min()` does not raise. */
  lemma CatalogueProvides()
    ensures forall r :: r in Catalogue ==> Provided(r) != {}
  {
    forall r | r in Catalogue
      ensures Provided(r) != {}
    {
      if r.declaredProvides.Some? {
        var x :| x in r.declaredProvides.value;
        assert Named(x) in Provided(r);
      }
    }
  }

  /** `get_topologically_sorted_parsing_methods` on the catalogue: it never
      fails, and orders the publisher before the dataset and the dataset
      before every citation block. */
  method CatalogueSchedule() returns (s: seq<Rule>)
    ensures multiset(s) == multiset(Catalogue) && RespectsDependencies(s)
    ensures forall i, j :: 0 <= i < |s| && 0 <= j < |s| && s[i] == PublisherRuleDecl && s[j] == DatasetRuleDecl ==> i < j
    ensures forall i, j :: 0 <= i < |s| && 0 <= j < |s| && s[i] == DatasetRuleDecl && IsCitationRule(s[j]) ==> i < j
  {
    CatalogueAcyclic();
    CatalogueProvides();
    var res := ScheduleRules(Catalogue);
    if res.Failure? {
      assert false;
    }
    s := res.value;
    ScheduleOrder(s);
  }

  /** The labels the two general rules and the citation rules declare. */
  lemma DeclaredLabels()
    ensures Named(PublisherLabel) in Provided(PublisherRuleDecl)
    ensures Named(PublisherLabel) in Requirements(DatasetRuleDecl)
    ensures Named(DatasetLabel) in Provided(DatasetRuleDecl)
    ensures forall r :: IsCitationRule(r) ==> Named(DatasetLabel) in Requirements(r)
  {
  }

  /** What `RespectsDependencies` means for the catalogue's two labels. */
  lemma ScheduleOrder(s: seq<Rule>)
    requires RespectsDependencies(s)
    ensures forall i, j :: 0 <= i < |s| && 0 <= j < |s| && s[i] == PublisherRuleDecl && s[j] == DatasetRuleDecl ==> i < j
    ensures forall i, j :: 0 <= i < |s| && 0 <= j < |s| && s[i] == DatasetRuleDecl && IsCitationRule(s[j]) ==> i < j
  {
    DeclaredLabels();
    forall i, j | 0 <= i < |s| && 0 <= j < |s| && s[i] == PublisherRuleDecl && s[j] == DatasetRuleDecl
      ensures i < j
    {
      assert Named(PublisherLabel) in Provided(s[i]) && Named(PublisherLabel) in Requirements(s[j]);
    }
    forall i, j | 0 <= i < |s| && 0 <= j < |s| && s[i] == DatasetRuleDecl && IsCitationRule(s[j])
      ensures i < j
    {
      assert Named(DatasetLabel) in Provided(s[i]) && Named(DatasetLabel) in Requirements(s[j]);
    }
  }

  /** A permutation holds what the original holds, at some position. */
  lemma PermutationMember<T>(s: seq<T>, c: seq<T>, x: T) returns (k: nat)
    requires multiset(s) == multiset(c) && x in c
    ensures k < |s| && s[k] == x
  {
    assert x in multiset(c);
    assert x in s;
    k :| k < |s| && s[k] == x;
  }

  /** Every element of a permutation comes from the original. */
  lemma PermutationFrom<T>(s: seq<T>, c: seq<T>, j: nat)
    requires multiset(s) == multiset(c) && j < |s|
    ensures s[j] in c
  {
    assert s[j] in multiset(s);
  }

  /** The catalogue rules that read the dataset node are the citation rules. */
  lemma DatasetReaders(x: Rule)
    requires x in Catalogue && DatasetLabel in Reads(x.body)
    ensures IsCitationRule(x)
  {
  }

  /** The only catalogue rule that reads the publisher node is the dataset rule. */
  lemma PublisherReaders(x: Rule)
    requires x in Catalogue && PublisherLabel in Reads(x.body)
    ensures x == DatasetRuleDecl
  {
  }

  lemma DatasetWrittenBefore(s: seq<Rule>, doc: Json, st: RunState)
    requires multiset(s) == multiset(Catalogue) && RespectsDependencies(s)
    ensures WrittenBefore(s, doc, st, DatasetLabel)
  {
    ScheduleOrder(s);
    assert Catalogue[6] == DatasetRuleDecl;
    var d := PermutationMember(s, Catalogue, DatasetRuleDecl);
    assert s[d].query == Root;
    assert DatasetLabel in Writes(s[d].body) && Find(s[d].query, doc) == [doc];
    forall j | 0 <= j < |s| && DatasetLabel in Reads(s[j].body)
      ensures d < j
    {
      PermutationFrom(s, Catalogue, j);
      DatasetReaders(s[j]);
    }
    WriterAhead(s, doc, st, DatasetLabel, d);
  }

  lemma PublisherWrittenBefore(s: seq<Rule>, doc: Json, st: RunState)
    requires multiset(s) == multiset(Catalogue) && RespectsDependencies(s)
    requires HasKey(doc, PublisherLabel)
    ensures WrittenBefore(s, doc, st, PublisherLabel)
  {
    ScheduleOrder(s);
    assert Catalogue[7] == PublisherRuleDecl;
    var p := PermutationMember(s, Catalogue, PublisherRuleDecl);
    assert s[p].query == Key(PublisherLabel);
    assert PublisherLabel in Writes(s[p].body) && Find(s[p].query, doc) != [];
    forall j | 0 <= j < |s| && PublisherLabel in Reads(s[j].body)
      ensures p < j
    {
      PermutationFrom(s, Catalogue, j);
      PublisherReaders(s[j]);
    }
    WriterAhead(s, doc, st, PublisherLabel, p);
  }

  /** A run of the catalogue in an order that respects its declarations never
      fails because the dataset node is missing, and fails for a missing
      publisher node only when the document has no `publisher` key. */
  lemma CatalogueResolves(s: seq<Rule>, ext: Collaborators, doc: Json, st: RunState)
    requires multiset(s) == multiset(Catalogue) && RespectsDependencies(s)
    ensures RunRules(s, ext, doc, {}, st) != Failure(UnresolvedReference(DatasetLabel))
    ensures RunRules(s, ext, doc, {}, st) == Failure(UnresolvedReference(PublisherLabel)) ==>
      !HasKey(doc, PublisherLabel)
  {
    DatasetWrittenBefore(s, doc, st);
    NoUnresolved(s, ext, doc, {}, st, DatasetLabel);
    if HasKey(doc, PublisherLabel) {
      PublisherWrittenBefore(s, doc, st);
      NoUnresolved(s, ext, doc, {}, st, PublisherLabel);
    }
  }
}
