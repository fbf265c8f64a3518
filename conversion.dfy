/** The extraction loop of `to_dcat` as a function: every rule, in schedule
    order, is applied to every value its JSON path matches, and the triples
    are collected into one graph. The rules share the identifier table and
    the blank-node allocator. */
module Conversion {
  import opened Wrappers
  import opened JsonValue
  import opened Rdf
  import opened Collaborators
  import opened JsonPath
  import opened Scheduler
  import opened Language
  import opened Rules

  /** The rules whose body loops over the entries of `doc["value"]`. */
  predicate IsListRule(body: Body) {
    body.Author? || body.DatasetContact? || body.Description? || body.Language?
  }

  /** What one entry of a list-valued field contributes, and the allocator
      count after it. */
  function Entry(body: Body, ext: Collaborators, ids: map<string, Term>, x: Json, n: nat): (r: Result<(set<Triple>, nat)>)
    requires IsListRule(body)
    ensures r.Success? ==> if body.Author? || body.DatasetContact? then n < r.value.1 else r.value.1 == n
    ensures r.Failure? && r.error.UnresolvedReference? ==> r.error.role in Reads(body) && r.error.role !in ids
  {
    match body
    case Author => AuthorEntry(x, n)
    case DatasetContact => ContactEntry(x, n, ids)
    case Description =>
      var t :- DescriptionEntry(x, ids);
      Success((t, n))
    case Language =>
      var t :- LanguageEntry(ext, x, ids);
      Success((t, n))
  }

  /** The `for x in doc["value"]` loop: `acc |= entry(x)` for each entry in
      turn; the first failure stops the loop. */
  function Fold(body: Body, ext: Collaborators, ids: map<string, Term>, xs: seq<Json>, acc: set<Triple>, n: nat)
    : (r: Result<(set<Triple>, nat)>)
    requires IsListRule(body)
    ensures r.Success? ==> acc <= r.value.0 && n <= r.value.1
    ensures r.Success? && (body.Description? || body.Language?) ==> r.value.1 == n
    ensures r.Failure? && r.error.UnresolvedReference? ==> r.error.role in Reads(body) && r.error.role !in ids
    decreases |xs|
  {
    if xs == [] then Success((acc, n))
    else
      var p :- Entry(body, ext, ids, xs[0], n);
      Fold(body, ext, ids, xs[1..], acc + p.0, p.1)
  }

  /** A rule that loops over `doc["value"]`. */
  function ListRule(body: Body, ext: Collaborators, field: Json, st: RunState): (r: Result<(set<Triple>, RunState)>)
    requires IsListRule(body)
    ensures r.Success? ==> r.value.1.ids == st.ids && st.blanks <= r.value.1.blanks
    ensures r.Failure? && r.error.UnresolvedReference? ==> r.error.role in Reads(body) && r.error.role !in st.ids
  {
    var value :- Field(field, "value");
    var xs :- Iterate(value, "value");
    var p :- Fold(body, ext, st.ids, xs, {}, st.blanks);
    Success((p.0, RunState(st.ids, p.1)))
  }

  /** One call of a rule's method on one matched value. */
  function ApplyRule(body: Body, ext: Collaborators, v: Json, st: RunState): (r: Result<(set<Triple>, RunState)>)
    ensures r.Success? ==> st.blanks <= r.value.1.blanks && r.value.1.ids.Keys == st.ids.Keys + Writes(body)
    ensures r.Success? && Writes(body) == {} ==> r.value.1.ids == st.ids
  {
    match body
    case GeneralDataset => DatasetRule(ext, v, st)
    case GeneralPublisher => PublisherRule(v, st)
    case Title =>
      var t :- TitleRule(v, st.ids);
      Success((t, st))
    case AlternativeTitle =>
      var t :- TitleRule(v, st.ids);
      Success((t, st))
    case _ => ListRule(body, ext, v, st)
  }

  /** All calls of one rule, one per matched value, in match order. */
  function ApplyMatches(body: Body, ext: Collaborators, vs: seq<Json>, acc: set<Triple>, st: RunState)
    : (r: Result<(set<Triple>, RunState)>)
    ensures r.Success? ==> acc <= r.value.0 && st.blanks <= r.value.1.blanks && st.ids.Keys <= r.value.1.ids.Keys
    ensures r.Success? && vs != [] ==> Writes(body) <= r.value.1.ids.Keys
    decreases |vs|
  {
    if vs == [] then Success((acc, st))
    else
      var p :- ApplyRule(body, ext, vs[0], st);
      ApplyMatches(body, ext, vs[1..], acc + p.0, p.1)
  }

  /** The loop of `to_dcat` over the scheduled rules. */
  function RunRules(rules: seq<Rule>, ext: Collaborators, doc: Json, acc: set<Triple>, st: RunState)
    : (r: Result<(set<Triple>, RunState)>)
    ensures r.Success? ==> acc <= r.value.0 && st.blanks <= r.value.1.blanks && st.ids.Keys <= r.value.1.ids.Keys
    ensures r.Success? ==> forall i :: 0 <= i < |rules| && Find(rules[i].query, doc) != [] ==>
      Writes(rules[i].body) <= r.value.1.ids.Keys
    decreases |rules|
  {
    if rules == [] then Success((acc, st))
    else
      var p :- ApplyMatches(rules[0].body, ext, Find(rules[0].query, doc), acc, st);
      RunRules(rules[1..], ext, doc, p.0, p.1)
  }

  /** The identifier roles a rule body reads. */
  function Reads(body: Body): set<string> {
    match body
    case GeneralDataset => {"publisher"}
    case GeneralPublisher => {}
    case Author => {}
    case _ => {"dataset"}
  }

  /** The identifier roles a rule body records. */
  function Writes(body: Body): set<string> {
    match body
    case GeneralDataset => {"dataset"}
    case GeneralPublisher => {"publisher"}
    case _ => {}
  }

  /** A blank node is either minted in `[lo, hi)` or already in the table. */
  predicate FreshOrKnown(x: Term, lo: nat, hi: nat, ids: map<string, Term>) {
    x.Blank? ==> (lo <= x.id < hi || x in ids.Values)
  }

  predicate TripleFreshOrKnown(tr: Triple, lo: nat, hi: nat, ids: map<string, Term>) {
    FreshOrKnown(tr.subj, lo, hi, ids) && FreshOrKnown(tr.pred, lo, hi, ids) && FreshOrKnown(tr.obj, lo, hi, ids)
  }

  /** Every blank node of `t` is minted in `[lo, hi)` or already in the table. */
  predicate Minted(t: set<Triple>, lo: nat, hi: nat, ids: map<string, Term>) {
    forall tr :: tr in t ==> TripleFreshOrKnown(tr, lo, hi, ids)
  }

  lemma AuthorFrame(author: Json, n: nat, ids: map<string, Term>)
    ensures AuthorEntry(author, n).Failure? ==> !AuthorEntry(author, n).error.UnresolvedReference?
    ensures AuthorEntry(author, n).Success? ==>
      n < AuthorEntry(author, n).value.1 && Minted(AuthorEntry(author, n).value.0, n, AuthorEntry(author, n).value.1, ids)
  {
  }

  lemma ContactFrame(contact: Json, n: nat, ids: map<string, Term>)
    ensures var r := ContactEntry(contact, n, ids);
      r.Failure? && r.error.UnresolvedReference? ==> r.error == UnresolvedReference("dataset") && "dataset" !in ids
    ensures var r := ContactEntry(contact, n, ids);
      r.Success? ==> n < r.value.1 && Minted(r.value.0, n, r.value.1, ids)
  {
    if ContactEntry(contact, n, ids).Success? {
      var name := OptionalValue(contact, "datasetContactName").value;
      var aff := OptionalValue(contact, "datasetContactAffiliation").value;
      var kind := Classify(name, aff, "datasetContactName", "datasetContactAffiliation").value;
      var ds := ids["dataset"];
      assert ds in ids.Values;
      ContactTriplesFrame(Blank(n), kind == FoafAgent, aff, name, OptionalValue(contact, "datasetContactEmail").value, ds);
    }
  }

  lemma DescriptionFrame(description: Json, ids: map<string, Term>, n: nat)
    ensures var r := DescriptionEntry(description, ids);
      r.Failure? && r.error.UnresolvedReference? ==> r.error == UnresolvedReference("dataset") && "dataset" !in ids
    ensures var r := DescriptionEntry(description, ids);
      r.Success? ==> Minted(r.value, n, n, ids)
  {
    if "dataset" in ids {
      assert ids["dataset"] in ids.Values;
    }
  }

  lemma LanguageFrame(ext: Collaborators, language: Json, ids: map<string, Term>, n: nat)
    ensures var r := LanguageEntry(ext, language, ids);
      r.Failure? && r.error.UnresolvedReference? ==> r.error == UnresolvedReference("dataset") && "dataset" !in ids
    ensures var r := LanguageEntry(ext, language, ids);
      r.Success? ==> Minted(r.value, n, n, ids)
  {
    if "dataset" in ids {
      assert ids["dataset"] in ids.Values;
    }
  }

  /** An entry reads only the references its rule declares, never moves the
      allocator back, and mentions only blank nodes it minted or the table
      holds. */
  lemma EntryFrame(body: Body, ext: Collaborators, ids: map<string, Term>, x: Json, n: nat)
    requires IsListRule(body)
    ensures var r := Entry(body, ext, ids, x, n);
      r.Failure? && r.error.UnresolvedReference? ==> r.error.role in Reads(body) && r.error.role !in ids
    ensures var r := Entry(body, ext, ids, x, n);
      r.Success? ==> n <= r.value.1 && Minted(r.value.0, n, r.value.1, ids)
  {
    match body
    case Author => AuthorFrame(x, n, ids);
    case DatasetContact => ContactFrame(x, n, ids);
    case Description => DescriptionFrame(x, ids, n);
    case Language => LanguageFrame(ext, x, ids, n);
  }

  /** Widening the minting window keeps a blank node fresh-or-known. */
  lemma MintedWiden(t: set<Triple>, lo: nat, hi: nat, lo': nat, hi': nat, ids: map<string, Term>)
    requires Minted(t, lo, hi, ids) && lo' <= lo && hi <= hi'
    ensures Minted(t, lo', hi', ids)
  {
  }

  /** The loop over the entries of a list field: what it adds is minted
      during the loop or known, and it reads only its rule's references. */
  lemma {:induction false} FoldFrame(body: Body, ext: Collaborators, ids: map<string, Term>, xs: seq<Json>, acc: set<Triple>, n: nat)
    requires IsListRule(body)
    ensures var r := Fold(body, ext, ids, xs, acc, n);
      r.Failure? && r.error.UnresolvedReference? ==> r.error.role in Reads(body) && r.error.role !in ids
    ensures var r := Fold(body, ext, ids, xs, acc, n);
      r.Success? ==> n <= r.value.1 && acc <= r.value.0 && Minted(r.value.0 - acc, n, r.value.1, ids)
    decreases |xs|
  {
    if xs != [] {
      EntryFrame(body, ext, ids, xs[0], n);
      var e := Entry(body, ext, ids, xs[0], n);
      if e.Success? {
        var acc' := acc + e.value.0;
        FoldFrame(body, ext, ids, xs[1..], acc', e.value.1);
        var r := Fold(body, ext, ids, xs[1..], acc', e.value.1);
        if r.Success? {
          MintedWiden(e.value.0, n, e.value.1, n, r.value.1, ids);
          MintedWiden(r.value.0 - acc', e.value.1, r.value.1, n, r.value.1, ids);
          assert r.value.0 - acc <= (r.value.0 - acc') + e.value.0;
        }
      }
    }
  }

  /** What a rule call may do: fail on an unresolved reference only for a
      role it reads that the table lacks; on success, add exactly the roles
      it writes, each bound to the node minted first, keep every other
      binding, and mention only nodes minted by the call or already in the
      table. */
  ghost predicate RuleOutcome(body: Body, st: RunState, r: Result<(set<Triple>, RunState)>) {
    && (r.Failure? && r.error.UnresolvedReference? ==> r.error.role in Reads(body) && r.error.role !in st.ids)
    && (r.Success? ==>
          var (t, st') := r.value;
          && st.blanks <= st'.blanks
          && st'.ids.Keys == st.ids.Keys + Writes(body)
          && (forall k :: k in Writes(body) ==> st'.ids[k] == Blank(st.blanks) && st.blanks < st'.blanks)
          && (forall k :: k in st.ids && k !in Writes(body) ==> st'.ids[k] == st.ids[k])
          && Minted(t, st.blanks, st'.blanks, st.ids))
  }

  lemma DatasetFrame(ext: Collaborators, v: Json, st: RunState)
    ensures RuleOutcome(GeneralDataset, st, DatasetRule(ext, v, st))
  {
    DatasetRuleShape(ext, v, st);
    if "publisher" in st.ids {
      assert st.ids["publisher"] in st.ids.Values;
    }
  }

  lemma ListFrame(body: Body, ext: Collaborators, v: Json, st: RunState)
    requires IsListRule(body)
    ensures RuleOutcome(body, st, ListRule(body, ext, v, st))
  {
    var f := Field(v, "value");
    if f.Success? {
      var xs := Iterate(f.value, "value");
      if xs.Success? {
        FoldFrame(body, ext, st.ids, xs.value, {}, st.blanks);
      }
    }
  }

  /** One rule call keeps to `RuleOutcome`. */
  lemma RuleFrame(body: Body, ext: Collaborators, v: Json, st: RunState)
    ensures RuleOutcome(body, st, ApplyRule(body, ext, v, st))
  {
    match body
    case GeneralDataset => DatasetFrame(ext, v, st);
    case GeneralPublisher =>
    case Title =>
      if "dataset" in st.ids {
        assert st.ids["dataset"] in st.ids.Values;
      }
    case AlternativeTitle =>
      if "dataset" in st.ids {
        assert st.ids["dataset"] in st.ids.Values;
      }
    case _ => ListFrame(body, ext, v, st);
  }

  predicate TermBelow(x: Term, n: nat) {
    x.Blank? ==> x.id < n
  }

  /** Every blank node of the graph was minted before the allocator reached `n`. */
  predicate GraphBelow(g: set<Triple>, n: nat) {
    forall tr :: tr in g ==> TermBelow(tr.subj, n) && TermBelow(tr.pred, n) && TermBelow(tr.obj, n)
  }

  /** Every recorded identifier was minted before the allocator reached its count. */
  predicate Allocated(st: RunState) {
    forall k :: k in st.ids ==> TermBelow(st.ids[k], st.blanks)
  }

  /** A rule call keeps the allocator ahead of every blank node in the graph
      and in the table, so the next node it mints is new. */
  lemma RuleAllocates(body: Body, ext: Collaborators, v: Json, st: RunState, acc: set<Triple>)
    ensures var r := ApplyRule(body, ext, v, st);
      r.Success? && Allocated(st) && GraphBelow(acc, st.blanks) ==> Allocated(r.value.1) && GraphBelow(acc + r.value.0, r.value.1.blanks)
  {
    RuleFrame(body, ext, v, st);
    var r := ApplyRule(body, ext, v, st);
    if r.Success? && Allocated(st) {
      var (t, st') := r.value;
      forall x: Term | FreshOrKnown(x, st.blanks, st'.blanks, st.ids)
        ensures TermBelow(x, st'.blanks)
      {
        if x.Blank? && x in st.ids.Values {
          var k :| k in st.ids && st.ids[k] == x;
        }
      }
    }
  }

  /** All calls of one rule: failures and the table grow as for one call;
      once at least one value matched, the written roles are bound. */
  lemma {:induction false} MatchesFrame(body: Body, ext: Collaborators, vs: seq<Json>, acc: set<Triple>, st: RunState)
    ensures var r := ApplyMatches(body, ext, vs, acc, st);
      r.Failure? && r.error.UnresolvedReference? ==> r.error.role in Reads(body) && r.error.role !in st.ids
    ensures var r := ApplyMatches(body, ext, vs, acc, st);
      r.Success? ==>
        && acc <= r.value.0
        && st.ids.Keys <= r.value.1.ids.Keys
        && (vs != [] ==> Writes(body) <= r.value.1.ids.Keys)
    ensures var r := ApplyMatches(body, ext, vs, acc, st);
      r.Success? && Allocated(st) && GraphBelow(acc, st.blanks) ==>
        Allocated(r.value.1) && GraphBelow(r.value.0, r.value.1.blanks)
    decreases |vs|
  {
    if vs != [] {
      RuleFrame(body, ext, vs[0], st);
      RuleAllocates(body, ext, vs[0], st, acc);
      var p := ApplyRule(body, ext, vs[0], st);
      if p.Success? {
        MatchesFrame(body, ext, vs[1..], acc + p.value.0, p.value.1);
      }
    }
  }

  /** The whole run keeps the allocator ahead of every blank node: nodes
      minted by different calls are never confused. */
  lemma {:induction false} RunAllocates(rules: seq<Rule>, ext: Collaborators, doc: Json, acc: set<Triple>, st: RunState)
    requires Allocated(st) && GraphBelow(acc, st.blanks)
    ensures var r := RunRules(rules, ext, doc, acc, st);
      r.Success? ==> acc <= r.value.0 && Allocated(r.value.1) && GraphBelow(r.value.0, r.value.1.blanks)
    decreases |rules|
  {
    if rules != [] {
      var vs := Find(rules[0].query, doc);
      MatchesFrame(rules[0].body, ext, vs, acc, st);
      var p := ApplyMatches(rules[0].body, ext, vs, acc, st);
      if p.Success? {
        RunAllocates(rules[1..], ext, doc, p.value.0, p.value.1);
      }
    }
  }

  /** Every rule that reads `role` finds it in the table already, or comes
      after a rule that writes it and whose path matched. */
  ghost predicate WrittenBefore(rules: seq<Rule>, doc: Json, st: RunState, role: string) {
    forall j :: 0 <= j < |rules| && role in Reads(rules[j].body) ==>
      role in st.ids || exists i :: 0 <= i < j && role in Writes(rules[i].body) && Find(rules[i].query, doc) != []
  }

  /** One writer of `role` whose path matched, ahead of every reader of
      `role`, is enough. */
  lemma WriterAhead(rules: seq<Rule>, doc: Json, st: RunState, role: string, w: nat)
    requires w < |rules| && role in Writes(rules[w].body) && Find(rules[w].query, doc) != []
    requires forall j :: 0 <= j < |rules| && role in Reads(rules[j].body) ==> w < j
    ensures WrittenBefore(rules, doc, st, role)
  {
  }

  /** A run in which every reader of a role comes after a writer that
      matched never fails with that role unresolved. */
  lemma {:induction false} NoUnresolved(rules: seq<Rule>, ext: Collaborators, doc: Json, acc: set<Triple>, st: RunState, role: string)
    requires WrittenBefore(rules, doc, st, role)
    ensures RunRules(rules, ext, doc, acc, st) != Failure(UnresolvedReference(role))
    decreases |rules|
  {
    if rules != [] {
      var vs := Find(rules[0].query, doc);
      MatchesFrame(rules[0].body, ext, vs, acc, st);
      assert role in Reads(rules[0].body) ==> role in st.ids;
      var p := ApplyMatches(rules[0].body, ext, vs, acc, st);
      if p.Success? {
        var st' := p.value.1;
        forall j | 0 <= j < |rules[1..]| && role in Reads(rules[1..][j].body)
          ensures role in st'.ids ||
            exists i :: 0 <= i < j && role in Writes(rules[1..][i].body) && Find(rules[1..][i].query, doc) != []
        {
          assert rules[1..][j] == rules[j + 1];
          if role !in st.ids {
            var i :| 0 <= i < j + 1 && role in Writes(rules[i].body) && Find(rules[i].query, doc) != [];
            if i == 0 {
              assert role in st'.ids;
            } else {
              assert rules[1..][i - 1] == rules[i];
            }
          }
        }
        NoUnresolved(rules[1..], ext, doc, p.value.0, st', role);
      }
    }
  }
}
