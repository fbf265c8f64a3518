# Dataverse dataset to DCAT conversion — a verified model

`dataverse_query` reads the JSON description of a Dataverse dataset and
produces an RDF graph that describes the dataset in the DCAT vocabulary. The
`Dataset` class holds the decoded document and a shared table of identifiers,
with the roles `"dataset"` and `"publisher"`.

Its parsing methods are annotated with a JSON path and with the labels they
`@provides` and `@requires`. `to_dcat` builds a graph from the labels, sorts
it with Kahn's algorithm (`topological_sort`), runs the methods in the
resulting order on every value their path matches, and collects the triples.
The parsing methods are:

- the dataset root: license, version, dates and publisher;
- the publisher;
- titles;
- authors and contacts: classified as person or organization;
- descriptions: with an optional date suffix;
- languages: resolved to ISO 639 codes through two synonym tables.

A second, small part, `convert_to_global_search_response`, turns a Dataverse
search response into entries for a global-search data source.

The model has one module per concern:

| module | what it holds |
|---|---|
| `Wrappers` | `Option`, `Result`, and the exceptions the code raises, as `Error` |
| `Text` | the Python `str` operations used: `strip`, `split`, `lower`, `upper`, `str(int)` |
| `JsonValue` | decoded JSON, dict access, truthiness, iteration, `str`/`repr` |
| `JsonPath` | the three path shapes the methods use |
| `Rdf` | terms, triples and vocabulary |
| `Collaborators` | the outside functions, passed in as parameters |
| `TopoSort` | `topological_sort`, written imperatively over a dict of sets |
| `Scheduler` | `_provided`, `_requirements` and the sort of the methods |
| `Language` | the synonym tables and the candidate search loop |
| `Rules` | every method body, as a function |
| `Conversion` | the extraction loop, as a function, with its frame and freshness lemmas |
| `Registry` | the decorated methods as descriptors, and what their declarations guarantee |
| `Renaming` | the renumbering of blank nodes, and why a run does not depend on where the counter starts |
| `DatasetModel` | the `Dataset` class, with its fields and its methods proved against the functions |
| `GlobalSearch` | `utils.py` |

Blank nodes are numbered by a counter in the `Dataset` object. Each call of
`BNode()` takes the next number. rdflib draws fresh random identifiers
instead, so two conversions of one document are meant to give one graph up
to the names of its blank nodes. `Renaming` shows that starting the counter
`k` further on renumbers every blank node `i` as `i + k` and changes nothing
else, method by method and for the whole run.

Facts about the source:

- The author method's docstring says it connects the author to the dataset.
  No triple does so; the model follows the code.
- The alternative-title method emits `dcterms:title`, like the title method.
- The Dataverse table key `"Tibetan, Central"` can never be looked up, because
  an entry is split on commas first (`Language.CommaKeyNeverLookedUp`).
- Every license name other than `"NONE"` stops the conversion
  (`Rules.RawLicenseShape`). The method adds `doc["license"]` itself as the
  object of a triple. A missing key raises `KeyError`, a dict or list cannot be
  hashed into the set of triples, and any other value is refused by rdflib's
  `Graph.add`, which accepts only RDF terms.

## Model

| member | source | states |
|---|---|---|
| TopoSort.TopologicalSort | dataverse_query/dataset.py:200-236 | On success, every node of the edge set exactly once, with every tail before its head. The `ValueError` is raised exactly when the edge set has a cycle. |
| TopoSort.BuildGraph | dataverse_query/dataset.py:211-219 | The adjacency dict has one key per node of the edge set, and holds exactly the edges. |
| TopoSort.RemoveOutgoing | dataverse_query/dataset.py:226-229 | The popped node's successor set is emptied and nothing else changes. Exactly its former successors that have no incoming edge left become ready. |
| TopoSort.KahnStep | dataverse_query/dataset.py:223-229 | One turn of the `while` loop keeps the invariant. The invariants: (1) the dict holds the edges of the tails not yet output; (2) `no_incoming_edges` is exactly the waiting nodes without incoming edges; (3) the output is duplicate-free and in edge order. |
| TopoSort.KahnStuck | dataverse_query/dataset.py:231-235 | If an edge is left when no node is ready, the edge set has a cycle. |
| TopoSort.KahnFinished | dataverse_query/dataset.py:231-236 | If no edge is left, the output is a topological order of all nodes. |
| TopoSort.OrderedIsAcyclic | dataverse_query/dataset.py:231-236 | An edge set that has a topological order has no cycle, so the error is never raised on acyclic input. |
| TopoSort.PredecessorClosedIsCyclic | dataverse_query/dataset.py:231-235 | A non-empty set of nodes in which every node has a predecessor inside the set contains a cycle. |
| Scheduler.Provided | dataverse_query/dataset.py:451-466 | A method provides its declared labels, or only itself when none are declared. It never provides `None`. |
| Scheduler.Requirements | dataverse_query/dataset.py:468-486 | `{None}` exactly when no labels are declared or the declared set is empty; otherwise exactly the declared labels. Never empty. |
| Scheduler.ProvidedAreNodes | dataverse_query/dataset.py:434-439 | Every provided label is the head of some edge of `directed_edges`. |
| Scheduler.FirstIn | dataverse_query/dataset.py:444-446 | The sort key is the first position of the topological order that holds a provided label. No earlier position holds one. |
| Scheduler.Insert | dataverse_query/dataset.py:441-448 | Inserting into a sorted list keeps it sorted by the key and adds exactly the one element. |
| Scheduler.SortBy | dataverse_query/dataset.py:441-448 | The result is sorted by the key and is a permutation of the input. |
| Scheduler.RankBelow | dataverse_query/dataset.py:440-446 | If one method provides a label another requires, the provider's key is strictly smaller. |
| Scheduler.SortRespectsDependencies | dataverse_query/dataset.py:440-448 | Sorting by that key puts every provider before every method that requires one of its labels. |
| Scheduler.ScheduleRules | dataverse_query/dataset.py:415-449 | The error is `CyclicDependency` exactly when the label graph has a cycle. Otherwise it is `EmptyProvides` exactly when some method provides nothing. Otherwise the result is a permutation of the methods, with providers before requirers. |
| Registry.CatalogueAcyclic | dataverse_query/dataset.py:488-490 | The declared labels form no cycle: every edge climbs from "no requirement" to publisher, to dataset, to the citation methods. |
| Registry.RuleClimbs | dataverse_query/dataset.py:556-557 | Within each declared method, every requirement ranks strictly below every provided label. |
| Registry.PathClimbsLevels | dataverse_query/dataset.py:434-439 | Along any path of the methods' label graph the rank strictly grows. |
| Registry.CatalogueProvides | dataverse_query/dataset.py:451-466 | Every declared method provides a label. |
| Registry.CatalogueSchedule | dataverse_query/dataset.py:415-449 | Scheduling the declared methods never fails. `general_publisher` comes before `general_dataset`, and `general_dataset` before every citation method. |
| Registry.DeclaredLabels | dataverse_query/dataset.py:488-557 | `general_publisher` provides the publisher label and `general_dataset` requires it. `general_dataset` provides the dataset label and every citation method requires it. |
| Registry.ScheduleOrder | dataverse_query/dataset.py:573 | In any dependency-respecting order of the declared methods, the publisher comes before the dataset, and the dataset before every `@requires("dataset")` method. |
| Registry.DatasetReaders | dataverse_query/dataset.py:573-577 | The only methods that read `identifiers["dataset"]` are the citation methods. |
| Registry.PublisherReaders | dataverse_query/dataset.py:530 | Only `general_dataset` reads `identifiers["publisher"]`. |
| Registry.DatasetWrittenBefore | dataverse_query/dataset.py:488-490 | In a dependency-respecting order, `general_dataset` runs before every reader of the dataset node. Its path `$` always matches. |
| Registry.PublisherWrittenBefore | dataverse_query/dataset.py:556-557 | In a dependency-respecting order, `general_publisher` runs before every reader of the publisher node. Its path matches when the document has a `publisher` key. |
| Registry.CatalogueResolves | dataverse_query/dataset.py:384-404 | A run never fails with a `KeyError` on `"dataset"`. It fails with one on `"publisher"` only when the document has no `publisher` key. |
| Conversion.NoUnresolved | dataverse_query/dataset.py:388-404 | If every reader of a role comes after a matching writer of it, the run never fails with that role unresolved. |
| Conversion.Entry | dataverse_query/dataset.py:638 | Only author and contact entries mint nodes; description and language entries leave the allocator alone. An entry fails on a role only for a role its method reads and the table lacks. |
| Conversion.Fold | dataverse_query/dataset.py:637-665 | The loop over `doc["value"]` keeps what it accumulated, never moves the allocator back, leaves it alone for descriptions and languages, and fails on a role only as one entry would. |
| Conversion.ListRule | dataverse_query/dataset.py:637-665 | A method that loops over `doc["value"]` leaves the identifier table unchanged and never moves the allocator back. |
| Conversion.ApplyRule | dataverse_query/dataset.py:396-397 | One method call adds exactly the roles the method writes to the table, changes nothing else when it writes none, and never moves the allocator back. |
| Conversion.ApplyMatches | dataverse_query/dataset.py:391-397 | All calls of one method keep the graph and the table growing. Once a value matched, the roles the method writes are bound. |
| Conversion.RunRules | dataverse_query/dataset.py:388-404 | The run keeps the graph and the table growing. After it, every method whose path matched has its written roles bound. |
| Conversion.RuleFrame | dataverse_query/dataset.py:502 | A method fails on an unresolved role only when it reads that role and the table lacks it. On success, the table gains exactly the roles the method writes, each bound to its first fresh node; other bindings are kept. Its triples mention only nodes it minted or nodes already in the table. |
| Conversion.DatasetFrame | dataverse_query/dataset.py:488-554 | `general_dataset` keeps to the same frame: it reads only the publisher role and writes only the dataset role. |
| Conversion.ListFrame | dataverse_query/dataset.py:638 | A method that loops over the entries of a list field keeps to the same frame and writes no role. |
| Conversion.WriterAhead | dataverse_query/dataset.py:502 | One writer of a role whose path matched, placed before every reader of that role, is enough for every reader to find the role. |
| Conversion.EntryFrame | dataverse_query/dataset.py:638 | An entry of a list field behaves the same way, with the allocator never moving back. |
| Conversion.AuthorFrame | dataverse_query/dataset.py:659-663 | An author entry reads no role and mints at least one node. Its triples use only the nodes it minted. |
| Conversion.ContactFrame | dataverse_query/dataset.py:711-748 | A contact entry reads only the dataset role, mints one node, and otherwise mentions only the dataset node. |
| Conversion.DescriptionFrame | dataverse_query/dataset.py:780-786 | A description entry reads only the dataset role and mentions no other blank node. |
| Conversion.LanguageFrame | dataverse_query/dataset.py:863 | A language entry reads only the dataset role and mentions no other blank node. |
| Conversion.FoldFrame | dataverse_query/dataset.py:637-665 | The loop over `doc["value"]` keeps what it has accumulated. What it adds mentions only nodes minted during the loop, or nodes already in the table. |
| Conversion.RuleAllocates | dataverse_query/dataset.py:659 | After a method call, the counter is above every blank node in the graph and in the table. |
| Conversion.MatchesFrame | dataverse_query/dataset.py:391-396 | All calls of one method keep the graph and the table growing. Once a value has matched, the written roles are bound. Freshness is kept. |
| Conversion.RunAllocates | dataverse_query/dataset.py:388-404 | Over the whole run, the counter stays above every blank node, so fresh nodes from different calls never coincide. |
| Renaming.AuthorShift | dataverse_query/dataset.py:637-665 | An author entry minted `k` later gives the same triples with its nodes renumbered by `k`, and a counter `k` higher. |
| Renaming.ContactShift | dataverse_query/dataset.py:683-749 | A contact entry minted `k` later against the renumbered table gives the renumbered triples and counter, and the same errors. |
| Renaming.TitleShift | dataverse_query/dataset.py:588-594 | A title against the renumbered table gives the renumbered triple, and the same errors. |
| Renaming.DescriptionShift | dataverse_query/dataset.py:768-786 | A description against the renumbered table gives the renumbered triples, and the same errors. |
| Renaming.LanguageShift | dataverse_query/dataset.py:793-865 | A language against the renumbered table gives the renumbered triple, and the same errors. |
| Renaming.PublisherShift | dataverse_query/dataset.py:567-571 | `general_publisher` from the renumbered state mints the renumbered node and gives the renumbered triples and state. |
| Renaming.ReadDatasetShift | dataverse_query/dataset.py:503-543 | The reads of `general_dataset` against the renumbered table succeed alike, fail with the same error, and give the same values except the renumbered publisher. |
| Renaming.DatasetTriplesShift | dataverse_query/dataset.py:513-551 | The eight dataset triples of the renumbered dataset and publisher nodes are the renumbered triples. |
| Renaming.DatasetRuleShift | dataverse_query/dataset.py:491-554 | `general_dataset` from the renumbered state gives the renumbered triples and state, and the same errors. |
| Renaming.EntryShift | dataverse_query/dataset.py:638 | Any entry of a list field, started `k` later against the renumbered table, gives the renumbered outcome. |
| Renaming.FoldShift | dataverse_query/dataset.py:637-665 | The loop over `doc["value"]`, started `k` later from the renumbered table and graph, ends with the renumbered graph and a counter `k` higher. |
| Renaming.ListRuleShift | dataverse_query/dataset.py:637-665 | A list method from the renumbered state gives the renumbered triples and state. |
| Renaming.ApplyRuleShift | dataverse_query/dataset.py:396-397 | Any method call from the renumbered state gives the renumbered triples and state, and the same errors. |
| Renaming.ApplyMatchesShift | dataverse_query/dataset.py:391-397 | All calls of one method, from the renumbered graph and state, give the renumbered graph and state. |
| Renaming.RunRulesShift | dataverse_query/dataset.py:388-404 | A whole schedule run from the renumbered graph and state gives the renumbered graph and state, and the same errors. |
| Renaming.FreshRunShift | dataverse_query/dataset.py:384-404 | Two conversions of one document with one schedule from an empty table, whose counters start `k` apart, give the same graph up to renumbering blank node `i` as `i + k`, and fail alike. |
| Rules.Identifier | dataverse_query/dataset.py:530 | A lookup in `identifiers` succeeds exactly when the role is present. Otherwise it raises `KeyError(role)`. |
| Rules.PySlice | dataverse_query/dataset.py:507 | `s[a:b]` with Python's bounds: for `0 <= a <= b <= len(s)` it is exactly `s[a..b]`; negative bounds count from the end and bounds are clamped (`Rules.SliceBound`); crossed bounds give `""`. |
| Rules.LicenseChoice | dataverse_query/dataset.py:505-511 | The license literal is typed `xsd:anyURI` exactly when the IRI search finds a match, and its text is then exactly the matched span `terms[start..end]`. Otherwise it is the HTML-stripped text, typed `xsd:string`. |
| Rules.LicenseLiteral | dataverse_query/dataset.py:505-511 | The license object is always a literal, typed `xsd:anyURI` exactly when the IRI search finds a match and `xsd:string` otherwise. |
| Rules.VersionRoundTrip | dataverse_query/dataset.py:534-545 | The version string `"major.minor"` splits on `.` into the two decimal numbers, which parse back to major and minor. |
| Rules.ReadDataset | dataverse_query/dataset.py:503-543 | `general_dataset` reads the document in the Python order. Its only unresolved role is the publisher. On success: the publisher term is `identifiers["publisher"]`; the license is the literal chosen from `termsOfUse`; URL, dates and version string come from their fields. |
| Rules.DatasetTriples | dataverse_query/dataset.py:513-551 | The eight triples are all about the dataset node. They include its type, its publisher, the license literal, and the version literal under both `pav:version` and `owl:versionInfo`. |
| Rules.RawLicense | dataverse_query/dataset.py:552-553 | The extra license step succeeds, adding nothing, exactly when the upper-cased license name is `"NONE"`. It never fails on a role. |
| Rules.DatasetRule | dataverse_query/dataset.py:502-554 | On success the dataset node is the next fresh node, recorded under `"dataset"`, the allocator moves by one, the license name was `"NONE"` and the publisher was recorded. Its only unresolved role is a missing publisher. |
| Rules.RawLicenseShape | dataverse_query/dataset.py:552-553 | The license step passes, adding nothing, exactly when the upper-cased license name is `"NONE"`. Any other name fails with the error of `doc["license"]`: `KeyError` when missing; `TypeError` for a dict or list; rdflib's refusal of a non-term at dataset.py:403 otherwise. |
| Rules.DatasetRuleShape | dataverse_query/dataset.py:502-554 | `general_dataset` mints one node and records it as the dataset before reading anything. It fails on a role only when the publisher is missing. It succeeds only for the license name `"NONE"`. Its triples are then exactly eight, in terms of the document's fields: type, identifier, issue and modification dates, publisher, the `major.minor` version twice, and the terms-of-use license literal. |
| Rules.PublisherRule | dataverse_query/dataset.py:567-571 | `general_publisher` mints one node and records it as the publisher. It types the node `foaf:Agent` and names it. |
| Rules.TitleRule | dataverse_query/dataset.py:588-594 | Title and alternative title: one `dcterms:title` triple of the dataset node. It succeeds exactly when the dataset is recorded and the field has a `value`. |
| Rules.Classify | dataverse_query/dataset.py:650-657 | The result is a person (`foaf:Agent`) exactly when the affiliation and the name are strings that differ ignoring case. It fails exactly when `.lower()` would reach a non-string. |
| Rules.AuthorEntry | dataverse_query/dataset.py:637-665 | An author mints one or two nodes and every triple is about one of them. The first is typed person or organization. It never fails on a role. |
| Rules.AuthorClassification | dataverse_query/dataset.py:637-665 | An author is a person or an organization by that test. A membership in a second fresh node is added exactly for a person with a non-empty affiliation. Counter: +2 in that case, +1 otherwise. |
| Rules.ContactKindAsWritten | dataverse_query/dataset.py:697-701 | As written, a contact without an affiliation raises an `AttributeError`. |
| Rules.ContactKindCorrection | dataverse_query/dataset.py:697-703 | The written classification agrees with the author test wherever it succeeds. It fails on every contact that the author test calls an organization for lack of an affiliation. |
| Rules.ContactWithoutAffiliation | dataverse_query/dataset.py:691-701 | For a contact with only a name, the written rule fails and the corrected one emits a `vcard:Organization`. |
| Rules.ContactTriplesShape | dataverse_query/dataset.py:711-748 | Each of the following holds exactly under its condition: `vcard:Kind` for a person; `vcard:Organization` otherwise; an organization name for a person with an affiliation; `mailto:` exactly when an e-mail is given. The name is always the `vcard:fn`. The dataset always points at the contact. |
| Rules.ContactTriplesFrame | dataverse_query/dataset.py:711-748 | Every contact triple is about the new contact node, except the dataset's `dcat:contactPoint` link to it. No predicate is a blank node, and the contact node is the only blank object. |
| Rules.ContactEntry | dataverse_query/dataset.py:683-749 | A contact mints exactly one node, and the recorded dataset points at it with `dcat:contactPoint`. Its only unresolved role is a missing dataset. |
| Rules.ContactShape | dataverse_query/dataset.py:684-749 | The corrected contact entry succeeds exactly when the classification succeeds and the dataset is recorded. It then has the shape above and moves the counter by one. |
| Rules.ContactEntryAsWritten | dataverse_query/dataset.py:691-701 | As written, a contact without an affiliation fails with the `AttributeError`. Wherever the written entry succeeds, it equals the corrected one. |
| Rules.ContactAsWritten | dataverse_query/dataset.py:684-749 | The contact entry as written fails with the `AttributeError` on every contact without an affiliation. Wherever it succeeds, and whenever name and affiliation are strings, it equals the corrected entry. |
| Rules.DescriptionDateAsWrittenIsRecord | dataverse_query/dataset.py:775-778 | As written, the date suffix is the repr of the whole date record, starting with `{`. |
| Rules.DescriptionDateExample | dataverse_query/dataset.py:775-778 | For a record whose value is `2021-06-01`, the corrected suffix is that date. The written one is not. |
| Rules.DescriptionText | dataverse_query/dataset.py:775-778 | Without a date the text is the value itself. With a date it exists exactly when the date suffix and a string value do, is longer than the value, and starts with it. |
| Rules.DescriptionEntryWith | dataverse_query/dataset.py:768-786 | At most one triple: a `dcterms:description` literal of the recorded dataset. Its only unresolved role is a missing dataset, apart from a failure of the date. |
| Rules.DescriptionEntry | dataverse_query/dataset.py:768-786 | The corrected description emits only `dcterms:description` triples and fails on a role only for a missing dataset. For an undated entry it equals the written one. |
| Rules.DescriptionEntryAsWritten | dataverse_query/dataset.py:768-786 | The written description emits only `dcterms:description` triples. A dated entry that emits one has read the whole date record. |
| Rules.DescriptionShape | dataverse_query/dataset.py:768-786 | The sentinel `"value unavailable"` or a null value gives no triple. An undated value gives its own text. A dated string `s` gives `s + "(Description provided on <d>)"`. In the corrected entry `<d>` is the date; in the as-written entry `Rules.DescriptionEntryAsWritten` it is the repr of the whole date record. |
| Rules.LanguageEntry | dataverse_query/dataset.py:793-865 | A language entry fails on an unresolved role only for the dataset, when it is missing. Its triples are all `dcterms:language` links from the dataset node to an IRI. |
| Rules.LanguageShape | dataverse_query/dataset.py:809-865 | An entry is refused with the `ValueError` exactly when no candidate hits. Otherwise the dataset links to the URI of the first hit's code. |
| Language.SynonymsIn | dataverse_query/dataset.py:928-932 | A name's ISO synonyms never include itself, and each shares a class with it. |
| Language.SynonymsSymmetric | dataverse_query/dataset.py:928-932 | For disjoint classes the synonym table is symmetric. `a` is a synonym of `b` exactly when they are distinct members of one class. |
| Language.MainNames | dataverse_query/dataset.py:812-819 | There is one main name per comma-separated part, and always at least one. Main name `i` is part `i`, stripped and mapped through the Dataverse table. |
| Language.DataverseName | dataverse_query/dataset.py:816-818 | A name outside the Dataverse table is kept. A name in it becomes one of the table's ISO names, which is never itself a key, so translating twice changes nothing. |
| Language.Expand | dataverse_query/dataset.py:822-829 | For any synonym table, the candidates are the groups `[main name] + its synonyms`, concatenated in main-name order. So each main name comes before its own synonyms, every main name is tried, and every candidate is a main name or a synonym of one. |
| Language.Candidates | dataverse_query/dataset.py:812-829 | The candidates are the groups of the main names, in entry order, each main name followed by its ISO synonyms. There is always a candidate, the first is the first main name, and every main name is tried. |
| Language.CommaKeyNeverLookedUp | dataverse_query/dataset.py:946 | A trimmed comma-split part has no comma, so it is never `"Tibetan, Central"`. |
| Language.CodeOf | dataverse_query/dataset.py:842-852 | The "no language" names give `zxx`. Any other hit gives its record's `alpha_2` when it has one, and fails with the `AttributeError` when it has none. |
| Language.FirstCode | dataverse_query/dataset.py:839-855 | It fails with the `ValueError` exactly when no candidate hits. Otherwise the result is that of the first candidate that hits. |
| Language.FirstCodeStep | dataverse_query/dataset.py:839-855 | One step of the search: a candidate that hits decides the result; otherwise the rest of the list does. |
| Language.ResolveLanguage | dataverse_query/dataset.py:839-855 | Resolving an entry returns exactly `FirstCode` of its candidate names. |
| Language.SearchNames | dataverse_query/dataset.py:839-855 | The search loop with `break` over the candidate names returns exactly `FirstCode` of those names. |
| Language.LanguageUriRoundTrip | dataverse_query/dataset.py:857-861 | The URI starts with the LOC ISO 639 prefix and names part 1 for codes of at most two characters, part 2 otherwise. The code can be read back from the URI. |
| Language.LanguageUri | dataverse_query/dataset.py:857-861 | The URI is the LOC ISO 639 prefix, the part digit (`1` for codes of at most two characters, `2` otherwise), a `/` and the code, and has exactly that length. |
| DatasetModel.Dataset.constructor | dataverse_query/dataset.py:363-374 | The object holds the document, an empty identifier table and a fresh allocator. |
| DatasetModel.Dataset.NewBlank | dataverse_query/dataset.py:502 | `BNode()` returns the next unused node and leaves the table alone. |
| DatasetModel.Dataset.GeneralDataset | dataverse_query/dataset.py:491-554 | Same result and new state as `Rules.DatasetRule`, including the failure for every license name other than `"NONE"`. |
| DatasetModel.Dataset.GeneralPublisher | dataverse_query/dataset.py:558-571 | Same result and new state as `Rules.PublisherRule`. |
| DatasetModel.Dataset.DescribeAuthor | dataverse_query/dataset.py:640-664 | One author, built step by step: same triples and counter as `Rules.AuthorEntry`. |
| DatasetModel.Dataset.DescribeContact | dataverse_query/dataset.py:685-748 | One contact, built step by step: same triples and counter as the corrected `Rules.ContactEntry`. |
| DatasetModel.Dataset.DescribeLanguage | dataverse_query/dataset.py:812-865 | One language, using the search loop: same result as `Rules.LanguageEntry`. |
| DatasetModel.Dataset.DescribeEntry | dataverse_query/dataset.py:638 | One entry of a list field, for whichever method runs. |
| DatasetModel.Dataset.ListMethod | dataverse_query/dataset.py:806-866 | The `for x in doc["value"]` loop accumulates exactly what `Conversion.ListRule` describes. |
| DatasetModel.Dataset.Apply | dataverse_query/dataset.py:396-397 | A method call on one matched value agrees with `Conversion.ApplyRule`. |
| DatasetModel.Dataset.ApplyAll | dataverse_query/dataset.py:391-404 | One method on all its matches, adding to the graph, agrees with `Conversion.ApplyMatches`. |
| DatasetModel.Dataset.RunAll | dataverse_query/dataset.py:390-404 | The loop over a schedule agrees with `Conversion.RunRules`. |
| DatasetModel.Dataset.ToDcat | dataverse_query/dataset.py:384-404 | The graph is the run of a dependency-respecting schedule of the declared methods, with the corrected contact and description entries. The run never lacks the dataset node. From an empty table, the run is the run from blank node 0 with every blank node renumbered by the starting counter. |
| Text.Split | dataverse_query/dataset.py:812 | `split(",")`: never empty, no part holds the separator, and joining the parts gives the string back. |
| Text.SplitJoin | dataverse_query/dataset.py:812 | Splitting a join of separator-free parts gives the parts back. |
| Text.StripRemovesOnlyOuterSpace | dataverse_query/dataset.py:813 | `strip()` takes off only leading and trailing white space: the result is a window of the input with white space on both sides. |
| Text.Strip | dataverse_query/dataset.py:813 | `strip()` never lengthens the string and leaves no white space at either end. |
| Text.Lower | dataverse_query/dataset.py:653 | `lower()` keeps the length, leaves no ASCII capital, maps each capital to its small letter and changes nothing else. |
| Text.Upper | dataverse_query/dataset.py:552 | `upper()` keeps the length, leaves no ASCII small letter, maps each to its capital and changes nothing else. |
| Text.StripWindow | dataverse_query/dataset.py:813 | Trimming white space off the front and then off the back leaves a window of the input with white space on both sides. |
| Text.ParseNatToString | dataverse_query/dataset.py:536 | `int(str(n)) == n`. |
| JsonValue.Lookup | dataverse_query/dataset.py:641 | A dict lookup finds a value exactly when the key is present. |
| JsonValue.Field | dataverse_query/dataset.py:505 | `d[k]` succeeds exactly when `d` is a dict holding `k`. Otherwise it raises `KeyError`. |
| JsonPath.FilterTypeNameCount | dataverse_query/dataset.py:574-576 | The filter `[?(@.typeName == t)]` keeps each field of that type as many times as the list holds it, and no other value. |
| JsonPath.FilterTypeNameCons | dataverse_query/dataset.py:574-576 | The first field is kept exactly when it has the type, ahead of what is kept of the rest. For a one-element list, that element or nothing. |
| JsonPath.FilterTypeNameAppend | dataverse_query/dataset.py:574-576 | The filter keeps list order: filtering `a + b` gives the kept fields of `a` followed by those of `b`. |
| JsonPath.Find | dataverse_query/dataset.py:393 | `$` matches the document once. `$.key` matches once exactly when the key is present, and then its value. The citation filters match each field of their type as often as it occurs, and nothing else. |
| GlobalSearch.TrimApiSuffix | dataverse_query/utils.py:27 | `base_url[:-4]` drops the last four characters, or gives the empty string for shorter input. |
| GlobalSearch.TrimApiSuffixRoundTrip | dataverse_query/utils.py:26-27 | A base URL ending in `api/` gives back the site root. |
| GlobalSearch.LinkOf | dataverse_query/utils.py:17-37 | Every link but a dataverse's is a string. A dataset or file link starts with the trimmed base URL, the item type and `.xhtml?persistentId=`. |
| GlobalSearch.EntryOf | dataverse_query/utils.py:40-48 | An entry carries the item's `name` as label and its `description`. A dataverse links to its `url`; every other link is a string. |
| GlobalSearch.ConvertToGlobalSearchResponse | dataverse_query/utils.py:4-51 | A missing `data` or `items` key fails with that `KeyError`, and no other error than these two and a bad item is raised. On success there is one entry per item. |
| GlobalSearch.ConvertItems | dataverse_query/utils.py:39-49 | One entry per item, in item order. It fails exactly when some item is not a dict. |
| GlobalSearch.ConvertShape | dataverse_query/utils.py:39-51 | Each entry's label and description are the item's `name` and `description`, unchanged, and its link is the item's link. |
| GlobalSearch.LinkShape | dataverse_query/utils.py:17-37 | A dataverse links to its `url`. A dataset or file links to root + type + `.xhtml?persistentId=` + its persistent id, and each piece can be read back. Any other type gets `""`. |

## Left out

- The RFC 3987 IRI regular expression (dataset.py:66-174) is a parameter: `Collaborators.searchIri` returns the matched span or nothing.
- `html_to_text` and `HTMLText` (dataset.py:178-195) are a parameter, `Collaborators.htmlToText`.
- `pycountry.languages.get` is a parameter, `Collaborators.languageByName`. Its answers depend on the operating system's data.
- General JSONPath: only the three path shapes the methods use are evaluated. Where a step is missing or the fields are not a list, nothing matches.
- rdflib:
  - triples are a datatype and the graph is a set;
  - `Literal` keeps `str()` of its value as the lexical form;
  - serialisation and `to_dcat_file` (dataset.py:406-413) are file I/O and are left out.
- The debugging `print` at dataset.py:503 is I/O. Only its read of `doc["latestVersion"]` is kept.
- `Dataset.to_json`, `dataverse_query.py` (an HTTP client) and the Flask application are not part of this model.
- Text.Lower: only ASCII letters change case. Python's full Unicode case mapping is not modelled.
- Text.Upper: only ASCII letters change case. Python's full Unicode case mapping is not modelled; no non-ASCII letter upper-cases to the letters of `NONE`.
- JsonValue.PyRepr: does not escape quotes or non-printable characters as Python's `repr` does.
- Numbers in the JSON document are integers; floats are not modelled.
- The order in which a name's ISO synonyms are tried is the order of the table in the source. Python iterates the `frozenset` in hash order, which the model does not reproduce.
- Language.SynonymsSymmetric: assumes the synonym classes are disjoint. This is not proved for the concrete table.
- JsonValue.OptionalValue: a membership test on a value that is not a dict is modelled as a `KeyError`. Python would instead test substrings of a string, or items of a list.
- Rules.DescriptionText: a dated description whose value is not a string is modelled as an error. For a list, Python would append the characters of the suffix instead.
- Scheduler.SortBy: the sort is stable, as Python's `sorted` is, but stability is not stated.
- Scheduler.ScheduleRules: when methods with equal keys are ordered, only the dependency order is stated, not the `dir()` order among equals.
- Conversion.Entry: runs the corrected contact entry (`Rules.ContactEntry`) and description entry (`Rules.DescriptionEntry`). The entries as written are `Rules.ContactEntryAsWritten` and `Rules.DescriptionEntryAsWritten`, and the engine does not run them. So the run accepts a contact without an affiliation, which stops the source. It also puts the date, not the repr of the date record, into a dated description.
- DatasetModel.Dataset.ToDcat: describes the conversion with the two corrections of "## Findings". The failures and texts of the written entries are stated only per entry (`Rules.ContactAsWritten`, `Rules.DescriptionShape`).
- Rules.DescriptionShape: the engine uses the corrected date. The written suffix is stated only for one entry, not for a whole run.
- DatasetModel.Dataset.ToDcat: after a failure, the state of the object is not stated. Python leaves whatever the methods had written before the exception.
- DatasetModel.Dataset.NewBlank: blank nodes are a counter. rdflib's random identifiers are modelled by their freshness, and by `Renaming`: moving the start of the counter only renumbers the blank nodes.
- DatasetModel.Dataset.ToDcat: run-to-run equality is stated for runs from an empty table (`Renaming.FreshRunShift`), with the renaming a constant shift of the counter. A second `to_dcat` on the same object starts from the table the first run filled, and is not stated. Neither is equality under an arbitrary one-to-one renaming of blank nodes.
- DatasetModel.Dataset.ToDcat: the graph is stated as the run of one dependency-respecting schedule. That every such order of the methods gives the same graph is not proved.

## Findings

| source | as written | input that shows it | evidently intended | confidence | as-written member | corrected member |
|---|---|---|---|---|---|---|
| dataverse_query/dataset.py:697-701 | The contact classification calls `contact_affiliation.lower()` unconditionally. A contact without an affiliation raises `AttributeError` and stops the whole conversion. | A contact with only `datasetContactName` = "Jane Doe" | The author test: no affiliation means an organization (Rules.ContactWithoutAffiliation exhibits the input; Rules.ContactKindCorrection and Rules.ContactShape prove the corrected behaviour). | not executed | Rules.ContactKindAsWritten | Rules.Classify |
| dataverse_query/dataset.py:775-778 | The f-string inserts the whole `dsDescriptionDate` field record, so the suffix holds a dict repr. | A description whose date record has value `2021-06-01` | The record's `value`, the date itself (Rules.DescriptionDateAsWrittenIsRecord and Rules.DescriptionDateExample). | not executed | Rules.DescriptionDateAsWritten | Rules.DescriptionDate |
