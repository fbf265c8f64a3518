/** How the parsing rules of a dataset are put in order: each rule's
    provided and required labels become edges, the labels are sorted
    topologically, and the rules are sorted (stably) by the earliest
    position of a label they provide. */
module Scheduler {
  import opened Wrappers
  import opened TopoSort
  import opened JsonPath

  /** A node of the label graph: `None` (no ordering constraint), a label
      string named in `@provides`/`@requires`, or a rule standing for itself
      when it provides nothing explicitly. */
  datatype Label = NoDependency | Named(name: string) | Itself(rule: string)

  /** Which rule body a descriptor runs. */
  datatype Body =
    | GeneralDataset
    | GeneralPublisher
    | Title
    | AlternativeTitle
    | Author
    | DatasetContact
    | Description
    | Language

  /** A parsing rule as its decorators describe it: the method name, the JSON
      path of `@jsonpath`, the label sets of `@provides` and `@requires`
      (absent when the decorator is not applied) and the body it runs. */
  datatype Rule = Rule(
    name: string,
    query: Query,
    declaredProvides: Option<set<string>>,
    declaredRequires: Option<set<string>>,
    body: Body)

  /** `_provided`: the declared labels, or the rule itself when none are
      declared. `None` is never provided. */
  function Provided(r: Rule): (ls: set<Label>)
    ensures NoDependency !in ls
    ensures r.declaredProvides.None? ==> ls == {Itself(r.name)}
    ensures r.declaredProvides.Some? ==> forall l :: l in ls <==> l.Named? && l.name in r.declaredProvides.value
  {
    match r.declaredProvides
    case None => {Itself(r.name)}
    case Some(ps) => set p | p in ps :: Named(p)
  }

  /** `_requirements`: the declared labels, or `{None}` when none are declared
      or the declared set is empty. Never empty, so every provided label
      takes part in at least one edge. */
  function Requirements(r: Rule): (ls: set<Label>)
    ensures ls != {}
    ensures NoDependency in ls <==> r.declaredRequires.None? || r.declaredRequires.value == {}
    ensures forall l :: l in ls ==> l.NoDependency? || (l.Named? && r.declaredRequires.Some? && l.name in r.declaredRequires.value)
    ensures r.declaredRequires.Some? ==> forall n :: n in r.declaredRequires.value ==> Named(n) in ls
  {
    if r.declaredRequires.Some? && r.declaredRequires.value != {} then
      var ns := r.declaredRequires.value;
      var ls := set m | m in ns :: Named(m);
      var n :| n in ns;
      assert Named(n) in ls;
      ls
    else
      {NoDependency}
  }

  /** `directed_edges`: every required label points at every provided label
      of the same rule. */
  function LabelEdges(rules: seq<Rule>): set<(Label, Label)> {
    set r, a, b | r in rules && a in Requirements(r) && b in Provided(r) :: (a, b)
  }

  /** Every label a rule provides occurs in the edge set. */
  lemma {:induction false} ProvidedAreNodes(rules: seq<Rule>, r: Rule, x: Label)
    requires r in rules && x in Provided(r)
    ensures x in Nodes(LabelEdges(rules))
    ensures exists a :: (a, x) in LabelEdges(rules)
  {
    var a :| a in Requirements(r);
    assert (a, x) in LabelEdges(rules);
  }

  /** The earliest position of `order` holding an element of `p`: the
      `min(sorted_provided.index(x) for x in provided(method))` key, which is
      the same number because `index` finds an element's first position. */
  function FirstIn(order: seq<Label>, p: set<Label>): (i: nat)
    requires exists x :: x in p && x in order
    ensures i < |order| && order[i] in p
    ensures forall j :: 0 <= j < i ==> order[j] !in p
  {
    if order[0] in p then 0 else 1 + FirstIn(order[1..], p)
  }

  /** The sort key of a rule. Every rule that reaches the sort provides a
      label of the order; the fallback value is never used. */
  function Rank(order: seq<Label>, r: Rule): nat {
    if exists x :: x in Provided(r) && x in order then FirstIn(order, Provided(r)) else |order|
  }

  ghost predicate SortedBy(key: Rule -> nat, s: seq<Rule>) {
    forall i, j :: 0 <= i < j < |s| ==> key(s[i]) <= key(s[j])
  }

  /** Inserts `x` before the first element whose key is not smaller, so that
      rules with equal keys keep their relative order. */
  function Insert(key: Rule -> nat, x: Rule, s: seq<Rule>): (r: seq<Rule>)
    requires SortedBy(key, s)
    ensures SortedBy(key, r)
    ensures multiset(r) == multiset(s) + multiset{x}
  {
    if s == [] || key(x) <= key(s[0]) then
      [x] + s
    else
      var rest := Insert(key, x, s[1..]);
      assert s == [s[0]] + s[1..];
      InsertBound(key, x, s, rest);
      SortedCons(key, s[0], rest);
      [s[0]] + rest
  }

  /** What `Insert` puts after the head of `s` is no smaller than that head. */
  lemma InsertBound(key: Rule -> nat, x: Rule, s: seq<Rule>, rest: seq<Rule>)
    requires SortedBy(key, s) && s != [] && key(s[0]) < key(x)
    requires multiset(rest) == multiset(s[1..]) + multiset{x}
    ensures forall k :: 0 <= k < |rest| ==> key(s[0]) <= key(rest[k])
  {
    forall k | 0 <= k < |rest|
      ensures key(s[0]) <= key(rest[k])
    {
      assert rest[k] in multiset(rest);
      if rest[k] != x {
        assert rest[k] in multiset(s[1..]);
        assert rest[k] in s[1..];
        var m :| 0 <= m < |s[1..]| && s[1..][m] == rest[k];
        assert s[m + 1] == rest[k];
      }
    }
  }

  /** A head no larger than any element of a sorted tail gives a sorted sequence. */
  lemma SortedCons(key: Rule -> nat, y: Rule, rest: seq<Rule>)
    requires SortedBy(key, rest)
    requires forall k :: 0 <= k < |rest| ==> key(y) <= key(rest[k])
    ensures SortedBy(key, [y] + rest)
  {
    var r := [y] + rest;
    forall i, j | 0 <= i < j < |r|
      ensures key(r[i]) <= key(r[j])
    {
      assert r[j] == rest[j - 1];
      if i > 0 {
        assert r[i] == rest[i - 1];
      }
    }
  }

  /** `sorted(methods, key=key)`: a stable sort. */
  function SortBy(key: Rule -> nat, s: seq<Rule>): (r: seq<Rule>)
    ensures SortedBy(key, r)
    ensures multiset(r) == multiset(s)
  {
    if s == [] then []
    else
      assert s == [s[0]] + s[1..];
      Insert(key, s[0], SortBy(key, s[1..]))
  }

  /** A rule that provides a label runs before every rule that requires it. */
  ghost predicate RespectsDependencies(s: seq<Rule>) {
    forall i, j, l :: 0 <= i < |s| && 0 <= j < |s| && l in Provided(s[i]) && l in Requirements(s[j]) ==> i < j
  }

  /** Sorting the rules by rank in a topological order of their labels puts
      providers before requirers. */
  lemma SortRespectsDependencies(rules: seq<Rule>, order: seq<Label>, s: seq<Rule>)
    requires IsTopologicalOrder(LabelEdges(rules), order)
    requires forall r :: r in rules ==> Provided(r) != {}
    requires SortedBy(r => Rank(order, r), s) && multiset(s) == multiset(rules)
    ensures RespectsDependencies(s)
  {
    forall i, j, l | 0 <= i < |s| && 0 <= j < |s| && l in Provided(s[i]) && l in Requirements(s[j])
      ensures i < j
    {
      assert s[i] in multiset(rules) && s[j] in multiset(rules);
      assert s[i] in rules && s[j] in rules;
      RankBelow(rules, order, s[i], s[j], l);
      SortedKeys(order, s, i, j);
    }
  }

  /** In a sequence sorted by rank, a rank strictly below another's comes first. */
  lemma SortedKeys(order: seq<Label>, s: seq<Rule>, i: int, j: int)
    requires SortedBy(r => Rank(order, r), s)
    requires 0 <= i < |s| && 0 <= j < |s| && Rank(order, s[i]) < Rank(order, s[j])
    ensures i < j
  {
  }

  /** One label provided by `p` and required by `m` puts `p`'s rank strictly
      below `m`'s. */
  lemma RankBelow(rules: seq<Rule>, order: seq<Label>, p: Rule, m: Rule, l: Label)
    requires IsTopologicalOrder(LabelEdges(rules), order)
    requires p in rules && m in rules && Provided(m) != {}
    requires l in Provided(p) && l in Requirements(m)
    ensures Rank(order, p) < Rank(order, m)
  {
    var edges := LabelEdges(rules);
    var y :| y in Provided(m);
    ProvidedAreNodes(rules, m, y);
    ProvidedAreNodes(rules, p, l);
    var km := FirstIn(order, Provided(m));
    assert (l, order[km]) in edges;
    var kl := IndexOf(order, l);
    assert Rank(order, p) <= kl;
    assert kl < km;
  }

  /** `get_topologically_sorted_parsing_methods` on a list of rules: the
      ValueError of `topological_sort` exactly when the label graph has a
      cycle; otherwise the ValueError of `min()` exactly when some rule
      provides no label; otherwise the same rules, each provider before every
      rule that requires one of its labels. */
  method ScheduleRules(rules: seq<Rule>) returns (res: Result<seq<Rule>>)
    ensures res.Failure? ==> res.error == CyclicDependency || res.error == EmptyProvides
    ensures res.Failure? && res.error == CyclicDependency <==> Cyclic(LabelEdges(rules))
    ensures res.Failure? && res.error == EmptyProvides <==>
      !Cyclic(LabelEdges(rules)) && exists r :: r in rules && Provided(r) == {}
    ensures res.Success? ==> multiset(res.value) == multiset(rules) && RespectsDependencies(res.value)
  {
    var edges := LabelEdges(rules);
    var order :- TopologicalSort(edges);
    if exists r :: r in rules && Provided(r) == {} {
      return Failure(EmptyProvides);
    }
    var s := SortBy(r => Rank(order, r), rules);
    SortRespectsDependencies(rules, order, s);
    return Success(s);
  }
}
