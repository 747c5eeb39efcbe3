/**
 * When the order of the flat rules survives too, where the arrays that are made unfold: merging
 * the heads of leaves that no unfolding array encloses keeps it, merging the heads of blocks
 * never does.
 */
module RuleTreeOrder {
  import opened Seqs
  import opened Products
  import opened RuleTree
  import opened RuleTreeSize
  import opened RuleTreeMerges
  import opened RuleTreeReading
  import opened RuleTreeFlat
  import opened RuleTreeConservation

  /** The option stays one option of one flat rule: a single value, a one-item list, a joined list. */
  predicate Single(how: Reading, e: Entry) {
    |Alternatives(how, e)| == 1
  }

  predicate Plain(how: Reading, entries: seq<Entry>) {
    forall i :: 0 <= i < |entries| ==> Single(how, entries[i])
  }

  /** What the passes start from: parsed rules that stand for one flat rule each. */
  predicate PlainLeaves(how: Reading, rules: seq<Rule>) {
    forall i :: 0 <= i < |rules| ==> rules[i].Leaf? && Plain(how, rules[i].matches)
  }

  /** No run of blocks is merged. */
  predicate LeavesOnly(runs: set<Run>) {
    forall run: Run :: run in runs ==> run != [] && run[0].Leaf?
  }

  // --- merging in order ----------------------------------------------------

  /** `plain` says that no array encloses the list; inside one, nothing may be merged. */
  predicate ArrayInOrder(rules: seq<Rule>, plain: bool) {
    rules == []
    || ((MergeRun(rules) > 1 ==> plain && rules[0].Leaf?) && ArrayInOrder(rules[MergeRun(rules)..], plain))
  }

  predicate FactorInOrder(how: Reading, rules: seq<Rule>, plain: bool)
    decreases HeadEntries(rules), |rules|, 0
  {
    if rules == [] then true
    else if rules[0].matches == [] || LeadingRun(rules) == 1 then FactorInOrder(how, rules[1..], plain)
    else
      var n := LeadingRun(rules);
      HeadEntriesSplit(rules, n); HeadEntriesTails(rules[..n]);
      OptimizeInOrder(how, Tails(rules[..n]), plain && Single(how, rules[0].matches[0])) && FactorInOrder(how, rules[n..], plain)
  }

  /** Whatever is merged is a run of leaves that no array encloses. */
  predicate OptimizeInOrder(how: Reading, rules: seq<Rule>, plain: bool)
    decreases HeadEntries(rules), |rules|, 1
  {
    FactorInOrder(how, rules, plain) && ArrayInOrder(FactorPass(rules), plain)
  }

  predicate FlushEachInOrder(how: Reading, rules: seq<Rule>, plain: bool)
    decreases Weight(rules), 0
  {
    if rules == [] then true
    else
      WeightUnfolds(rules);
      && (rules[0].Block? ==> FlushInOrder(how, rules[0].body, plain && Plain(how, rules[0].matches)))
      && FlushEachInOrder(how, rules[1..], plain)
  }

  predicate FlushInOrder(how: Reading, rules: seq<Rule>, plain: bool)
    decreases Weight(rules), 1
  {
    OptimizeSize(rules);
    OptimizeInOrder(how, rules, plain) && FlushEachInOrder(how, Optimize(rules), plain)
  }

  lemma {:induction false} WithMetaSplit(a: seq<seq<Atom>>, b: seq<seq<Atom>>, meta: Meta)
    ensures WithMeta(a + b, meta) == WithMeta(a, meta) + WithMeta(b, meta)
  {
  }

  lemma {:induction false} LeafSplitsInOrder(how: Reading, r: Rule, context: seq<Entry>, whole: Entry, a: Entry, b: Entry, post: seq<Entry>)
    requires r.Leaf? && Plain(how, context) && SplitsInto(how, whole, a, b)
    ensures Expand(how, r, context + [whole] + post)
            == Expand(how, r, context + [a] + post) + Expand(how, r, context + [b] + post)
  {
    var inner := post + r.matches;
    forall e: Entry
      ensures Choices(how, context + [e] + post + r.matches)
              == Choices(how, context) + [Alternatives(how, e)] + Choices(how, inner)
    {
      assert context + [e] + post + r.matches == context + [e] + inner;
      ChoicesAround(how, context, e, inner);
    }
    ProductSplitsInOrder(Choices(how, context), Alternatives(how, a), Alternatives(how, b), Choices(how, inner));
    WithMetaSplit(Product(Choices(how, context + [a] + post + r.matches)),
                  Product(Choices(how, context + [b] + post + r.matches)), r.meta);
  }

  lemma {:induction false} GatheredInOrder(how: Reading, group: seq<Rule>, name: string, tail: Rule, context: seq<Entry>)
    requires how(name).AnyOf?
    requires Headed(group) && tail.Leaf? && Plain(how, context)
    requires forall i :: 0 <= i < |group| ==> Tail(group[i]) == tail && group[i].matches[0].name == name
    ensures ExpandAll(how, group, context) == Expand(how, tail, context + [Entry(name, List(Gather(group)))])
  {
    forall x: Entry ensures context + [x] + [] == context + [x] {}
    if group == [] {
      var none := Entry(name, List([]));
      LeafSplitsInOrder(how, tail, context, none, none, none, []);
    } else {
      GatheredInOrder(how, group[1..], name, tail, context);
      GatherSplits(how, group, name);
      var e, rest := group[0].matches[0], Entry(name, List(Gather(group[1..])));
      LeafSplitsInOrder(how, tail, context, Entry(name, List(Gather(group))), e, rest, []);
      ExpandPrepend(how, e, tail, context);
      assert Prepend(e, tail) == group[0];
    }
  }

  lemma {:induction false} StepOrder(how: Reading, rules: seq<Rule>, n: nat, head: Rule, rest: seq<Rule>, context: seq<Entry>)
    requires n <= |rules|
    requires Expand(how, head, context) == ExpandAll(how, rules[..n], context)
    requires ExpandAll(how, rest, context) == ExpandAll(how, rules[n..], context)
    ensures ExpandAll(how, [head] + rest, context) == ExpandAll(how, rules, context)
  {
    var all := [head] + rest;
    assert all[0] == head && all[1..] == rest;
    ExpandSplit(how, rules[..n], rules[n..], context);
    assert rules[..n] + rules[n..] == rules;
  }

  lemma {:induction false} LeafRunOrder(how: Reading, group: seq<Rule>, context: seq<Entry>)
    requires Mergeable(group) && group[0].Leaf? && Plain(how, context)
    requires how(group[0].matches[0].name).AnyOf?
    ensures Expand(how, MergeHeads(group), context) == ExpandAll(how, group, context)
  {
    var name, tail := group[0].matches[0].name, Tail(group[0]);
    GatheredInOrder(how, group, name, tail, context);
    ExpandPrepend(how, Entry(name, List(Gather(group))), tail, context);
  }

  lemma {:induction false} ArrayPassOrder(how: Reading, rules: seq<Rule>, context: seq<Entry>)
    requires MergedOn(ArrayRuns(rules), Spreading(how))
    requires ArrayInOrder(rules, Plain(how, context))
    ensures ExpandAll(how, ArrayPass(rules), context) == ExpandAll(how, rules, context)
  {
    if rules != [] {
      var n := MergeRun(rules);
      ArrayRunsUnfold(rules, Spreading(how));
      ArrayPassOrder(how, rules[n..], context);
      if n > 1 {
        assert rules[..n][0] == rules[0];
        LeafRunOrder(how, rules[..n], context);
        StepOrder(how, rules, n, MergeHeads(rules[..n]), ArrayPass(rules[n..]), context);
      }
    }
  }

  lemma {:induction false} FactorPassOrder(how: Reading, rules: seq<Rule>, context: seq<Entry>)
    requires MergedOn(FactorRuns(rules), Spreading(how))
    requires FactorInOrder(how, rules, Plain(how, context))
    ensures ExpandAll(how, FactorPass(rules), context) == ExpandAll(how, rules, context)
    decreases HeadEntries(rules), |rules|, 0
  {
    if rules == [] {
    } else if rules[0].matches == [] || LeadingRun(rules) == 1 {
      FactorPassOrder(how, rules[1..], context);
    } else {
      var n := LeadingRun(rules);
      var e := rules[0].matches[0];
      HeadEntriesSplit(rules, n); HeadEntriesTails(rules[..n]);
      var block := Optimize(Tails(rules[..n]));
      MergedOnUnion(OptimizeRuns(Tails(rules[..n])), FactorRuns(rules[n..]), Spreading(how));
      PlainSnoc(how, context, e);
      OptimizeInOrderKeeps(how, Tails(rules[..n]), context + [e]);
      ExpandFactor(how, e, block, context);
      ExpandTails(how, rules[..n], e, context);
      FactorPassOrder(how, rules[n..], context);
      StepOrder(how, rules, n, Factor(e, block), FactorPass(rules[n..]), context);
    }
  }

  lemma {:induction false} PlainSnoc(how: Reading, context: seq<Entry>, e: Entry)
    ensures Plain(how, context + [e]) <==> Plain(how, context) && Single(how, e)
  {
    var all := context + [e];
    assert all[|context|] == e && forall i :: 0 <= i < |context| ==> all[i] == context[i];
  }

  lemma {:induction false} OptimizeInOrderKeeps(how: Reading, rules: seq<Rule>, context: seq<Entry>)
    requires MergedOn(OptimizeRuns(rules), Spreading(how))
    requires OptimizeInOrder(how, rules, Plain(how, context))
    ensures ExpandAll(how, Optimize(rules), context) == ExpandAll(how, rules, context)
    decreases HeadEntries(rules), |rules|, 1
  {
    MergedOnUnion(FactorRuns(rules), ArrayRuns(FactorPass(rules)), Spreading(how));
    ArrayPassOrder(how, FactorPass(rules), context);
    FactorPassOrder(how, rules, context);
  }

  lemma {:induction false} FlushEachOrder(how: Reading, rules: seq<Rule>, context: seq<Entry>)
    requires MergedOn(FlushEachRuns(rules), Spreading(how))
    requires FlushEachInOrder(how, rules, Plain(how, context))
    ensures ExpandAll(how, FlushEach(rules), context) == ExpandAll(how, rules, context)
    decreases Weight(rules), 0
  {
    if rules != [] {
      WeightUnfolds(rules);
      MergedOnUnion(if rules[0].Block? then FlushRuns(rules[0].body) else {}, FlushEachRuns(rules[1..]), Spreading(how));
      if rules[0].Block? {
        PlainAppend(how, context, rules[0].matches);
        FlushOrder(how, rules[0].body, context + rules[0].matches);
      }
      FlushEachOrder(how, rules[1..], context);
      assert FlushEach(rules)[1..] == FlushEach(rules[1..]);
    }
  }

  lemma {:induction false} PlainAppend(how: Reading, a: seq<Entry>, b: seq<Entry>)
    ensures Plain(how, a + b) <==> Plain(how, a) && Plain(how, b)
  {
    assert forall i :: 0 <= i < |a| ==> (a + b)[i] == a[i];
    assert forall i :: 0 <= i < |b| ==> (a + b)[|a| + i] == b[i];
  }

  /** The emitted tree expands to the very list it was built from when every merged run is one of leaves outside any array. */
  lemma {:induction false} FlushOrder(how: Reading, rules: seq<Rule>, context: seq<Entry>)
    requires MergedOn(FlushRuns(rules), Spreading(how))
    requires FlushInOrder(how, rules, Plain(how, context))
    ensures ExpandAll(how, Flush(rules), context) == ExpandAll(how, rules, context)
    decreases Weight(rules), 1
  {
    OptimizeSize(rules);
    MergedOnUnion(OptimizeRuns(rules), FlushEachRuns(Optimize(rules)), Spreading(how));
    OptimizeInOrderKeeps(how, rules, context);
    FlushEachOrder(how, Optimize(rules), context);
  }
}
