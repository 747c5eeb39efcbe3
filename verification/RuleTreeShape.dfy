/** What the passes leave no trace of: foreign array items, lone blocks, and neighbours they should have joined. */
module RuleTreeShape {
  import opened RuleTree
  import opened RuleTreeSize

  // --- what may stand in an array -----------------------------------------------------

  /** Every array of the tree holds plain scalars and items of the pool only. */
  predicate DrawnFrom(pool: set<Value>, rules: seq<Rule>) {
    forall i :: 0 <= i < |rules| ==>
      Drawn(pool, rules[i].matches) && (rules[i].Block? ==> DrawnFrom(pool, rules[i].body))
  }

  predicate Drawn(pool: set<Value>, entries: seq<Entry>) {
    forall i :: 0 <= i < |entries| ==> entries[i].value.List? ==> Plain(pool, entries[i].value.items)
  }

  predicate Plain(pool: set<Value>, items: seq<Value>) {
    forall i :: 0 <= i < |items| ==> items[i].Scalar? || items[i] in pool
  }

  lemma DrawnTails(pool: set<Value>, rules: seq<Rule>)
    requires Headed(rules) && DrawnFrom(pool, rules)
    ensures DrawnFrom(pool, Tails(rules))
  {
  }

  lemma DrawnFactor(pool: set<Value>, e: Entry, block: seq<Rule>)
    requires Drawn(pool, [e]) && DrawnFrom(pool, block)
    ensures DrawnFrom(pool, [Factor(e, block)])
  {
    if |block| == 1 {
      assert Drawn(pool, block[0].matches);
      assert forall i :: 0 < i <= |block[0].matches| ==> ([e] + block[0].matches)[i] == block[0].matches[i - 1];
      assert [e][0] == e;
    }
  }

  lemma {:induction false} DrawnGather(pool: set<Value>, group: seq<Rule>)
    requires Headed(group) && DrawnFrom(pool, group)
    requires forall i :: 0 <= i < |group| ==> CanJoinArray(group[i].matches[0].value)
    ensures Plain(pool, Gather(group))
  {
    if group != [] { DrawnGather(pool, group[1..]); }
  }

  lemma {:induction false} FactorPassDrawn(pool: set<Value>, rules: seq<Rule>)
    requires DrawnFrom(pool, rules)
    ensures DrawnFrom(pool, FactorPass(rules))
    decreases HeadEntries(rules), |rules|, 0
  {
    if rules == [] {
    } else if rules[0].matches == [] || LeadingRun(rules) == 1 {
      FactorPassDrawn(pool, rules[1..]);
    } else {
      var n := LeadingRun(rules);
      HeadEntriesSplit(rules, n); HeadEntriesTails(rules[..n]);
      DrawnTails(pool, rules[..n]);
      OptimizeDrawn(pool, Tails(rules[..n]));
      assert Drawn(pool, rules[0].matches);
      DrawnFactor(pool, rules[0].matches[0], Optimize(Tails(rules[..n])));
      FactorPassDrawn(pool, rules[n..]);
    }
  }

  lemma {:induction false} ArrayPassDrawn(pool: set<Value>, rules: seq<Rule>)
    requires DrawnFrom(pool, rules)
    ensures DrawnFrom(pool, ArrayPass(rules))
  {
    if rules == [] {
    } else if MergeRun(rules) == 1 {
      ArrayPassDrawn(pool, rules[1..]);
    } else {
      var n := MergeRun(rules);
      var group := rules[..n];
      assert ArrayMatches(group[0], group[1]);
      DrawnGather(pool, group);
      assert Drawn(pool, group[0].matches);
      ArrayPassDrawn(pool, rules[n..]);
    }
  }

  lemma {:induction false} OptimizeDrawn(pool: set<Value>, rules: seq<Rule>)
    requires DrawnFrom(pool, rules)
    ensures DrawnFrom(pool, Optimize(rules))
    decreases HeadEntries(rules), |rules|, 1
  {
    FactorPassDrawn(pool, rules);
    ArrayPassDrawn(pool, FactorPass(rules));
  }

  lemma {:induction false} FlushEachDrawn(pool: set<Value>, rules: seq<Rule>)
    requires DrawnFrom(pool, rules)
    ensures DrawnFrom(pool, FlushEach(rules))
    decreases Weight(rules), 0
  {
    if rules != [] {
      WeightUnfolds(rules);
      if rules[0].Block? { FlushDrawn(pool, rules[0].body); }
      FlushEachDrawn(pool, rules[1..]);
    }
  }

  /**
   * Only plain scalars are ever joined to an array: whatever else stands in an array anywhere in the emitted tree,
   * a negated option for one, stood in an array of the input.
   */
  lemma {:induction false} FlushDrawn(pool: set<Value>, rules: seq<Rule>)
    requires DrawnFrom(pool, rules)
    ensures DrawnFrom(pool, Flush(rules))
    decreases Weight(rules), 1
  {
    OptimizeSize(rules);
    OptimizeDrawn(pool, rules);
    FlushEachDrawn(pool, Optimize(rules));
  }

  // --- neighbours that should have been joined ------------------------------------------

  /** The two differ in nothing but the values of one first option, and both values may stand in an array. */
  predicate CouldMerge(a: Rule, b: Rule) {
    && a.matches != [] && b.matches != [] && a.matches[0].name == b.matches[0].name
    && (a.matches[0].value.Scalar? || a.matches[0].value.List?)
    && (b.matches[0].value.Scalar? || b.matches[0].value.List?)
    && a.(matches := a.matches[1..]) == b.(matches := b.matches[1..])
  }

  /** The rule is known to start with an option that takes exactly one string. */
  predicate OneString(r: Rule) {
    && r.matches != [] && r.Leaf? && r.meta.matchKeywords.Some?
    && r.matches[0].name in r.meta.matchKeywords.value
    && r.meta.matchKeywords.value[r.matches[0].name] == Letters("s")
  }

  /** Neighbours that could have been merged start with a one-string option. */
  predicate AllMerged(rules: seq<Rule>) {
    forall i :: 0 < i < |rules| && CouldMerge(rules[i - 1], rules[i]) ==> OneString(rules[i - 1])
  }

  lemma MergedStarts(rules: seq<Rule>)
    requires rules != []
    ensures ArrayPass(rules) != []
    ensures forall r :: CouldMerge(r, ArrayPass(rules)[0]) ==> CouldMerge(r, rules[0])
  {
    if MergeRun(rules) > 1 { assert ArrayMatches(rules[..MergeRun(rules)][0], rules[..MergeRun(rules)][1]); }
  }

  /** The second pass merges all it can. */
  lemma {:induction false} ArrayPassMergesAll(rules: seq<Rule>)
    ensures AllMerged(ArrayPass(rules))
  {
    if rules != [] {
      var n := MergeRun(rules);
      ArrayPassMergesAll(rules[n..]);
      if n < |rules| {
        MergedStarts(rules[n..]);
        RunIsMaximal(rules);
      }
    }
  }

  lemma RunIsMaximal(rules: seq<Rule>)
    requires rules != [] && MergeRun(rules) < |rules|
    ensures var head := ArrayPass(rules)[0];
            CouldMerge(head, rules[MergeRun(rules)]) ==> OneString(head)
  {
    var n := MergeRun(rules);
    ArrayRunIsRun(rules[0], rules[1..]);
    assert rules[1..][n - 1] == rules[n];
    if n > 1 { assert ArrayMatches(rules[..n][0], rules[..n][1]); }
  }

  /** Neighbours never share their first match. */
  predicate AllFactored(rules: seq<Rule>) {
    forall i :: 0 < i < |rules| && rules[i - 1].matches != [] && rules[i].matches != [] ==>
      rules[i - 1].matches[0] != rules[i].matches[0]
  }

  /** The first pass factors out every shared first match. */
  lemma {:induction false} FactorPassFactorsAll(rules: seq<Rule>)
    ensures AllFactored(FactorPass(rules))
    ensures rules != [] ==> FactorPass(rules) != [] && FirstMatch(FactorPass(rules)[0]) == FirstMatch(rules[0])
    decreases HeadEntries(rules), |rules|, 0
  {
    if rules == [] {
    } else if rules[0].matches == [] {
      FactorPassFactorsAll(rules[1..]);
    } else {
      var n := LeadingRun(rules);
      HeadEntriesSplit(rules, n);
      FactorPassFactorsAll(rules[n..]);
    }
  }

  function FirstMatch(r: Rule): seq<Entry> {
    if r.matches == [] then [] else [r.matches[0]]
  }

  /** At every depth, no two neighbouring rules could still be merged, one-string options aside. */
  predicate RulesApart(rules: seq<Rule>) {
    && (forall i :: 0 < i < |rules| && rules[i - 1].Leaf? && CouldMerge(rules[i - 1], rules[i]) ==>
          OneString(rules[i - 1]))
    && forall i :: 0 <= i < |rules| && rules[i].Block? ==> RulesApart(rules[i].body)
  }

  lemma {:induction false} FlushEachApart(rules: seq<Rule>)
    requires AllMerged(rules)
    ensures RulesApart(FlushEach(rules))
    ensures rules != [] ==>
              && FlushEach(rules) != []
              && if rules[0].Leaf? then FlushEach(rules)[0] == rules[0] else FlushEach(rules)[0].Block?
    decreases Weight(rules), 0
  {
    if rules != [] {
      WeightUnfolds(rules);
      if rules[0].Block? { FlushApart(rules[0].body); }
      assert forall i :: 0 < i < |rules[1..]| ==> rules[1..][i] == rules[i + 1] && rules[1..][i - 1] == rules[i];
      FlushEachApart(rules[1..]);
      var rest := FlushEach(rules[1..]);
      assert |rules| > 1 ==> rules[1..][0] == rules[1];
    }
  }

  /** Emission merges all it can in every block, blocks that came with the input included. */
  lemma {:induction false} FlushApart(rules: seq<Rule>)
    ensures RulesApart(Flush(rules))
    decreases Weight(rules), 1
  {
    OptimizeSize(rules);
    ArrayPassMergesAll(FactorPass(rules));
    FlushEachApart(Optimize(rules));
  }

  // --- lone blocks ------------------------------------------------------------------------

  /** Every block holds at least two rules. */
  predicate Crowded(rules: seq<Rule>) {
    forall i :: 0 <= i < |rules| && rules[i].Block? ==> |rules[i].body| >= 2 && Crowded(rules[i].body)
  }

  lemma {:induction false} FactorPassCrowded(rules: seq<Rule>)
    requires Crowded(rules)
    ensures Crowded(FactorPass(rules)) && (rules != [] ==> FactorPass(rules) != [])
    decreases HeadEntries(rules), |rules|, 0
  {
    if rules == [] {
    } else if rules[0].matches == [] || LeadingRun(rules) == 1 {
      FactorPassCrowded(rules[1..]);
    } else {
      var n := LeadingRun(rules);
      HeadEntriesSplit(rules, n); HeadEntriesTails(rules[..n]);
      OptimizeCrowded(Tails(rules[..n]));
      FactorPassCrowded(rules[n..]);
    }
  }

  lemma {:induction false} ArrayPassCrowded(rules: seq<Rule>)
    requires Crowded(rules)
    ensures Crowded(ArrayPass(rules)) && (rules != [] ==> ArrayPass(rules) != [])
  {
    if rules != [] { ArrayPassCrowded(rules[MergeRun(rules)..]); }
  }

  /** A rule that is left alone in its block takes the match back: optimising makes no block of one rule. */
  lemma {:induction false} OptimizeCrowded(rules: seq<Rule>)
    requires Crowded(rules)
    ensures Crowded(Optimize(rules)) && (rules != [] ==> Optimize(rules) != [])
    decreases HeadEntries(rules), |rules|, 1
  {
    FactorPassCrowded(rules);
    ArrayPassCrowded(FactorPass(rules));
  }
}
