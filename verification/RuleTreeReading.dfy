/**
 * How ferm reads the array behind a keyword, and which trees it loads at all: an option that
 * takes exactly one string (`=s`) refuses an array.
 */
module RuleTreeReading {
  import opened RuleTree
  import opened RuleTreeSize
  import opened RuleTreeMerges

  /**
   * An array is unfolded into one rule per item (AnyOf), applied as a whole (AllOf, as `mod` loads
   * every module named), joined with commas into one value (Joined), or an error (Refused).
   */
  datatype Use = AnyOf | AllOf | Joined | Refused

  type Reading = string -> Use

  function UseOf(a: Arity): Use {
    match a
    case Letters(codes) => if codes == "s" then Refused else if codes == "c" then Joined else AnyOf
    case Custom(parser) => if parser == "multiport_params" then Joined else AnyOf
    case _ => AnyOf
  }

  /** The reading a keyword table gives. */
  function ReadingOf(table: map<string, Arity>): Reading {
    (name: string) => if name == "mod" then AllOf else if name in table then UseOf(table[name]) else AnyOf
  }

  /** The ordered product in which every array unfolds. */
  function Unfolded(name: string): Use {
    AnyOf
  }

  /** A list of one item is written without parentheses and is no array to the reader. */
  predicate Loadable(how: Reading, e: Entry) {
    how(e.name).Refused? && e.value.List? ==> |e.value.items| == 1
  }

  predicate AllLoadable(how: Reading, entries: seq<Entry>) {
    forall i :: 0 <= i < |entries| ==> Loadable(how, entries[i])
  }

  /** ferm reads the tree: no array stands where one string is expected. */
  predicate Loads(how: Reading, rules: seq<Rule>) {
    forall i :: 0 <= i < |rules| ==>
      AllLoadable(how, rules[i].matches) && (rules[i].Block? ==> Loads(how, rules[i].body))
  }

  predicate Filled(entries: seq<Entry>) {
    forall i :: 0 <= i < |entries| ==> entries[i].value.List? ==> entries[i].value.items != []
  }

  /** No array of the tree is empty. */
  predicate AllFilled(rules: seq<Rule>) {
    forall i :: 0 <= i < |rules| ==> Filled(rules[i].matches) && (rules[i].Block? ==> AllFilled(rules[i].body))
  }

  ghost function Readable(how: Reading): iset<string> {
    iset name: string | !how(name).Refused?
  }

  // --- one rule at a time -----------------------------------------------

  predicate RuleLoads(how: Reading, r: Rule) {
    AllLoadable(how, r.matches) && (r.Block? ==> Loads(how, r.body))
  }

  predicate RuleFilled(r: Rule) {
    Filled(r.matches) && (r.Block? ==> AllFilled(r.body))
  }

  lemma {:induction false} PrependLoads(how: Reading, e: Entry, r: Rule)
    ensures RuleLoads(how, Prepend(e, r)) <==> Loadable(how, e) && RuleLoads(how, r)
    ensures RuleFilled(Prepend(e, r)) <==> Filled([e]) && RuleFilled(r)
  {
    var all := [e] + r.matches;
    assert all[0] == e && forall i :: 0 <= i < |r.matches| ==> all[i + 1] == r.matches[i];
    assert [e][0] == e;
  }

  lemma {:induction false} LoadsParts(how: Reading, rules: seq<Rule>, n: nat)
    requires n <= |rules|
    ensures Loads(how, rules) <==> Loads(how, rules[..n]) && Loads(how, rules[n..])
    ensures AllFilled(rules) <==> AllFilled(rules[..n]) && AllFilled(rules[n..])
  {
    assert forall i :: 0 <= i < n ==> rules[..n][i] == rules[i];
    assert forall i :: n <= i < |rules| ==> rules[n..][i - n] == rules[i];
  }

  lemma {:induction false} LoadsOne(how: Reading, r: Rule)
    ensures Loads(how, [r]) <==> RuleLoads(how, r)
    ensures AllFilled([r]) <==> RuleFilled(r)
  {
    assert [r][0] == r;
  }

  lemma {:induction false} LoadsCons(how: Reading, r: Rule, rest: seq<Rule>)
    ensures Loads(how, [r] + rest) <==> RuleLoads(how, r) && Loads(how, rest)
    ensures AllFilled([r] + rest) <==> RuleFilled(r) && AllFilled(rest)
  {
    var all := [r] + rest;
    LoadsParts(how, all, 1);
    assert all[..1] == [r] && all[1..] == rest;
    hide Loads, AllFilled;
    LoadsOne(how, r);
  }

  lemma {:induction false} TailsLoad(how: Reading, group: seq<Rule>, e: Entry)
    requires SharedHead(group, e) && group != []
    ensures Loads(how, group) <==> Loadable(how, e) && Loads(how, Tails(group))
    ensures AllFilled(group) <==> Filled([e]) && AllFilled(Tails(group))
  {
    forall i | 0 <= i < |group|
      ensures RuleLoads(how, group[i]) <==> Loadable(how, e) && RuleLoads(how, Tails(group)[i])
      ensures RuleFilled(group[i]) <==> Filled([e]) && RuleFilled(Tails(group)[i])
    {
      PrependLoads(how, e, Tail(group[i]));
      assert Prepend(e, Tail(group[i])) == group[i];
    }
    assert RuleLoads(how, group[0]) == (Loadable(how, e) && RuleLoads(how, Tails(group)[0]));
    assert RuleFilled(group[0]) == (Filled([e]) && RuleFilled(Tails(group)[0]));
  }

  lemma {:induction false} FactorLoads(how: Reading, e: Entry, block: seq<Rule>)
    ensures RuleLoads(how, Factor(e, block)) <==> Loadable(how, e) && Loads(how, block)
    ensures RuleFilled(Factor(e, block)) <==> Filled([e]) && AllFilled(block)
  {
    if |block| == 1 {
      PrependLoads(how, e, block[0]);
    } else {
      assert Factor(e, block).matches[0] == e;
    }
  }

  /** A gathered array holds an item of every member. */
  lemma {:induction false} GatherItems(group: seq<Rule>)
    requires Headed(group) && AllFilled(group)
    ensures |Gather(group)| >= |group|
  {
    if group != [] {
      assert Filled(group[0].matches);
      GatherItems(group[1..]);
    }
  }

  lemma {:induction false} MergeLoads(how: Reading, group: seq<Rule>)
    requires Mergeable(group) && |group| > 1 && AllFilled(group)
    ensures RuleFilled(MergeHeads(group))
    ensures RuleLoads(how, MergeHeads(group))
            <==> Loads(how, group) && group[0].matches[0].name in Readable(how)
  {
    var name, tail := group[0].matches[0].name, Tail(group[0]);
    GatherItems(group);
    PrependLoads(how, Entry(name, List(Gather(group))), tail);
    assert RuleFilled(group[0]);
    forall i | 0 <= i < |group|
      ensures RuleLoads(how, group[i]) <==> Loadable(how, group[i].matches[0]) && RuleLoads(how, tail)
      ensures RuleFilled(group[i]) ==> RuleFilled(tail)
      ensures group[i].matches[0].name == name
    {
      assert Tail(group[i]) == tail;
      PrependLoads(how, group[i].matches[0], tail);
      assert Prepend(group[i].matches[0], tail) == group[i];
    }
    assert RuleFilled(tail);
    assert RuleLoads(how, group[0]) == (Loadable(how, group[0].matches[0]) && RuleLoads(how, tail));
  }

  // --- the passes --------------------------------------------------------

  lemma {:induction false} FactorStepLoads(how: Reading, rules: seq<Rule>, n: nat, block: seq<Rule>, rest: seq<Rule>, good: bool, well: bool)
    requires 2 <= n <= |rules| && Headed(rules[..n]) && SharedHead(rules[..n], rules[0].matches[0]) && AllFilled(rules)
    requires AllFilled(Tails(rules[..n])) ==> AllFilled(block)
    requires Loads(how, block) <==> Loads(how, Tails(rules[..n])) && good
    requires AllFilled(rest) && (Loads(how, rest) <==> Loads(how, rules[n..]) && well)
    ensures AllFilled([Factor(rules[0].matches[0], block)] + rest)
    ensures Loads(how, [Factor(rules[0].matches[0], block)] + rest) <==> Loads(how, rules) && good && well
  {
    var e := rules[0].matches[0];
    LoadsParts(how, rules, n);
    TailsLoad(how, rules[..n], e);
    FactorLoads(how, e, block);
    LoadsCons(how, Factor(e, block), rest);
  }

  lemma {:induction false} FactorPassLoads(how: Reading, rules: seq<Rule>)
    requires AllFilled(rules)
    ensures AllFilled(FactorPass(rules))
    ensures Loads(how, FactorPass(rules)) <==> Loads(how, rules) && MergedOn(FactorRuns(rules), Readable(how))
    decreases HeadEntries(rules), |rules|, 0
  {
    hide AllFilled, Loads, MergedOn, Readable;
    if rules == [] {
      LoadNothing(how);
    } else if rules[0].matches == [] || LeadingRun(rules) == 1 {
      LoadsCons(how, rules[0], rules[1..]);
      assert [rules[0]] + rules[1..] == rules;
      FactorPassLoads(how, rules[1..]);
      LoadsCons(how, rules[0], FactorPass(rules[1..]));
    } else {
      var n := LeadingRun(rules);
      HeadEntriesSplit(rules, n); HeadEntriesTails(rules[..n]);
      LoadsParts(how, rules, n);
      TailsLoad(how, rules[..n], rules[0].matches[0]);
      OptimizeLoads(how, Tails(rules[..n]));
      FactorPassLoads(how, rules[n..]);
      var deeper, later := OptimizeRuns(Tails(rules[..n])), FactorRuns(rules[n..]);
      MergedOnUnion(deeper, later, Readable(how));
      FactorStepLoads(how, rules, n, Optimize(Tails(rules[..n])), FactorPass(rules[n..]),
                      MergedOn(deeper, Readable(how)), MergedOn(later, Readable(how)));
    }
  }

  lemma {:induction false} ArrayStepLoads(how: Reading, rules: seq<Rule>, n: nat, rest: seq<Rule>, well: bool)
    requires 1 <= n <= |rules| && AllFilled(rules) && (n > 1 ==> Mergeable(rules[..n]))
    requires AllFilled(rest) && (Loads(how, rest) <==> Loads(how, rules[n..]) && well)
    ensures var head := if n == 1 then rules[0] else MergeHeads(rules[..n]);
            && AllFilled([head] + rest)
            && (Loads(how, [head] + rest)
                <==> Loads(how, rules) && (n > 1 ==> rules[0].matches[0].name in Readable(how)) && well)
  {
    hide AllFilled, Loads, Readable;
    LoadsParts(how, rules, n);
    if n == 1 {
      LoadsCons(how, rules[0], rest);
      LoadsCons(how, rules[0], rules[1..]);
      assert [rules[0]] + rules[1..] == rules;
    } else {
      MergeLoads(how, rules[..n]);
      LoadsCons(how, MergeHeads(rules[..n]), rest);
    }
  }

  lemma {:induction false} LoadNothing(how: Reading)
    ensures AllFilled([]) && Loads(how, []) && MergedOn({}, Readable(how))
  {
  }

  lemma {:induction false} ArrayPassLoads(how: Reading, rules: seq<Rule>)
    requires AllFilled(rules)
    ensures AllFilled(ArrayPass(rules))
    ensures Loads(how, ArrayPass(rules)) <==> Loads(how, rules) && MergedOn(ArrayRuns(rules), Readable(how))
  {
    hide AllFilled, Loads, MergedOn, Readable;
    if rules == [] {
      LoadNothing(how);
    } else {
      var n := MergeRun(rules);
      LoadsParts(how, rules, n);
      ArrayPassLoads(how, rules[n..]);
      ArrayRunsUnfold(rules, Readable(how));
      ArrayStepLoads(how, rules, n, ArrayPass(rules[n..]), MergedOn(ArrayRuns(rules[n..]), Readable(how)));
    }
  }

  /** The optimised list loads exactly when its source does and no run is merged on a one-string option. */
  lemma {:induction false} OptimizeLoads(how: Reading, rules: seq<Rule>)
    requires AllFilled(rules)
    ensures AllFilled(Optimize(rules))
    ensures Loads(how, Optimize(rules)) <==> Loads(how, rules) && MergedOn(OptimizeRuns(rules), Readable(how))
    decreases HeadEntries(rules), |rules|, 1
  {
    hide AllFilled, Loads, MergedOn, Readable;
    FactorPassLoads(how, rules);
    ArrayPassLoads(how, FactorPass(rules));
    MergedOnUnion(FactorRuns(rules), ArrayRuns(FactorPass(rules)), Readable(how));
  }

  lemma {:induction false} FlushEachLoads(how: Reading, rules: seq<Rule>)
    requires AllFilled(rules)
    ensures AllFilled(FlushEach(rules))
    ensures Loads(how, FlushEach(rules)) <==> Loads(how, rules) && MergedOn(FlushEachRuns(rules), Readable(how))
    decreases Weight(rules), 0
  {
    hide AllFilled, Loads, MergedOn, Readable;
    if rules == [] {
      LoadNothing(how);
    } else {
      WeightUnfolds(rules);
      LoadsCons(how, rules[0], rules[1..]);
      assert [rules[0]] + rules[1..] == rules;
      if rules[0].Block? { FlushLoads(how, rules[0].body); }
      FlushEachLoads(how, rules[1..]);
      LoadsCons(how, FlushEach(rules)[0], FlushEach(rules[1..]));
      LoadNothing(how);
      MergedOnUnion(if rules[0].Block? then FlushRuns(rules[0].body) else {}, FlushEachRuns(rules[1..]), Readable(how));
    }
  }

  /**
   * The emitted file loads exactly when the input does and no run, in any block and at any
   * depth, is merged on an option that takes exactly one string.
   */
  lemma {:induction false} FlushLoads(how: Reading, rules: seq<Rule>)
    requires AllFilled(rules)
    ensures AllFilled(Flush(rules))
    ensures Loads(how, Flush(rules)) <==> Loads(how, rules) && MergedOn(FlushRuns(rules), Readable(how))
    decreases Weight(rules), 1
  {
    hide AllFilled, Loads, MergedOn, Readable;
    OptimizeSize(rules);
    OptimizeLoads(how, rules);
    FlushEachLoads(how, Optimize(rules));
    MergedOnUnion(OptimizeRuns(rules), FlushEachRuns(Optimize(rules)), Readable(how));
  }
}
