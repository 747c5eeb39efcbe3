/**
 * The runs that pass 2 merges while a rule list is optimised and flushed: at every depth, and
 * in every block that is optimised again.
 */
module RuleTreeMerges {
  import opened RuleTree
  import opened RuleTreeSize

  type Run = seq<Rule>

  function ArrayRuns(rules: seq<Rule>): set<Run> {
    if rules == [] then {}
    else (if MergeRun(rules) > 1 then {rules[..MergeRun(rules)]} else {}) + ArrayRuns(rules[MergeRun(rules)..])
  }

  function FactorRuns(rules: seq<Rule>): set<Run>
    decreases HeadEntries(rules), |rules|, 0
  {
    if rules == [] then {}
    else if rules[0].matches == [] || LeadingRun(rules) == 1 then FactorRuns(rules[1..])
    else
      var n := LeadingRun(rules);
      HeadEntriesSplit(rules, n); HeadEntriesTails(rules[..n]);
      OptimizeRuns(Tails(rules[..n])) + FactorRuns(rules[n..])
  }

  /** The runs one run of the optimiser merges. */
  function OptimizeRuns(rules: seq<Rule>): set<Run>
    decreases HeadEntries(rules), |rules|, 1
  {
    FactorRuns(rules) + ArrayRuns(FactorPass(rules))
  }

  function FlushEachRuns(rules: seq<Rule>): set<Run>
    decreases Weight(rules), 0
  {
    if rules == [] then {}
    else
      WeightUnfolds(rules);
      (if rules[0].Block? then FlushRuns(rules[0].body) else {}) + FlushEachRuns(rules[1..])
  }

  /** The runs that are merged until the tree is written. */
  function FlushRuns(rules: seq<Rule>): set<Run>
    decreases Weight(rules), 1
  {
    OptimizeSize(rules);
    OptimizeRuns(rules) + FlushEachRuns(Optimize(rules))
  }

  /** Every run of the set is merged on a match with one of these names. */
  ghost predicate MergedOn(runs: set<Run>, names: iset<string>) {
    forall run: Run :: run in runs ==> run != [] && run[0].matches != [] && run[0].matches[0].name in names
  }

  lemma {:induction false} MergedOnUnion(a: set<Run>, b: set<Run>, names: iset<string>)
    ensures MergedOn(a + b, names) <==> MergedOn(a, names) && MergedOn(b, names)
  {
    forall run: Run | run in a || run in b ensures run in a + b {}
  }

  lemma {:induction false} MergedOnFirst(rules: seq<Rule>, n: nat, later: set<Run>, names: iset<string>)
    requires 1 <= n <= |rules| && (n > 1 ==> rules[0].matches != [])
    ensures MergedOn((if n > 1 then {rules[..n]} else {}) + later, names)
            <==> (n > 1 ==> rules[0].matches[0].name in names) && MergedOn(later, names)
  {
    var here: set<Run> := if n > 1 then {rules[..n]} else {};
    MergedOnUnion(here, later, names);
    if n > 1 { assert rules[..n] in here && rules[..n][0] == rules[0]; }
  }

  lemma {:induction false} ArrayRunsUnfold(rules: seq<Rule>, names: iset<string>)
    requires rules != []
    ensures MergedOn(ArrayRuns(rules), names)
            <==> (MergeRun(rules) > 1 ==> rules[0].matches[0].name in names) && MergedOn(ArrayRuns(rules[MergeRun(rules)..]), names)
  {
    hide MergedOn;
    if MergeRun(rules) > 1 { assert rules[..MergeRun(rules)][0] == rules[0]; }
    MergedOnFirst(rules, MergeRun(rules), ArrayRuns(rules[MergeRun(rules)..]), names);
  }

  /** A run that is merged has at least two members with array-matching heads, and got past the `=s` guard. */
  predicate AllMergeable(runs: set<Run>) {
    forall run: Run :: run in runs ==> Mergeable(run) && |run| > 1 && !SingleString(run[0])
  }

  lemma {:induction false} ArrayRunsMergeable(rules: seq<Rule>)
    ensures AllMergeable(ArrayRuns(rules))
  {
    if rules != [] {
      ArrayRunsMergeable(rules[MergeRun(rules)..]);
      if MergeRun(rules) > 1 { assert rules[..MergeRun(rules)][0] == rules[0] && ArrayCount(rules[0], rules[1..]) > 0; }
    }
  }

  lemma {:induction false} FactorRunsMergeable(rules: seq<Rule>)
    ensures AllMergeable(FactorRuns(rules))
    decreases HeadEntries(rules), |rules|, 0
  {
    if rules == [] {
    } else if rules[0].matches == [] || LeadingRun(rules) == 1 {
      FactorRunsMergeable(rules[1..]);
    } else {
      var n := LeadingRun(rules);
      HeadEntriesSplit(rules, n); HeadEntriesTails(rules[..n]);
      OptimizeRunsMergeable(Tails(rules[..n]));
      FactorRunsMergeable(rules[n..]);
    }
  }

  lemma {:induction false} OptimizeRunsMergeable(rules: seq<Rule>)
    ensures AllMergeable(OptimizeRuns(rules))
    decreases HeadEntries(rules), |rules|, 1
  {
    FactorRunsMergeable(rules);
    ArrayRunsMergeable(FactorPass(rules));
  }

  lemma {:induction false} FlushEachRunsMergeable(rules: seq<Rule>)
    ensures AllMergeable(FlushEachRuns(rules))
    decreases Weight(rules), 0
  {
    if rules != [] {
      WeightUnfolds(rules);
      if rules[0].Block? { FlushRunsMergeable(rules[0].body); }
      FlushEachRunsMergeable(rules[1..]);
    }
  }

  lemma {:induction false} FlushRunsMergeable(rules: seq<Rule>)
    ensures AllMergeable(FlushRuns(rules))
    decreases Weight(rules), 1
  {
    OptimizeSize(rules);
    OptimizeRunsMergeable(rules);
    FlushEachRunsMergeable(Optimize(rules));
  }

  // --- what pass 1 leaves to pass 2 --------------------------------------

  /** Neighbours that both carry a match differ in it. */
  predicate HeadsDiffer(rules: seq<Rule>) {
    forall i :: 0 < i < |rules| && rules[i - 1].matches != [] ==> !PrefixMatches(rules[i - 1], rules[i])
  }

  /** The list `out` opens with a rule that has the same head, or none, as `source` does. */
  predicate OpensLike(out: seq<Rule>, source: seq<Rule>) {
    && |out| <= |source|
    && (source != [] ==> out != [] && out[0].matches[..if out[0].matches == [] then 0 else 1]
                                      == source[0].matches[..if source[0].matches == [] then 0 else 1])
  }

  lemma OpeningHead(e: Entry, block: seq<Rule>)
    ensures Factor(e, block).matches != [] && Factor(e, block).matches[0] == e
  {
  }

  lemma PrependDiffers(head: Rule, rest: seq<Rule>, source: seq<Rule>)
    requires HeadsDiffer(rest) && OpensLike(rest, source)
    requires head.matches != [] && source != [] ==> !PrefixMatches(head, source[0])
    ensures HeadsDiffer([head] + rest)
  {
    var all := [head] + rest;
    forall i | 0 < i < |all| && all[i - 1].matches != [] ensures !PrefixMatches(all[i - 1], all[i]) {
      if i > 1 {
        assert all[i] == rest[i - 1] && all[i - 1] == rest[i - 2];
      } else if rest[0].matches != [] {
        assert rest[0].matches[..1][0] == source[0].matches[..1][0];
      }
    }
  }

  /** Pass 1 leaves no two neighbours with a common head. */
  lemma {:induction false} FactorPassHeads(rules: seq<Rule>)
    ensures HeadsDiffer(FactorPass(rules)) && OpensLike(FactorPass(rules), rules)
    decreases |rules|
  {
    if rules == [] {
    } else if rules[0].matches == [] || LeadingRun(rules) == 1 {
      FactorPassHeads(rules[1..]);
      PrependDiffers(rules[0], FactorPass(rules[1..]), rules[1..]);
    } else {
      var n := LeadingRun(rules);
      var head := Factor(rules[0].matches[0], Optimize(Tails(rules[..n])));
      FactorPassHeads(rules[n..]);
      OpeningHead(rules[0].matches[0], Optimize(Tails(rules[..n])));
      PrependDiffers(head, FactorPass(rules[n..]), rules[n..]);
      assert head.matches[..1] == rules[0].matches[..1];
    }
  }
}
