/**
 * Which runs get past the guard against arrays on one-string options: the guard consults the
 * keywords of the first rule, and only rules that jump carry any.
 */
module RuleTreeEscapes {
  import opened RuleTree
  import opened RuleTreeSize
  import opened RuleTreeMerges
  import opened RuleTreeReading

  /** If the rule carries the keywords of its matches at all, they declare this one-string option. */
  predicate Declares(how: Reading, meta: Meta, name: string) {
    meta.matchKeywords.Some? && how(name).Refused? ==>
      name in meta.matchKeywords.value && meta.matchKeywords.value[name] == Letters("s")
  }

  function Names(entries: seq<Entry>): set<string> {
    set i | 0 <= i < |entries| :: entries[i].name
  }

  /** Every leaf declares the options on its path: those named above it and its own. */
  predicate Declared(how: Reading, r: Rule, above: set<string>) {
    if r.Leaf? then forall name :: name in above + Names(r.matches) ==> Declares(how, r.meta, name)
    else DeclaredAll(how, r.body, above + Names(r.matches))
  }

  predicate DeclaredAll(how: Reading, rules: seq<Rule>, above: set<string>) {
    forall i :: 0 <= i < |rules| ==> Declared(how, rules[i], above)
  }

  /** The run is merged on a one-string option because its first rule carries no keywords. */
  predicate Escapes(how: Reading, run: Run) {
    && run != [] && run[0].matches != [] && how(run[0].matches[0].name).Refused?
    && (run[0].Block? || run[0].meta.matchKeywords.None?)
  }

  /** A merged run of leaves that carry keywords declares what it is merged on. */
  predicate RunsDeclared(how: Reading, runs: set<Run>) {
    forall run: Run :: run in runs && run != [] && run[0].Leaf? && run[0].matches != [] ==>
      Declares(how, run[0].meta, run[0].matches[0].name)
  }

  lemma {:induction false} NamesPrepend(e: Entry, entries: seq<Entry>)
    ensures Names([e] + entries) == {e.name} + Names(entries)
  {
    var all := [e] + entries;
    assert all[0] == e && forall i :: 0 <= i < |entries| ==> all[i + 1] == entries[i];
    forall name | name in {e.name} + Names(entries) ensures name in Names(all) {
      if name in Names(entries) {
        var i :| 0 <= i < |entries| && entries[i].name == name;
        assert all[i + 1].name == name;
      }
    }
    forall name | name in Names(all) ensures name in {e.name} + Names(entries) {
      var i :| 0 <= i < |all| && all[i].name == name;
      if i > 0 { assert entries[i - 1].name == name; }
    }
  }

  lemma {:induction false} DeclaredPrepend(how: Reading, e: Entry, r: Rule, above: set<string>)
    ensures Declared(how, Prepend(e, r), above) <==> Declared(how, r, above + {e.name})
  {
    NamesPrepend(e, r.matches);
    assert above + ({e.name} + Names(r.matches)) == above + {e.name} + Names(r.matches);
  }

  lemma {:induction false} DeclaredTails(how: Reading, group: seq<Rule>, e: Entry, above: set<string>)
    requires SharedHead(group, e) && DeclaredAll(how, group, above)
    ensures DeclaredAll(how, Tails(group), above + {e.name})
  {
    forall i | 0 <= i < |group| ensures Declared(how, Tails(group)[i], above + {e.name}) {
      DeclaredPrepend(how, e, Tail(group[i]), above);
      assert Prepend(e, Tail(group[i])) == group[i];
    }
  }

  lemma {:induction false} DeclaredFactor(how: Reading, e: Entry, block: seq<Rule>, above: set<string>)
    requires DeclaredAll(how, block, above + {e.name})
    ensures Declared(how, Factor(e, block), above)
  {
    if |block| == 1 {
      DeclaredPrepend(how, e, block[0], above);
    } else {
      NamesPrepend(e, []);
      assert [e] + [] == [e] && Names([]) == {};
      assert {e.name} + {} == {e.name};
    }
  }

  lemma {:induction false} DeclaredMerge(how: Reading, group: seq<Rule>, above: set<string>)
    requires Mergeable(group) && DeclaredAll(how, group, above)
    ensures Declared(how, MergeHeads(group), above)
  {
    var e, tail := group[0].matches[0], Tail(group[0]);
    DeclaredPrepend(how, e, tail, above);
    assert Prepend(e, tail) == group[0];
    DeclaredPrepend(how, Entry(e.name, List(Gather(group))), tail, above);
  }

  lemma {:induction false} DeclaredHead(how: Reading, rules: seq<Rule>, n: nat, above: set<string>)
    requires 1 <= n <= |rules| && DeclaredAll(how, rules, above) && rules[0].matches != []
    ensures RunsDeclared(how, {rules[..n]})
  {
    assert rules[..n][0] == rules[0];
    if rules[0].Leaf? {
      assert rules[0].matches[0].name in above + Names(rules[0].matches);
    }
  }

  lemma {:induction false} DeclaredParts(how: Reading, rules: seq<Rule>, n: nat, above: set<string>)
    requires n <= |rules| && DeclaredAll(how, rules, above)
    ensures DeclaredAll(how, rules[..n], above) && DeclaredAll(how, rules[n..], above)
    ensures n > 0 ==> Declared(how, rules[0], above)
  {
  }

  lemma {:induction false} DeclaredCons(how: Reading, head: Rule, rest: seq<Rule>, above: set<string>)
    requires Declared(how, head, above) && DeclaredAll(how, rest, above)
    ensures DeclaredAll(how, [head] + rest, above)
  {
  }

  lemma {:induction false} RunsUnion(how: Reading, a: set<Run>, b: set<Run>)
    requires RunsDeclared(how, a) && RunsDeclared(how, b)
    ensures RunsDeclared(how, a + b)
  {
  }

  lemma {:induction false} FactorPassDeclared(how: Reading, rules: seq<Rule>, above: set<string>)
    requires DeclaredAll(how, rules, above)
    ensures DeclaredAll(how, FactorPass(rules), above) && RunsDeclared(how, FactorRuns(rules))
    decreases HeadEntries(rules), |rules|, 0
  {
    hide Declared, Declares;
    if rules == [] {
    } else if rules[0].matches == [] || LeadingRun(rules) == 1 {
      DeclaredParts(how, rules, 1, above);
      FactorPassDeclared(how, rules[1..], above);
      DeclaredCons(how, rules[0], FactorPass(rules[1..]), above);
    } else {
      var n := LeadingRun(rules);
      var e := rules[0].matches[0];
      HeadEntriesSplit(rules, n); HeadEntriesTails(rules[..n]);
      DeclaredParts(how, rules, n, above);
      DeclaredTails(how, rules[..n], e, above);
      OptimizeDeclared(how, Tails(rules[..n]), above + {e.name});
      DeclaredFactor(how, e, Optimize(Tails(rules[..n])), above);
      FactorPassDeclared(how, rules[n..], above);
      DeclaredCons(how, Factor(e, Optimize(Tails(rules[..n]))), FactorPass(rules[n..]), above);
      RunsUnion(how, OptimizeRuns(Tails(rules[..n])), FactorRuns(rules[n..]));
    }
  }

  lemma {:induction false} ArrayPassDeclared(how: Reading, rules: seq<Rule>, above: set<string>)
    requires DeclaredAll(how, rules, above)
    ensures DeclaredAll(how, ArrayPass(rules), above) && RunsDeclared(how, ArrayRuns(rules))
  {
    hide Declared, Declares;
    if rules != [] {
      var n := MergeRun(rules);
      DeclaredParts(how, rules, n, above);
      ArrayPassDeclared(how, rules[n..], above);
      if n == 1 {
        DeclaredCons(how, rules[0], ArrayPass(rules[1..]), above);
      } else {
        DeclaredMerge(how, rules[..n], above);
        DeclaredCons(how, MergeHeads(rules[..n]), ArrayPass(rules[n..]), above);
        DeclaredHead(how, rules, n, above);
        RunsUnion(how, {rules[..n]}, ArrayRuns(rules[n..]));
      }
    }
  }

  lemma {:induction false} OptimizeDeclared(how: Reading, rules: seq<Rule>, above: set<string>)
    requires DeclaredAll(how, rules, above)
    ensures DeclaredAll(how, Optimize(rules), above) && RunsDeclared(how, OptimizeRuns(rules))
    decreases HeadEntries(rules), |rules|, 1
  {
    FactorPassDeclared(how, rules, above);
    ArrayPassDeclared(how, FactorPass(rules), above);
    RunsUnion(how, FactorRuns(rules), ArrayRuns(FactorPass(rules)));
  }

  lemma {:induction false} FlushEachDeclared(how: Reading, rules: seq<Rule>, above: set<string>)
    requires DeclaredAll(how, rules, above)
    ensures DeclaredAll(how, FlushEach(rules), above) && RunsDeclared(how, FlushEachRuns(rules))
    decreases Weight(rules), 0
  {
    if rules != [] {
      WeightUnfolds(rules);
      if rules[0].Block? {
        FlushDeclared(how, rules[0].body, above + Names(rules[0].matches));
      }
      FlushEachDeclared(how, rules[1..], above);
      DeclaredCons(how, FlushEach(rules)[0], FlushEach(rules[1..]), above);
      RunsUnion(how, if rules[0].Block? then FlushRuns(rules[0].body) else {}, FlushEachRuns(rules[1..]));
    }
  }

  lemma {:induction false} FlushDeclared(how: Reading, rules: seq<Rule>, above: set<string>)
    requires DeclaredAll(how, rules, above)
    ensures DeclaredAll(how, Flush(rules), above) && RunsDeclared(how, FlushRuns(rules))
    decreases Weight(rules), 1
  {
    OptimizeSize(rules);
    OptimizeDeclared(how, rules, above);
    FlushEachDeclared(how, Optimize(rules), above);
    RunsUnion(how, OptimizeRuns(rules), FlushEachRuns(Optimize(rules)));
  }

  lemma {:induction false} RunEscapes(how: Reading, run: Run)
    requires Mergeable(run) && !SingleString(run[0])
    requires run[0].Leaf? ==> Declares(how, run[0].meta, run[0].matches[0].name)
    ensures run[0].matches[0].name in Readable(how) <==> !Escapes(how, run)
  {
  }

  lemma {:induction false} NoneEscapes(how: Reading, runs: set<Run>)
    requires AllMergeable(runs) && RunsDeclared(how, runs)
    ensures MergedOn(runs, Readable(how)) <==> forall run: Run :: run in runs ==> !Escapes(how, run)
  {
    hide Escapes, Declares, Readable;
    forall run: Run | run in runs
      ensures run != [] && run[0].matches != [] && (run[0].matches[0].name in Readable(how) <==> !Escapes(how, run))
    {
      RunEscapes(how, run);
    }
  }

  /**
   * The emitted tree has no array on a one-string option, and so is loaded, if and only if pass 2
   * merges no run whose head is such an option and whose first rule is a block or carries no
   * match keywords.
   */
  lemma {:induction false} EmittedLoads(how: Reading, rules: seq<Rule>)
    requires AllFilled(rules) && Loads(how, rules) && DeclaredAll(how, rules, {})
    ensures Loads(how, Flush(rules)) <==> forall run: Run :: run in FlushRuns(rules) ==> !Escapes(how, run)
  {
    hide AllFilled, Loads, DeclaredAll, MergedOn, RunsDeclared, AllMergeable, Escapes, Readable;
    FlushLoads(how, rules);
    FlushDeclared(how, rules, {});
    FlushRunsMergeable(rules);
    NoneEscapes(how, FlushRuns(rules));
  }
}
