/** Optimising never grows the tree, which is why `flush` may re-optimise every block it emits. */
module RuleTreeSize {
  import opened RuleTree

  function Weight(rules: seq<Rule>): nat {
    EntriesAll(rules) + NodesAll(rules)
  }

  lemma {:induction false} SizeSplit(a: seq<Rule>, b: seq<Rule>)
    ensures EntriesAll(a + b) == EntriesAll(a) + EntriesAll(b)
    ensures NodesAll(a + b) == NodesAll(a) + NodesAll(b)
  {
    if a == [] {
      assert a + b == b;
    } else {
      assert (a + b)[1..] == a[1..] + b;
      SizeSplit(a[1..], b);
    }
  }

  lemma {:induction false} SizeTails(group: seq<Rule>)
    requires Headed(group)
    ensures EntriesAll(Tails(group)) + |group| == EntriesAll(group)
    ensures NodesAll(Tails(group)) == NodesAll(group) >= |group|
  {
    if group != [] {
      SizeTails(group[1..]);
      assert Tails(group)[1..] == Tails(group[1..]);
    }
  }

  lemma {:induction false} SizeFactor(e: Entry, block: seq<Rule>)
    ensures EntriesAll([Factor(e, block)]) == 1 + EntriesAll(block)
    ensures NodesAll([Factor(e, block)]) <= NodesAll(block) + 1
  {
    if |block| == 1 {
      assert Factor(e, block) == Prepend(e, block[0]);
    }
  }

  lemma WeightUnfolds(rules: seq<Rule>)
    requires rules != []
    ensures Weight(rules) == Entries(rules[0]) + Nodes(rules[0]) + Weight(rules[1..])
    ensures rules[0].Block? ==> Weight(rules) == |rules[0].matches| + 1 + Weight(rules[0].body) + Weight(rules[1..])
  {
    assert Entries(rules[0]) == |rules[0].matches| + if rules[0].Block? then EntriesAll(rules[0].body) else 0;
    assert Nodes(rules[0]) == 1 + if rules[0].Block? then NodesAll(rules[0].body) else 0;
  }

  lemma {:induction false} FactorPassSize(rules: seq<Rule>)
    ensures EntriesAll(FactorPass(rules)) <= EntriesAll(rules)
    ensures Weight(FactorPass(rules)) <= Weight(rules)
    decreases HeadEntries(rules), |rules|, 0
  {
    if rules == [] {
    } else if rules[0].matches == [] || LeadingRun(rules) == 1 {
      FactorPassSize(rules[1..]);
      SizeSplit([rules[0]], FactorPass(rules[1..]));
    } else {
      var n := LeadingRun(rules);
      HeadEntriesSplit(rules, n); HeadEntriesTails(rules[..n]);
      OptimizeSize(Tails(rules[..n]));
      FactorPassSize(rules[n..]);
      FactorStepSize(rules, n, Optimize(Tails(rules[..n])), FactorPass(rules[n..]));
    }
  }

  lemma FactorStepSize(rules: seq<Rule>, n: nat, block: seq<Rule>, rest: seq<Rule>)
    requires 2 <= n <= |rules| && Headed(rules[..n])
    requires EntriesAll(block) <= EntriesAll(Tails(rules[..n])) && Weight(block) <= Weight(Tails(rules[..n]))
    requires EntriesAll(rest) <= EntriesAll(rules[n..]) && Weight(rest) <= Weight(rules[n..])
    ensures EntriesAll([Factor(rules[0].matches[0], block)] + rest) <= EntriesAll(rules)
    ensures Weight([Factor(rules[0].matches[0], block)] + rest) <= Weight(rules)
  {
    SizeTails(rules[..n]);
    SizeFactor(rules[0].matches[0], block);
    SizeSplit(rules[..n], rules[n..]);
    assert rules[..n] + rules[n..] == rules;
    SizeSplit([Factor(rules[0].matches[0], block)], rest);
  }

  lemma {:induction false} ArrayPassSize(rules: seq<Rule>)
    ensures EntriesAll(ArrayPass(rules)) <= EntriesAll(rules)
    ensures Weight(ArrayPass(rules)) <= Weight(rules)
  {
    if rules != [] {
      var n := MergeRun(rules);
      ArrayPassSize(rules[n..]);
      ArrayStepSize(rules, n, if n == 1 then rules[0] else MergeHeads(rules[..n]), ArrayPass(rules[n..]));
    }
  }

  lemma ArrayStepSize(rules: seq<Rule>, n: nat, head: Rule, rest: seq<Rule>)
    requires 1 <= n <= |rules|
    requires Entries(head) == Entries(rules[0]) && Nodes(head) == Nodes(rules[0])
    requires EntriesAll(rest) <= EntriesAll(rules[n..]) && Weight(rest) <= Weight(rules[n..])
    ensures EntriesAll([head] + rest) <= EntriesAll(rules)
    ensures Weight([head] + rest) <= Weight(rules)
  {
    SizeSplit([head], rest);
    assert rules[..n] + rules[n..] == rules;
    SizeSplit(rules[..n], rules[n..]);
    assert rules[..n] == [rules[0]] + rules[1..n];
    SizeSplit([rules[0]], rules[1..n]);
  }

  /** Neither the match entries nor entries plus nodes ever increase. */
  lemma {:induction false} OptimizeSize(rules: seq<Rule>)
    ensures EntriesAll(Optimize(rules)) <= EntriesAll(rules)
    ensures Weight(Optimize(rules)) <= Weight(rules)
    decreases HeadEntries(rules), |rules|, 1
  {
    FactorPassSize(rules);
    ArrayPassSize(FactorPass(rules));
  }

  /** What `flush` emits: optimise, then flush the body of every block in turn. */
  function Flush(rules: seq<Rule>): seq<Rule>
    decreases Weight(rules), 1
  {
    OptimizeSize(rules);
    FlushEach(Optimize(rules))
  }

  function FlushEach(rules: seq<Rule>): seq<Rule>
    decreases Weight(rules), 0
  {
    if rules == [] then []
    else
      WeightUnfolds(rules);
      [if rules[0].Block? then Block(rules[0].matches, Flush(rules[0].body)) else rules[0]]
      + FlushEach(rules[1..])
  }

  lemma {:induction false} FlushEachSize(rules: seq<Rule>)
    ensures EntriesAll(FlushEach(rules)) <= EntriesAll(rules)
    ensures Weight(FlushEach(rules)) <= Weight(rules)
    decreases Weight(rules), 0
  {
    if rules != [] {
      WeightUnfolds(rules);
      var head := if rules[0].Block? then Block(rules[0].matches, Flush(rules[0].body)) else rules[0];
      if rules[0].Block? {
        FlushSize(rules[0].body);
      }
      FlushEachSize(rules[1..]);
      SizeSplit([head], FlushEach(rules[1..]));
      WeightUnfolds([head]);
    }
  }

  /** The emitted tree holds no more entries than the flat rules it came from. */
  lemma {:induction false} FlushSize(rules: seq<Rule>)
    ensures EntriesAll(Flush(rules)) <= EntriesAll(rules)
    ensures Weight(Flush(rules)) <= Weight(rules)
    decreases Weight(rules), 1
  {
    OptimizeSize(rules);
    FlushEachSize(Optimize(rules));
  }

  lemma {:induction false} WeightOfPart(rules: seq<Rule>, k: nat)
    requires k < |rules|
    ensures Weight([rules[k]]) <= Weight(rules)
  {
    WeightUnfolds(rules);
    WeightUnfolds([rules[k]]);
    if k > 0 { WeightOfPart(rules[1..], k - 1); }
  }

  // --- how much smaller a re-optimised block is -------------------------

  predicate Headless(rules: seq<Rule>) {
    forall i :: 0 <= i < |rules| ==> rules[i].matches == []
  }

  lemma {:induction false} FactorPassHeadless(rules: seq<Rule>)
    ensures Headless(FactorPass(rules)) <==> Headless(rules)
    ensures Headless(rules) ==> FactorPass(rules) == rules
    decreases |rules|
  {
    if rules == [] {
    } else if rules[0].matches == [] || LeadingRun(rules) == 1 {
      FactorPassHeadless(rules[1..]);
      assert FactorPass(rules)[1..] == FactorPass(rules[1..]);
      HeadlessCons(rules[0], rules[1..]);
      HeadlessCons(rules[0], FactorPass(rules[1..]));
      assert [rules[0]] + rules[1..] == rules;
    } else {
      HeadlessCons(Factor(rules[0].matches[0], Optimize(Tails(rules[..LeadingRun(rules)]))), FactorPass(rules[LeadingRun(rules)..]));
    }
  }

  lemma HeadlessCons(r: Rule, rest: seq<Rule>)
    ensures Headless([r] + rest) <==> r.matches == [] && Headless(rest)
  {
    var all := [r] + rest;
    assert all[0] == r && forall i :: 0 <= i < |rest| ==> all[i + 1] == rest[i];
  }

  lemma {:induction false} ArrayPassHeadless(rules: seq<Rule>)
    ensures Headless(ArrayPass(rules)) <==> Headless(rules)
    ensures Headless(rules) ==> ArrayPass(rules) == rules
  {
    if rules != [] {
      if MergeRun(rules) == 1 {
        ArrayPassHeadless(rules[1..]);
        HeadlessCons(rules[0], rules[1..]);
        HeadlessCons(rules[0], ArrayPass(rules[1..]));
        assert [rules[0]] + rules[1..] == rules;
      } else {
        assert rules[..MergeRun(rules)][0] == rules[0];
        HeadlessCons(MergeHeads(rules[..MergeRun(rules)]), ArrayPass(rules[MergeRun(rules)..]));
      }
    }
  }

  /** A list none of whose rules has a match is a fixed point, and nothing else optimises to one. */
  lemma OptimizeHeadless(rules: seq<Rule>)
    ensures Headless(Optimize(rules)) <==> Headless(rules)
    ensures Headless(rules) ==> Optimize(rules) == rules
  {
    FactorPassHeadless(rules);
    ArrayPassHeadless(FactorPass(rules));
  }

  /** Rule `k` is a block without a match of its own, and it holds every entry of the list. */
  predicate HoldsAll(rules: seq<Rule>, k: nat)
    requires k < |rules|
  {
    && rules[k].Block? && rules[k].matches == []
    && EntriesAll(rules[..k]) == 0 && EntriesAll(rules[k + 1..]) == 0
  }

  lemma EntriesAround(rules: seq<Rule>, k: nat)
    requires k < |rules|
    ensures EntriesAll(rules) == EntriesAll(rules[..k]) + Entries(rules[k]) + EntriesAll(rules[k + 1..])
  {
    assert rules == rules[..k] + ([rules[k]] + rules[k + 1..]);
    SizeSplit(rules[..k], [rules[k]] + rules[k + 1..]);
    SizeSplit([rules[k]], rules[k + 1..]);
  }

  lemma {:induction false} NoEntriesHeadless(rules: seq<Rule>)
    requires EntriesAll(rules) == 0
    ensures Headless(rules)
  {
    if rules != [] {
      NoEntriesHeadless(rules[1..]);
      HeadlessCons(rules[0], rules[1..]);
      assert [rules[0]] + rules[1..] == rules;
    }
  }

  lemma HoldsAllHeadless(rules: seq<Rule>, k: nat)
    requires k < |rules| && HoldsAll(rules, k)
    ensures Headless(rules)
  {
    NoEntriesHeadless(rules[..k]);
    NoEntriesHeadless(rules[k + 1..]);
    forall i | 0 <= i < |rules| ensures rules[i].matches == [] {
      if i < k { assert rules[i] == rules[..k][i]; }
      if i > k { assert rules[i] == rules[k + 1..][i - k - 1]; }
    }
  }

  lemma BlockKeepsAll(rules: seq<Rule>, k: nat)
    requires k < |Optimize(rules)| && Optimize(rules)[k].Block?
    requires EntriesAll(Optimize(rules)[k].body) >= EntriesAll(rules)
    ensures Optimize(rules) == rules && HoldsAll(rules, k)
  {
    var out := Optimize(rules);
    OptimizeSize(rules);
    EntriesAround(out, k);
    HoldsAllHeadless(out, k);
    OptimizeHeadless(rules);
  }

  /** A block that is re-optimised is strictly lighter than the list that was flushed. */
  lemma ReoptimisedBlockLighter(rules: seq<Rule>, k: nat)
    requires k < |Optimize(rules)| && Optimize(rules)[k].Block?
    ensures Weight(Optimize(rules)[k].body) < Weight(rules)
  {
    OptimizeSize(rules);
    WeightOfPart(Optimize(rules), k);
    WeightUnfolds([Optimize(rules)[k]]);
  }

  /**
   * Counting match entries alone, every block that is re-optimised is strictly smaller than the
   * list that was flushed exactly when that list does not consist of one block without a match
   * that holds all its entries, and of rules without any.
   */
  lemma ReoptimisedBlockShrinks(rules: seq<Rule>)
    ensures (forall k :: 0 <= k < |Optimize(rules)| && Optimize(rules)[k].Block? ==>
              EntriesAll(Optimize(rules)[k].body) < EntriesAll(rules))
            <==> !exists k :: 0 <= k < |rules| && HoldsAll(rules, k)
  {
    if exists k :: 0 <= k < |rules| && HoldsAll(rules, k) {
      var k :| 0 <= k < |rules| && HoldsAll(rules, k);
      HoldsAllHeadless(rules, k);
      OptimizeHeadless(rules);
      EntriesAround(rules, k);
      assert Optimize(rules)[k].Block? && EntriesAll(Optimize(rules)[k].body) == EntriesAll(rules);
    } else {
      forall k | 0 <= k < |Optimize(rules)| && Optimize(rules)[k].Block?
        ensures EntriesAll(Optimize(rules)[k].body) < EntriesAll(rules)
      {
        if EntriesAll(Optimize(rules)[k].body) >= EntriesAll(rules) {
          BlockKeepsAll(rules, k);
        }
      }
    }
  }
}
