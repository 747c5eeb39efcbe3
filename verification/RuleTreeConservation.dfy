/**
 * No flat rule is lost, duplicated or invented: the multiset of expanded rules is conserved, as
 * long as the arrays that are made unfold when they are read.
 */
module RuleTreeConservation {
  import opened Seqs
  import opened Products
  import opened RuleTree
  import opened RuleTreeSize
  import opened RuleTreeMerges
  import opened RuleTreeReading
  import opened RuleTreeFlat

  function Bag(how: Reading, rules: seq<Rule>, context: seq<Entry>): multiset<FlatRule> {
    multiset(ExpandAll(how, rules, context))
  }

  /** The options whose arrays unfold. */
  ghost function Spreading(how: Reading): iset<string> {
    iset name: string | how(name).AnyOf?
  }

  lemma {:induction false} ExpandSplit(how: Reading, a: seq<Rule>, b: seq<Rule>, context: seq<Entry>)
    ensures ExpandAll(how, a + b, context) == ExpandAll(how, a, context) + ExpandAll(how, b, context)
  {
    if a == [] {
      assert a + b == b;
    } else {
      assert (a + b)[1..] == a[1..] + b;
      ExpandSplit(how, a[1..], b, context);
    }
  }

  /** A leading match may equally be read as the innermost option of the context. */
  lemma {:induction false} ExpandPrepend(how: Reading, e: Entry, r: Rule, context: seq<Entry>)
    ensures Expand(how, Prepend(e, r), context) == Expand(how, r, context + [e])
  {
    assert context + ([e] + r.matches) == context + [e] + r.matches;
  }

  lemma {:induction false} ExpandTails(how: Reading, group: seq<Rule>, e: Entry, context: seq<Entry>)
    requires SharedHead(group, e)
    ensures ExpandAll(how, group, context) == ExpandAll(how, Tails(group), context + [e])
  {
    if group != [] {
      ExpandPrepend(how, e, Tail(group[0]), context);
      assert Prepend(e, Tail(group[0])) == group[0];
      ExpandTails(how, group[1..], e, context);
      assert Tails(group)[1..] == Tails(group[1..]);
    }
  }

  lemma {:induction false} ExpandFactor(how: Reading, e: Entry, block: seq<Rule>, context: seq<Entry>)
    ensures Expand(how, Factor(e, block), context) == ExpandAll(how, block, context + [e])
  {
    if |block| == 1 {
      ExpandPrepend(how, e, block[0], context);
      assert ExpandAll(how, block[1..], context + [e]) == [];
    }
  }

  // --- splitting one option of the context -----------------------------

  lemma {:induction false} CountCons<T>(x: T, rest: seq<T>, y: T)
    ensures multiset([x] + rest)[y] == multiset(rest)[y] + if x == y then 1 else 0
  {
  }

  lemma {:induction false} WithMetaCount(rows: seq<seq<Atom>>, meta: Meta, f: FlatRule)
    ensures multiset(WithMeta(rows, meta))[f] == if f.meta == meta then multiset(rows)[f.atoms] else 0
  {
    if rows == [] {
      assert WithMeta(rows, meta) == [];
    } else {
      WithMetaCount(rows[1..], meta, f);
      assert rows == [rows[0]] + rows[1..];
      assert WithMeta(rows, meta) == [Flat(rows[0], meta)] + WithMeta(rows[1..], meta);
      hide WithMeta;
      CountCons(rows[0], rows[1..], f.atoms);
      CountCons(Flat(rows[0], meta), WithMeta(rows[1..], meta), f);
    }
  }

  lemma {:induction false} WithMetaSum(rows: seq<seq<Atom>>, a: seq<seq<Atom>>, b: seq<seq<Atom>>, meta: Meta)
    requires multiset(rows) == multiset(a) + multiset(b)
    ensures multiset(WithMeta(rows, meta)) == multiset(WithMeta(a, meta)) + multiset(WithMeta(b, meta))
  {
    forall f: FlatRule
      ensures multiset(WithMeta(rows, meta))[f] == (multiset(WithMeta(a, meta)) + multiset(WithMeta(b, meta)))[f]
    {
      WithMetaCount(rows, meta, f); WithMetaCount(a, meta, f); WithMetaCount(b, meta, f);
    }
  }

  lemma {:induction false} ChoicesAround(how: Reading, pre: seq<Entry>, e: Entry, post: seq<Entry>)
    ensures Choices(how, pre + [e] + post) == Choices(how, pre) + [Alternatives(how, e)] + Choices(how, post)
  {
  }

  /** `whole` offers exactly the alternatives of `a` followed by those of `b`. */
  predicate SplitsInto(how: Reading, whole: Entry, a: Entry, b: Entry) {
    Alternatives(how, whole) == Alternatives(how, a) + Alternatives(how, b)
  }

  lemma {:induction false} LeafBagSplits(how: Reading, r: Rule, pre: seq<Entry>, whole: Entry, a: Entry, b: Entry, post: seq<Entry>)
    requires r.Leaf? && SplitsInto(how, whole, a, b)
    ensures multiset(Expand(how, r, pre + [whole] + post))
            == multiset(Expand(how, r, pre + [a] + post)) + multiset(Expand(how, r, pre + [b] + post))
  {
    var inner := post + r.matches;
    forall e: Entry
      ensures Choices(how, pre + [e] + post + r.matches)
              == Choices(how, pre) + [Alternatives(how, e)] + Choices(how, inner)
    {
      assert pre + [e] + post + r.matches == pre + [e] + inner;
      ChoicesAround(how, pre, e, inner);
    }
    ProductSplits(Choices(how, pre), Alternatives(how, a), Alternatives(how, b), Choices(how, inner));
    WithMetaSum(Product(Choices(how, pre + [whole] + post + r.matches)),
                Product(Choices(how, pre + [a] + post + r.matches)),
                Product(Choices(how, pre + [b] + post + r.matches)), r.meta);
  }

  lemma {:induction false} BagSplits(how: Reading, rules: seq<Rule>, pre: seq<Entry>, whole: Entry, a: Entry, b: Entry, post: seq<Entry>)
    requires SplitsInto(how, whole, a, b)
    ensures Bag(how, rules, pre + [whole] + post) == Bag(how, rules, pre + [a] + post) + Bag(how, rules, pre + [b] + post)
  {
    if rules != [] {
      var r := rules[0];
      if r.Leaf? {
        LeafBagSplits(how, r, pre, whole, a, b, post);
      } else {
        forall e: Entry
          ensures Expand(how, r, pre + [e] + post) == ExpandAll(how, r.body, pre + [e] + (post + r.matches))
        {
          assert pre + [e] + post + r.matches == pre + [e] + (post + r.matches);
        }
        BagSplits(how, r.body, pre, whole, a, b, post + r.matches);
      }
      BagSplits(how, rules[1..], pre, whole, a, b, post);
      forall e: Entry
        ensures Bag(how, rules, pre + [e] + post)
                == multiset(Expand(how, r, pre + [e] + post)) + Bag(how, rules[1..], pre + [e] + post) {}
    }
  }

  lemma {:induction false} GatherSplits(how: Reading, group: seq<Rule>, name: string)
    requires how(name).AnyOf? && group != [] && Headed(group) && group[0].matches[0].name == name
    ensures SplitsInto(how, Entry(name, List(Gather(group))), group[0].matches[0], Entry(name, List(Gather(group[1..]))))
  {
  }

  lemma {:induction false} NothingSplits(how: Reading, name: string)
    requires how(name).AnyOf?
    ensures var none := Entry(name, List([])); SplitsInto(how, none, none, none)
  {
  }

  /** Rules with one common tail expand to what the tail expands to under the gathered array. */
  lemma {:induction false} GatheredBag(how: Reading, group: seq<Rule>, name: string, tail: Rule, context: seq<Entry>)
    requires Headed(group)
    requires forall i :: 0 <= i < |group| ==> Tail(group[i]) == tail && group[i].matches[0].name == name
    requires how(name).AnyOf?
    ensures Bag(how, group, context) == Bag(how, [tail], context + [Entry(name, List(Gather(group)))])
  {
    hide Expand, SplitsInto;
    if group == [] {
      var none := Entry(name, List([]));
      NothingSplits(how, name);
      BagSplits(how, [tail], context, none, none, none, []);
      assert context + [none] + [] == context + [none];
    } else {
      var e, rest := group[0].matches[0], Entry(name, List(Gather(group[1..])));
      GatheredBag(how, group[1..], name, tail, context);
      GatherSplits(how, group, name);
      BagSplits(how, [tail], context, Entry(name, List(Gather(group))), e, rest, []);
      forall x: Entry ensures context + [x] + [] == context + [x] {}
      ExpandPrepend(how, e, tail, context);
      assert Prepend(e, tail) == group[0];
      assert ExpandAll(how, [tail], context + [e]) == Expand(how, group[0], context) + [];
    }
  }

  lemma {:induction false} MergeBag(how: Reading, group: seq<Rule>, context: seq<Entry>)
    requires Mergeable(group)
    requires how(group[0].matches[0].name).AnyOf?
    ensures multiset(Expand(how, MergeHeads(group), context)) == Bag(how, group, context)
  {
    var name, tail := group[0].matches[0].name, Tail(group[0]);
    GatheredBag(how, group, name, tail, context);
    var e := Entry(name, List(Gather(group)));
    ExpandPrepend(how, e, tail, context);
    assert ExpandAll(how, [tail], context + [e]) == Expand(how, tail, context + [e]) + [];
  }

  // --- the optimiser conserves the bag ---------------------------------

  lemma {:induction false} FactorPassBag(how: Reading, rules: seq<Rule>, context: seq<Entry>)
    requires MergedOn(FactorRuns(rules), Spreading(how))
    ensures Bag(how, FactorPass(rules), context) == Bag(how, rules, context)
    decreases HeadEntries(rules), |rules|, 0
  {
    if rules == [] {
    } else if rules[0].matches == [] || LeadingRun(rules) == 1 {
      FactorPassBag(how, rules[1..], context);
    } else {
      var n := LeadingRun(rules);
      var e := rules[0].matches[0];
      HeadEntriesSplit(rules, n); HeadEntriesTails(rules[..n]);
      MergedOnUnion(OptimizeRuns(Tails(rules[..n])), FactorRuns(rules[n..]), Spreading(how));
      OptimizeBag(how, Tails(rules[..n]), context + [e]);
      ExpandFactor(how, e, Optimize(Tails(rules[..n])), context);
      ExpandTails(how, rules[..n], e, context);
      FactorPassBag(how, rules[n..], context);
      StepBag(how, rules, n, Factor(e, Optimize(Tails(rules[..n]))), FactorPass(rules[n..]), context);
    }
  }

  lemma {:induction false} StepBag(how: Reading, rules: seq<Rule>, n: nat, head: Rule, rest: seq<Rule>, context: seq<Entry>)
    requires n <= |rules|
    requires multiset(Expand(how, head, context)) == Bag(how, rules[..n], context)
    requires Bag(how, rest, context) == Bag(how, rules[n..], context)
    ensures Bag(how, [head] + rest, context) == Bag(how, rules, context)
  {
    hide Expand;
    ExpandSplit(how, rules[..n], rules[n..], context);
    assert rules[..n] + rules[n..] == rules;
    assert ([head] + rest)[0] == head && ([head] + rest)[1..] == rest;
    assert ExpandAll(how, [head] + rest, context) == Expand(how, head, context) + ExpandAll(how, rest, context);
  }

  lemma {:induction false} ArrayPassBag(how: Reading, rules: seq<Rule>, context: seq<Entry>)
    requires MergedOn(ArrayRuns(rules), Spreading(how))
    ensures Bag(how, ArrayPass(rules), context) == Bag(how, rules, context)
  {
    if rules != [] {
      var n := MergeRun(rules);
      ArrayRunsUnfold(rules, Spreading(how));
      ArrayPassBag(how, rules[n..], context);
      if n > 1 {
        MergeBag(how, rules[..n], context);
        StepBag(how, rules, n, MergeHeads(rules[..n]), ArrayPass(rules[n..]), context);
      }
    }
  }

  /** The optimiser conserves the expanded rules, inside any context, when every merged array unfolds again. */
  lemma {:induction false} OptimizeBag(how: Reading, rules: seq<Rule>, context: seq<Entry>)
    requires MergedOn(OptimizeRuns(rules), Spreading(how))
    ensures Bag(how, Optimize(rules), context) == Bag(how, rules, context)
    decreases HeadEntries(rules), |rules|, 1
  {
    MergedOnUnion(FactorRuns(rules), ArrayRuns(FactorPass(rules)), Spreading(how));
    FactorPassBag(how, rules, context);
    ArrayPassBag(how, FactorPass(rules), context);
  }

  lemma {:induction false} FlushEachBag(how: Reading, rules: seq<Rule>, context: seq<Entry>)
    requires MergedOn(FlushEachRuns(rules), Spreading(how))
    ensures Bag(how, FlushEach(rules), context) == Bag(how, rules, context)
    decreases Weight(rules), 0
  {
    if rules != [] {
      WeightUnfolds(rules);
      MergedOnUnion(if rules[0].Block? then FlushRuns(rules[0].body) else {}, FlushEachRuns(rules[1..]), Spreading(how));
      if rules[0].Block? {
        FlushBag(how, rules[0].body, context + rules[0].matches);
      }
      FlushEachBag(how, rules[1..], context);
      assert FlushEach(rules)[1..] == FlushEach(rules[1..]);
      assert multiset(Expand(how, FlushEach(rules)[0], context)) == multiset(Expand(how, rules[0], context));
    }
  }

  /** So does emission: the tree expands to exactly the flat rules it was built from, order aside. */
  lemma {:induction false} FlushBag(how: Reading, rules: seq<Rule>, context: seq<Entry>)
    requires MergedOn(FlushRuns(rules), Spreading(how))
    ensures Bag(how, Flush(rules), context) == Bag(how, rules, context)
    decreases Weight(rules), 1
  {
    OptimizeSize(rules);
    MergedOnUnion(OptimizeRuns(rules), FlushEachRuns(Optimize(rules)), Spreading(how));
    OptimizeBag(how, rules, context);
    FlushEachBag(how, Optimize(rules), context);
  }

  /** Unfolding every array, a comma-joined one too, conserves the rows of any input. */
  lemma {:induction false} ProductBag(rules: seq<Rule>, context: seq<Entry>)
    ensures Bag(Unfolded, Optimize(rules), context) == Bag(Unfolded, rules, context)
    ensures Bag(Unfolded, Flush(rules), context) == Bag(Unfolded, rules, context)
  {
    OptimizeRunsMergeable(rules);
    FlushRunsMergeable(rules);
    OptimizeBag(Unfolded, rules, context);
    FlushBag(Unfolded, rules, context);
  }
}
