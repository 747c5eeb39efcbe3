/**
 * The order of the flat rules is kept exactly when pass 2 merges no run of blocks: a merged
 * block shows its second head after the first leaf, where the source still shows its first.
 */
module RuleTreeInterleave {
  import opened Seqs
  import opened Products
  import opened RuleTree
  import opened RuleTreeMerges
  import opened RuleTreeReading
  import opened RuleTreeFlat
  import opened RuleTreeConservation
  import opened RuleTreeOrder

  /** Every option offers something to choose. */
  predicate Offers(how: Reading, entries: seq<Entry>) {
    forall i :: 0 <= i < |entries| ==> Alternatives(how, entries[i]) != []
  }

  /** No option without a choice, and at least two rules in every block. */
  predicate Full(how: Reading, rules: seq<Rule>) {
    forall i :: 0 <= i < |rules| ==> RuleFull(how, rules[i])
  }

  predicate RuleFull(how: Reading, r: Rule) {
    Offers(how, r.matches) && (r.Block? ==> |r.body| >= 2 && Full(how, r.body))
  }

  // --- the rows of a product --------------------------------------------

  lemma {:induction false} PrefixRows<T>(x: T, rows: seq<seq<T>>, i: nat)
    requires i < |rows|
    ensures PrefixAll(x, rows)[i][0] == x && PrefixAll(x, rows)[i][1..] == rows[i]
  {
  }

  lemma {:induction false} RowFrom<T>(first: seq<T>, rest: seq<seq<T>>, i: nat)
    requires i < |ProductFrom(first, rest)|
    ensures var row := ProductFrom(first, rest)[i];
            row != [] && row[0] in first && row[1..] in Product(rest)
    decreases |first|
  {
    if first != [] {
      var here := PrefixAll(first[0], Product(rest));
      if i < |here| {
        PrefixRows(first[0], Product(rest), i);
      } else {
        RowFrom(first[1..], rest, i - |here|);
      }
    }
  }

  /** A row picks its k-th element from the k-th list. */
  lemma {:induction false} RowPicks<T>(choices: seq<seq<T>>, row: seq<T>, k: nat)
    requires row in Product(choices) && k < |choices|
    ensures k < |row| && row[k] in choices[k]
    decreases |choices|
  {
    var i :| 0 <= i < |Product(choices)| && Product(choices)[i] == row;
    RowFrom(choices[0], choices[1..], i);
    if k > 0 { RowPicks(choices[1..], row[1..], k - 1); }
  }

  /** The first row picks the first element of every list. */
  lemma {:induction false} FirstRow<T>(choices: seq<seq<T>>, k: nat)
    requires (forall i :: 0 <= i < |choices| ==> choices[i] != []) && k < |choices|
    ensures Product(choices) != [] && k < |Product(choices)[0]| && Product(choices)[0][k] == choices[k][0]
    decreases |choices|
  {
    if |choices| == 1 {
      assert choices[1..] == [];
      assert Product(choices[1..]) == [[]];
    } else {
      FirstRow(choices[1..], if k == 0 then 0 else k - 1);
    }
    PrefixRows(choices[0][0], Product(choices[1..]), 0);
    assert Product(choices) == PrefixAll(choices[0][0], Product(choices[1..])) + ProductFrom(choices[0][1..], choices[1..]);
    var row := Product(choices)[0];
    assert row == PrefixAll(choices[0][0], Product(choices[1..]))[0];
    assert row == [row[0]] + row[1..];
  }

  lemma {:induction false} SomeRow<T>(choices: seq<seq<T>>)
    requires forall i :: 0 <= i < |choices| ==> choices[i] != []
    ensures Product(choices) != []
  {
    if choices != [] { FirstRow(choices, 0); }
  }

  lemma {:induction false} OffersChoices(how: Reading, options: seq<Entry>)
    requires Offers(how, options)
    ensures forall i :: 0 <= i < |options| ==> Choices(how, options)[i] != []
  {
  }

  lemma {:induction false} OffersAppend(how: Reading, a: seq<Entry>, b: seq<Entry>)
    ensures Offers(how, a + b) <==> Offers(how, a) && Offers(how, b)
  {
    assert forall i :: 0 <= i < |a| ==> (a + b)[i] == a[i];
    assert forall i :: 0 <= i < |b| ==> (a + b)[|a| + i] == b[i];
  }

  // --- which atom a row shows at one place of the context ---------------

  predicate Shows(f: FlatRule, place: nat, a: Atom) {
    place < |f.atoms| && f.atoms[place] == a
  }

  predicate AllShow(flat: seq<FlatRule>, place: nat, a: Atom) {
    forall i :: 0 <= i < |flat| ==> Shows(flat[i], place, a)
  }

  lemma {:induction false} AllShowAppend(a: seq<FlatRule>, b: seq<FlatRule>, place: nat, x: Atom)
    requires AllShow(a, place, x) && AllShow(b, place, x)
    ensures AllShow(a + b, place, x)
  {
  }

  /** Below an option with a single choice every row carries it. */
  lemma {:induction false} OptionShows(how: Reading, rules: seq<Rule>, context: seq<Entry>, e: Entry, post: seq<Entry>)
    requires Single(how, e)
    ensures AllShow(ExpandAll(how, rules, context + [e] + post), |context|, Alternatives(how, e)[0])
  {
    if rules != [] {
      var r, all := rules[0], context + [e] + post;
      if r.Leaf? {
        LeafShows(how, r, all, |context|);
      } else {
        assert all + r.matches == context + [e] + (post + r.matches);
        OptionShows(how, r.body, context, e, post + r.matches);
      }
      OptionShows(how, rules[1..], context, e, post);
      AllShowAppend(Expand(how, r, all), ExpandAll(how, rules[1..], all), |context|, Alternatives(how, e)[0]);
    }
  }

  lemma {:induction false} LeafShows(how: Reading, r: Rule, context: seq<Entry>, place: nat)
    requires r.Leaf? && place < |context| && Single(how, context[place])
    ensures AllShow(Expand(how, r, context), place, Alternatives(how, context[place])[0])
  {
    var choices := Choices(how, context + r.matches);
    forall i | 0 <= i < |Product(choices)|
      ensures Shows(WithMeta(Product(choices), r.meta)[i], place, Alternatives(how, context[place])[0])
    {
      RowPicks(choices, Product(choices)[i], place);
      assert choices[place] == Alternatives(how, context[place]);
    }
  }

  /** An option may be written in another way that offers the same. */
  lemma {:induction false} OptionAlike(how: Reading, rules: seq<Rule>, context: seq<Entry>, e: Entry, f: Entry, post: seq<Entry>)
    requires Alternatives(how, e) == Alternatives(how, f)
    ensures ExpandAll(how, rules, context + [e] + post) == ExpandAll(how, rules, context + [f] + post)
  {
    if rules != [] {
      var r := rules[0];
      if r.Leaf? {
        assert Choices(how, context + [e] + post + r.matches) == Choices(how, context + [f] + post + r.matches);
      } else {
        forall x: Entry ensures context + [x] + post + r.matches == context + [x] + (post + r.matches) {}
        OptionAlike(how, r.body, context, e, f, post + r.matches);
      }
      OptionAlike(how, rules[1..], context, e, f, post);
    }
  }

  /** Rules whose options all offer something expand to something. */
  lemma {:induction false} FullExpands(how: Reading, rules: seq<Rule>, context: seq<Entry>)
    requires Full(how, rules) && rules != [] && Offers(how, context)
    ensures ExpandAll(how, rules, context) != []
  {
    var r := rules[0];
    OffersAppend(how, context, r.matches);
    if r.Leaf? {
      OffersChoices(how, context + r.matches);
      SomeRow(Choices(how, context + r.matches));
      assert |Expand(how, r, context)| == |Product(Choices(how, context + r.matches))|;
    } else {
      FullExpands(how, r.body, context + r.matches);
    }
  }

  lemma {:induction false} LeafFirstRow(how: Reading, r: Rule, context: seq<Entry>, place: nat)
    requires r.Leaf? && Offers(how, context) && Offers(how, r.matches) && place < |context|
    ensures Alternatives(how, context[place]) != [] && Expand(how, r, context) != []
    ensures Shows(Expand(how, r, context)[0], place, Alternatives(how, context[place])[0])
  {
    var options := context + r.matches;
    OffersAppend(how, context, r.matches);
    OffersChoices(how, options);
    FirstRow(Choices(how, options), place);
    assert options[place] == context[place];
    assert Choices(how, options)[place] == Alternatives(how, context[place]);
    assert Expand(how, r, context)[0] == Flat(Product(Choices(how, options))[0], r.meta);
  }

  lemma {:induction false} OffersAround(how: Reading, context: seq<Entry>, e: Entry, post: seq<Entry>)
    requires Plain(how, context) && Offers(how, [e]) && Offers(how, post)
    ensures Offers(how, context + [e] + post) && (context + [e] + post)[|context|] == e
  {
    OffersAppend(how, context, [e]);
    OffersAppend(how, context + [e], post);
  }

  lemma {:induction false} LeafSecondItem(how: Reading, r: Rule, context: seq<Entry>, name: string, items: seq<Value>, post: seq<Entry>)
    requires r.Leaf? && RuleFull(how, r) && Plain(how, context) && Offers(how, post) && |items| >= 2
    requires how(name).AnyOf?
    ensures var s := |Expand(how, r, context + [Entry(name, List([items[0]]))] + post)|;
            var rows := Expand(how, r, context + [Entry(name, List(items))] + post);
            1 <= s < |rows| && Shows(rows[s], |context|, One(name, items[1]))
  {
    hide Alternatives, Expand, Offers, Plain, Shows, Choices, SplitsInto, WithMeta, Product;
    var whole, first, later := Entry(name, List(items)), Entry(name, List([items[0]])), Entry(name, List(items[1..]));
    ItemSplits(how, name, items);
    LeafSplitsInOrder(how, r, context, whole, first, later, post);
    OffersAround(how, context, first, post);
    OffersAround(how, context, later, post);
    LeafFirstRow(how, r, context + [first] + post, |context|);
    LeafFirstRow(how, r, context + [later] + post, |context|);
    SecondPart(Expand(how, r, context + [whole] + post), Expand(how, r, context + [first] + post),
               Expand(how, r, context + [later] + post), |context|, One(name, items[1]));
  }

  lemma {:induction false} ItemSplits(how: Reading, name: string, items: seq<Value>)
    requires |items| >= 2 && how(name).AnyOf?
    ensures var first, later := Entry(name, List([items[0]])), Entry(name, List(items[1..]));
            && SplitsInto(how, Entry(name, List(items)), first, later)
            && Offers(how, [first]) && Offers(how, [later])
            && Alternatives(how, later) != [] && Alternatives(how, later)[0] == One(name, items[1])
  {
    assert Ones(name, items) == Ones(name, [items[0]]) + Ones(name, items[1..]);
  }

  lemma {:induction false} SecondPart(rows: seq<FlatRule>, a: seq<FlatRule>, b: seq<FlatRule>, place: nat, x: Atom)
    requires rows == a + b && a != [] && b != [] && Shows(b[0], place, x)
    ensures 1 <= |a| < |rows| && Shows(rows[|a|], place, x)
  {
  }

  /** Under an array the second item already shows after the rows the first leaf has for the first item. */
  lemma {:induction false} SecondItem(how: Reading, rules: seq<Rule>, context: seq<Entry>, name: string, items: seq<Value>, post: seq<Entry>) returns (s: nat)
    requires Full(how, rules) && rules != [] && Plain(how, context) && Offers(how, post) && |items| >= 2
    requires how(name).AnyOf?
    ensures var rows := ExpandAll(how, rules, context + [Entry(name, List(items))] + post);
            s < |rows| && Shows(rows[s], |context|, One(name, items[1]))
    ensures s <= |Expand(how, rules[0], context + [Entry(name, List([items[0]]))] + post)|
  {
    var r := rules[0];
    var whole, first := Entry(name, List(items)), Entry(name, List([items[0]]));
    if r.Leaf? {
      LeafSecondItem(how, r, context, name, items, post);
      s := |Expand(how, r, context + [first] + post)|;
    } else {
      OffersAppend(how, post, r.matches);
      s := SecondItem(how, r.body, context, name, items, post + r.matches);
      forall e: Entry ensures context + [e] + post + r.matches == context + [e] + (post + r.matches) {}
    }
    assert ExpandAll(how, rules, context + [whole] + post)
        == Expand(how, r, context + [whole] + post) + ExpandAll(how, rules[1..], context + [whole] + post);
  }

  /** The one item of an unfolding option with a single choice. */
  lemma {:induction false} SoleItem(how: Reading, e: Entry)
    requires how(e.name).AnyOf? && Single(how, e)
    ensures |ValueItems(e.value)| == 1 && Alternatives(how, e) == [One(e.name, ValueItems(e.value)[0])]
    ensures Alternatives(how, Entry(e.name, List([ValueItems(e.value)[0]]))) == Alternatives(how, e)
  {
    var items := ValueItems(e.value);
    assert Alternatives(how, e) == Ones(e.name, items);
    assert Ones(e.name, items) == [One(e.name, items[0])] == Ones(e.name, [items[0]]);
  }

  lemma {:induction false} GatherPair(group: seq<Rule>)
    requires Headed(group) && |group| > 1
    requires |ValueItems(group[0].matches[0].value)| == |ValueItems(group[1].matches[0].value)| == 1
    ensures |Gather(group)| >= 2
    ensures Gather(group)[0] == ValueItems(group[0].matches[0].value)[0]
    ensures Gather(group)[1] == ValueItems(group[1].matches[0].value)[0]
  {
    assert group[1..][0] == group[1];
    assert Gather(group[1..]) == ValueItems(group[1].matches[0].value) + Gather(group[1..][1..]);
    assert Gather(group) == ValueItems(group[0].matches[0].value) + Gather(group[1..]);
  }

  lemma {:induction false} DiffersAt(rows: seq<FlatRule>, flat: seq<FlatRule>, s: nat, count: nat, place: nat, x: Atom, y: Atom)
    requires s < |rows| && s < count <= |flat| && x != y
    requires Shows(rows[s], place, y) && AllShow(flat[..count], place, x)
    ensures !(rows <= flat)
  {
    assert flat[..count][s] == flat[s];
  }

  /** A merged run of blocks is not where its source rows are. */
  lemma {:induction false} BlocksInterleave(how: Reading, group: seq<Rule>, context: seq<Entry>, flat: seq<FlatRule>)
    requires Mergeable(group) && |group| > 1 && group[0].Block? && Full(how, group) && Plain(how, context)
    requires how(group[0].matches[0].name).AnyOf?
    requires Single(how, group[0].matches[0]) && Single(how, group[1].matches[0])
    requires Alternatives(how, group[0].matches[0]) != Alternatives(how, group[1].matches[0])
    requires |Expand(how, group[0], context)| <= |flat|
    requires AllShow(flat[..|Expand(how, group[0], context)|], |context|, Alternatives(how, group[0].matches[0])[0])
    ensures !(Expand(how, MergeHeads(group), context) <= flat)
  {
    var a, b, body := group[0].matches[0], group[1].matches[0], group[0].body;
    var post, items := group[0].matches[1..], Gather(group);
    assert ArrayMatches(group[0], group[1]);
    SoleItem(how, a);
    SoleItem(how, b);
    GatherPair(group);
    BlockOffers(how, group[0]);
    var s := SecondItem(how, body, context, a.name, items, post);
    OptionAlike(how, body[..1], context, a, Entry(a.name, List([items[0]])), post);
    BlockRows(how, group[0], context);
    var w := Entry(a.name, List(items));
    assert MergeHeads(group) == Block([w] + post, body);
    assert context + ([w] + post) == context + [w] + post;
    assert ExpandAll(how, body[..1], context + [Entry(a.name, List([items[0]]))] + post)
        == Expand(how, body[0], context + [Entry(a.name, List([items[0]]))] + post) + [];
    DiffersAt(Expand(how, MergeHeads(group), context), flat, s, |Expand(how, group[0], context)|, |context|,
              Alternatives(how, a)[0], Alternatives(how, b)[0]);
  }

  lemma {:induction false} BlockOffers(how: Reading, r: Rule)
    requires r.Block? && r.matches != [] && RuleFull(how, r)
    ensures Offers(how, [r.matches[0]]) && Offers(how, r.matches[1..]) && |r.body| >= 2 && Full(how, r.body)
  {
    assert [r.matches[0]] + r.matches[1..] == r.matches;
    OffersAppend(how, [r.matches[0]], r.matches[1..]);
  }

  /** A block has more rows than its first rule. */
  lemma {:induction false} BlockRows(how: Reading, r: Rule, context: seq<Entry>)
    requires r.Block? && r.matches != [] && RuleFull(how, r) && Plain(how, context)
    ensures |r.body| >= 2 && |Expand(how, r, context)| > |ExpandAll(how, r.body[..1], context + [r.matches[0]] + r.matches[1..])|
  {
    var all := context + [r.matches[0]] + r.matches[1..];
    assert context + r.matches == all;
    BlockOffers(how, r);
    OffersAround(how, context, r.matches[0], r.matches[1..]);
    FullExpands(how, r.body[1..], all);
    ExpandSplit(how, r.body[..1], r.body[1..], all);
    assert r.body[..1] + r.body[1..] == r.body;
  }

  // --- the passes keep trees full -----------------------------------------

  lemma {:induction false} FullAppend(how: Reading, a: seq<Rule>, b: seq<Rule>)
    ensures Full(how, a + b) <==> Full(how, a) && Full(how, b)
  {
    assert forall i :: 0 <= i < |a| ==> (a + b)[i] == a[i];
    assert forall i :: 0 <= i < |b| ==> (a + b)[|a| + i] == b[i];
  }

  lemma {:induction false} FullOne(how: Reading, r: Rule)
    ensures Full(how, [r]) <==> RuleFull(how, r)
  {
    assert [r][0] == r;
  }

  lemma {:induction false} PrependFull(how: Reading, e: Entry, r: Rule)
    ensures RuleFull(how, Prepend(e, r)) <==> Offers(how, [e]) && RuleFull(how, r)
  {
    OffersAppend(how, [e], r.matches);
  }

  lemma {:induction false} FactorFull(how: Reading, e: Entry, block: seq<Rule>)
    requires block != [] && Offers(how, [e]) && Full(how, block)
    ensures RuleFull(how, Factor(e, block))
  {
    PrependFull(how, e, block[0]);
  }

  /** The rules stand for one flat rule each, and their options are among these. */
  predicate LeavesOf(how: Reading, pool: set<Entry>, rules: seq<Rule>) {
    PlainLeaves(how, rules) && forall i, k :: 0 <= i < |rules| && 0 <= k < |rules[i].matches| ==> rules[i].matches[k] in pool
  }

  /** No two options of one name offer the same in two spellings. */
  predicate OneSpelling(how: Reading, pool: set<Entry>) {
    forall e, f :: e in pool && f in pool && e.name == f.name && Alternatives(how, e) == Alternatives(how, f) ==> e == f
  }

  /** Every rule of the list opens with one of these options, which offers a single choice. */
  predicate HeadsIn(how: Reading, pool: set<Entry>, rules: seq<Rule>) {
    forall i :: 0 <= i < |rules| && rules[i].matches != [] ==> Single(how, rules[i].matches[0]) && rules[i].matches[0] in pool
  }

  lemma {:induction false} TailsOf(how: Reading, pool: set<Entry>, rules: seq<Rule>, n: nat)
    requires LeavesOf(how, pool, rules) && n <= |rules| && Headed(rules[..n])
    ensures LeavesOf(how, pool, Tails(rules[..n]))
    ensures n > 0 ==> Single(how, rules[0].matches[0]) && rules[0].matches[0] in pool
  {
    forall i | 0 <= i < n ensures Plain(how, Tails(rules[..n])[i].matches) {
      assert Plain(how, rules[i].matches);
    }
  }

  lemma {:induction false} FactorPassFull(how: Reading, pool: set<Entry>, rules: seq<Rule>)
    requires MergedOn(FactorRuns(rules), Spreading(how))
    requires LeavesOf(how, pool, rules)
    ensures Full(how, FactorPass(rules)) && HeadsIn(how, pool, FactorPass(rules)) && (rules != [] ==> FactorPass(rules) != [])
    decreases HeadEntries(rules), |rules|, 0
  {
    hide Full, HeadsIn, LeavesOf, MergedOn, Offers, Single, Spreading;
    if rules == [] {
      NothingFull(how, pool);
    } else if rules[0].matches == [] || LeadingRun(rules) == 1 {
      LeavesParts(how, pool, rules, 1);
      FactorPassFull(how, pool, rules[1..]);
      FullCons(how, pool, rules[0], FactorPass(rules[1..]));
    } else {
      var n := LeadingRun(rules);
      HeadEntriesSplit(rules, n); HeadEntriesTails(rules[..n]);
      var e, block := rules[0].matches[0], Optimize(Tails(rules[..n]));
      MergedOnUnion(OptimizeRuns(Tails(rules[..n])), FactorRuns(rules[n..]), Spreading(how));
      TailsOf(how, pool, rules, n);
      LeavesParts(how, pool, rules, n);
      OptimizeFull(how, pool, Tails(rules[..n]));
      SingleOffers(how, e);
      FactorFull(how, e, block);
      FactorPassFull(how, pool, rules[n..]);
      FullCons(how, pool, Factor(e, block), FactorPass(rules[n..]));
    }
  }

  lemma {:induction false} NothingFull(how: Reading, pool: set<Entry>)
    ensures Full(how, []) && HeadsIn(how, pool, [])
  {
  }

  lemma {:induction false} SingleOffers(how: Reading, e: Entry)
    requires Single(how, e)
    ensures Offers(how, [e])
  {
  }

  lemma {:induction false} FullCons(how: Reading, pool: set<Entry>, r: Rule, rest: seq<Rule>)
    requires RuleFull(how, r) && Full(how, rest) && HeadsIn(how, pool, rest)
    requires r.matches != [] ==> Single(how, r.matches[0]) && r.matches[0] in pool
    ensures Full(how, [r] + rest) && HeadsIn(how, pool, [r] + rest)
  {
    var all := [r] + rest;
    assert all[0] == r && forall i :: 0 <= i < |rest| ==> all[i + 1] == rest[i];
  }

  lemma {:induction false} LeavesParts(how: Reading, pool: set<Entry>, rules: seq<Rule>, n: nat)
    requires LeavesOf(how, pool, rules) && 1 <= n <= |rules|
    ensures LeavesOf(how, pool, rules[n..]) && rules[0].Leaf? && RuleFull(how, rules[0])
    ensures rules[0].matches != [] ==> Single(how, rules[0].matches[0]) && rules[0].matches[0] in pool
  {
    assert Plain(how, rules[0].matches);
    forall i | n <= i < |rules| ensures rules[n..][i - n] == rules[i] {}
  }

  lemma {:induction false} GatherFull(how: Reading, group: seq<Rule>)
    requires Mergeable(group) && Full(how, group) && how(group[0].matches[0].name).AnyOf?
    ensures RuleFull(how, MergeHeads(group))
  {
    var e := Entry(group[0].matches[0].name, List(Gather(group)));
    assert RuleFull(how, group[0]) && Offers(how, group[0].matches);
    assert Alternatives(how, group[0].matches[0]) == Ones(e.name, ValueItems(group[0].matches[0].value));
    PrependFull(how, group[0].matches[0], Tail(group[0]));
    assert Prepend(group[0].matches[0], Tail(group[0])) == group[0];
    assert Gather(group) == ValueItems(group[0].matches[0].value) + Gather(group[1..]);
    PrependFull(how, e, Tail(group[0]));
  }

  lemma {:induction false} ArrayPassFull(how: Reading, rules: seq<Rule>)
    requires MergedOn(ArrayRuns(rules), Spreading(how))
    requires Full(how, rules)
    ensures Full(how, ArrayPass(rules)) && (rules != [] ==> ArrayPass(rules) != [])
  {
    if rules != [] {
      var n := MergeRun(rules);
      assert rules[..n] + rules[n..] == rules;
      FullAppend(how, rules[..n], rules[n..]);
      ArrayRunsUnfold(rules, Spreading(how));
      ArrayPassFull(how, rules[n..]);
      var head := if n == 1 then rules[0] else MergeHeads(rules[..n]);
      if n > 1 { GatherFull(how, rules[..n]); }
      FullOne(how, head);
      FullAppend(how, [head], ArrayPass(rules[n..]));
    }
  }

  lemma {:induction false} OptimizeFull(how: Reading, pool: set<Entry>, rules: seq<Rule>)
    requires MergedOn(OptimizeRuns(rules), Spreading(how))
    requires LeavesOf(how, pool, rules)
    ensures Full(how, Optimize(rules)) && (rules != [] ==> Optimize(rules) != [])
    decreases HeadEntries(rules), |rules|, 1
  {
    MergedOnUnion(FactorRuns(rules), ArrayRuns(FactorPass(rules)), Spreading(how));
    FactorPassFull(how, pool, rules);
    ArrayPassFull(how, FactorPass(rules));
  }

  // --- the source rows, rule by rule ---------------------------------------

  /**
   * `flat` is cut as `rules` expand: each rule has its number of rows, and where the rule is a
   * block those rows carry the block's head.
   */
  predicate Aligned(how: Reading, rules: seq<Rule>, context: seq<Entry>, flat: seq<FlatRule>) {
    if rules == [] then flat == []
    else
      var k := |Expand(how, rules[0], context)|;
      && k <= |flat|
      && (rules[0].Block? && rules[0].matches != [] && Single(how, rules[0].matches[0]) ==>
            AllShow(flat[..k], |context|, Alternatives(how, rules[0].matches[0])[0]))
      && Aligned(how, rules[1..], context, flat[k..])
  }

  lemma {:induction false} AlignedDrop(how: Reading, rules: seq<Rule>, n: nat, context: seq<Entry>, flat: seq<FlatRule>)
    requires n <= |rules| && Aligned(how, rules, context, flat)
    ensures var k := |ExpandAll(how, rules[..n], context)|;
            k <= |flat| && Aligned(how, rules[n..], context, flat[k..])
  {
    hide Expand, AllShow, Single, Alternatives;
    if n == 0 {
      assert rules[..n] == [] && rules[n..] == rules && flat[0..] == flat;
    } else {
      var k := |Expand(how, rules[0], context)|;
      AlignedDrop(how, rules[1..], n - 1, context, flat[k..]);
      assert rules[..n][1..] == rules[1..][..n - 1] && rules[..n][0] == rules[0];
      assert rules[1..][n - 1..] == rules[n..];
      var m := |ExpandAll(how, rules[1..][..n - 1], context)|;
      assert |ExpandAll(how, rules[..n], context)| == k + m;
      assert flat[k..][m..] == flat[k + m..];
    }
  }

  lemma {:induction false} SameSize(how: Reading, rules: seq<Rule>, context: seq<Entry>)
    requires MergedOn(OptimizeRuns(rules), Spreading(how))
    ensures |ExpandAll(how, Optimize(rules), context)| == |ExpandAll(how, rules, context)|
  {
    OptimizeBag(how, rules, context);
    assert |Bag(how, Optimize(rules), context)| == |Bag(how, rules, context)|;
  }

  lemma {:induction false} FactorPassAligned(how: Reading, pool: set<Entry>, rules: seq<Rule>, context: seq<Entry>)
    requires MergedOn(FactorRuns(rules), Spreading(how))
    requires LeavesOf(how, pool, rules)
    ensures Aligned(how, FactorPass(rules), context, ExpandAll(how, rules, context))
    decreases |rules|
  {
    hide Expand, AllShow, LeavesOf, MergedOn, Spreading;
    if rules == [] {
    } else if rules[0].matches == [] || LeadingRun(rules) == 1 {
      LeavesParts(how, pool, rules, 1);
      FactorPassAligned(how, pool, rules[1..], context);
      AlignedLeaf(how, rules[0], FactorPass(rules[1..]), context, ExpandAll(how, rules[1..], context));
    } else {
      var n := LeadingRun(rules);
      HeadEntriesSplit(rules, n); HeadEntriesTails(rules[..n]);
      LeavesParts(how, pool, rules, n);
      MergedOnUnion(OptimizeRuns(Tails(rules[..n])), FactorRuns(rules[n..]), Spreading(how));
      FactorPassAligned(how, pool, rules[n..], context);
      FactorStepAligned(how, pool, rules, n, context, FactorPass(rules[n..]));
    }
  }

  lemma {:induction false} AlignedLeaf(how: Reading, r: Rule, rest: seq<Rule>, context: seq<Entry>, later: seq<FlatRule>)
    requires r.Leaf? && Aligned(how, rest, context, later)
    ensures Aligned(how, [r] + rest, context, Expand(how, r, context) + later)
  {
    hide Expand, AllShow;
    var here := Expand(how, r, context);
    assert (here + later)[|here|..] == later;
    assert ([r] + rest)[0] == r && ([r] + rest)[1..] == rest;
  }

  /** The rows of a factored run are as many as its source has, and those all carry the common head. */
  lemma {:induction false} FactorStepRows(how: Reading, rules: seq<Rule>, n: nat, context: seq<Entry>)
    requires 2 <= n <= |rules| && Headed(rules[..n]) && SharedHead(rules[..n], rules[0].matches[0])
    requires MergedOn(OptimizeRuns(Tails(rules[..n])), Spreading(how))
    ensures var e, tails := rules[0].matches[0], Tails(rules[..n]);
            var head := Factor(e, Optimize(tails));
            var here := ExpandAll(how, tails, context + [e]);
            && Expand(how, head, context) == ExpandAll(how, Optimize(tails), context + [e])
            && |Expand(how, head, context)| == |here|
            && ExpandAll(how, rules, context) == here + ExpandAll(how, rules[n..], context)
            && (Single(how, e) ==> AllShow(here, |context|, Alternatives(how, e)[0]))
  {
    hide Expand, AllShow, Factor;
    var e, run := rules[0].matches[0], rules[..n];
    ExpandFactor(how, e, Optimize(Tails(run)), context);
    SameSize(how, Tails(run), context + [e]);
    ExpandTails(how, run, e, context);
    assert context + [e] + [] == context + [e];
    if Single(how, e) { OptionShows(how, Tails(run), context, e, []); }
    ExpandSplit(how, run, rules[n..], context);
    assert run + rules[n..] == rules;
  }

  lemma {:induction false} AlignedCons(how: Reading, head: Rule, rest: seq<Rule>, context: seq<Entry>, here: seq<FlatRule>, later: seq<FlatRule>)
    requires head.matches != [] && |Expand(how, head, context)| == |here|
    requires Single(how, head.matches[0]) && AllShow(here, |context|, Alternatives(how, head.matches[0])[0]) && Aligned(how, rest, context, later)
    ensures Aligned(how, [head] + rest, context, here + later)
  {
    hide Expand, AllShow;
    assert (here + later)[..|here|] == here && (here + later)[|here|..] == later;
    assert ([head] + rest)[0] == head && ([head] + rest)[1..] == rest;
  }

  lemma {:induction false} FactorStepAligned(how: Reading, pool: set<Entry>, rules: seq<Rule>, n: nat, context: seq<Entry>, rest: seq<Rule>)
    requires 2 <= n <= |rules| && LeavesOf(how, pool, rules) && Headed(rules[..n]) && SharedHead(rules[..n], rules[0].matches[0])
    requires MergedOn(OptimizeRuns(Tails(rules[..n])), Spreading(how))
    requires Aligned(how, rest, context, ExpandAll(how, rules[n..], context))
    ensures Aligned(how, [Factor(rules[0].matches[0], Optimize(Tails(rules[..n])))] + rest, context, ExpandAll(how, rules, context))
  {
    hide Expand, ExpandAll, AllShow, Aligned, Optimize;
    var e, tails := rules[0].matches[0], Tails(rules[..n]);
    FactorStepRows(how, rules, n, context);
    TailsOf(how, pool, rules, n);
    AlignedCons(how, Factor(e, Optimize(tails)), rest, context, ExpandAll(how, tails, context + [e]),
                ExpandAll(how, rules[n..], context));
  }

  // --- runs of leaves are merged in order -----------------------------------

  lemma {:induction false} ArrayLeavesInOrder(rules: seq<Rule>)
    requires LeavesOnly(ArrayRuns(rules))
    ensures ArrayInOrder(rules, true)
  {
    if rules != [] {
      var n := MergeRun(rules);
      ArrayLeavesInOrder(rules[n..]);
      if n > 1 { assert rules[..n] in ArrayRuns(rules) && rules[..n][0] == rules[0]; }
    }
  }

  lemma {:induction false} FactorLeavesInOrder(how: Reading, pool: set<Entry>, rules: seq<Rule>)
    requires LeavesOf(how, pool, rules) && LeavesOnly(FactorRuns(rules))
    ensures FactorInOrder(how, rules, true)
    decreases HeadEntries(rules), |rules|, 0
  {
    if rules == [] {
    } else if rules[0].matches == [] || LeadingRun(rules) == 1 {
      FactorLeavesInOrder(how, pool, rules[1..]);
    } else {
      var n := LeadingRun(rules);
      HeadEntriesSplit(rules, n); HeadEntriesTails(rules[..n]);
      TailsOf(how, pool, rules, n);
      OptimizeLeavesInOrder(how, pool, Tails(rules[..n]));
      FactorLeavesInOrder(how, pool, rules[n..]);
    }
  }

  lemma {:induction false} OptimizeLeavesInOrder(how: Reading, pool: set<Entry>, rules: seq<Rule>)
    requires LeavesOf(how, pool, rules) && LeavesOnly(OptimizeRuns(rules))
    ensures OptimizeInOrder(how, rules, true)
    decreases HeadEntries(rules), |rules|, 1
  {
    FactorLeavesInOrder(how, pool, rules);
    ArrayLeavesInOrder(FactorPass(rules));
  }

  // --- when the order is kept ------------------------------------------------

  lemma {:induction false} RunSize(how: Reading, group: seq<Rule>, context: seq<Entry>)
    requires Mergeable(group) && how(group[0].matches[0].name).AnyOf?
    ensures |Expand(how, MergeHeads(group), context)| == |ExpandAll(how, group, context)|
  {
    MergeBag(how, group, context);
    assert |multiset(Expand(how, MergeHeads(group), context))| == |Bag(how, group, context)|;
  }

  lemma {:induction false} ArrayPassExact(how: Reading, pool: set<Entry>, rules: seq<Rule>, context: seq<Entry>, flat: seq<FlatRule>)
    requires MergedOn(ArrayRuns(rules), Spreading(how)) && OneSpelling(how, pool)
    requires Full(how, rules) && HeadsIn(how, pool, rules) && HeadsDiffer(rules) && Plain(how, context)
    requires Aligned(how, rules, context, flat) && ExpandAll(how, ArrayPass(rules), context) == flat
    ensures LeavesOnly(ArrayRuns(rules))
  {
    hide Expand, Full, HeadsIn, HeadsDiffer, Plain;
    if rules != [] {
      var n := MergeRun(rules);
      var head := if n == 1 then rules[0] else MergeHeads(rules[..n]);
      var here, later := Expand(how, head, context), ExpandAll(how, ArrayPass(rules[n..]), context);
      assert flat == here + later by { assert ArrayPass(rules) == [head] + ArrayPass(rules[n..]); }
      AlignedDrop(how, rules, n, context, flat);
      ArrayRunsUnfold(rules, Spreading(how));
      if n == 1 {
        assert ExpandAll(how, rules[..1], context) == Expand(how, rules[0], context) + [];
      } else {
        RunSize(how, rules[..n], context);
        RunOfLeaves(how, pool, rules, n, context, flat);
      }
      assert flat[|here|..] == later;
      SuffixKeeps(how, pool, rules, n);
      ArrayPassExact(how, pool, rules[n..], context, later);
    }
  }

  lemma {:induction false} SuffixKeeps(how: Reading, pool: set<Entry>, rules: seq<Rule>, n: nat)
    requires n <= |rules| && Full(how, rules) && HeadsIn(how, pool, rules) && HeadsDiffer(rules)
    ensures Full(how, rules[n..]) && HeadsIn(how, pool, rules[n..]) && HeadsDiffer(rules[n..])
  {
    var rest := rules[n..];
    forall i | 0 < i < |rest| && rest[i - 1].matches != [] ensures !PrefixMatches(rest[i - 1], rest[i]) {
      assert rest[i] == rules[n + i] && rest[i - 1] == rules[n + i - 1];
    }
  }

  lemma {:induction false} RunOfLeaves(how: Reading, pool: set<Entry>, rules: seq<Rule>, n: nat, context: seq<Entry>, flat: seq<FlatRule>)
    requires OneSpelling(how, pool)
    requires 2 <= n <= |rules| && Mergeable(rules[..n]) && how(rules[0].matches[0].name).AnyOf?
    requires Full(how, rules) && HeadsIn(how, pool, rules) && HeadsDiffer(rules) && Plain(how, context) && Aligned(how, rules, context, flat)
    requires Expand(how, MergeHeads(rules[..n]), context) <= flat
    ensures rules[0].Leaf?
  {
    var group := rules[..n];
    assert group[0] == rules[0] && group[1] == rules[1];
    assert !PrefixMatches(rules[0], rules[1]);
    if rules[0].Block? {
      BlocksInterleave(how, group, context, flat);
    }
  }

  lemma {:induction false} NoRuns()
    ensures LeavesOnly({})
  {
  }

  lemma {:induction false} LeavesOnlyUnion(a: set<Run>, b: set<Run>)
    requires LeavesOnly(a) && LeavesOnly(b)
    ensures LeavesOnly(a + b)
  {
  }

  lemma {:induction false} FactorPassExact(how: Reading, pool: set<Entry>, rules: seq<Rule>, context: seq<Entry>)
    requires MergedOn(FactorRuns(rules), Spreading(how)) && OneSpelling(how, pool)
    requires LeavesOf(how, pool, rules) && Plain(how, context)
    requires ExpandAll(how, FactorPass(rules), context) == ExpandAll(how, rules, context)
    ensures LeavesOnly(FactorRuns(rules))
    decreases HeadEntries(rules), |rules|, 0
  {
    hide Expand, LeavesOf, MergedOn, Spreading, OneSpelling, Plain, Single, LeavesOnly;
    if rules == [] {
      NoRuns();
    } else if rules[0].matches == [] || LeadingRun(rules) == 1 {
      LeavesParts(how, pool, rules, 1);
      SameRest(Expand(how, rules[0], context), ExpandAll(how, FactorPass(rules[1..]), context),
               Expand(how, rules[0], context), ExpandAll(how, rules[1..], context));
      FactorPassExact(how, pool, rules[1..], context);
    } else {
      var n := LeadingRun(rules);
      var e, block := rules[0].matches[0], Optimize(Tails(rules[..n]));
      HeadEntriesSplit(rules, n); HeadEntriesTails(rules[..n]);
      MergedOnUnion(OptimizeRuns(Tails(rules[..n])), FactorRuns(rules[n..]), Spreading(how));
      FactorStepExact(how, rules, n, context, FactorPass(rules[n..]));
      PlainSnoc(how, context, e);
      TailsOf(how, pool, rules, n);
      LeavesParts(how, pool, rules, n);
      OptimizeExact(how, pool, Tails(rules[..n]), context + [e]);
      FactorPassExact(how, pool, rules[n..], context);
      LeavesOnlyUnion(OptimizeRuns(Tails(rules[..n])), FactorRuns(rules[n..]));
    }
  }

  lemma {:induction false} SameRest(a: seq<FlatRule>, b: seq<FlatRule>, c: seq<FlatRule>, d: seq<FlatRule>)
    requires a + b == c + d && |a| == |c|
    ensures a == c && b == d
  {
    assert a == (a + b)[..|a|] && c == (c + d)[..|c|];
    assert b == (a + b)[|a|..] && d == (c + d)[|c|..];
  }

  lemma {:induction false} FactorStepExact(how: Reading, rules: seq<Rule>, n: nat, context: seq<Entry>, rest: seq<Rule>)
    requires 2 <= n <= |rules| && Headed(rules[..n]) && SharedHead(rules[..n], rules[0].matches[0])
    requires MergedOn(OptimizeRuns(Tails(rules[..n])), Spreading(how))
    requires ExpandAll(how, [Factor(rules[0].matches[0], Optimize(Tails(rules[..n])))] + rest, context)
             == ExpandAll(how, rules, context)
    ensures var e, tails := rules[0].matches[0], Tails(rules[..n]);
            ExpandAll(how, Optimize(tails), context + [e]) == ExpandAll(how, tails, context + [e])
    ensures ExpandAll(how, rest, context) == ExpandAll(how, rules[n..], context)
  {
    var e, tails := rules[0].matches[0], Tails(rules[..n]);
    var head := Factor(e, Optimize(tails));
    FactorStepRows(how, rules, n, context);
    hide Expand;
    assert ([head] + rest)[0] == head && ([head] + rest)[1..] == rest;
    SameRest(Expand(how, head, context), ExpandAll(how, rest, context),
             ExpandAll(how, tails, context + [e]), ExpandAll(how, rules[n..], context));
  }

  lemma {:induction false} OptimizeExact(how: Reading, pool: set<Entry>, rules: seq<Rule>, context: seq<Entry>)
    requires MergedOn(OptimizeRuns(rules), Spreading(how)) && OneSpelling(how, pool)
    requires LeavesOf(how, pool, rules) && Plain(how, context)
    requires ExpandAll(how, Optimize(rules), context) == ExpandAll(how, rules, context)
    ensures LeavesOnly(OptimizeRuns(rules))
    decreases HeadEntries(rules), |rules|, 1
  {
    MergedOnUnion(FactorRuns(rules), ArrayRuns(FactorPass(rules)), Spreading(how));
    FactorPassFull(how, pool, rules);
    FactorPassHeads(rules);
    FactorPassAligned(how, pool, rules, context);
    ArrayPassExact(how, pool, FactorPass(rules), context, ExpandAll(how, rules, context));
    ArrayLeavesInOrder(FactorPass(rules));
    ArrayPassOrder(how, FactorPass(rules), context);
    FactorPassExact(how, pool, rules, context);
  }

  // --- arrays that do not unfold cost rows -----------------------------------

  lemma {:induction false} LengthGrows<T>(pre: seq<seq<T>>, x: seq<T>, y: seq<T>, post: seq<seq<T>>)
    requires |x| <= |y|
    ensures LengthProduct(pre + [x] + post) <= LengthProduct(pre + [y] + post)
    decreases |pre|
  {
    if pre == [] {
      assert (pre + [x] + post)[1..] == post && (pre + [y] + post)[1..] == post;
      assert |x| * LengthProduct(post) <= |y| * LengthProduct(post);
    } else {
      assert (pre + [x] + post)[1..] == pre[1..] + [x] + post && (pre + [y] + post)[1..] == pre[1..] + [y] + post;
      LengthGrows(pre[1..], x, y, post);
      var n, m := LengthProduct(pre[1..] + [x] + post), LengthProduct(pre[1..] + [y] + post);
      assert |pre[0]| * n <= |pre[0]| * m;
    }
  }

  /** An option that offers less gives no more rows. */
  lemma {:induction false} FewerRows(how: Reading, rules: seq<Rule>, context: seq<Entry>, e: Entry, f: Entry, post: seq<Entry>)
    requires |Alternatives(how, e)| <= |Alternatives(how, f)|
    ensures |ExpandAll(how, rules, context + [e] + post)| <= |ExpandAll(how, rules, context + [f] + post)|
  {
    if rules != [] {
      var r := rules[0];
      forall x: Entry ensures context + [x] + post + r.matches == context + [x] + (post + r.matches) {}
      if r.Leaf? {
        FewerLeafRows(how, r, context, e, f, post + r.matches);
      } else {
        FewerRows(how, r.body, context, e, f, post + r.matches);
      }
      FewerRows(how, rules[1..], context, e, f, post);
    }
  }

  lemma {:induction false} FewerLeafRows(how: Reading, r: Rule, context: seq<Entry>, e: Entry, f: Entry, inner: seq<Entry>)
    requires |Alternatives(how, e)| <= |Alternatives(how, f)|
    ensures |Product(Choices(how, context + [e] + inner))| <= |Product(Choices(how, context + [f] + inner))|
  {
    ChoicesAround(how, context, e, inner);
    ChoicesAround(how, context, f, inner);
    LengthGrows(Choices(how, context), Alternatives(how, e), Alternatives(how, f), Choices(how, inner));
    ProductSize(Choices(how, context + [e] + inner));
    ProductSize(Choices(how, context + [f] + inner));
  }

  /** A gathered array that does not unfold offers no more than the head it replaces. */
  lemma {:induction false} GatheredOffers(how: Reading, group: seq<Rule>)
    requires Mergeable(group) && |group| > 1 && !how(group[0].matches[0].name).AnyOf?
    requires Single(how, group[0].matches[0])
    ensures |Alternatives(how, Entry(group[0].matches[0].name, List(Gather(group))))| <= 1
  {
  }

  lemma {:induction false} MergedRows(how: Reading, group: seq<Rule>, context: seq<Entry>)
    requires Mergeable(group) && |group| > 1 && Single(how, group[0].matches[0])
    ensures |Expand(how, MergeHeads(group), context)| <= |ExpandAll(how, group, context)|
    ensures Full(how, group) && Plain(how, context) && !how(group[0].matches[0].name).AnyOf? ==>
              |Expand(how, MergeHeads(group), context)| < |ExpandAll(how, group, context)|
  {
    var e, tail := group[0].matches[0], Tail(group[0]);
    var w := Entry(e.name, List(Gather(group)));
    if how(e.name).AnyOf? {
      RunSize(how, group, context);
    } else {
      hide Expand;
      GatheredOffers(how, group);
      FewerRows(how, [tail], context, w, e, []);
      forall x: Entry ensures context + [x] + [] == context + [x] {}
      assert MergeHeads(group) == Prepend(w, tail) && group[0] == Prepend(e, tail);
      ExpandPrepend(how, w, tail, context);
      ExpandPrepend(how, e, tail, context);
      forall x: Entry ensures ExpandAll(how, [tail], context + [x]) == Expand(how, tail, context + [x]) + [] {}
      if Full(how, group) && Plain(how, context) {
        assert group == [group[0]] + group[1..];
        FullAppend(how, [group[0]], group[1..]);
        PlainOffers(how, context);
        FullExpands(how, group[1..], context);
      }
    }
  }

  lemma {:induction false} PlainOffers(how: Reading, context: seq<Entry>)
    requires Plain(how, context)
    ensures Offers(how, context)
  {
  }

  lemma {:induction false} ArrayPassRows(how: Reading, pool: set<Entry>, rules: seq<Rule>, context: seq<Entry>)
    requires HeadsIn(how, pool, rules)
    ensures |ExpandAll(how, ArrayPass(rules), context)| <= |ExpandAll(how, rules, context)|
    ensures Full(how, rules) && Plain(how, context) && !MergedOn(ArrayRuns(rules), Spreading(how)) ==>
              |ExpandAll(how, ArrayPass(rules), context)| < |ExpandAll(how, rules, context)|
  {
    hide Expand, HeadsIn, Full, Plain, MergedOn, Spreading;
    if rules == [] {
      NoneMerged(how);
    } else {
      var n := MergeRun(rules);
      HeadsParts(how, pool, rules, n);
      ArrayRunsUnfold(rules, Spreading(how));
      ArrayPassRows(how, pool, rules[n..], context);
      ExpandSplit(how, rules[..n], rules[n..], context);
      assert rules[..n] + rules[n..] == rules;
      FullAppend(how, rules[..n], rules[n..]);
      if n == 1 {
        assert ExpandAll(how, rules[..1], context) == Expand(how, rules[0], context) + [];
      } else {
        MergedRows(how, rules[..n], context);
        SpreadingHead(how, rules[0]);
      }
    }
  }

  lemma {:induction false} NoneMerged(how: Reading)
    ensures MergedOn({}, Spreading(how))
  {
  }

  lemma {:induction false} SpreadingHead(how: Reading, r: Rule)
    requires r.matches != []
    ensures r.matches[0].name in Spreading(how) <==> how(r.matches[0].name).AnyOf?
  {
  }

  lemma {:induction false} HeadsParts(how: Reading, pool: set<Entry>, rules: seq<Rule>, n: nat)
    requires HeadsIn(how, pool, rules) && 1 <= n <= |rules|
    ensures HeadsIn(how, pool, rules[n..])
    ensures rules[0].matches != [] ==> Single(how, rules[0].matches[0])
  {
    assert forall i :: n <= i < |rules| ==> rules[n..][i - n] == rules[i];
  }

  lemma {:induction false} FactorPassHeadsIn(how: Reading, pool: set<Entry>, rules: seq<Rule>)
    requires LeavesOf(how, pool, rules)
    ensures HeadsIn(how, pool, FactorPass(rules))
    decreases |rules|
  {
    hide HeadsIn, LeavesOf, Single;
    if rules == [] {
      NothingFull(how, pool);
    } else {
      LeavesParts(how, pool, rules, 1);
      if rules[0].matches == [] || LeadingRun(rules) == 1 {
        FactorPassHeadsIn(how, pool, rules[1..]);
        HeadsCons(how, pool, rules[0], FactorPass(rules[1..]));
      } else {
        var n := LeadingRun(rules);
        LeavesParts(how, pool, rules, n);
        FactorPassHeadsIn(how, pool, rules[n..]);
        HeadsCons(how, pool, Factor(rules[0].matches[0], Optimize(Tails(rules[..n]))), FactorPass(rules[n..]));
      }
    }
  }

  lemma {:induction false} HeadsCons(how: Reading, pool: set<Entry>, r: Rule, rest: seq<Rule>)
    requires HeadsIn(how, pool, rest) && (r.matches != [] ==> Single(how, r.matches[0]) && r.matches[0] in pool)
    ensures HeadsIn(how, pool, [r] + rest)
  {
    var all := [r] + rest;
    assert all[0] == r && forall i :: 0 <= i < |rest| ==> all[i + 1] == rest[i];
  }

  lemma {:induction false} StepRows(how: Reading, rules: seq<Rule>, n: nat, block: seq<Rule>, rest: seq<Rule>, context: seq<Entry>)
    requires 2 <= n <= |rules| && Headed(rules[..n]) && SharedHead(rules[..n], rules[0].matches[0])
    ensures var e := rules[0].matches[0];
            && |ExpandAll(how, [Factor(e, block)] + rest, context)|
               == |ExpandAll(how, block, context + [e])| + |ExpandAll(how, rest, context)|
            && |ExpandAll(how, rules, context)|
               == |ExpandAll(how, Tails(rules[..n]), context + [e])| + |ExpandAll(how, rules[n..], context)|
  {
    hide Expand, Factor;
    var e, head := rules[0].matches[0], Factor(rules[0].matches[0], block);
    ExpandFactor(how, e, block, context);
    ExpandTails(how, rules[..n], e, context);
    ExpandSplit(how, rules[..n], rules[n..], context);
    assert rules[..n] + rules[n..] == rules;
    assert ([head] + rest)[0] == head && ([head] + rest)[1..] == rest;
  }

  lemma {:induction false} FactorPassRows(how: Reading, pool: set<Entry>, rules: seq<Rule>, context: seq<Entry>)
    requires LeavesOf(how, pool, rules) && Plain(how, context)
    ensures |ExpandAll(how, FactorPass(rules), context)| <= |ExpandAll(how, rules, context)|
    ensures !MergedOn(FactorRuns(rules), Spreading(how)) ==>
              |ExpandAll(how, FactorPass(rules), context)| < |ExpandAll(how, rules, context)|
    decreases HeadEntries(rules), |rules|, 0
  {
    hide Expand, LeavesOf, Plain, MergedOn, Spreading, Single;
    if rules == [] {
      NoneMerged(how);
    } else if rules[0].matches == [] || LeadingRun(rules) == 1 {
      LeavesParts(how, pool, rules, 1);
      FactorPassRows(how, pool, rules[1..], context);
    } else {
      var n := LeadingRun(rules);
      var e := rules[0].matches[0];
      HeadEntriesSplit(rules, n); HeadEntriesTails(rules[..n]);
      LeavesParts(how, pool, rules, n);
      TailsOf(how, pool, rules, n);
      PlainSnoc(how, context, e);
      OptimizeRows(how, pool, Tails(rules[..n]), context + [e]);
      FactorPassRows(how, pool, rules[n..], context);
      StepRows(how, rules, n, Optimize(Tails(rules[..n])), FactorPass(rules[n..]), context);
      MergedOnUnion(OptimizeRuns(Tails(rules[..n])), FactorRuns(rules[n..]), Spreading(how));
    }
  }

  /** The optimised list has no more rows, and fewer as soon as an array is made that does not unfold. */
  lemma {:induction false} OptimizeRows(how: Reading, pool: set<Entry>, rules: seq<Rule>, context: seq<Entry>)
    requires LeavesOf(how, pool, rules) && Plain(how, context)
    ensures |ExpandAll(how, Optimize(rules), context)| <= |ExpandAll(how, rules, context)|
    ensures !MergedOn(OptimizeRuns(rules), Spreading(how)) ==>
              |ExpandAll(how, Optimize(rules), context)| < |ExpandAll(how, rules, context)|
    decreases HeadEntries(rules), |rules|, 1
  {
    hide LeavesOf, Plain, MergedOn, Spreading, HeadsIn, Full;
    FactorPassRows(how, pool, rules, context);
    FactorPassHeadsIn(how, pool, rules);
    if MergedOn(FactorRuns(rules), Spreading(how)) {
      FactorPassFull(how, pool, rules);
    }
    ArrayPassRows(how, pool, FactorPass(rules), context);
    MergedOnUnion(FactorRuns(rules), ArrayRuns(FactorPass(rules)), Spreading(how));
  }

  function OptionsOf(rules: seq<Rule>): set<Entry> {
    set i, k | 0 <= i < |rules| && 0 <= k < |rules[i].matches| :: rules[i].matches[k]
  }

  /**
   * Rules that stand for one flat rule each, with one spelling per option: the optimiser keeps the
   * very list of flat rules, order included, if and only if pass 2, at any depth, merges only runs
   * of leaves, and only on options whose arrays unfold.
   */
  lemma {:induction false} OptimizeOrder(how: Reading, rules: seq<Rule>, context: seq<Entry>)
    requires PlainLeaves(how, rules) && OneSpelling(how, OptionsOf(rules)) && Plain(how, context)
    ensures ExpandAll(how, Optimize(rules), context) == ExpandAll(how, rules, context)
            <==> LeavesOnly(OptimizeRuns(rules)) && MergedOn(OptimizeRuns(rules), Spreading(how))
  {
    var pool, runs := OptionsOf(rules), OptimizeRuns(rules);
    assert LeavesOf(how, pool, rules);
    hide LeavesOf, PlainLeaves, Plain, MergedOn, LeavesOnly, OneSpelling, Expand, OptimizeRuns, Optimize;
    OptimizeRows(how, pool, rules, context);
    if MergedOn(runs, Spreading(how)) {
      if LeavesOnly(runs) {
        OptimizeLeavesInOrder(how, pool, rules);
        OptimizeInOrderKeeps(how, rules, context);
      } else if ExpandAll(how, Optimize(rules), context) == ExpandAll(how, rules, context) {
        OptimizeExact(how, pool, rules, context);
      }
    }
  }
}
