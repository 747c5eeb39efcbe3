/**
 * What becomes of two equal blocks side by side: `n=a` and `n=b`, each in front of the same two
 * actions, end up as one block behind `n=(a b)`.
 */
module RuleTreeTwins {
  import opened RuleTree
  import opened RuleTreeSize
  import opened RuleTreeMerges
  import opened RuleTreeReading
  import opened RuleTreeFlat
  import opened RuleTreeOrder
  import opened RuleTreeInterleave

  function Two(u: Meta, v: Meta): seq<Rule> {
    [Leaf([], u), Leaf([], v)]
  }

  function Pair(e: Entry, u: Meta, v: Meta): seq<Rule> {
    [Leaf([e], u), Leaf([e], v)]
  }

  lemma {:induction false} PairLeads(e: Entry, u: Meta, v: Meta, rest: seq<Rule>)
    requires rest != [] ==> rest[0].matches != [] && rest[0].matches[0] != e
    ensures var rules := Pair(e, u, v) + rest;
            && rules[0] == Leaf([e], u) && LeadingRun(rules) == 2 && rules[2..] == rest
            && Headed(rules[..2]) && Tails(rules[..2]) == Two(u, v)
  {
    var rules := Pair(e, u, v) + rest;
    assert rules[0] == Leaf([e], u) && rules[1] == Leaf([e], v);
    assert rules[1..] == [Leaf([e], v)] + rest && rules[1..][0] == rules[1] && rules[1..][1..] == rest;
    assert PrefixMatches(rules[0], rules[1..][0]);
    assert PrefixCount(rules[0], rest) == 0;
    assert PrefixCount(rules[0], rules[1..]) == 1 + PrefixCount(rules[0], rules[1..][1..]);
    assert rules[..2] == Pair(e, u, v);
    assert [e][1..] == [];
  }

  lemma {:induction false} PairFactors(e: Entry, u: Meta, v: Meta, rest: seq<Rule>)
    requires rest != [] ==> rest[0].matches != [] && rest[0].matches[0] != e
    ensures FactorPass(Pair(e, u, v) + rest) == [Block([e], Two(u, v))] + FactorPass(rest)
  {
    PairLeads(e, u, v, rest);
    OptimizeHeadless(Two(u, v));
  }

  lemma {:induction false} OneFactors(r: Rule)
    ensures FactorPass([r]) == [r]
  {
    assert [r][1..] == [];
    assert FactorPass([]) == [];
  }

  /** Two equal blocks, and perhaps a leaf behind them that is no block. */
  lemma {:induction false} TwinsFactor(name: string, a: Value, b: Value, u: Meta, v: Meta, more: seq<Rule>)
    requires a != b && |more| <= 1
    requires more != [] ==> more[0].matches != [] && more[0].matches[0] != Entry(name, b)
    ensures FactorPass(Pair(Entry(name, a), u, v) + (Pair(Entry(name, b), u, v) + more))
            == [Block([Entry(name, a)], Two(u, v)), Block([Entry(name, b)], Two(u, v))] + more
  {
    var second := Pair(Entry(name, b), u, v) + more;
    assert second[0] == Leaf([Entry(name, b)], u);
    PairFactors(Entry(name, a), u, v, second);
    PairFactors(Entry(name, b), u, v, more);
    if more == [] {
      assert FactorPass(more) == [];
    } else {
      assert more == [more[0]];
      OneFactors(more[0]);
    }
  }

  lemma {:induction false} TwinsMerge(name: string, a: Value, b: Value, u: Meta, v: Meta, more: seq<Rule>)
    requires CanJoinArray(a) && CanJoinArray(b) && |more| <= 1 && (more != [] ==> more[0].Leaf?)
    ensures var twins := [Block([Entry(name, a)], Two(u, v)), Block([Entry(name, b)], Two(u, v))];
            && MergeRun(twins + more) == 2
            && ArrayPass(twins + more) == [Block([Entry(name, List(ValueItems(a) + ValueItems(b)))], Two(u, v))] + more
  {
    var x, y := Block([Entry(name, a)], Two(u, v)), Block([Entry(name, b)], Two(u, v));
    var all := [x, y] + more;
    assert all[0] == x && all[1..] == [y] + more && all[1..][1..] == more;
    assert Tail(x) == Block([], Two(u, v)) == Tail(y);
    assert ArrayMatches(x, y);
    if more != [] { assert Tail(x).Block? && more[0].Leaf?; }
    assert ArrayRun(x, more) == 0;
    assert ArrayRun(x, all[1..]) == 1 + ArrayRun(x, all[1..][1..]);
    assert MergeRun(all) == 2;
    assert all[..2] == [x, y] && all[2..] == more;
    assert [x, y][1..] == [y] && [y][1..] == [];
    assert Gather([y]) == ValueItems(b) + Gather([]);
    assert Gather([x, y]) == ValueItems(a) + ValueItems(b);
    if more != [] {
      assert more[1..] == [];
      assert MergeRun(more) == 1;
      assert ArrayPass(more) == [more[0]] + ArrayPass([]);
    }
    var both := Entry(name, List(ValueItems(a) + ValueItems(b)));
    assert [both] + [] == [both];
    assert MergeHeads([x, y]) == Block([both], Two(u, v));
    assert ArrayPass(all) == [MergeHeads([x, y])] + ArrayPass(more);
  }

  /** A source address as the importer reads it: a list, of one item here. */
  function Source(text: string): Entry {
    Entry("saddr", List([Scalar(text)]))
  }

  /**
   * Source `a`, `a`, `b`, `b` with two alternating actions: the optimiser merges the two blocks, and the
   * flat rules come out in another order.
   */
  lemma {:induction false} OrderCanChange(how: Reading, u: Meta, v: Meta, context: seq<Entry>)
    requires how("saddr").AnyOf? && Plain(how, context)
    ensures var rules := Pair(Source("a"), u, v) + Pair(Source("b"), u, v);
            && PlainLeaves(how, rules)
            && Optimize(rules) == [Block([Entry("saddr", List([Scalar("a"), Scalar("b")]))], Two(u, v))]
            && ExpandAll(how, Optimize(rules), context) != ExpandAll(how, rules, context)
  {
    var a, b := Source("a"), Source("b");
    var rules, twins := Pair(a, u, v) + Pair(b, u, v), [Block([a], Two(u, v)), Block([b], Two(u, v))];
    assert Pair(b, u, v) + [] == Pair(b, u, v);
    TwinsFactor("saddr", a.value, b.value, u, v, []);
    TwinsMerge("saddr", a.value, b.value, u, v, []);
    assert twins + [] == twins && FactorPass(rules) == twins;
    assert ValueItems(a.value) + ValueItems(b.value) == [Scalar("a"), Scalar("b")];
    assert Optimize(rules) == ArrayPass(twins);
    TwinRuns(a, b, u, v);
    SourcesPlain(how, u, v);
    OptimizeOrder(how, rules, context);
  }

  /** The only run that is merged is the one of the two blocks. */
  lemma {:induction false} TwinRuns(a: Entry, b: Entry, u: Meta, v: Meta)
    requires a.name == b.name && a != b && CanJoinArray(a.value) && CanJoinArray(b.value)
    ensures OptimizeRuns(Pair(a, u, v) + Pair(b, u, v)) == {[Block([a], Two(u, v)), Block([b], Two(u, v))]}
  {
    var rules, twins := Pair(a, u, v) + Pair(b, u, v), [Block([a], Two(u, v)), Block([b], Two(u, v))];
    assert Pair(b, u, v) + [] == Pair(b, u, v) && twins + [] == twins;
    TwinsFactor(a.name, a.value, b.value, u, v, []);
    TwinsMerge(a.name, a.value, b.value, u, v, []);
    assert twins[..2] == twins && twins[2..] == [];
    assert ArrayRuns(twins) == {twins} + ArrayRuns([]);
    PairRuns(a, u, v, Pair(b, u, v));
    PairRuns(b, u, v, []);
    assert FactorRuns([]) == {};
  }

  lemma {:induction false} PairRuns(e: Entry, u: Meta, v: Meta, rest: seq<Rule>)
    requires rest != [] ==> rest[0].matches != [] && rest[0].matches[0] != e
    ensures FactorRuns(Pair(e, u, v) + rest) == FactorRuns(rest)
  {
    var rules := Pair(e, u, v) + rest;
    PairLeads(e, u, v, rest);
    OptimizeHeadless(Two(u, v));
    HeadlessRuns(Two(u, v));
  }

  lemma {:induction false} HeadlessRuns(rules: seq<Rule>)
    requires Headless(rules)
    ensures OptimizeRuns(rules) == {}
  {
    HeadlessFactorRuns(rules);
    FactorPassHeadless(rules);
    HeadlessArrayRuns(rules);
  }

  lemma {:induction false} HeadlessFactorRuns(rules: seq<Rule>)
    requires Headless(rules)
    ensures FactorRuns(rules) == {}
    decreases |rules|
  {
    if rules != [] { HeadlessFactorRuns(rules[1..]); }
  }

  lemma {:induction false} HeadlessArrayRuns(rules: seq<Rule>)
    requires Headless(rules)
    ensures ArrayRuns(rules) == {}
  {
    if rules != [] { HeadlessArrayRuns(rules[1..]); }
  }

  lemma {:induction false} SourcesPlain(how: Reading, u: Meta, v: Meta)
    requires how("saddr").AnyOf?
    ensures var rules := Pair(Source("a"), u, v) + Pair(Source("b"), u, v);
            PlainLeaves(how, rules) && OneSpelling(how, OptionsOf(rules))
  {
    forall text: string ensures Alternatives(how, Source(text)) == [One("saddr", Scalar(text))] {}
    var rules := Pair(Source("a"), u, v) + Pair(Source("b"), u, v);
    forall e | e in OptionsOf(rules) ensures e == Source("a") || e == Source("b") {}
    assert One("saddr", Scalar("a")) != One("saddr", Scalar("b"));
  }

  /** A headless block beside a rule without matches holds all entries, and optimising changes nothing. */
  lemma {:induction false} HeadlessBlockStays(body: seq<Rule>, m: Meta)
    ensures var rules := [Block([], body), Leaf([], m)];
            Optimize(rules) == rules && EntriesAll(rules[0].body) == EntriesAll(rules)
  {
    var rules := [Block([], body), Leaf([], m)];
    OptimizeHeadless(rules);
    assert rules[1..] == [Leaf([], m)] && [Leaf([], m)][1..] == [];
    assert EntriesAll(rules[1..]) == Entries(Leaf([], m)) + EntriesAll([]);
  }

  /** The flat rules `p x=1`, `p x=1`, `p x=2`, `p x=2`, `p x=(1 2)`, the first four with alternating actions. */
  function FiveRules(p: Entry, u: Meta, v: Meta, m: Meta): seq<Rule> {
    var one, two := Entry("x", Scalar("1")), Entry("x", Scalar("2"));
    [Leaf([p, one], u), Leaf([p, one], v), Leaf([p, two], u), Leaf([p, two], v),
     Leaf([p, Entry("x", List([Scalar("1"), Scalar("2")]))], m)]
  }

  lemma {:induction false} SharedFactors(rules: seq<Rule>, e: Entry)
    requires |rules| >= 2 && SharedHead(rules, e)
    ensures FactorPass(rules) == [Factor(e, Optimize(Tails(rules)))]
  {
    PrefixCountIsRun(rules[0], rules[1..]);
    forall i | 0 <= i < |rules| - 1 ensures PrefixMatches(rules[0], rules[1..][i]) { assert rules[1..][i] == rules[i + 1]; }
    assert LeadingRun(rules) == |rules|;
    assert rules[..|rules|] == rules && rules[|rules|..] == [];
    assert FactorPass([]) == [];
  }

  lemma {:induction false} OneStays(r: Rule)
    ensures ArrayPass([r]) == [r]
  {
    assert [r][1..] == [];
    assert ArrayPass([]) == [];
  }

  lemma {:induction false} FiveTails(p: Entry, u: Meta, v: Meta, m: Meta)
    ensures var one, two, both := Entry("x", Scalar("1")), Entry("x", Scalar("2")), Entry("x", List([Scalar("1"), Scalar("2")]));
            var rules := FiveRules(p, u, v, m);
            SharedHead(rules, p) && Tails(rules) == Pair(one, u, v) + (Pair(two, u, v) + [Leaf([both], m)])
  {
    var rules := FiveRules(p, u, v, m);
    forall i | 0 <= i < 5 ensures Tail(rules[i]).matches == [rules[i].matches[1]] {}
  }

  lemma {:induction false} FiveOptimize(p: Entry, u: Meta, v: Meta, m: Meta)
    ensures var both := Entry("x", List([Scalar("1"), Scalar("2")]));
            Optimize(FiveRules(p, u, v, m)) == [Block([p], [Block([both], Two(u, v)), Leaf([both], m)])]
  {
    var one, two, both := Entry("x", Scalar("1")), Entry("x", Scalar("2")), Entry("x", List([Scalar("1"), Scalar("2")]));
    var more, first := [Leaf([both], m)], [Block([both], Two(u, v)), Leaf([both], m)];
    FiveTails(p, u, v, m);
    SharedFactors(FiveRules(p, u, v, m), p);
    TwinsFactor("x", Scalar("1"), Scalar("2"), u, v, more);
    TwinsMerge("x", Scalar("1"), Scalar("2"), u, v, more);
    assert ValueItems(one.value) + ValueItems(two.value) == [Scalar("1"), Scalar("2")];
    hide ArrayPass, FactorPass;
    assert Optimize(Pair(one, u, v) + (Pair(two, u, v) + more)) == first;
    OneStays(Block([p], first));
  }

  /** A shared head in front of rules without a match becomes a block around them. */
  lemma {:induction false} HeadOptimizes(e: Entry, rules: seq<Rule>, tails: seq<Rule>)
    requires |rules| >= 2 && SharedHead(rules, e) && Tails(rules) == tails && Headless(tails)
    ensures Optimize(rules) == [Block([e], tails)]
  {
    OptimizeHeadless(tails);
    SharedFactors(rules, e);
    OneStays(Block([e], tails));
  }

  /**
   * An input that leads to such a list: its block is optimised twice on the way to the file, and
   * the third time the block handed on holds as many entries as the list it came from.
   */
  lemma {:induction false} HeadlessBlockReached(p: Entry, u: Meta, v: Meta, m: Meta)
    ensures var both := Entry("x", List([Scalar("1"), Scalar("2")]));
            var first := [Block([both], Two(u, v)), Leaf([both], m)];
            var second := [Block([], Two(u, v)), Leaf([], m)];
            && Optimize(FiveRules(p, u, v, m)) == [Block([p], first)]
            && Optimize(first) == [Block([both], second)]
            && Optimize(second) == second && HoldsAll(second, 0)
  {
    var both := Entry("x", List([Scalar("1"), Scalar("2")]));
    var first, second := [Block([both], Two(u, v)), Leaf([both], m)], [Block([], Two(u, v)), Leaf([], m)];
    FiveOptimize(p, u, v, m);
    assert [both][1..] == [];
    assert Tails(first) == second;
    HeadOptimizes(both, first, second);
    HeadlessBlockStays(Two(u, v), m);
    assert second[..0] == [] && second[1..] == [Leaf([], m)] && [Leaf([], m)][1..] == [];
    assert EntriesAll(second[1..]) == Entries(Leaf([], m)) + EntriesAll([]);
  }

  // --- two leaves that differ in one option ------------------------------------

  /** Two leaves with different joinable heads and one tail become one array-headed leaf. */
  lemma {:induction false} PairMerges(x: Entry, y: Entry, tail: Rule)
    requires tail.Leaf? && tail.meta.matchKeywords.None?
    requires CanJoinArray(x.value) && CanJoinArray(y.value) && x.name == y.name && x != y
    ensures Optimize([Prepend(x, tail), Prepend(y, tail)])
            == [Prepend(Entry(x.name, List(ValueItems(x.value) + ValueItems(y.value))), tail)]
  {
    var a, b := Prepend(x, tail), Prepend(y, tail);
    assert Tail(a) == tail == Tail(b);
    assert [a, b][1..] == [b] && [b][1..] == [];
    assert LeadingRun([a, b]) == 1 && LeadingRun([b]) == 1;
    assert FactorPass([b]) == [b] + FactorPass([]);
    assert FactorPass([a, b]) == [a, b];
    PairGathers(a, b);
    assert ArrayRun(a, [b]) == 1 + ArrayRun(a, []);
    assert [a, b][..2] == [a, b] && [a, b][2..] == [];
    assert ArrayPass([a, b]) == [MergeHeads([a, b])] + ArrayPass([]);
  }

  lemma {:induction false} PairGathers(a: Rule, b: Rule)
    requires a.matches != [] && b.matches != []
    ensures Gather([a, b]) == ValueItems(a.matches[0].value) + ValueItems(b.matches[0].value)
  {
    assert [a, b][1..] == [b] && [b][1..] == [];
    assert Gather([b]) == ValueItems(b.matches[0].value) + Gather([]);
  }

  /** The same behind a common first match: the merged rule takes it back. */
  lemma {:induction false} SharedPairMerges(e: Entry, x: Entry, y: Entry, meta: Meta)
    requires meta.matchKeywords.None?
    requires CanJoinArray(x.value) && CanJoinArray(y.value) && x.name == y.name && x != y
    ensures var merged := Leaf([e, Entry(x.name, List(ValueItems(x.value) + ValueItems(y.value)))], meta);
            Optimize([Leaf([e, x], meta), Leaf([e, y], meta)]) == [merged] && Flush([Leaf([e, x], meta), Leaf([e, y], meta)]) == [merged]
  {
    var rules, tail := [Leaf([e, x], meta), Leaf([e, y], meta)], Leaf([], meta);
    var both := Entry(x.name, List(ValueItems(x.value) + ValueItems(y.value)));
    assert [e, x][1..] == [x] && [e, y][1..] == [y];
    assert Prepend(x, tail) == Leaf([x], meta) && Prepend(y, tail) == Leaf([y], meta);
    assert Tails(rules) == [Prepend(x, tail), Prepend(y, tail)];
    PairMerges(x, y, tail);
    SharedFactors(rules, e);
    OneFlushed(e, both, rules, meta);
  }

  lemma {:induction false} OneFlushed(e: Entry, both: Entry, rules: seq<Rule>, meta: Meta)
    requires FactorPass(rules) == [Factor(e, [Prepend(both, Leaf([], meta))])]
    ensures Optimize(rules) == [Leaf([e, both], meta)] && Flush(rules) == [Leaf([e, both], meta)]
  {
    var r := Leaf([e, both], meta);
    assert [e] + ([both] + []) == [e, both];
    assert Factor(e, [Prepend(both, Leaf([], meta))]) == r;
    OneStays(r);
    OptimizeSize(rules);
    assert [r][1..] == [];
    assert FlushEach([r]) == [r] + FlushEach([]);
  }
}
