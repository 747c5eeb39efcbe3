/** Small imports on which the emitted file does not mean what its lines mean. */
module RuleTreeCases {
  import opened Seqs
  import opened RuleTree
  import opened RuleTreeSize
  import opened RuleTreeReading
  import opened RuleTreeMeaning
  import opened RuleTreeTwins
  import opened RuleParse
  import opened RuleTreeGuard
  import opened RuleTreeImport

  const NO_TABLES: Tables := Tables(map[], map[], map[], map[], {}, map[])

  // --- a module ahead of its protocol ---------------------------------------

  /** `-m icmpv6 -p icmpv6 -m icmp6` and the same with the modules swapped. */
  function Disorderly(first: string, second: string): seq<Opt> {
    [Match(first), Protocol(Scalar("icmpv6")), Match(second)]
  }

  lemma {:induction false} DisorderlyParse(first: string, second: string)
    requires (first == "icmpv6" && second == "icmp6") || (first == "icmp6" && second == "icmpv6")
    ensures Parse(NO_TABLES, Disorderly(first, second))
            == Leaf([Entry("mod", Scalar(first)), Entry("protocol", Scalar("icmpv6"))],
                    Meta(map[], {first, second}, Some(Scalar("icmpv6")), None, None, None, None))
  {
    var t, opts := NO_TABLES, Disorderly(first, second);
    var d1 := Step(t, Fresh(t), opts[0]);
    var d2 := Step(t, d1, opts[1]);
    var d3 := Step(t, d2, opts[2]);
    assert opts[1..] == [opts[1], opts[2]] && opts[1..][1..] == [opts[2]] && [opts[2]][1..] == [];
    assert ParseFrom(t, d2, [opts[2]]) == ParseFrom(t, d3, []);
    assert ParseFrom(t, Fresh(t), opts) == ParseFrom(t, d1, opts[1..]) == ParseFrom(t, d2, [opts[2]]);
  }

  lemma {:induction false} DisorderOptimizes()
    ensures var rules := ParseLines(NO_TABLES, [Disorderly("icmpv6", "icmp6"), Disorderly("icmp6", "icmpv6")]);
            var meta := Meta(map[], {"icmp6", "icmpv6"}, Some(Scalar("icmpv6")), None, None, None, None);
            var both := List([Scalar("icmpv6"), Scalar("icmp6")]);
            && rules[0] == Leaf([Entry("mod", Scalar("icmpv6")), Entry("protocol", Scalar("icmpv6"))], meta)
            && Optimize(rules) == [Leaf([Entry("mod", both), Entry("protocol", Scalar("icmpv6"))], meta)]
  {
    var rules := ParseLines(NO_TABLES, [Disorderly("icmpv6", "icmp6"), Disorderly("icmp6", "icmpv6")]);
    DisorderlyParse("icmpv6", "icmp6");
    DisorderlyParse("icmp6", "icmpv6");
    var meta := Meta(map[], {"icmp6", "icmpv6"}, Some(Scalar("icmpv6")), None, None, None, None);
    var tail := Leaf([Entry("protocol", Scalar("icmpv6"))], meta);
    var x, y := Entry("mod", Scalar("icmpv6")), Entry("mod", Scalar("icmp6"));
    PairMerges(x, y, tail);
    assert {"icmp6", "icmpv6"} == {"icmpv6", "icmp6"};
    assert rules[0] == Prepend(x, tail) && rules[1] == Prepend(y, tail);
    assert rules == [Prepend(x, tail), Prepend(y, tail)];
    assert ValueItems(x.value) + ValueItems(y.value) == [Scalar("icmpv6"), Scalar("icmp6")];
    var both := Entry("mod", List([Scalar("icmpv6"), Scalar("icmp6")]));
    assert Prepend(both, tail).matches == [both, Entry("protocol", Scalar("icmpv6"))];
  }

  /**
   * One protocol and no repeated module is not enough: when a module is named before the
   * protocol that covers it, two rules can agree in all metadata and differ in a `mod` head.
   * Merged, the array loads both modules and a packet one rule accepted is accepted no more.
   */
  lemma {:induction false} DisorderMergesModules()
    ensures var rules := ParseLines(NO_TABLES, [Disorderly("icmpv6", "icmp6"), Disorderly("icmp6", "icmpv6")]);
            var p := Packet((name, value) => value != Scalar("icmp6"), ReadingOf(map[]));
            var accept: Policy<bool> := meta => Some(true);
            && !NoKeyArrays(Optimize(rules))
            && FirstMatch(rules, p, accept) == Some(true)
            && FirstMatch(Optimize(rules), p, accept) == None
  {
    DisorderOptimizes();
    var rules := ParseLines(NO_TABLES, [Disorderly("icmpv6", "icmp6"), Disorderly("icmp6", "icmpv6")]);
    var a, merged := rules[0], Optimize(rules)[0];
    var p := Packet((name, value) => value != Scalar("icmp6"), ReadingOf(map[]));
    var accept: Policy<bool> := meta => Some(true);
    assert !NoKeyArrays(Optimize(rules)) by { assert IsKey(merged.matches[0].name); }
    assert !p.accepts("mod", merged.matches[0].value.items[1]);
    assert !Holds(p, merged.matches[0]);
    assert FirstMatch(Optimize(rules)[1..], p, accept) == None;
    assert Holds(p, a.matches[0]) && Holds(p, a.matches[1]);
    assert AllHold(p, a.matches);
  }

  // --- two lines that differ in one option of a module -----------------------

  function OneModule(mod: string, table: Keywords): Tables {
    Tables(map[], map[], map[mod := table], map[], {}, map[])
  }

  /** `-m mod --option value -g web` */
  function OptionLine(mod: string, option: string, value: Value): seq<Opt> {
    [Match(mod), Known(option, option, value), Goto("web")]
  }

  function OptionMeta(mod: string, table: Keywords): Meta {
    Meta(table, {mod}, None, None, Some("web"), None, None)
  }

  lemma {:induction false} OptionLineParse(mod: string, table: Keywords, option: string, value: Value)
    requires mod != "icmp6" && !value.Multi?
    ensures Parse(OneModule(mod, table), OptionLine(mod, option, value))
            == Leaf([Entry("mod", Scalar(mod)), Entry(option, value)], OptionMeta(mod, table))
  {
    var t, opts := OneModule(mod, table), OptionLine(mod, option, value);
    var d1 := Step(t, Fresh(t), opts[0]);
    assert map[] + table == table;
    assert d1 == Draft([Entry("mod", Scalar(mod))], Meta(table, {mod}, None, None, None, None, None));
    var d2 := Step(t, d1, opts[1]);
    var d3 := Step(t, d2, opts[2]);
    assert opts[1..] == [opts[1], opts[2]] && opts[1..][1..] == [opts[2]] && [opts[2]][1..] == [];
    assert ParseFrom(t, d2, [opts[2]]) == ParseFrom(t, d3, []);
    assert ParseFrom(t, Fresh(t), opts) == ParseFrom(t, d1, opts[1..]) == ParseFrom(t, d2, [opts[2]]);
  }

  lemma {:induction false} OptionLineOrderly(mod: string, table: Keywords, option: string, value: Value)
    requires !IsKey(option)
    ensures Orderly(OneModule(mod, table), Fresh(OneModule(mod, table)), OptionLine(mod, option, value))
  {
    var t, opts := OneModule(mod, table), OptionLine(mod, option, value);
    var d1 := Step(t, Fresh(t), opts[0]);
    var d2 := Step(t, d1, opts[1]);
    assert opts[1..] == [opts[1], opts[2]] && opts[1..][1..] == [opts[2]] && [opts[2]][1..] == [];
    assert Orderly(t, Step(t, d2, opts[2]), []);
    assert Orderly(t, d2, [opts[2]]);
    assert Orderly(t, d1, opts[1..]);
  }

  /** The options of the two lines are gathered into one, whatever the keyword's arity: nothing was jumped to. */
  lemma {:induction false} OptionLinesMerge(mod: string, table: Keywords, option: string, v: Value, w: Value)
    requires mod != "icmp6" && CanJoinArray(v) && CanJoinArray(w) && v != w
    ensures var rules := ParseLines(OneModule(mod, table), [OptionLine(mod, option, v), OptionLine(mod, option, w)]);
            var first := Entry("mod", Scalar(mod));
            && rules == [Leaf([first, Entry(option, v)], OptionMeta(mod, table)), Leaf([first, Entry(option, w)], OptionMeta(mod, table))]
            && Flush(rules) == [Leaf([first, Entry(option, List(ValueItems(v) + ValueItems(w)))], OptionMeta(mod, table))]
  {
    var t := OneModule(mod, table);
    var rules := ParseLines(t, [OptionLine(mod, option, v), OptionLine(mod, option, w)]);
    OptionLineParse(mod, table, option, v);
    OptionLineParse(mod, table, option, w);
    var first, meta := Entry("mod", Scalar(mod)), OptionMeta(mod, table);
    assert rules == [Leaf([first, Entry(option, v)], meta), Leaf([first, Entry(option, w)], meta)];
    SharedPairMerges(first, Entry(option, v), Entry(option, w), meta);
  }

  const COMMENT: Keywords := map["comment" := Letters("s")]

  /**
   * `-m comment --comment a -g web` and the same with `b`: both lines are well ordered and load,
   * but they are merged into `comment (a b)`, and `comment` takes exactly one string.
   */
  lemma {:induction false} CommentsDoNotLoad()
    ensures var t, how := OneModule("comment", COMMENT), ReadingOf(COMMENT);
            var lines := [OptionLine("comment", "comment", Scalar("a")), OptionLine("comment", "comment", Scalar("b"))];
            var rules := ParseLines(t, lines);
            && Orderly(t, Fresh(t), lines[0]) && Orderly(t, Fresh(t), lines[1])
            && Loads(how, rules) && !Loads(how, Flush(rules))
  {
    hide OptionLine, OneModule, Orderly, Loads, Flush, Parse;
    var t, how := OneModule("comment", COMMENT), ReadingOf(COMMENT);
    var lines := [OptionLine("comment", "comment", Scalar("a")), OptionLine("comment", "comment", Scalar("b"))];
    OptionLineOrderly("comment", COMMENT, "comment", Scalar("a"));
    OptionLineOrderly("comment", COMMENT, "comment", Scalar("b"));
    OptionLinesMerge("comment", COMMENT, "comment", Scalar("a"), Scalar("b"));
    var first, x, y := Entry("mod", Scalar("comment")), Entry("comment", Scalar("a")), Entry("comment", Scalar("b"));
    PairLoads(how, first, x, y, Entry("comment", List([Scalar("a")] + [Scalar("b")])), OptionMeta("comment", COMMENT));
  }

  lemma {:induction false} PairLoads(how: Reading, e: Entry, f: Entry, g: Entry, both: Entry, meta: Meta)
    requires Loadable(how, e) && Loadable(how, f) && Loadable(how, g)
    ensures Loads(how, [Leaf([e, f], meta), Leaf([e, g], meta)])
    ensures Loads(how, [Leaf([e, both], meta)]) <==> Loadable(how, both)
  {
    hide Loads;
    LeafLoads(how, e, f, meta);
    LeafLoads(how, e, g, meta);
    LeafLoads(how, e, both, meta);
    LoadsOne(how, Leaf([e, f], meta));
    LoadsCons(how, Leaf([e, f], meta), [Leaf([e, g], meta)]);
    assert [Leaf([e, f], meta), Leaf([e, g], meta)] == [Leaf([e, f], meta)] + [Leaf([e, g], meta)];
  }

  lemma {:induction false} LeafLoads(how: Reading, e: Entry, f: Entry, meta: Meta)
    requires Loadable(how, e)
    ensures Loads(how, [Leaf([e, f], meta)]) <==> Loadable(how, f)
  {
    LoadsOne(how, Leaf([e, f], meta));
    assert [e, f][0] == e && [e, f][1] == f;
  }

  lemma {:induction false} LeafVerdict<V>(e: Entry, f: Entry, meta: Meta, rest: seq<Rule>, p: Packet, policy: Policy<V>)
    requires Holds(p, e)
    ensures FirstMatch([Leaf([e, f], meta)] + rest, p, policy)
            == if Holds(p, f) then OrElse(policy(meta), FirstMatch(rest, p, policy)) else FirstMatch(rest, p, policy)
  {
    var r := Leaf([e, f], meta);
    assert ([r] + rest)[1..] == rest;
    assert r.matches[0] == e && r.matches[1] == f;
    assert AllHold(p, r.matches) <==> Holds(p, e) && Holds(p, f);
  }

  const FLAGS: Keywords := map["flags" := Letters("c")]

  /**
   * `--flags x` and `--flags y`, a comma-joined option, become `--flags x,y`.  To a packet for which
   * that list does not mean "one of them" the two files say different things, although both load.
   */
  lemma {:induction false} JoinedListMayDiffer()
    ensures var t := OneModule("ipv4options", FLAGS);
            var rules := ParseLines(t, [OptionLine("ipv4options", "flags", List([Scalar("x")])),
                                        OptionLine("ipv4options", "flags", List([Scalar("y")]))]);
            var p := Packet((name, value) => value != List([Scalar("x"), Scalar("y")]), ReadingOf(FLAGS));
            var accept: Policy<bool> := meta => Some(true);
            && !JoinsAnyOf(p, "flags")
            && FileOutcome(rules, p, accept) == Decides(Some(true))
            && FileOutcome(Flush(rules), p, accept) == Decides(None)
  {
    hide OptionLine, OneModule, Flush, Parse, FileOutcome;
    var how, accept: Policy<bool> := ReadingOf(FLAGS), meta => Some(true);
    var p := Packet((name, value) => value != List([Scalar("x"), Scalar("y")]), how);
    var x, y, both := List([Scalar("x")]), List([Scalar("y")]), List([Scalar("x"), Scalar("y")]);
    OptionLinesMerge("ipv4options", FLAGS, "flags", x, y);
    assert ValueItems(x) + ValueItems(y) == both.items;
    assert !p.accepts("flags", List(both.items)) && p.accepts("flags", both.items[0]);
    PairOutcome(p, accept, Entry("mod", Scalar("ipv4options")), Entry("flags", x), Entry("flags", y), Entry("flags", both),
                OptionMeta("ipv4options", FLAGS));
  }

  lemma {:induction false} PairOutcome(p: Packet, accept: Policy<bool>, e: Entry, f: Entry, g: Entry, both: Entry, meta: Meta)
    requires Loadable(p.how, e) && Loadable(p.how, f) && Loadable(p.how, g) && Loadable(p.how, both)
    requires Holds(p, e) && Holds(p, f) && !Holds(p, both) && accept(meta) == Some(true)
    ensures FileOutcome([Leaf([e, f], meta), Leaf([e, g], meta)], p, accept) == Decides(Some(true))
    ensures FileOutcome([Leaf([e, both], meta)], p, accept) == Decides(None)
  {
    hide Loads, Verdict;
    PairLoads(p.how, e, f, g, both, meta);
    LeafVerdict(e, f, meta, [Leaf([e, g], meta)], p, accept);
    LeafVerdict(e, both, meta, [], p, accept);
    assert [Leaf([e, f], meta), Leaf([e, g], meta)] == [Leaf([e, f], meta)] + [Leaf([e, g], meta)];
    assert [Leaf([e, both], meta)] + [] == [Leaf([e, both], meta)];
    assert FirstMatch([], p, accept) == None;
  }
}
