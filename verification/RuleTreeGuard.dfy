/**
 * When protocols and modules never end up in a merged array: a leaf's `proto` and `mod` take
 * part in equality, and as long as they tell which `protocol` and `mod` entries lie on its path,
 * two different ones never stand in front of equal tails.
 */
module RuleTreeGuard {
  import opened Seqs
  import opened RuleTree
  import opened RuleTreeSize
  import opened RuleTreeMerges
  import opened RuleParse

  predicate IsKey(name: string) {
    name == "mod" || name == "protocol"
  }

  ghost function Keyless(): iset<string> {
    iset name: string | !IsKey(name)
  }

  /** The `mod` and `protocol` entries of a match list. */
  function Keys(entries: seq<Entry>): multiset<Entry> {
    if entries == [] then multiset{}
    else (if IsKey(entries[0].name) then multiset{entries[0]} else multiset{}) + Keys(entries[1..])
  }

  lemma {:induction false} KeysSplit(a: seq<Entry>, b: seq<Entry>)
    ensures Keys(a + b) == Keys(a) + Keys(b)
  {
    if a == [] {
      assert a + b == b;
    } else {
      assert (a + b)[1..] == a[1..] + b;
      KeysSplit(a[1..], b);
    }
  }

  lemma KeyOf(e: Entry)
    ensures Keys([e]) == if IsKey(e.name) then multiset{e} else multiset{}
  {
    assert Keys([e][1..]) == multiset{};
  }

  function TargetEntries(meta: Meta): seq<Entry> {
    if meta.target.Some? then meta.target.value else []
  }

  /** The `mod` entries the metadata calls for: one per module the protocol does not cover. */
  function WantedMods(meta: Meta): set<Entry> {
    set x | x in meta.mod && !Covers(meta.proto, x) :: Entry("mod", Scalar(x))
  }

  function WantedProtos(meta: Meta): multiset<Entry> {
    if meta.proto.Some? then multiset{Entry("protocol", meta.proto.value)} else multiset{}
  }

  function Wanted(meta: Meta): multiset<Entry> {
    multiset(WantedMods(meta)) + WantedProtos(meta)
  }

  function LeafKeys(matches: seq<Entry>, meta: Meta): multiset<Entry> {
    Keys(matches) + Keys(TargetEntries(meta))
  }

  /** A protocol is a single value, perhaps negated, as `-p` reads it. */
  predicate SingleProto(meta: Meta) {
    meta.proto.Some? ==> !meta.proto.value.List?
  }

  /** Which key entries a leaf may have on its path, given its metadata. */
  type Guard = (Meta, multiset<Entry>) -> bool

  /** No two leaves with the same metadata differ in just one of these entries. */
  ghost predicate Apart(fits: Guard) {
    forall meta: Meta, keys: multiset<Entry>, x: Entry, y: Entry ::
      fits(meta, keys + multiset{x}) && fits(meta, keys + multiset{y}) ==> x == y
  }

  /** The key entries from the root (`above`) down to each leaf fit its metadata. */
  predicate Guarded(fits: Guard, r: Rule, above: multiset<Entry>) {
    if r.Leaf? then fits(r.meta, above + LeafKeys(r.matches, r.meta))
    else r.body != [] && GuardedAll(fits, r.body, above + Keys(r.matches))
  }

  predicate GuardedAll(fits: Guard, rules: seq<Rule>, above: multiset<Entry>) {
    forall i :: 0 <= i < |rules| ==> Guarded(fits, rules[i], above)
  }

  lemma Cancel<T>(a: multiset<T>, b: multiset<T>, c: multiset<T>)
    requires a + c == b + c
    ensures a == b
  {
    assert a == (a + c) - c;
    assert b == (b + c) - c;
  }

  lemma AddedDiffers<T>(m: multiset<T>, x: T)
    ensures m + multiset{x} != m
  {
    assert (m + multiset{x})[x] == m[x] + 1;
  }

  // --- parsing ----------------------------------------------------------

  predicate DraftGuarded(d: Draft) {
    LeafKeys(d.matches, d.meta) == Wanted(d.meta) && SingleProto(d.meta)
  }

  /** The options that keep metadata and entries in step. */
  predicate InStep(d: Draft, o: Opt) {
    match o
    case Protocol(value) => d.meta.proto.None? && forall x :: x in d.meta.mod ==> !Covers(Some(value), x)
    case Match(name) => name !in d.meta.mod || Covers(d.meta.proto, name)
    case Known(option, shown, value) => IsKey(shown) ==> MergesMulti(d, option, value)
    case Jump(name) => Keys(TargetEntries(d.meta)) == multiset{}
    case Goto(name) => true
  }

  /** What reading an option can yield: no keyword is spelled `mod` or `protocol`, `-p` takes one value. */
  predicate Regular(o: Opt) {
    match o
    case Known(option, _, _) => !IsKey(option)
    case Protocol(value) => !value.List?
    case _ => true
  }

  lemma PushKeys(d: Draft, e: Entry)
    ensures LeafKeys(d.Push(e).matches, d.Push(e).meta)
            == LeafKeys(d.matches, d.meta) + if IsKey(e.name) then multiset{e} else multiset{}
  {
    KeysSplit(d.Current(), [e]);
    KeyOf(e);
  }

  lemma MergeKeys(d: Draft, option: string, shown: string, value: Value)
    requires MergesMulti(d, option, value) && !IsKey(option)
    ensures var p := KnownStep(d, option, shown, value);
            LeafKeys(p.matches, p.meta) == LeafKeys(d.matches, d.meta)
  {
    var cur := d.Current();
    var kept, last := cur[..|cur| - 1], cur[|cur| - 1];
    var joined := Entry(option, Multi(last.value.values + value.values));
    assert cur == kept + [last];
    KeysSplit(kept, [last]); KeysSplit(kept, [joined]);
    KeyOf(last); KeyOf(joined);
  }

  lemma MatchWanted(before: Meta, after: Meta, name: string)
    requires after.proto == before.proto && after.mod == before.mod + {name}
    ensures Wanted(after) == if name in before.mod || Covers(before.proto, name) then Wanted(before)
                             else Wanted(before) + multiset{Entry("mod", Scalar(name))}
  {
    var e := Entry("mod", Scalar(name));
    if name in before.mod || Covers(before.proto, name) {
      assert WantedMods(after) == WantedMods(before);
    } else {
      assert e !in WantedMods(before);
      assert WantedMods(after) == WantedMods(before) + {e};
    }
  }

  /** Keyword tables do not matter to the guard. */
  lemma WantedIgnoresKeywords(a: Meta, b: Meta)
    requires a.mod == b.mod && a.proto == b.proto
    ensures Wanted(a) == Wanted(b)
  {
    assert WantedMods(a) == WantedMods(b);
  }

  predicate SameButKeywords(a: Draft, b: Draft) {
    a.matches == b.matches && a.meta.(keywords := map[]) == b.meta.(keywords := map[])
  }

  lemma SameGuard(a: Draft, b: Draft)
    requires SameButKeywords(a, b)
    ensures LeafKeys(a.matches, a.meta) == LeafKeys(b.matches, b.meta) && Wanted(a.meta) == Wanted(b.meta)
  {
    assert a.meta.(keywords := map[]).target == b.meta.(keywords := map[]).target;
    WantedIgnoresKeywords(a.meta, b.meta);
  }

  function Loaded(d: Draft, name: string): Draft {
    d.(meta := d.meta.(mod := d.meta.mod + {name}))
  }

  function WithProto(d: Draft, value: Value): Draft {
    d.(meta := d.meta.(proto := Some(value)))
  }

  lemma MatchShape(t: Tables, d: Draft, name: string)
    ensures SameButKeywords(MatchStep(t, d, name),
                            if Covers(d.meta.proto, name) then Loaded(d, name)
                            else Loaded(d, name).Push(Entry("mod", Scalar(name))))
  {
  }

  lemma ProtocolShape(t: Tables, d: Draft, value: Value)
    ensures SameButKeywords(ProtocolStep(t, d, value), WithProto(d, value).Push(Entry("protocol", value)))
  {
  }

  lemma PushMeta(d: Draft, e: Entry)
    ensures Wanted(d.Push(e).meta) == Wanted(d.meta) && d.Push(e).meta.proto == d.meta.proto
  {
    WantedIgnoresKeywords(d.Push(e).meta, d.meta);
  }

  lemma MatchGuard(t: Tables, d: Draft, name: string)
    requires DraftGuarded(d)
    ensures DraftGuarded(MatchStep(t, d, name)) <==> InStep(d, Match(name))
  {
    var loaded, e := Loaded(d, name), Entry("mod", Scalar(name));
    var reached := if Covers(d.meta.proto, name) then loaded else loaded.Push(e);
    MatchShape(t, d, name);
    SameGuard(MatchStep(t, d, name), reached);
    MatchWanted(d.meta, loaded.meta, name);
    PushKeys(loaded, e);
    PushMeta(loaded, e);
    AddedDiffers(Wanted(d.meta), e);
  }

  /** A protocol option adds its own entry, and asks for what the new protocol leaves uncovered. */
  lemma ProtocolKeys(t: Tables, d: Draft, value: Value)
    ensures var after, e := ProtocolStep(t, d, value), Entry("protocol", value);
            && LeafKeys(after.matches, after.meta) == LeafKeys(d.matches, d.meta) + multiset{e}
            && Wanted(after.meta) == multiset(WantedMods(WithProto(d, value).meta)) + multiset{e}
            && after.meta.proto == Some(value)
  {
    var e, named := Entry("protocol", value), WithProto(d, value);
    ProtocolShape(t, d, value);
    SameGuard(ProtocolStep(t, d, value), named.Push(e));
    PushKeys(named, e);
    PushMeta(named, e);
  }

  lemma ProtocolGuard(t: Tables, d: Draft, value: Value)
    requires DraftGuarded(d) && !value.List?
    ensures DraftGuarded(ProtocolStep(t, d, value)) <==> InStep(d, Protocol(value))
  {
    ProtocolKeys(t, d, value);
    ProtocolWanted(d.meta, value);
    var mods, e := multiset(WantedMods(WithProto(d, value).meta)), Entry("protocol", value);
    if Wanted(d.meta) + multiset{e} == mods + multiset{e} {
      Cancel(Wanted(d.meta), mods, multiset{e});
    }
  }

  lemma ProtocolWanted(meta: Meta, value: Value)
    ensures Wanted(meta) == multiset(WantedMods(meta.(proto := Some(value))))
            <==> meta.proto.None? && forall x :: x in meta.mod ==> !Covers(Some(value), x)
  {
    var after := meta.(proto := Some(value));
    if meta.proto.Some? {
      var e := Entry("protocol", meta.proto.value);
      assert e !in WantedMods(after) && e in Wanted(meta);
    } else {
      assert Wanted(meta) == multiset(WantedMods(meta));
      if forall x :: x in meta.mod ==> !Covers(Some(value), x) {
        assert WantedMods(meta) == WantedMods(after);
      } else {
        var x :| x in meta.mod && Covers(Some(value), x);
        var e := Entry("mod", Scalar(x));
        assert e in WantedMods(meta) && e !in WantedMods(after);
        assert e in multiset(WantedMods(meta));
      }
    }
  }

  lemma JumpKeys(t: Tables, d: Draft, name: string)
    ensures var after := JumpStep(t, d, name);
            && LeafKeys(after.matches, after.meta) == Keys(d.matches)
            && Wanted(after.meta) == Wanted(d.meta) && after.meta.proto == d.meta.proto
  {
    WantedIgnoresKeywords(JumpStep(t, d, name).meta, d.meta);
  }

  lemma JumpGuard(t: Tables, d: Draft, name: string)
    requires DraftGuarded(d)
    ensures DraftGuarded(JumpStep(t, d, name)) <==> InStep(d, Jump(name))
  {
    JumpKeys(t, d, name);
    var kept, dropped := Keys(d.matches), Keys(TargetEntries(d.meta));
    if kept == kept + dropped {
      assert multiset{} + kept == dropped + kept;
      Cancel(multiset{}, dropped, kept);
    }
  }

  lemma KnownKeys(d: Draft, option: string, shown: string, value: Value)
    requires !IsKey(option)
    ensures var p := KnownStep(d, option, shown, value);
            LeafKeys(p.matches, p.meta)
            == LeafKeys(d.matches, d.meta)
               + if InStep(d, Known(option, shown, value)) then multiset{} else multiset{Entry(shown, value)}
  {
    hide LeafKeys, Draft.Push, Draft.Current, Draft.WithCurrent;
    if MergesMulti(d, option, value) {
      MergeKeys(d, option, shown, value);
    } else {
      PushKeys(d, Entry(shown, value));
    }
  }

  lemma KnownGuard(d: Draft, option: string, shown: string, value: Value)
    requires DraftGuarded(d) && !IsKey(option)
    ensures DraftGuarded(KnownStep(d, option, shown, value)) <==> InStep(d, Known(option, shown, value))
  {
    var after := KnownStep(d, option, shown, value);
    KnownKeys(d, option, shown, value);
    KnownKeepsMeta(d, option, shown, value);
    WantedIgnoresKeywords(after.meta, d.meta);
    AddedDiffers(LeafKeys(d.matches, d.meta), Entry(shown, value));
  }

  lemma KnownKeepsMeta(d: Draft, option: string, shown: string, value: Value)
    ensures var p := KnownStep(d, option, shown, value); p.meta.mod == d.meta.mod && p.meta.proto == d.meta.proto
  {
  }

  /** An option keeps entries and metadata in step exactly when it is one of the harmless ones. */
  lemma StepKeepsGuard(t: Tables, d: Draft, o: Opt)
    requires DraftGuarded(d) && Regular(o)
    ensures DraftGuarded(Step(t, d, o)) <==> InStep(d, o)
  {
    match o {
      case Protocol(value) => ProtocolGuard(t, d, value);
      case Match(name) => MatchGuard(t, d, name);
      case Known(option, shown, value) => KnownGuard(d, option, shown, value);
      case Jump(name) => JumpGuard(t, d, name);
      case Goto(name) => assert WantedMods(Step(t, d, o).meta) == WantedMods(d.meta);
    }
  }

  /**
   * A well-ordered option list: one protocol, no module loaded twice, no module loaded ahead of
   * the protocol that covers it, no second jump that discards such an option.
   */
  predicate Orderly(t: Tables, d: Draft, opts: seq<Opt>)
    decreases |opts|
  {
    opts == [] || (InStep(d, opts[0]) && Regular(opts[0]) && Orderly(t, Step(t, d, opts[0]), opts[1..]))
  }

  /** The working rule after all options. */
  function Finish(t: Tables, d: Draft, opts: seq<Opt>): Draft
    decreases |opts|
  {
    if opts == [] then d else Finish(t, Step(t, d, opts[0]), opts[1..])
  }

  function ParseFrom(t: Tables, d: Draft, opts: seq<Opt>): Rule {
    Leaf(Finish(t, d, opts).matches, Finish(t, d, opts).meta)
  }

  /** The rule an option list builds. */
  function Parse(t: Tables, opts: seq<Opt>): Rule {
    ParseFrom(t, Fresh(t), opts)
  }

  lemma {:induction false} OrderlyParseGuarded(t: Tables, d: Draft, opts: seq<Opt>)
    requires DraftGuarded(d) && Orderly(t, d, opts)
    ensures var r := ParseFrom(t, d, opts);
            LeafKeys(r.matches, r.meta) == Wanted(r.meta) && SingleProto(r.meta)
    decreases |opts|
  {
    if opts != [] {
      StepKeepsGuard(t, d, opts[0]);
      OrderlyParseGuarded(t, Step(t, d, opts[0]), opts[1..]);
    }
  }

  // --- the guard survives both passes -----------------------------------

  lemma {:induction false} GuardedPrepend(fits: Guard, e: Entry, r: Rule, above: multiset<Entry>)
    ensures Guarded(fits, Prepend(e, r), above) <==> Guarded(fits, r, above + Keys([e]))
  {
    KeysSplit([e], r.matches);
    assert above + Keys([e] + r.matches) == above + Keys([e]) + Keys(r.matches);
    if r.Leaf? {
      assert above + LeafKeys([e] + r.matches, r.meta) == above + Keys([e]) + LeafKeys(r.matches, r.meta);
    }
  }

  lemma {:induction false} HeadAndTail(r: Rule)
    requires r.matches != []
    ensures Prepend(r.matches[0], Tail(r)) == r
  {
  }

  lemma {:induction false} GuardedTail(fits: Guard, r: Rule, above: multiset<Entry>)
    requires r.matches != [] && Guarded(fits, r, above)
    ensures Guarded(fits, Tail(r), above + Keys([r.matches[0]]))
  {
    HeadAndTail(r);
    GuardedPrepend(fits, r.matches[0], Tail(r), above);
  }

  lemma {:induction false} GuardedTails(fits: Guard, group: seq<Rule>, e: Entry, above: multiset<Entry>)
    requires SharedHead(group, e) && GuardedAll(fits, group, above)
    ensures GuardedAll(fits, Tails(group), above + Keys([e]))
  {
    forall i | 0 <= i < |group| ensures Guarded(fits, Tails(group)[i], above + Keys([e])) {
      GuardedTail(fits, group[i], above);
    }
  }

  lemma {:induction false} GuardedFactor(fits: Guard, e: Entry, block: seq<Rule>, above: multiset<Entry>)
    requires block != [] && GuardedAll(fits, block, above + Keys([e]))
    ensures Guarded(fits, Factor(e, block), above)
  {
    GuardedPrepend(fits, e, block[0], above);
  }

  lemma {:induction false} FactorPassGuarded(fits: Guard, rules: seq<Rule>, above: multiset<Entry>)
    requires Apart(fits)
    requires GuardedAll(fits, rules, above)
    ensures GuardedAll(fits, FactorPass(rules), above)
    ensures MergedOn(FactorRuns(rules), Keyless())
    decreases HeadEntries(rules), |rules|, 0
  {
    hide Guarded, MergedOn, Apart, Keyless;
    if rules == [] {
      NothingMerged();
    } else if rules[0].matches == [] || LeadingRun(rules) == 1 {
      GuardedParts(fits, rules, 1, above);
      FactorPassGuarded(fits, rules[1..], above);
      GuardedCons(fits, rules[0], FactorPass(rules[1..]), above);
    } else {
      var n := LeadingRun(rules);
      var e := rules[0].matches[0];
      HeadEntriesSplit(rules, n); HeadEntriesTails(rules[..n]);
      MergedOnUnion(OptimizeRuns(Tails(rules[..n])), FactorRuns(rules[n..]), Keyless());
      GuardedParts(fits, rules, n, above);
      GuardedTails(fits, rules[..n], e, above);
      OptimizeGuarded(fits, Tails(rules[..n]), above + Keys([e]));
      GuardedFactor(fits, e, Optimize(Tails(rules[..n])), above);
      FactorPassGuarded(fits, rules[n..], above);
      GuardedCons(fits, Factor(e, Optimize(Tails(rules[..n]))), FactorPass(rules[n..]), above);
    }
  }

  lemma {:induction false} NothingMerged()
    ensures MergedOn({}, Keyless())
  {
  }

  lemma {:induction false} GuardedParts(fits: Guard, rules: seq<Rule>, n: nat, above: multiset<Entry>)
    requires n <= |rules| && GuardedAll(fits, rules, above)
    ensures GuardedAll(fits, rules[..n], above) && GuardedAll(fits, rules[n..], above)
    ensures n > 0 ==> Guarded(fits, rules[0], above)
  {
  }

  /** A guarded tree fixes the one key entry in which two ways to it could differ. */
  lemma {:induction false} OneContext(fits: Guard, r: Rule, keys: multiset<Entry>, x: Entry, y: Entry)
    requires Apart(fits) && Guarded(fits, r, keys + multiset{x}) && Guarded(fits, r, keys + multiset{y})
    ensures x == y
  {
    if r.Leaf? {
      var below := LeafKeys(r.matches, r.meta);
      assert keys + multiset{x} + below == (keys + below) + multiset{x};
      assert keys + multiset{y} + below == (keys + below) + multiset{y};
    } else {
      var below := Keys(r.matches);
      assert keys + multiset{x} + below == (keys + below) + multiset{x};
      assert keys + multiset{y} + below == (keys + below) + multiset{y};
      OneContext(fits, r.body[0], keys + below, x, y);
    }
  }

  /** Two heads in front of one guarded tail are equal when they name a module or a protocol. */
  lemma {:induction false} SameTailSameHead(fits: Guard, x: Entry, y: Entry, tail: Rule, above: multiset<Entry>)
    requires Apart(fits) && Guarded(fits, Prepend(x, tail), above) && Guarded(fits, Prepend(y, tail), above)
    requires IsKey(x.name) && IsKey(y.name)
    ensures x == y
  {
    GuardedPrepend(fits, x, tail, above);
    GuardedPrepend(fits, y, tail, above);
    KeyOf(x); KeyOf(y);
    OneContext(fits, tail, above, x, y);
  }

  lemma {:induction false} KeylessHead(fits: Guard, x: Entry, y: Entry, tail: Rule, above: multiset<Entry>)
    requires Guarded(fits, Prepend(x, tail), above) && !IsKey(x.name) && !IsKey(y.name)
    ensures Guarded(fits, Prepend(y, tail), above)
  {
    GuardedPrepend(fits, x, tail, above);
    GuardedPrepend(fits, y, tail, above);
    KeyOf(x); KeyOf(y);
  }

  lemma {:induction false} MergeGuarded(fits: Guard, group: seq<Rule>, above: multiset<Entry>)
    requires Apart(fits)
    requires Mergeable(group) && |group| > 1 && GuardedAll(fits, group, above)
    requires group[0].matches[0] != group[1].matches[0]
    ensures !IsKey(group[0].matches[0].name)
    ensures Guarded(fits, MergeHeads(group), above)
  {
    var a, b := group[0], group[1];
    var tail := Tail(a);
    assert ArrayMatches(a, b) && Guarded(fits, a, above) && Guarded(fits, b, above);
    HeadAndTail(a); HeadAndTail(b);
    if IsKey(a.matches[0].name) {
      SameTailSameHead(fits, a.matches[0], b.matches[0], tail, above);
    }
    KeylessHead(fits, a.matches[0], Entry(a.matches[0].name, List(Gather(group))), tail, above);
  }

  lemma {:induction false} MergeRunGuarded(fits: Guard, rules: seq<Rule>, n: nat, above: multiset<Entry>)
    requires Apart(fits)
    requires 2 <= n <= |rules| && Mergeable(rules[..n])
    requires GuardedAll(fits, rules, above) && HeadsDiffer(rules)
    ensures Guarded(fits, MergeHeads(rules[..n]), above) && rules[0].matches[0].name in Keyless()
  {
    var group := rules[..n];
    assert group[0] == rules[0] && group[1] == rules[1];
    assert !PrefixMatches(rules[0], rules[1]);
    MergeGuarded(fits, group, above);
  }

  lemma {:induction false} GuardedCons(fits: Guard, head: Rule, rest: seq<Rule>, above: multiset<Entry>)
    requires Guarded(fits, head, above) && GuardedAll(fits, rest, above)
    ensures GuardedAll(fits, [head] + rest, above)
  {
  }

  lemma {:induction false} GuardedSuffix(fits: Guard, rules: seq<Rule>, n: nat, above: multiset<Entry>)
    requires n <= |rules| && GuardedAll(fits, rules, above) && HeadsDiffer(rules)
    ensures GuardedAll(fits, rules[n..], above) && HeadsDiffer(rules[n..])
  {
    var rest := rules[n..];
    forall i | 0 < i < |rest| && rest[i - 1].matches != [] ensures !PrefixMatches(rest[i - 1], rest[i]) {
      assert rest[i] == rules[n + i] && rest[i - 1] == rules[n + i - 1];
    }
  }

  lemma {:induction false} ArrayPassGuarded(fits: Guard, rules: seq<Rule>, above: multiset<Entry>)
    requires Apart(fits)
    requires GuardedAll(fits, rules, above) && HeadsDiffer(rules)
    ensures GuardedAll(fits, ArrayPass(rules), above)
    ensures MergedOn(ArrayRuns(rules), Keyless())
  {
    if rules != [] {
      var n := MergeRun(rules);
      ArrayRunsUnfold(rules, Keyless());
      GuardedSuffix(fits, rules, n, above);
      ArrayPassGuarded(fits, rules[n..], above);
      if n == 1 {
        GuardedCons(fits, rules[0], ArrayPass(rules[1..]), above);
      } else {
        MergeRunGuarded(fits, rules, n, above);
        GuardedCons(fits, MergeHeads(rules[..n]), ArrayPass(rules[n..]), above);
      }
    }
  }

  /** Both passes keep the guard and merge no run on a protocol or a module. */
  lemma {:induction false} OptimizeGuarded(fits: Guard, rules: seq<Rule>, above: multiset<Entry>)
    requires Apart(fits)
    requires GuardedAll(fits, rules, above)
    ensures GuardedAll(fits, Optimize(rules), above)
    ensures MergedOn(OptimizeRuns(rules), Keyless())
    ensures rules != [] ==> Optimize(rules) != []
    decreases HeadEntries(rules), |rules|, 1
  {
    FactorPassGuarded(fits, rules, above);
    FactorPassHeads(rules);
    ArrayPassGuarded(fits, FactorPass(rules), above);
    MergedOnUnion(FactorRuns(rules), ArrayRuns(FactorPass(rules)), Keyless());
  }

  lemma {:induction false} FlushEachGuarded(fits: Guard, rules: seq<Rule>, above: multiset<Entry>)
    requires Apart(fits)
    requires GuardedAll(fits, rules, above)
    ensures GuardedAll(fits, FlushEach(rules), above)
    ensures MergedOn(FlushEachRuns(rules), Keyless())
    ensures rules != [] ==> FlushEach(rules) != []
    decreases Weight(rules), 0
  {
    if rules != [] {
      WeightUnfolds(rules);
      if rules[0].Block? {
        FlushGuarded(fits, rules[0].body, above + Keys(rules[0].matches));
      }
      FlushEachGuarded(fits, rules[1..], above);
      MergedOnUnion(if rules[0].Block? then FlushRuns(rules[0].body) else {}, FlushEachRuns(rules[1..]), Keyless());
    }
  }

  /** Nor does re-optimising every emitted block. */
  lemma {:induction false} FlushGuarded(fits: Guard, rules: seq<Rule>, above: multiset<Entry>)
    requires Apart(fits)
    requires GuardedAll(fits, rules, above)
    ensures GuardedAll(fits, Flush(rules), above)
    ensures MergedOn(FlushRuns(rules), Keyless())
    ensures rules != [] ==> Flush(rules) != []
    decreases Weight(rules), 1
  {
    OptimizeSize(rules);
    OptimizeGuarded(fits, rules, above);
    FlushEachGuarded(fits, Optimize(rules), above);
    MergedOnUnion(OptimizeRuns(rules), FlushEachRuns(Optimize(rules)), Keyless());
  }
}
