/** The importer as a whole: option lists in, an emitted tree with their meaning out. */
module RuleTreeImport {
  import opened RuleTree
  import opened RuleTreeSize
  import opened RuleTreeMerges
  import opened RuleTreeReading
  import opened RuleTreeMeaning
  import opened RuleTreeFlat
  import opened RuleTreeConservation
  import opened RuleParse
  import opened RuleTreeGuard
  import opened RuleTreeSides

  /** No `mod` or `protocol` entry of the tree is an array. */
  predicate NoKeyArrays(rules: seq<Rule>) {
    forall i :: 0 <= i < |rules| ==>
      SingleKeys(rules[i].matches) && (rules[i].Block? ==> NoKeyArrays(rules[i].body))
  }

  predicate SingleKeys(entries: seq<Entry>) {
    forall i :: 0 <= i < |entries| ==> IsKey(entries[i].name) ==> !entries[i].value.List?
  }

  lemma {:induction false} KeysHold(entries: seq<Entry>, k: nat)
    requires k < |entries| && IsKey(entries[k].name)
    ensures entries[k] in Keys(entries)
  {
    if k > 0 { KeysHold(entries[1..], k - 1); }
  }

  ghost predicate FitsSingles(fits: Guard) {
    forall meta: Meta, keys: multiset<Entry>, e: Entry :: fits(meta, keys) && e in keys ==> !e.value.List?
  }

  lemma {:induction false} GuardedKeyIsSingle(fits: Guard, r: Rule, above: multiset<Entry>, e: Entry)
    requires FitsSingles(fits) && Guarded(fits, r, above) && (e in above || e in Keys(r.matches))
    ensures !e.value.List?
  {
    if r.Leaf? {
      assert e in above + LeafKeys(r.matches, r.meta);
    } else {
      GuardedKeyIsSingle(fits, r.body[0], above + Keys(r.matches), e);
    }
  }

  lemma {:induction false} GuardedNoKeyArrays(fits: Guard, rules: seq<Rule>, above: multiset<Entry>)
    requires FitsSingles(fits) && GuardedAll(fits, rules, above)
    ensures NoKeyArrays(rules)
  {
    forall i | 0 <= i < |rules|
      ensures SingleKeys(rules[i].matches) && (rules[i].Block? ==> NoKeyArrays(rules[i].body))
    {
      var r := rules[i];
      forall k | 0 <= k < |r.matches| && IsKey(r.matches[k].name) ensures !r.matches[k].value.List? {
        KeysHold(r.matches, k);
        GuardedKeyIsSingle(fits, r, above, r.matches[k]);
      }
      if r.Block? { GuardedNoKeyArrays(fits, r.body, above + Keys(r.matches)); }
    }
  }

  /** Readings that differ on modules and protocols alone. */
  ghost predicate SameBesideKeys(a: Reading, b: Reading) {
    forall name: string :: !IsKey(name) ==> a(name) == b(name)
  }

  /** Without `mod` and `protocol` arrays it does not matter how those would be read. */
  lemma {:induction false} ReadingsAgree(a: Reading, b: Reading, rules: seq<Rule>, context: seq<Entry>)
    requires SameBesideKeys(a, b) && NoKeyArrays(rules) && SingleKeys(context)
    ensures ExpandAll(a, rules, context) == ExpandAll(b, rules, context)
  {
    if rules != [] {
      var r := rules[0];
      var options := context + r.matches;
      assert SingleKeys(options);
      if r.Leaf? {
        forall i | 0 <= i < |options| ensures Alternatives(a, options[i]) == Alternatives(b, options[i]) {}
        assert Choices(a, options) == Choices(b, options);
      } else {
        ReadingsAgree(a, b, r.body, options);
      }
      assert NoKeyArrays(rules[1..]);
      ReadingsAgree(a, b, rules[1..], context);
    }
  }

  // --- the rules of one chain -------------------------------------------------

  /** One option list per `-A` line. */
  function ParseLines(t: Tables, lines: seq<seq<Opt>>): (rules: seq<Rule>)
    ensures |rules| == |lines| && forall i :: 0 <= i < |rules| ==> rules[i] == Parse(t, lines[i])
  {
    seq(|lines|, i requires 0 <= i < |lines| => Parse(t, lines[i]))
  }

  /**
   * What reading one option yields: `-p` takes one value, an option list is never empty, a
   * one-string option has one string, and no keyword is called or shown as a module or protocol.
   */
  predicate Readout(how: Reading, o: Opt) {
    && Regular(o)
    && (o.Known? ==> !IsKey(o.shown) && Filled([Entry(o.shown, o.value)]) && Loadable(how, Entry(o.shown, o.value)))
  }

  predicate LineReadout(how: Reading, opts: seq<Opt>) {
    forall i :: 0 <= i < |opts| ==> Readout(how, opts[i])
  }

  predicate AllReadout(how: Reading, lines: seq<seq<Opt>>) {
    forall i :: 0 <= i < |lines| ==> LineReadout(how, lines[i])
  }

  /** What holds of a draft whose options are read like that. */
  predicate DraftReadout(how: Reading, d: Draft) {
    && AllLoadable(how, d.matches) && Filled(d.matches)
    && SingleKeys(d.matches) && SingleKeys(TargetEntries(d.meta))
  }

  lemma {:induction false} PushReadout(how: Reading, d: Draft, e: Entry)
    requires DraftReadout(how, d) && Loadable(how, e) && Filled([e]) && (IsKey(e.name) ==> !e.value.List?)
    ensures DraftReadout(how, d.Push(e))
  {
    assert [e][0] == e;
  }

  lemma {:induction false} MultiReadout(how: Reading, d: Draft, option: string, shown: string, value: Value)
    requires DraftReadout(how, d) && MergesMulti(d, option, value)
    ensures DraftReadout(how, KnownStep(d, option, shown, value))
  {
  }

  lemma {:induction false} StepReadout(how: Reading, t: Tables, d: Draft, o: Opt)
    requires DraftReadout(how, d) && Readout(how, o)
    ensures DraftReadout(how, Step(t, d, o))
  {
    match o {
      case Protocol(value) =>
        ProtocolShape(t, d, value);
        PushReadout(how, WithProto(d, value), Entry("protocol", value));
      case Match(name) =>
        MatchShape(t, d, name);
        if !Covers(d.meta.proto, name) { PushReadout(how, Loaded(d, name), Entry("mod", Scalar(name))); }
      case Known(option, shown, value) =>
        if MergesMulti(d, option, value) {
          MultiReadout(how, d, option, shown, value);
        } else {
          PushReadout(how, d, Entry(shown, value));
        }
      case Jump(name) =>
      case Goto(name) =>
    }
  }

  lemma {:induction false} ParseReadout(how: Reading, t: Tables, d: Draft, opts: seq<Opt>)
    requires DraftReadout(how, d) && LineReadout(how, opts)
    ensures var r := ParseFrom(t, d, opts); DraftReadout(how, Draft(r.matches, r.meta))
    decreases |opts|
  {
    if opts != [] {
      StepReadout(how, t, d, opts[0]);
      ParseReadout(how, t, Step(t, d, opts[0]), opts[1..]);
    }
  }

  lemma {:induction false} LinesReadout(how: Reading, t: Tables, lines: seq<seq<Opt>>)
    requires AllReadout(how, lines)
    ensures Loads(how, ParseLines(t, lines)) && AllFilled(ParseLines(t, lines)) && FitsSingles(LinesFit(ParseLines(t, lines)))
  {
    var rules := ParseLines(t, lines);
    forall i | 0 <= i < |rules| ensures DraftReadout(how, Draft(rules[i].matches, rules[i].meta)) {
      assert DraftReadout(how, Fresh(t));
      ParseReadout(how, t, Fresh(t), lines[i]);
    }
    forall meta: Meta, keys: multiset<Entry>, e: Entry | LinesFit(rules)(meta, keys) && e in keys ensures !e.value.List? {
      var i :| 0 <= i < |rules| && FitsLine(rules[i], meta, keys);
      KeyInList(rules[i].matches, e);
      KeyInList(TargetEntries(meta), e);
    }
  }

  lemma {:induction false} KeyInList(entries: seq<Entry>, e: Entry)
    requires SingleKeys(entries)
    ensures e in Keys(entries) ==> !e.value.List?
  {
    if entries != [] {
      assert SingleKeys(entries[1..]);
      KeyInList(entries[1..], e);
    }
  }

  // --- lines that do not clash --------------------------------------------------

  predicate FitsLine(r: Rule, meta: Meta, keys: multiset<Entry>) {
    r.Leaf? && r.meta == meta && LeafKeys(r.matches, meta) == keys
  }

  /** The metadata and key entries that the given rules have. */
  function LinesFit(rules: seq<Rule>): Guard {
    (meta: Meta, keys: multiset<Entry>) => exists i :: 0 <= i < |rules| && FitsLine(rules[i], meta, keys)
  }

  /** No two rules have the same metadata and key entries that differ in just one. */
  ghost predicate NoClash(rules: seq<Rule>) {
    forall i, j :: 0 <= i < |rules| && 0 <= j < |rules| ==> !Clash(rules[i], rules[j])
  }

  lemma {:induction false} FitsClash(a: Rule, b: Rule, meta: Meta, keys: multiset<Entry>, x: Entry, y: Entry)
    requires FitsLine(a, meta, keys + multiset{x}) && FitsLine(b, meta, keys + multiset{y}) && x != y
    ensures Clash(a, b)
  {
    assert keys + multiset{x} - multiset{x} == keys == keys + multiset{y} - multiset{y};
    assert DifferIn(LeafKeys(a.matches, a.meta), LeafKeys(b.matches, b.meta), x, y);
  }

  lemma {:induction false} NoClashApart(rules: seq<Rule>)
    requires NoClash(rules)
    ensures Apart(LinesFit(rules))
  {
    var fits := LinesFit(rules);
    forall meta: Meta, keys: multiset<Entry>, x: Entry, y: Entry | fits(meta, keys + multiset{x}) && fits(meta, keys + multiset{y})
      ensures x == y
    {
      var i :| 0 <= i < |rules| && FitsLine(rules[i], meta, keys + multiset{x});
      var j :| 0 <= j < |rules| && FitsLine(rules[j], meta, keys + multiset{y});
      if x != y { FitsClash(rules[i], rules[j], meta, keys, x, y); }
    }
  }

  lemma {:induction false} LinesGuarded(rules: seq<Rule>)
    requires forall i :: 0 <= i < |rules| ==> rules[i].Leaf?
    ensures GuardedAll(LinesFit(rules), rules, multiset{})
  {
    forall i | 0 <= i < |rules| ensures Guarded(LinesFit(rules), rules[i], multiset{}) {
      var keys := LeafKeys(rules[i].matches, rules[i].meta);
      assert multiset{} + keys == keys;
      assert FitsLine(rules[i], rules[i].meta, keys);
    }
  }

  /** A well-ordered line clashes with none: its metadata determines its module and protocol entries. */
  lemma {:induction false} OrderlyNeverClash(t: Tables, a: seq<Opt>, b: seq<Opt>)
    requires Orderly(t, Fresh(t), a) && Orderly(t, Fresh(t), b)
    ensures !Clash(Parse(t, a), Parse(t, b))
  {
    assert WantedMods(Fresh(t).meta) == {};
    OrderlyParseGuarded(t, Fresh(t), a);
    OrderlyParseGuarded(t, Fresh(t), b);
    var r, s := Parse(t, a), Parse(t, b);
    if Clash(r, s) {
      var x, y :| DifferIn(LeafKeys(r.matches, r.meta), LeafKeys(s.matches, s.meta), x, y);
      SameNotDiffer(Wanted(r.meta), x, y);
    }
  }

  /** Every comma-joined list holds when one of its items does, and only `mod` and `protocol` arrays apply as a whole. */
  ghost predicate Harmless(p: Packet) {
    forall name: string ::
      (p.how(name).Joined? ==> JoinsAnyOf(p, name)) && (p.how(name).AllOf? ==> IsKey(name))
  }

  /** Every array unfolds, except that the modules of one `mod` array are loaded together. */
  function KeysTogether(name: string): Use {
    if IsKey(name) then AllOf else AnyOf
  }

  /** One module or protocol at a time. */
  function OneKey(name: string): Use {
    if IsKey(name) then Refused else AnyOf
  }

  /**
   * For any lines: the emitted tree has a `mod` or `protocol` array of several items exactly when some run was merged
   * on one; lines that do not clash never lead there.
   */
  lemma {:induction false} KeyArraysIff(t: Tables, lines: seq<seq<Opt>>, how: Reading)
    requires AllReadout(how, lines)
    ensures var rules := ParseLines(t, lines);
            && (Loads(OneKey, Flush(rules)) <==> MergedOn(FlushRuns(rules), Keyless()))
            && (NoClash(rules) ==> MergedOn(FlushRuns(rules), Keyless()))
  {
    var rules := ParseLines(t, lines);
    LinesReadout(how, t, lines);
    SingleKeysLoad(how, t, lines);
    FlushLoads(OneKey, rules);
    assert forall name: string :: name in Readable(OneKey) <==> name in Keyless();
    if NoClash(rules) { NoClashGuarded(t, lines, how); }
  }

  lemma {:induction false} SingleKeysLoad(how: Reading, t: Tables, lines: seq<seq<Opt>>)
    requires AllReadout(how, lines)
    ensures Loads(OneKey, ParseLines(t, lines))
  {
    var rules := ParseLines(t, lines);
    forall i | 0 <= i < |rules| ensures AllLoadable(OneKey, rules[i].matches) {
      assert DraftReadout(how, Fresh(t));
      ParseReadout(how, t, Fresh(t), lines[i]);
    }
  }

  lemma {:induction false} NoClashGuarded(t: Tables, lines: seq<seq<Opt>>, how: Reading)
    requires AllReadout(how, lines) && NoClash(ParseLines(t, lines))
    ensures var rules := ParseLines(t, lines);
            NoKeyArrays(Flush(rules)) && MergedOn(FlushRuns(rules), Keyless())
  {
    var rules := ParseLines(t, lines);
    LinesReadout(how, t, lines);
    NoClashApart(rules);
    LinesGuarded(rules);
    FlushGuarded(LinesFit(rules), rules, multiset{});
    GuardedNoKeyArrays(LinesFit(rules), Flush(rules), multiset{});
  }

  /**
   * The import theorem.  When no two lines clash, the emitted tree holds no `mod` or `protocol`
   * array and has the input's flat rules: always with every other list taken item by item, and as
   * ferm makes them where every merged run is on an option that unfolds.  The file, loaded and
   * expanded by ferm, gives every packet the verdict of the input's first matching rule if and
   * only if no run was merged on an option that takes exactly one string.
   */
  lemma {:induction false} ImportKeepsMeaning<V>(t: Tables, lines: seq<seq<Opt>>, p: Packet, policy: Policy<V>)
    requires AllReadout(p.how, lines) && NoClash(ParseLines(t, lines)) && Harmless(p)
    ensures var rules := ParseLines(t, lines);
            && NoKeyArrays(Flush(rules))
            && Bag(KeysTogether, Flush(rules), []) == Bag(KeysTogether, rules, [])
            && (MergedOn(FlushRuns(rules), Spreading(p.how)) ==> Bag(p.how, Flush(rules), []) == Bag(p.how, rules, []))
            && (FlatOutcome(Flush(rules), p, policy) == Decides(FirstMatch(rules, p, policy))
                <==> MergedOn(FlushRuns(rules), Readable(p.how)))
            && (!MergedOn(FlushRuns(rules), Readable(p.how)) ==> FlatOutcome(Flush(rules), p, policy) == NotLoaded)
  {
    var rules := ParseLines(t, lines);
    NoClashGuarded(t, lines, p.how);
    LinesReadout(p.how, t, lines);
    assert MergedOn(FlushRuns(rules), Spreading(KeysTogether));
    FlushBag(KeysTogether, rules, []);
    if MergedOn(FlushRuns(rules), Spreading(p.how)) { FlushBag(p.how, rules, []); }
    assert MergedOn(FlushRuns(rules), UnitingOrRefused(p));
    EmittedVerdict(rules, p, policy);
    FlushLoads(p.how, rules);
  }
}
