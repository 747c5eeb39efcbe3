/**
 * Which pairs of lines can have a module or protocol entry apart although their metadata is the
 * same: those that name the same two modules of an ICMPv6 protocol on opposite sides of it.
 */
module RuleTreeSides {
  import opened Seqs
  import opened RuleTree
  import opened RuleParse
  import opened RuleTreeGuard

  /** Equal metadata, and key entries that differ in just one. */
  ghost predicate Clash(a: Rule, b: Rule) {
    && a.Leaf? && b.Leaf? && a.meta == b.meta
    && exists x: Entry, y: Entry :: DifferIn(LeafKeys(a.matches, a.meta), LeafKeys(b.matches, b.meta), x, y)
  }

  predicate DifferIn(a: multiset<Entry>, b: multiset<Entry>, x: Entry, y: Entry) {
    x != y && x in a && y in b && a - multiset{x} == b - multiset{y}
  }

  /** One protocol, no module named twice, no keyword shown as a module or protocol, no jump that discards one. */
  predicate SimpleStep(d: Draft, o: Opt) {
    match o
    case Protocol(value) => d.meta.proto.None?
    case Match(name) => name !in d.meta.mod
    case Known(option, shown, value) => !IsKey(option) && !IsKey(shown)
    case Jump(name) => Keys(TargetEntries(d.meta)) == multiset{}
    case Goto(name) => true
  }

  predicate Simple(t: Tables, d: Draft, opts: seq<Opt>)
    decreases |opts|
  {
    opts == [] || (SimpleStep(d, opts[0]) && Simple(t, Step(t, d, opts[0]), opts[1..]))
  }

  /** The modules named ahead of the protocol. */
  function Early(opts: seq<Opt>): set<string> {
    if opts == [] || opts[0].Protocol? then {}
    else (if opts[0].Match? then {opts[0].name} else {}) + Early(opts[1..])
  }

  function Mods(names: set<string>): set<Entry> {
    set x | x in names :: Entry("mod", Scalar(x))
  }

  function CoveredMods(meta: Meta): set<string> {
    set x | x in meta.mod && Covers(meta.proto, x)
  }

  function EntryNames(meta: Meta, early: set<string>): set<string> {
    set x | x in meta.mod && (!Covers(meta.proto, x) || x in early)
  }

  /** The key entries of a simple line: the protocol, what it does not cover, and what came before it. */
  function KeysOf(meta: Meta, early: set<string>): multiset<Entry> {
    WantedProtos(meta) + multiset(Mods(EntryNames(meta, early)))
  }

  lemma {:induction false} ModsGrow(names: set<string>, name: string)
    requires name !in names
    ensures multiset(Mods(names + {name})) == multiset(Mods(names)) + multiset{Entry("mod", Scalar(name))}
  {
    var e := Entry("mod", Scalar(name));
    assert e !in Mods(names);
    assert Mods(names + {name}) == Mods(names) + {e};
  }

  /** What counts as early after one more option. */
  function EarlyAfter(d: Draft, o: Opt, early: set<string>): set<string> {
    if o.Protocol? then d.meta.mod else early
  }

  lemma {:induction false} StepMods(t: Tables, d: Draft, o: Opt)
    ensures Step(t, d, o).meta.mod == d.meta.mod + if o.Match? then {o.name} else {}
    ensures Step(t, d, o).meta.proto == if o.Protocol? then Some(o.value) else d.meta.proto
  {
  }

  lemma {:induction false} MatchLeafKeys(t: Tables, d: Draft, name: string)
    ensures var after := MatchStep(t, d, name);
            LeafKeys(after.matches, after.meta)
            == LeafKeys(d.matches, d.meta) + if Covers(d.meta.proto, name) then multiset{} else multiset{Entry("mod", Scalar(name))}
  {
    var loaded, e := Loaded(d, name), Entry("mod", Scalar(name));
    MatchShape(t, d, name);
    SameGuard(MatchStep(t, d, name), if Covers(d.meta.proto, name) then loaded else loaded.Push(e));
    PushKeys(loaded, e);
  }

  lemma {:induction false} MatchAsks(before: Meta, after: Meta, name: string, early: set<string>)
    requires after.mod == before.mod + {name} && after.proto == before.proto
    requires name !in before.mod && early <= before.mod
    ensures KeysOf(after, early)
            == KeysOf(before, early) + if Covers(before.proto, name) then multiset{} else multiset{Entry("mod", Scalar(name))}
  {
    if Covers(before.proto, name) {
      assert EntryNames(after, early) == EntryNames(before, early);
    } else {
      assert EntryNames(after, early) == EntryNames(before, early) + {name};
      ModsGrow(EntryNames(before, early), name);
    }
  }

  lemma {:induction false} MatchKeysOf(t: Tables, d: Draft, name: string, early: set<string>)
    requires name !in d.meta.mod && early <= d.meta.mod && LeafKeys(d.matches, d.meta) == KeysOf(d.meta, early)
    ensures var after := MatchStep(t, d, name); LeafKeys(after.matches, after.meta) == KeysOf(after.meta, early)
  {
    StepMods(t, d, Match(name));
    hide MatchStep, LeafKeys, KeysOf, Covers;
    MatchLeafKeys(t, d, name);
    MatchAsks(d.meta, MatchStep(t, d, name).meta, name, early);
  }

  lemma {:induction false} ProtocolKeysOf(t: Tables, d: Draft, value: Value, early: set<string>)
    requires d.meta.proto.None? && LeafKeys(d.matches, d.meta) == KeysOf(d.meta, early)
    ensures var after := ProtocolStep(t, d, value); LeafKeys(after.matches, after.meta) == KeysOf(after.meta, d.meta.mod)
  {
    ProtocolKeys(t, d, value);
    ProtocolShape(t, d, value);
    var after := ProtocolStep(t, d, value);
    assert after.meta.mod == d.meta.mod;
    assert EntryNames(after.meta, d.meta.mod) == d.meta.mod == EntryNames(d.meta, early);
  }

  lemma {:induction false} StepKeysOf(t: Tables, d: Draft, o: Opt, early: set<string>)
    requires SimpleStep(d, o) && early <= d.meta.mod && LeafKeys(d.matches, d.meta) == KeysOf(d.meta, early)
    ensures var after := Step(t, d, o);
            LeafKeys(after.matches, after.meta) == KeysOf(after.meta, EarlyAfter(d, o, early))
  {
    var after := Step(t, d, o);
    match o {
      case Protocol(value) => ProtocolKeysOf(t, d, value, early);
      case Match(name) => MatchKeysOf(t, d, name, early);
      case Known(option, shown, value) =>
        KnownKeys(d, option, shown, value);
        KnownKeepsMeta(d, option, shown, value);
        assert EntryNames(after.meta, early) == EntryNames(d.meta, early);
      case Jump(name) =>
        JumpKeys(t, d, name);
        assert after.meta.mod == d.meta.mod;
        assert EntryNames(after.meta, early) == EntryNames(d.meta, early);
      case Goto(name) =>
        assert EntryNames(after.meta, early) == EntryNames(d.meta, early);
    }
  }

  lemma {:induction false} NothingCovered(meta: Meta, a: set<string>, b: set<string>)
    requires meta.proto.None?
    ensures KeysOf(meta, a) == KeysOf(meta, b)
  {
    assert EntryNames(meta, a) == EntryNames(meta, b);
  }

  /** The metadata and what was named ahead of the protocol determine a simple line's key entries. */
  lemma {:induction false} SimpleKeys(t: Tables, d: Draft, opts: seq<Opt>, early: set<string>)
    requires Simple(t, d, opts) && early <= d.meta.mod && LeafKeys(d.matches, d.meta) == KeysOf(d.meta, early)
    ensures var r := ParseFrom(t, d, opts);
            LeafKeys(r.matches, r.meta)
            == KeysOf(r.meta, if d.meta.proto.Some? then early else d.meta.mod + Early(opts))
    decreases |opts|
  {
    hide LeafKeys, KeysOf, Step;
    if opts == [] {
      if d.meta.proto.None? { NothingCovered(d.meta, early, d.meta.mod + Early(opts)); }
    } else {
      var o := opts[0];
      var next := EarlyAfter(d, o, early);
      StepKeysOf(t, d, o, early);
      StepMods(t, d, o);
      SimpleKeys(t, Step(t, d, o), opts[1..], next);
      if d.meta.proto.None? {
        if o.Protocol? {
          assert d.meta.mod + Early(opts) == next;
        } else {
          assert Step(t, d, o).meta.mod + Early(opts[1..]) == d.meta.mod + Early(opts);
        }
      }
    }
  }

  // --- two lines --------------------------------------------------------------

  predicate IsIcmpv6(proto: Option<Value>) {
    proto.Some? && proto.value.Scalar? && (proto.value.text == "icmpv6" || proto.value.text == "ipv6-icmp")
  }

  /** Both modules the protocol covers are loaded, and just the one under its own name came first. */
  predicate OwnFirst(meta: Meta, early: set<string>) {
    IsIcmpv6(meta.proto) && meta.proto.value.text in early && "icmp6" !in early
  }

  predicate AliasFirst(meta: Meta, early: set<string>) {
    IsIcmpv6(meta.proto) && meta.proto.value.text !in early && "icmp6" in early
  }

  /** The two lines name `icmp6` and the module called like their protocol on opposite sides of it. */
  predicate Opposite(meta: Meta, a: set<string>, b: set<string>) {
    && IsIcmpv6(meta.proto) && {"icmp6", meta.proto.value.text} <= meta.mod
    && ((OwnFirst(meta, a) && AliasFirst(meta, b)) || (AliasFirst(meta, a) && OwnFirst(meta, b)))
  }

  lemma {:induction false} ModIn(names: set<string>, name: string)
    ensures Entry("mod", Scalar(name)) in Mods(names) <==> name in names
  {
  }

  lemma {:induction false} KeysSplitOff(meta: Meta, early: set<string>)
    ensures KeysOf(meta, early) == KeysOf(meta, {}) + multiset(Mods(CoveredMods(meta) * early))
  {
    var all, bare, extra := EntryNames(meta, early), EntryNames(meta, {}), CoveredMods(meta) * early;
    assert all == bare + extra && bare !! extra;
    forall e | e in Mods(bare) ensures e !in Mods(extra) {
      var x :| x in bare && e == Entry("mod", Scalar(x));
      ModIn(extra, x);
    }
    assert Mods(all) == Mods(bare) + Mods(extra);
  }

  /** A covered module is called like the protocol or is `icmp6` under ICMPv6. */
  lemma {:induction false} CoveredNames(meta: Meta, x: string, y: string)
    requires x in CoveredMods(meta) && y in CoveredMods(meta) && x != y
    ensures IsIcmpv6(meta.proto) && {x, y} == {"icmp6", meta.proto.value.text}
  {
  }

  lemma {:induction false} ExtraEntry(a: multiset<Entry>, b: multiset<Entry>, base: multiset<Entry>, s: set<Entry>, r: set<Entry>, x: Entry, y: Entry)
    requires a == base + multiset(s) && b == base + multiset(r) && DifferIn(a, b, x, y)
    ensures x in s && x !in r && y in r && y !in s
  {
    assert (a - multiset{x})[x] == a[x] - 1 && (b - multiset{y})[x] == b[x];
    assert (b - multiset{y})[y] == b[y] - 1 && (a - multiset{x})[y] == a[y];
  }

  lemma {:induction false} ClashNeedsOpposite(meta: Meta, a: set<string>, b: set<string>, x: Entry, y: Entry)
    requires DifferIn(KeysOf(meta, a), KeysOf(meta, b), x, y)
    ensures Opposite(meta, a, b)
  {
    var s, r := CoveredMods(meta) * a, CoveredMods(meta) * b;
    KeysSplitOff(meta, a);
    KeysSplitOff(meta, b);
    ExtraEntry(KeysOf(meta, a), KeysOf(meta, b), KeysOf(meta, {}), Mods(s), Mods(r), x, y);
    var m :| m in s && x == Entry("mod", Scalar(m));
    var n :| n in r && y == Entry("mod", Scalar(n));
    ModIn(r, m);
    ModIn(s, n);
    CoveredNames(meta, m, n);
  }

  lemma {:induction false} OppositeDiffers(meta: Meta, a: set<string>, b: set<string>)
    requires {"icmp6"} <= meta.mod && IsIcmpv6(meta.proto) && meta.proto.value.text in meta.mod
    requires OwnFirst(meta, a) && AliasFirst(meta, b)
    ensures DifferIn(KeysOf(meta, a), KeysOf(meta, b), Entry("mod", meta.proto.value), Entry("mod", Scalar("icmp6")))
  {
    var own := meta.proto.value.text;
    var x, y, base := Entry("mod", Scalar(own)), Entry("mod", Scalar("icmp6")), KeysOf(meta, {});
    assert CoveredMods(meta) == {own, "icmp6"};
    KeysSplitOff(meta, a);
    KeysSplitOff(meta, b);
    assert CoveredMods(meta) * a == {own} && CoveredMods(meta) * b == {"icmp6"};
    assert Mods({own}) == {x} && Mods({"icmp6"}) == {y};
    hide KeysOf, Mods, CoveredMods, OwnFirst, AliasFirst;
    AddedDifferIn(base, x, y);
  }

  lemma {:induction false} AddedDifferIn(base: multiset<Entry>, x: Entry, y: Entry)
    requires x != y
    ensures DifferIn(base + multiset({x}), base + multiset({y}), x, y)
  {
    assert base + multiset({x}) - multiset{x} == base == base + multiset({y}) - multiset{y};
  }

  lemma {:induction false} DiffersBack(a: multiset<Entry>, b: multiset<Entry>, x: Entry, y: Entry)
    requires DifferIn(a, b, x, y)
    ensures DifferIn(b, a, y, x)
  {
  }

  /**
   * Two lines with one protocol at most and no repeated module can have a module or protocol
   * entry apart, their metadata being equal, if and only if they load `icmp6` and the module
   * called like their ICMPv6 protocol, one before and one after it, in opposite orders.
   */
  lemma {:induction false} ClashIff(t: Tables, a: seq<Opt>, b: seq<Opt>)
    requires Simple(t, Fresh(t), a) && Simple(t, Fresh(t), b)
    ensures Clash(Parse(t, a), Parse(t, b))
            <==> Parse(t, a).meta == Parse(t, b).meta && Opposite(Parse(t, a).meta, Early(a), Early(b))
  {
    var d, r, s := Fresh(t), Parse(t, a), Parse(t, b);
    assert EntryNames(d.meta, {}) == {} && Mods({}) == {};
    assert LeafKeys(d.matches, d.meta) == KeysOf(d.meta, {});
    SimpleKeys(t, d, a, {});
    SimpleKeys(t, d, b, {});
    assert {} + Early(a) == Early(a) && {} + Early(b) == Early(b);
    if r.meta == s.meta {
      var p, q := KeysOf(r.meta, Early(a)), KeysOf(r.meta, Early(b));
      if exists x: Entry, y: Entry :: DifferIn(p, q, x, y) {
        var x, y :| DifferIn(p, q, x, y);
        ClashNeedsOpposite(r.meta, Early(a), Early(b), x, y);
      }
      if Opposite(r.meta, Early(a), Early(b)) {
        var x, y := Entry("mod", r.meta.proto.value), Entry("mod", Scalar("icmp6"));
        if OwnFirst(r.meta, Early(a)) && AliasFirst(r.meta, Early(b)) {
          OppositeDiffers(r.meta, Early(a), Early(b));
        } else {
          OppositeDiffers(r.meta, Early(b), Early(a));
          DiffersBack(q, p, x, y);
        }
      }
    }
  }

  lemma {:induction false} HeadKeys(r: Rule)
    requires r.Leaf? && r.matches != [] && IsKey(r.matches[0].name)
    ensures LeafKeys(r.matches, r.meta) == LeafKeys(r.matches[1..], r.meta) + multiset{r.matches[0]}
  {
    assert [r.matches[0]] + r.matches[1..] == r.matches;
    KeysSplit([r.matches[0]], r.matches[1..]);
    KeyOf(r.matches[0]);
  }

  /**
   * Of two such lines that differ at most in a leading module or protocol, so that the optimiser
   * would merge them on it, the leading entries differ if and only if the lines are opposite.
   */
  lemma {:induction false} KeyHeadsIff(t: Tables, a: seq<Opt>, b: seq<Opt>)
    requires Simple(t, Fresh(t), a) && Simple(t, Fresh(t), b)
    requires ArrayMatches(Parse(t, a), Parse(t, b)) && IsKey(Parse(t, a).matches[0].name)
    ensures Parse(t, a).matches[0] != Parse(t, b).matches[0]
            <==> Opposite(Parse(t, a).meta, Early(a), Early(b))
  {
    HeadsClash(Parse(t, a), Parse(t, b));
    ClashIff(t, a, b);
    assert Tail(Parse(t, a)) == Tail(Parse(t, b));
  }

  /** Leaves that array-match on a module or protocol differ in it exactly when they clash. */
  lemma {:induction false} HeadsClash(r: Rule, s: Rule)
    requires r.Leaf? && s.Leaf? && ArrayMatches(r, s) && IsKey(r.matches[0].name)
    ensures r.matches[0] != s.matches[0] <==> Clash(r, s)
  {
    var x, y, rest := r.matches[0], s.matches[0], LeafKeys(r.matches[1..], r.meta);
    assert Tail(r) == Tail(s);
    HeadKeys(r);
    HeadKeys(s);
    if x != y {
      assert rest + multiset{x} - multiset{x} == rest == rest + multiset{y} - multiset{y};
      assert DifferIn(rest + multiset{x}, rest + multiset{y}, x, y);
    } else if Clash(r, s) {
      var p, q :| DifferIn(LeafKeys(r.matches, r.meta), LeafKeys(s.matches, s.meta), p, q);
      SameNotDiffer(LeafKeys(r.matches, r.meta), p, q);
    }
  }

  lemma {:induction false} SameNotDiffer(a: multiset<Entry>, x: Entry, y: Entry)
    ensures !DifferIn(a, a, x, y)
  {
    assert (a - multiset{x})[x] == if x in a then a[x] - 1 else 0;
    assert x != y ==> (a - multiset{y})[x] == a[x];
  }
}
