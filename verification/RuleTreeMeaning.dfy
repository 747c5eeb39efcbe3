/**
 * What a rule list means: the verdict of the first matching rule, read off the tree.  An array
 * that ferm unfolds stands for any one of its items.
 */
module RuleTreeMeaning {
  import opened Seqs
  import opened RuleTree
  import opened RuleTreeSize
  import opened RuleTreeMerges
  import opened RuleTreeReading

  /** One packet: which options hold of it as they reach the kernel, and how arrays are read. */
  datatype Packet = Packet(accepts: (string, Value) -> bool, how: Reading)

  /** What a leaf does with a packet its matches accept; None lets evaluation continue. */
  type Policy<!V> = Meta -> Option<V>

  predicate ArrayHolds(p: Packet, name: string, items: seq<Value>) {
    match p.how(name)
    case AnyOf => exists i :: 0 <= i < |items| && p.accepts(name, items[i])
    case AllOf => forall i :: 0 <= i < |items| ==> p.accepts(name, items[i])
    case Joined => p.accepts(name, List(items))
    case Refused => |items| == 1 && p.accepts(name, items[0])
  }

  predicate Holds(p: Packet, e: Entry) {
    if e.value.List? then ArrayHolds(p, e.name, e.value.items) else p.accepts(e.name, e.value)
  }

  /** A comma-joined list of this option holds when one of its items does. */
  ghost predicate JoinsAnyOf(p: Packet, name: string) {
    forall items: seq<Value> ::
      p.accepts(name, List(items)) <==> exists i :: 0 <= i < |items| && p.accepts(name, items[i])
  }

  /** The options whose arrays mean any one of their items. */
  ghost function Uniting(p: Packet): iset<string> {
    iset name: string | p.how(name).AnyOf? || (p.how(name).Joined? && JoinsAnyOf(p, name))
  }

  predicate AllHold(p: Packet, entries: seq<Entry>) {
    forall i :: 0 <= i < |entries| ==> Holds(p, entries[i])
  }

  function Verdict<V>(r: Rule, p: Packet, policy: Policy<V>): Option<V> {
    if !AllHold(p, r.matches) then None
    else if r.Leaf? then policy(r.meta)
    else FirstMatch(r.body, p, policy)
  }

  function FirstMatch<V>(rules: seq<Rule>, p: Packet, policy: Policy<V>): Option<V> {
    if rules == [] then None
    else OrElse(Verdict(rules[0], p, policy), FirstMatch(rules[1..], p, policy))
  }

  lemma {:induction false} FirstMatchSplit<V>(a: seq<Rule>, b: seq<Rule>, p: Packet, policy: Policy<V>)
    ensures FirstMatch(a + b, p, policy) == OrElse(FirstMatch(a, p, policy), FirstMatch(b, p, policy))
  {
    if a == [] {
      assert a + b == b;
    } else {
      assert (a + b)[1..] == a[1..] + b;
      FirstMatchSplit(a[1..], b, p, policy);
    }
  }

  lemma {:induction false} VerdictPrepend<V>(e: Entry, r: Rule, p: Packet, policy: Policy<V>)
    ensures Verdict(Prepend(e, r), p, policy) == if Holds(p, e) then Verdict(r, p, policy) else None
  {
    var q := Prepend(e, r);
    assert q.matches[0] == e && forall i :: 0 <= i < |r.matches| ==> q.matches[i + 1] == r.matches[i];
    assert AllHold(p, q.matches) <==> Holds(p, e) && AllHold(p, r.matches);
  }

  lemma {:induction false} FirstMatchTails<V>(group: seq<Rule>, e: Entry, p: Packet, policy: Policy<V>)
    requires SharedHead(group, e)
    ensures FirstMatch(group, p, policy) == if Holds(p, e) then FirstMatch(Tails(group), p, policy) else None
  {
    if group != [] {
      VerdictPrepend(e, Tail(group[0]), p, policy);
      assert Prepend(e, Tail(group[0])) == group[0];
      FirstMatchTails(group[1..], e, p, policy);
      assert Tails(group)[1..] == Tails(group[1..]);
    }
  }

  lemma {:induction false} FirstMatchFactor<V>(e: Entry, block: seq<Rule>, p: Packet, policy: Policy<V>)
    ensures FirstMatch([Factor(e, block)], p, policy)
            == if Holds(p, e) then FirstMatch(block, p, policy) else None
  {
    if |block| == 1 {
      VerdictPrepend(e, block[0], p, policy);
      assert block == [block[0]];
      assert FirstMatch(block[1..], p, policy) == None;
    } else {
      assert AllHold(p, [e]) <==> Holds(p, [e][0]);
    }
  }

  lemma {:induction false} FactorPassVerdict<V>(rules: seq<Rule>, p: Packet, policy: Policy<V>)
    requires MergedOn(FactorRuns(rules), Uniting(p))
    ensures FirstMatch(FactorPass(rules), p, policy) == FirstMatch(rules, p, policy)
    decreases HeadEntries(rules), |rules|, 0
  {
    if rules == [] {
    } else if rules[0].matches == [] || LeadingRun(rules) == 1 {
      FactorPassVerdict(rules[1..], p, policy);
    } else {
      var n := LeadingRun(rules);
      HeadEntriesSplit(rules, n); HeadEntriesTails(rules[..n]);
      MergedOnUnion(OptimizeRuns(Tails(rules[..n])), FactorRuns(rules[n..]), Uniting(p));
      OptimizeVerdict(Tails(rules[..n]), p, policy);
      FactorPassVerdict(rules[n..], p, policy);
      FactorStepVerdict(rules, n, Optimize(Tails(rules[..n])), FactorPass(rules[n..]), p, policy);
    }
  }

  lemma {:induction false} FactorStepVerdict<V>(rules: seq<Rule>, n: nat, block: seq<Rule>, rest: seq<Rule>, p: Packet, policy: Policy<V>)
    requires 2 <= n <= |rules| && Headed(rules[..n]) && SharedHead(rules[..n], rules[0].matches[0])
    requires FirstMatch(block, p, policy) == FirstMatch(Tails(rules[..n]), p, policy)
    requires FirstMatch(rest, p, policy) == FirstMatch(rules[n..], p, policy)
    ensures FirstMatch([Factor(rules[0].matches[0], block)] + rest, p, policy) == FirstMatch(rules, p, policy)
  {
    var e := rules[0].matches[0];
    FirstMatchTails(rules[..n], e, p, policy);
    FirstMatchFactor(e, block, p, policy);
    FirstMatchSplit([Factor(e, block)], rest, p, policy);
    FirstMatchSplit(rules[..n], rules[n..], p, policy);
    assert rules[..n] + rules[n..] == rules;
  }

  lemma {:induction false} ItemsHold(p: Packet, e: Entry)
    requires e.name in Uniting(p)
    ensures Holds(p, e) <==> exists i :: 0 <= i < |ValueItems(e.value)| && p.accepts(e.name, ValueItems(e.value)[i])
  {
    if e.value.List? {
      var items := e.value.items;
      assert ValueItems(e.value) == items;
      if p.how(e.name).Joined? {
        assert JoinsAnyOf(p, e.name);
        assert p.accepts(e.name, List(items)) <==> exists i :: 0 <= i < |items| && p.accepts(e.name, items[i]);
      }
    } else {
      assert ValueItems(e.value) == [e.value] && ValueItems(e.value)[0] == e.value;
    }
  }

  lemma {:induction false} SomeItem(p: Packet, name: string, a: seq<Value>, b: seq<Value>)
    ensures (exists i :: 0 <= i < |a + b| && p.accepts(name, (a + b)[i]))
            <==> (exists i :: 0 <= i < |a| && p.accepts(name, a[i])) || (exists i :: 0 <= i < |b| && p.accepts(name, b[i]))
  {
    forall i | 0 <= i < |b| && p.accepts(name, b[i]) ensures p.accepts(name, (a + b)[|a| + i]) {}
    forall i | 0 <= i < |a| && p.accepts(name, a[i]) ensures p.accepts(name, (a + b)[i]) {}
  }

  lemma {:induction false} GatherHolds(group: seq<Rule>, name: string, p: Packet)
    requires Headed(group) && forall i :: 0 <= i < |group| ==> group[i].matches[0].name == name
    requires name in Uniting(p)
    ensures Holds(p, Entry(name, List(Gather(group))))
            <==> exists i :: 0 <= i < |group| && Holds(p, group[i].matches[0])
  {
    if group != [] {
      GatherHolds(group[1..], name, p);
      var here, rest := ValueItems(group[0].matches[0].value), Gather(group[1..]);
      ItemsHold(p, Entry(name, List(Gather(group))));
      ItemsHold(p, Entry(name, List(rest)));
      assert Gather(group) == here + rest;
      SomeItem(p, name, here, rest);
      ItemsHold(p, group[0].matches[0]);
      assert forall i :: 0 <= i < |group| - 1 ==> group[1..][i] == group[i + 1];
      if exists i :: 0 <= i < |group| && Holds(p, group[i].matches[0]) {
        var i :| 0 <= i < |group| && Holds(p, group[i].matches[0]);
        if i > 0 { assert group[1..][i - 1] == group[i]; }
      }
    }
  }

  /** The verdict of rules that share one tail: the tail's, once any of their heads holds. */
  lemma {:induction false} SameTailVerdict<V>(group: seq<Rule>, tail: Rule, p: Packet, policy: Policy<V>)
    requires Headed(group) && forall i :: 0 <= i < |group| ==> Tail(group[i]) == tail
    ensures FirstMatch(group, p, policy)
            == if exists i :: 0 <= i < |group| && Holds(p, group[i].matches[0]) then Verdict(tail, p, policy) else None
  {
    if group != [] {
      SameTailVerdict(group[1..], tail, p, policy);
      VerdictPrepend(group[0].matches[0], tail, p, policy);
      assert Prepend(group[0].matches[0], tail) == group[0];
      assert forall i :: 0 <= i < |group| - 1 ==> group[1..][i] == group[i + 1];
      if exists i :: 0 <= i < |group| && Holds(p, group[i].matches[0]) {
        var i :| 0 <= i < |group| && Holds(p, group[i].matches[0]);
        if i > 0 { assert group[1..][i - 1] == group[i]; }
      }
    }
  }

  /** Merging a run keeps its verdict exactly when the gathered head holds whenever a member's does, or the tail decides nothing. */
  lemma {:induction false} MergeVerdictIff<V>(group: seq<Rule>, p: Packet, policy: Policy<V>)
    requires Mergeable(group)
    ensures var merged := MergeHeads(group);
            Verdict(merged, p, policy) == FirstMatch(group, p, policy)
            <==> Verdict(Tail(merged), p, policy) == None
                 || (Holds(p, merged.matches[0]) <==> exists i :: 0 <= i < |group| && Holds(p, group[i].matches[0]))
  {
    var e, tail := Entry(group[0].matches[0].name, List(Gather(group))), Tail(group[0]);
    assert forall i :: 0 <= i < |group| ==> Tail(group[i]) == tail;
    SameTailVerdict(group, tail, p, policy);
    VerdictPrepend(e, tail, p, policy);
    assert Tail(Prepend(e, tail)) == tail;
  }

  lemma {:induction false} MergeVerdict<V>(group: seq<Rule>, p: Packet, policy: Policy<V>)
    requires Mergeable(group) && group[0].matches[0].name in Uniting(p)
    ensures Verdict(MergeHeads(group), p, policy) == FirstMatch(group, p, policy)
  {
    assert forall i :: 0 <= i < |group| ==> group[i].matches[0].name == group[0].matches[0].name;
    GatherHolds(group, group[0].matches[0].name, p);
    MergeVerdictIff(group, p, policy);
  }

  lemma {:induction false} ArrayPassVerdict<V>(rules: seq<Rule>, p: Packet, policy: Policy<V>)
    requires MergedOn(ArrayRuns(rules), Uniting(p))
    ensures FirstMatch(ArrayPass(rules), p, policy) == FirstMatch(rules, p, policy)
  {
    if rules != [] {
      var n := MergeRun(rules);
      ArrayRunsUnfold(rules, Uniting(p));
      ArrayPassVerdict(rules[n..], p, policy);
      if n > 1 {
        MergeVerdict(rules[..n], p, policy);
        ArrayStepVerdict(rules, n, MergeHeads(rules[..n]), ArrayPass(rules[n..]), p, policy);
      }
    }
  }

  lemma {:induction false} ArrayStepVerdict<V>(rules: seq<Rule>, n: nat, head: Rule, rest: seq<Rule>, p: Packet, policy: Policy<V>)
    requires 1 <= n <= |rules|
    requires Verdict(head, p, policy) == FirstMatch(rules[..n], p, policy)
    requires FirstMatch(rest, p, policy) == FirstMatch(rules[n..], p, policy)
    ensures FirstMatch([head] + rest, p, policy) == FirstMatch(rules, p, policy)
  {
    FirstMatchSplit(rules[..n], rules[n..], p, policy);
    assert rules[..n] + rules[n..] == rules;
    assert ([head] + rest)[1..] == rest;
  }

  /** One run of the optimiser keeps the verdict of every packet. */
  lemma {:induction false} OptimizeVerdict<V>(rules: seq<Rule>, p: Packet, policy: Policy<V>)
    requires MergedOn(OptimizeRuns(rules), Uniting(p))
    ensures FirstMatch(Optimize(rules), p, policy) == FirstMatch(rules, p, policy)
    decreases HeadEntries(rules), |rules|, 1
  {
    MergedOnUnion(FactorRuns(rules), ArrayRuns(FactorPass(rules)), Uniting(p));
    FactorPassVerdict(rules, p, policy);
    ArrayPassVerdict(FactorPass(rules), p, policy);
  }

  lemma {:induction false} FlushEachVerdict<V>(rules: seq<Rule>, p: Packet, policy: Policy<V>)
    requires MergedOn(FlushEachRuns(rules), Uniting(p))
    ensures FirstMatch(FlushEach(rules), p, policy) == FirstMatch(rules, p, policy)
    decreases Weight(rules), 0
  {
    if rules != [] {
      WeightUnfolds(rules);
      MergedOnUnion(if rules[0].Block? then FlushRuns(rules[0].body) else {}, FlushEachRuns(rules[1..]), Uniting(p));
      if rules[0].Block? {
        FlushVerdict(rules[0].body, p, policy);
      }
      FlushEachVerdict(rules[1..], p, policy);
    }
  }

  /**
   * The emitted tree, blocks re-optimised at every depth, gives the packet the verdict of the
   * flat rules as long as every array that was made means any one of its items.
   */
  lemma {:induction false} FlushVerdict<V>(rules: seq<Rule>, p: Packet, policy: Policy<V>)
    requires MergedOn(FlushRuns(rules), Uniting(p))
    ensures FirstMatch(Flush(rules), p, policy) == FirstMatch(rules, p, policy)
    decreases Weight(rules), 1
  {
    OptimizeSize(rules);
    MergedOnUnion(OptimizeRuns(rules), FlushEachRuns(Optimize(rules)), Uniting(p));
    OptimizeVerdict(rules, p, policy);
    FlushEachVerdict(Optimize(rules), p, policy);
  }

  /** What a rule file does with a packet: nothing at all when ferm refuses it. */
  datatype FileVerdict<V> = NotLoaded | Decides(answer: Option<V>)

  function FileOutcome<V>(rules: seq<Rule>, p: Packet, policy: Policy<V>): FileVerdict<V> {
    if Loads(p.how, rules) then Decides(FirstMatch(rules, p, policy)) else NotLoaded
  }

  /** The options whose arrays mean any one of their items, or are refused. */
  ghost function UnitingOrRefused(p: Packet): iset<string> {
    iset name: string | name in Uniting(p) || p.how(name).Refused?
  }

  /**
   * The emitted file does what the input does if and only if no run was merged on an option
   * that takes exactly one string; otherwise ferm does not load it.
   */
  lemma {:induction false} FlushOutcome<V>(rules: seq<Rule>, p: Packet, policy: Policy<V>)
    requires AllFilled(rules) && Loads(p.how, rules) && MergedOn(FlushRuns(rules), UnitingOrRefused(p))
    ensures FileOutcome(Flush(rules), p, policy) == FileOutcome(rules, p, policy)
            <==> MergedOn(FlushRuns(rules), Readable(p.how))
    ensures !MergedOn(FlushRuns(rules), Readable(p.how)) ==> FileOutcome(Flush(rules), p, policy) == NotLoaded
  {
    FlushLoads(p.how, rules);
    if MergedOn(FlushRuns(rules), Readable(p.how)) {
      assert MergedOn(FlushRuns(rules), Uniting(p));
      FlushVerdict(rules, p, policy);
    }
  }
}
