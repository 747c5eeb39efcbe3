/**
 * The flat rules ferm generates from a tree: a block's options are inherited by every leaf
 * below it, and the arrays that unfold do so as an ordered product, first option outermost.
 * A comma-joined list stays one option, and so does a `mod` array.
 */
module RuleTreeFlat {
  import opened Seqs
  import opened RuleTree
  import opened RuleTreeSize
  import opened RuleTreeMerges
  import opened RuleTreeReading
  import opened RuleTreeMeaning

  /** One option of a flat rule: a single value, or the items one array applies together. */
  datatype Atom = One(name: string, value: Value) | Load(name: string, items: seq<Value>)

  datatype FlatRule = Flat(atoms: seq<Atom>, meta: Meta)

  predicate AtomHolds(p: Packet, a: Atom) {
    match a
    case One(name, value) => p.accepts(name, value)
    case Load(name, items) => forall i :: 0 <= i < |items| ==> p.accepts(name, items[i])
  }

  predicate RowHolds(p: Packet, row: seq<Atom>) {
    forall i :: 0 <= i < |row| ==> AtomHolds(p, row[i])
  }

  /** Some alternative holds. */
  predicate AnyHolds(p: Packet, alternatives: seq<Atom>) {
    exists i :: 0 <= i < |alternatives| && AtomHolds(p, alternatives[i])
  }

  predicate EachHasOne(p: Packet, choices: seq<seq<Atom>>) {
    forall k :: 0 <= k < |choices| ==> AnyHolds(p, choices[k])
  }

  function Ones(name: string, values: seq<Value>): (r: seq<Atom>)
    ensures |r| == |values| && forall i :: 0 <= i < |r| ==> r[i] == One(name, values[i])
  {
    seq(|values|, i requires 0 <= i < |values| => One(name, values[i]))
  }

  function Alternatives(how: Reading, e: Entry): seq<Atom> {
    if !e.value.List? then [One(e.name, e.value)]
    else match how(e.name)
      case AnyOf => Ones(e.name, e.value.items)
      case AllOf => [Load(e.name, e.value.items)]
      case Joined => [One(e.name, e.value)]
      case Refused => if |e.value.items| == 1 then Ones(e.name, e.value.items) else []
  }

  /**
   * How many flat options an array makes, by the shape its keyword declares: one string refuses it unless it is one
   * item, a comma list and `multiport` join it, `mod` loads all of it, and anything else unfolds.
   */
  lemma AlternativesCount(table: map<string, Arity>, name: string, items: seq<Value>)
    ensures |Alternatives(ReadingOf(table), Entry(name, List(items)))|
            == if name == "mod" then 1
               else if name !in table then |items|
               else match table[name]
                    case Letters("s") => if |items| == 1 then 1 else 0
                    case Letters("c") => 1
                    case Custom("multiport_params") => 1
                    case _ => |items|
  {
  }

  function Choices(how: Reading, options: seq<Entry>): (r: seq<seq<Atom>>)
    ensures |r| == |options| && forall i :: 0 <= i < |r| ==> r[i] == Alternatives(how, options[i])
  {
    seq(|options|, i requires 0 <= i < |options| => Alternatives(how, options[i]))
  }

  function WithMeta(rows: seq<seq<Atom>>, meta: Meta): (r: seq<FlatRule>)
    ensures |r| == |rows| && forall i :: 0 <= i < |r| ==> r[i] == Flat(rows[i], meta)
  {
    seq(|rows|, i requires 0 <= i < |rows| => Flat(rows[i], meta))
  }

  function Expand(how: Reading, r: Rule, context: seq<Entry>): seq<FlatRule> {
    if r.Leaf? then WithMeta(Product(Choices(how, context + r.matches)), r.meta)
    else ExpandAll(how, r.body, context + r.matches)
  }

  function ExpandAll(how: Reading, rules: seq<Rule>, context: seq<Entry>): seq<FlatRule> {
    if rules == [] then [] else Expand(how, rules[0], context) + ExpandAll(how, rules[1..], context)
  }

  function FlatVerdict<V>(flat: seq<FlatRule>, p: Packet, policy: Policy<V>): Option<V> {
    if flat == [] then None
    else OrElse(if RowHolds(p, flat[0].atoms) then policy(flat[0].meta) else None, FlatVerdict(flat[1..], p, policy))
  }

  // --- the tree's verdict is the verdict of its flat rules -------------

  lemma {:induction false} FlatVerdictSplit<V>(a: seq<FlatRule>, b: seq<FlatRule>, p: Packet, policy: Policy<V>)
    ensures FlatVerdict(a + b, p, policy) == OrElse(FlatVerdict(a, p, policy), FlatVerdict(b, p, policy))
  {
    if a == [] {
      assert a + b == b;
    } else {
      assert (a + b)[1..] == a[1..] + b;
      FlatVerdictSplit(a[1..], b, p, policy);
    }
  }

  lemma {:induction false} HoldsByAlternative(p: Packet, e: Entry)
    ensures Holds(p, e) <==> AnyHolds(p, Alternatives(p.how, e))
  {
    var alts := Alternatives(p.how, e);
    if !e.value.List? {
      assert alts[0] == One(e.name, e.value);
    } else if p.how(e.name).AllOf? {
      assert alts[0] == Load(e.name, e.value.items);
    } else if p.how(e.name).Joined? {
      assert alts[0] == One(e.name, e.value);
    } else if p.how(e.name).Refused? {
      if |e.value.items| == 1 { assert alts[0] == One(e.name, e.value.items[0]); }
    } else if Holds(p, e) {
      var i :| 0 <= i < |e.value.items| && p.accepts(e.name, e.value.items[i]);
      assert AtomHolds(p, alts[i]);
    }
  }

  /** Whether some row of a product holds can be decided factor by factor. */
  lemma {:induction false} SomeRowHolds<V>(p: Packet, choices: seq<seq<Atom>>, meta: Meta, policy: Policy<V>)
    ensures FlatVerdict(WithMeta(Product(choices), meta), p, policy)
            == if EachHasOne(p, choices) then policy(meta) else None
    decreases choices, 1, 0
  {
    if choices == [] {
      assert WithMeta([[]], meta) == [Flat([], meta)];
      assert FlatVerdict([Flat([], meta)][1..], p, policy) == None;
    } else {
      SomeRowFrom(p, choices[0], choices[1..], meta, policy);
      EachHasOneSplit(p, choices);
    }
  }

  lemma {:induction false} EachHasOneSplit(p: Packet, choices: seq<seq<Atom>>)
    requires choices != []
    ensures EachHasOne(p, choices) <==> AnyHolds(p, choices[0]) && EachHasOne(p, choices[1..])
  {
    if AnyHolds(p, choices[0]) && EachHasOne(p, choices[1..]) {
      forall k | 0 <= k < |choices| ensures AnyHolds(p, choices[k]) {
        if k > 0 { assert choices[k] == choices[1..][k - 1]; }
      }
    }
  }

  lemma {:induction false} AnyHoldsSplit(p: Packet, alternatives: seq<Atom>)
    requires alternatives != []
    ensures AnyHolds(p, alternatives) <==> AtomHolds(p, alternatives[0]) || AnyHolds(p, alternatives[1..])
  {
    if AnyHolds(p, alternatives) {
      var i :| 0 <= i < |alternatives| && AtomHolds(p, alternatives[i]);
      if i > 0 { assert alternatives[1..][i - 1] == alternatives[i]; }
    }
  }

  lemma {:induction false} SomeRowFrom<V>(p: Packet, first: seq<Atom>, rest: seq<seq<Atom>>, meta: Meta, policy: Policy<V>)
    ensures FlatVerdict(WithMeta(ProductFrom(first, rest), meta), p, policy)
            == if AnyHolds(p, first) && EachHasOne(p, rest) then policy(meta) else None
    decreases rest, 2, first
  {
    if first != [] {
      var here, later := PrefixAll(first[0], Product(rest)), ProductFrom(first[1..], rest);
      assert WithMeta(here + later, meta) == WithMeta(here, meta) + WithMeta(later, meta);
      FlatVerdictSplit(WithMeta(here, meta), WithMeta(later, meta), p, policy);
      PrefixVerdict(p, first[0], Product(rest), meta, policy);
      SomeRowHolds(p, rest, meta, policy);
      SomeRowFrom(p, first[1..], rest, meta, policy);
      AnyHoldsSplit(p, first);
    }
  }

  lemma {:induction false} PrefixVerdict<V>(p: Packet, a: Atom, rows: seq<seq<Atom>>, meta: Meta, policy: Policy<V>)
    ensures FlatVerdict(WithMeta(PrefixAll(a, rows), meta), p, policy)
            == if AtomHolds(p, a) then FlatVerdict(WithMeta(rows, meta), p, policy) else None
  {
    if rows != [] {
      PrefixVerdict(p, a, rows[1..], meta, policy);
      assert WithMeta(PrefixAll(a, rows), meta)[1..] == WithMeta(PrefixAll(a, rows[1..]), meta);
      assert WithMeta(rows, meta)[1..] == WithMeta(rows[1..], meta);
      var row := [a] + rows[0];
      assert row[0] == a && forall i :: 0 <= i < |rows[0]| ==> row[i + 1] == rows[0][i];
      assert RowHolds(p, row) <==> AtomHolds(p, a) && RowHolds(p, rows[0]);
    }
  }

  lemma {:induction false} AllHoldSplit(p: Packet, a: seq<Entry>, b: seq<Entry>)
    ensures AllHold(p, a + b) <==> AllHold(p, a) && AllHold(p, b)
  {
    assert forall i :: 0 <= i < |a| ==> (a + b)[i] == a[i];
    assert forall i :: 0 <= i < |b| ==> (a + b)[|a| + i] == b[i];
  }

  lemma {:induction false} LeafExpansionVerdict<V>(r: Rule, context: seq<Entry>, p: Packet, policy: Policy<V>)
    requires r.Leaf?
    ensures FlatVerdict(Expand(p.how, r, context), p, policy)
            == if AllHold(p, context) then Verdict(r, p, policy) else None
  {
    var options := context + r.matches;
    AllHoldSplit(p, context, r.matches);
    forall k | 0 <= k < |options|
      ensures Holds(p, options[k]) <==> AnyHolds(p, Choices(p.how, options)[k])
    {
      HoldsByAlternative(p, options[k]);
    }
    SomeRowHolds(p, Choices(p.how, options), r.meta, policy);
  }

  /** First match over the generated flat rules is first match over the tree, inside any context. */
  lemma {:induction false} ExpansionVerdict<V>(rules: seq<Rule>, context: seq<Entry>, p: Packet, policy: Policy<V>)
    ensures FlatVerdict(ExpandAll(p.how, rules, context), p, policy)
            == if AllHold(p, context) then FirstMatch(rules, p, policy) else None
  {
    if rules != [] {
      var r := rules[0];
      if r.Leaf? {
        LeafExpansionVerdict(r, context, p, policy);
      } else {
        AllHoldSplit(p, context, r.matches);
        ExpansionVerdict(r.body, context + r.matches, p, policy);
      }
      ExpansionVerdict(rules[1..], context, p, policy);
      FlatVerdictSplit(Expand(p.how, r, context), ExpandAll(p.how, rules[1..], context), p, policy);
    }
  }

  /** What the flat rules of a file do with a packet. */
  function FlatOutcome<V>(rules: seq<Rule>, p: Packet, policy: Policy<V>): FileVerdict<V> {
    if Loads(p.how, rules) then Decides(FlatVerdict(ExpandAll(p.how, rules, []), p, policy)) else NotLoaded
  }

  /**
   * Verdict preservation end to end: loading the emitted file, expanding it and taking the first
   * matching flat rule does what the original rules do, although the flat order may differ, if
   * and only if no run was merged on an option that takes exactly one string.
   */
  lemma {:induction false} EmittedVerdict<V>(rules: seq<Rule>, p: Packet, policy: Policy<V>)
    requires AllFilled(rules) && Loads(p.how, rules) && MergedOn(FlushRuns(rules), UnitingOrRefused(p))
    ensures FlatOutcome(rules, p, policy) == Decides(FirstMatch(rules, p, policy))
    ensures FlatOutcome(Flush(rules), p, policy) == FlatOutcome(rules, p, policy)
            <==> MergedOn(FlushRuns(rules), Readable(p.how))
  {
    ExpansionVerdict(Flush(rules), [], p, policy);
    ExpansionVerdict(rules, [], p, policy);
    FlushOutcome(rules, p, policy);
  }
}
