/** Parsed rules, the optimised rule tree, and the two passes that build it. */
module RuleTree {
  import opened Seqs

  datatype Value =
    | Undefined
    | Scalar(text: string)
    | List(items: seq<Value>)
    | Negated(value: Value)
    | PreNegated(value: Value)
    | Multi(values: seq<Value>)
    | Params(values: seq<Value>)

  datatype Entry = Entry(name: string, value: Value)

  /** The argument shape a keyword declares. */
  datatype Arity = Flag | Count(n: nat) | Letters(codes: string) | Custom(parser: string)

  /** Everything a parsed rule carries besides its match list. */
  datatype Meta = Meta(
    keywords: map<string, Arity>,
    mod: set<string>,
    proto: Option<Value>,
    jump: Option<string>,
    goto: Option<string>,
    target: Option<seq<Entry>>,
    matchKeywords: Option<map<string, Arity>>)

  function EmptyMeta(): Meta {
    Meta(map[], {}, None, None, None, None, None)
  }

  /** A parsed rule, or a block factored out by the optimiser (which has no metadata). */
  datatype Rule =
    | Leaf(matches: seq<Entry>, meta: Meta)
    | Block(matches: seq<Entry>, body: seq<Rule>)

  // --- helpers of the optimiser ---------------------------------------

  function Tail(r: Rule): Rule
    requires r.matches != []
  {
    r.(matches := r.matches[1..])
  }

  predicate Headed(rules: seq<Rule>) {
    forall i :: 0 <= i < |rules| ==> rules[i].matches != []
  }

  predicate SharedHead(rules: seq<Rule>, e: Entry) {
    Headed(rules) && forall i :: 0 <= i < |rules| ==> rules[i].matches[0] == e
  }

  /** The first rule array-merges with every other rule of the group. */
  predicate Mergeable(group: seq<Rule>) {
    group != [] && Headed(group) && forall i :: 0 < i < |group| ==> ArrayMatches(group[0], group[i])
  }

  function Tails(rules: seq<Rule>): (ts: seq<Rule>)
    requires Headed(rules)
    ensures |ts| == |rules| && forall i :: 0 <= i < |rules| ==> ts[i] == Tail(rules[i])
  {
    seq(|rules|, i requires 0 <= i < |rules| => Tail(rules[i]))
  }

  predicate PrefixMatches(first: Rule, other: Rule)
    requires first.matches != []
  {
    other.matches != [] && first.matches[0] == other.matches[0]
  }

  /** How many rules at the front of `rules` share the leading match of `first`. */
  function PrefixCount(first: Rule, rules: seq<Rule>): (n: nat)
    requires first.matches != []
    ensures n <= |rules|
  {
    if rules == [] || !PrefixMatches(first, rules[0]) then 0 else 1 + PrefixCount(first, rules[1..])
  }

  lemma {:induction false} PrefixCountIsRun(first: Rule, rules: seq<Rule>)
    requires first.matches != []
    ensures var n := PrefixCount(first, rules);
            && (forall i :: 0 <= i < n ==> PrefixMatches(first, rules[i]))
            && (n < |rules| ==> !PrefixMatches(first, rules[n]))
  {
    if rules != [] && PrefixMatches(first, rules[0]) { PrefixCountIsRun(first, rules[1..]); }
  }

  predicate CanJoinArray(v: Value) {
    v.Scalar? || v.List?
  }

  predicate ArrayMatches(a: Rule, b: Rule) {
    && a.matches != [] && b.matches != []
    && CanJoinArray(a.matches[0].value)
    && CanJoinArray(b.matches[0].value)
    && a.matches[0].name == b.matches[0].name
    && Tail(a) == Tail(b)
  }

  /** An option that takes exactly one string (`=s`) is never turned into an array. */
  predicate SingleString(r: Rule)
    requires r.matches != []
  {
    && r.Leaf?
    && r.meta.matchKeywords.Some?
    && r.matches[0].name in r.meta.matchKeywords.value
    && r.meta.matchKeywords.value[r.matches[0].name] == Letters("s")
  }

  function ArrayRun(first: Rule, rules: seq<Rule>): (n: nat)
    ensures n <= |rules|
  {
    if rules == [] || !ArrayMatches(first, rules[0]) then 0 else 1 + ArrayRun(first, rules[1..])
  }

  lemma {:induction false} ArrayRunIsRun(first: Rule, rules: seq<Rule>)
    ensures var n := ArrayRun(first, rules);
            && (forall i :: 0 <= i < n ==> ArrayMatches(first, rules[i]))
            && (n < |rules| ==> !ArrayMatches(first, rules[n]))
  {
    if rules != [] && ArrayMatches(first, rules[0]) { ArrayRunIsRun(first, rules[1..]); }
  }

  /** How many rules at the front of `rules` merge with `first` into one array. */
  function ArrayCount(first: Rule, rules: seq<Rule>): (n: nat)
    ensures n <= |rules|
  {
    if first.matches == [] || SingleString(first) then 0 else ArrayRun(first, rules)
  }

  function Prepend(e: Entry, r: Rule): Rule {
    r.(matches := [e] + r.matches)
  }

  /** The factored form of a run: a lone survivor takes the match back, else a block is made. */
  function Factor(e: Entry, block: seq<Rule>): Rule {
    if |block| == 1 then Prepend(e, block[0]) else Block([e], block)
  }

  function ValueItems(v: Value): seq<Value> {
    if v.List? then v.items else [v]
  }

  function Gather(group: seq<Rule>): seq<Value>
    requires Headed(group)
  {
    if group == [] then [] else ValueItems(group[0].matches[0].value) + Gather(group[1..])
  }

  function MergeHeads(group: seq<Rule>): Rule
    requires group != []
    requires Headed(group)
  {
    Prepend(Entry(group[0].matches[0].name, List(Gather(group))), Tail(group[0]))
  }

  // --- the optimiser --------------------------------------------------

  function HeadEntries(rules: seq<Rule>): nat {
    if rules == [] then 0 else |rules[0].matches| + HeadEntries(rules[1..])
  }

  lemma {:induction false} HeadEntriesSplit(rules: seq<Rule>, n: nat)
    requires n <= |rules|
    ensures HeadEntries(rules) == HeadEntries(rules[..n]) + HeadEntries(rules[n..])
  {
    if n == 0 {
      assert rules[n..] == rules;
    } else {
      HeadEntriesSplit(rules[1..], n - 1);
      assert rules[..n][1..] == rules[1..][..n - 1];
      assert rules[1..][n - 1..] == rules[n..];
    }
  }

  lemma {:induction false} HeadEntriesTails(rules: seq<Rule>)
    requires Headed(rules)
    ensures HeadEntries(Tails(rules)) + |rules| == HeadEntries(rules)
  {
    if rules != [] {
      HeadEntriesTails(rules[1..]);
      assert Tails(rules)[1..] == Tails(rules[1..]);
    }
  }

  /** The rules of the leading run of `rules`: the first and those that share its head. */
  function LeadingRun(rules: seq<Rule>): (n: nat)
    requires rules != [] && rules[0].matches != []
    ensures 1 <= n <= |rules|
    ensures SharedHead(rules[..n], rules[0].matches[0])
    ensures n < |rules| ==> !PrefixMatches(rules[0], rules[n])
  {
    PrefixCountIsRun(rules[0], rules[1..]);
    1 + PrefixCount(rules[0], rules[1..])
  }

  /** Pass 1: pull a shared leading match into a block, recursing on what remains. */
  function FactorPass(rules: seq<Rule>): seq<Rule>
    decreases HeadEntries(rules), |rules|, 0
  {
    if rules == [] then []
    else if rules[0].matches == [] || LeadingRun(rules) == 1 then [rules[0]] + FactorPass(rules[1..])
    else
      var n := LeadingRun(rules);
      HeadEntriesSplit(rules, n); HeadEntriesTails(rules[..n]);
      [Factor(rules[0].matches[0], Optimize(Tails(rules[..n])))] + FactorPass(rules[n..])
  }

  /** The rules at the front that pass 2 merges: the first and those that array-match it. */
  function MergeRun(rules: seq<Rule>): (n: nat)
    requires rules != []
    ensures 1 <= n <= |rules|
    ensures n > 1 ==> Mergeable(rules[..n])
  {
    ArrayRunIsRun(rules[0], rules[1..]);
    1 + ArrayCount(rules[0], rules[1..])
  }

  /** Pass 2: neighbours that differ only in their first match become one array-valued rule. */
  function ArrayPass(rules: seq<Rule>): seq<Rule> {
    if rules == [] then []
    else if MergeRun(rules) == 1 then [rules[0]] + ArrayPass(rules[1..])
    else [MergeHeads(rules[..MergeRun(rules)])] + ArrayPass(rules[MergeRun(rules)..])
  }

  function Optimize(rules: seq<Rule>): seq<Rule>
    decreases HeadEntries(rules), |rules|, 1
  {
    ArrayPass(FactorPass(rules))
  }

  // --- size ------------------------------------------------------------

  /** Match entries held anywhere in the tree. */
  function Entries(r: Rule): nat {
    |r.matches| + if r.Block? then EntriesAll(r.body) else 0
  }

  function EntriesAll(rules: seq<Rule>): nat {
    if rules == [] then 0 else Entries(rules[0]) + EntriesAll(rules[1..])
  }

  /** Rule nodes, blocks included. */
  function Nodes(r: Rule): nat {
    1 + if r.Block? then NodesAll(r.body) else 0
  }

  function NodesAll(rules: seq<Rule>): nat {
    if rules == [] then 0 else Nodes(rules[0]) + NodesAll(rules[1..])
  }
}
