/**
 * Rules as the optimiser handles them: objects whose match lists are popped, re-headed and
 * overwritten in place.  A ghost shape names the objects of a tree, and `Models` says that the
 * heap below a shape holds a given rule value and that no object occurs in it twice.
 */
module RuleNodes {
  import opened Seqs
  import opened RuleTree

  class MatchEntry {
    const name: string
    var value: Value

    constructor (name: string, value: Value)
      ensures this.name == name && this.value == value
    {
      this.name := name;
      this.value := value;
    }
  }

  class RuleNode {
    var matches: seq<MatchEntry>
    const meta: Meta
    const block: Option<seq<RuleNode>>

    constructor (matches: seq<MatchEntry>, meta: Meta, block: Option<seq<RuleNode>>)
      ensures this.matches == matches && this.meta == meta && this.block == block
    {
      this.matches := matches;
      this.meta := meta;
      this.block := block;
    }
  }

  // --- shapes and what they hold ----------------------------------------

  /** The objects of one tree; `repr` is all of them. */
  datatype Shape =
    | LeafShape(node: RuleNode, entries: seq<MatchEntry>, repr: set<object>)
    | BlockShape(node: RuleNode, entries: seq<MatchEntry>, kids: seq<Shape>, repr: set<object>)

  ghost function Footprint(ss: seq<Shape>): set<object> {
    set i: nat, o: object | i < |ss| && o in ss[i].repr :: o
  }

  ghost function EntryObjects(entries: seq<MatchEntry>): set<object> {
    set e | e in entries
  }

  ghost function NodesOf(ss: seq<Shape>): (r: seq<RuleNode>)
    ensures |r| == |ss| && forall i :: 0 <= i < |ss| ==> r[i] == ss[i].node
  {
    seq(|ss|, i requires 0 <= i < |ss| => ss[i].node)
  }

  ghost predicate Distinct(entries: seq<MatchEntry>) {
    forall i, j :: 0 <= i < j < |entries| ==> entries[i] != entries[j]
  }

  ghost predicate Separate(ss: seq<Shape>) {
    forall i, j :: 0 <= i < j < |ss| ==> ss[i].repr !! ss[j].repr
  }

  /** Entry objects, one by one, hold these values. */
  ghost predicate Hold(entries: seq<MatchEntry>, matches: seq<Entry>)
    reads EntryObjects(entries)
  {
    |entries| == |matches|
    && forall i :: 0 <= i < |entries| ==> matches[i] == Entry(entries[i].name, entries[i].value)
  }

  ghost predicate Owns(s: Shape, matches: seq<Entry>)
    reads s.repr
  {
    && s.node in s.repr && EntryObjects(s.entries) <= s.repr && s.node.matches == s.entries
    && Distinct(s.entries) && Hold(s.entries, matches)
  }

  ghost predicate Models(s: Shape, r: Rule)
    reads s.repr
  {
    || (&& s.LeafShape? && r.Leaf? && Owns(s, r.matches)
        && s.node.block.None? && s.node.meta == r.meta)
    || (&& s.BlockShape? && r.Block? && Owns(s, r.matches)
        && s.node.block == Some(NodesOf(s.kids)) && s.node.meta == EmptyMeta()
        && Footprint(s.kids) <= s.repr && ModelsAll(s.kids, r.body)
        && s.node !in Footprint(s.kids) && EntryObjects(s.entries) !! Footprint(s.kids))
  }

  ghost predicate ModelsAll(ss: seq<Shape>, rs: seq<Rule>)
    reads Footprint(ss)
  {
    |ss| == |rs| && Separate(ss) && forall i :: 0 <= i < |ss| ==> Models(ss[i], rs[i])
  }

  lemma FootprintSplit(a: seq<Shape>, b: seq<Shape>)
    ensures Footprint(a + b) == Footprint(a) + Footprint(b)
  {
    forall o | o in Footprint(a + b) ensures o in Footprint(a) + Footprint(b) {
      var i: nat :| i < |a + b| && o in (a + b)[i].repr;
      if i < |a| { assert o in a[i].repr; } else { assert o in b[i - |a|].repr; }
    }
    forall o | o in Footprint(a) ensures o in Footprint(a + b) {
      var i: nat :| i < |a| && o in a[i].repr;
      assert o in (a + b)[i].repr;
    }
    forall o | o in Footprint(b) ensures o in Footprint(a + b) {
      var i: nat :| i < |b| && o in b[i].repr;
      assert o in (a + b)[|a| + i].repr;
    }
  }

  // --- structural equality ------------------------------------------------

  predicate EqualEntries(a: seq<MatchEntry>, b: seq<MatchEntry>)
    reads EntryObjects(a), EntryObjects(b)
  {
    |a| == |b| && forall i :: 0 <= i < |a| ==> a[i].name == b[i].name && a[i].value == b[i].value
  }

  lemma EqualEntriesHold(a: seq<MatchEntry>, b: seq<MatchEntry>, ms: seq<Entry>, ns: seq<Entry>)
    requires Hold(a, ms) && Hold(b, ns)
    ensures EqualEntries(a, b) <==> ms == ns
  {
    if EqualEntries(a, b) {
      forall i | 0 <= i < |a| ensures ms[i] == ns[i] {}
    }
  }

  /** Compares everything but the match lists. */
  predicate EqualRest(a: RuleNode, b: RuleNode, ghost sa: Shape, ghost sb: Shape, ghost ra: Rule, ghost rb: Rule)
    requires sa.node == a && sb.node == b && Models(sa, ra) && Models(sb, rb)
    reads sa.repr, sb.repr
    ensures EqualRest(a, b, sa, sb, ra, rb) == (ra.(matches := []) == rb.(matches := []))
    decreases ra, 0
  {
    if a.block.None? || b.block.None? then a.block == b.block && a.meta == b.meta
    else EqualLists(a.block.value, b.block.value, sa.kids, sb.kids, ra.body, rb.body)
  }

  predicate EqualNodes(a: RuleNode, b: RuleNode, ghost sa: Shape, ghost sb: Shape, ghost ra: Rule, ghost rb: Rule)
    requires sa.node == a && sb.node == b && Models(sa, ra) && Models(sb, rb)
    reads sa.repr, sb.repr
    ensures EqualNodes(a, b, sa, sb, ra, rb) == (ra == rb)
    decreases ra, 1
  {
    EqualEntriesHold(a.matches, b.matches, ra.matches, rb.matches);
    EqualEntries(a.matches, b.matches) && EqualRest(a, b, sa, sb, ra, rb)
  }

  predicate EqualLists(a: seq<RuleNode>, b: seq<RuleNode>, ghost sa: seq<Shape>, ghost sb: seq<Shape>,
                       ghost ra: seq<Rule>, ghost rb: seq<Rule>)
    requires a == NodesOf(sa) && b == NodesOf(sb) && ModelsAll(sa, ra) && ModelsAll(sb, rb)
    reads Footprint(sa), Footprint(sb)
    ensures EqualLists(a, b, sa, sb, ra, rb) == (ra == rb)
    decreases ra
  {
    |a| == |b| && forall i :: 0 <= i < |a| ==> EqualNodes(a[i], b[i], sa[i], sb[i], ra[i], rb[i])
  }

  predicate SameHead(a: RuleNode, b: RuleNode, ghost sa: Shape, ghost sb: Shape, ghost ra: Rule, ghost rb: Rule)
    requires sa.node == a && sb.node == b && Models(sa, ra) && Models(sb, rb) && a.matches != []
    reads sa.repr, sb.repr
    ensures ra.matches != [] && SameHead(a, b, sa, sb, ra, rb) == PrefixMatches(ra, rb)
  {
    b.matches != [] && a.matches[0].name == b.matches[0].name && a.matches[0].value == b.matches[0].value
  }

  predicate ArrayMatch(a: RuleNode, b: RuleNode, ghost sa: Shape, ghost sb: Shape, ghost ra: Rule, ghost rb: Rule)
    requires sa.node == a && sb.node == b && Models(sa, ra) && Models(sb, rb)
    reads sa.repr, sb.repr
    ensures ArrayMatch(a, b, sa, sb, ra, rb) == ArrayMatches(ra, rb)
  {
    if a.matches == [] || b.matches == [] then false
    else
      assert Hold(a.matches[1..], ra.matches[1..]) && Hold(b.matches[1..], rb.matches[1..]);
      EqualEntriesHold(a.matches[1..], b.matches[1..], ra.matches[1..], rb.matches[1..]);
      && CanJoinArray(a.matches[0].value) && CanJoinArray(b.matches[0].value)
      && a.matches[0].name == b.matches[0].name
      && EqualEntries(a.matches[1..], b.matches[1..]) && EqualRest(a, b, sa, sb, ra, rb)
  }

  // --- counting runs ------------------------------------------------------

  lemma PrefixStep(f: Rule, rules: seq<Rule>, n: nat)
    requires n < |rules| && f.matches != []
    ensures PrefixCount(f, rules[n..]) == if PrefixMatches(f, rules[n]) then 1 + PrefixCount(f, rules[n + 1..]) else 0
  {
    assert rules[n..][1..] == rules[n + 1..];
  }

  lemma ArrayStep(f: Rule, rules: seq<Rule>, n: nat)
    requires n < |rules|
    ensures ArrayRun(f, rules[n..]) == if ArrayMatches(f, rules[n]) then 1 + ArrayRun(f, rules[n + 1..]) else 0
  {
    assert rules[n..][1..] == rules[n + 1..];
  }

  method CountPrefix(first: RuleNode, rules: seq<RuleNode>, ghost sf: Shape, ghost ss: seq<Shape>,
                     ghost rf: Rule, ghost rs: seq<Rule>) returns (n: nat)
    requires sf.node == first && Models(sf, rf) && first.matches != [] && rules == NodesOf(ss) && ModelsAll(ss, rs)
    ensures rf.matches != [] && n == PrefixCount(rf, rs)
  {
    n := 0;
    while n < |rules|
      invariant n <= |rules| && PrefixCount(rf, rs) == n + PrefixCount(rf, rs[n..])
    {
      assert Models(ss[n], rs[n]);
      PrefixStep(rf, rs, n);
      if !SameHead(first, rules[n], sf, ss[n], rf, rs[n]) { break; }
      n := n + 1;
    }
  }

  method CountArray(first: RuleNode, rules: seq<RuleNode>, ghost sf: Shape, ghost ss: seq<Shape>,
                    ghost rf: Rule, ghost rs: seq<Rule>) returns (n: nat)
    requires sf.node == first && Models(sf, rf) && rules == NodesOf(ss) && ModelsAll(ss, rs)
    ensures n == ArrayCount(rf, rs)
  {
    n := 0;
    if first.matches == [] { return; }
    var keywords := first.meta.matchKeywords;
    var name := first.matches[0].name;
    if keywords.Some? && name in keywords.value && keywords.value[name] == Letters("s") { return; }
    while n < |rules|
      invariant n <= |rules| && ArrayRun(rf, rs) == n + ArrayRun(rf, rs[n..])
    {
      assert Models(ss[n], rs[n]);
      ArrayStep(rf, rs, n);
      if !ArrayMatch(first, rules[n], sf, ss[n], rf, rs[n]) { break; }
      n := n + 1;
    }
  }
}
