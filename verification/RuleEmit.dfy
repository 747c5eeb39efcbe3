/** Emitting a rule list: `flush` optimises, writes one line per rule, and flushes every block inside its braces. */
module RuleEmit {
  import opened Seqs
  import opened RuleTree
  import opened RuleTreeSize
  import opened RuleTreeMerges
  import opened RuleTreeReading
  import opened RuleTreeMeaning
  import opened RuleNodes
  import opened RuleNodePasses

  /** The action part of a written rule. */
  datatype Action = Action(jump: Option<string>, goto: Option<string>, target: Option<seq<Entry>>)

  /** One written line and its indentation level. */
  datatype Line =
    | Statement(depth: nat, matches: seq<Entry>, action: Action)
    | Opening(depth: nat, matches: seq<Entry>)
    | Closing(depth: nat)

  function ActionOf(meta: Meta): Action {
    Action(meta.jump, meta.goto, meta.target)
  }

  function Render(r: Rule, depth: nat): seq<Line> {
    if r.Leaf? then [Statement(depth, r.matches, ActionOf(r.meta))]
    else [Opening(depth, r.matches)] + RenderAll(r.body, depth + 1) + [Closing(depth)]
  }

  function RenderAll(rules: seq<Rule>, depth: nat): seq<Line> {
    if rules == [] then [] else Render(rules[0], depth) + RenderAll(rules[1..], depth)
  }

  // --- reading the lines back ---------------------------------------------

  /** What is left of a tree on paper: actions without the parser's bookkeeping. */
  function OnPaper(meta: Meta): Meta {
    Meta(map[], {}, None, meta.jump, meta.goto, meta.target, None)
  }

  function Written(rules: seq<Rule>): seq<Rule> {
    if rules == [] then []
    else [if rules[0].Leaf? then Leaf(rules[0].matches, OnPaper(rules[0].meta))
          else Block(rules[0].matches, Written(rules[0].body))] + Written(rules[1..])
  }

  /** Reads rules up to the first unmatched closing line (or the end) and returns what follows. */
  function Read(lines: seq<Line>): (r: (seq<Rule>, seq<Line>))
    ensures |r.1| <= |lines|
    decreases |lines|
  {
    if lines == [] || lines[0].Closing? then ([], lines)
    else if lines[0].Statement? then
      var a := lines[0].action;
      var (rest, after) := Read(lines[1..]);
      ([Leaf(lines[0].matches, Meta(map[], {}, None, a.jump, a.goto, a.target, None))] + rest, after)
    else
      var (body, tail) := Read(lines[1..]);
      var (rest, after) := Read(if tail == [] then [] else tail[1..]);
      ([Block(lines[0].matches, body)] + rest, after)
  }

  lemma ReadLeaf(r: Rule, depth: nat, rest: seq<Line>)
    requires r.Leaf?
    ensures var (rules, after) := Read(rest);
            Read(Render(r, depth) + rest) == ([Leaf(r.matches, OnPaper(r.meta))] + rules, after)
  {
    assert (Render(r, depth) + rest)[1..] == rest;
  }

  lemma ReadBlock(r: Rule, depth: nat, body: seq<Rule>, rest: seq<Line>)
    requires r.Block?
    requires Read(RenderAll(r.body, depth + 1) + ([Closing(depth)] + rest)) == (body, [Closing(depth)] + rest)
    ensures var (rules, after) := Read(rest);
            Read(Render(r, depth) + rest) == ([Block(r.matches, body)] + rules, after)
  {
    var inner := [Closing(depth)] + rest;
    assert (Render(r, depth) + rest)[1..] == RenderAll(r.body, depth + 1) + inner;
    assert inner[1..] == rest;
  }

  /** The lines determine the tree: reading back what was written gives every rule and block again. */
  lemma {:induction false} ReadBack(rules: seq<Rule>, depth: nat, after: seq<Line>)
    requires after == [] || after[0].Closing?
    ensures Read(RenderAll(rules, depth) + after) == (Written(rules), after)
  {
    if rules == [] {
      assert RenderAll(rules, depth) + after == after;
    } else {
      var rest := RenderAll(rules[1..], depth) + after;
      assert RenderAll(rules, depth) + after == Render(rules[0], depth) + rest;
      ReadBack(rules[1..], depth, after);
      if rules[0].Leaf? {
        ReadLeaf(rules[0], depth, rest);
      } else {
        ReadBack(rules[0].body, depth + 1, [Closing(depth)] + rest);
        ReadBlock(rules[0], depth, Written(rules[0].body), rest);
      }
    }
  }

  // --- indentation ----------------------------------------------------------

  /** The braces open in front of line `i`. */
  function OpenBefore(lines: seq<Line>, i: nat): int
    requires i <= |lines|
  {
    if i == 0 then 0
    else OpenBefore(lines, i - 1) + if lines[i - 1].Opening? then 1 else if lines[i - 1].Closing? then -1 else 0
  }

  /** Every line stands as deep as braces are open around it, a closing one with its opening one. */
  predicate Indented(lines: seq<Line>, depth: nat) {
    forall i :: 0 <= i < |lines| ==>
      lines[i].depth == depth + OpenBefore(lines, i) - if lines[i].Closing? then 1 else 0
  }

  lemma {:induction false} OpenAppend(a: seq<Line>, b: seq<Line>, i: nat)
    requires i <= |a| + |b|
    ensures OpenBefore(a + b, i) == if i <= |a| then OpenBefore(a, i) else OpenBefore(a, |a|) + OpenBefore(b, i - |a|)
  {
    if i > 0 { OpenAppend(a, b, i - 1); }
  }

  lemma IndentedAppend(a: seq<Line>, b: seq<Line>, depth: nat, inner: nat)
    requires Indented(a, depth) && Indented(b, inner) && inner == depth + OpenBefore(a, |a|)
    ensures Indented(a + b, depth)
    ensures OpenBefore(a + b, |a + b|) == OpenBefore(a, |a|) + OpenBefore(b, |b|)
  {
    hide OpenBefore;
    OpenAppend(a, b, |a| + |b|);
    if b == [] { OpenNone(b); }
    var all := a + b;
    forall i | 0 <= i < |all|
      ensures all[i].depth == depth + OpenBefore(all, i) - if all[i].Closing? then 1 else 0
    {
      OpenAppend(a, b, i);
      if i >= |a| { assert all[i] == b[i - |a|]; OpenNone(b); } else { assert all[i] == a[i]; }
    }
  }

  lemma OpenNone(lines: seq<Line>)
    ensures OpenBefore(lines, 0) == 0
  {
  }

  /** A rendered tree is indented by its braces, and closes all of them. */
  lemma {:induction false} RenderIndents(rules: seq<Rule>, depth: nat)
    ensures Indented(RenderAll(rules, depth), depth)
    ensures OpenBefore(RenderAll(rules, depth), |RenderAll(rules, depth)|) == 0
  {
    if rules != [] {
      var r := rules[0];
      if r.Block? {
        var head, body, tail := [Opening(depth, r.matches)], RenderAll(r.body, depth + 1), [Closing(depth)];
        RenderIndents(r.body, depth + 1);
        OneLine(head[0]);
        OneLine(tail[0]);
        IndentedAppend(head, body, depth, depth + 1);
        IndentedAppend(head + body, tail, depth, depth + 1);
      } else {
        OneLine(Render(r, depth)[0]);
      }
      RenderIndents(rules[1..], depth);
      IndentedAppend(Render(r, depth), RenderAll(rules[1..], depth), depth, depth);
    }
  }

  lemma OneLine(line: Line)
    ensures OpenBefore([line], 1) == if line.Opening? then 1 else if line.Closing? then -1 else 0
    ensures Indented([line], if line.Closing? then line.depth + 1 else line.depth)
  {
    assert OpenBefore([line], 0) == 0;
  }

  /** Verdicts that depend on actions alone survive the trip through paper. */
  lemma {:induction false} WrittenVerdict<V>(rules: seq<Rule>, p: Packet, policy: Policy<V>)
    requires forall meta :: policy(meta) == policy(OnPaper(meta))
    ensures FirstMatch(Written(rules), p, policy) == FirstMatch(rules, p, policy)
  {
    if rules != [] {
      if rules[0].Block? { WrittenVerdict(rules[0].body, p, policy); }
      WrittenVerdict(rules[1..], p, policy);
    }
  }

  lemma {:induction false} WrittenLoads(how: Reading, rules: seq<Rule>)
    ensures Loads(how, Written(rules)) <==> Loads(how, rules)
  {
    if rules != [] {
      var r := rules[0];
      if r.Block? { WrittenLoads(how, r.body); }
      WrittenLoads(how, rules[1..]);
      LoadsCons(how, r, rules[1..]);
      assert [r] + rules[1..] == rules;
      LoadsCons(how, Written(rules)[0], Written(rules[1..]));
    }
  }

  /**
   * From flat rules to the written file and back: what is read does to every packet what the
   * input did if and only if no run was merged on an option that takes exactly one string.
   */
  lemma {:induction false} EmittedFileVerdict<V>(rules: seq<Rule>, p: Packet, policy: Policy<V>)
    requires AllFilled(rules) && Loads(p.how, rules) && MergedOn(FlushRuns(rules), UnitingOrRefused(p))
    requires forall meta :: policy(meta) == policy(OnPaper(meta))
    ensures FileOutcome(Read(RenderAll(Flush(rules), 0)).0, p, policy) == FileOutcome(rules, p, policy)
            <==> MergedOn(FlushRuns(rules), Readable(p.how))
  {
    assert RenderAll(Flush(rules), 0) + [] == RenderAll(Flush(rules), 0);
    ReadBack(Flush(rules), 0, []);
    WrittenVerdict(Flush(rules), p, policy);
    WrittenLoads(p.how, Flush(rules));
    FlushOutcome(rules, p, policy);
  }

  // --- the emitter ----------------------------------------------------------

  /** What becomes of one optimised rule: a block's body is flushed again. */
  function Reflushed(r: Rule): Rule {
    if r.Block? then Block(r.matches, Flush(r.body)) else r
  }

  /** `lines` followed by the rendering of the flushed `rest` is the rendering of the flushed `rules`. */
  ghost predicate Precedes(lines: seq<Line>, rest: seq<Rule>, rules: seq<Rule>, depth: nat) {
    lines + RenderAll(FlushEach(rest), depth) == RenderAll(FlushEach(rules), depth)
  }

  lemma PrecedesEnds(lines: seq<Line>, rules: seq<Rule>, depth: nat)
    ensures Precedes([], rules, rules, depth)
    ensures Precedes(lines, [], rules, depth) ==> lines == RenderAll(FlushEach(rules), depth)
  {
    assert RenderAll(FlushEach([]), depth) == [];
  }

  lemma PrecedesStep(lines: seq<Line>, rules: seq<Rule>, i: nat, depth: nat)
    requires i < |rules| && Precedes(lines, rules[i..], rules, depth)
    ensures Precedes(lines + Render(Reflushed(rules[i]), depth), rules[i + 1..], rules, depth)
  {
    var rest := rules[i..];
    assert rest[1..] == rules[i + 1..];
    assert FlushEach(rest)[1..] == FlushEach(rest[1..]);
    var here, later := Render(Reflushed(rules[i]), depth), RenderAll(FlushEach(rules[i + 1..]), depth);
    assert RenderAll(FlushEach(rest), depth) == here + later;
    assert lines + (here + later) == lines + here + later;
  }

  lemma {:induction false} WeightOfTail(rules: seq<Rule>, i: nat)
    requires i <= |rules|
    ensures Weight(rules[i..]) <= Weight(rules)
  {
    if i == 0 {
      assert rules[0..] == rules;
    } else {
      WeightUnfolds(rules);
      WeightOfTail(rules[1..], i - 1);
      assert rules[1..][i - 1..] == rules[i..];
    }
  }

  class Importer {
    var out: seq<Line>
    var indent: nat
    var rules: seq<RuleNode>

    constructor ()
      ensures out == [] && indent == 0 && rules == []
    {
      out, indent, rules := [], 0, [];
    }

    /** The values of a rule's match list, as they are written. */
    method Shown(node: RuleNode, ghost s: Shape, ghost r: Rule) returns (matches: seq<Entry>)
      requires s.node == node && Models(s, r)
      ensures matches == r.matches
    {
      matches := [];
      for i := 0 to |node.matches|
        invariant matches == r.matches[..i]
      {
        matches := matches + [Entry(node.matches[i].name, node.matches[i].value)];
      }
    }

    method Open(matches: seq<Entry>)
      modifies this`out, this`indent
      ensures out == old(out) + [Opening(old(indent), matches)] && indent == old(indent) + 1
    {
      out, indent := out + [Opening(indent, matches)], indent + 1;
    }

    method Close()
      requires indent > 0
      modifies this`out, this`indent
      ensures indent == old(indent) - 1 && out == old(out) + [Closing(indent)]
    {
      indent := indent - 1;
      out := out + [Closing(indent)];
    }

    /** Writes one optimised rule; a block's body is optimised again between its braces. */
    method FlushRule(node: RuleNode, ghost s: Shape, ghost r: Rule)
      requires s.node == node && Models(s, r) && this !in s.repr
      modifies this, s.repr
      ensures indent == old(indent)
      ensures out == old(out) + Render(Reflushed(r), old(indent))
      decreases Weight([r]), 0
    {
      var matches := Shown(node, s, r);
      if node.block.Some? {
        WeightUnfolds([r]);
        Open(matches);
        FlushRules(node.block.value, s.kids, r.body);
        Close();
      } else {
        out := out + [Statement(indent, matches, ActionOf(node.meta))];
      }
    }

    /** Optimises a list in place and writes it: the output grows by exactly the rendering of `Flush`. */
    method FlushRules(source: seq<RuleNode>, ghost ss: seq<Shape>, ghost rs: seq<Rule>)
      requires source == NodesOf(ss) && ModelsAll(ss, rs) && this !in Footprint(ss)
      modifies this, Footprint(ss)
      ensures indent == old(indent) && rules == []
      ensures out == old(out) + RenderAll(Flush(rs), old(indent))
      decreases Weight(rs), 3
    {
      ghost var res;
      var work;
      OptimizeSize(rs);
      work, res := OptimizeNodes(source, ss, rs);
      FlushList(work, res, Optimize(rs));
      rules := [];
    }

    /** Writes the first rule of a list and leaves the others as they are. */
    method FlushFirst(node: RuleNode, ghost ss: seq<Shape>, ghost rs: seq<Rule>)
      requires ss != [] && ss[0].node == node && ModelsAll(ss, rs) && this !in Footprint(ss)
      modifies this, Footprint(ss)
      ensures indent == old(indent) && ModelsAll(ss[1..], rs[1..]) && Footprint(ss[1..]) <= Footprint(ss)
      ensures out == old(out) + Render(Reflushed(rs[0]), old(indent))
      decreases Weight(rs), 1
    {
      ModelsParts(ss, rs, 1);
      assert Models(ss[0], rs[0]) && ss[..1][0] == ss[0] && ss[0].repr <= Footprint(ss[..1]);
      WeightOfPart(rs, 0);
      FlushRule(node, ss[0], rs[0]);
    }

    method FlushList(work: seq<RuleNode>, ghost ss: seq<Shape>, ghost rs: seq<Rule>)
      requires work == NodesOf(ss) && ModelsAll(ss, rs) && this !in Footprint(ss)
      modifies this, Footprint(ss)
      ensures indent == old(indent)
      ensures out == old(out) + RenderAll(FlushEach(rs), old(indent))
      decreases Weight(rs), 2
    {
      hide Precedes, FlushEach, RenderAll, Render, Reflushed, Models, Footprint, Weight, Separate;
      ghost var lines := [];
      PrecedesEnds([], rs, indent);
      for i := 0 to |work|
        invariant indent == old(indent) && ModelsAll(ss[i..], rs[i..]) && Footprint(ss[i..]) <= Footprint(ss)
        invariant out == old(out) + lines && Precedes(lines, rs[i..], rs, indent)
      {
        assert ss[i..][1..] == ss[i + 1..] && rs[i..][1..] == rs[i + 1..];
        PrecedesStep(lines, rs, i, indent);
        WeightOfTail(rs, i);
        lines := lines + Render(Reflushed(rs[i]), indent);
        FlushFirst(work[i], ss[i..], rs[i..]);
      }
      PrecedesEnds(lines, rs, indent);
    }
  }
}
