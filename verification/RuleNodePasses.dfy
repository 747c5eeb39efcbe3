/** The two passes of the optimiser over rule objects, each proved against its value-level twin. */
module RuleNodePasses {
  import opened Seqs
  import opened RuleTree
  import opened RuleNodes

  ghost function Popped(s: Shape): Shape
    requires s.entries != []
  {
    s.(entries := s.entries[1..], repr := s.repr - {s.entries[0]})
  }

  ghost function Pushed(e: MatchEntry, s: Shape): Shape {
    s.(entries := [e] + s.entries, repr := s.repr + {e})
  }

  ghost predicate AllHeaded(ss: seq<Shape>) {
    forall i :: 0 <= i < |ss| ==> ss[i].entries != []
  }

  ghost function PoppedAll(ss: seq<Shape>): (r: seq<Shape>)
    requires AllHeaded(ss)
    ensures |r| == |ss| && forall i :: 0 <= i < |r| ==> r[i] == Popped(ss[i])
  {
    seq(|ss|, i requires 0 <= i < |ss| => Popped(ss[i]))
  }

  // --- pass 1 -------------------------------------------------------------

  /** Removes the leading match of one rule, in place. */
  method PopHead(node: RuleNode, ghost s: Shape, ghost r: Rule)
    requires node == s.node && Models(s, r) && s.entries != []
    modifies node
    ensures r.matches != [] && Models(Popped(s), Tail(r))
  {
    node.matches := node.matches[1..];
  }

  /** Puts a match entry in front of one rule, in place. */
  method PushHead(node: RuleNode, e: MatchEntry, ghost s: Shape, ghost r: Rule)
    requires node == s.node && Models(s, r) && e !in s.repr
    modifies node
    ensures Models(Pushed(e, s), Prepend(Entry(e.name, e.value), r))
  {
    node.matches := [e] + node.matches;
  }

  method PopHeads(group: seq<RuleNode>, ghost ss: seq<Shape>, ghost rs: seq<Rule>)
    requires group == NodesOf(ss) && ModelsAll(ss, rs) && AllHeaded(ss) && Headed(rs)
    modifies group
    ensures ModelsAll(PoppedAll(ss), Tails(rs))
  {
    ghost var ts, want := PoppedAll(ss), Tails(rs);
    for i := 0 to |group|
      invariant forall k :: 0 <= k < i ==> Models(ts[k], want[k])
      invariant forall k :: i <= k < |ss| ==> Models(ss[k], rs[k])
    {
      assert Models(ss[i], rs[i]);
      assert forall k :: 0 <= k < |ss| && k != i ==> group[i] !in ss[k].repr;
      PopHead(group[i], ss[i], rs[i]);
      assert Models(ts[i], want[i]);
    }
  }

  lemma HeadedShapes(ss: seq<Shape>, rs: seq<Rule>)
    requires ModelsAll(ss, rs) && Headed(rs)
    ensures AllHeaded(ss) && Footprint(PoppedAll(ss)) <= Footprint(ss)
    ensures ss != [] ==> ss[0].entries[0] in Footprint(ss) - Footprint(PoppedAll(ss))
  {
    forall i | 0 <= i < |ss| ensures ss[i].entries != [] { assert Models(ss[i], rs[i]); }
    forall o | o in Footprint(PoppedAll(ss)) ensures o in Footprint(ss) {
      var i: nat :| i < |ss| && o in PoppedAll(ss)[i].repr;
      assert o in ss[i].repr;
    }
    if ss != [] {
      assert Models(ss[0], rs[0]) && ss[0].entries[0] in ss[0].repr;
    }
  }

  /** Takes the shared head off every rule of a run and hands back the first rule's entry. */
  method PopShared(group: seq<RuleNode>, ghost ss: seq<Shape>, ghost rs: seq<Rule>)
    returns (head: MatchEntry, ghost ts: seq<Shape>)
    requires group != [] && group == NodesOf(ss) && ModelsAll(ss, rs) && Headed(rs)
    modifies group
    ensures group == NodesOf(ts) && ModelsAll(ts, Tails(rs)) && Footprint(ts) <= Footprint(ss)
    ensures head in Footprint(ss) - Footprint(ts) && Entry(head.name, head.value) == rs[0].matches[0]
  {
    HeadedShapes(ss, rs);
    assert Models(ss[0], rs[0]);
    head, ts := group[0].matches[0], PoppedAll(ss);
    PopHeads(group, ss, rs);
  }

  /** Hangs an optimised list under a head: one survivor takes it back, several become a block. */
  method Hang(head: MatchEntry, block: seq<RuleNode>, ghost kids: seq<Shape>, ghost rs: seq<Rule>)
    returns (r: RuleNode, ghost s: Shape)
    requires block == NodesOf(kids) && ModelsAll(kids, rs) && head !in Footprint(kids)
    modifies block
    ensures s.node == r && fresh(s.repr - Footprint(kids) - {head})
    ensures Models(s, Factor(Entry(head.name, head.value), rs))
  {
    if |block| == 1 {
      assert Models(kids[0], rs[0]) && kids[0].repr <= Footprint(kids);
      r, s := block[0], Pushed(head, kids[0]);
      PushHead(r, head, kids[0], rs[0]);
    } else {
      r := new RuleNode([head], EmptyMeta(), Some(block));
      s := BlockShape(r, [head], kids, {r, head} + Footprint(kids));
    }
  }

  /** Pops the shared head and optimises what remains of the run. */
  method OptimizeBelow(group: seq<RuleNode>, ghost ss: seq<Shape>, ghost rs: seq<Rule>)
    returns (head: MatchEntry, block: seq<RuleNode>, ghost kids: seq<Shape>)
    requires group != [] && group == NodesOf(ss) && ModelsAll(ss, rs) && Headed(rs)
    modifies Footprint(ss)
    ensures block == NodesOf(kids) && fresh(Footprint(kids) - Footprint(ss)) && ModelsAll(kids, Optimize(Tails(rs)))
    ensures head in Footprint(ss) && head !in Footprint(kids) && Entry(head.name, head.value) == rs[0].matches[0]
    decreases HeadEntries(rs), |rs|, 0
  {
    ghost var popped;
    HeadEntriesTails(rs);
    head, popped := PopShared(group, ss, rs);
    block, kids := OptimizeNodes(group, popped, Tails(rs));
  }

  /** Pass 1 on one run: pop the shared head, optimise what remains, and hang it under the head. */
  method FactorRun(group: seq<RuleNode>, ghost ss: seq<Shape>, ghost rs: seq<Rule>)
    returns (r: RuleNode, ghost s: Shape)
    requires |group| > 1 && group == NodesOf(ss) && ModelsAll(ss, rs) && Headed(rs)
    modifies Footprint(ss)
    ensures s.node == r && fresh(s.repr - Footprint(ss))
    ensures Models(s, Factor(rs[0].matches[0], Optimize(Tails(rs))))
    decreases HeadEntries(rs), |rs|, 1
  {
    ghost var kids;
    var head, block;
    head, block, kids := OptimizeBelow(group, ss, rs);
    r, s := Hang(head, block, kids, Optimize(Tails(rs)));
  }

  /** How many rules at the front pass 1 takes in one go. */
  function RunLength(rules: seq<Rule>): (n: nat)
    requires rules != []
    ensures 1 <= n <= |rules|
  {
    if rules[0].matches == [] then 1 else LeadingRun(rules)
  }

  /** What pass 1 makes of the run at the front. */
  function RunResult(rules: seq<Rule>): Rule
    requires rules != []
  {
    var n := RunLength(rules);
    if n == 1 then rules[0] else Factor(rules[0].matches[0], Optimize(Tails(rules[..n])))
  }

  lemma FactorPassStep(rules: seq<Rule>)
    requires rules != []
    ensures FactorPass(rules) == [RunResult(rules)] + FactorPass(rules[RunLength(rules)..])
  {
  }

  method MeasureRun(rules: seq<RuleNode>, ghost ss: seq<Shape>, ghost rs: seq<Rule>) returns (n: nat)
    requires rules != [] && rules == NodesOf(ss) && ModelsAll(ss, rs)
    ensures n == RunLength(rs)
  {
    assert Models(ss[0], rs[0]);
    if rules[0].matches == [] { return 1; }
    n := CountPrefix(rules[0], rules[1..], ss[0], ss[1..], rs[0], rs[1..]);
    n := n + 1;
  }

  /** Pass 1 on the run at the front, in place. */
  method FactorFirst(rules: seq<RuleNode>, n: nat, ghost ss: seq<Shape>, ghost rs: seq<Rule>)
    returns (r: RuleNode, ghost s: Shape)
    requires rules != [] && rules == NodesOf(ss) && ModelsAll(ss, rs) && n == RunLength(rs)
    modifies Footprint(ss[..n])
    ensures s.node == r && fresh(s.repr - Footprint(ss[..n])) && Models(s, RunResult(rs))
    decreases HeadEntries(rs), |rs|, 2
  {
    if n == 1 {
      assert Models(ss[0], rs[0]);
      r, s := rules[0], ss[0];
      assert ss[..1][0] == s && s.repr <= Footprint(ss[..1]);
    } else {
      HeadEntriesSplit(rs, n);
      r, s := FactorRun(rules[..n], ss[..n], rs[..n]);
    }
  }

  lemma FootprintParts(ss: seq<Shape>, n: nat)
    requires n <= |ss|
    ensures Footprint(ss[..n]) + Footprint(ss[n..]) == Footprint(ss)
    ensures Separate(ss) ==> Footprint(ss[..n]) !! Footprint(ss[n..])
  {
    FootprintSplit(ss[..n], ss[n..]);
    assert ss[..n] + ss[n..] == ss;
  }

  lemma ModelsParts(ss: seq<Shape>, rs: seq<Rule>, n: nat)
    requires ModelsAll(ss, rs) && n <= |ss|
    ensures ModelsAll(ss[..n], rs[..n]) && ModelsAll(ss[n..], rs[n..])
    ensures Footprint(ss[..n]) + Footprint(ss[n..]) == Footprint(ss) && Footprint(ss[..n]) !! Footprint(ss[n..])
  {
    FootprintParts(ss, n);
  }

  /** A list being consumed from the front (`left`) and its output so far (`res`), apart on the heap. */
  ghost predicate Underway(work: seq<RuleNode>, left: seq<Shape>, want: seq<Rule>,
                           result: seq<RuleNode>, res: seq<Shape>, done: seq<Rule>)
    reads Footprint(left), Footprint(res)
  {
    && work == NodesOf(left) && ModelsAll(left, want)
    && result == NodesOf(res) && ModelsAll(res, done)
    && Footprint(res) !! Footprint(left)
  }

  lemma FootprintOfOne(s: Shape)
    ensures Footprint([s]) == s.repr
  {
    forall o | o in s.repr ensures o in Footprint([s]) { assert o in [s][0].repr; }
  }

  lemma Start(work: seq<RuleNode>, left: seq<Shape>, want: seq<Rule>)
    requires work == NodesOf(left) && ModelsAll(left, want)
    ensures Underway(work, left, want, [], [], []) && Footprint([]) == {}
  {
  }

  /** The run at the front has become one rule, apart from what is left: move it to the output. */
  lemma Advance(work: seq<RuleNode>, left: seq<Shape>, want: seq<Rule>, n: nat,
                result: seq<RuleNode>, res: seq<Shape>, done: seq<Rule>, s: Shape, r: Rule)
    requires 1 <= n <= |left| && work == NodesOf(left) && ModelsAll(left[n..], want) && result == NodesOf(res)
    requires ModelsAll(res, done) && Models(s, r) && Footprint(res) !! s.repr
    requires Footprint(res) !! Footprint(left[n..]) && s.repr !! Footprint(left[n..])
    ensures Underway(work[n..], left[n..], want, result + [s.node], res + [s], done + [r])
    ensures Footprint(res + [s]) == Footprint(res) + s.repr
  {
    FootprintSplit(res, [s]);
    FootprintOfOne(s);
    forall i | 0 <= i < |res| ensures res[i].repr !! s.repr { assert res[i].repr <= Footprint(res); }
  }

  /** The output so far is the front of the final output, and what is left yields the rest of it. */
  ghost predicate OnTrack(done: seq<Rule>, rest: seq<Rule>, all: seq<Rule>) {
    |done| <= |all| && done == all[..|done|] && rest == all[|done|..]
  }

  lemma NextOnTrack(done: seq<Rule>, rest: seq<Rule>, all: seq<Rule>, r: Rule, later: seq<Rule>)
    requires OnTrack(done, rest, all) && rest == [r] + later
    ensures OnTrack(done + [r], later, all)
  {
    assert rest[0] == all[|done|];
    assert later == rest[1..];
  }

  /** One turn of pass 1: the run at the front is factored, everything behind it is untouched. */
  method FactorNext(rules: seq<RuleNode>, ghost ss: seq<Shape>, ghost rs: seq<Rule>)
    returns (n: nat, r: RuleNode, ghost s: Shape)
    requires rules != [] && rules == NodesOf(ss) && ModelsAll(ss, rs)
    modifies Footprint(ss)
    ensures 1 <= n <= |rules| && n == RunLength(rs)
    ensures s.node == r && fresh(s.repr - Footprint(ss)) && s.repr !! Footprint(ss[n..])
    ensures Models(s, RunResult(rs)) && ModelsAll(ss[n..], rs[n..])
    decreases HeadEntries(rs), |rs|, 3
  {
    n := MeasureRun(rules, ss, rs);
    ModelsParts(ss, rs, n);
    r, s := FactorFirst(rules, n, ss, rs);
  }

  method FactorNodes(rules: seq<RuleNode>, ghost ss: seq<Shape>, ghost rs: seq<Rule>)
    returns (result: seq<RuleNode>, ghost res: seq<Shape>)
    requires rules == NodesOf(ss) && ModelsAll(ss, rs)
    modifies Footprint(ss)
    ensures result == NodesOf(res) && fresh(Footprint(res) - Footprint(ss)) && ModelsAll(res, FactorPass(rs))
    decreases HeadEntries(rs), |rs|, 4
  {
    result, res := [], [];
    ghost var done: seq<Rule>, left, want := [], ss, rs;
    var work := rules;
    ghost var all := FactorPass(rs);
    ghost var rest := all;
    Start(work, left, want);
    while work != []
      invariant Underway(work, left, want, result, res, done)
      invariant Footprint(left) <= Footprint(ss) && fresh(Footprint(res) - Footprint(ss))
      invariant HeadEntries(want) <= HeadEntries(rs) && |want| <= |rs|
      invariant OnTrack(done, rest, all) && rest == FactorPass(want)
    {
      var n, r;
      ghost var s;
      n, r, s := FactorNext(work, left, want);
      FootprintParts(left, n);
      HeadEntriesSplit(want, n);
      FactorPassStep(want);
      NextOnTrack(done, rest, all, RunResult(want), FactorPass(want[n..]));
      Advance(work, left, want[n..], n, result, res, done, s, RunResult(want));
      result, res, done := result + [r], res + [s], done + [RunResult(want)];
      rest := FactorPass(want[n..]);
      work, left, want := work[n..], left[n..], want[n..];
    }
  }

  // --- pass 2 -------------------------------------------------------------

  lemma GatherStep(rs: seq<Rule>, i: nat, params: seq<Value>)
    requires i < |rs| && Headed(rs) && params + Gather(rs[i..]) == Gather(rs)
    ensures params + ValueItems(rs[i].matches[0].value) + Gather(rs[i + 1..]) == Gather(rs)
  {
    assert rs[i..][1..] == rs[i + 1..];
    var items, rest := ValueItems(rs[i].matches[0].value), Gather(rs[i + 1..]);
    assert Gather(rs[i..]) == items + rest;
    assert params + (items + rest) == params + items + rest;
  }

  method GatherNodes(group: seq<RuleNode>, ghost ss: seq<Shape>, ghost rs: seq<Rule>) returns (params: seq<Value>)
    requires group == NodesOf(ss) && ModelsAll(ss, rs) && Headed(rs)
    ensures params == Gather(rs)
  {
    params := [];
    for i := 0 to |group|
      invariant params + Gather(rs[i..]) == Gather(rs)
    {
      assert Models(ss[i], rs[i]);
      GatherStep(rs, i, params);
      var value := group[i].matches[0].value;
      params := params + if value.List? then value.items else [value];
    }
  }

  /** Pass 2 on one run: the first rule's head becomes the array, in place. */
  method MergeRunNodes(group: seq<RuleNode>, ghost ss: seq<Shape>, ghost rs: seq<Rule>)
    requires group == NodesOf(ss) && ModelsAll(ss, rs) && Mergeable(rs)
    modifies Footprint(ss)
    ensures Models(ss[0], MergeHeads(rs))
  {
    var params := GatherNodes(group, ss, rs);
    assert Models(ss[0], rs[0]) && ss[0].repr <= Footprint(ss);
    group[0].matches[0].value := List(params);
  }

  /** What pass 2 makes of the run at the front. */
  function MergeResult(rules: seq<Rule>): Rule
    requires rules != []
  {
    if MergeRun(rules) == 1 then rules[0] else MergeHeads(rules[..MergeRun(rules)])
  }

  lemma ArrayPassStep(rules: seq<Rule>)
    requires rules != []
    ensures ArrayPass(rules) == [MergeResult(rules)] + ArrayPass(rules[MergeRun(rules)..])
  {
  }

  method MeasureMerge(rules: seq<RuleNode>, ghost ss: seq<Shape>, ghost rs: seq<Rule>) returns (n: nat)
    requires rules != [] && rules == NodesOf(ss) && ModelsAll(ss, rs)
    ensures n == MergeRun(rs)
  {
    assert Models(ss[0], rs[0]);
    n := CountArray(rules[0], rules[1..], ss[0], ss[1..], rs[0], rs[1..]);
    n := n + 1;
  }

  /** One turn of pass 2: the run at the front is merged, everything behind it is untouched. */
  method MergeNext(rules: seq<RuleNode>, ghost ss: seq<Shape>, ghost rs: seq<Rule>) returns (n: nat)
    requires rules != [] && rules == NodesOf(ss) && ModelsAll(ss, rs)
    modifies Footprint(ss)
    ensures 1 <= n <= |rules| && n == MergeRun(rs)
    ensures Models(ss[0], MergeResult(rs)) && ModelsAll(ss[n..], rs[n..])
  {
    n := MeasureMerge(rules, ss, rs);
    assert Models(ss[0], rs[0]);
    ModelsParts(ss, rs, n);
    if n > 1 {
      MergeRunNodes(rules[..n], ss[..n], rs[..n]);
    }
  }

  method ArrayNodes(rules: seq<RuleNode>, ghost ss: seq<Shape>, ghost rs: seq<Rule>)
    returns (result: seq<RuleNode>, ghost res: seq<Shape>)
    requires rules == NodesOf(ss) && ModelsAll(ss, rs)
    modifies Footprint(ss)
    ensures result == NodesOf(res) && Footprint(res) <= Footprint(ss) && ModelsAll(res, ArrayPass(rs))
  {
    result, res := [], [];
    ghost var done: seq<Rule>, left, want := [], ss, rs;
    var work := rules;
    ghost var all := ArrayPass(rs);
    ghost var rest := all;
    Start(work, left, want);
    while work != []
      invariant Underway(work, left, want, result, res, done)
      invariant Footprint(left) <= Footprint(ss) && Footprint(res) <= Footprint(ss)
      invariant OnTrack(done, rest, all) && rest == ArrayPass(want)
    {
      var r := work[0];
      ghost var s := left[0];
      var n := MergeNext(work, left, want);
      FootprintParts(left, n);
      assert left[..n][0] == s && s.repr <= Footprint(left[..n]);
      ArrayPassStep(want);
      NextOnTrack(done, rest, all, MergeResult(want), ArrayPass(want[n..]));
      Advance(work, left, want[n..], n, result, res, done, s, MergeResult(want));
      result, res, done := result + [r], res + [s], done + [MergeResult(want)];
      rest := ArrayPass(want[n..]);
      work, left, want := work[n..], left[n..], want[n..];
    }
  }

  /** The optimiser in place: the objects it returns hold exactly `Optimize` of what they held. */
  method OptimizeNodes(rules: seq<RuleNode>, ghost ss: seq<Shape>, ghost rs: seq<Rule>)
    returns (result: seq<RuleNode>, ghost res: seq<Shape>)
    requires rules == NodesOf(ss) && ModelsAll(ss, rs)
    modifies Footprint(ss)
    ensures result == NodesOf(res) && fresh(Footprint(res) - Footprint(ss)) && ModelsAll(res, Optimize(rs))
    decreases HeadEntries(rs), |rs|, 5
  {
    result, res := FactorNodes(rules, ss, rs);
    result, res := ArrayNodes(result, res, FactorPass(rs));
  }
}
