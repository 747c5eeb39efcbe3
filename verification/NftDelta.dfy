/**
 * The incremental nft script: what it touches follows from a diff of the running table against the desired
 * one, what it writes is copied from the rendered script.
 */
module NftDelta {
  import opened Seqs
  import opened NftTables
  import opened Ordering

  // --- the diff -------------------------------------------------------------------

  datatype PlanDiff = PlanDiff(
    rebuilt: set<string>, policyChanged: set<string>, ruleChanged: set<string>,
    desuet: set<string>, foreign: set<string>,
    setsAdded: set<string>, setsRemoved: set<string>, setsModified: set<string>,
    objects: set<string>)
  {
    predicate HasChanges() {
      rebuilt + policyChanged + ruleChanged + desuet + foreign + setsAdded + setsRemoved + setsModified + objects != {}
    }
  }

  function Priority(h: Header): Option<string> {
    if h.User? then None else Some(h.priority)
  }

  /** A base chain whose header changed has to be rebuilt when its priority did. */
  predicate Rebuilt(current: Chain, desired: Chain) {
    current.header.Base? && desired.header != current.header && Priority(current.header) != Priority(desired.header)
  }

  predicate PolicyChanged(current: Chain, desired: Chain) {
    current.header.Base? && desired.header != current.header && Priority(current.header) == Priority(desired.header)
  }

  predicate Retyped(current: NftSet, desired: NftSet) {
    current.kind != desired.kind || current.flags != desired.flags
  }

  function Diff(c: Table, d: Table): PlanDiff {
    var both := c.chains.Keys * d.chains.Keys;
    PlanDiff(
      set n | n in both && Rebuilt(c.chains[n], d.chains[n]),
      set n | n in both && PolicyChanged(c.chains[n], d.chains[n]),
      set n | n in d.chains
              && if n in c.chains then !Rebuilt(c.chains[n], d.chains[n]) && c.chains[n].rules != d.chains[n].rules
                 else d.chains[n].rules != [],
      set n | n in c.chains && n !in d.chains && c.chains[n].header.Base?,
      set n | n in c.chains && n !in d.chains && c.chains[n].header.User?,
      set n | n in d.sets && (n !in c.sets || Retyped(c.sets[n], d.sets[n])),
      set n | n in c.sets && (n !in d.sets || Retyped(c.sets[n], d.sets[n])),
      set n | n in d.sets && n in c.sets && !Retyped(c.sets[n], d.sets[n]) && !d.sets[n].IsDynamic()
              && c.sets[n].elements != d.sets[n].elements,
      (c.objects - d.objects) + (d.objects - c.objects))
  }

  // --- the script -----------------------------------------------------------------

  function Rules(n: string, rules: seq<string>): (r: seq<Cmd>)
    ensures |r| == |rules| && forall i :: 0 <= i < |r| ==> r[i] == AddRule(n, rules[i])
  {
    seq(|rules|, i requires 0 <= i < |rules| => AddRule(n, rules[i]))
  }

  /** The commands for one desired chain; none for an unchanged one, whose counters survive. */
  function ChainCmds(c: Table, d: Table, n: string): seq<Cmd>
    requires n in d.chains
  {
    var diff, chain := Diff(c, d), d.chains[n];
    var declare := [AddChain(n, chain.header)];
    if n !in c.chains then declare + Rules(n, chain.rules)
    else if n in diff.rebuilt then [DeleteChain(n)] + declare + Rules(n, chain.rules)
    else if n in diff.ruleChanged then declare + [FlushChain(n)] + Rules(n, chain.rules)
    else if n in diff.policyChanged then declare
    else []
  }

  /** What `xs` holds and `ys` does not, in the order of `xs`. */
  function Without(xs: seq<string>, ys: seq<string>): (r: seq<string>)
    ensures Members(r) == Members(xs) - Members(ys)
  {
    if xs == [] then []
    else
      var rest := Without(xs[1..], ys);
      assert Members(xs) == {xs[0]} + Members(xs[1..]);
      if xs[0] in ys then rest
      else
        assert Members([xs[0]] + rest) == {xs[0]} + Members(rest);
        [xs[0]] + rest
  }

  /** What is left keeps its order: the rest of a list is the rest of its parts. */
  lemma {:induction false} WithoutAppend(a: seq<string>, b: seq<string>, ys: seq<string>)
    ensures Without(a + b, ys) == Without(a, ys) + Without(b, ys)
  {
    if a == [] {
      assert a + b == b;
    } else {
      assert (a + b)[1..] == a[1..] + b;
      WithoutAppend(a[1..], b, ys);
    }
  }

  function SetCmds(c: Table, d: Table, n: string): seq<Cmd>
    requires n in d.sets
  {
    var s := d.sets[n];
    if n !in c.sets then
      [AddSet(n, s.kind, s.flags)] + if s.elements == [] then [] else [AddElements(n, s.elements)]
    else
      var removed, added := Without(c.sets[n].elements, s.elements), Without(s.elements, c.sets[n].elements);
      (if removed == [] then [] else [DeleteElements(n, removed)])
      + if added == [] then [] else [AddElements(n, added)]
  }

  function ChainPart(c: Table, d: Table, names: seq<string>): seq<Cmd>
    requires forall n :: n in names ==> n in d.chains
  {
    if names == [] then [] else ChainCmds(c, d, names[0]) + ChainPart(c, d, names[1..])
  }

  function SetPart(c: Table, d: Table, names: seq<string>): seq<Cmd>
    requires forall n :: n in names ==> n in d.sets
  {
    if names == [] then [] else SetCmds(c, d, names[0]) + SetPart(c, d, names[1..])
  }

  function Deletes(names: seq<string>): (r: seq<Cmd>)
    ensures |r| == |names| && forall i :: 0 <= i < |r| ==> r[i] == DeleteChain(names[i])
  {
    seq(|names|, i requires 0 <= i < |names| => DeleteChain(names[i]))
  }

  /** Sets that are new or whose elements differ. */
  function ChangedSets(c: Table, d: Table): (names: set<string>)
    ensures names <= d.sets.Keys
  {
    Diff(c, d).setsAdded + Diff(c, d).setsModified
  }

  /** Removing or retyping a set, or touching an object, is left to a full reload. */
  predicate NeedsReload(c: Table, d: Table) {
    Diff(c, d).setsRemoved != {} || Diff(c, d).objects != {}
  }

  /** The running set may stay: it is still desired, with the same type. */
  predicate Stays(c: Table, d: Table, n: string)
    requires n in c.sets
  {
    n in d.sets && c.sets[n].kind == d.sets[n].kind && c.sets[n].flags == d.sets[n].flags
  }

  /** An increment is possible exactly when the objects are those running and every running set may stay. */
  lemma ReloadIff(c: Table, d: Table)
    ensures !NeedsReload(c, d) <==> c.objects == d.objects && forall n :: n in c.sets ==> Stays(c, d, n)
  {
    var diff := Diff(c, d);
    if !NeedsReload(c, d) {
      forall n | n in c.sets ensures Stays(c, d, n) { assert n !in diff.setsRemoved; }
      forall o ensures o in c.objects <==> o in d.objects { assert o !in diff.objects; }
    }
    if c.objects == d.objects && forall n :: n in c.sets ==> Stays(c, d, n) {
      assert diff.setsRemoved == {} && diff.objects == {};
    }
  }

  /** Nothing the diff looks at differs: a user chain's header and the elements of a dynamic set are not among it. */
  predicate LooksSame(c: Table, d: Table) {
    && c.objects == d.objects && c.sets.Keys == d.sets.Keys && c.chains.Keys <= d.chains.Keys
    && (forall n :: n in c.sets ==>
          && c.sets[n].kind == d.sets[n].kind && c.sets[n].flags == d.sets[n].flags
          && ("dynamic" in d.sets[n].flags || c.sets[n].elements == d.sets[n].elements))
    && (forall n :: n in c.chains ==>
          && c.chains[n].rules == d.chains[n].rules
          && (c.chains[n].header.User? || c.chains[n].header == d.chains[n].header))
    && forall n :: n in d.chains && n !in c.chains ==> d.chains[n].rules == []
  }

  /** The script is empty exactly when nothing the diff looks at differs. */
  lemma NoChangesIff(c: Table, d: Table)
    ensures !Diff(c, d).HasChanges() <==> LooksSame(c, d)
    ensures Script(c, d) == [] <==> LooksSame(c, d)
  {
    if LooksSame(c, d) {
      SameNoChanges(c, d);
    } else if !Diff(c, d).HasChanges() {
      NoChangesSame(c, d);
    }
  }

  lemma SameNoChanges(c: Table, d: Table)
    requires LooksSame(c, d)
    ensures !Diff(c, d).HasChanges()
  {
    var diff := Diff(c, d);
    assert diff.objects == {} && diff.setsAdded == {} && diff.setsRemoved == {} && diff.setsModified == {};
    assert diff.rebuilt == {} && diff.policyChanged == {} && diff.ruleChanged == {};
    assert diff.desuet == {} && diff.foreign == {};
  }

  lemma NoChangesSame(c: Table, d: Table)
    requires !Diff(c, d).HasChanges()
    ensures LooksSame(c, d)
  {
    var diff := Diff(c, d);
    assert diff.objects == {} && diff.setsAdded == {} && diff.setsRemoved == {} && diff.setsModified == {};
    assert diff.rebuilt == {} && diff.policyChanged == {} && diff.ruleChanged == {};
    assert diff.desuet == {} && diff.foreign == {};
    forall o ensures o in c.objects <==> o in d.objects { assert o !in diff.objects; }
    forall n ensures n in c.sets <==> n in d.sets { assert n !in diff.setsAdded && n !in diff.setsRemoved; }
    forall n | n in c.sets
      ensures c.sets[n].kind == d.sets[n].kind && c.sets[n].flags == d.sets[n].flags
      ensures "dynamic" in d.sets[n].flags || c.sets[n].elements == d.sets[n].elements
    {
      assert n !in diff.setsRemoved && n !in diff.setsModified;
    }
    forall n | n in c.chains
      ensures n in d.chains && c.chains[n].rules == d.chains[n].rules
      ensures c.chains[n].header.User? || c.chains[n].header == d.chains[n].header
    {
      assert n !in diff.desuet && n !in diff.foreign;
      assert n !in diff.rebuilt && n !in diff.policyChanged && n !in diff.ruleChanged;
    }
    forall n | n in d.chains && n !in c.chains ensures d.chains[n].rules == [] { assert n !in diff.ruleChanged; }
  }

  ghost function Script(c: Table, d: Table): seq<Cmd> {
    SortedLists(d.chains.Keys);
    SortedLists(ChangedSets(c, d));
    if !Diff(c, d).HasChanges() then []
    else
      [AddTable] + (SetPart(c, d, Sorted(ChangedSets(c, d))) + (ChainPart(c, d, Sorted(d.chains.Keys))
      + (Deletes(Sorted(Diff(c, d).desuet)) + Deletes(Sorted(Diff(c, d).foreign)))))
  }

  // --- what the kernel makes of one chain -------------------------------------------

  /** A header the kernel lets the script reach from the running one. */
  predicate Reachable(current: Header, desired: Header) {
    if current.User? then desired.User?
    else desired.Base? && current.priority == desired.priority ==> current.hook == desired.hook
  }

  /** The chain after its commands; `None` when one of them fails. */
  function After(c: Table, d: Table, n: string): Option<Chain>
    requires n in d.chains
  {
    var diff, chain := Diff(c, d), d.chains[n];
    if n !in c.chains || n in diff.rebuilt then Some(chain)
    else if n in diff.ruleChanged then
      var declared := Redeclare(c.chains[n], chain.header);
      if declared.None? then None else Some(declared.value.(rules := chain.rules))
    else if n in diff.policyChanged then Redeclare(c.chains[n], chain.header)
    else Some(c.chains[n])
  }

  lemma AfterIff(c: Table, d: Table, n: string)
    requires n in d.chains
    ensures After(c, d, n) == Some(d.chains[n])
       <==> (n in c.chains ==> Reachable(c.chains[n].header, d.chains[n].header))
  {
    if n in c.chains && !Rebuilt(c.chains[n], d.chains[n]) {
      assert d.chains[n] == Chain(d.chains[n].header, d.chains[n].rules);
    }
  }

  /** A kernel where chain `n` is this one. */
  function With(k: Kernel, n: string, chain: Chain): Kernel {
    k.(chains := k.chains[n := chain])
  }

  lemma WithTwice(k: Kernel, n: string, a: Chain, b: Chain)
    ensures With(With(k, n, a), n, b) == With(k, n, b)
  {
    assert k.chains[n := a][n := b] == k.chains[n := b];
  }

  lemma {:induction false} ExecRules(k: Kernel, n: string, chain: Chain, rules: seq<string>)
    requires n in k.chains && k.chains[n] == chain
    ensures ExecAll(k, Rules(n, rules)) == Some(With(k, n, chain.(rules := chain.rules + rules)))
    decreases |rules|
  {
    if rules == [] {
      assert chain.rules + [] == chain.rules;
      assert k.chains[n := chain] == k.chains;
    } else {
      var next := chain.(rules := chain.rules + [rules[0]]);
      assert Rules(n, rules)[1..] == Rules(n, rules[1..]);
      ExecRules(With(k, n, next), n, next, rules[1..]);
      WithTwice(k, n, next, chain.(rules := chain.rules + rules));
      assert next.rules + rules[1..] == chain.rules + rules;
    }
  }

  lemma ExecFresh(k: Kernel, n: string, chain: Chain)
    requires n !in k.chains
    ensures ExecAll(k, [AddChain(n, chain.header)] + Rules(n, chain.rules)) == Some(With(k, n, chain))
  {
    var declared := Chain(chain.header, []);
    ExecRules(With(k, n, declared), n, declared, chain.rules);
    WithTwice(k, n, declared, chain);
    assert [] + chain.rules == chain.rules;
    assert ([AddChain(n, chain.header)] + Rules(n, chain.rules))[1..] == Rules(n, chain.rules);
  }

  lemma ExecRebuild(k: Kernel, n: string, chain: Chain)
    requires n in k.chains
    ensures ExecAll(k, [DeleteChain(n)] + [AddChain(n, chain.header)] + Rules(n, chain.rules)) == Some(With(k, n, chain))
  {
    var gone := k.(chains := k.chains - {n});
    ExecFresh(gone, n, chain);
    var cmds := [AddChain(n, chain.header)] + Rules(n, chain.rules);
    assert [DeleteChain(n)] + [AddChain(n, chain.header)] + Rules(n, chain.rules) == [DeleteChain(n)] + cmds;
    assert ([DeleteChain(n)] + cmds)[1..] == cmds;
    assert gone.chains[n := chain] == k.chains[n := chain];
  }

  lemma ExecCons(k: Kernel, cmd: Cmd, rest: seq<Cmd>)
    ensures ExecAll(k, [cmd] + rest)
            == var next := Exec(k, cmd); if next.None? then None else ExecAll(next.value, rest)
  {
    assert ([cmd] + rest)[1..] == rest;
  }

  lemma ExecRefill(k: Kernel, n: string, chain: Chain)
    requires n in k.chains
    ensures var declared := Redeclare(k.chains[n], chain.header);
            ExecAll(k, [AddChain(n, chain.header)] + [FlushChain(n)] + Rules(n, chain.rules))
            == if declared.None? then None else Some(With(k, n, declared.value.(rules := chain.rules)))
  {
    hide ExecAll, Rules;
    var declared := Redeclare(k.chains[n], chain.header);
    var rules := Rules(n, chain.rules);
    assert [AddChain(n, chain.header)] + [FlushChain(n)] + rules
        == [AddChain(n, chain.header)] + ([FlushChain(n)] + rules);
    ExecCons(k, AddChain(n, chain.header), [FlushChain(n)] + rules);
    if declared.Some? {
      var flushed := declared.value.(rules := []);
      ExecCons(With(k, n, declared.value), FlushChain(n), rules);
      WithTwice(k, n, declared.value, flushed);
      ExecRules(With(k, n, flushed), n, flushed, chain.rules);
      WithTwice(k, n, flushed, flushed.(rules := chain.rules));
      assert [] + chain.rules == chain.rules;
    }
  }

  lemma ExecDeclare(k: Kernel, n: string, header: Header)
    requires n in k.chains
    ensures var declared := Redeclare(k.chains[n], header);
            ExecAll(k, [AddChain(n, header)]) == if declared.None? then None else Some(With(k, n, declared.value))
  {
    assert [AddChain(n, header)][1..] == [];
  }

  /** The commands of one chain do to it what `After` says, and nothing else. */
  lemma ExecChain(k: Kernel, c: Table, d: Table, n: string)
    requires n in d.chains && (n in k.chains <==> n in c.chains) && (n in c.chains ==> k.chains[n] == c.chains[n])
    ensures var after := After(c, d, n);
            ExecAll(k, ChainCmds(c, d, n)) == if after.None? then None else Some(With(k, n, after.value))
  {
    hide ExecAll, Rules;
    var diff, chain := Diff(c, d), d.chains[n];
    if n !in c.chains {
      ExecFresh(k, n, chain);
    } else if n in diff.rebuilt {
      ExecRebuild(k, n, chain);
    } else if n in diff.ruleChanged {
      ExecRefill(k, n, chain);
    } else if n in diff.policyChanged {
      ExecDeclare(k, n, chain.header);
    } else {
      ExecNothing(k);
      assert k.chains[n := c.chains[n]] == k.chains;
    }
  }

  lemma ExecNothing(k: Kernel)
    ensures ExecAll(k, []) == Some(k)
  {
  }

  // --- the phases --------------------------------------------------------------------

  predicate Distinct(names: seq<string>) {
    forall i, j :: 0 <= i < j < |names| ==> names[i] != names[j]
  }

  /** The kernel still has the running chains of these names. */
  ghost predicate Untouched(k: Kernel, c: Table, names: seq<string>) {
    forall n :: n in names ==> (n in k.chains <==> n in c.chains) && (n in c.chains ==> k.chains[n] == c.chains[n])
  }

  predicate AllSucceed(c: Table, d: Table, names: seq<string>)
    requires forall n :: n in names ==> n in d.chains
  {
    forall n :: n in names ==> After(c, d, n).Some?
  }

  function Filled(k: Kernel, c: Table, d: Table, names: seq<string>): Kernel
    requires forall n :: n in names ==> n in d.chains
    requires AllSucceed(c, d, names)
  {
    k.(chains := k.chains + map n | n in names :: After(c, d, n).value)
  }

  lemma UpdateThenAdd<V>(m: map<string, V>, n: string, v: V, rest: map<string, V>, all: map<string, V>)
    requires all.Keys == {n} + rest.Keys && all[n] == v && forall x :: x in rest ==> all[x] == rest[x]
    ensures m[n := v] + rest == m + all
  {
  }

  lemma FilledNext(k: Kernel, c: Table, d: Table, n: string, rest: seq<string>)
    requires forall m :: m in [n] + rest ==> m in d.chains
    ensures AllSucceed(c, d, [n] + rest) <==> After(c, d, n).Some? && AllSucceed(c, d, rest)
    ensures AllSucceed(c, d, [n] + rest) ==>
              Filled(With(k, n, After(c, d, n).value), c, d, rest) == Filled(k, c, d, [n] + rest)
  {
    hide After;
    assert n in [n] + rest;
    assert AllSucceed(c, d, rest) ==> forall m :: m in [n] + rest ==> m == n || m in rest;
    if AllSucceed(c, d, [n] + rest) {
      UpdateThenAdd(k.chains, n, After(c, d, n).value,
                    map m | m in rest :: After(c, d, m).value, map m | m in [n] + rest :: After(c, d, m).value);
    }
  }

  lemma {:induction false} ExecChains(k: Kernel, c: Table, d: Table, names: seq<string>)
    requires forall n :: n in names ==> n in d.chains
    requires Distinct(names) && Untouched(k, c, names)
    ensures ExecAll(k, ChainPart(c, d, names))
            == if AllSucceed(c, d, names) then Some(Filled(k, c, d, names)) else None
    decreases |names|
  {
    hide ExecAll, After, ChainCmds, AllSucceed, Filled;
    if names == [] {
      FilledNone(k, c, d);
      ExecNothing(k);
    } else {
      var n, rest := names[0], names[1..];
      assert names == [n] + rest;
      ExecChain(k, c, d, n);
      ExecAppend(k, ChainCmds(c, d, n), ChainPart(c, d, rest));
      FilledNext(k, c, d, n, rest);
      if After(c, d, n).Some? {
        ExecChains(With(k, n, After(c, d, n).value), c, d, rest);
      }
    }
  }

  lemma FilledNone(k: Kernel, c: Table, d: Table)
    ensures AllSucceed(c, d, []) && Filled(k, c, d, []) == k
  {
    assert Filled(k, c, d, []).chains == k.chains;
  }

  lemma {:induction false} ExecDeletes(k: Kernel, names: seq<string>)
    requires Distinct(names) && forall n :: n in names ==> n in k.chains
    ensures ExecAll(k, Deletes(names)) == Some(k.(chains := k.chains - Members(names)))
    decreases |names|
  {
    if names == [] {
      assert k.chains - Members(names) == k.chains;
    } else {
      var n, rest := names[0], names[1..];
      assert names == [n] + rest && Deletes(names)[1..] == Deletes(rest);
      ExecDeletes(k.(chains := k.chains - {n}), rest);
      assert Members(names) == {n} + Members(rest);
      assert (k.chains - {n}) - Members(rest) == k.chains - Members(names);
    }
  }

  // --- sets ----------------------------------------------------------------------------

  function WithSet(k: Kernel, n: string, s: LiveSet): Kernel {
    k.(sets := k.sets[n := s])
  }

  lemma WithSetTwice(k: Kernel, n: string, a: LiveSet, b: LiveSet)
    ensures WithSet(WithSet(k, n, a), n, b) == WithSet(k, n, b)
  {
    assert k.sets[n := a][n := b] == k.sets[n := b];
  }

  lemma ExecAdd(k: Kernel, n: string, s: LiveSet, es: seq<string>)
    requires n in k.sets && k.sets[n] == s
    ensures ExecAll(k, if es == [] then [] else [AddElements(n, es)])
            == Some(WithSet(k, n, s.(elements := s.elements + Members(es))))
  {
    if es == [] {
      assert Members(es) == {} && s.elements + {} == s.elements;
      assert k.sets[n := s] == k.sets;
    } else {
      assert [AddElements(n, es)][1..] == [];
    }
  }

  lemma ExecDelete(k: Kernel, n: string, s: LiveSet, es: seq<string>)
    requires n in k.sets && k.sets[n] == s && Members(es) <= s.elements
    ensures ExecAll(k, if es == [] then [] else [DeleteElements(n, es)])
            == Some(WithSet(k, n, s.(elements := s.elements - Members(es))))
  {
    if es == [] {
      assert Members(es) == {} && s.elements - {} == s.elements;
      assert k.sets[n := s] == k.sets;
    } else {
      assert [DeleteElements(n, es)][1..] == [];
    }
  }

  /** The commands of a new or modified set leave it with exactly the desired members. */
  lemma ExecSet(k: Kernel, c: Table, d: Table, n: string)
    requires n in d.sets && (n in k.sets <==> n in c.sets)
    requires n in c.sets ==> k.sets[n] == Live(c.sets[n]) && !Retyped(c.sets[n], d.sets[n])
    ensures ExecAll(k, SetCmds(c, d, n)) == Some(WithSet(k, n, Live(d.sets[n])))
  {
    hide ExecAll, Without;
    var s := d.sets[n];
    if n !in c.sets {
      var empty := LiveSet(s.kind, s.flags, {});
      ExecCons(k, AddSet(n, s.kind, s.flags), if s.elements == [] then [] else [AddElements(n, s.elements)]);
      ExecAdd(WithSet(k, n, empty), n, empty, s.elements);
      WithSetTwice(k, n, empty, Live(s));
      assert {} + Members(s.elements) == Members(s.elements);
    } else {
      var live, was := Live(c.sets[n]), c.sets[n].elements;
      var removed, added := Without(was, s.elements), Without(s.elements, was);
      var kept := live.(elements := live.elements - Members(removed));
      ExecDelete(k, n, live, removed);
      ExecAdd(WithSet(k, n, kept), n, kept, added);
      ExecAppend(k, if removed == [] then [] else [DeleteElements(n, removed)],
                 if added == [] then [] else [AddElements(n, added)]);
      WithSetTwice(k, n, kept, Live(s));
      assert kept.elements + Members(added) == Members(s.elements);
    }
  }

  /** The kernel still has the running sets of these names, and none is of another type. */
  ghost predicate SetsUntouched(k: Kernel, c: Table, d: Table, names: seq<string>) {
    forall n :: n in names ==>
      && n in d.sets && (n in k.sets <==> n in c.sets)
      && (n in c.sets ==> k.sets[n] == Live(c.sets[n]) && !Retyped(c.sets[n], d.sets[n]))
  }

  lemma SetsUntouchedNext(k: Kernel, c: Table, d: Table, n: string, rest: seq<string>, s: LiveSet)
    requires SetsUntouched(k, c, d, [n] + rest) && n !in rest
    ensures SetsUntouched(WithSet(k, n, s), c, d, rest)
  {
    hide Live;
    forall m | m in rest ensures m in [n] + rest && m != n {}
  }

  /** The live form of the desired sets of these names. */
  function Built(d: Table, names: seq<string>): map<string, LiveSet>
    requires forall n :: n in names ==> n in d.sets
  {
    map n | n in names :: Live(d.sets[n])
  }

  lemma BuiltNext(k: Kernel, d: Table, n: string, rest: seq<string>)
    requires forall m :: m in [n] + rest ==> m in d.sets
    ensures n in d.sets && (forall m :: m in rest ==> m in d.sets)
    ensures k.sets[n := Live(d.sets[n])] + Built(d, rest) == k.sets + Built(d, [n] + rest)
  {
    hide Live;
    assert n in [n] + rest && forall m :: m in rest ==> m in [n] + rest;
    UpdateThenAdd(k.sets, n, Live(d.sets[n]), Built(d, rest), Built(d, [n] + rest));
  }

  lemma BuiltNone(k: Kernel, d: Table)
    ensures k.sets + Built(d, []) == k.sets
  {
  }

  lemma {:induction false} ExecSets(k: Kernel, c: Table, d: Table, names: seq<string>)
    requires SetsUntouched(k, c, d, names) && Distinct(names)
    ensures ExecAll(k, SetPart(c, d, names)) == Some(k.(sets := k.sets + Built(d, names)))
    decreases |names|
  {
    hide ExecAll, SetCmds, Live, Built;
    if names == [] {
      ExecNothing(k);
      BuiltNone(k, d);
    } else {
      var n, rest := names[0], names[1..];
      var next := WithSet(k, n, Live(d.sets[n]));
      assert names == [n] + rest && n !in rest;
      ExecSet(k, c, d, n);
      SetsUntouchedNext(k, c, d, n, rest, Live(d.sets[n]));
      ExecAppend(k, SetCmds(c, d, n), SetPart(c, d, rest));
      ExecSets(next, c, d, rest);
      BuiltNext(k, d, n, rest);
    }
  }

  // --- the whole script -------------------------------------------------------------------

  /** The desired table, except that dynamic sets keep what the kernel gathered in them. */
  function Target(c: Table, d: Table): Kernel {
    Kernel(d.chains,
           map n | n in d.sets :: if n in c.sets && d.sets[n].IsDynamic() then Live(c.sets[n]) else Live(d.sets[n]),
           d.objects)
  }

  /** Every chain's header can be reached from the running one. */
  predicate HeadersReachable(c: Table, d: Table) {
    forall n :: n in d.chains && n in c.chains ==> Reachable(c.chains[n].header, d.chains[n].header)
  }

  /** A chain is new, empty, and nothing else of the table changed. */
  predicate OnlyEmptyChains(c: Table, d: Table) {
    !Diff(c, d).HasChanges() && exists n :: n in d.chains && n !in c.chains
  }

  lemma SetsOnTarget(c: Table, d: Table)
    requires !NeedsReload(c, d)
    ensures Running(c).sets + (map n | n in ChangedSets(c, d) :: Live(d.sets[n])) == Target(c, d).sets
    ensures ChangedSets(c, d) == {} ==> Running(c).sets == Target(c, d).sets
  {
    hide Live, Members;
    var changed := Running(c).sets + map n | n in ChangedSets(c, d) :: Live(d.sets[n]);
    assert Diff(c, d).setsRemoved == {};
    forall n ensures n in c.sets ==> n in d.sets && !Retyped(c.sets[n], d.sets[n]) {
      assert n in Diff(c, d).setsRemoved <==> n in c.sets && (n !in d.sets || Retyped(c.sets[n], d.sets[n]));
    }
    forall n | n in d.sets && n in c.sets && n !in ChangedSets(c, d) && !d.sets[n].IsDynamic()
      ensures Live(c.sets[n]) == Live(d.sets[n])
    {
      assert c.sets[n] == NftSet(c.sets[n].kind, c.sets[n].flags, c.sets[n].elements);
      assert c.sets[n] == d.sets[n];
    }
    assert changed.Keys == Target(c, d).sets.Keys;
  }

  lemma SortedNamesOf(names: set<string>)
    ensures Distinct(Sorted(names)) && forall n :: n in Sorted(names) <==> n in names
  {
    SortedLists(names);
    forall i, j | 0 <= i < j < |Sorted(names)| ensures Sorted(names)[i] != Sorted(names)[j] {
      Irreflexive(Sorted(names)[i]);
    }
  }

  lemma SetsPhase(c: Table, d: Table)
    requires !NeedsReload(c, d)
    ensures var changed := Sorted(ChangedSets(c, d));
            && (forall n :: n in changed ==> n in d.sets)
            && ExecAll(Running(c), SetPart(c, d, changed)) == Some(Kernel(c.chains, Target(c, d).sets, c.objects))
  {
    hide ExecAll, SetPart, Live, Target;
    var changed := Sorted(ChangedSets(c, d));
    SortedNamesOf(ChangedSets(c, d));
    forall n | n in c.sets ensures n in d.sets && !Retyped(c.sets[n], d.sets[n]) {
      assert n !in Diff(c, d).setsRemoved;
    }
    ExecSets(Running(c), c, d, changed);
    SetsOnTarget(c, d);
    assert Built(d, changed) == (map n | n in ChangedSets(c, d) :: Live(d.sets[n]));
  }

  lemma ChainsPhase(c: Table, d: Table, sets: map<string, LiveSet>, objects: set<string>)
    ensures var names := Sorted(d.chains.Keys);
            && (forall n :: n in names <==> n in d.chains)
            && ExecAll(Kernel(c.chains, sets, objects), ChainPart(c, d, names))
               == if AllSucceed(c, d, names) then Some(Filled(Kernel(c.chains, sets, objects), c, d, names)) else None
  {
    hide ExecAll, Filled, AllSucceed, ChainPart, After;
    SortedNamesOf(d.chains.Keys);
    ExecChains(Kernel(c.chains, sets, objects), c, d, Sorted(d.chains.Keys));
  }

  /** Deleting the leftover chains leaves exactly the desired names. */
  lemma LeftoverPhase(c: Table, d: Table, k: Kernel)
    requires k.chains.Keys == c.chains.Keys + d.chains.Keys
    ensures ExecAll(k, Deletes(Sorted(Diff(c, d).desuet)) + Deletes(Sorted(Diff(c, d).foreign)))
            == Some(k.(chains := map n | n in d.chains :: k.chains[n]))
  {
    hide ExecAll;
    var desuet, foreign := Sorted(Diff(c, d).desuet), Sorted(Diff(c, d).foreign);
    SortedNamesOf(Diff(c, d).desuet);
    SortedNamesOf(Diff(c, d).foreign);
    ExecAppend(k, Deletes(desuet), Deletes(foreign));
    ExecDeletes(k, desuet);
    ExecDeletes(k.(chains := k.chains - Members(desuet)), foreign);
    assert (k.chains - Members(desuet)) - Members(foreign) == map n | n in d.chains :: k.chains[n];
  }

  lemma ScriptShape(c: Table, d: Table)
    requires Diff(c, d).HasChanges()
    requires forall n :: n in Sorted(ChangedSets(c, d)) ==> n in d.sets
    requires forall n :: n in Sorted(d.chains.Keys) ==> n in d.chains
    ensures Script(c, d)
            == [AddTable] + (SetPart(c, d, Sorted(ChangedSets(c, d))) + (ChainPart(c, d, Sorted(d.chains.Keys))
               + (Deletes(Sorted(Diff(c, d).desuet)) + Deletes(Sorted(Diff(c, d).foreign)))))
  {
  }

  /** A non-empty script: all or nothing, and chain by chain what `After` says. */
  lemma ExecScript(c: Table, d: Table)
    requires !NeedsReload(c, d) && Diff(c, d).HasChanges()
    ensures ExecAll(Running(c), Script(c, d))
            == if forall n :: n in d.chains ==> After(c, d, n).Some? then
                 Some(Kernel(map n | n in d.chains :: After(c, d, n).value, Target(c, d).sets, c.objects))
               else None
  {
    hide ExecAll, After, Script, ChainPart, SetPart, Deletes, ChangedSets, Target, Running;
    var k, k1 := Running(c), Kernel(c.chains, Target(c, d).sets, c.objects);
    var names := Sorted(d.chains.Keys);
    var leftovers := Deletes(Sorted(Diff(c, d).desuet)) + Deletes(Sorted(Diff(c, d).foreign));
    SetsPhase(c, d);
    ChainsPhase(c, d, k1.sets, k1.objects);
    var sets, chains := SetPart(c, d, Sorted(ChangedSets(c, d))), ChainPart(c, d, names);
    ScriptShape(c, d);
    ExecCons(k, AddTable, sets + (chains + leftovers));
    ExecAppend(k, sets, chains + leftovers);
    ExecAppend(k1, chains, leftovers);
    if AllSucceed(c, d, names) {
      var k2 := Filled(k1, c, d, names);
      LeftoverPhase(c, d, k2);
      assert (map n | n in d.chains :: k2.chains[n]) == (map n | n in d.chains :: After(c, d, n).value);
    }
  }

  lemma NoChangesLeave(c: Table, d: Table)
    requires !NeedsReload(c, d) && !Diff(c, d).HasChanges()
    ensures ChangedSets(c, d) == {} && c.chains.Keys <= d.chains.Keys
    ensures forall n :: n in c.chains ==> After(c, d, n) == Some(c.chains[n])
  {
    var diff := Diff(c, d);
    assert diff.rebuilt == {} && diff.ruleChanged == {} && diff.policyChanged == {};
    assert diff.desuet == {} && diff.foreign == {};
    forall n | n in c.chains ensures n in d.chains {
      assert n !in diff.desuet && n !in diff.foreign;
    }
  }

  /** All chains end as desired exactly when the map of results is the desired one. */
  lemma ChainsOnTarget(c: Table, d: Table)
    requires forall n :: n in d.chains ==> After(c, d, n).Some?
    ensures (forall n :: n in d.chains ==> After(c, d, n) == Some(d.chains[n]))
       <==> (map n | n in d.chains :: After(c, d, n).value) == d.chains
  {
    hide After;
    var reached := map n | n in d.chains :: After(c, d, n).value;
    if reached == d.chains {
      forall n | n in d.chains ensures After(c, d, n) == Some(d.chains[n]) { assert reached[n] == d.chains[n]; }
    }
  }

  lemma AllReachable(c: Table, d: Table)
    ensures HeadersReachable(c, d) <==> forall n :: n in d.chains ==> After(c, d, n) == Some(d.chains[n])
  {
    hide After, Reachable;
    forall n | n in d.chains
      ensures After(c, d, n) == Some(d.chains[n])
         <==> (n in c.chains ==> Reachable(c.chains[n].header, d.chains[n].header))
    {
      AfterIff(c, d, n);
    }
  }

  lemma ChangesConverge(c: Table, d: Table)
    requires !NeedsReload(c, d) && Diff(c, d).HasChanges()
    ensures ExecAll(Running(c), Script(c, d)) == Some(Target(c, d)) <==> HeadersReachable(c, d)
  {
    hide ExecAll, After, Script, Running, Diff, HeadersReachable;
    ExecScript(c, d);
    AllReachable(c, d);
    ReloadIff(c, d);
    if forall n :: n in d.chains ==> After(c, d, n).Some? { ChainsOnTarget(c, d); }
  }

  lemma NoChangesConverge(c: Table, d: Table)
    requires !NeedsReload(c, d) && !Diff(c, d).HasChanges()
    ensures Running(c) == Target(c, d) <==> HeadersReachable(c, d) && !OnlyEmptyChains(c, d)
  {
    hide After, Live, Reachable;
    NoChangesLeave(c, d);
    AllReachable(c, d);
    SetsOnTarget(c, d);
    if HeadersReachable(c, d) && !OnlyEmptyChains(c, d) {
      assert c.chains == d.chains;
    }
  }

  /**
   * Applying the script to the running table gives the desired one, dynamic sets aside, exactly when every
   * header can be reached in place and the change is not just new empty chains, which the diff does not see.
   */
  lemma DeltaConverges(c: Table, d: Table)
    requires !NeedsReload(c, d)
    ensures ExecAll(Running(c), Script(c, d)) == Some(Target(c, d))
       <==> HeadersReachable(c, d) && !OnlyEmptyChains(c, d)
  {
    hide After, Running, Target, HeadersReachable, Diff;
    if Diff(c, d).HasChanges() {
      ChangesConverge(c, d);
    } else {
      NoChangesConverge(c, d);
      ExecNothing(Running(c));
    }
  }

  /** A chain that is new and empty is not created when nothing else changed. */
  lemma EmptyChainMissed()
    ensures var c, d := Table(map[], map[], {}), Table(map["INPUT" := Chain(Base("input", "0", "drop"), [])], map[], {});
            !NeedsReload(c, d) && Script(c, d) == [] && HeadersReachable(c, d) && OnlyEmptyChains(c, d)
  {
    var c, d := Table(map[], map[], {}), Table(map["INPUT" := Chain(Base("input", "0", "drop"), [])], map[], {});
    assert "INPUT" in d.chains && "INPUT" !in c.chains;
    assert c.chains.Keys * d.chains.Keys == {};
    var diff := Diff(c, d);
    assert diff.rebuilt == diff.policyChanged == diff.ruleChanged == diff.desuet == diff.foreign == {};
    assert diff.setsAdded == diff.setsRemoved == diff.setsModified == diff.objects == {};
  }

  // --- nothing unchanged is touched ---------------------------------------------------------

  /** The chain a command names, if any. */
  function ChainOf(cmd: Cmd): Option<string> {
    match cmd
    case AddChain(n, _) => Some(n)
    case DeleteChain(n) => Some(n)
    case FlushChain(n) => Some(n)
    case AddRule(n, _) => Some(n)
    case _ => None
  }

  /** The chain's rules, and so their counters, have to go: other rules are desired, or another priority. */
  predicate MustRefill(current: Chain, desired: Chain) {
    current.rules != desired.rules || Priority(current.header) != Priority(desired.header)
  }

  /**
   * No command about a chain that is already as desired; none but a redeclaration where the rules stay; no element
   * written that is there, or dropped that stays.
   */
  predicate Sparing(c: Table, d: Table, cmd: Cmd) {
    && (ChainOf(cmd).Some? && ChainOf(cmd).value in c.chains && ChainOf(cmd).value in d.chains && !cmd.AddChain? ==>
          MustRefill(c.chains[ChainOf(cmd).value], d.chains[ChainOf(cmd).value]))
    && (ChainOf(cmd).Some? && ChainOf(cmd).value in c.chains && ChainOf(cmd).value in d.chains ==>
          c.chains[ChainOf(cmd).value] != d.chains[ChainOf(cmd).value])
    && (cmd.AddElements? && cmd.set_ in c.sets ==> Members(cmd.elements) !! Members(c.sets[cmd.set_].elements))
    && (cmd.DeleteElements? && cmd.set_ in d.sets ==> Members(cmd.elements) !! Members(d.sets[cmd.set_].elements))
    && (cmd.AddElements? || cmd.DeleteElements? ==> cmd.set_ in ChangedSets(c, d))
  }

  predicate AllSparing(c: Table, d: Table, cmds: seq<Cmd>) {
    forall cmd :: cmd in cmds ==> Sparing(c, d, cmd)
  }

  lemma ChainSparing(c: Table, d: Table, n: string)
    requires n in d.chains
    ensures AllSparing(c, d, ChainCmds(c, d, n))
  {
    forall cmd | cmd in ChainCmds(c, d, n)
      ensures ChainOf(cmd) == Some(n) && (n in c.chains ==> c.chains[n] != d.chains[n])
      ensures !cmd.AddElements? && !cmd.DeleteElements?
      ensures n in c.chains && !cmd.AddChain? ==> MustRefill(c.chains[n], d.chains[n])
    {
    }
  }

  lemma SetSparing(c: Table, d: Table, n: string)
    requires n in d.sets && n in ChangedSets(c, d)
    ensures AllSparing(c, d, SetCmds(c, d, n))
  {
    hide ChangedSets, Diff;
  }

  lemma {:induction false} ChainsSparing(c: Table, d: Table, names: seq<string>)
    requires forall n :: n in names ==> n in d.chains
    ensures AllSparing(c, d, ChainPart(c, d, names))
  {
    hide Sparing, ChainCmds;
    if names != [] {
      ChainSparing(c, d, names[0]);
      ChainsSparing(c, d, names[1..]);
    }
  }

  lemma {:induction false} SetsSparing(c: Table, d: Table, names: seq<string>)
    requires forall n :: n in names ==> n in d.sets && n in ChangedSets(c, d)
    ensures AllSparing(c, d, SetPart(c, d, names))
  {
    hide Sparing, SetCmds, ChangedSets;
    if names != [] {
      SetSparing(c, d, names[0]);
      SetsSparing(c, d, names[1..]);
    }
  }

  lemma DeletesSparing(c: Table, d: Table, names: seq<string>)
    requires forall n :: n in names ==> n !in d.chains
    ensures AllSparing(c, d, Deletes(names))
  {
    hide ChangedSets, Members;
    forall cmd | cmd in Deletes(names) ensures cmd.DeleteChain? && cmd.chain !in d.chains {
      var i :| 0 <= i < |names| && Deletes(names)[i] == cmd;
      assert names[i] in names;
    }
  }

  /**
   * The script names no chain that is already as desired, only redeclares one whose rules and priority stay, and
   * neither writes a set element that is there nor drops one that stays, so counters and elements survive.
   */
  lemma ScriptSparing(c: Table, d: Table)
    ensures AllSparing(c, d, Script(c, d))
  {
    hide ChainPart, SetPart, ChangedSets;
    SortedNamesOf(ChangedSets(c, d));
    SortedNamesOf(d.chains.Keys);
    SortedNamesOf(Diff(c, d).desuet);
    SortedNamesOf(Diff(c, d).foreign);
    SetsSparing(c, d, Sorted(ChangedSets(c, d)));
    ChainsSparing(c, d, Sorted(d.chains.Keys));
    DeletesSparing(c, d, Sorted(Diff(c, d).desuet));
    DeletesSparing(c, d, Sorted(Diff(c, d).foreign));
    hide Sparing, Deletes;
  }
}
