/**
 * Keyword tables of nested rule levels: shared between levels and with the module registries, copied on the
 * first write. `view` says what every level would hold if nothing were shared.
 */
module KeywordScope {
  import opened Seqs

  /** A mutable dictionary. */
  class Table {
    var entries: map<string, string>

    constructor (entries: map<string, string>)
      ensures this.entries == entries
    {
      this.entries := entries;
    }
  }

  /** A rule level: its keywords, and which module brought each of them in. */
  class Rule {
    var cow: bool
    var keywords: Table
    var origins: Table

    constructor (cow: bool, keywords: Table, origins: Table)
      ensures this.cow == cow && this.keywords == keywords && this.origins == origins
    {
      this.cow, this.keywords, this.origins := cow, keywords, origins;
    }

    /** Detaches the shared dictionaries before they are changed. */
    method CopyOnWrite()
      modifies this
      ensures !cow && keywords.entries == old(keywords.entries) && origins.entries == old(origins.entries)
      ensures if old(cow) then fresh(keywords) && fresh(origins) && keywords != origins
              else keywords == old(keywords) && origins == old(origins)
    {
      if !cow { return; }
      keywords := new Table(keywords.entries);
      origins := new Table(origins.entries);
      cow := false;
    }

    /** Writes keywords, and the module that brought them in, into the level's tables. */
    method Add(extra: map<string, string>, origin: Option<string>)
      requires keywords != origins
      modifies keywords, origins
      ensures keywords.entries == old(keywords.entries) + extra
      ensures origins.entries == if origin.None? then old(origins.entries)
                                 else old(origins.entries) + map k | k in extra :: origin.value
    {
      keywords.entries := keywords.entries + extra;
      if origin.Some? { origins.entries := origins.entries + map k | k in extra :: origin.value; }
    }
  }

  // --- what the levels mean -------------------------------------------------------

  /** The contents of one level. */
  datatype Level = Level(keywords: map<string, string>, origins: map<string, string>)

  /** What a registry holds, by name. */
  type Contents = map<string, map<string, string>>

  datatype Op =
    | Open
    | Reset
    | Close
    | Merge(name: string, origin: Option<string>)
    | SetDomain(family: string)

  const EMPTY: Level := Level(map[], map[])

  function Lookup(contents: Contents, name: string): map<string, string> {
    if name in contents then contents[name] else map[]
  }

  /** A module's keywords win over what the level had, and are marked with the module they came from. */
  function Merged(l: Level, keywords: map<string, string>, origin: Option<string>): Level {
    Level(l.keywords + keywords,
          if origin.None? then l.origins else l.origins + map k | k in keywords :: origin.value)
  }

  /** The level in front of the last one, or an empty one. */
  function Parent(view: seq<Level>): Level {
    if |view| >= 2 then view[|view| - 2] else EMPTY
  }

  /** The value semantics: every level has tables of its own. */
  function Step(contents: Contents, view: seq<Level>, op: Op): (r: seq<Level>)
    requires view != [] && (op.Close? ==> |view| >= 2)
    ensures r != []
  {
    var n := |view| - 1;
    match op
    case Open => view + [view[n]]
    case Reset => view[..n] + [Parent(view)]
    case Close => view[..n]
    case Merge(name, origin) => view[..n] + [Merged(view[n], Lookup(contents, name), origin)]
    case SetDomain(family) => view[..n] + [Level(Lookup(contents, family), map[])]
  }

  // --- the levels in memory ---------------------------------------------------------

  class Scope {
    var levels: seq<Rule>
    const registry: map<string, Table>
    ghost const contents: Contents
    ghost var view: seq<Level>
    ghost var Repr: set<object>

    /** Nothing below level `k`, and no registry, uses this table. */
    ghost predicate Owned(t: Table, k: nat)
      requires k <= |levels|
      reads this, levels
    {
      && (forall name :: name in registry ==> registry[name] != t)
      && forall j :: 0 <= j < k ==> levels[j].keywords != t && levels[j].origins != t
    }

    /** A level that is not marked for copying has its tables to itself. */
    ghost predicate Safe(k: nat)
      requires k < |levels|
      reads this, levels
    {
      && levels[k] in Repr
      && (!levels[k].cow ==>
            && {levels[k].keywords, levels[k].origins} <= Repr
            && Owned(levels[k].keywords, k) && Owned(levels[k].origins, k) && levels[k].keywords != levels[k].origins)
    }

    /** The tables of a level hold what the value semantics says. */
    ghost predicate Shows(k: nat)
      requires k < |levels| == |view|
      reads this, levels, levels[k].keywords, levels[k].origins
    {
      levels[k].keywords.entries == view[k].keywords && levels[k].origins.entries == view[k].origins
    }

    ghost predicate DistinctLevels()
      reads this
    {
      forall j, k :: 0 <= j < k < |levels| ==> levels[j] != levels[k]
    }

    ghost predicate Valid()
      reads this, levels
    {
      levels != [] && DistinctLevels() && registry.Values !! Repr && forall k :: 0 <= k < |levels| ==> Safe(k)
    }

    ghost predicate RegistryKept()
      reads this, registry.Values
    {
      contents.Keys == registry.Keys && forall name :: name in registry ==> registry[name].entries == contents[name]
    }

    /** The tables hold what `view` and `contents` say. */
    ghost predicate Holds()
      reads this, levels, registry.Values, set r | r in levels :: r.keywords, set r | r in levels :: r.origins
    {
      |view| == |levels| && RegistryKept() && forall k :: 0 <= k < |levels| ==> Shows(k)
    }

    constructor (registry: map<string, Table>)
      ensures Valid() && Holds() && this.registry == registry && view == [EMPTY] && fresh(Repr)
      ensures contents == map name | name in registry :: registry[name].entries
    {
      var keywords := new Table(map[]);
      var origins := new Table(map[]);
      var root := new Rule(false, keywords, origins);
      this.levels := [root];
      this.registry := registry;
      this.contents := map name | name in registry :: registry[name].entries;
      this.view := [EMPTY];
      this.Repr := {root, keywords, origins};
    }

    /** Opens a level: the parent's tables are shared, and marked for copying. */
    method NewLevel(prev: Option<Rule>) returns (rule: Rule)
      ensures fresh(rule)
      ensures prev.Some? ==>
                rule.cow && rule.keywords == prev.value.keywords && rule.origins == prev.value.origins
      ensures prev.None? ==>
                && !rule.cow && fresh(rule.keywords) && fresh(rule.origins) && rule.keywords != rule.origins
                && rule.keywords.entries == map[] && rule.origins.entries == map[]
    {
      if prev.None? {
        var keywords := new Table(map[]);
        var origins := new Table(map[]);
        rule := new Rule(false, keywords, origins);
      } else {
        rule := new Rule(true, prev.value.keywords, prev.value.origins);
      }
    }

    method Open()
      requires Valid() && Holds()
      modifies this
      ensures Valid() && Holds() && view == Step(contents, old(view), Op.Open) && fresh(Repr - old(Repr))
    {
      var rule := NewLevel(Some(levels[|levels| - 1]));
      levels := levels + [rule];
      Repr := Repr + {rule};
      view := Step(contents, view, Op.Open);
      forall k | 0 <= k < |levels| ensures Safe(k) && Shows(k) {
        if k < |old(levels)| { assert old(Safe(k)) && old(Shows(k)); } else { assert old(Shows(k - 1)); }
      }
    }

    method Reset()
      requires Valid() && Holds()
      modifies this
      ensures Valid() && Holds() && view == Step(contents, old(view), Op.Reset) && fresh(Repr - old(Repr))
    {
      var n := |levels| - 1;
      var rule := NewLevel(if n > 0 then Some(levels[n - 1]) else None);
      levels := levels[..n] + [rule];
      Repr := if n > 0 then Repr + {rule} else Repr + {rule, rule.keywords, rule.origins};
      view := Step(contents, view, Op.Reset);
      forall k | 0 <= k < |levels| ensures Safe(k) && Shows(k) {
        if k < n { assert old(Safe(k)) && old(Shows(k)); } else if k > 0 { assert old(Shows(k - 1)); }
      }
    }

    method Close()
      requires Valid() && Holds() && |levels| >= 2
      modifies this
      ensures Valid() && Holds() && view == Step(contents, old(view), Op.Close) && fresh(Repr - old(Repr))
    {
      levels := levels[..|levels| - 1];
      view := Step(contents, view, Op.Close);
      forall k | 0 <= k < |levels| ensures Safe(k) && Shows(k) {
        assert old(Safe(k)) && old(Shows(k));
      }
    }

    method SetDomain(family: string)
      requires Valid() && Holds()
      modifies this, levels[|levels| - 1]
      ensures Valid() && Holds() && view == Step(contents, old(view), Op.SetDomain(family)) && Repr == old(Repr)
    {
      var rule := levels[|levels| - 1];
      if family in registry {
        rule.keywords := registry[family];
      } else {
        rule.keywords := new Table(map[]);
      }
      rule.origins := new Table(map[]);
      rule.cow := true;
      view := Step(contents, view, Op.SetDomain(family));
      forall k | 0 <= k < |levels| ensures Safe(k) && Shows(k) {
        assert old(Safe(k)) && old(Shows(k));
        if k < |levels| - 1 { assert levels[k] != rule; }
      }
    }

    /** Detaches the tables of the current level; nobody sees a difference. */
    method Detach()
      requires Valid() && Holds()
      modifies this`Repr, levels[|levels| - 1]
      ensures Valid() && Holds() && fresh(Repr - old(Repr)) && !levels[|levels| - 1].cow
      ensures var rule := levels[|levels| - 1];
              if old(rule.cow) then fresh(rule.keywords) && fresh(rule.origins)
              else rule.keywords == old(rule.keywords) && rule.origins == old(rule.origins)
    {
      var n := |levels| - 1;
      var rule := levels[n];
      assert Safe(n);
      rule.CopyOnWrite();
      Repr := Repr + {rule.keywords, rule.origins};
      forall k | 0 <= k < |levels| ensures Safe(k) && Shows(k) {
        assert old(Safe(k)) && old(Shows(k));
        if k < n { assert levels[k] != rule; }
      }
    }

    method MergeKeywords(name: string, origin: Option<string>)
      requires Valid() && Holds()
      modifies this, Repr
      ensures Valid() && Holds() && view == Step(contents, old(view), Op.Merge(name, origin)) && fresh(Repr - old(Repr))
    {
      assert Safe(|levels| - 1);
      Detach();
      assert Safe(|levels| - 1);
      Update(name, origin);
    }

    /** Writes into the current level's own tables. */
    method Update(name: string, origin: Option<string>)
      requires Valid() && Holds() && !levels[|levels| - 1].cow
      modifies this`view, levels[|levels| - 1].keywords, levels[|levels| - 1].origins
      ensures Valid() && Holds() && view == Step(contents, old(view), Op.Merge(name, origin))
    {
      var n := |levels| - 1;
      assert Safe(n) && Shows(n);
      var keywords := if name in registry then registry[name].entries else map[];
      levels[n].Add(keywords, origin);
      view := Step(contents, view, Op.Merge(name, origin));
      forall k | 0 <= k < |levels| ensures Safe(k) {
        assert old(Safe(k));
      }
      forall k | 0 <= k < n ensures Shows(k) {
        hide Merged, Lookup;
        assert old(Shows(k)) && old(Owned(levels[n].keywords, n)) && old(Owned(levels[n].origins, n));
        assert levels[k].keywords != levels[n].keywords && levels[k].keywords != levels[n].origins;
        assert levels[k].origins != levels[n].keywords && levels[k].origins != levels[n].origins;
      }
      assert Shows(n);
    }

    method Apply(op: Op)
      requires Valid() && Holds() && (op.Close? ==> |view| >= 2)
      modifies this, Repr
      ensures Valid() && Holds() && view == Step(contents, old(view), op) && fresh(Repr - old(Repr))
    {
      assert Safe(|levels| - 1);
      match op
      case Open => Open();
      case Reset => Reset();
      case Close => Close();
      case Merge(name, origin) => MergeKeywords(name, origin);
      case SetDomain(family) => SetDomain(family);
    }

    /** Runs any stack-disciplined sequence of steps: the tables always hold what the value semantics says. */
    method Run(ops: seq<Op>)
      requires Valid() && Holds() && Disciplined(|view|, ops)
      modifies this, Repr
      ensures Valid() && Holds() && view == Steps(contents, old(view), ops)
    {
      var i := 0;
      while i < |ops|
        invariant 0 <= i <= |ops| && Valid() && Holds() && fresh(Repr - old(Repr))
        invariant Disciplined(|view|, ops[i..]) && Steps(contents, view, ops[i..]) == Steps(contents, old(view), ops)
        decreases |ops| - i
      {
        assert ops[i..][0] == ops[i] && ops[i..][1..] == ops[i + 1..];
        Apply(ops[i]);
        i := i + 1;
      }
    }
  }

  // --- whole runs -----------------------------------------------------------------------

  /** The depth one step leaves. */
  function Deeper(n: nat, op: Op): int {
    if op.Open? then n + 1 else if op.Close? then n - 1 else n
  }

  /** Never closes the outermost level. */
  predicate Disciplined(n: nat, ops: seq<Op>)
    decreases |ops|
  {
    ops != [] ==> (ops[0].Close? ==> n >= 2) && Disciplined(Deeper(n, ops[0]), ops[1..])
  }

  function Steps(contents: Contents, view: seq<Level>, ops: seq<Op>): seq<Level>
    requires view != [] && Disciplined(|view|, ops)
    decreases |ops|
  {
    if ops == [] then view else Steps(contents, Step(contents, view, ops[0]), ops[1..])
  }

  /** A block's own steps: stays above depth `n` until the close that brings it back there. */
  predicate Inner(n: nat, depth: nat, ops: seq<Op>)
    decreases |ops|
  {
    ops != []
    && if |ops| == 1 then ops[0].Close? && depth == n + 1
       else Deeper(depth, ops[0]) > n && Inner(n, Deeper(depth, ops[0]), ops[1..])
  }

  lemma {:induction false} InnerKeepsBelow(contents: Contents, view: seq<Level>, n: nat, ops: seq<Op>)
    requires 0 < n < |view| && Inner(n, |view|, ops)
    ensures Disciplined(|view|, ops) && Steps(contents, view, ops) == view[..n]
    decreases |ops|
  {
    if |ops| == 1 {
      assert ops[1..] == [];
    } else {
      InnerKeepsBelow(contents, Step(contents, view, ops[0]), n, ops[1..]);
    }
  }

  /**
   * A nested block, whatever it opens, resets, merges or switches inside, leaves every enclosing level's
   * keywords as they were when it opened.
   */
  lemma BlockRestores(contents: Contents, view: seq<Level>, ops: seq<Op>)
    requires view != [] && Inner(|view|, |view| + 1, ops)
    ensures Disciplined(|view|, [Op.Open] + ops) && Steps(contents, view, [Op.Open] + ops) == view
  {
    assert ([Op.Open] + ops)[1..] == ops;
    InnerKeepsBelow(contents, Step(contents, view, Op.Open), |view|, ops);
  }

  /** On a level of depth `n`: merges that do not declare the keyword, and whole nested blocks with anything in them. */
  predicate LeavesAlone(contents: Contents, k: string, n: nat, ops: seq<Op>)
    decreases |ops|
  {
    || ops == []
    || (ops[0].Merge? && k !in Lookup(contents, ops[0].name) && LeavesAlone(contents, k, n, ops[1..]))
    || (ops[0].Open? && exists m :: 1 < m <= |ops| && Inner(n, n + 1, ops[1..m]) && LeavesAlone(contents, k, n, ops[m..]))
  }

  /** The keyword is defined alike, and carries the same mark. */
  predicate SameKeyword(a: Level, b: Level, k: string) {
    && (k in a.keywords <==> k in b.keywords) && (k in a.keywords ==> a.keywords[k] == b.keywords[k])
    && (k in a.origins <==> k in b.origins) && (k in a.origins ==> a.origins[k] == b.origins[k])
  }

  lemma {:induction false} StepsAppend(contents: Contents, view: seq<Level>, a: seq<Op>, b: seq<Op>)
    requires view != [] && Disciplined(|view|, a) && Disciplined(|Steps(contents, view, a)|, b) && Steps(contents, view, a) != []
    ensures Disciplined(|view|, a + b) && Steps(contents, view, a + b) == Steps(contents, Steps(contents, view, a), b)
    decreases |a|
  {
    if a == [] {
      assert a + b == b;
    } else {
      assert (a + b)[0] == a[0] && (a + b)[1..] == a[1..] + b;
      StepsAppend(contents, Step(contents, view, a[0]), a[1..], b);
    }
  }

  lemma {:induction false} SameAlike(a: Level, b: Level, c: Level, k: string)
    ensures SameKeyword(a, a, k) && (SameKeyword(a, b, k) && SameKeyword(b, c, k) ==> SameKeyword(a, c, k))
  {
  }

  lemma {:induction false} MergeKeeps(contents: Contents, view: seq<Level>, op: Op, k: string)
    requires view != [] && op.Merge? && k !in Lookup(contents, op.name)
    ensures var next := Step(contents, view, op);
            |next| == |view| && SameKeyword(next[|view| - 1], view[|view| - 1], k)
  {
  }

  lemma {:induction false} AloneStays(contents: Contents, view: seq<Level>, k: string, ops: seq<Op>)
    requires view != [] && LeavesAlone(contents, k, |view|, ops)
    ensures Disciplined(|view|, ops) && |Steps(contents, view, ops)| == |view|
    ensures SameKeyword(Steps(contents, view, ops)[|view| - 1], view[|view| - 1], k)
    decreases |ops|
  {
    hide Step, Inner, SameKeyword;
    if ops == [] {
      SameAlike(view[|view| - 1], view[|view| - 1], view[|view| - 1], k);
    } else if ops[0].Merge? {
      var next := Step(contents, view, ops[0]);
      MergeKeeps(contents, view, ops[0], k);
      AloneStays(contents, next, k, ops[1..]);
      SameAlike(Steps(contents, next, ops[1..])[|view| - 1], next[|view| - 1], view[|view| - 1], k);
    } else {
      var m :| 1 < m <= |ops| && Inner(|view|, |view| + 1, ops[1..m]) && LeavesAlone(contents, k, |view|, ops[m..]);
      BlockRestores(contents, view, ops[1..m]);
      assert ops == ([Op.Open] + ops[1..m]) + ops[m..];
      AloneStays(contents, view, k, ops[m..]);
      StepsAppend(contents, view, [Op.Open] + ops[1..m], ops[m..]);
    }
  }

  /**
   * Over any run on one level, nested blocks included: a keyword is defined by the last merged module that
   * declares it, and carries that module's mark.
   */
  lemma {:induction false} LastMergeWins(contents: Contents, view: seq<Level>, name: string, origin: Option<string>, k: string, ops: seq<Op>)
    requires view != [] && k in Lookup(contents, name) && LeavesAlone(contents, k, |view|, ops)
    ensures var run := [Merge(name, origin)] + ops;
            && Disciplined(|view|, run) && |Steps(contents, view, run)| == |view|
            && var top := Steps(contents, view, run)[|view| - 1];
               && k in top.keywords && top.keywords[k] == Lookup(contents, name)[k]
               && (origin.Some? ==> k in top.origins && top.origins[k] == origin.value)
  {
    var run := [Merge(name, origin)] + ops;
    hide LeavesAlone, Inner;
    assert run[0] == Merge(name, origin) && run[1..] == ops;
    AloneStays(contents, Step(contents, view, run[0]), k, ops);
  }
}
