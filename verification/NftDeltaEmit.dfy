/** The emitters: the rendered script is indexed by name, and the delta is copied out of that index. */
module NftDeltaEmit {
  import opened Seqs
  import opened Ordering
  import opened NftTables
  import opened NftDelta

  // --- reading a rendered script -----------------------------------------------------

  const EMPTY: Table := Table(map[], map[], {})

  /** One rendered line; a line no renderer writes, or writes there, is refused. */
  function ReadLine(t: Table, line: Cmd): Option<Table> {
    match line
    case AddTable => Some(t)
    case DeleteTable => Some(EMPTY)
    case AddObject(o) => Some(t.(objects := t.objects + {o}))
    case AddSet(n, kind, flags) =>
      if n in t.sets then None else Some(t.(sets := t.sets[n := NftSet(kind, flags, [])]))
    case AddElements(n, es) =>
      if n !in t.sets || t.sets[n].elements != [] || es == [] then None
      else Some(t.(sets := t.sets[n := t.sets[n].(elements := es)]))
    case AddChain(n, header) =>
      if n in t.chains then None else Some(t.(chains := t.chains[n := Chain(header, [])]))
    case AddRule(n, rule) =>
      if n !in t.chains then None
      else Some(t.(chains := t.chains[n := t.chains[n].(rules := t.chains[n].rules + [rule])]))
    case _ => None
  }

  /** The table after the first `n` lines. */
  function Declared(save: seq<Cmd>, n: nat): Option<Table>
    requires n <= |save|
  {
    if n == 0 then Some(EMPTY)
    else
      var before := Declared(save, n - 1);
      if before.None? then None else ReadLine(before.value, save[n - 1])
  }

  lemma {:induction false} DeclaredBefore(save: seq<Cmd>, i: nat, n: nat)
    requires i <= n <= |save| && Declared(save, n).Some?
    ensures Declared(save, i).Some?
  {
    if i < n { DeclaredBefore(save, i, n - 1); }
  }

  /** Verbatim lines by object name. */
  datatype Index = Index(chainDecl: map<string, Cmd>, chainRules: map<string, seq<Cmd>>,
                         setDecl: map<string, Cmd>, setElements: map<string, Cmd>) {
    function RulesOf(n: string): seq<Cmd> {
      if n in chainRules then chainRules[n] else []
    }

    /** The index holds the lines that declare this table. */
    ghost predicate Of(t: Table) {
      OfChains(t) && OfSets(t)
    }

    ghost predicate OfChains(t: Table) {
      && chainDecl.Keys == t.chains.Keys && chainRules.Keys <= t.chains.Keys
      && forall n :: n in t.chains ==> OfChain(t, n)
    }

    ghost predicate OfChain(t: Table, n: string)
      requires n in t.chains && n in chainDecl
    {
      chainDecl[n] == AddChain(n, t.chains[n].header) && RulesOf(n) == Rules(n, t.chains[n].rules)
    }

    ghost predicate OfSets(t: Table) {
      && setDecl.Keys == t.sets.Keys && setElements.Keys <= t.sets.Keys
      && forall n :: n in t.sets ==> OfSet(t, n)
    }

    ghost predicate OfSet(t: Table, n: string)
      requires n in t.sets && n in setDecl
    {
      && setDecl[n] == AddSet(n, t.sets[n].kind, t.sets[n].flags)
      && (n in setElements <==> t.sets[n].elements != [])
      && (n in setElements ==> setElements[n] == AddElements(n, t.sets[n].elements))
    }
  }

  function IndexLine(index: Index, line: Cmd): Index {
    match line
    case DeleteTable => Index(map[], map[], map[], map[])
    case AddChain(n, _) => index.(chainDecl := index.chainDecl[n := line])
    case AddRule(n, _) => index.(chainRules := index.chainRules[n := index.RulesOf(n) + [line]])
    case AddSet(n, _, _) => index.(setDecl := index.setDecl[n := line])
    case AddElements(n, _) => index.(setElements := index.setElements[n := line])
    case _ => index
  }

  lemma RulesSnoc(n: string, rules: seq<string>, rule: string)
    ensures Rules(n, []) == [] && Rules(n, rules + [rule]) == Rules(n, rules) + [AddRule(n, rule)]
  {
  }

  lemma NewChainReads(index: Index, t: Table, n: string, header: Header)
    requires index.OfChains(t) && n !in t.chains
    ensures index.(chainDecl := index.chainDecl[n := AddChain(n, header)])
                 .OfChains(t.(chains := t.chains[n := Chain(header, [])]))
  {
    hide Rules;
    RulesSnoc(n, [], "");
    var index' := index.(chainDecl := index.chainDecl[n := AddChain(n, header)]);
    var t' := t.(chains := t.chains[n := Chain(header, [])]);
    forall m | m in t'.chains ensures index'.OfChain(t', m) {
      if m != n { assert index.OfChain(t, m); }
    }
  }

  lemma OneRuleReads(index: Index, index': Index, t: Table, t': Table, n: string, rule: string, m: string)
    requires m in t.chains && m in index.chainDecl && index.OfChain(t, m) && n in t.chains
    requires t'.chains == t.chains[n := t.chains[n].(rules := t.chains[n].rules + [rule])]
    requires index'.chainDecl == index.chainDecl
    requires index'.chainRules == index.chainRules[n := index.RulesOf(n) + [AddRule(n, rule)]]
    ensures index'.OfChain(t', m)
  {
    hide Rules;
    RulesSnoc(n, t.chains[n].rules, rule);
  }

  lemma RuleReadsAt(index: Index, index': Index, t: Table, t': Table, n: string, rule: string)
    requires index.OfChains(t) && n in t.chains
    requires t'.chains == t.chains[n := t.chains[n].(rules := t.chains[n].rules + [rule])]
    requires index'.chainDecl == index.chainDecl
    requires index'.chainRules == index.chainRules[n := index.RulesOf(n) + [AddRule(n, rule)]]
    ensures index'.OfChains(t')
  {
    hide Index.OfChain, Rules;
    assert t'.chains.Keys == t.chains.Keys;
    assert index'.chainRules.Keys == index.chainRules.Keys + {n};
    forall m | m in t'.chains ensures index'.OfChain(t', m) { OneRuleReads(index, index', t, t', n, rule, m); }
  }

  lemma RuleReads(index: Index, t: Table, n: string, rule: string)
    requires index.OfChains(t) && n in t.chains
    ensures index.(chainRules := index.chainRules[n := index.RulesOf(n) + [AddRule(n, rule)]])
                 .OfChains(t.(chains := t.chains[n := t.chains[n].(rules := t.chains[n].rules + [rule])]))
  {
    hide Index.OfChains, Index.RulesOf, Rules;
    RuleReadsAt(index, index.(chainRules := index.chainRules[n := index.RulesOf(n) + [AddRule(n, rule)]]),
                t, t.(chains := t.chains[n := t.chains[n].(rules := t.chains[n].rules + [rule])]), n, rule);
  }

  lemma SameChains(index: Index, index': Index, t: Table, t': Table)
    requires index.OfChains(t)
    requires t'.chains == t.chains && index'.chainDecl == index.chainDecl && index'.chainRules == index.chainRules
    ensures index'.OfChains(t')
  {
    hide Rules;
    forall m | m in t'.chains ensures index'.OfChain(t', m) { assert index.OfChain(t, m); }
  }

  lemma NoChains(index: Index, t: Table)
    requires index.chainDecl == map[] && index.chainRules == map[] && t.chains == map[]
    ensures index.OfChains(t)
  {
  }

  lemma ChainLineReads(index: Index, t: Table, line: Cmd)
    requires index.OfChains(t) && ReadLine(t, line).Some?
    ensures IndexLine(index, line).OfChains(ReadLine(t, line).value)
  {
    hide Rules, Index.RulesOf, Index.OfChain, Index.OfSets, Index.OfSet;
    if line.AddChain? {
      NewChainReads(index, t, line.chain, line.header);
    } else if line.AddRule? {
      RuleReads(index, t, line.chain, line.rule);
    } else if !line.DeleteTable? {
      var index', t' := IndexLine(index, line), ReadLine(t, line).value;
      assert t'.chains == t.chains && index'.chainDecl == index.chainDecl && index'.chainRules == index.chainRules;
      SameChains(index, index', t, t');
    } else {
      NoChains(IndexLine(index, line), EMPTY);
    }
  }

  lemma NewSetReads(index: Index, t: Table, line: Cmd)
    requires line.AddSet? && index.OfSets(t) && line.set_ !in t.sets
    ensures index.(setDecl := index.setDecl[line.set_ := line])
                 .OfSets(t.(sets := t.sets[line.set_ := NftSet(line.kind, line.flags, [])]))
  {
    var index' := index.(setDecl := index.setDecl[line.set_ := line]);
    var t' := t.(sets := t.sets[line.set_ := NftSet(line.kind, line.flags, [])]);
    forall m | m in t'.sets ensures index'.OfSet(t', m) {
      if m != line.set_ { assert index.OfSet(t, m); }
    }
  }

  lemma OneElementsRead(index: Index, index': Index, t: Table, t': Table, n: string, es: seq<string>, m: string)
    requires m in t.sets && m in index.setDecl && index.OfSet(t, m) && n in t.sets && es != []
    requires t'.sets == t.sets[n := t.sets[n].(elements := es)]
    requires index'.setDecl == index.setDecl && index'.setElements == index.setElements[n := AddElements(n, es)]
    ensures index'.OfSet(t', m)
  {
  }

  lemma ElementsReadAt(index: Index, index': Index, t: Table, t': Table, n: string, es: seq<string>)
    requires index.OfSets(t) && n in t.sets && es != []
    requires t'.sets == t.sets[n := t.sets[n].(elements := es)]
    requires index'.setDecl == index.setDecl && index'.setElements == index.setElements[n := AddElements(n, es)]
    ensures index'.OfSets(t')
  {
    hide Index.OfSet;
    assert t'.sets.Keys == t.sets.Keys;
    assert index'.setElements.Keys == index.setElements.Keys + {n};
    forall m | m in t'.sets ensures index'.OfSet(t', m) { OneElementsRead(index, index', t, t', n, es, m); }
  }

  lemma ElementsRead(index: Index, t: Table, n: string, es: seq<string>)
    requires index.OfSets(t) && n in t.sets && es != []
    ensures index.(setElements := index.setElements[n := AddElements(n, es)])
                 .OfSets(t.(sets := t.sets[n := t.sets[n].(elements := es)]))
  {
    hide Index.OfSets;
    ElementsReadAt(index, index.(setElements := index.setElements[n := AddElements(n, es)]),
                   t, t.(sets := t.sets[n := t.sets[n].(elements := es)]), n, es);
  }

  lemma SetLineReads(index: Index, t: Table, line: Cmd)
    requires index.OfSets(t) && ReadLine(t, line).Some?
    ensures IndexLine(index, line).OfSets(ReadLine(t, line).value)
  {
    if line.AddSet? {
      NewSetReads(index, t, line);
    } else if line.AddElements? {
      ElementsRead(index, t, line.set_, line.elements);
    } else if !line.DeleteTable? {
      var index', t' := IndexLine(index, line), ReadLine(t, line).value;
      assert t'.sets == t.sets && index'.setDecl == index.setDecl && index'.setElements == index.setElements;
      forall m | m in t'.sets ensures index'.OfSet(t', m) { assert index.OfSet(t, m); }
    }
  }

  /** A line the renderer never writes; meeting one is an internal error. */
  predicate Unexpected(line: Cmd) {
    line.DeleteElements? || line.DeleteChain? || line.FlushChain?
  }

  /** The lines that count among the first `n`: those behind the last reset of the whole table. */
  function Counted(save: seq<Cmd>, n: nat): seq<Cmd>
    requires n <= |save|
  {
    if n == 0 || save[n - 1].DeleteTable? then [] else Counted(save, n - 1) + [save[n - 1]]
  }

  /** What a line declares, apart from rules. */
  datatype Slot = ChainSlot(name: string) | SetSlot(name: string) | ElementSlot(name: string)

  function SlotOf(line: Cmd): Option<Slot> {
    match line
    case AddChain(n, _) => Some(ChainSlot(n))
    case AddSet(n, _, _) => Some(SetSlot(n))
    case AddElements(n, _) => Some(ElementSlot(n))
    case _ => None
  }

  function LastOf(lines: seq<Cmd>, slot: Slot): Option<Cmd> {
    if lines == [] then None
    else if SlotOf(lines[|lines| - 1]) == Some(slot) then Some(lines[|lines| - 1])
    else LastOf(lines[..|lines| - 1], slot)
  }

  function RuleLines(lines: seq<Cmd>, n: string): seq<Cmd> {
    if lines == [] then []
    else RuleLines(lines[..|lines| - 1], n)
         + if lines[|lines| - 1].AddRule? && lines[|lines| - 1].chain == n then [lines[|lines| - 1]] else []
  }

  function Entry(index: Index, slot: Slot): Option<Cmd> {
    match slot
    case ChainSlot(n) => if n in index.chainDecl then Some(index.chainDecl[n]) else None
    case SetSlot(n) => if n in index.setDecl then Some(index.setDecl[n]) else None
    case ElementSlot(n) => if n in index.setElements then Some(index.setElements[n]) else None
  }

  /** The last declaration of every name wins; rule lines add up per chain, declared or not. */
  ghost predicate Indexes(index: Index, lines: seq<Cmd>) {
    && (forall slot :: Entry(index, slot) == LastOf(lines, slot))
    && (forall n :: index.RulesOf(n) == RuleLines(lines, n))
  }

  lemma EntryAfter(index: Index, line: Cmd, slot: Slot)
    requires !line.DeleteTable?
    ensures Entry(IndexLine(index, line), slot) == if SlotOf(line) == Some(slot) then Some(line) else Entry(index, slot)
  {
  }

  lemma RulesAfter(index: Index, line: Cmd, n: string)
    requires !line.DeleteTable?
    ensures IndexLine(index, line).RulesOf(n)
            == index.RulesOf(n) + if line.AddRule? && line.chain == n then [line] else []
  {
  }

  lemma {:induction false} LineCounts(lines: seq<Cmd>, line: Cmd, slot: Slot, n: string)
    ensures LastOf(lines + [line], slot) == if SlotOf(line) == Some(slot) then Some(line) else LastOf(lines, slot)
    ensures RuleLines(lines + [line], n) == RuleLines(lines, n) + if line.AddRule? && line.chain == n then [line] else []
  {
    assert (lines + [line])[..|lines|] == lines;
  }

  lemma NothingIndexed(index: Index)
    requires index == Index(map[], map[], map[], map[])
    ensures Indexes(index, [])
  {
  }

  lemma {:induction false} IndexesLine(index: Index, save: seq<Cmd>, i: nat)
    requires i < |save| && Indexes(index, Counted(save, i)) && !Unexpected(save[i])
    ensures Indexes(IndexLine(index, save[i]), Counted(save, i + 1))
  {
    hide Entry, LastOf, RuleLines, SlotOf, Index.RulesOf;
    var line, lines := save[i], Counted(save, i);
    if line.DeleteTable? {
      NothingIndexed(IndexLine(index, line));
    } else {
      forall slot ensures Entry(IndexLine(index, line), slot) == LastOf(lines + [line], slot) {
        EntryAfter(index, line, slot);
        LineCounts(lines, line, slot, "");
      }
      forall n ensures IndexLine(index, line).RulesOf(n) == RuleLines(lines + [line], n) {
        RulesAfter(index, line, n);
        LineCounts(lines, line, ChainSlot(""), n);
      }
    }
  }

  lemma {:induction false} DeclaredExpected(save: seq<Cmd>, n: nat, i: nat)
    requires i < n <= |save| && Declared(save, n).Some?
    ensures !Unexpected(save[i])
  {
    DeclaredBefore(save, i + 1, n);
  }

  /** Indexes any script; `None` stands for the internal error. */
  method BuildDesiredIndex(save: seq<Cmd>) returns (index: Option<Index>)
    ensures index.None?
       <==> exists i :: 0 <= i < |save| && (save[i].DeleteElements? || save[i].DeleteChain? || save[i].FlushChain?)
    ensures index.Some? ==> Indexes(index.value, Counted(save, |save|))
    ensures Declared(save, |save|).Some? ==> index.Some? && index.value.Of(Declared(save, |save|).value)
  {
    var found := Index(map[], map[], map[], map[]);
    for i := 0 to |save|
      invariant forall j :: 0 <= j < i ==> !Unexpected(save[j])
      invariant Indexes(found, Counted(save, i))
      invariant Declared(save, |save|).Some? ==> Declared(save, i).Some? && found.Of(Declared(save, i).value)
    {
      hide Indexes, Index.Of;
      if Unexpected(save[i]) {
        if Declared(save, |save|).Some? { DeclaredExpected(save, |save|, i); }
        return None;
      }
      IndexesLine(found, save, i);
      if Declared(save, |save|).Some? {
        DeclaredBefore(save, i + 1, |save|);
        LineReads(found, Declared(save, i).value, save[i]);
      }
      found := IndexLine(found, save[i]);
    }
    index := Some(found);
  }

  lemma LineReads(index: Index, t: Table, line: Cmd)
    requires index.Of(t) && ReadLine(t, line).Some?
    ensures IndexLine(index, line).Of(ReadLine(t, line).value)
  {
    ChainLineReads(index, t, line);
    SetLineReads(index, t, line);
  }

  // --- the emitters ----------------------------------------------------------------------

  lemma Regroup<T>(a: seq<T>, b: seq<T>, c: seq<T>)
    ensures (a + b) + c == a + (b + c)
  {
  }

  method EmitSetChanges(diff: PlanDiff, c: Table, index: Index, d: Table) returns (out: seq<Cmd>)
    requires diff == Diff(c, d) && index.Of(d) && !NeedsReload(c, d)
    ensures (forall n :: n in Sorted(ChangedSets(c, d)) ==> n in d.sets)
    ensures out == SetPart(c, d, Sorted(ChangedSets(c, d)))
  {
    hide SetCmds, Diff, Index.Of, NeedsReload, Without;
    var names := SortedNames(diff.setsAdded + diff.setsModified);
    SortedNamesOf(ChangedSets(c, d));
    out := [];
    for i := 0 to |names|
      invariant out + SetPart(c, d, names[i..]) == SetPart(c, d, names)
    {
      var n := names[i];
      assert names[i..][0] == n && names[i..][1..] == names[i + 1..];
      var cmds := EmitSet(diff, c, index, d, n);
      Regroup(out, cmds, SetPart(c, d, names[i + 1..]));
      out := out + cmds;
    }
  }

  /** A new set is copied from the index; a modified one gets the difference only. */
  method EmitSet(diff: PlanDiff, c: Table, index: Index, d: Table, n: string) returns (out: seq<Cmd>)
    requires diff == Diff(c, d) && index.Of(d) && !NeedsReload(c, d) && n in ChangedSets(c, d)
    ensures out == SetCmds(c, d, n)
  {
    hide Without, Diff, NeedsReload;
    NewOrModified(c, d, n);
    assert index.OfSet(d, n);
    if n in diff.setsAdded {
      out := [index.setDecl[n]];
      if n in index.setElements { out := out + [index.setElements[n]]; }
    } else {
      var live, desired := c.sets[n].elements, d.sets[n].elements;
      var removed, added := Without(live, desired), Without(desired, live);
      out := [];
      if removed != [] { out := out + [DeleteElements(n, removed)]; }
      if added != [] { out := out + [AddElements(n, added)]; }
    }
  }

  lemma NewOrModified(c: Table, d: Table, n: string)
    requires !NeedsReload(c, d) && n in ChangedSets(c, d)
    ensures n in Diff(c, d).setsAdded <==> n !in c.sets
  {
    assert n !in Diff(c, d).setsRemoved;
  }

  method EmitChain(diff: PlanDiff, c: Table, index: Index, ghost d: Table, n: string) returns (out: seq<Cmd>)
    requires diff == Diff(c, d) && index.Of(d) && n in index.chainDecl
    ensures n in d.chains && out == ChainCmds(c, d, n)
  {
    hide Diff, Rules;
    assert index.OfChain(d, n);
    var decl, rules := index.chainDecl[n], index.RulesOf(n);
    if n !in c.chains {
      out := [decl] + rules;
    } else if n in diff.rebuilt {
      out := [DeleteChain(n)] + [decl] + rules;
    } else if n in diff.ruleChanged {
      out := [decl] + [FlushChain(n)] + rules;
    } else if n in diff.policyChanged {
      out := [decl];
    } else {
      out := [];
    }
  }

  /** Every desired chain, by name. */
  method EmitDesiredChains(diff: PlanDiff, c: Table, index: Index, ghost d: Table) returns (out: seq<Cmd>)
    requires diff == Diff(c, d) && index.Of(d)
    ensures (forall n :: n in Sorted(d.chains.Keys) ==> n in d.chains) && out == ChainPart(c, d, Sorted(d.chains.Keys))
  {
    hide ChainCmds, Diff, Rules, Index.OfSets, Index.OfChain;
    var names := SortedNames(index.chainDecl.Keys);
    SortedNamesOf(d.chains.Keys);
    out := [];
    for i := 0 to |names|
      invariant out + ChainPart(c, d, names[i..]) == ChainPart(c, d, names)
    {
      var n := names[i];
      assert names[i..][0] == n && names[i..][1..] == names[i + 1..];
      var cmds := EmitChain(diff, c, index, d, n);
      Regroup(out, cmds, ChainPart(c, d, names[i + 1..]));
      out := out + cmds;
    }
  }

  method EmitChainChanges(diff: PlanDiff, c: Table, index: Index, ghost d: Table) returns (out: seq<Cmd>)
    requires diff == Diff(c, d) && index.Of(d)
    ensures (forall n :: n in Sorted(d.chains.Keys) ==> n in d.chains)
    ensures out == ChainPart(c, d, Sorted(d.chains.Keys)) + (Deletes(Sorted(diff.desuet)) + Deletes(Sorted(diff.foreign)))
  {
    out := EmitDesiredChains(diff, c, index, d);
    var desuet := SortedNames(diff.desuet);
    var foreign := SortedNames(diff.foreign);
    out := out + (Deletes(desuet) + Deletes(foreign));
  }

  method EmitDeltaScript(diff: PlanDiff, c: Table, index: Index, d: Table) returns (script: seq<Cmd>)
    requires diff == Diff(c, d) && index.Of(d) && !NeedsReload(c, d)
    ensures script == Script(c, d)
  {
    if !diff.HasChanges() { return []; }
    var sets := EmitSetChanges(diff, c, index, d);
    var chains := EmitChainChanges(diff, c, index, d);
    script := [AddTable] + (sets + chains);
  }

  /** One family's delta, or `None` when only a full reload is safe. */
  method BuildNftDelta(c: Table, save: seq<Cmd>) returns (script: Option<seq<Cmd>>)
    requires Declared(save, |save|).Some?
    ensures var d := Declared(save, |save|).value;
            if c.objects == d.objects && forall n :: n in c.sets ==> Stays(c, d, n) then script == Some(Script(c, d))
            else script == None
  {
    var d := Declared(save, |save|).value;
    var diff := Diff(c, d);
    ReloadIff(c, d);
    if diff.setsRemoved != {} { return None; }
    if diff.objects != {} { return None; }
    var index := BuildDesiredIndex(save);
    var cmds := EmitDeltaScript(diff, c, index.value, d);
    script := Some(cmds);
  }

  // --- against a full reload -----------------------------------------------------------------

  lemma ReadRuns(t: Table, line: Cmd)
    requires ReadLine(t, line).Some?
    ensures Exec(Running(t), line) == Some(Running(ReadLine(t, line).value))
  {
    var k, next := Exec(Running(t), line), Running(ReadLine(t, line).value);
    match line
    case AddSet(n, _, _) => assert Members([]) == {}; assert k.value.sets == next.sets;
    case AddElements(n, es) =>
      assert Members([]) == {} && {} + Members(es) == Members(es);
      assert k.value.sets == next.sets;
    case DeleteTable => assert k.value.sets == next.sets;
    case _ =>
  }

  /** The rendered script, run on an empty kernel, builds the table it declares. */
  lemma {:induction false} ReloadBuilds(save: seq<Cmd>, n: nat)
    requires n <= |save| && Declared(save, n).Some?
    ensures ExecAll(Kernel(map[], map[], {}), save[..n]) == Some(Running(Declared(save, n).value))
  {
    if n == 0 {
      assert Running(EMPTY) == Kernel(map[], map[], {}) by { assert Running(EMPTY).sets == map[]; }
    } else {
      ReloadBuilds(save, n - 1);
      assert save[..n] == save[..n - 1] + [save[n - 1]];
      ExecAppend(Kernel(map[], map[], {}), save[..n - 1], [save[n - 1]]);
      ReadRuns(Declared(save, n - 1).value, save[n - 1]);
      assert [save[n - 1]][1..] == [];
    }
  }

  /** A render that replaces the whole table gives the desired one, whatever was running. */
  lemma ReloadReplaces(k: Kernel, save: seq<Cmd>)
    requires |save| >= 2 && save[0] == AddTable && save[1] == DeleteTable && Declared(save, |save|).Some?
    ensures ExecAll(k, save) == Some(Running(Declared(save, |save|).value))
  {
    ReloadBuilds(save, |save|);
    assert save[..|save|] == save;
    assert save[1..][1..] == save[2..];
    assert ExecAll(k, save) == ExecAll(Kernel(map[], map[], {}), save[2..]) == ExecAll(Kernel(map[], map[], {}), save);
  }

  /** Without dynamic sets the delta, where it is emitted and converges, leaves what a full reload would. */
  lemma DeltaAgreesWithReload(c: Table, save: seq<Cmd>)
    requires |save| >= 2 && save[0] == AddTable && save[1] == DeleteTable && Declared(save, |save|).Some?
    requires var d := Declared(save, |save|).value;
             && !NeedsReload(c, d) && HeadersReachable(c, d) && !OnlyEmptyChains(c, d)
             && forall n :: n in d.sets ==> !d.sets[n].IsDynamic()
    ensures ExecAll(Running(c), Script(c, Declared(save, |save|).value)) == ExecAll(Running(c), save)
  {
    hide ExecAll, Script, HeadersReachable, OnlyEmptyChains, NeedsReload, Live;
    var d := Declared(save, |save|).value;
    DeltaConverges(c, d);
    ReloadReplaces(Running(c), save);
    assert Target(c, d).sets == Running(d).sets;
  }
}
