/** The order of the delta's commands: sets before the rules that use them, leftovers last, everything by name. */
module NftScriptOrder {
  import opened NftTables
  import opened NftDelta
  import opened Ordering

  /** Sets, then desired chains, then leftover base chains, then leftover user chains, which others may jump to. */
  function Phase(c: Table, d: Table, cmd: Cmd): nat {
    match cmd
    case AddSet(_, _, _) => 1
    case AddElements(_, _) => 1
    case DeleteElements(_, _) => 1
    case AddChain(_, _) => 2
    case FlushChain(_) => 2
    case AddRule(_, _) => 2
    case DeleteChain(n) => if n in d.chains then 2 else if n in c.chains && c.chains[n].header.Base? then 3 else 4
    case _ => 0
  }

  function Subject(cmd: Cmd): string {
    match cmd
    case AddTable => ""
    case DeleteTable => ""
    case AddObject(n) => n
    case AddSet(n, _, _) => n
    case AddElements(n, _) => n
    case DeleteElements(n, _) => n
    case AddChain(n, _) => n
    case DeleteChain(n) => n
    case FlushChain(n) => n
    case AddRule(n, _) => n
  }

  /** For one set or chain: delete it or what goes, declare it, then fill it. */
  function Rank(cmd: Cmd): nat {
    match cmd
    case DeleteChain(_) => 0
    case AddChain(_, _) => 1
    case FlushChain(_) => 2
    case AddRule(_, _) => 3
    case AddSet(_, _, _) => 0
    case DeleteElements(_, _) => 1
    case AddElements(_, _) => 2
    case _ => 0
  }

  /** One command may come ahead of the other. */
  predicate Ahead(c: Table, d: Table, a: Cmd, b: Cmd) {
    Phase(c, d, a) < Phase(c, d, b)
    || (Phase(c, d, a) == Phase(c, d, b)
        && (Less(Subject(a), Subject(b)) || (Subject(a) == Subject(b) && Rank(a) <= Rank(b))))
  }

  predicate InTurn(c: Table, d: Table, cmds: seq<Cmd>) {
    forall i, j :: 0 <= i < j < |cmds| ==> Ahead(c, d, cmds[i], cmds[j])
  }

  /** Commands of one phase about these names only. */
  predicate About(c: Table, d: Table, cmds: seq<Cmd>, phase: nat, names: seq<string>) {
    forall cmd :: cmd in cmds ==> Phase(c, d, cmd) == phase && Subject(cmd) in names
  }

  predicate Ascending(names: seq<string>) {
    forall i, j :: 0 <= i < j < |names| ==> Less(names[i], names[j])
  }

  lemma JoinTurns(c: Table, d: Table, a: seq<Cmd>, b: seq<Cmd>)
    requires InTurn(c, d, a) && InTurn(c, d, b)
    requires forall x, y :: x in a && y in b ==> Ahead(c, d, x, y)
    ensures InTurn(c, d, a + b)
  {
    hide Ahead;
    forall i, j | 0 <= i < j < |a + b| ensures Ahead(c, d, (a + b)[i], (a + b)[j]) {
      if i < |a| <= j { assert a[i] in a && b[j - |a|] in b; }
    }
  }

  lemma OneName(c: Table, d: Table, cmds: seq<Cmd>, phase: nat, n: string)
    requires About(c, d, cmds, phase, [n]) && Ranked(cmds)
    ensures InTurn(c, d, cmds)
  {
    forall i, j | 0 <= i < j < |cmds| ensures Ahead(c, d, cmds[i], cmds[j]) {
      assert cmds[i] in cmds && cmds[j] in cmds;
    }
  }

  /** A first name's commands in front of those of later names. */
  lemma NextName(c: Table, d: Table, first: seq<Cmd>, rest: seq<Cmd>, phase: nat, names: seq<string>)
    requires names != [] && Ascending(names) && InTurn(c, d, rest)
    requires About(c, d, first, phase, [names[0]]) && About(c, d, rest, phase, names[1..])
    requires Ranked(first)
    ensures InTurn(c, d, first + rest) && About(c, d, first + rest, phase, names)
  {
    OneName(c, d, first, phase, names[0]);
    forall x, y | x in first && y in rest ensures Ahead(c, d, x, y) {
      var j :| 0 <= j < |names[1..]| && names[1..][j] == Subject(y);
      assert Less(names[0], names[j + 1]);
    }
    JoinTurns(c, d, first, rest);
  }

  predicate Ranked(cmds: seq<Cmd>) {
    forall i, j :: 0 <= i < j < |cmds| ==> Rank(cmds[i]) <= Rank(cmds[j])
  }

  lemma SetRanked(c: Table, d: Table, n: string)
    requires n in d.sets
    ensures About(c, d, SetCmds(c, d, n), 1, [n]) && Ranked(SetCmds(c, d, n))
  {
    hide Without;
  }

  lemma ChainRanked(c: Table, d: Table, n: string)
    requires n in d.chains
    ensures About(c, d, ChainCmds(c, d, n), 2, [n]) && Ranked(ChainCmds(c, d, n))
  {
    hide Diff;
  }

  lemma {:induction false} SetsInTurn(c: Table, d: Table, names: seq<string>)
    requires Ascending(names) && forall n :: n in names ==> n in d.sets
    ensures InTurn(c, d, SetPart(c, d, names)) && About(c, d, SetPart(c, d, names), 1, names)
  {
    hide InTurn, SetCmds, Phase, Rank;
    if names == [] {
      OneName(c, d, [], 1, "");
    } else {
      SetRanked(c, d, names[0]);
      SetsInTurn(c, d, names[1..]);
      NextName(c, d, SetCmds(c, d, names[0]), SetPart(c, d, names[1..]), 1, names);
    }
  }

  lemma {:induction false} ChainsInTurn(c: Table, d: Table, names: seq<string>)
    requires Ascending(names) && forall n :: n in names ==> n in d.chains
    ensures InTurn(c, d, ChainPart(c, d, names)) && About(c, d, ChainPart(c, d, names), 2, names)
  {
    hide InTurn, ChainCmds, Phase, Rank;
    if names == [] {
      OneName(c, d, [], 2, "");
    } else {
      ChainRanked(c, d, names[0]);
      ChainsInTurn(c, d, names[1..]);
      NextName(c, d, ChainCmds(c, d, names[0]), ChainPart(c, d, names[1..]), 2, names);
    }
  }

  lemma DeletesInTurn(c: Table, d: Table, names: seq<string>, phase: nat)
    requires Ascending(names) && forall n :: n in names ==> Phase(c, d, DeleteChain(n)) == phase
    ensures InTurn(c, d, Deletes(names)) && About(c, d, Deletes(names), phase, names)
  {
    forall cmd | cmd in Deletes(names) ensures Phase(c, d, cmd) == phase && Subject(cmd) in names {
      var i :| 0 <= i < |names| && Deletes(names)[i] == cmd;
      assert names[i] in names;
    }
  }

  lemma JoinPhases(c: Table, d: Table, a: seq<Cmd>, b: seq<Cmd>, phase: nat)
    requires InTurn(c, d, a) && InTurn(c, d, b)
    requires forall x :: x in a ==> Phase(c, d, x) <= phase
    requires forall y :: y in b ==> phase < Phase(c, d, y)
    ensures InTurn(c, d, a + b)
  {
    JoinTurns(c, d, a, b);
  }

  /**
   * The whole script: set commands ahead of chain commands, so a rule finds the set it names; leftover chains
   * behind them, base chains first; and within one phase the names ascend.
   */
  lemma ScriptInTurn(c: Table, d: Table)
    ensures InTurn(c, d, Script(c, d))
  {
    hide InTurn, Phase;
    if Diff(c, d).HasChanges() {
      var names, chains := Sorted(ChangedSets(c, d)), Sorted(d.chains.Keys);
      var desuet, foreign := Sorted(Diff(c, d).desuet), Sorted(Diff(c, d).foreign);
      SortedLists(ChangedSets(c, d));
      SortedLists(d.chains.Keys);
      SortedLists(Diff(c, d).desuet);
      SortedLists(Diff(c, d).foreign);
      SetsInTurn(c, d, names);
      ChainsInTurn(c, d, chains);
      Leftovers(c, d);
      DeletesInTurn(c, d, desuet, 3);
      DeletesInTurn(c, d, foreign, 4);
      JoinPhases(c, d, Deletes(desuet), Deletes(foreign), 3);
      JoinPhases(c, d, ChainPart(c, d, chains), Deletes(desuet) + Deletes(foreign), 2);
      JoinPhases(c, d, SetPart(c, d, names), ChainPart(c, d, chains) + (Deletes(desuet) + Deletes(foreign)), 1);
      TableFirst(c, d);
      JoinPhases(c, d, [AddTable],
                 SetPart(c, d, names) + (ChainPart(c, d, chains) + (Deletes(desuet) + Deletes(foreign))), 0);
    } else {
      OneName(c, d, [], 0, "");
    }
  }

  lemma Leftovers(c: Table, d: Table)
    ensures forall n :: n in Diff(c, d).desuet ==> Phase(c, d, DeleteChain(n)) == 3
    ensures forall n :: n in Diff(c, d).foreign ==> Phase(c, d, DeleteChain(n)) == 4
  {
  }

  lemma TableFirst(c: Table, d: Table)
    ensures Phase(c, d, AddTable) == 0 && InTurn(c, d, [AddTable])
  {
  }
}
