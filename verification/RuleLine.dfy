/** What a parsed `-A` line holds, read off its options: which keyword means what, and which entries stand where. */
module RuleLine {
  import opened Seqs
  import opened RuleTree
  import opened RuleParse
  import opened RuleTreeGuard

  lemma {:induction false} FinishSnoc(t: Tables, d: Draft, opts: seq<Opt>)
    requires opts != []
    ensures Finish(t, d, opts) == Step(t, Finish(t, d, opts[..|opts| - 1]), opts[|opts| - 1])
    decreases |opts|
  {
    if |opts| > 1 {
      FinishSnoc(t, Step(t, d, opts[0]), opts[1..]);
      assert opts[..|opts| - 1][1..] == opts[1..][..|opts[1..]| - 1];
    } else {
      assert opts[..0] == [] && opts[1..] == [];
    }
  }

  /** The working rule after the first `n` options of a line. */
  function After(t: Tables, opts: seq<Opt>, n: nat): Draft
    requires n <= |opts|
  {
    Finish(t, Fresh(t), opts[..n])
  }

  lemma {:induction false} AfterNext(t: Tables, opts: seq<Opt>, n: nat)
    requires 0 < n <= |opts|
    ensures After(t, opts, n) == Step(t, After(t, opts, n - 1), opts[n - 1])
  {
    FinishSnoc(t, Fresh(t), opts[..n]);
    assert opts[..n][..n - 1] == opts[..n - 1];
  }

  // --- keywords ---------------------------------------------------------------------------

  function Lookup(table: Keywords, k: string): Option<Arity> {
    if k in table then Some(table[k]) else None
  }

  function TableOf(defs: map<string, Keywords>, name: string): Keywords {
    if name in defs then defs[name] else map[]
  }

  function PortTable(t: Tables, name: string): Keywords {
    if name in t.portProtocols then t.portKeywords else map[]
  }

  /** The tables an option brings in; the first that declares a keyword wins. */
  function Brings(t: Tables, o: Opt): seq<Keywords> {
    match o
    case Protocol(Scalar(name)) =>
      [PortTable(t, name),
       TableOf(t.protoDefs, match name
                            case "icmpv6" => "icmp"
                            case "ipv6-icmp" => "icmp"
                            case "ipv6-mh" => "mh"
                            case _ => name)]
    case Match(name) =>
      var module_ := if name == "icmp6" then "icmpv6" else name;
      [PortTable(t, name), TableOf(if module_ in t.matchDefs then t.matchDefs else t.protoDefs, module_)]
    case Jump(name) => [TableOf(t.targetDefs, name)]
    case _ => []
  }

  function FirstIn(tables: seq<Keywords>, k: string): Option<Arity> {
    if tables == [] then None else OrElse(Lookup(tables[0], k), FirstIn(tables[1..], k))
  }

  /** What a keyword means after `n` options: the latest table that declares it decides; a jump forgets all others. */
  function Meaning(t: Tables, opts: seq<Opt>, n: nat, k: string): Option<Arity>
    requires n <= |opts|
  {
    if n == 0 then Lookup(t.base, k)
    else
      var brought := FirstIn(Brings(t, opts[n - 1]), k);
      if brought.Some? || opts[n - 1].Jump? then brought else Meaning(t, opts, n - 1, k)
  }

  lemma FirstOfTwo(a: Keywords, b: Keywords, k: string)
    ensures FirstIn([a, b], k) == OrElse(Lookup(a, k), Lookup(b, k)) && FirstIn([a], k) == Lookup(a, k)
    ensures FirstIn([], k) == None
  {
    assert [a][1..] == [] && [b][1..] == [];
    assert [a, b][1..] == [b] && FirstIn([b], k) == Lookup(b, k);
  }

  lemma ProtocolTeaches(t: Tables, d: Draft, value: Value, k: string)
    ensures Lookup(ProtocolStep(t, d, value).meta.keywords, k)
            == OrElse(FirstIn(Brings(t, Protocol(value)), k), Lookup(d.meta.keywords, k))
  {
    if value.Scalar? {
      var brought := Brings(t, Protocol(value));
      FirstOfTwo(brought[0], brought[1], k);
    }
  }

  lemma MatchTeaches(t: Tables, d: Draft, name: string, k: string)
    ensures Lookup(MatchStep(t, d, name).meta.keywords, k)
            == OrElse(FirstIn(Brings(t, Match(name)), k), Lookup(d.meta.keywords, k))
  {
    var brought := Brings(t, Match(name));
    FirstOfTwo(brought[0], brought[1], k);
  }

  lemma StepTeaches(t: Tables, d: Draft, o: Opt, k: string)
    ensures Lookup(Step(t, d, o).meta.keywords, k)
            == var brought := FirstIn(Brings(t, o), k);
               if brought.Some? || o.Jump? then brought else Lookup(d.meta.keywords, k)
  {
    hide ProtocolStep, MatchStep;
    match o
    case Protocol(value) => ProtocolTeaches(t, d, value, k);
    case Match(name) => MatchTeaches(t, d, name, k);
    case Jump(name) => FirstOfTwo(TableOf(t.targetDefs, name), map[], k);
    case Known(_, _, _) => FirstOfTwo(map[], map[], k);
    case Goto(_) => FirstOfTwo(map[], map[], k);
  }

  /** At every point of a line an option is understood exactly with the meaning the tables brought in so far give it. */
  lemma {:induction false} KeywordsAre(t: Tables, opts: seq<Opt>, n: nat, k: string)
    requires n <= |opts|
    ensures Lookup(After(t, opts, n).meta.keywords, k) == Meaning(t, opts, n, k)
  {
    hide Step, Brings;
    if n == 0 {
      assert opts[..0] == [];
    } else {
      AfterNext(t, opts, n);
      StepTeaches(t, After(t, opts, n - 1), opts[n - 1], k);
      KeywordsAre(t, opts, n - 1, k);
    }
  }

  /** An option is refused exactly when no table brought in so far declares it, and a `!` when nothing can carry it. */
  lemma OutcomeIs(t: Tables, opts: seq<Opt>, n: nat, o: Opt, negated: bool)
    requires n <= |opts|
    ensures var outcome := Judge(After(t, opts, n), o, negated);
            && (outcome.NotUnderstood? <==> o.Known? && Meaning(t, opts, n, o.option).None?)
            && (outcome.CannotNegate? <==> negated && (o.Match? || o.Jump? || o.Goto?))
  {
    if o.Known? { KeywordsAre(t, opts, n, o.option); }
  }

  // --- what a jump, a protocol and a module leave behind --------------------------------------

  /** The options in front of position `n` of which a jump is the last, or none. */
  function LastJump(opts: seq<Opt>, n: nat): (j: nat)
    requires n <= |opts|
    ensures j <= n && (j > 0 ==> opts[j - 1].Jump?) && forall i :: j <= i < n ==> !opts[i].Jump?
  {
    if n == 0 || opts[n - 1].Jump? then n else LastJump(opts, n - 1)
  }

  function LastGoto(opts: seq<Opt>, n: nat): Option<string>
    requires n <= |opts|
  {
    if n == 0 then None else if opts[n - 1].Goto? then Some(opts[n - 1].name) else LastGoto(opts, n - 1)
  }

  function LastProtocol(opts: seq<Opt>, n: nat): Option<Value>
    requires n <= |opts|
  {
    if n == 0 then None else if opts[n - 1].Protocol? then Some(opts[n - 1].value) else LastProtocol(opts, n - 1)
  }

  function Modules(opts: seq<Opt>, n: nat): set<string>
    requires n <= |opts|
  {
    set i | 0 <= i < n && opts[i].Match? :: opts[i].name
  }

  lemma StepMarks(t: Tables, d: Draft, o: Opt)
    ensures var m := Step(t, d, o).meta;
            && m.mod == d.meta.mod + (if o.Match? then {o.name} else {})
            && m.proto == (if o.Protocol? then Some(o.value) else d.meta.proto)
            && m.goto == (if o.Goto? then Some(o.name) else d.meta.goto)
            && m.jump == (if o.Jump? then Some(o.name) else d.meta.jump)
            && m.matchKeywords == (if o.Jump? then Some(d.meta.keywords) else d.meta.matchKeywords)
            && (m.target.Some? <==> o.Jump? || d.meta.target.Some?)
  {
  }

  /** The metadata: all modules, the last protocol, jump and goto, and the keywords known when the last jump came. */
  lemma {:induction false} MarksAre(t: Tables, opts: seq<Opt>, n: nat)
    requires n <= |opts|
    ensures var m, j := After(t, opts, n).meta, LastJump(opts, n);
            && m.mod == Modules(opts, n) && m.proto == LastProtocol(opts, n) && m.goto == LastGoto(opts, n)
            && m.jump == (if j > 0 then Some(opts[j - 1].name) else None) && (m.target.Some? <==> j > 0)
            && m.matchKeywords == if j > 0 then Some(After(t, opts, j - 1).meta.keywords) else None
  {
    hide Step;
    if n == 0 {
      assert opts[..0] == [];
    } else {
      AfterNext(t, opts, n);
      StepMarks(t, After(t, opts, n - 1), opts[n - 1]);
      MarksAre(t, opts, n - 1);
      assert Modules(opts, n) == Modules(opts, n - 1) + if opts[n - 1].Match? then {opts[n - 1].name} else {};
    }
  }

  // --- entries ----------------------------------------------------------------------------

  /** No module entry when the protocol in force names the module, or is ICMPv6 and the module `icmp6`. */
  predicate NamedBy(proto: Option<Value>, name: string) {
    || proto == Some(Scalar(name))
    || (name == "icmp6" && proto in {Some(Scalar("ipv6-icmp")), Some(Scalar("icmpv6"))})
  }

  /** The entries of one option, the values of a multiple one each by itself. */
  function Pieces(opts: seq<Opt>, i: nat): seq<Entry>
    requires i < |opts|
  {
    match opts[i]
    case Protocol(value) => [Entry("protocol", value)]
    case Match(name) => if NamedBy(LastProtocol(opts, i), name) then [] else [Entry("mod", Scalar(name))]
    case Known(_, shown, value) => Split([Entry(shown, value)])
    case _ => []
  }

  function Singles(name: string, values: seq<Value>): (r: seq<Entry>)
    ensures |r| == |values| && forall i :: 0 <= i < |r| ==> r[i] == Entry(name, Multi([values[i]]))
  {
    seq(|values|, i requires 0 <= i < |values| => Entry(name, Multi([values[i]])))
  }

  function Split(entries: seq<Entry>): seq<Entry> {
    if entries == [] then []
    else Split(entries[..|entries| - 1])
         + var e := entries[|entries| - 1]; if e.value.Multi? then Singles(e.name, e.value.values) else [e]
  }

  /** The entries of the options from `from` up to `n`, in order. */
  function Section(opts: seq<Opt>, from: nat, n: nat): seq<Entry>
    requires from <= n <= |opts|
    decreases n - from
  {
    if n == from then [] else Section(opts, from, n - 1) + Pieces(opts, n - 1)
  }

  /** Where the first jump stands, if anywhere in front of `n`. */
  function FirstJump(opts: seq<Opt>, n: nat): (j: nat)
    requires n <= |opts|
    ensures j <= n && (j < n ==> opts[j].Jump?) && forall i :: 0 <= i < j ==> !opts[i].Jump?
  {
    if n == 0 then 0
    else
      var j := FirstJump(opts, n - 1);
      if j < n - 1 || opts[n - 1].Jump? then j else n
  }

  /** What reading yields: an option of several values is shown under its own name, `-p` takes a single value. */
  predicate Plainly(o: Opt) {
    match o
    case Known(option, shown, value) => value.Multi? ==> shown == option
    case Protocol(value) => !value.Multi?
    case _ => true
  }

  lemma SplitSnoc(entries: seq<Entry>, e: Entry)
    ensures Split(entries + [e]) == Split(entries) + if e.value.Multi? then Singles(e.name, e.value.values) else [e]
  {
    assert (entries + [e])[..|entries|] == entries;
  }

  lemma SplitOne(e: Entry)
    ensures Split([e]) == if e.value.Multi? then Singles(e.name, e.value.values) else [e]
  {
    SplitSnoc([], e);
    assert [] + [e] == [e] && Split([]) == [];
  }

  /** Two neighbours of one name never both hold several values: such options are collected into one entry. */
  predicate Collected(entries: seq<Entry>) {
    forall i :: 0 < i < |entries| && entries[i].value.Multi? && entries[i - 1].value.Multi? ==>
      entries[i].name != entries[i - 1].name
  }

  /** An entry pushed to a draft goes to the section in force. */
  lemma PushAdds(d: Draft, e: Entry)
    requires Collected(d.Current())
    requires e.value.Multi? ==> d.Current() != [] ==>
               var last := d.Current()[|d.Current()| - 1]; !(last.value.Multi? && last.name == e.name)
    ensures var next := d.Push(e);
            && Split(next.Current()) == Split(d.Current()) + Split([e]) && Collected(next.Current())
            && Same(d, next)
  {
    hide Split;
    SplitSnoc(d.Current(), e);
    SplitOne(e);
  }

  /** The other section, if any, is as it was. */
  predicate Same(d: Draft, next: Draft) {
    && (d.meta.target.Some? <==> next.meta.target.Some?)
    && (d.meta.target.Some? ==> next.matches == d.matches)
  }

  predicate Adds(d: Draft, next: Draft, pieces: seq<Entry>) {
    Split(next.Current()) == Split(d.Current()) + pieces && Collected(next.Current()) && Same(d, next)
  }

  lemma ProtocolAdds(t: Tables, d: Draft, value: Value)
    requires Collected(d.Current()) && !value.Multi?
    ensures Adds(d, ProtocolStep(t, d, value), [Entry("protocol", value)])
  {
    hide Split, Collected;
    var named := d.(meta := d.meta.(proto := Some(value)));
    assert named.Current() == d.Current();
    PushOther(named, Entry("protocol", value));
    assert ProtocolStep(t, d, value).Current() == named.Push(Entry("protocol", value)).Current();
  }

  lemma PushOther(d: Draft, e: Entry)
    requires Collected(d.Current()) && !e.value.Multi?
    ensures Adds(d, d.Push(e), [e])
  {
    PushAdds(d, e);
    SplitOne(e);
  }

  lemma MatchAdds(t: Tables, d: Draft, name: string)
    requires Collected(d.Current())
    ensures Adds(d, MatchStep(t, d, name), if NamedBy(d.meta.proto, name) then [] else [Entry("mod", Scalar(name))])
  {
    hide Split, Collected;
    var loaded := d.(meta := d.meta.(mod := d.meta.mod + {name}));
    assert loaded.Current() == d.Current() && Split(d.Current()) + [] == Split(d.Current());
    if !NamedBy(d.meta.proto, name) {
      PushOther(loaded, Entry("mod", Scalar(name)));
      assert MatchStep(t, d, name).Current() == loaded.Push(Entry("mod", Scalar(name))).Current();
    } else {
      assert MatchStep(t, d, name).Current() == d.Current();
    }
  }

  /** Two several-valued entries of one name in a row are one. */
  lemma MergedSplit(front: seq<Entry>, name: string, a: seq<Value>, b: seq<Value>)
    ensures Split(front + [Entry(name, Multi(a + b))])
            == Split(front + [Entry(name, Multi(a))]) + Split([Entry(name, Multi(b))])
  {
    hide Split;
    SplitSnoc(front, Entry(name, Multi(a + b)));
    SplitSnoc(front, Entry(name, Multi(a)));
    SplitOne(Entry(name, Multi(b)));
    var x, y, z := Split(front), Singles(name, a), Singles(name, b);
    assert Singles(name, a + b) == y + z;
    hide Singles;
    assert x + (y + z) == (x + y) + z;
  }

  lemma MergedCollected(cur: seq<Entry>, values: seq<Value>)
    requires cur != [] && cur[|cur| - 1].value.Multi? && Collected(cur)
    ensures Collected(cur[..|cur| - 1] + [Entry(cur[|cur| - 1].name, Multi(values))])
  {
  }

  lemma KnownAdds(d: Draft, option: string, shown: string, value: Value)
    requires Collected(d.Current()) && (value.Multi? ==> shown == option)
    ensures Adds(d, KnownStep(d, option, shown, value), Split([Entry(shown, value)]))
  {
    hide Split, Collected;
    var cur := d.Current();
    if MergesMulti(d, option, value) {
      var last, front := cur[|cur| - 1], cur[..|cur| - 1];
      MergedSplit(front, option, last.value.values, value.values);
      MergedCollected(cur, last.value.values + value.values);
      assert front + [last] == cur && last == Entry(option, Multi(last.value.values));
      assert value == Multi(value.values);
      assert KnownStep(d, option, shown, value).Current()
          == front + [Entry(option, Multi(last.value.values + value.values))];
    } else {
      if value.Multi? && cur != [] { LastApart(d, option, value); }
      PushAdds(d, Entry(shown, value));
    }
  }

  lemma LastApart(d: Draft, option: string, value: Value)
    requires !MergesMulti(d, option, value) && value.Multi? && d.Current() != []
    ensures var last := d.Current()[|d.Current()| - 1]; !(last.value.Multi? && last.name == option)
  {
  }

  /** One option adds its pieces to the section it falls into, and touches no other. */
  lemma StepAdds(t: Tables, d: Draft, opts: seq<Opt>, i: nat)
    requires i < |opts| && Plainly(opts[i]) && !opts[i].Jump? && d.meta.proto == LastProtocol(opts, i)
    requires Collected(d.Current())
    ensures Adds(d, Step(t, d, opts[i]), Pieces(opts, i))
  {
    hide Split, Collected, ProtocolStep, MatchStep, KnownStep, NamedBy, LastProtocol;
    match opts[i]
    case Protocol(value) => ProtocolAdds(t, d, value);
    case Match(name) => MatchAdds(t, d, name);
    case Goto(_) => assert Split(d.Current()) + [] == Split(d.Current());
    case Known(option, shown, value) => KnownAdds(d, option, shown, value);
  }

  /** A jump opens an empty section and leaves the matches alone. */
  lemma JumpOpens(t: Tables, d: Draft, o: Opt)
    requires o.Jump?
    ensures var next := Step(t, d, o); next.meta.target == Some([]) && next.Current() == [] && next.matches == d.matches
  {
  }

  /**
   * The line's entries: in front of the first jump they are matches, behind the last one they belong to the target, in
   * the order of the options; in between they are lost. Several-valued neighbours are collected, nothing else is.
   */
  lemma {:induction false} EntriesAre(t: Tables, opts: seq<Opt>, n: nat)
    requires n <= |opts| && forall i :: 0 <= i < n ==> Plainly(opts[i])
    ensures var d, first, last := After(t, opts, n), FirstJump(opts, n), LastJump(opts, n);
            && Split(d.matches) == Section(opts, 0, first) && Collected(d.matches)
            && (d.meta.target.Some? <==> first < n)
            && (first < n ==> Split(d.meta.target.value) == Section(opts, last, n) && Collected(d.meta.target.value))
  {
    hide Step, Pieces, Split, Collected;
    if n == 0 {
      assert opts[..0] == [];
      Empty();
    } else {
      var d := After(t, opts, n - 1);
      AfterNext(t, opts, n);
      EntriesAre(t, opts, n - 1);
      MarksAre(t, opts, n - 1);
      if opts[n - 1].Jump? {
        JumpOpens(t, d, opts[n - 1]);
        Empty();
      } else {
        StepAdds(t, d, opts, n - 1);
      }
    }
  }

  lemma Empty()
    ensures Split([]) == [] && Collected([])
  {
  }
}
