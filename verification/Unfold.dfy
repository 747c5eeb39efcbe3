/**
 * Unfolding a rule: every array option is expanded, the first option varying slowest. The mutable
 * `chosen` slots are shared between the rules of a block.
 */
module Unfold {
  import opened Seqs
  import opened Products

  datatype Value =
    | Scalar(text: string)
    | Tagged(tag: string, items: seq<Value>)
    | Array(values: seq<Value>)
    | Deferred(callee: string, params: seq<Value>)

  /** What a late-evaluated call gives for a domain and its realised parameters. */
  type Calls = (string, string, seq<Value>) -> seq<Value>

  function Realize(calls: Calls, domain: string, vs: seq<Value>): seq<Value> {
    if vs == [] then []
    else
      var head := match vs[0]
        case Deferred(f, ps) => calls(f, domain, Realize(calls, domain, ps))
        case v => [v];
      head + Realize(calls, domain, vs[1..])
  }

  predicate NoCalls(vs: seq<Value>) {
    forall i :: 0 <= i < |vs| ==> !vs[i].Deferred?
  }

  /** A call gets its parameters realised: how calls would treat unrealised ones does not matter. */
  lemma {:induction false} CallsSeeRealised(one: Calls, other: Calls, domain: string, vs: seq<Value>)
    requires forall f, ps :: NoCalls(ps) ==> one(f, domain, ps) == other(f, domain, ps) && NoCalls(one(f, domain, ps))
    ensures Realize(one, domain, vs) == Realize(other, domain, vs) && NoCalls(Realize(one, domain, vs))
  {
    if vs != [] {
      if vs[0].Deferred? { CallsSeeRealised(one, other, domain, vs[0].params); }
      CallsSeeRealised(one, other, domain, vs[1..]);
    }
  }

  predicate ContainsDeferred(vs: seq<Value>) {
    vs != [] && (vs[0].Deferred? || (vs[0].Array? && ContainsDeferred(vs[0].values)) || ContainsDeferred(vs[1..]))
  }

  /** What a call gives stands where the call stood. */
  lemma {:induction false} RealizeAppend(calls: Calls, domain: string, a: seq<Value>, b: seq<Value>)
    ensures Realize(calls, domain, a + b) == Realize(calls, domain, a) + Realize(calls, domain, b)
  {
    if a == [] {
      assert a + b == b;
    } else {
      assert (a + b)[1..] == a[1..] + b;
      RealizeAppend(calls, domain, a[1..], b);
    }
  }

  /** Some value, or one inside a list at any depth, is a late call. */
  lemma {:induction false} ContainsDeferredIff(vs: seq<Value>)
    ensures ContainsDeferred(vs)
       <==> exists i :: 0 <= i < |vs| && (vs[i].Deferred? || (vs[i].Array? && ContainsDeferred(vs[i].values)))
  {
    if vs != [] {
      ContainsDeferredIff(vs[1..]);
      assert forall i :: 0 < i < |vs| ==> vs[i] == vs[1..][i - 1];
      assert forall i :: 0 <= i < |vs[1..]| ==> vs[1..][i] == vs[i + 1];
    }
  }

  lemma {:induction false} RealizePlain(calls: Calls, domain: string, vs: seq<Value>)
    requires !ContainsDeferred(vs)
    ensures Realize(calls, domain, vs) == vs
  {
    if vs != [] { RealizePlain(calls, domain, vs[1..]); }
  }

  class Option {
    const name: string
    const kind: string
    const origin: string
    var value: Value
    var chosen: Value

    constructor (name: string, kind: string, origin: string, value: Value)
      ensures this.name == name && this.kind == kind && this.origin == origin && this.value == value
    {
      this.name, this.kind, this.origin, this.value, this.chosen := name, kind, origin, value, Scalar("");
    }
  }

  class Rule {
    var options: seq<Option>
    var script: string

    constructor (options: seq<Option>, script: string)
      ensures this.options == options && this.script == script
    {
      this.options, this.script := options, script;
    }
  }

  datatype RenderedOption = RenderedOption(name: string, value: Value, kind: string, origin: string)
  datatype RenderedRule = RenderedRule(options: seq<RenderedOption>, script: string)

  class ChainRules {
    var rules: seq<RenderedRule>

    constructor ()
      ensures rules == []
    {
      rules := [];
    }
  }

  datatype Outcome = Done | InternalError

  /** A row with an array or an unrealised call in it must not reach a rule. */
  predicate Clean(row: seq<Value>) {
    forall i :: 0 <= i < |row| ==> !row[i].Array? && !row[i].Deferred?
  }

  /** The rows in front of the first one that is not clean. */
  function CleanRows(rows: seq<seq<Value>>): seq<seq<Value>> {
    if rows == [] || !Clean(rows[0]) then [] else [rows[0]] + CleanRows(rows[1..])
  }

  predicate AllClean(rows: seq<seq<Value>>) {
    forall i :: 0 <= i < |rows| ==> Clean(rows[i])
  }

  lemma {:induction false} CleanRowsAppend(a: seq<seq<Value>>, b: seq<seq<Value>>)
    ensures CleanRows(a + b) == if AllClean(a) then a + CleanRows(b) else CleanRows(a)
    ensures AllClean(a + b) <==> AllClean(a) && AllClean(b)
  {
    if a == [] {
      assert a + b == b;
    } else {
      assert (a + b)[1..] == a[1..] + b;
      CleanRowsAppend(a[1..], b);
      assert AllClean(a) <==> Clean(a[0]) && AllClean(a[1..]);
      assert AllClean(a + b) <==> Clean((a + b)[0]) && AllClean((a + b)[1..]);
    }
  }

  /** A rendered rule: every option under its own name, kind and origin, with the value the row chose for it. */
  function Render(options: seq<Option>, script: string, row: seq<Value>): (r: RenderedRule)
    requires |row| == |options|
    ensures r.script == script && |r.options| == |options|
    ensures forall i :: 0 <= i < |options| ==>
              && r.options[i].name == options[i].name && r.options[i].value == row[i]
              && r.options[i].kind == options[i].kind && r.options[i].origin == options[i].origin
  {
    RenderedRule(
      seq(|options|, i requires 0 <= i < |options| =>
        RenderedOption(options[i].name, row[i], options[i].kind, options[i].origin)),
      script)
  }

  predicate Wide(rows: seq<seq<Value>>, n: nat) {
    forall i :: 0 <= i < |rows| ==> |rows[i]| == n
  }

  function RenderAll(options: seq<Option>, script: string, rows: seq<seq<Value>>): (r: seq<RenderedRule>)
    requires Wide(rows, |options|)
    ensures |r| == |rows| && forall i :: 0 <= i < |r| ==> r[i] == Render(options, script, rows[i])
  {
    seq(|rows|, i requires 0 <= i < |rows| => Render(options, script, rows[i]))
  }

  predicate DistinctOptions(options: seq<Option>) {
    forall i, j :: 0 <= i < j < |options| ==> options[i] != options[j]
  }

  /** The options hold these values. */
  ghost predicate Carry(options: seq<Option>, values: seq<Value>)
    reads options`value
  {
    |values| == |options| && forall i :: 0 <= i < |options| ==> options[i].value == values[i]
  }

  /** The options have these values chosen. */
  ghost predicate Chose(options: seq<Option>, chosen: seq<Value>)
    reads options`chosen
  {
    |chosen| == |options| && forall i :: 0 <= i < |options| ==> options[i].chosen == chosen[i]
  }

  /** What each option may become, given its value alone. */
  function Alternatives(calls: Calls, domain: string, values: seq<Value>): (r: seq<seq<Value>>)
    ensures |r| == |values|
  {
    seq(|values|, i requires 0 <= i < |values| =>
      if values[i].Array? then Realize(calls, domain, values[i].values) else [values[i]])
  }

  /** The rows a rule stands for. */
  function Rows(calls: Calls, domain: string, values: seq<Value>): seq<seq<Value>> {
    Product(Alternatives(calls, domain, values))
  }

  /** With the options before `k` fixed to their chosen value, what each may still become. */
  function Remaining(calls: Calls, domain: string, values: seq<Value>, chosen: seq<Value>, k: nat): (r: seq<seq<Value>>)
    requires |values| == |chosen|
    ensures |r| == |values|
    ensures forall i :: 0 <= i < |r| ==>
              r[i] == if k <= i && values[i].Array? then Realize(calls, domain, values[i].values) else [chosen[i]]
  {
    seq(|values|, i requires 0 <= i < |values| =>
      if k <= i && values[i].Array? then Realize(calls, domain, values[i].values) else [chosen[i]])
  }

  /** The array options from `k` on, in order. */
  function ArraysFrom(options: seq<Option>, values: seq<Value>, k: nat): (r: seq<Option>)
    requires k <= |options| == |values|
    decreases |options| - k
    ensures forall o :: o in r ==> exists i :: k <= i < |options| && options[i] == o && values[i].Array?
  {
    if k == |options| then []
    else (if values[k].Array? then [options[k]] else []) + ArraysFrom(options, values, k + 1)
  }

  /** The chain after some rows were emitted: all of them, or those in front of the first bad one. */
  ghost predicate Emitted(before: seq<RenderedRule>, after: seq<RenderedRule>, outcome: Outcome,
                          options: seq<Option>, script: string, rows: seq<seq<Value>>)
  {
    || (outcome.Done? && AllClean(rows) && Wide(rows, |options|) && after == before + RenderAll(options, script, rows))
    || (outcome.InternalError? && !AllClean(rows) && Wide(CleanRows(rows), |options|)
        && after == before + RenderAll(options, script, CleanRows(rows)))
  }

  lemma RenderAllAppend(options: seq<Option>, script: string, x: seq<seq<Value>>, y: seq<seq<Value>>)
    requires Wide(x, |options|) && Wide(y, |options|)
    ensures Wide(x + y, |options|)
    ensures RenderAll(options, script, x + y) == RenderAll(options, script, x) + RenderAll(options, script, y)
  {
  }

  lemma RenderThen(before: seq<RenderedRule>, options: seq<Option>, script: string,
                   x: seq<seq<Value>>, y: seq<seq<Value>>, z: seq<seq<Value>>)
    requires Wide(x, |options|) && Wide(y, |options|) && z == x + y
    ensures Wide(z, |options|)
    ensures (before + RenderAll(options, script, x)) + RenderAll(options, script, y)
            == before + RenderAll(options, script, z)
  {
    RenderAllAppend(options, script, x, y);
  }

  lemma EmittedThen(before: seq<RenderedRule>, mid: seq<RenderedRule>, after: seq<RenderedRule>, outcome: Outcome,
                    options: seq<Option>, script: string, a: seq<seq<Value>>, b: seq<seq<Value>>)
    requires Emitted(before, mid, Done, options, script, a) && Emitted(mid, after, outcome, options, script, b)
    ensures Emitted(before, after, outcome, options, script, a + b)
  {
    CleanRowsAppend(a, b);
    if outcome.Done? {
      RenderThen(before, options, script, a, b, a + b);
    } else {
      RenderThen(before, options, script, a, CleanRows(b), CleanRows(a + b));
    }
  }

  lemma EmittedStops(before: seq<RenderedRule>, after: seq<RenderedRule>,
                     options: seq<Option>, script: string, a: seq<seq<Value>>, b: seq<seq<Value>>)
    requires Emitted(before, after, InternalError, options, script, a)
    ensures Emitted(before, after, InternalError, options, script, a + b)
  {
    CleanRowsAppend(a, b);
  }

  lemma {:induction false} SingleRow(choices: seq<seq<Value>>, row: seq<Value>)
    requires |choices| == |row| && forall i :: 0 <= i < |row| ==> choices[i] == [row[i]]
    ensures Product(choices) == [row]
  {
    if choices != [] {
      SingleRow(choices[1..], row[1..]);
      assert ProductFrom(choices[0][1..], choices[1..]) == [];
      assert row == [row[0]] + row[1..];
    }
  }

  lemma {:induction false} FirstArray(options: seq<Option>, values: seq<Value>, k: nat) returns (p: nat)
    requires k <= |options| == |values| && ArraysFrom(options, values, k) != []
    ensures k <= p < |options| && values[p].Array? && options[p] == ArraysFrom(options, values, k)[0]
    ensures ArraysFrom(options, values, p + 1) == ArraysFrom(options, values, k)[1..]
    ensures forall i :: k <= i < p ==> !values[i].Array?
    decreases |options| - k
  {
    if values[k].Array? { p := k; } else { p := FirstArray(options, values, k + 1); }
  }

  lemma {:induction false} NoArrayLeft(options: seq<Option>, values: seq<Value>, k: nat)
    requires k <= |options| == |values| && ArraysFrom(options, values, k) == []
    ensures forall i :: k <= i < |options| ==> !values[i].Array?
    decreases |options| - k
  {
    if k < |options| { NoArrayLeft(options, values, k + 1); }
  }

  /** Apart from the arrays from `k` on, two states have chosen alike. */
  ghost predicate Alike(values: seq<Value>, c: seq<Value>, d: seq<Value>, k: nat) {
    |values| == |c| == |d| && forall i :: 0 <= i < |values| && (i < k || !values[i].Array?) ==> c[i] == d[i]
  }

  predicate Single(pre: seq<seq<Value>>) {
    forall j :: 0 <= j < |pre| ==> |pre[j]| == 1
  }

  lemma NothingOpen(calls: Calls, domain: string, values: seq<Value>, chosen: seq<Value>, k: nat)
    requires |values| == |chosen| && forall i :: k <= i < |values| ==> !values[i].Array?
    ensures Product(Remaining(calls, domain, values, chosen, k)) == [chosen]
  {
    SingleRow(Remaining(calls, domain, values, chosen, k), chosen);
  }

  lemma OneMoreValue(pre: seq<seq<Value>>, values: seq<Value>, i: nat, post: seq<seq<Value>>)
    requires i < |values| && Single(pre)
    ensures Product(pre + [values[..i + 1]] + post)
            == Product(pre + [values[..i]] + post) + Product(pre + [[values[i]]] + post)
  {
    assert values[..i + 1] == values[..i] + [values[i]];
    ProductSplitsInOrder(pre, values[..i], [values[i]], post);
  }

  lemma LaterValues(pre: seq<seq<Value>>, values: seq<Value>, i: nat, post: seq<seq<Value>>)
    requires i <= |values| && Single(pre)
    ensures Product(pre + [values] + post) == Product(pre + [values[..i]] + post) + Product(pre + [values[i..]] + post)
  {
    assert values == values[..i] + values[i..];
    ProductSplitsInOrder(pre, values[..i], values[i..], post);
  }

  lemma {:induction false} NoValueNoRow(pre: seq<seq<Value>>, post: seq<seq<Value>>)
    ensures Product(pre + [[]] + post) == []
  {
    if pre == [] {
      assert (pre + [[]] + post)[0] == [];
    } else {
      assert (pre + [[]] + post)[1..] == pre[1..] + [[]] + post;
      NoValueNoRow(pre[1..], post);
      NoRestNoRow(pre[0], pre[1..] + [[]] + post);
    }
  }

  lemma {:induction false} NoRestNoRow(first: seq<Value>, rest: seq<seq<Value>>)
    requires Product(rest) == []
    ensures ProductFrom(first, rest) == []
  {
    if first != [] { NoRestNoRow(first[1..], rest); }
  }

  /** One unfolding: the rule's options, the values they hold, and how late calls are evaluated. */
  datatype Job = Job(calls: Calls, domain: string, options: seq<Option>, script: string, values: seq<Value>) {
    ghost predicate For(rule: Rule)
      reads rule, options`value
    {
      options == rule.options && script == rule.script && DistinctOptions(options) && Carry(options, values)
    }

    function Left(chosen: seq<Value>, k: nat): (r: seq<seq<Value>>)
      requires |values| == |chosen|
    {
      Remaining(calls, domain, values, chosen, k)
    }

    /** What the array at `p` expands to. */
    function Items(p: nat): seq<Value>
      requires p < |values| && values[p].Array?
    {
      Realize(calls, domain, values[p].values)
    }
  }

  /** The first open array, from `k` on, is at `p`. */
  ghost predicate First(values: seq<Value>, chosen: seq<Value>, k: nat, p: nat) {
    k <= p < |values| == |chosen| && values[p].Array? && forall i :: k <= i < p ==> !values[i].Array?
  }

  /** Unfolding stands in front of value `i` of the first open array, which is at `p`. */
  ghost predicate Midway(job: Job, before: seq<RenderedRule>, after: seq<RenderedRule>,
                         chosen: seq<Value>, now: seq<Value>, k: nat, p: nat, i: nat)
  {
    && First(job.values, chosen, k, p) && Alike(job.values, chosen, now, p) && i <= |job.Items(p)|
    && var all := job.Left(chosen, k);
       Emitted(before, after, Done, job.options, job.script, Product(all[..p] + [job.Items(p)[..i]] + all[p + 1..]))
  }

  lemma Begin(job: Job, before: seq<RenderedRule>, chosen: seq<Value>, k: nat, p: nat)
    requires First(job.values, chosen, k, p)
    ensures Midway(job, before, before, chosen, chosen, k, p, 0)
  {
    var all := job.Left(chosen, k);
    NoValueNoRow(all[..p], all[p + 1..]);
    assert job.Items(p)[..0] == [];
  }

  lemma Narrow(job: Job, chosen: seq<Value>, now: seq<Value>, k: nat, p: nat, v: Value)
    requires First(job.values, chosen, k, p) && Alike(job.values, chosen, now, p)
    ensures var all := job.Left(chosen, k);
            job.Left(now[p := v], p + 1) == all[..p] + [[v]] + all[p + 1..] && Single(all[..p])
  {
    var all, narrowed := job.Left(chosen, k), job.Left(now[p := v], p + 1);
    forall q | 0 <= q < |all| ensures narrowed[q] == if q == p then [v] else all[q] {}
  }

  /** The rows of one value were emitted after those in front of it. */
  ghost predicate Stepped(job: Job, mid: seq<RenderedRule>, after: seq<RenderedRule>, outcome: Outcome,
                          now: seq<Value>, later: seq<Value>, p: nat, v: Value)
    requires p < |now| == |job.values|
  {
    && Alike(job.values, now[p := v], later, p + 1)
    && Emitted(mid, after, outcome, job.options, job.script, Product(job.Left(now[p := v], p + 1)))
  }

  lemma NextRows(before: seq<RenderedRule>, mid: seq<RenderedRule>, after: seq<RenderedRule>, outcome: Outcome,
                 options: seq<Option>, script: string,
                 pre: seq<seq<Value>>, items: seq<Value>, i: nat, post: seq<seq<Value>>)
    requires i < |items| && Single(pre)
    requires Emitted(before, mid, Done, options, script, Product(pre + [items[..i]] + post))
    requires Emitted(mid, after, outcome, options, script, Product(pre + [[items[i]]] + post))
    ensures Emitted(before, after, outcome, options, script, Product(pre + [items[..i + 1]] + post))
  {
    OneMoreValue(pre, items, i, post);
    EmittedThen(before, mid, after, outcome, options, script,
                Product(pre + [items[..i]] + post), Product(pre + [[items[i]]] + post));
  }

  lemma StoppedRows(before: seq<RenderedRule>, after: seq<RenderedRule>, options: seq<Option>, script: string,
                    pre: seq<seq<Value>>, items: seq<Value>, i: nat, post: seq<seq<Value>>)
    requires i <= |items| && Single(pre)
    requires Emitted(before, after, InternalError, options, script, Product(pre + [items[..i]] + post))
    ensures Emitted(before, after, InternalError, options, script, Product(pre + [items] + post))
  {
    LaterValues(pre, items, i, post);
    EmittedStops(before, after, options, script,
                 Product(pre + [items[..i]] + post), Product(pre + [items[i..]] + post));
  }

  lemma AllAround(job: Job, chosen: seq<Value>, k: nat, p: nat)
    requires First(job.values, chosen, k, p)
    ensures var all := job.Left(chosen, k); all == all[..p] + [job.Items(p)] + all[p + 1..]
  {
  }

  lemma Next(job: Job, before: seq<RenderedRule>, mid: seq<RenderedRule>, after: seq<RenderedRule>,
             outcome: Outcome, chosen: seq<Value>, now: seq<Value>, later: seq<Value>, k: nat, p: nat, i: nat)
    requires Midway(job, before, mid, chosen, now, k, p, i) && i < |job.Items(p)|
    requires Stepped(job, mid, after, outcome, now, later, p, job.Items(p)[i])
    ensures Alike(job.values, chosen, later, k)
    ensures outcome.Done? ==> Midway(job, before, after, chosen, later, k, p, i + 1)
    ensures outcome.InternalError? ==>
              Emitted(before, after, outcome, job.options, job.script, Product(job.Left(chosen, k)))
  {
    var all, items := job.Left(chosen, k), job.Items(p);
    Narrow(job, chosen, now, k, p, items[i]);
    NextRows(before, mid, after, outcome, job.options, job.script, all[..p], items, i, all[p + 1..]);
    if outcome.InternalError? {
      StoppedRows(before, after, job.options, job.script, all[..p], items, i + 1, all[p + 1..]);
      AllAround(job, chosen, k, p);
    }
  }

  lemma Finish(job: Job, before: seq<RenderedRule>, after: seq<RenderedRule>,
               chosen: seq<Value>, now: seq<Value>, k: nat, p: nat, i: nat)
    requires Midway(job, before, after, chosen, now, k, p, i) && i == |job.Items(p)|
    ensures Emitted(before, after, Done, job.options, job.script, Product(job.Left(chosen, k)))
    ensures Alike(job.values, chosen, now, k)
  {
    var all := job.Left(chosen, k);
    assert job.Items(p)[..i] == job.Items(p);
    AllAround(job, chosen, k, p);
  }

  lemma OneRow(before: seq<RenderedRule>, options: seq<Option>, script: string, row: seq<Value>)
    requires |row| == |options|
    ensures Clean(row) ==> Emitted(before, before + [Render(options, script, row)], Done, options, script, [row])
    ensures !Clean(row) ==> Emitted(before, before, InternalError, options, script, [row])
  {
    assert RenderAll(options, script, [row]) == [Render(options, script, row)];
    if Clean(row) {
    } else {
      assert !Clean([row][0]);
      assert CleanRows([row]) == [];
      assert before + RenderAll(options, script, []) == before;
    }
  }

  /** What one finished rule adds: the chosen values in option order, unless one of them is not a plain value. */
  method AppendRule(chain: ChainRules, rule: Rule, ghost row: seq<Value>) returns (outcome: Outcome)
    requires Chose(rule.options, row)
    modifies chain
    ensures Emitted(old(chain.rules), chain.rules, outcome, rule.options, rule.script, [row])
    ensures outcome.Done? <==> forall o :: o in rule.options ==> !o.chosen.Array? && !o.chosen.Deferred?
  {
    OneRow(chain.rules, rule.options, rule.script, row);
    var options: seq<RenderedOption> := [];
    for i := 0 to |rule.options|
      invariant options == Render(rule.options, rule.script, row).options[..i]
      invariant forall j :: 0 <= j < i ==> !row[j].Array? && !row[j].Deferred?
    {
      var option := rule.options[i];
      if option.chosen.Array? || option.chosen.Deferred? {
        assert option.chosen == row[i];
        return InternalError;
      }
      options := options + [RenderedOption(option.name, option.chosen, option.kind, option.origin)];
    }
    assert options == Render(rule.options, rule.script, row).options && Clean(row);
    chain.rules := chain.rules + [RenderedRule(options, rule.script)];
    outcome := Done;
  }

  /**
   * Expands the array options still pending, the first outermost. The ghosts say what is chosen, and up
   * to where (`k`) the choice is made.
   */
  method UnfoldRule(calls: Calls, domain: string, chain: ChainRules, rule: Rule, options: seq<Option>,
                    ghost job: Job, ghost chosen: seq<Value>, ghost k: nat)
    returns (outcome: Outcome, ghost now: seq<Value>)
    requires job.For(rule) && job.calls == calls && job.domain == domain && Chose(rule.options, chosen)
    requires k <= |chosen| && options == ArraysFrom(rule.options, job.values, k)
    modifies chain, options`chosen
    ensures Chose(rule.options, now) && Alike(job.values, chosen, now, k)
    ensures Emitted(old(chain.rules), chain.rules, outcome, job.options, job.script, Product(job.Left(chosen, k)))
    decreases |options|, 0
  {
    now := chosen;
    if options == [] {
      NoArrayLeft(rule.options, job.values, k);
      NothingOpen(calls, domain, job.values, chosen, k);
      outcome := AppendRule(chain, rule, chosen);
      return;
    }
    ghost var p := FirstArray(rule.options, job.values, k);
    var option, rest := options[0], options[1..];
    var items := Realize(calls, domain, option.value.values);
    outcome := Done;
    Begin(job, chain.rules, chosen, k, p);
    for i := 0 to |items|
      invariant Midway(job, old(chain.rules), chain.rules, chosen, now, k, p, i)
      invariant Chose(rule.options, now) && outcome == Done
    {
      ghost var before, was := chain.rules, now;
      outcome, now := UnfoldValue(calls, domain, chain, rule, option, items[i], rest, job, was, p);
      Next(job, old(chain.rules), before, chain.rules, outcome, chosen, was, now, k, p, i);
      if outcome == InternalError { return; }
    }
    Finish(job, old(chain.rules), chain.rules, chosen, now, k, p, |items|);
  }

  /** The body of the loop: record one value on the option and unfold the rest under it. */
  method UnfoldValue(calls: Calls, domain: string, chain: ChainRules, rule: Rule, option: Option, value: Value,
                     rest: seq<Option>, ghost job: Job, ghost was: seq<Value>, ghost p: nat)
    returns (outcome: Outcome, ghost now: seq<Value>)
    requires job.For(rule) && job.calls == calls && job.domain == domain && Chose(rule.options, was)
    requires p < |was| && rule.options[p] == option && rest == ArraysFrom(rule.options, job.values, p + 1)
    modifies chain, option`chosen, rest`chosen
    ensures Chose(rule.options, now)
    ensures Stepped(job, old(chain.rules), chain.rules, outcome, was, now, p, value)
    decreases |rest|, 1
  {
    option.chosen := value;
    outcome, now := UnfoldRule(calls, domain, chain, rule, rest, job, was[p := value], p + 1);
  }

  // --- the whole rule -----------------------------------------------------------

  function ValuesOf(options: seq<Option>): (r: seq<Value>)
    reads options
    ensures |r| == |options| && forall i :: 0 <= i < |r| ==> r[i] == options[i].value
  {
    seq(|options|, i requires 0 <= i < |options| reads options => options[i].value)
  }

  function ChosenOf(options: seq<Option>): (r: seq<Value>)
    reads options
    ensures |r| == |options| && forall i :: 0 <= i < |r| ==> r[i] == options[i].chosen
  {
    seq(|options|, i requires 0 <= i < |options| reads options => options[i].chosen)
  }

  /** The elements of the array values from `k` on. */
  function ArrayItems(values: seq<Value>, k: nat): seq<seq<Value>>
    requires k <= |values|
    decreases |values| - k
  {
    if k == |values| then []
    else (if values[k].Array? then [values[k].values] else []) + ArrayItems(values, k + 1)
  }

  predicate NoneDeferred(items: seq<seq<Value>>) {
    forall i :: 0 <= i < |items| ==> !ContainsDeferred(items[i])
  }

  /** Without late calls a rule stands for as many rows as the product of its array lengths says. */
  lemma {:induction false} RowCount(calls: Calls, domain: string, values: seq<Value>, k: nat)
    requires k <= |values| && NoneDeferred(ArrayItems(values, k))
    ensures LengthProduct(Alternatives(calls, domain, values)[k..]) == LengthProduct(ArrayItems(values, k))
    decreases |values| - k
  {
    if k < |values| {
      var alts, items := Alternatives(calls, domain, values), ArrayItems(values, k);
      assert alts[k..][0] == alts[k] && alts[k..][1..] == alts[k + 1..];
      if values[k].Array? {
        assert items[0] == values[k].values && items[1..] == ArrayItems(values, k + 1);
        forall i | 0 <= i < |items[1..]| ensures !ContainsDeferred(items[1..][i]) {
          assert items[1..][i] == items[i + 1];
        }
        RowCount(calls, domain, values, k + 1);
        RealizePlain(calls, domain, items[0]);
      } else {
        assert items == ArrayItems(values, k + 1);
        RowCount(calls, domain, values, k + 1);
        assert |alts[k]| == 1;
      }
    }
  }

  lemma CountHolds(calls: Calls, domain: string, before: seq<RenderedRule>, after: seq<RenderedRule>,
                   options: seq<Option>, script: string, values: seq<Value>)
    requires Emitted(before, after, Done, options, script, Rows(calls, domain, values))
    requires NoneDeferred(ArrayItems(values, 0))
    ensures |after| - |before| == LengthProduct(ArrayItems(values, 0))
  {
    RowCount(calls, domain, values, 0);
    var alts := Alternatives(calls, domain, values);
    assert alts[0..] == alts;
    ProductSize(alts);
  }

  /** The options in front of `i` are sorted into arrays and ready values. */
  ghost predicate Split(options: seq<Option>, values: seq<Value>, i: nat, unfold: seq<Option>, items: seq<seq<Value>>)
    reads options`chosen
  {
    && i <= |options| == |values|
    && unfold + ArraysFrom(options, values, i) == ArraysFrom(options, values, 0)
    && items + ArrayItems(values, i) == ArrayItems(values, 0)
    && forall j :: 0 <= j < i && !values[j].Array? ==> options[j].chosen == values[j]
  }

  /** Sorts out the arrays and records every other value as its own choice. */
  method SplitOptions(rule: Rule, ghost values: seq<Value>)
    returns (unfold: seq<Option>, arrayValues: seq<seq<Value>>, ghost chosen: seq<Value>)
    requires DistinctOptions(rule.options) && Carry(rule.options, values)
    modifies rule.options`chosen
    ensures unfold == ArraysFrom(rule.options, values, 0) && arrayValues == ArrayItems(values, 0)
    ensures Chose(rule.options, chosen) && forall j :: 0 <= j < |values| && !values[j].Array? ==> chosen[j] == values[j]
  {
    unfold, arrayValues := [], [];
    for i := 0 to |rule.options|
      invariant Split(rule.options, values, i, unfold, arrayValues) && Carry(rule.options, values)
    {
      var option := rule.options[i];
      if option.value.Array? {
        unfold := unfold + [option];
        arrayValues := arrayValues + [option.value.values];
      } else {
        option.chosen := option.value;
      }
    }
    chosen := ChosenOf(rule.options);
  }

  /**
   * Appends the rows of a rule, in order, to the chain. Whatever was chosen before, by this rule or by one
   * that shares its options, does not show; the internal count check never fails.
   */
  method MkRules(calls: Calls, domain: string, chain: ChainRules, rule: Rule) returns (outcome: Outcome)
    requires DistinctOptions(rule.options)
    modifies chain, (set o | o in rule.options)`chosen
    ensures Emitted(old(chain.rules), chain.rules, outcome, rule.options, rule.script,
                    Rows(calls, domain, old(ValuesOf(rule.options))))
  {
    var before := |chain.rules|;
    ghost var values := ValuesOf(rule.options);
    var unfold, arrayValues;
    ghost var chosen, now;
    unfold, arrayValues, chosen := SplitOptions(rule, values);
    assert rule.options == old(rule.options) && forall o :: o in unfold ==> o in rule.options;
    ghost var job := Job(calls, domain, rule.options, rule.script, values);
    assert job.Left(chosen, 0) == Alternatives(calls, domain, values);
    outcome, now := UnfoldRule(calls, domain, chain, rule, unfold, job, chosen, 0);
    if outcome.Done? && arrayValues != [] && NoneDeferred(arrayValues) {
      CountHolds(calls, domain, old(chain.rules), chain.rules, rule.options, rule.script, values);
      var expected := LengthProduct(arrayValues);
      assert |chain.rules| - before == expected;
    }
  }

  /**
   * Two sibling rules that share option objects: each gets exactly its own rows, nothing chosen for the
   * first is left over in the second.
   */
  method Siblings(calls: Calls, domain: string, chain: ChainRules, first: Rule, second: Rule)
    returns (outcome: Outcome)
    requires DistinctOptions(first.options) && DistinctOptions(second.options)
    requires AllClean(Rows(calls, domain, ValuesOf(first.options)))
    modifies chain, (set o | o in first.options)`chosen, (set o | o in second.options)`chosen
    ensures exists mid ::
              && Emitted(old(chain.rules), mid, Done, first.options, first.script,
                         Rows(calls, domain, old(ValuesOf(first.options))))
              && Emitted(mid, chain.rules, outcome, second.options, second.script,
                         Rows(calls, domain, old(ValuesOf(second.options))))
  {
    ghost var a, b := ValuesOf(first.options), ValuesOf(second.options);
    outcome := MkRules(calls, domain, chain, first);
    ghost var mid := chain.rules;
    assert ValuesOf(second.options) == b;
    outcome := MkRules(calls, domain, chain, second);
    assert Emitted(old(chain.rules), mid, Done, first.options, first.script, Rows(calls, domain, a));
  }
}
