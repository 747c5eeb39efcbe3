/** When the structural parser comes back at all: never stuck on properly nested brackets. */
module StructuralNesting {
  import opened Seqs
  import opened StructuralSyntax

  /** The open brackets after the first `i` tokens; `None` once a bracket closes the wrong one. */
  function Nesting(ts: seq<Token>, i: nat): (r: Option<string>)
    requires i <= |ts|
  {
    if i == 0 then Some("")
    else
      var before := Nesting(ts, i - 1);
      if before.None? then None else Pushed(before.value, ts[i - 1])
  }

  function Pushed(stack: string, t: Token): Option<string> {
    if t == Str("(") then Some(stack + "(")
    else if t == Str("{") then Some(stack + "{")
    else if t == Str(")") then Popped(stack, '(')
    else if t == Str("}") then Popped(stack, '{')
    else Some(stack)
  }

  function Popped(stack: string, open: char): Option<string> {
    if stack != "" && stack[|stack| - 1] == open then Some(stack[..|stack| - 1]) else None
  }

  /** Every closing bracket closes the one opened last; brackets may be left open at the end. */
  predicate WellNested(ts: seq<Token>) {
    Nesting(ts, |ts|).Some?
  }

  function Count(stack: string, open: char): nat {
    if stack == "" then 0 else Count(stack[..|stack| - 1], open) + if stack[|stack| - 1] == open then 1 else 0
  }

  lemma {:induction false} NestedSoFar(ts: seq<Token>, i: nat, n: nat)
    requires i <= n <= |ts| && Nesting(ts, n).Some?
    ensures Nesting(ts, i).Some?
  {
    if i < n { NestedSoFar(ts, i, n - 1); }
  }

  function Stack(ts: seq<Token>, i: nat): (stack: string)
    requires WellNested(ts) && i <= |ts|
  {
    NestedSoFar(ts, i, |ts|);
    Nesting(ts, i).value
  }

  lemma Step(ts: seq<Token>, i: nat)
    requires WellNested(ts) && i < |ts|
    ensures Pushed(Stack(ts, i), ts[i]) == Some(Stack(ts, i + 1))
  {
    NestedSoFar(ts, i, |ts|);
    NestedSoFar(ts, i + 1, |ts|);
  }

  /** Only braces are open. */
  predicate Flat(stack: string) {
    Count(stack, '(') == 0
  }

  predicate Good(ts: seq<Token>, i: nat)
    requires WellNested(ts)
  {
    i == |ts| || (i < |ts| && Flat(Stack(ts, i)))
  }

  lemma CountPushed(stack: string, c: char, open: char)
    ensures Count(stack + [c], open) == Count(stack, open) + if c == open then 1 else 0
  {
    assert (stack + [c])[..|stack|] == stack;
  }

  lemma FlatStep(ts: seq<Token>, i: nat)
    requires WellNested(ts) && i < |ts| && Flat(Stack(ts, i))
    ensures ts[i] != Str(")")
    ensures ts[i] != Str("(") ==> Flat(Stack(ts, i + 1))
  {
    Step(ts, i);
    CountPushed(Stack(ts, i), '{', '(');
  }

  lemma {:induction false} SkipGood(ts: seq<Token>, i: nat)
    requires WellNested(ts) && i <= |ts| && Good(ts, i)
    ensures Good(ts, Skip(ts, i))
    decreases |ts| - i
  {
    if i < |ts| && ts[i].Sentinel? {
      FlatStep(ts, i);
      SkipGood(ts, i + 1);
    }
  }

  /** The stack a span started on, under `depth` brackets it opened itself. */
  predicate Base(stack: string, depth: nat) {
    depth <= |stack| && Flat(stack[..|stack| - depth])
  }

  lemma BaseStep(ts: seq<Token>, i: nat, depth: nat, stopAtBrace: bool)
    requires WellNested(ts) && i < |ts| && Base(Stack(ts, i), depth) && !Stops(ts[i], depth, stopAtBrace)
    ensures depth + Delta(ts[i]) >= 0 && Base(Stack(ts, i + 1), depth + Delta(ts[i]))
  {
    Step(ts, i);
    var a, b := Stack(ts, i), Stack(ts, i + 1);
    if Opens(ts[i]) {
      assert b[..|b| - (depth + 1)] == a[..|a| - depth];
    } else if Closes(ts[i]) {
      assert b[..|b| - (depth - 1)] == a[..|a| - depth];
    }
  }

  lemma {:induction false} SpanGood(ts: seq<Token>, i: nat, depth: nat, stopAtBrace: bool)
    requires WellNested(ts) && i <= |ts| && Base(Stack(ts, i), depth)
    ensures Good(ts, SpanEnd(ts, i, depth, stopAtBrace))
    decreases |ts| - i
  {
    if i < |ts| && Stops(ts[i], depth, stopAtBrace) {
      assert Stack(ts, i)[..|Stack(ts, i)|] == Stack(ts, i);
    } else if i < |ts| && depth == 0 && ts[i] == Str(";") {
      assert Stack(ts, i)[..|Stack(ts, i)|] == Stack(ts, i);
      FlatStep(ts, i);
    } else if i < |ts| {
      BaseStep(ts, i, depth, stopAtBrace);
      SpanGood(ts, i + 1, depth + Delta(ts[i]), stopAtBrace);
    }
  }

  lemma ValueStep(ts: seq<Token>, i: nat, depth: nat)
    requires WellNested(ts) && i < |ts| && Count(Stack(ts, i), '(') == depth && !(depth == 0 && EndsValue(ts[i]))
    ensures Count(Stack(ts, i + 1), '(') == ValueDepth(ts[i], depth)
  {
    Step(ts, i);
    CountPushed(Stack(ts, i), '(', '(');
    CountPushed(Stack(ts, i), '{', '(');
  }

  lemma {:induction false} ValueGood(ts: seq<Token>, i: nat, depth: nat)
    requires WellNested(ts) && i <= |ts| && Count(Stack(ts, i), '(') == depth
    ensures Good(ts, ValueEnd(ts, i, depth))
    decreases |ts| - i
  {
    if i < |ts| && !(depth == 0 && EndsValue(ts[i])) {
      ValueStep(ts, i, depth);
      ValueGood(ts, i + 1, ValueDepth(ts[i], depth));
    }
  }

  /** Skipping a block: over a flat stack, its own brace, and what was opened inside. */
  predicate Inside(stack: string, m: nat, depth: nat) {
    m < |stack| && stack[m] == '{' && Flat(stack[..m]) && Count(stack[m..], '{') == depth
  }

  lemma InsidePush(a: string, m: nat, depth: nat, c: char)
    requires Inside(a, m, depth)
    ensures Inside(a + [c], m, depth + if c == '{' then 1 else 0)
  {
    CountPushed(a[m..], c, '{');
    assert (a + [c])[m..] == a[m..] + [c] && (a + [c])[..m] == a[..m];
  }

  lemma InsidePop(a: string, m: nat, depth: nat)
    requires Inside(a, m, depth)
    ensures var b, d := a[..|a| - 1], depth - if a[|a| - 1] == '{' then 1 else 0;
            d >= 0 && if d == 0 then Flat(b) else Inside(b, m, d)
  {
    var x := a[m..];
    var c := x[|x| - 1];
    assert x == x[..|x| - 1] + [c];
    CountPushed(x[..|x| - 1], c, '{');
    if |x| == 1 {
      assert a[..|a| - 1] == a[..m];
    } else {
      var b := a[..|a| - 1];
      assert b[m..] == x[..|x| - 1] && b[..m] == a[..m];
      BraceCounted(x[..|x| - 1]);
    }
  }

  lemma InsideStep(ts: seq<Token>, i: nat, m: nat, depth: nat)
    requires WellNested(ts) && i < |ts| && depth > 0 && Inside(Stack(ts, i), m, depth)
    ensures var d := if ts[i] == Str("{") then depth + 1 else if ts[i] == Str("}") then depth - 1 else depth;
            if d == 0 then Flat(Stack(ts, i + 1)) else Inside(Stack(ts, i + 1), m, d)
  {
    hide Inside, Flat;
    Step(ts, i);
    if ts[i] == Str("(") {
      InsidePush(Stack(ts, i), m, depth, '(');
    } else if ts[i] == Str("{") {
      InsidePush(Stack(ts, i), m, depth, '{');
    } else if Closes(ts[i]) {
      InsidePop(Stack(ts, i), m, depth);
    }
  }

  lemma {:induction false} BraceCounted(x: string)
    requires x != "" && x[0] == '{'
    ensures Count(x, '{') > 0
  {
    if |x| > 1 { BraceCounted(x[..|x| - 1]); }
  }

  lemma {:induction false} BlockEndGood(ts: seq<Token>, i: nat, m: nat, depth: nat)
    requires WellNested(ts) && i <= |ts|
    requires if depth == 0 then Flat(Stack(ts, i)) else Inside(Stack(ts, i), m, depth)
    ensures Good(ts, BlockEnd(ts, i, depth))
    decreases |ts| - i
  {
    if i < |ts| && depth > 0 {
      InsideStep(ts, i, m, depth);
      BlockEndGood(ts, i + 1, m,
        if ts[i] == Str("{") then depth + 1 else if ts[i] == Str("}") then depth - 1 else depth);
    }
  }

  // --- the parser ---------------------------------------------------------------------

  /** A parse that comes back, where only braces are open. */
  predicate Lands<T>(ts: seq<Token>, r: Parsed<T>)
    requires WellNested(ts)
  {
    r.Some? && r.value.1 <= |ts| && Good(ts, r.value.1)
  }

  lemma OpenBrace(ts: seq<Token>, i: nat)
    requires WellNested(ts) && 0 < i <= |ts| && Good(ts, i - 1) && ts[i - 1] == Str("{")
    ensures Stack(ts, i) != "" && Flat(Stack(ts, i)) && Inside(Stack(ts, i), |Stack(ts, i)| - 1, 1)
  {
    FlatStep(ts, i - 1);
    Step(ts, i - 1);
    var b := Stack(ts, i);
    assert b[|b| - 1..] == "{" && b[..|b| - 1] == Stack(ts, i - 1);
    assert Count("{", '{') == Count("", '{') + 1;
  }

  lemma {:induction false} BlockLands(ts: seq<Token>, i: nat, depth: nat)
    requires WellNested(ts) && 0 < i <= |ts| && Good(ts, i - 1) && ts[i - 1] == Str("{")
    ensures Lands(ts, Block(ts, i, depth))
    decreases |ts| - i, 4
  {
    hide Statements, BlockEnd, Inside, Flat;
    OpenBrace(ts, i);
    if depth >= MAX_BLOCK_DEPTH {
      BlockEndGood(ts, i, |Stack(ts, i)| - 1, 1);
    } else {
      StatementsLand(ts, i, depth + 1);
    }
  }

  lemma {:induction false} StatementsLand(ts: seq<Token>, i: nat, depth: nat)
    requires WellNested(ts) && i <= |ts| && Good(ts, i)
    ensures Lands(ts, Statements(ts, i, depth))
    decreases |ts| - i, 3
  {
    hide Statement, Skip, Stack, Flat;
    var j := Skip(ts, i);
    SkipGood(ts, i);
    if j < |ts| {
      FlatStep(ts, j);
      if ts[j] != Str("}") {
        StatementLands(ts, j, depth);
        StatementsLand(ts, Statement(ts, j, depth).value.1, depth);
      }
    }
  }

  lemma {:induction false} StatementLands(ts: seq<Token>, j: nat, depth: nat)
    requires WellNested(ts) && j < |ts| && ts[j].Str? && ts[j] != Str("}") && Good(ts, j)
    ensures Lands(ts, Statement(ts, j, depth))
    decreases |ts| - j, 2
  {
    hide Block, Header, If, SpanEnd, Stack, Flat;
    FlatStep(ts, j);
    var text := ts[j].text;
    if text == "@if" {
      IfLands(ts, j, depth);
    } else if text == "{" {
      BlockLands(ts, j + 1, depth);
    } else if IsHeader(text) {
      HeaderLands(ts, j, depth);
    } else {
      StartSpan(ts, j);
      SpanGood(ts, j, 0, !IsDirective(text));
    }
  }

  lemma StartSpan(ts: seq<Token>, j: nat)
    requires WellNested(ts) && j < |ts| && Good(ts, j)
    ensures Base(Stack(ts, j), 0)
  {
    assert Stack(ts, j)[..|Stack(ts, j)|] == Stack(ts, j);
  }

  lemma HeadValue(ts: seq<Token>, j: nat)
    requires WellNested(ts) && j < |ts| && Good(ts, j) && ts[j] != Str("(")
    ensures Good(ts, ValueEnd(ts, j + 1, 0))
  {
    FlatStep(ts, j);
    ValueGood(ts, j + 1, 0);
  }

  lemma {:induction false} HeaderLands(ts: seq<Token>, j: nat, depth: nat)
    requires WellNested(ts) && j < |ts| && ts[j].Str? && Good(ts, j) && ts[j] != Str("(")
    ensures Lands(ts, Header(ts, j, depth))
    decreases |ts| - j, 1
  {
    hide Block, ValueEnd, Stack, Flat;
    HeadValue(ts, j);
    var v := ValueEnd(ts, j + 1, 0);
    if v < |ts| {
      FlatStep(ts, v);
      if ts[v] == Str("{") { BlockLands(ts, v + 1, depth); }
    }
  }

  lemma {:induction false} IfLands(ts: seq<Token>, j: nat, depth: nat)
    requires WellNested(ts) && j < |ts| && Good(ts, j) && ts[j] != Str("(")
    ensures Lands(ts, If(ts, j, depth))
    decreases |ts| - j, 1
  {
    hide Branch, Else, ValueEnd, Stack, Flat, Good;
    HeadValue(ts, j);
    var c := ValueEnd(ts, j + 1, 0);
    BranchLands(ts, c, depth);
    ElseLands(ts, Branch(ts, c, depth).value.1, depth);
  }

  lemma {:induction false} BranchLands(ts: seq<Token>, i: nat, depth: nat)
    requires WellNested(ts) && i <= |ts| && Good(ts, i)
    ensures Lands(ts, Branch(ts, i, depth))
    decreases |ts| - i, 5
  {
    hide Block, Skip, Stack, Flat, Good;
    SkipGood(ts, i);
    var j := Skip(ts, i);
    if At(ts, j, "{") { BlockLands(ts, j + 1, depth); }
  }

  lemma {:induction false} ElseLands(ts: seq<Token>, k: nat, depth: nat)
    requires WellNested(ts) && k <= |ts| && Good(ts, k)
    ensures Lands(ts, Else(ts, k, depth))
    decreases |ts| - k, 6
  {
    hide Branch, If, Skip, Stack, Flat;
    SkipGood(ts, k);
    var m := Skip(ts, k);
    if At(ts, m, "@else") {
      FlatStep(ts, m);
      SkipGood(ts, m + 1);
      var n := Skip(ts, m + 1);
      if At(ts, n, "@if") { IfLands(ts, n, depth); } else { BranchLands(ts, n, depth); }
    }
  }

  /** On properly nested brackets the parser always comes back. */
  lemma NestedTerminates(ts: seq<Token>)
    requires WellNested(ts)
    ensures Block(ts, 0, 0).Some?
  {
    assert Flat("");
    StatementsLand(ts, 0, 1);
  }
}
