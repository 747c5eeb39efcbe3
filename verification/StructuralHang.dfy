/** When the structural parser never comes back: its statement loop stays on a stray closing parenthesis. */
module StructuralHang {
  import opened Seqs
  import opened StructuralSyntax
  import opened StructuralNesting

  // --- the loop, turn by turn ---------------------------------------------------

  /** The statement loop stops here: a closing brace, or nothing but sentinels to come. */
  predicate Leaves(ts: seq<Token>, i: nat)
    requires i <= |ts|
  {
    Skip(ts, i) == |ts| || ts[Skip(ts, i)] == Str("}")
  }

  /** What `n` turns of the loop collect and where they leave the cursor; `None` if there are not that many. */
  function Turns(ts: seq<Token>, i: nat, depth: nat, n: nat): (r: Parsed<seq<Node>>)
    requires i <= |ts|
    ensures r.Some? ==> |r.value.0| == n && i <= r.value.1 <= |ts|
    decreases n
  {
    if n == 0 then Some(([], i))
    else if Leaves(ts, i) then None
    else
      match Statement(ts, Skip(ts, i), depth)
      case None => None
      case Some((node, k)) =>
        match Turns(ts, k, depth, n - 1)
        case None => None
        case Some((rest, e)) => Some(([node] + rest, e))
  }

  /** A closing parenthesis where a statement should start. */
  predicate Stray(ts: seq<Token>, i: nat)
    requires i <= |ts|
  {
    At(ts, Skip(ts, i), ")")
  }

  lemma {:induction false} SkipTwice(ts: seq<Token>, i: nat)
    requires i <= |ts|
    ensures Skip(ts, Skip(ts, i)) == Skip(ts, i)
  {
  }

  /** A span that starts on a stray parenthesis is empty and leaves the cursor where it was. */
  lemma {:induction false} StraySpan(ts: seq<Token>, j: nat, depth: nat)
    requires At(ts, j, ")")
    ensures SpanEnd(ts, j, 0, true) == j && Statement(ts, j, depth) == Some((RuleNode([]), j))
  {
    assert ts[j..j] == [];
  }

  function EmptyRules(n: nat): seq<Node> {
    if n == 0 then [] else [RuleNode([])] + EmptyRules(n - 1)
  }

  /** However often the loop turns on a stray parenthesis, it collects empty rules and stays there. */
  lemma {:induction false} StrayStays(ts: seq<Token>, i: nat, depth: nat, n: nat)
    requires i <= |ts| && Stray(ts, i)
    ensures !Leaves(ts, i)
    ensures Turns(ts, i, depth, n) == Some((EmptyRules(n), if n == 0 then i else Skip(ts, i)))
    decreases n
  {
    hide Statement;
    StraySpan(ts, Skip(ts, i), depth);
    SkipTwice(ts, i);
    if n > 0 {
      StrayStays(ts, Skip(ts, i), depth, n - 1);
    }
  }

  /** The loop is left after these turns. */
  predicate LeftAfter(ts: seq<Token>, i: nat, depth: nat, n: nat)
    requires i <= |ts|
  {
    Turns(ts, i, depth, n).Some? && Leaves(ts, Turns(ts, i, depth, n).value.1)
  }

  lemma {:induction false} ReturnsAfter(ts: seq<Token>, i: nat, depth: nat) returns (n: nat)
    requires i <= |ts| && Statements(ts, i, depth).Some?
    ensures LeftAfter(ts, i, depth, n)
    decreases |ts| - i
  {
    hide Statement, Skip;
    if Leaves(ts, i) {
      n := 0;
    } else {
      var k := Statement(ts, Skip(ts, i), depth).value.1;
      n := ReturnsAfter(ts, k, depth);
      n := n + 1;
    }
  }

  lemma {:induction false} LeavingReturns(ts: seq<Token>, i: nat, depth: nat, n: nat)
    requires i <= |ts| && LeftAfter(ts, i, depth, n)
    ensures Statements(ts, i, depth).Some?
    decreases n
  {
    hide Statement, Skip;
    if n > 0 && !Leaves(ts, i) {
      var j := Skip(ts, i);
      var k := Statement(ts, j, depth).value.1;
      assert ts[j].Str?;
      if k == j {
        SkipTwice(ts, i);
        StrayStays(ts, i, depth, n);
      } else {
        LeavingReturns(ts, k, depth, n - 1);
      }
    }
  }

  /** The parse function gives a result if and only if the loop is left after finitely many turns. */
  lemma {:induction false} ReturnsIff(ts: seq<Token>, i: nat, depth: nat)
    requires i <= |ts|
    ensures Statements(ts, i, depth).Some? <==> exists n: nat :: LeftAfter(ts, i, depth, n)
  {
    if Statements(ts, i, depth).Some? {
      var n := ReturnsAfter(ts, i, depth);
    }
    if exists n: nat :: LeftAfter(ts, i, depth, n) {
      var n: nat :| LeftAfter(ts, i, depth, n);
      LeavingReturns(ts, i, depth, n);
    }
  }

  // --- which texts get there --------------------------------------------------------

  /** The open brackets after `i` tokens of a text whose first `m` are properly nested. */
  function StackUpTo(ts: seq<Token>, m: nat, i: nat): string
    requires i <= m <= |ts| && Nesting(ts, m).Some?
  {
    NestedSoFar(ts, i, m);
    Nesting(ts, i).value
  }

  lemma {:induction false} StepUpTo(ts: seq<Token>, m: nat, i: nat)
    requires i < m <= |ts| && Nesting(ts, m).Some?
    ensures Pushed(StackUpTo(ts, m, i), ts[i]) == Some(StackUpTo(ts, m, i + 1))
  {
    NestedSoFar(ts, i, m);
    NestedSoFar(ts, i + 1, m);
  }

  /** A token that starts neither a header nor a directive nor a condition. */
  predicate Ordinary(t: Token) {
    t.Str? ==> !IsHeader(t.text) && !IsDirective(t.text) && t.text != "@if"
  }

  /**
   * Up to `m` there are only rules and plain blocks, nested within the depth cap; the bracket at
   * `m` is the first that closes the wrong one, and it is a `)` while no `(` is open.
   */
  predicate FirstStray(ts: seq<Token>, m: nat) {
    && m < |ts| && Nesting(ts, m).Some? && ts[m] == Str(")") && Flat(Nesting(ts, m).value)
    && (forall i :: 0 <= i < m ==> Ordinary(ts[i]))
    && (forall i :: 0 <= i <= m ==> Count(StackUpTo(ts, m, i), '{') < MAX_BLOCK_DEPTH)
  }

  /** The brackets a span opened itself lie on the stack it started on, the first of them a parenthesis. */
  predicate Own(stack: string, base: string, depth: nat) {
    |stack| == |base| + depth && base <= stack && Flat(base) && (depth > 0 ==> stack[|base|] == '(')
  }

  lemma {:induction false} CountTaken(stack: string, n: nat, c: char)
    requires n < |stack| && stack[n] == c
    ensures Count(stack, c) > 0
  {
    if n < |stack| - 1 { CountTaken(stack[..|stack| - 1], n, c); }
  }

  lemma {:induction false} OwnStep(ts: seq<Token>, m: nat, i: nat, base: string, depth: nat)
    requires i < m <= |ts| && Nesting(ts, m).Some? && Own(StackUpTo(ts, m, i), base, depth) && !Stops(ts[i], depth, true)
    ensures depth + Delta(ts[i]) >= 0 && Own(StackUpTo(ts, m, i + 1), base, depth + Delta(ts[i]))
  {
    StepUpTo(ts, m, i);
    var a, b := StackUpTo(ts, m, i), StackUpTo(ts, m, i + 1);
    if Opens(ts[i]) {
      assert b[..|base|] == a[..|base|];
    } else if Closes(ts[i]) {
      assert b[..|base|] == a[..|base|];
    }
  }

  /** A rule's span ends in front of the stray parenthesis, with the brackets open that were open at its start. */
  lemma {:induction false} SpanBefore(ts: seq<Token>, m: nat, i: nat, base: string, depth: nat)
    requires FirstStray(ts, m) && i <= m && Own(StackUpTo(ts, m, i), base, depth)
    ensures var e := SpanEnd(ts, i, depth, true); e <= m && StackUpTo(ts, m, e) == base
    decreases m - i
  {
    hide Own;
    if i == m {
      NothingOwn(StackUpTo(ts, m, m), base, depth);
    } else if Stops(ts[i], depth, true) {
      NoneLeft(StackUpTo(ts, m, i), base);
    } else if depth == 0 && ts[i] == Str(";") {
      NoneLeft(StackUpTo(ts, m, i), base);
      StepUpTo(ts, m, i);
    } else {
      OwnStep(ts, m, i, base, depth);
      SpanBefore(ts, m, i + 1, base, depth + Delta(ts[i]));
    }
  }

  lemma {:induction false} NoneLeft(stack: string, base: string)
    requires Own(stack, base, 0)
    ensures stack == base
  {
  }

  lemma {:induction false} NothingOwn(stack: string, base: string, depth: nat)
    requires Own(stack, base, depth) && Flat(stack)
    ensures depth == 0 && stack == base
  {
    if depth > 0 { CountTaken(stack, |base|, '('); }
  }

  lemma {:induction false} SkipBefore(ts: seq<Token>, m: nat, i: nat)
    requires FirstStray(ts, m) && i <= m
    ensures Skip(ts, i) <= m && StackUpTo(ts, m, Skip(ts, i)) == StackUpTo(ts, m, i)
    decreases m - i
  {
    if ts[i].Sentinel? {
      StepUpTo(ts, m, i);
      SkipBefore(ts, m, i + 1);
    }
  }

  /** The list behind an open brace was left by closing that brace, ahead of the stray parenthesis. */
  predicate ClosedBefore(ts: seq<Token>, m: nat, i: nat, e: nat)
    requires m <= |ts| && Nesting(ts, m).Some? && i <= m
  {
    e <= m && StackUpTo(ts, m, i) != "" && StackUpTo(ts, m, e) == StackUpTo(ts, m, i)[..|StackUpTo(ts, m, i)| - 1]
  }

  lemma {:induction false} StatementsBefore(ts: seq<Token>, m: nat, i: nat, depth: nat)
    requires FirstStray(ts, m) && i <= m && Flat(StackUpTo(ts, m, i)) && depth == Count(StackUpTo(ts, m, i), '{') + 1
    ensures Statements(ts, i, depth).Some? ==> ClosedBefore(ts, m, i, Statements(ts, i, depth).value.1)
    decreases |ts| - i
  {
    hide Statement, Skip, FirstStray, Flat, Count, Nesting;
    SkipBefore(ts, m, i);
    var j := Skip(ts, i);
    StrayHere(ts, m);
    if j < m {
      if ts[j] == Str("}") {
        StepUpTo(ts, m, j);
      } else {
        StatementBefore(ts, m, j, depth);
        if Statement(ts, j, depth).Some? && Statement(ts, j, depth).value.1 > j {
          StatementsBefore(ts, m, Statement(ts, j, depth).value.1, depth);
        }
      }
    } else {
      StraySpan(ts, m, depth);
    }
  }

  lemma {:induction false} StrayHere(ts: seq<Token>, m: nat)
    requires FirstStray(ts, m)
    ensures At(ts, m, ")") && Nesting(ts, m).Some?
  {
  }

  /** A rule or a plain block leaves the brackets open that were open at its start, or never ends. */
  lemma {:induction false} StatementBefore(ts: seq<Token>, m: nat, j: nat, depth: nat)
    requires FirstStray(ts, m) && j < m && ts[j].Str? && ts[j] != Str("}")
    requires Flat(StackUpTo(ts, m, j)) && depth == Count(StackUpTo(ts, m, j), '{') + 1
    ensures var r := Statement(ts, j, depth);
            r.Some? ==> r.value.1 <= m && StackUpTo(ts, m, r.value.1) == StackUpTo(ts, m, j)
    decreases |ts| - j, 0
  {
    hide Statements, SpanEnd, Header, If, FirstStray, Flat, Count, Nesting;
    StrayHere(ts, m);
    OrdinaryAt(ts, m, j);
    if ts[j] == Str("{") {
      BraceBefore(ts, m, j);
      StatementsBefore(ts, m, j + 1, depth + 1);
    } else {
      OwnStart(StackUpTo(ts, m, j));
      SpanBefore(ts, m, j, StackUpTo(ts, m, j), 0);
    }
  }

  lemma {:induction false} OwnStart(stack: string)
    requires Flat(stack)
    ensures Own(stack, stack, 0)
  {
  }

  lemma {:induction false} OrdinaryAt(ts: seq<Token>, m: nat, j: nat)
    requires FirstStray(ts, m) && j < m
    ensures Ordinary(ts[j])
  {
  }

  lemma {:induction false} BraceBefore(ts: seq<Token>, m: nat, j: nat)
    requires FirstStray(ts, m) && j < m && ts[j] == Str("{") && Flat(StackUpTo(ts, m, j))
    ensures var stack := StackUpTo(ts, m, j + 1);
            && stack == StackUpTo(ts, m, j) + "{" && Flat(stack)
            && Count(stack, '{') == Count(StackUpTo(ts, m, j), '{') + 1 && Count(stack, '{') < MAX_BLOCK_DEPTH
  {
    StepUpTo(ts, m, j);
    CountPushed(StackUpTo(ts, m, j), '{', '(');
    CountPushed(StackUpTo(ts, m, j), '{', '{');
  }

  /**
   * Rules and plain blocks within the depth cap: when the first bracket that closes the wrong one
   * is a `)` while no `(` is open, the parser never comes back.
   */
  lemma {:induction false} StrayParenthesisHangs(ts: seq<Token>, m: nat)
    requires FirstStray(ts, m)
    ensures Block(ts, 0, 0) == None
  {
    assert StackUpTo(ts, m, 0) == "" && Count("", '(') == 0;
    StatementsBefore(ts, m, 0, 1);
  }

  // --- exactly which texts of rules and blocks ---------------------------------------

  /** Where a flat scan stands: where a statement may start, or inside the span of a rule with brackets open in it. */
  datatype Place = AtStart | InSpan(depth: nat)

  /**
   * One scan over the tokens, counting the open braces and the brackets a span opened: it fails on a `)` where a
   * statement should start, and ends well at a brace that closes nothing or at the end of the tokens.
   */
  predicate ComesBack(ts: seq<Token>, i: nat, braces: nat, place: Place)
    requires i <= |ts|
    decreases |ts| - i, if place.InSpan? then 1 else 0
  {
    if i == |ts| then true
    else match place
      case InSpan(depth) =>
        if Stops(ts[i], depth, true) then ComesBack(ts, i, braces, AtStart)
        else if depth == 0 && ts[i] == Str(";") then ComesBack(ts, i + 1, braces, AtStart)
        else ComesBack(ts, i + 1, braces, InSpan(depth + Delta(ts[i])))
      case AtStart =>
        if ts[i] == Str("}") then braces == 0 || ComesBack(ts, i + 1, braces - 1, AtStart)
        else if ts[i] == Str(")") then false
        else if ts[i] == Str("{") then
          if braces + 1 >= MAX_BLOCK_DEPTH then ComesBack(ts, BlockEnd(ts, i + 1, 1), braces, AtStart)
          else ComesBack(ts, i + 1, braces + 1, AtStart)
        else if ts[i].Sentinel? || ts[i] == Str(";") then ComesBack(ts, i + 1, braces, AtStart)
        else ComesBack(ts, i + 1, braces, InSpan(Delta(ts[i])))
  }

  lemma {:induction false} ScanSkips(ts: seq<Token>, i: nat, braces: nat)
    requires i <= |ts|
    ensures ComesBack(ts, i, braces, AtStart) == ComesBack(ts, Skip(ts, i), braces, AtStart)
    decreases |ts| - i
  {
    if i < |ts| && ts[i].Sentinel? { ScanSkips(ts, i + 1, braces); }
  }

  lemma {:induction false} ScanSpans(ts: seq<Token>, i: nat, braces: nat, depth: nat)
    requires i <= |ts|
    ensures ComesBack(ts, i, braces, InSpan(depth)) == ComesBack(ts, SpanEnd(ts, i, depth, true), braces, AtStart)
    decreases |ts| - i
  {
    if i < |ts| && !Stops(ts[i], depth, true) && !(depth == 0 && ts[i] == Str(";")) {
      ScanSpans(ts, i + 1, braces, depth + Delta(ts[i]));
    }
  }

  predicate AllOrdinary(ts: seq<Token>) {
    forall i :: 0 <= i < |ts| ==> Ordinary(ts[i])
  }

  /** A rule's span is scanned to its end. */
  lemma {:induction false} RuleScanned(ts: seq<Token>, j: nat, braces: nat, depth: nat)
    requires AllOrdinary(ts) && j < |ts| && ts[j].Str? && ts[j] !in {Str("}"), Str(")"), Str("{")}
    ensures var e := SpanEnd(ts, j, 0, true);
            && j < e && Statement(ts, j, depth) == Some((RuleNode(ts[j..e]), e))
            && ComesBack(ts, j, braces, AtStart) == ComesBack(ts, e, braces, AtStart)
  {
    assert Ordinary(ts[j]) && !Stops(ts[j], 0, true);
    ScanSpans(ts, j, braces, 0);
  }

  lemma {:induction false} BlockStatement(ts: seq<Token>, j: nat, depth: nat)
    requires At(ts, j, "{")
    ensures depth >= MAX_BLOCK_DEPTH ==> Statement(ts, j, depth) == Some((BlockNode([]), BlockEnd(ts, j + 1, 1)))
    ensures depth < MAX_BLOCK_DEPTH ==>
              var inner := Statements(ts, j + 1, depth + 1);
              if inner.None? then Statement(ts, j, depth) == None
              else Statement(ts, j, depth) == Some((BlockNode(inner.value.0), inner.value.1))
  {
    hide Statements;
  }

  lemma {:induction false} ScanStart(ts: seq<Token>, j: nat, braces: nat)
    requires j <= |ts|
    ensures j == |ts| ==> ComesBack(ts, j, braces, AtStart)
    ensures At(ts, j, ")") ==> !ComesBack(ts, j, braces, AtStart)
    ensures At(ts, j, "}") ==>
              ComesBack(ts, j, braces, AtStart) == (braces == 0 || ComesBack(ts, j + 1, braces - 1, AtStart))
    ensures At(ts, j, "{") ==>
              ComesBack(ts, j, braces, AtStart)
              == if braces + 1 >= MAX_BLOCK_DEPTH then ComesBack(ts, BlockEnd(ts, j + 1, 1), braces, AtStart)
                 else ComesBack(ts, j + 1, braces + 1, AtStart)
  {
  }

  lemma {:induction false} ScanEnds(ts: seq<Token>, braces: nat)
    ensures ComesBack(ts, |ts|, braces, AtStart)
  {
  }

  lemma {:induction false} StatementsScanned(ts: seq<Token>, i: nat, braces: nat)
    requires AllOrdinary(ts) && i <= |ts|
    ensures var r := Statements(ts, i, braces + 1);
            ComesBack(ts, i, braces, AtStart)
            == (r.Some? && (braces == 0 || ComesBack(ts, r.value.1, braces - 1, AtStart)))
    decreases |ts| - i
  {
    hide Statement, Skip, SpanEnd, AllOrdinary, BlockEnd, ComesBack;
    ScanSkips(ts, i, braces);
    var j := Skip(ts, i);
    ScanStart(ts, j, braces);
    if braces > 0 { ScanEnds(ts, braces - 1); }
    if j < |ts| && ts[j] != Str("}") {
      if ts[j] == Str(")") {
        StraySpan(ts, j, braces + 1);
      } else if ts[j] == Str("{") {
        BlockStatement(ts, j, braces + 1);
        if braces + 1 >= MAX_BLOCK_DEPTH {
          StatementsScanned(ts, BlockEnd(ts, j + 1, 1), braces);
        } else {
          StatementsScanned(ts, j + 1, braces + 1);
          var inner := Statements(ts, j + 1, braces + 2);
          if inner.Some? { StatementsScanned(ts, inner.value.1, braces); }
        }
      } else {
        RuleScanned(ts, j, braces, braces + 1);
        StatementsScanned(ts, SpanEnd(ts, j, 0, true), braces);
      }
    }
  }

  /** A text of rules and plain blocks, of any depth, is parsed to the end if and only if the flat scan ends well. */
  lemma {:induction false} ParsedIffScanned(ts: seq<Token>)
    requires AllOrdinary(ts)
    ensures Block(ts, 0, 0).Some? <==> ComesBack(ts, 0, 0, AtStart)
  {
    StatementsScanned(ts, 0, 0);
  }
}
