/** What the scans of the structural parser stop at, and which statement a token starts, told by the tokens alone. */
module StructuralScans {
  import opened Seqs
  import opened StructuralSyntax

  // --- spans ------------------------------------------------------------------------------

  /** Brackets of both kinds opened from `i` on and not closed in front of `k`. */
  function Height(ts: seq<Token>, i: nat, k: nat): int
    requires i <= k <= |ts|
    decreases k - i
  {
    if k == i then 0
    else
      Height(ts, i, k - 1)
      + if ts[k - 1] == Str("(") || ts[k - 1] == Str("{") then 1
        else if ts[k - 1] == Str(")") || ts[k - 1] == Str("}") then -1 else 0
  }

  /** A token in front of which a span cannot go on. */
  predicate Barrier(t: Token, stopAtBrace: bool) {
    t == Str(")") || t == Str("}") || (stopAtBrace && t == Str("{"))
  }

  /** The span from `i` goes through position `k`: no barrier or semicolon stands there outside brackets. */
  predicate GoesOn(ts: seq<Token>, i: nat, k: nat, stopAtBrace: bool)
    requires i <= k < |ts|
  {
    Height(ts, i, k) == 0 ==> !Barrier(ts[k], stopAtBrace) && ts[k] != Str(";")
  }

  /** Where a span ends: at the end, at the first barrier, or behind the first semicolon, outside brackets. */
  predicate SpanStops(ts: seq<Token>, i: nat, e: nat, stopAtBrace: bool)
    requires i <= e <= |ts|
  {
    || ((e == |ts| || (Height(ts, i, e) == 0 && Barrier(ts[e], stopAtBrace)))
        && forall k :: i <= k < e ==> GoesOn(ts, i, k, stopAtBrace))
    || (e > i && ts[e - 1] == Str(";") && Height(ts, i, e - 1) == 0
        && forall k :: i <= k < e - 1 ==> GoesOn(ts, i, k, stopAtBrace))
  }

  lemma {:induction false} SpanFrom(ts: seq<Token>, i: nat, m: nat, stopAtBrace: bool)
    requires i <= m <= |ts| && Height(ts, i, m) >= 0 && forall k :: i <= k < m ==> GoesOn(ts, i, k, stopAtBrace)
    ensures SpanStops(ts, i, SpanEnd(ts, m, Height(ts, i, m), stopAtBrace), stopAtBrace)
    decreases |ts| - m
  {
    if m < |ts| && GoesOn(ts, i, m, stopAtBrace) { SpanFrom(ts, i, m + 1, stopAtBrace); }
  }

  /** A statement's span ends exactly there; no other place does. */
  lemma {:induction false} SpanEndIff(ts: seq<Token>, i: nat, e: nat, stopAtBrace: bool)
    requires i <= e <= |ts|
    ensures SpanStops(ts, i, e, stopAtBrace) <==> e == SpanEnd(ts, i, 0, stopAtBrace)
  {
    SpanFrom(ts, i, i, stopAtBrace);
    var s := SpanEnd(ts, i, 0, stopAtBrace);
    if SpanStops(ts, i, e, stopAtBrace) && e != s { OneStop(ts, i, e, s, stopAtBrace); }
  }

  lemma OneStop(ts: seq<Token>, i: nat, a: nat, b: nat, stopAtBrace: bool)
    requires i <= a <= |ts| && i <= b <= |ts|
    requires SpanStops(ts, i, a, stopAtBrace) && SpanStops(ts, i, b, stopAtBrace)
    ensures a == b
  {
    if a < b {
      StopsBefore(ts, i, a, b, stopAtBrace);
    } else if b < a {
      StopsBefore(ts, i, b, a, stopAtBrace);
    }
  }

  lemma StopsBefore(ts: seq<Token>, i: nat, a: nat, b: nat, stopAtBrace: bool)
    requires i <= a < b <= |ts| && SpanStops(ts, i, a, stopAtBrace)
    ensures !SpanStops(ts, i, b, stopAtBrace)
  {
    if a > i { assert Height(ts, i, a - 1) == 0 ==> ts[a - 1] == Str(";") ==> !GoesOn(ts, i, a - 1, stopAtBrace); }
    if a == b - 1 && ts[a] == Str(";") { assert !Barrier(ts[a], stopAtBrace); }
    assert Height(ts, i, a) == 0 && Barrier(ts[a], stopAtBrace) ==> !GoesOn(ts, i, a, stopAtBrace);
  }

  // --- values -----------------------------------------------------------------------------

  /** Open parentheses; one too many closes nothing. */
  function Parentheses(ts: seq<Token>, i: nat, k: nat): nat
    requires i <= k <= |ts|
    decreases k - i
  {
    if k == i then 0
    else
      var before := Parentheses(ts, i, k - 1);
      if ts[k - 1] == Str("(") then before + 1
      else if ts[k - 1] == Str(")") && before > 0 then before - 1 else before
  }

  /** A brace or a semicolon outside parentheses. */
  predicate EndsHeader(ts: seq<Token>, i: nat, k: nat)
    requires i <= k < |ts|
  {
    Parentheses(ts, i, k) == 0 && (ts[k] == Str("{") || ts[k] == Str(";") || ts[k] == Str("}"))
  }

  lemma {:induction false} ValueFrom(ts: seq<Token>, i: nat, m: nat)
    requires i <= m <= |ts| && forall k :: i <= k < m ==> !EndsHeader(ts, i, k)
    ensures var e := ValueEnd(ts, m, Parentheses(ts, i, m));
            && m <= e <= |ts| && (e < |ts| ==> EndsHeader(ts, i, e))
            && forall k :: i <= k < e ==> !EndsHeader(ts, i, k)
    decreases |ts| - m
  {
    if m < |ts| && !EndsHeader(ts, i, m) { ValueFrom(ts, i, m + 1); }
  }

  /** A header value or condition ends at the first brace or semicolon outside parentheses, or at the end. */
  lemma ValueEndIff(ts: seq<Token>, i: nat, e: nat)
    requires i <= e <= |ts|
    ensures (e < |ts| ==> EndsHeader(ts, i, e)) && (forall k :: i <= k < e ==> !EndsHeader(ts, i, k))
       <==> e == ValueEnd(ts, i, 0)
  {
    ValueFrom(ts, i, i);
  }

  // --- blocks -----------------------------------------------------------------------------

  /** Braces opened from `i` on and not closed in front of `k`. */
  function Braces(ts: seq<Token>, i: nat, k: nat): int
    requires i <= k <= |ts|
    decreases k - i
  {
    if k == i then 0
    else Braces(ts, i, k - 1) + if ts[k - 1] == Str("{") then 1 else if ts[k - 1] == Str("}") then -1 else 0
  }

  lemma {:induction false} BlockFrom(ts: seq<Token>, i: nat, m: nat)
    requires i <= m <= |ts| && Braces(ts, i, m) >= -1 && forall k :: i <= k < m ==> Braces(ts, i, k) > -1
    ensures var e := BlockEnd(ts, m, Braces(ts, i, m) + 1);
            && m <= e <= |ts| && (e < |ts| ==> Braces(ts, i, e) == -1)
            && forall k :: i <= k < e ==> Braces(ts, i, k) > -1
    decreases |ts| - m
  {
    if m < |ts| && Braces(ts, i, m) > -1 { BlockFrom(ts, i, m + 1); }
  }

  /** A skipped block ends behind the brace that closes it, or at the end. */
  lemma BlockEndIff(ts: seq<Token>, i: nat, e: nat)
    requires i <= e <= |ts|
    ensures (e < |ts| ==> Braces(ts, i, e) == -1) && (forall k :: i <= k < e ==> Braces(ts, i, k) > -1)
       <==> e == BlockEnd(ts, i, 1)
  {
    BlockFrom(ts, i, i);
  }

  /** A hundred blocks may be open; the tokens of a further one are skipped. */
  lemma DepthCap(ts: seq<Token>, i: nat, depth: nat)
    requires i <= |ts| && depth >= 100
    ensures Block(ts, i, depth) == Some(([], BlockEnd(ts, i, 1)))
  {
  }

  // --- statements ---------------------------------------------------------------------------

  /** The words that start a header. */
  const HEADERS := {"domain", "table", "chain", "policy", "priority"}

  /** The words that start a directive. */
  const DIRECTIVES := {"@def", "def", "@set", "@include", "include", "@preserve", "@hook", "hook",
                       "@subchain", "subchain", "@gotosubchain"}

  /** The kind of a statement is the kind of its first word, and its tokens stand in the text as they are. */
  predicate Starts(node: Node, ts: seq<Token>, j: nat, e: nat)
    requires j < |ts| && ts[j].Str?
  {
    var text := ts[j].text;
    && (node.HeaderNode? <==> text in HEADERS) && (node.DirectiveNode? <==> text in DIRECTIVES)
    && (node.IfNode? <==> text == "@if") && (node.BlockNode? <==> text == "{")
    && (node.RuleNode? ==> IsSpan(node.span, ts, j, e, true))
    && (node.DirectiveNode? ==> IsSpan(node.span, ts, j, e, false))
    && (node.HeaderNode? ==> node.keyword == text && HeaderStops(node, ts, j, e))
    && (node.IfNode? ==> IfStops(node, ts, j, e))
  }

  predicate IsSpan(span: seq<Token>, ts: seq<Token>, j: nat, e: nat, stopAtBrace: bool) {
    j <= e <= |ts| && span == ts[j..e] && SpanStops(ts, j, e, stopAtBrace)
  }

  /** A header has a block if a brace opens behind its value; if not, it takes the semicolon and leaves the rest. */
  predicate HeaderStops(node: Node, ts: seq<Token>, j: nat, e: nat)
    requires node.HeaderNode? && j < |ts|
  {
    var v := ValueEnd(ts, j + 1, 0);
    && node.value == ts[j + 1..v] && (node.body.Body? <==> v < |ts| && ts[v] == Str("{"))
    && (node.body.NoBody? ==> e == if v < |ts| && ts[v] == Str(";") then v + 1 else v)
  }

  /** A condition without its brace ends the whole chain there. */
  predicate IfStops(node: Node, ts: seq<Token>, j: nat, e: nat)
    requires node.IfNode? && j < |ts|
  {
    var c := ValueEnd(ts, j + 1, 0);
    && node.cond == ts[j + 1..c]
    && (c == |ts| || ts[c] != Str("{") ==> node.thenBody == [] && node.elseBody.NoBody? && e == c)
  }

  lemma HeaderStarts(ts: seq<Token>, j: nat, depth: nat)
    requires j < |ts| && ts[j].Str? && Header(ts, j, depth).Some?
    ensures var (node, e) := Header(ts, j, depth).value;
            node.HeaderNode? && node.keyword == ts[j].text && HeaderStops(node, ts, j, e)
  {
    hide Block, ValueEnd;
  }

  lemma IfStarts(ts: seq<Token>, j: nat, depth: nat)
    requires j < |ts| && ts[j].Str? && If(ts, j, depth).Some?
    ensures var (node, e) := If(ts, j, depth).value; node.IfNode? && IfStops(node, ts, j, e)
  {
    hide Block, ValueEnd;
  }

  /** For all tokens and at any depth: what one statement is. */
  lemma StatementStarts(ts: seq<Token>, j: nat, depth: nat)
    requires j < |ts| && ts[j].Str? && ts[j].text != "}"
    ensures Statement(ts, j, depth).Some? ==> var (node, e) := Statement(ts, j, depth).value; Starts(node, ts, j, e)
  {
    hide Block, Header, If, SpanEnd, ValueEnd, SpanStops, HeaderStops, IfStops;
    if Statement(ts, j, depth).Some? {
      if Header(ts, j, depth).Some? { HeaderStarts(ts, j, depth); }
      if If(ts, j, depth).Some? { IfStarts(ts, j, depth); }
      SpanEndIff(ts, j, SpanEnd(ts, j, 0, true), true);
      SpanEndIff(ts, j, SpanEnd(ts, j, 0, false), false);
    }
  }
}
