/** The eval-free structural parse: token spans, block headers, `@if` chains, and where each of them ends. */
module StructuralSyntax {
  import opened Seqs

  /** A lexed text, or the sentinel that carries a line number. */
  datatype Token = Str(text: string) | Sentinel(line: nat)

  /** The tree without source positions. */
  datatype Node =
    | RuleNode(span: seq<Token>)
    | DirectiveNode(span: seq<Token>)
    | HeaderNode(keyword: string, value: seq<Token>, body: Body)
    | BlockNode(statements: seq<Node>)
    | IfNode(cond: seq<Token>, thenBody: seq<Node>, elseBody: Body)

  /** A block body that may be missing. */
  datatype Body = NoBody | Body(nodes: seq<Node>)

  /** What a parse gives and where it stops; `None` when the parser would never come back. */
  type Parsed<T> = Option<(T, nat)>

  const MAX_BLOCK_DEPTH := 100

  predicate IsHeader(text: string) {
    text in ["domain", "table", "chain", "policy", "priority"]
  }

  predicate IsDirective(text: string) {
    text in ["@def", "def", "@set", "@include", "include", "@preserve", "@hook", "hook",
             "@subchain", "subchain", "@gotosubchain"]
  }

  predicate Opens(t: Token) {
    t == Str("(") || t == Str("{")
  }

  predicate Closes(t: Token) {
    t == Str("}") || t == Str(")")
  }

  /** What a token adds to the bracket depth of a span. */
  function Delta(t: Token): int {
    if Opens(t) then 1 else if Closes(t) then -1 else 0
  }

  /** The first token that is not a sentinel. */
  function Skip(ts: seq<Token>, i: nat): (j: nat)
    requires i <= |ts|
    ensures i <= j <= |ts| && (j < |ts| ==> ts[j].Str?)
    decreases |ts| - i
  {
    if i < |ts| && ts[i].Sentinel? then Skip(ts, i + 1) else i
  }

  /** Whether a span ends in front of this token. */
  predicate Stops(t: Token, depth: nat, stopAtBrace: bool) {
    depth == 0 && (Closes(t) || (stopAtBrace && t == Str("{")))
  }

  /** One past the last token of a statement span. */
  function SpanEnd(ts: seq<Token>, i: nat, depth: nat, stopAtBrace: bool): (j: nat)
    requires i <= |ts|
    ensures i <= j <= |ts|
    ensures i < |ts| && !Stops(ts[i], depth, stopAtBrace) ==> i < j
    decreases |ts| - i
  {
    if i == |ts| || Stops(ts[i], depth, stopAtBrace) then i
    else if depth == 0 && ts[i] == Str(";") then i + 1
    else SpanEnd(ts, i + 1, depth + Delta(ts[i]), stopAtBrace)
  }

  predicate EndsValue(t: Token) {
    t == Str("{") || t == Str(";") || t == Str("}")
  }

  /** Where the value of a header, or a condition, ends: only parentheses are counted, and never below zero. */
  function ValueEnd(ts: seq<Token>, i: nat, depth: nat): (j: nat)
    requires i <= |ts|
    ensures i <= j <= |ts| && (j < |ts| ==> EndsValue(ts[j]))
    decreases |ts| - i
  {
    if i == |ts| || (depth == 0 && EndsValue(ts[i])) then i
    else ValueEnd(ts, i + 1, ValueDepth(ts[i], depth))
  }

  function ValueDepth(t: Token, depth: nat): nat {
    if t == Str("(") then depth + 1 else if t == Str(")") && depth > 0 then depth - 1 else depth
  }

  /** One past the brace that closes the current block. */
  function BlockEnd(ts: seq<Token>, i: nat, depth: nat): (j: nat)
    requires i <= |ts|
    ensures i <= j <= |ts|
    decreases |ts| - i
  {
    if i == |ts| || depth == 0 then i
    else BlockEnd(ts, i + 1, if ts[i] == Str("{") then depth + 1 else if ts[i] == Str("}") then depth - 1 else depth)
  }

  /** A block's statements up to its closing brace; past the depth cap the whole subtree is skipped. */
  function Block(ts: seq<Token>, i: nat, depth: nat): (r: Parsed<seq<Node>>)
    requires i <= |ts|
    ensures r.Some? ==> i <= r.value.1 <= |ts|
    decreases |ts| - i, 4
  {
    if depth >= MAX_BLOCK_DEPTH then Some(([], BlockEnd(ts, i, 1))) else Statements(ts, i, depth + 1)
  }

  /** The statement loop. A statement that leaves the cursor where it was would be read again and again. */
  function Statements(ts: seq<Token>, i: nat, depth: nat): (r: Parsed<seq<Node>>)
    requires i <= |ts|
    ensures r.Some? ==> i <= r.value.1 <= |ts|
    decreases |ts| - i, 3
  {
    var j := Skip(ts, i);
    if j == |ts| then Some(([], j))
    else if ts[j] == Str("}") then Some(([], j + 1))
    else
      match Statement(ts, j, depth)
      case None => None
      case Some((node, k)) =>
        if k == j then None
        else
          match Statements(ts, k, depth)
          case None => None
          case Some((rest, e)) => Some(([node] + rest, e))
  }

  /** One statement. The span of a rule that opens with a stray `)` is empty. */
  function Statement(ts: seq<Token>, j: nat, depth: nat): (r: Parsed<Node>)
    requires j < |ts| && ts[j].Str? && ts[j] != Str("}")
    ensures r.Some? ==> j <= r.value.1 <= |ts| && (j == r.value.1 <==> ts[j] == Str(")"))
    decreases |ts| - j, 2
  {
    var text := ts[j].text;
    if text == "@if" then If(ts, j, depth)
    else if text == "{" then
      match Block(ts, j + 1, depth)
      case None => None
      case Some((body, e)) => Some((BlockNode(body), e))
    else if IsHeader(text) then Header(ts, j, depth)
    else
      var directive := IsDirective(text);
      var e := SpanEnd(ts, j, 0, !directive);
      Some((if directive then DirectiveNode(ts[j..e]) else RuleNode(ts[j..e]), e))
  }

  function Header(ts: seq<Token>, j: nat, depth: nat): (r: Parsed<Node>)
    requires j < |ts| && ts[j].Str?
    ensures r.Some? ==> j < r.value.1 <= |ts|
    decreases |ts| - j, 1
  {
    var v := ValueEnd(ts, j + 1, 0);
    var keyword, value := ts[j].text, ts[j + 1..v];
    if v < |ts| && ts[v] == Str("{") then
      match Block(ts, v + 1, depth)
      case None => None
      case Some((body, e)) => Some((HeaderNode(keyword, value, Body(body)), e))
    else if v < |ts| && ts[v] == Str(";") then Some((HeaderNode(keyword, value, NoBody), v + 1))
    else Some((HeaderNode(keyword, value, NoBody), v))
  }

  /** An `@if` with its branches; an `@else @if` link becomes a block holding one more `@if`. */
  function If(ts: seq<Token>, j: nat, depth: nat): (r: Parsed<Node>)
    requires j < |ts|
    ensures r.Some? ==> j < r.value.1 <= |ts|
    decreases |ts| - j, 1
  {
    var c := ValueEnd(ts, j + 1, 0);
    var cond := ts[j + 1..c];
    match Branch(ts, c, depth)
    case None => None
    case Some((thenBody, k)) =>
      match Else(ts, k, depth)
      case None => None
      case Some((elseBody, e)) => Some((IfNode(cond, thenBody, elseBody), e))
  }

  /** What follows a branch: nothing, one more link, or the final branch. */
  function Else(ts: seq<Token>, k: nat, depth: nat): (r: Parsed<Body>)
    requires k <= |ts|
    ensures r.Some? ==> k <= r.value.1 <= |ts|
    decreases |ts| - k, 6
  {
    var m := Skip(ts, k);
    if !At(ts, m, "@else") then Some((NoBody, m))
    else
      var n := Skip(ts, m + 1);
      if At(ts, n, "@if") then
        match If(ts, n, depth)
        case None => None
        case Some((link, e)) => Some((Body([link]), e))
      else
        match Branch(ts, n, depth)
        case None => None
        case Some((elseBody, e)) => Some((Body(elseBody), e))
  }

  predicate At(ts: seq<Token>, i: nat, text: string) {
    i < |ts| && ts[i] == Str(text)
  }

  /** A branch block; without its brace it is empty. */
  function Branch(ts: seq<Token>, i: nat, depth: nat): (r: Parsed<seq<Node>>)
    requires i <= |ts|
    ensures r.Some? ==> i <= r.value.1 <= |ts|
    decreases |ts| - i, 5
  {
    var j := Skip(ts, i);
    if At(ts, j, "{") then Block(ts, j + 1, depth) else Some(([], j))
  }
}
