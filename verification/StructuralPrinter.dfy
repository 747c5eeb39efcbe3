/** Writing a structural tree back as tokens, and which trees the parser can build. */
module StructuralPrinter {
  import opened StructuralSyntax

  function Braced(inner: seq<Token>): seq<Token> {
    [Str("{")] + inner + [Str("}")]
  }

  function Print(nodes: seq<Node>): seq<Token>
    decreases nodes
  {
    if nodes == [] then [] else PrintNode(nodes[0]) + Print(nodes[1..])
  }

  function PrintNode(n: Node): seq<Token>
    decreases n
  {
    match n
    case RuleNode(span) => span
    case DirectiveNode(span) => span
    case BlockNode(statements) => Braced(Print(statements))
    case HeaderNode(keyword, value, body) =>
      [Str(keyword)] + value + (match body case NoBody => [Str(";")] case Body(b) => Braced(Print(b)))
    case IfNode(cond, thenBody, elseBody) =>
      [Str("@if")] + cond + Braced(Print(thenBody))
      + (match elseBody
         case NoBody => []
         case Body(b) => [Str("@else")] + (if IsLink(b) then PrintNode(b[0]) else Braced(Print(b))))
  }

  /** An else body that is one more `@if` is written as a link of the chain. */
  predicate IsLink(body: seq<Node>) {
    |body| == 1 && body[0].IfNode?
  }

  /** Nested blocks; the links of a chain do not count. */
  function Nest(nodes: seq<Node>): nat
    decreases nodes
  {
    if nodes == [] then 0 else Max(NestNode(nodes[0]), Nest(nodes[1..]))
  }

  function NestNode(n: Node): nat
    decreases n
  {
    match n
    case RuleNode(_) => 0
    case DirectiveNode(_) => 0
    case BlockNode(statements) => 1 + Nest(statements)
    case HeaderNode(_, _, body) => (match body case NoBody => 0 case Body(b) => 1 + Nest(b))
    case IfNode(_, thenBody, elseBody) =>
      Max(1 + Nest(thenBody),
          match elseBody case NoBody => 0 case Body(b) => if IsLink(b) then NestNode(b[0]) else 1 + Nest(b))
  }

  function Max(a: nat, b: nat): nat {
    if a < b then b else a
  }

  // --- spans --------------------------------------------------------------------

  /** Open brackets, of either kind, in front of position `k`. */
  function Level(span: seq<Token>, k: nat): int
    requires k <= |span|
  {
    if k == 0 then 0 else Level(span, k - 1) + Delta(span[k - 1])
  }

  /** Nothing in front of `n` ends the span. */
  predicate Quiet(span: seq<Token>, n: nat, stopAtBrace: bool)
    requires n <= |span|
  {
    forall k :: 0 <= k < n && Level(span, k) == 0 ==>
      !Closes(span[k]) && span[k] != Str(";") && !(stopAtBrace && span[k] == Str("{"))
  }

  /** Ends with its only top-level semicolon. */
  predicate Closed(span: seq<Token>, stopAtBrace: bool) {
    span != [] && var n := |span| - 1; Quiet(span, n, stopAtBrace) && Level(span, n) == 0 && span[n] == Str(";")
  }

  /** Has no top-level semicolon: something else has to end it. */
  predicate Open(span: seq<Token>, stopAtBrace: bool) {
    Quiet(span, |span|, stopAtBrace) && Level(span, |span|) == 0
  }

  function ValueLevel(value: seq<Token>, k: nat): nat
    requires k <= |value|
  {
    if k == 0 then 0 else ValueDepth(value[k - 1], ValueLevel(value, k - 1))
  }

  /** A header value or a condition: parentheses closed, no top-level brace or semicolon. */
  predicate IsValue(value: seq<Token>) {
    && ValueLevel(value, |value|) == 0
    && forall k :: 0 <= k < |value| && ValueLevel(value, k) == 0 ==> !EndsValue(value[k])
  }

  // --- trees the parser can build ---------------------------------------------------

  predicate LeadsRule(t: Token) {
    && t.Str? && t.text != "@if" && t.text != "{" && t.text != "}" && t.text != ")"
    && !IsHeader(t.text) && !IsDirective(t.text)
  }

  predicate WellFormed(nodes: seq<Node>)
    decreases nodes
  {
    nodes != [] ==> WellFormedNode(nodes[0]) && Followed(nodes[0], nodes[1..]) && WellFormed(nodes[1..])
  }

  predicate WellFormedNode(n: Node)
    decreases n
  {
    match n
    case RuleNode(span) => span != [] && LeadsRule(span[0])
    case DirectiveNode(span) => span != [] && span[0].Str? && IsDirective(span[0].text)
    case BlockNode(statements) => WellFormed(statements)
    case HeaderNode(keyword, value, body) =>
      IsHeader(keyword) && IsValue(value) && (match body case NoBody => true case Body(b) => WellFormed(b))
    case IfNode(cond, thenBody, elseBody) =>
      && IsValue(cond) && WellFormed(thenBody)
      && match elseBody case NoBody => true case Body(b) => WellFormed(b)
  }

  /** What may come behind a node: whatever ends its span, and no `@else` that it would swallow. */
  predicate Followed(n: Node, rest: seq<Node>) {
    match n
    case RuleNode(span) => Closed(span, true) || (Open(span, true) && (rest == [] || rest[0].BlockNode?))
    case DirectiveNode(span) => Closed(span, false) || (Open(span, false) && rest == [])
    case IfNode(_, _, _) => Dangling(n) ==> rest == [] || !StartsElse(rest[0])
    case _ => true
  }

  /** The last link of the chain has no `@else`. */
  predicate Dangling(n: Node)
    requires n.IfNode?
    decreases n
  {
    match n.elseBody
    case NoBody => true
    case Body(b) => IsLink(b) && Dangling(b[0])
  }

  predicate StartsElse(n: Node) {
    n.RuleNode? && n.span != [] && n.span[0] == Str("@else")
  }
}
