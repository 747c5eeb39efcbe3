/** Parsing what was printed gives the tree back and consumes every token. */
module StructuralRoundTrip {
  import opened Seqs
  import opened StructuralSyntax
  import opened StructuralPrinter
  import opened StructuralParser

  /** The tokens `p` stand at position `i`. */
  predicate Sits(ts: seq<Token>, i: nat, p: seq<Token>) {
    i + |p| <= |ts| && forall k {:trigger p[k]} :: 0 <= k < |p| ==> ts[i + k] == p[k]
  }

  lemma SitsParts(ts: seq<Token>, i: nat, p: seq<Token>, q: seq<Token>)
    requires Sits(ts, i, p + q)
    ensures Sits(ts, i, p) && Sits(ts, i + |p|, q)
  {
    forall k | 0 <= k < |p| ensures ts[i + k] == p[k] { assert (p + q)[k] == p[k]; }
    forall k | 0 <= k < |q| ensures ts[i + |p| + k] == q[k] { assert (p + q)[|p| + k] == q[k]; }
  }

  lemma SitsAt(ts: seq<Token>, i: nat, p: seq<Token>, k: nat)
    requires Sits(ts, i, p) && k < |p|
    ensures i + k < |ts| && ts[i + k] == p[k]
  {
  }

  lemma SitsSlice(ts: seq<Token>, i: nat, p: seq<Token>)
    requires Sits(ts, i, p)
    ensures ts[i..i + |p|] == p
  {
  }

  // --- spans --------------------------------------------------------------------

  lemma QuietAt(span: seq<Token>, n: nat, k: nat, stopAtBrace: bool)
    requires k < n <= |span| && Quiet(span, n, stopAtBrace)
    ensures Level(span, k) == 0 ==> !Stops(span[k], 0, stopAtBrace) && span[k] != Str(";") && Delta(span[k]) >= 0
    ensures Delta(span[k]) >= -1
  {
    hide Level;
  }

  lemma {:induction false} LevelUp(span: seq<Token>, n: nat, k: nat, stopAtBrace: bool)
    requires k <= n <= |span| && Quiet(span, n, stopAtBrace)
    ensures Level(span, k) >= 0
  {
    hide Quiet, Delta;
    if k > 0 {
      LevelUp(span, n, k - 1, stopAtBrace);
      QuietAt(span, n, k - 1, stopAtBrace);
    }
  }

  lemma SpanStep(ts: seq<Token>, i: nat, depth: nat, stopAtBrace: bool)
    requires i < |ts| && !Stops(ts[i], depth, stopAtBrace) && !(depth == 0 && ts[i] == Str(";"))
    ensures depth + Delta(ts[i]) >= 0
    ensures SpanEnd(ts, i, depth, stopAtBrace) == SpanEnd(ts, i + 1, depth + Delta(ts[i]), stopAtBrace)
  {
  }

  lemma {:induction false} SpanScan(ts: seq<Token>, i: nat, span: seq<Token>, n: nat, k: nat, stopAtBrace: bool)
    requires Sits(ts, i, span) && k <= n <= |span| && Quiet(span, n, stopAtBrace)
    ensures Level(span, k) >= 0 && Level(span, n) >= 0
    ensures SpanEnd(ts, i + k, Level(span, k), stopAtBrace) == SpanEnd(ts, i + n, Level(span, n), stopAtBrace)
    decreases n - k
  {
    hide SpanEnd, Delta, Quiet, Sits;
    LevelUp(span, n, k, stopAtBrace);
    LevelUp(span, n, n, stopAtBrace);
    if k < n {
      LevelUp(span, n, k + 1, stopAtBrace);
      QuietAt(span, n, k, stopAtBrace);
      SitsAt(ts, i, span, k);
      assert !Stops(ts[i + k], Level(span, k), stopAtBrace);
      SpanStep(ts, i + k, Level(span, k), stopAtBrace);
      SpanScan(ts, i, span, n, k + 1, stopAtBrace);
    }
  }

  lemma LevelStart(span: seq<Token>)
    ensures Level(span, 0) == 0
  {
  }

  lemma EndsHere(ts: seq<Token>, i: nat, stopAtBrace: bool)
    requires i <= |ts|
    ensures i == |ts| || Stops(ts[i], 0, stopAtBrace) ==> SpanEnd(ts, i, 0, stopAtBrace) == i
    ensures i < |ts| && ts[i] == Str(";") ==> SpanEnd(ts, i, 0, stopAtBrace) == i + 1
  {
  }

  lemma ClosedEnd(ts: seq<Token>, i: nat, span: seq<Token>, stopAtBrace: bool)
    requires Sits(ts, i, span) && Closed(span, stopAtBrace)
    ensures SpanEnd(ts, i, 0, stopAtBrace) == i + |span|
  {
    hide SpanEnd, Level, Quiet, Sits;
    var n := |span| - 1;
    LevelStart(span);
    SpanScan(ts, i, span, n, 0, stopAtBrace);
    SitsAt(ts, i, span, n);
    EndsHere(ts, i + n, stopAtBrace);
  }

  lemma OpenEnd(ts: seq<Token>, i: nat, span: seq<Token>, stopAtBrace: bool)
    requires Sits(ts, i, span) && Open(span, stopAtBrace)
    requires i + |span| == |ts| || (i + |span| < |ts| && Stops(ts[i + |span|], 0, stopAtBrace))
    ensures SpanEnd(ts, i, 0, stopAtBrace) == i + |span|
  {
    hide SpanEnd, Level, Quiet, Sits;
    LevelStart(span);
    SpanScan(ts, i, span, |span|, 0, stopAtBrace);
    EndsHere(ts, i + |span|, stopAtBrace);
  }

  lemma {:induction false} ValueScan(ts: seq<Token>, i: nat, value: seq<Token>, k: nat)
    requires Sits(ts, i, value) && k <= |value| && IsValue(value)
    ensures ValueEnd(ts, i + k, ValueLevel(value, k)) == ValueEnd(ts, i + |value|, 0)
    decreases |value| - k
  {
    hide Sits, ValueDepth;
    if k < |value| {
      SitsAt(ts, i, value, k);
      ValueScan(ts, i, value, k + 1);
    }
  }

  lemma ValueRead(ts: seq<Token>, i: nat, value: seq<Token>)
    requires Sits(ts, i, value) && IsValue(value) && i + |value| < |ts| && EndsValue(ts[i + |value|])
    ensures ValueEnd(ts, i, 0) == i + |value| && ts[i..i + |value|] == value
  {
    ValueScan(ts, i, value, 0);
    SitsSlice(ts, i, value);
  }

  // --- trees ----------------------------------------------------------------------

  /** What stands behind a printed node lets the parser stop there. */
  predicate Ends(n: Node, ts: seq<Token>, k: nat) {
    && k <= |ts| && (k < |ts| ==> ts[k].Str?)
    && match n
       case RuleNode(span) => Closed(span, true) || (Open(span, true) && (k == |ts| || Stops(ts[k], 0, true)))
       case DirectiveNode(span) => Closed(span, false) || (Open(span, false) && (k == |ts| || Stops(ts[k], 0, false)))
       case IfNode(_, _, _) => Dangling(n) ==> !At(ts, k, "@else")
       case _ => true
  }

  /** The end of the block. */
  predicate BlockEnds(ts: seq<Token>, k: nat) {
    k <= |ts| && (k < |ts| ==> ts[k] == Str("}"))
  }

  lemma BracedParts(ts: seq<Token>, i: nat, inner: seq<Token>)
    requires Sits(ts, i, Braced(inner))
    ensures At(ts, i, "{") && Sits(ts, i + 1, inner) && At(ts, i + 1 + |inner|, "}")
  {
    SitsParts(ts, i, [Str("{")] + inner, [Str("}")]);
    SitsParts(ts, i, [Str("{")], inner);
    SitsAt(ts, i, [Str("{")], 0);
    SitsAt(ts, i + 1 + |inner|, [Str("}")], 0);
  }

  lemma {:induction false} BlockBack(nodes: seq<Node>, ts: seq<Token>, i: nat, depth: nat)
    requires WellFormed(nodes) && Sits(ts, i, Braced(Print(nodes))) && depth + 1 + Nest(nodes) <= 100
    ensures At(ts, i, "{") && Block(ts, i + 1, depth) == Some((nodes, i + |Braced(Print(nodes))|))
    decreases nodes, 1
  {
    hide Statements, Print, Sits, WellFormed, Nest;
    BracedParts(ts, i, Print(nodes));
    StatementsBack(nodes, ts, i + 1, depth + 1);
  }

  lemma FirstToken(n: Node, rest: seq<Token>, ts: seq<Token>, k: nat)
    requires WellFormedNode(n) && Sits(ts, k, PrintNode(n) + rest)
    ensures k < |ts| && ts[k].Str? && ts[k] == PrintNode(n)[0] && ts[k] != Str("}") && ts[k] != Str(")")
  {
    SitsParts(ts, k, PrintNode(n), rest);
    SitsAt(ts, k, PrintNode(n), 0);
  }

  lemma FollowedEnds(n: Node, rest: seq<Node>, ts: seq<Token>, k: nat)
    requires Followed(n, rest) && WellFormed(rest) && Sits(ts, k, Print(rest)) && BlockEnds(ts, k + |Print(rest)|)
    ensures Ends(n, ts, k)
  {
    if rest != [] {
      FirstToken(rest[0], Print(rest[1..]), ts, k);
      if rest[0].BlockNode? { assert ts[k] == Str("{"); }
      if n.IfNode? && Dangling(n) { NotElse(rest[0]); }
    }
  }

  lemma NotElse(n: Node)
    requires WellFormedNode(n) && !StartsElse(n)
    ensures PrintNode(n)[0] != Str("@else")
  {
  }

  lemma StatementsEnd(ts: seq<Token>, i: nat, depth: nat)
    requires BlockEnds(ts, i)
    ensures Statements(ts, i, depth) == Some(([], if i < |ts| then i + 1 else i))
  {
  }

  lemma StatementsStep(ts: seq<Token>, i: nat, depth: nat, n: Node, k: nat, rest: seq<Node>, e: nat)
    requires i < |ts| && ts[i].Str? && ts[i] != Str("}") && i < k <= |ts|
    requires Statement(ts, i, depth) == Some((n, k)) && Statements(ts, k, depth) == Some((rest, e))
    ensures Statements(ts, i, depth) == Some(([n] + rest, e))
  {
  }

  lemma {:induction false} StatementsBack(nodes: seq<Node>, ts: seq<Token>, i: nat, depth: nat)
    requires WellFormed(nodes) && Sits(ts, i, Print(nodes)) && depth + Nest(nodes) <= 100
    requires BlockEnds(ts, i + |Print(nodes)|)
    ensures var e := i + |Print(nodes)|;
            Statements(ts, i, depth) == Some((nodes, if e < |ts| then e + 1 else e))
    decreases nodes, 0
  {
    hide Statements, Statement, Sits, Ends, Followed, PrintNode, NestNode, WellFormedNode;
    var e := i + |Print(nodes)|;
    if nodes == [] {
      StatementsEnd(ts, i, depth);
    } else {
      var n, rest, k := nodes[0], nodes[1..], i + |PrintNode(nodes[0])|;
      FirstToken(n, Print(rest), ts, i);
      SitsParts(ts, i, PrintNode(n), Print(rest));
      FollowedEnds(n, rest, ts, k);
      StatementBack(n, ts, i, depth);
      StatementsBack(rest, ts, k, depth);
      StatementsStep(ts, i, depth, n, k, rest, if e < |ts| then e + 1 else e);
      assert nodes == [n] + rest;
    }
  }

  lemma SpanStatement(ts: seq<Token>, j: nat, depth: nat, span: seq<Token>, directive: bool)
    requires span != [] && Sits(ts, j, span) && span[0].Str?
    requires if directive then IsDirective(span[0].text) else LeadsRule(span[0])
    requires SpanEnd(ts, j, 0, !directive) == j + |span|
    ensures Statement(ts, j, depth)
            == Some((if directive then DirectiveNode(span) else RuleNode(span), j + |span|))
  {
    hide SpanEnd, Block, Header, If;
    SitsAt(ts, j, span, 0);
    SitsSlice(ts, j, span);
  }

  lemma SpanBack(n: Node, ts: seq<Token>, j: nat, depth: nat)
    requires (n.RuleNode? || n.DirectiveNode?) && WellFormedNode(n) && Sits(ts, j, n.span) && Ends(n, ts, j + |n.span|)
    ensures Statement(ts, j, depth) == Some((n, j + |n.span|))
  {
    hide SpanEnd, Statement, Level, Quiet;
    if Closed(n.span, n.RuleNode?) {
      ClosedEnd(ts, j, n.span, n.RuleNode?);
    } else {
      OpenEnd(ts, j, n.span, n.RuleNode?);
    }
    SpanStatement(ts, j, depth, n.span, n.DirectiveNode?);
  }

  lemma BlockStatement(ts: seq<Token>, j: nat, depth: nat, body: seq<Node>, e: nat)
    requires At(ts, j, "{") && Block(ts, j + 1, depth) == Some((body, e))
    ensures Statement(ts, j, depth) == Some((BlockNode(body), e))
  {
    hide Block;
  }

  lemma HeaderStatement(ts: seq<Token>, j: nat, depth: nat, keyword: string)
    requires At(ts, j, keyword) && IsHeader(keyword)
    ensures Statement(ts, j, depth) == Header(ts, j, depth)
  {
    hide Header;
  }

  lemma IfStatement(ts: seq<Token>, j: nat, depth: nat)
    requires At(ts, j, "@if")
    ensures Statement(ts, j, depth) == If(ts, j, depth)
  {
    hide If;
  }

  lemma {:induction false} StatementBack(n: Node, ts: seq<Token>, j: nat, depth: nat)
    requires WellFormedNode(n) && Sits(ts, j, PrintNode(n)) && depth + NestNode(n) <= 100
    requires Ends(n, ts, j + |PrintNode(n)|)
    requires j < |ts| && ts[j] == PrintNode(n)[0] && ts[j].Str? && ts[j] != Str("}")
    ensures Statement(ts, j, depth) == Some((n, j + |PrintNode(n)|))
    decreases n, 2
  {
    hide Statement, Block, Header, If, Sits, Ends;
    match n
    case RuleNode(span) => SpanBack(n, ts, j, depth);
    case DirectiveNode(span) => SpanBack(n, ts, j, depth);
    case BlockNode(statements) =>
      BlockBack(statements, ts, j, depth);
      BlockStatement(ts, j, depth, statements, j + |PrintNode(n)|);
    case HeaderNode(keyword, _, _) =>
      HeaderStatement(ts, j, depth, keyword);
      HeaderBack(n, ts, j, depth);
    case IfNode(_, _, _) =>
      IfStatement(ts, j, depth);
      IfBack(n, ts, j, depth);
  }

  lemma HeaderBlock(ts: seq<Token>, j: nat, depth: nat, keyword: string, value: seq<Token>, body: seq<Node>, e: nat)
    requires j < |ts| && ts[j] == Str(keyword) && Sits(ts, j + 1, value) && IsValue(value)
    requires At(ts, j + 1 + |value|, "{") && Block(ts, j + 2 + |value|, depth) == Some((body, e))
    ensures Header(ts, j, depth) == Some((HeaderNode(keyword, value, Body(body)), e))
  {
    hide Block, ValueEnd, Sits, IsValue;
    ValueRead(ts, j + 1, value);
  }

  lemma HeaderLine(ts: seq<Token>, j: nat, depth: nat, keyword: string, value: seq<Token>)
    requires j < |ts| && ts[j] == Str(keyword) && Sits(ts, j + 1, value) && IsValue(value)
    requires At(ts, j + 1 + |value|, ";")
    ensures Header(ts, j, depth) == Some((HeaderNode(keyword, value, NoBody), j + 2 + |value|))
  {
    hide Block, ValueEnd, Sits, IsValue;
    ValueRead(ts, j + 1, value);
  }

  function PrintBody(body: Body): seq<Token> {
    match body
    case NoBody => [Str(";")]
    case Body(b) => Braced(Print(b))
  }

  lemma HeaderParts(n: Node)
    requires n.HeaderNode?
    ensures PrintNode(n) == ([Str(n.keyword)] + n.value) + PrintBody(n.body)
    ensures WellFormedNode(n) ==> IsValue(n.value) && (n.body.Body? ==> WellFormed(n.body.nodes))
    ensures n.body.Body? ==> NestNode(n) == 1 + Nest(n.body.nodes)
  {
  }

  lemma {:induction false} HeaderBack(n: Node, ts: seq<Token>, j: nat, depth: nat)
    requires n.HeaderNode? && WellFormedNode(n) && Sits(ts, j, PrintNode(n)) && depth + NestNode(n) <= 100
    requires j < |ts| && ts[j] == Str(n.keyword)
    ensures Header(ts, j, depth) == Some((n, j + |PrintNode(n)|))
    decreases n, 1
  {
    hide PrintNode, WellFormedNode, WellFormed, NestNode, Nest, Block, Header, Sits, IsValue;
    var head, tail := [Str(n.keyword)] + n.value, PrintBody(n.body);
    HeaderParts(n);
    SitsParts(ts, j, head, tail);
    SitsParts(ts, j, [Str(n.keyword)], n.value);
    match n.body
    case NoBody =>
      SitsAt(ts, j + |head|, tail, 0);
      HeaderLine(ts, j, depth, n.keyword, n.value);
    case Body(b) =>
      BlockBack(b, ts, j + |head|, depth);
      HeaderBlock(ts, j, depth, n.keyword, n.value, b, j + |PrintNode(n)|);
  }

  lemma IfStep(ts: seq<Token>, j: nat, depth: nat, cond: seq<Token>, thenBody: seq<Node>, k: nat, elseBody: Body, e: nat)
    requires j < |ts| && Sits(ts, j + 1, cond) && IsValue(cond) && At(ts, j + 1 + |cond|, "{")
    requires k <= |ts| && Block(ts, j + 2 + |cond|, depth) == Some((thenBody, k))
    requires Else(ts, k, depth) == Some((elseBody, e))
    ensures If(ts, j, depth) == Some((IfNode(cond, thenBody, elseBody), e))
  {
    hide Block, Else, ValueEnd, Sits, IsValue;
    ValueRead(ts, j + 1, cond);
  }

  function PrintElse(body: Body): seq<Token> {
    match body
    case NoBody => []
    case Body(b) => [Str("@else")] + (if IsLink(b) then PrintNode(b[0]) else Braced(Print(b)))
  }

  lemma IfParts(n: Node)
    requires n.IfNode?
    ensures PrintNode(n) == (([Str("@if")] + n.cond) + Braced(Print(n.thenBody))) + PrintElse(n.elseBody)
    ensures WellFormedNode(n) ==> IsValue(n.cond) && WellFormed(n.thenBody)
    ensures WellFormedNode(n) && n.elseBody.Body? ==>
              WellFormed(n.elseBody.nodes) && (IsLink(n.elseBody.nodes) ==> WellFormedNode(n.elseBody.nodes[0]))
    ensures NestNode(n) >= 1 + Nest(n.thenBody)
    ensures n.elseBody.Body? ==>
              NestNode(n) >= if IsLink(n.elseBody.nodes) then NestNode(n.elseBody.nodes[0]) else 1 + Nest(n.elseBody.nodes)
  {
  }

  lemma {:induction false} IfBack(n: Node, ts: seq<Token>, j: nat, depth: nat)
    requires n.IfNode? && WellFormedNode(n) && Sits(ts, j, PrintNode(n)) && depth + NestNode(n) <= 100
    requires Ends(n, ts, j + |PrintNode(n)|)
    ensures If(ts, j, depth) == Some((n, j + |PrintNode(n)|))
    decreases n, 1
  {
    hide PrintNode, PrintElse, WellFormedNode, WellFormed, NestNode, Nest, If, Else, Block, Sits, IsValue, Ends;
    var head, branch, tail := [Str("@if")] + n.cond, Braced(Print(n.thenBody)), PrintElse(n.elseBody);
    var k := j + |head + branch|;
    IfParts(n);
    SitsParts(ts, j, head + branch, tail);
    SitsParts(ts, j, head, branch);
    SitsParts(ts, j, [Str("@if")], n.cond);
    SitsAt(ts, j, [Str("@if")], 0);
    BlockBack(n.thenBody, ts, j + |head|, depth);
    ElseBack(n, ts, k, depth);
    IfStep(ts, j, depth, n.cond, n.thenBody, k, n.elseBody, j + |PrintNode(n)|);
  }

  lemma ElseLink(ts: seq<Token>, k: nat, depth: nat, link: Node, e: nat)
    requires At(ts, k, "@else") && At(ts, k + 1, "@if") && If(ts, k + 1, depth) == Some((link, e))
    ensures Else(ts, k, depth) == Some((Body([link]), e))
  {
    hide If, Block;
  }

  lemma ElseBranch(ts: seq<Token>, k: nat, depth: nat, body: seq<Node>, e: nat)
    requires At(ts, k, "@else") && At(ts, k + 1, "{") && Block(ts, k + 2, depth) == Some((body, e))
    ensures Else(ts, k, depth) == Some((Body(body), e))
  {
    hide If, Block;
  }

  lemma ElseNone(ts: seq<Token>, k: nat, depth: nat)
    requires k <= |ts| && (k < |ts| ==> ts[k].Str?) && !At(ts, k, "@else")
    ensures Else(ts, k, depth) == Some((NoBody, k))
  {
  }

  /** A chain ends where its last link does. */
  lemma LinkEnds(n: Node, ts: seq<Token>, k: nat)
    requires n.IfNode? && Ends(n, ts, k)
    ensures n.elseBody.NoBody? ==> !At(ts, k, "@else") && PrintElse(n.elseBody) == []
    ensures n.elseBody.Body? && IsLink(n.elseBody.nodes) ==> Ends(n.elseBody.nodes[0], ts, k)
    ensures k <= |ts| && (k < |ts| ==> ts[k].Str?)
  {
  }

  lemma {:induction false} ElseBack(n: Node, ts: seq<Token>, k: nat, depth: nat)
    requires n.IfNode? && WellFormedNode(n) && Sits(ts, k, PrintElse(n.elseBody))
    requires depth + NestNode(n) <= 100 && Ends(n, ts, k + |PrintElse(n.elseBody)|)
    ensures Else(ts, k, depth) == Some((n.elseBody, k + |PrintElse(n.elseBody)|))
    decreases n, 0
  {
    hide PrintNode, PrintElse, Print, Braced, WellFormedNode, WellFormed, NestNode, Nest, If, Else, Block, Sits, Ends;
    IfParts(n);
    LinkEnds(n, ts, k + |PrintElse(n.elseBody)|);
    if n.elseBody.NoBody? {
      ElseNone(ts, k, depth);
    } else {
      var b := n.elseBody.nodes;
      assert n.elseBody == Body(b);
      ElseParts(b, ts, k);
      if IsLink(b) {
        IfBack(b[0], ts, k + 1, depth);
        ElseLink(ts, k, depth, b[0], k + |PrintElse(n.elseBody)|);
      } else {
        BlockBack(b, ts, k + 1, depth);
        ElseBranch(ts, k, depth, b, k + |PrintElse(n.elseBody)|);
      }
    }
  }

  lemma ElseParts(b: seq<Node>, ts: seq<Token>, k: nat)
    requires Sits(ts, k, PrintElse(Body(b)))
    ensures At(ts, k, "@else")
    ensures IsLink(b) ==>
              && b == [b[0]] && |PrintElse(Body(b))| == 1 + |PrintNode(b[0])|
              && At(ts, k + 1, "@if") && Sits(ts, k + 1, PrintNode(b[0]))
    ensures !IsLink(b) ==>
              |PrintElse(Body(b))| == 1 + |Braced(Print(b))| && Sits(ts, k + 1, Braced(Print(b)))
  {
    hide PrintNode, Print, Braced, Sits;
    if IsLink(b) {
      ElseStarts(ts, k, PrintNode(b[0]));
      LinkStarts(b[0], ts, k + 1);
    } else {
      ElseStarts(ts, k, Braced(Print(b)));
    }
  }

  lemma ElseStarts(ts: seq<Token>, k: nat, tail: seq<Token>)
    requires Sits(ts, k, [Str("@else")] + tail)
    ensures At(ts, k, "@else") && Sits(ts, k + 1, tail)
  {
    SitsParts(ts, k, [Str("@else")], tail);
    SitsAt(ts, k, [Str("@else")], 0);
  }

  lemma LinkStarts(n: Node, ts: seq<Token>, k: nat)
    requires n.IfNode? && Sits(ts, k, PrintNode(n))
    ensures At(ts, k, "@if")
  {
    IfParts(n);
    SitsAt(ts, k, PrintNode(n), 0);
  }

  /** The round trip, for every well-formed tree within the depth cap. */
  lemma RoundTrip(nodes: seq<Node>)
    requires WellFormed(nodes) && 1 + Nest(nodes) <= 100
    ensures Block(Print(nodes), 0, 0) == Some((nodes, |Print(nodes)|))
  {
    StatementsBack(nodes, Print(nodes), 0, 1);
  }

  /** So two well-formed trees with one spelling are one tree. */
  lemma PrintInjective(a: seq<Node>, b: seq<Node>)
    requires WellFormed(a) && 1 + Nest(a) <= 100 && WellFormed(b) && 1 + Nest(b) <= 100
    requires Print(a) == Print(b)
    ensures a == b
  {
    RoundTrip(a);
    RoundTrip(b);
  }

  /** The class reads a printed tree back, to the last token. */
  method ParsePrinted(nodes: seq<Node>) returns (parsed: seq<Node>)
    requires WellFormed(nodes) && 1 + Nest(nodes) <= 100
    ensures parsed == nodes
  {
    RoundTrip(nodes);
    var parser := new Parser(Print(nodes));
    parsed := parser.ParseBlock();
    assert parser.i == |Print(nodes)|;
  }
}
