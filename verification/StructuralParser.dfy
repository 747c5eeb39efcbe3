/** The cursor-driven parser over a token list, method by method against the parse functions. */
module StructuralParser {
  import opened Seqs
  import opened StructuralSyntax

  class Parser {
    const tokens: seq<Token>
    var i: nat
    var depth: nat

    constructor (tokens: seq<Token>)
      ensures this.tokens == tokens && i == 0 && depth == 0
    {
      this.tokens, this.i, this.depth := tokens, 0, 0;
    }

    predicate Valid()
      reads this
    {
      i <= |tokens|
    }

    method SkipSentinels()
      requires Valid()
      modifies this`i
      ensures Valid() && i == Skip(tokens, old(i))
    {
      while i < |tokens| && tokens[i].Sentinel?
        invariant Valid() && Skip(tokens, i) == Skip(tokens, old(i))
      {
        i := i + 1;
      }
    }

    /** The next string token, sentinels skipped. */
    method Peek() returns (text: Option<string>)
      requires Valid()
      modifies this`i
      ensures Valid() && i == Skip(tokens, old(i))
      ensures text == if i < |tokens| then Some(tokens[i].text) else None
    {
      SkipSentinels();
      text := if i < |tokens| then Some(tokens[i].text) else None;
    }

    /** Statements until a top-level closing brace, which is consumed, or the end of the tokens. */
    method ParseBlock() returns (statements: seq<Node>)
      requires Valid() && Block(tokens, i, depth).Some?
      modifies this`i, this`depth
      ensures Valid() && depth == old(depth)
      ensures Block(tokens, old(i), depth) == Some((statements, i))
      decreases |tokens| - i, 4
    {
      statements := [];
      depth := depth + 1;
      if depth > MAX_BLOCK_DEPTH {
        SkipToBlockEnd();
        depth := depth - 1;
        return;
      }
      ghost var whole := Statements(tokens, i, depth);
      assert [] + whole.value.0 == whole.value.0;
      while true
        invariant old(i) <= i <= |tokens| && depth == old(depth) + 1
        invariant Collected(tokens, i, depth, statements, whole)
        decreases |tokens| - i
      {
        assert statements + [] == statements;
        ghost var before := i;
        var tok := Peek();
        if tok == None { break; }
        if tok == Some("}") {
          i := i + 1;
          break;
        }
        var node := ParseStatement();
        CollectedNext(tokens, before, i, depth, statements, node, whole);
        statements := statements + [node];
      }
      depth := depth - 1;
    }

    method SkipToBlockEnd()
      requires Valid()
      modifies this`i
      ensures Valid() && i == BlockEnd(tokens, old(i), 1)
    {
      var level := 1;
      while i < |tokens| && level > 0
        invariant Valid() && level >= 0 && BlockEnd(tokens, i, level) == BlockEnd(tokens, old(i), 1)
        decreases |tokens| - i
      {
        if tokens[i] == Str("{") {
          level := level + 1;
        } else if tokens[i] == Str("}") {
          level := level - 1;
        }
        i := i + 1;
      }
    }

    method ParseStatement() returns (node: Node)
      requires i < |tokens| && tokens[i].Str? && tokens[i] != Str("}")
      requires Statement(tokens, i, depth).Some?
      modifies this`i, this`depth
      ensures Valid() && depth == old(depth)
      ensures Statement(tokens, old(i), depth) == Some((node, i))
      decreases |tokens| - i, 2
    {
      var text := tokens[i].text;
      if text == "@if" {
        node := ParseIf();
      } else if text == "{" {
        i := i + 1;
        var body := ParseBlock();
        node := BlockNode(body);
      } else if IsHeader(text) {
        node := ParseHeader();
      } else if IsDirective(text) {
        var span := CaptureStatementSpan(false);
        node := DirectiveNode(span);
      } else {
        var span := CaptureStatementSpan(true);
        node := RuleNode(span);
      }
    }

    /** The raw span up to the next top-level semicolon; a rule also stops in front of its match block. */
    method CaptureStatementSpan(stopAtBrace: bool) returns (span: seq<Token>)
      requires Valid()
      modifies this`i
      ensures Valid() && i == SpanEnd(tokens, old(i), 0, stopAtBrace) && span == tokens[old(i)..i]
    {
      var start, level := i, 0;
      while i < |tokens|
        invariant start <= i <= |tokens| && level >= 0
        invariant SpanEnd(tokens, i, level, stopAtBrace) == SpanEnd(tokens, start, 0, stopAtBrace)
        decreases |tokens| - i
      {
        var tok := tokens[i];
        if tok == Str("(") {
          level := level + 1;
        } else if tok == Str("{") {
          if stopAtBrace && level == 0 { break; }
          level := level + 1;
        } else if tok == Str("}") || tok == Str(")") {
          if level == 0 { break; }
          level := level - 1;
        } else if tok == Str(";") && level == 0 {
          i := i + 1;
          return tokens[start..i];
        }
        i := i + 1;
      }
      span := tokens[start..i];
    }

    /** Moves to the first top-level brace or semicolon and tells which one it is. */
    method ScanHeaderValue() returns (terminator: Option<string>)
      requires Valid()
      modifies this`i
      ensures Valid() && i == ValueEnd(tokens, old(i), 0)
      ensures terminator == if i < |tokens| then Some(tokens[i].text) else None
    {
      var level: nat := 0;
      while i < |tokens|
        invariant Valid() && ValueEnd(tokens, i, level) == ValueEnd(tokens, old(i), 0)
        decreases |tokens| - i
      {
        var tok := tokens[i];
        if tok == Str("(") {
          level := level + 1;
        } else if tok == Str(")") {
          level := if level > 0 then level - 1 else 0;
        } else if level == 0 && EndsValue(tok) {
          return Some(tok.text);
        }
        i := i + 1;
      }
      terminator := None;
    }

    method ParseHeader() returns (node: Node)
      requires i < |tokens| && tokens[i].Str? && Header(tokens, i, depth).Some?
      modifies this`i, this`depth
      ensures Valid() && depth == old(depth)
      ensures Header(tokens, old(i), depth) == Some((node, i))
      decreases |tokens| - i, 1
    {
      var keyword := tokens[i].text;
      i := i + 1;
      var start := i;
      var terminator := ScanHeaderValue();
      var value := tokens[start..i];
      if terminator == Some("{") {
        i := i + 1;
        var body := ParseBlock();
        return HeaderNode(keyword, value, Body(body));
      }
      if terminator == Some(";") { i := i + 1; }
      node := HeaderNode(keyword, value, NoBody);
    }

    method ParseBranchBlock() returns (statements: seq<Node>)
      requires Valid() && Branch(tokens, i, depth).Some?
      modifies this`i, this`depth
      ensures Valid() && depth == old(depth)
      ensures Branch(tokens, old(i), depth) == Some((statements, i))
      decreases |tokens| - i, 5
    {
      var tok := Peek();
      if tok == Some("{") {
        i := i + 1;
        statements := ParseBlock();
      } else {
        statements := [];
      }
    }

    /** The chain is walked link by link and rebuilt from its last link to its first. */
    method ParseIf() returns (node: Node)
      requires i < |tokens| && If(tokens, i, depth).Some?
      modifies this`i, this`depth
      ensures Valid() && depth == old(depth)
      ensures If(tokens, old(i), depth) == Some((node, i))
      decreases |tokens| - i, 1, 1
    {
      var links: seq<Link> := [];
      var finalElse: Body := NoBody;
      var more := true;
      ghost var whole := If(tokens, i, depth);
      while more
        invariant old(i) <= i <= |tokens| && depth == old(depth)
        invariant more ==> finalElse == NoBody && OnChain(tokens, i, depth, links, whole)
        invariant !more ==> links != [] && whole == Some((Chained(links, finalElse), i))
        decreases |tokens| - i, more
      {
        ghost var before := i;
        var link;
        link, finalElse, more := ParseLink();
        ChainNext(tokens, before, i, depth, links, link, finalElse, more, whole);
        links := links + [link];
      }
      node := Rebuild(links, finalElse);
    }

    /** One link: condition, branch, and what the `@else` behind it leads to. */
    method ParseLink() returns (link: Link, finalElse: Body, more: bool)
      requires i < |tokens| && If(tokens, i, depth).Some?
      modifies this`i, this`depth
      ensures old(i) < i <= |tokens| && depth == old(depth) && (more ==> finalElse == NoBody)
      ensures LinkRead(tokens, old(i), i, depth, link, finalElse, more)
      decreases |tokens| - i, 1, 0
    {
      hide Block, Statements, ValueEnd, Skip;
      finalElse, more := NoBody, false;
      i := i + 1;
      var start := i;
      var _ := ScanHeaderValue();
      var cond := tokens[start..i];
      var thenBody := ParseBranchBlock();
      link := Link(cond, thenBody);
      assert Else(tokens, i, depth).Some?;
      var tok := Peek();
      if tok != Some("@else") { return; }
      i := i + 1;
      tok := Peek();
      if tok == Some("@if") {
        more := true;
      } else {
        var elseBody := ParseBranchBlock();
        finalElse := Body(elseBody);
      }
    }
  }

  /** The block's statements are the collected ones and those still to come. */
  ghost predicate Collected(ts: seq<Token>, i: nat, depth: nat, statements: seq<Node>, whole: Parsed<seq<Node>>) {
    && i <= |ts| && Statements(ts, i, depth).Some?
    && whole == Some((statements + Statements(ts, i, depth).value.0, Statements(ts, i, depth).value.1))
  }

  lemma CollectedNext(ts: seq<Token>, i: nat, k: nat, depth: nat, statements: seq<Node>, node: Node,
                      whole: Parsed<seq<Node>>)
    requires Collected(ts, i, depth, statements, whole) && Skip(ts, i) < |ts| && ts[Skip(ts, i)] != Str("}")
    requires k <= |ts| && Statement(ts, Skip(ts, i), depth) == Some((node, k))
    ensures Collected(ts, k, depth, statements + [node], whole)
  {
    var rest := Statements(ts, k, depth).value.0;
    assert statements + ([node] + rest) == (statements + [node]) + rest;
  }

  datatype Link = Link(cond: seq<Token>, thenBody: seq<Node>)

  /** The chain of links in front of one more `@if`. */
  function Hang(links: seq<Link>, last: Node): Node {
    if links == [] then last else IfNode(links[0].cond, links[0].thenBody, Body([Hang(links[1..], last)]))
  }

  function Chained(links: seq<Link>, finalElse: Body): Node
    requires links != []
  {
    var n := |links| - 1;
    Hang(links[..n], IfNode(links[n].cond, links[n].thenBody, finalElse))
  }

  /** Parsing a chain has come to the `@if` at `i`, with these links in front of it. */
  ghost predicate OnChain(ts: seq<Token>, i: nat, depth: nat, links: seq<Link>, whole: Parsed<Node>) {
    && i < |ts| && If(ts, i, depth).Some?
    && whole == Some((Hang(links, If(ts, i, depth).value.0), If(ts, i, depth).value.1))
  }

  ghost predicate LinkRead(ts: seq<Token>, i: nat, k: nat, depth: nat, link: Link, finalElse: Body, more: bool) {
    && i < k <= |ts|
    && if more then
         && k < |ts| && If(ts, k, depth).Some?
         && var (rest, e) := If(ts, k, depth).value;
            If(ts, i, depth) == Some((IfNode(link.cond, link.thenBody, Body([rest])), e))
       else If(ts, i, depth) == Some((IfNode(link.cond, link.thenBody, finalElse), k))
  }

  lemma {:induction false} HangSnoc(links: seq<Link>, link: Link, last: Node)
    ensures Hang(links + [link], last) == Hang(links, IfNode(link.cond, link.thenBody, Body([last])))
  {
    if links == [] {
      assert [link][1..] == [];
    } else {
      assert (links + [link])[1..] == links[1..] + [link];
      HangSnoc(links[1..], link, last);
    }
  }

  lemma ChainNext(ts: seq<Token>, i: nat, k: nat, depth: nat, links: seq<Link>, link: Link,
                  finalElse: Body, more: bool, whole: Parsed<Node>)
    requires OnChain(ts, i, depth, links, whole) && LinkRead(ts, i, k, depth, link, finalElse, more)
    ensures more ==> OnChain(ts, k, depth, links + [link], whole)
    ensures !more ==> whole == Some((Chained(links + [link], finalElse), k))
  {
    if more {
      HangSnoc(links, link, If(ts, k, depth).value.0);
    } else {
      assert (links + [link])[..|links|] == links;
    }
  }

  method Rebuild(links: seq<Link>, finalElse: Body) returns (node: Node)
    requires links != []
    ensures node == Chained(links, finalElse)
  {
    var k := |links| - 1;
    ghost var last := IfNode(links[k].cond, links[k].thenBody, finalElse);
    node := IfNode(links[k].cond, links[k].thenBody, finalElse);
    while k > 0
      invariant 0 <= k < |links| && Hang(links[..|links| - 1], last) == Hang(links[..k], node)
    {
      k := k - 1;
      HangSnoc(links[..k], links[k], node);
      assert links[..k + 1] == links[..k] + [links[k]];
      node := IfNode(links[k].cond, links[k].thenBody, Body([node]));
    }
  }
}
