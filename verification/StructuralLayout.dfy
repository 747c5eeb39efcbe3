/** Line breaks never show in the structure: sentinels anywhere in the tokens change spans only. */
module StructuralLayout {
  import opened StructuralSyntax

  function Strip(ts: seq<Token>): seq<Token> {
    if ts == [] then [] else Strip(ts[..|ts| - 1]) + if ts[|ts| - 1].Str? then [ts[|ts| - 1]] else []
  }

  /** Where position `i` is once the sentinels are gone. */
  function Place(ts: seq<Token>, i: nat): nat
    requires i <= |ts|
  {
    |Strip(ts[..i])|
  }

  function StripNodes(nodes: seq<Node>): (r: seq<Node>)
    decreases nodes
  {
    if nodes == [] then [] else [StripNode(nodes[0])] + StripNodes(nodes[1..])
  }

  function StripBody(body: Body): Body
    decreases body
  {
    match body
    case NoBody => NoBody
    case Body(nodes) => Body(StripNodes(nodes))
  }

  function StripNode(n: Node): Node
    decreases n
  {
    match n
    case RuleNode(span) => RuleNode(Strip(span))
    case DirectiveNode(span) => DirectiveNode(Strip(span))
    case HeaderNode(keyword, value, body) => HeaderNode(keyword, Strip(value), StripBody(body))
    case BlockNode(statements) => BlockNode(StripNodes(statements))
    case IfNode(cond, thenBody, elseBody) => IfNode(Strip(cond), StripNodes(thenBody), StripBody(elseBody))
  }

  // --- positions ----------------------------------------------------------------------------

  lemma {:induction false} StripAppend(a: seq<Token>, b: seq<Token>)
    ensures Strip(a + b) == Strip(a) + Strip(b)
  {
    if b == [] {
      assert a + b == a;
    } else {
      var front, last := b[..|b| - 1], b[|b| - 1];
      StripAppend(a, front);
      assert (a + b)[..|a + b| - 1] == a + front;
    }
  }

  lemma Slices(ts: seq<Token>, i: nat, j: nat)
    requires i <= j <= |ts|
    ensures Place(ts, i) <= Place(ts, j) <= |Strip(ts)| == Place(ts, |ts|)
    ensures Strip(ts[i..j]) == Strip(ts)[Place(ts, i)..Place(ts, j)]
  {
    assert ts[..j] == ts[..i] + ts[i..j] && ts == ts[..j] + ts[j..] && ts[..|ts|] == ts;
    StripAppend(ts[..i], ts[i..j]);
    StripAppend(ts[..j], ts[j..]);
    assert Strip(ts)[..Place(ts, j)] == Strip(ts[..j]);
  }

  lemma NextPlace(ts: seq<Token>, i: nat)
    requires i < |ts|
    ensures Place(ts, i + 1) == Place(ts, i) + (if ts[i].Str? then 1 else 0) <= |Strip(ts)|
    ensures ts[i].Str? ==> Place(ts, i) < |Strip(ts)| && Strip(ts)[Place(ts, i)] == ts[i]
  {
    Slices(ts, i + 1, |ts|);
    assert ts[..i + 1][..i] == ts[..i] && ts[..i + 1][i] == ts[i];
    Slices(ts, 0, i + 1);
    assert Strip(ts)[..Place(ts, i + 1)] == Strip(ts[..i + 1]) by {
      assert ts[0..i + 1] == ts[..i + 1] && ts[..0] == [];
    }
  }

  lemma EndPlace(ts: seq<Token>)
    ensures Place(ts, |ts|) == |Strip(ts)| && Place(ts, 0) == 0
  {
    assert ts[..|ts|] == ts && ts[..0] == [];
  }

  // --- the scans ----------------------------------------------------------------------------

  lemma {:induction false} SkipStrips(ts: seq<Token>, i: nat)
    requires i <= |ts|
    ensures Place(ts, Skip(ts, i)) == Place(ts, i) <= |Strip(ts)|
    ensures Skip(Strip(ts), Place(ts, i)) == Place(ts, i)
    ensures Skip(ts, i) == |ts| <==> Place(ts, i) == |Strip(ts)|
    ensures Skip(ts, i) < |ts| ==> Strip(ts)[Place(ts, i)] == ts[Skip(ts, i)]
    decreases |ts| - i
  {
    hide Strip;
    if i == |ts| {
      EndPlace(ts);
    } else {
      NextPlace(ts, i);
      if ts[i].Sentinel? { SkipStrips(ts, i + 1); }
    }
  }

  lemma {:induction false} SpanStrips(ts: seq<Token>, i: nat, depth: nat, stopAtBrace: bool)
    requires i <= |ts|
    ensures Place(ts, i) <= |Strip(ts)|
    ensures SpanEnd(Strip(ts), Place(ts, i), depth, stopAtBrace) == Place(ts, SpanEnd(ts, i, depth, stopAtBrace))
    decreases |ts| - i
  {
    hide Strip, Place;
    if i == |ts| {
      EndPlace(ts);
    } else {
      NextPlace(ts, i);
      if !Stops(ts[i], depth, stopAtBrace) && !(depth == 0 && ts[i] == Str(";")) {
        SpanStrips(ts, i + 1, depth + Delta(ts[i]), stopAtBrace);
      }
    }
  }

  lemma {:induction false} ValueStrips(ts: seq<Token>, i: nat, depth: nat)
    requires i <= |ts|
    ensures Place(ts, i) <= |Strip(ts)|
    ensures ValueEnd(Strip(ts), Place(ts, i), depth) == Place(ts, ValueEnd(ts, i, depth))
    ensures var v := ValueEnd(ts, i, depth);
            && (v == |ts| <==> Place(ts, v) == |Strip(ts)|)
            && (v < |ts| ==> Strip(ts)[Place(ts, v)] == ts[v] && Place(ts, v + 1) == Place(ts, v) + 1)
    decreases |ts| - i
  {
    hide Strip, Place;
    if i == |ts| {
      EndPlace(ts);
    } else {
      NextPlace(ts, i);
      if !(depth == 0 && EndsValue(ts[i])) { ValueStrips(ts, i + 1, ValueDepth(ts[i], depth)); }
    }
  }

  lemma {:induction false} BlockEndStrips(ts: seq<Token>, i: nat, depth: nat)
    requires i <= |ts|
    ensures Place(ts, i) <= |Strip(ts)|
    ensures BlockEnd(Strip(ts), Place(ts, i), depth) == Place(ts, BlockEnd(ts, i, depth))
    decreases |ts| - i
  {
    hide Strip, Place;
    if i == |ts| {
      EndPlace(ts);
    } else {
      NextPlace(ts, i);
      if depth > 0 {
        BlockEndStrips(ts, i + 1,
          if ts[i] == Str("{") then depth + 1 else if ts[i] == Str("}") then depth - 1 else depth);
      }
    }
  }

  // --- the parser -----------------------------------------------------------------------------

  /** A result on the tokens is this one on the stripped tokens. */
  predicate BlockAlike(ts: seq<Token>, r: Parsed<seq<Node>>, s: Parsed<seq<Node>>) {
    (r.Some? <==> s.Some?)
    && (r.Some? ==> r.value.1 <= |ts| && s.value == (StripNodes(r.value.0), Place(ts, r.value.1)))
  }

  predicate NodeAlike(ts: seq<Token>, r: Parsed<Node>, s: Parsed<Node>) {
    (r.Some? <==> s.Some?)
    && (r.Some? ==> r.value.1 <= |ts| && s.value == (StripNode(r.value.0), Place(ts, r.value.1)))
  }

  predicate BodyAlike(ts: seq<Token>, r: Parsed<Body>, s: Parsed<Body>) {
    (r.Some? <==> s.Some?)
    && (r.Some? ==> r.value.1 <= |ts| && s.value == (StripBody(r.value.0), Place(ts, r.value.1)))
  }

  lemma {:induction false} BlockStrips(ts: seq<Token>, i: nat, depth: nat)
    requires i <= |ts|
    ensures Place(ts, i) <= |Strip(ts)| && BlockAlike(ts, Block(ts, i, depth), Block(Strip(ts), Place(ts, i), depth))
    decreases |ts| - i, 4
  {
    hide Strip, Place, Statements;
    BlockEndStrips(ts, i, 1);
    if depth < MAX_BLOCK_DEPTH { StatementsStrips(ts, i, depth + 1); }
  }

  lemma {:induction false} StatementsStrips(ts: seq<Token>, i: nat, depth: nat)
    requires i <= |ts|
    ensures Place(ts, i) <= |Strip(ts)|
    ensures BlockAlike(ts, Statements(ts, i, depth), Statements(Strip(ts), Place(ts, i), depth))
    decreases |ts| - i, 3
  {
    hide Strip, Place, Statement;
    SkipStrips(ts, i);
    var j := Skip(ts, i);
    if j < |ts| {
      NextPlace(ts, j);
      if ts[j] != Str("}") {
        StatementStrips(ts, j, depth);
        var one := Statement(ts, j, depth);
        if one.Some? {
          var k := one.value.1;
          if k > j {
            Slices(ts, j + 1, k);
            StatementsStrips(ts, k, depth);
          }
        }
      }
    }
  }

  lemma {:induction false} StatementStrips(ts: seq<Token>, j: nat, depth: nat)
    requires j < |ts| && ts[j].Str? && ts[j] != Str("}")
    ensures Place(ts, j) < |Strip(ts)| && Strip(ts)[Place(ts, j)] == ts[j]
    ensures NodeAlike(ts, Statement(ts, j, depth), Statement(Strip(ts), Place(ts, j), depth))
    decreases |ts| - j, 2
  {
    hide Strip, Place, Block, Header, If, SpanEnd;
    NextPlace(ts, j);
    var text := ts[j].text;
    if text == "@if" {
      IfStrips(ts, j, depth);
    } else if text == "{" {
      BlockStrips(ts, j + 1, depth);
    } else if IsHeader(text) {
      HeaderStrips(ts, j, depth);
    } else {
      SpanStrips(ts, j, 0, !IsDirective(text));
      Slices(ts, j, SpanEnd(ts, j, 0, !IsDirective(text)));
    }
  }

  lemma {:induction false} HeaderStrips(ts: seq<Token>, j: nat, depth: nat)
    requires j < |ts| && ts[j].Str?
    ensures Place(ts, j) < |Strip(ts)| && Strip(ts)[Place(ts, j)] == ts[j]
    ensures NodeAlike(ts, Header(ts, j, depth), Header(Strip(ts), Place(ts, j), depth))
    decreases |ts| - j, 1
  {
    hide Strip, Place, Block, ValueEnd;
    NextPlace(ts, j);
    ValueStrips(ts, j + 1, 0);
    var v := ValueEnd(ts, j + 1, 0);
    Slices(ts, j + 1, v);
    assert ValueEnd(Strip(ts), Place(ts, j) + 1, 0) == Place(ts, v);
    if v < |ts| && ts[v] == Str("{") {
      BlockStrips(ts, v + 1, depth);
      var r, s := Block(ts, v + 1, depth), Block(Strip(ts), Place(ts, v) + 1, depth);
      assert BlockAlike(ts, r, s);
      if r.Some? { assert StripBody(Body(r.value.0)) == Body(s.value.0); }
    } else {
      assert StripBody(NoBody) == NoBody;
    }
  }

  lemma {:induction false} IfStrips(ts: seq<Token>, j: nat, depth: nat)
    requires j < |ts| && ts[j].Str?
    ensures Place(ts, j) < |Strip(ts)|
    ensures NodeAlike(ts, If(ts, j, depth), If(Strip(ts), Place(ts, j), depth))
    decreases |ts| - j, 1
  {
    hide Strip, Place, Branch, Else, ValueEnd;
    NextPlace(ts, j);
    ValueStrips(ts, j + 1, 0);
    var c := ValueEnd(ts, j + 1, 0);
    Slices(ts, j + 1, c);
    BranchStrips(ts, c, depth);
    var thenPart := Branch(ts, c, depth);
    if thenPart.Some? { ElseStrips(ts, thenPart.value.1, depth); }
  }

  lemma {:induction false} ElseStrips(ts: seq<Token>, k: nat, depth: nat)
    requires k <= |ts|
    ensures Place(ts, k) <= |Strip(ts)| && BodyAlike(ts, Else(ts, k, depth), Else(Strip(ts), Place(ts, k), depth))
    decreases |ts| - k, 6
  {
    hide Strip, Place, Branch, If;
    SkipStrips(ts, k);
    var m := Skip(ts, k);
    if At(ts, m, "@else") {
      NextPlace(ts, m);
      SkipStrips(ts, m + 1);
      var n := Skip(ts, m + 1);
      if At(ts, n, "@if") {
        IfStrips(ts, n, depth);
        OneNode();
      } else {
        BranchStrips(ts, n, depth);
      }
    }
  }

  lemma OneNode()
    ensures forall n: Node :: StripNodes([n]) == [StripNode(n)]
  {
    forall n: Node ensures StripNodes([n]) == [StripNode(n)] { assert [n][1..] == [] && StripNodes([]) == []; }
  }

  lemma {:induction false} BranchStrips(ts: seq<Token>, i: nat, depth: nat)
    requires i <= |ts|
    ensures Place(ts, i) <= |Strip(ts)| && BlockAlike(ts, Branch(ts, i, depth), Branch(Strip(ts), Place(ts, i), depth))
    decreases |ts| - i, 5
  {
    hide Strip, Place, Block;
    SkipStrips(ts, i);
    var j := Skip(ts, i);
    if At(ts, j, "{") {
      NextPlace(ts, j);
      BlockStrips(ts, j + 1, depth);
    }
  }

  /** Texts that differ only in their line structure are parsed alike, or both never. */
  lemma LayoutFree(a: seq<Token>, b: seq<Token>)
    requires Strip(a) == Strip(b)
    ensures Block(a, 0, 0).Some? <==> Block(b, 0, 0).Some?
    ensures Block(a, 0, 0).Some? ==> StripNodes(Block(a, 0, 0).value.0) == StripNodes(Block(b, 0, 0).value.0)
  {
    hide Block, Strip;
    EndPlace(a);
    EndPlace(b);
    BlockStrips(a, 0, 0);
    BlockStrips(b, 0, 0);
  }
}
