/** Port lists for `multiport`: at most fifteen ports to a rule, so a long list is cut into chunks. */
module Multiport {
  import opened Seqs

  const MAX_MULTIPORT_PORTS := 15

  /** A parsed port value: one text, a list, or either of them negated. */
  datatype PortValue = One(text: string) | List(ports: seq<string>) | Negated(value: PortValue)

  /** The option's argument: one text, an array that unfolds into several rules, or a negated argument. */
  datatype Params = Text(text: string) | Rules(texts: seq<string>) | Not(params: Params)

  /** A range takes two of the fifteen places. */
  function Increment(text: string): (n: nat)
    ensures 1 <= n <= 2
  {
    if ':' in text then 2 else 1
  }

  function Weight(ports: seq<string>): (n: nat)
    ensures n >= |ports|
  {
    if ports == [] then 0 else Weight(ports[..|ports| - 1]) + Increment(ports[|ports| - 1])
  }

  function Join(texts: seq<string>): string {
    if texts == [] then ""
    else if |texts| == 1 then texts[0]
    else texts[0] + "," + Join(texts[1..])
  }

  function JoinValue(value: PortValue): Params {
    match value
    case One(text) => Text(text)
    case List(ports) => Text(Join(ports))
    case Negated(inner) => Not(JoinValue(inner))
  }

  /** A way to cut a list, in order, into chunks one rule can hold. */
  predicate LegalSplit(chunks: seq<seq<string>>, ports: seq<string>) {
    Concat(chunks) == ports && forall i :: 0 <= i < |chunks| ==> Weight(chunks[i]) <= MAX_MULTIPORT_PORTS
  }

  /** The chunks closed so far and the open one, after the first `i` ports. */
  function Greedy(ports: seq<string>, i: nat): (r: (seq<seq<string>>, seq<string>))
    requires i <= |ports|
  {
    if i == 0 then ([], [])
    else
      var (full, chunk) := Greedy(ports, i - 1);
      var text := ports[i - 1];
      if Weight(chunk) + Increment(text) > MAX_MULTIPORT_PORTS then (full + [chunk], [text])
      else (full, chunk + [text])
  }

  function Chunks(ports: seq<string>): seq<seq<string>> {
    var (full, chunk) := Greedy(ports, |ports|);
    if chunk == [] then full else full + [chunk]
  }

  lemma WeightSnoc(chunk: seq<string>, text: string)
    ensures Weight(chunk + [text]) == Weight(chunk) + Increment(text)
  {
    assert (chunk + [text])[..|chunk|] == chunk;
  }

  lemma ConcatOne<T>(part: seq<T>)
    ensures Concat([part]) == part
  {
  }

  lemma ConcatLast<T>(front: seq<seq<T>>, last: seq<T>)
    ensures Concat(front + [last]) == Concat(front) + last
  {
    ConcatAppend(front, [last]);
  }

  /** Every port sits in its place, in the closed chunks or in the open one, and nothing is overfull. */
  ghost predicate Packed(full: seq<seq<string>>, chunk: seq<string>, ports: seq<string>) {
    && Concat(full) + chunk == ports && Weight(chunk) <= MAX_MULTIPORT_PORTS && (ports != [] ==> chunk != [])
    && forall j :: 0 <= j < |full| ==> full[j] != [] && Weight(full[j]) <= MAX_MULTIPORT_PORTS
  }

  lemma PackOpen(full: seq<seq<string>>, chunk: seq<string>, ports: seq<string>, text: string)
    requires Packed(full, chunk, ports) && Weight(chunk) + Increment(text) <= MAX_MULTIPORT_PORTS
    ensures Packed(full, chunk + [text], ports + [text])
  {
    WeightSnoc(chunk, text);
  }

  lemma PackClose(full: seq<seq<string>>, chunk: seq<string>, ports: seq<string>, text: string)
    requires Packed(full, chunk, ports) && Weight(chunk) + Increment(text) > MAX_MULTIPORT_PORTS
    ensures Packed(full + [chunk], [text], ports + [text])
  {
    ConcatLast(full, chunk);
    WeightSnoc([], text);
    assert [] + [text] == [text];
    assert Weight([]) == 0;
  }

  lemma {:induction false} GreedyLegal(ports: seq<string>, i: nat)
    requires i <= |ports|
    ensures var (full, chunk) := Greedy(ports, i); Packed(full, chunk, ports[..i])
  {
    if i > 0 {
      GreedyLegal(ports, i - 1);
      var (full, chunk) := Greedy(ports, i - 1);
      assert ports[..i] == ports[..i - 1] + [ports[i - 1]];
      if Weight(chunk) + Increment(ports[i - 1]) > MAX_MULTIPORT_PORTS {
        PackClose(full, chunk, ports[..i - 1], ports[i - 1]);
      } else {
        PackOpen(full, chunk, ports[..i - 1], ports[i - 1]);
      }
    }
  }

  /** The chunks are a legal split of the list, and none of them is empty. */
  lemma ChunksLegal(ports: seq<string>)
    ensures LegalSplit(Chunks(ports), ports)
    ensures forall i :: 0 <= i < |Chunks(ports)| ==> Chunks(ports)[i] != []
  {
    var (full, chunk) := Greedy(ports, |ports|);
    GreedyLegal(ports, |ports|);
    ConcatLast(full, chunk);
    assert ports[..|ports|] == ports;
  }

  /** Taking the last port off a split whose last chunk is not empty. */
  lemma WithoutLast(s: seq<seq<string>>, ports: seq<string>) returns (t: seq<seq<string>>)
    requires LegalSplit(s, ports) && s != [] && s[|s| - 1] != []
    ensures ports != [] && |t| == |s| && LegalSplit(t, ports[..|ports| - 1])
    ensures Weight(s[|s| - 1]) == Weight(t[|t| - 1]) + Increment(ports[|ports| - 1])
  {
    var n, last := |s| - 1, s[|s| - 1];
    var shorter := last[..|last| - 1];
    t := s[..n] + [shorter];
    ConcatLast(s[..n], last);
    ConcatLast(s[..n], shorter);
    assert s == s[..n] + [last];
    assert ports[..|ports| - 1] == Concat(s[..n]) + shorter;
  }

  lemma WithoutEmpty(s: seq<seq<string>>, ports: seq<string>)
    requires LegalSplit(s, ports) && s != [] && s[|s| - 1] == []
    ensures LegalSplit(s[..|s| - 1], ports)
  {
    assert s == s[..|s| - 1] + [s[|s| - 1]];
    ConcatLast(s[..|s| - 1], s[|s| - 1]);
  }

  /** The greedy cut stays ahead: any other split of a prefix has more chunks, or as many and a fuller last one. */
  lemma {:induction false} StaysAhead(ports: seq<string>, i: nat, s: seq<seq<string>>)
    requires 0 < i <= |ports| && LegalSplit(s, ports[..i])
    ensures var (full, chunk) := Greedy(ports, i);
            |s| > |full| + 1 || (|s| == |full| + 1 && Weight(s[|s| - 1]) >= Weight(chunk))
    decreases i, |s|
  {
    assert s != [];
    if s[|s| - 1] == [] {
      WithoutEmpty(s, ports[..i]);
      StaysAhead(ports, i, s[..|s| - 1]);
    } else {
      var t := WithoutLast(s, ports[..i]);
      assert ports[..i][..i - 1] == ports[..i - 1];
      var (full, chunk) := Greedy(ports, i - 1);
      assert ports[..i][|ports[..i]| - 1] == ports[i - 1];
      assert Weight(s[|s| - 1]) <= MAX_MULTIPORT_PORTS;
      if i > 1 {
        StaysAhead(ports, i - 1, t);
      }
      assert (chunk + [ports[i - 1]])[..|chunk|] == chunk;
      assert [ports[i - 1]][..0] == [];
    }
  }

  /** No split of the list into legal chunks, in order, has fewer chunks. */
  lemma ChunksOptimal(ports: seq<string>, s: seq<seq<string>>)
    requires LegalSplit(s, ports)
    ensures |Chunks(ports)| <= |s|
  {
    if ports != [] {
      assert ports[..|ports|] == ports;
      StaysAhead(ports, |ports|, s);
    }
  }

  /** The positions of the ranges of a list. */
  function Ranges(ports: seq<string>): set<nat> {
    set i | 0 <= i < |ports| && ':' in ports[i] :: i as nat
  }

  lemma LastRange(ports: seq<string>)
    requires ports != []
    ensures var n := |ports| - 1;
            |Ranges(ports)| == |Ranges(ports[..n])| + if ':' in ports[n] then 1 else 0
  {
    var n := |ports| - 1;
    assert Ranges(ports) == Ranges(ports[..n]) + if ':' in ports[n] then {n} else {};
  }

  /** Every port takes a place, and a range one more. */
  lemma {:induction false} PlacesCount(ports: seq<string>)
    ensures Weight(ports) == |ports| + |Ranges(ports)|
  {
    if ports != [] {
      var n := |ports| - 1;
      PlacesCount(ports[..n]);
      LastRange(ports);
    }
  }

  /** A list goes to several rules exactly when it does not fit into one. */
  lemma OneRuleIff(ports: seq<string>)
    requires ports != []
    ensures |Chunks(ports)| == 1 <==> |ports| + |Ranges(ports)| <= 15
    ensures |Chunks(ports)| == 1 ==> Chunks(ports) == [ports]
  {
    PlacesCount(ports);
    ChunksLegal(ports);
    if Weight(ports) <= MAX_MULTIPORT_PORTS {
      ConcatOne(ports);
      ChunksOptimal(ports, [ports]);
      assert Concat<string>([]) == [];
    }
    if |Chunks(ports)| == 1 {
      ConcatOne(Chunks(ports)[0]);
      assert Chunks(ports) == [Chunks(ports)[0]];
    }
  }

  function JoinAll(chunks: seq<seq<string>>): (r: seq<string>)
    ensures |r| == |chunks| && forall i :: 0 <= i < |r| ==> r[i] == Join(chunks[i])
  {
    seq(|chunks|, i requires 0 <= i < |chunks| => Join(chunks[i]))
  }

  /** The argument: a list is cut, and stays bare when one chunk holds it; everything else is joined. */
  function Argument(value: PortValue): Params {
    if !value.List? then JoinValue(value)
    else if |Chunks(value.ports)| == 1 then Text(Join(Chunks(value.ports)[0]))
    else Rules(JoinAll(Chunks(value.ports)))
  }

  /** The loop's variables after `i` ports. */
  ghost predicate Cut(ports: seq<string>, i: nat, texts: seq<string>, chunk: seq<string>, size: nat) {
    i <= |ports| && var (full, open) := Greedy(ports, i); texts == JoinAll(full) && chunk == open && size == Weight(open)
  }

  lemma CutNext(ports: seq<string>, i: nat, texts: seq<string>, chunk: seq<string>, size: nat)
    requires Cut(ports, i, texts, chunk, size) && i < |ports|
    ensures var n := Increment(ports[i]);
            if size + n > MAX_MULTIPORT_PORTS then Cut(ports, i + 1, texts + [Join(chunk)], [ports[i]], n)
            else Cut(ports, i + 1, texts, chunk + [ports[i]], size + n)
  {
    WeightSnoc(chunk, ports[i]);
    WeightSnoc([], ports[i]);
  }

  lemma CutDone(ports: seq<string>, texts: seq<string>, chunk: seq<string>, size: nat)
    requires Cut(ports, |ports|, texts, chunk, size)
    ensures JoinAll(Chunks(ports)) == if chunk == [] then texts else texts + [Join(chunk)]
  {
  }

  /** The chunk loop. Only a plain list is cut; a negated one stays a single argument. */
  method MultiportParams(value: PortValue) returns (params: Params)
    ensures params == Argument(value)
  {
    if !value.List? { return JoinValue(value); }
    var texts: seq<string> := [];
    var chunk: seq<string> := [];
    var size := 0;
    for i := 0 to |value.ports|
      invariant Cut(value.ports, i, texts, chunk, size)
    {
      var text := value.ports[i];
      var increment := if ':' in text then 2 else 1;
      CutNext(value.ports, i, texts, chunk, size);
      if size + increment > MAX_MULTIPORT_PORTS {
        texts := texts + [Join(chunk)];
        chunk, size := [], 0;
      }
      chunk := chunk + [text];
      size := size + increment;
    }
    CutDone(value.ports, texts, chunk, size);
    if chunk != [] { texts := texts + [Join(chunk)]; }
    params := if |texts| == 1 then Text(texts[0]) else Rules(texts);
  }

  // --- reading the argument back ------------------------------------------------------

  /** The texts between the commas. */
  function Split(text: string): (r: seq<string>)
    ensures r != []
  {
    if text == "" then [""]
    else
      var rest := Split(text[1..]);
      if text[0] == ',' then [""] + rest else [[text[0]] + rest[0]] + rest[1..]
  }

  lemma {:induction false} SplitPrefix(head: string, text: string)
    requires ',' !in head
    ensures Split(head + text) == [head + Split(text)[0]] + Split(text)[1..]
  {
    if head == "" {
      assert head + text == text && head + Split(text)[0] == Split(text)[0];
      assert Split(text) == [Split(text)[0]] + Split(text)[1..];
    } else {
      assert (head + text)[1..] == head[1..] + text;
      SplitPrefix(head[1..], text);
      assert head == [head[0]] + head[1..];
      assert head + Split(text)[0] == [head[0]] + (head[1..] + Split(text)[0]);
    }
  }

  lemma {:induction false} JoinSplits(texts: seq<string>)
    requires texts != [] && forall i :: 0 <= i < |texts| ==> ',' !in texts[i]
    ensures Split(Join(texts)) == texts
  {
    if |texts| == 1 {
      SplitPrefix(texts[0], "");
      assert texts[0] + "" == texts[0] && texts[0] + Split("")[0] == texts[0];
    } else {
      var rest := "," + Join(texts[1..]);
      JoinSplits(texts[1..]);
      assert rest[1..] == Join(texts[1..]);
      SplitPrefix(texts[0], rest);
      assert Join(texts) == texts[0] + rest && texts[0] + "" == texts[0];
      assert texts == [texts[0]] + texts[1..];
    }
  }

  /** The ports of several arguments, one behind the other. */
  function Ports(texts: seq<string>): seq<string> {
    if texts == [] then [] else Split(texts[0]) + Ports(texts[1..])
  }

  lemma {:induction false} JoinedPorts(chunks: seq<seq<string>>)
    requires forall i :: 0 <= i < |chunks| ==> chunks[i] != []
    requires forall i, j :: 0 <= i < |chunks| && 0 <= j < |chunks[i]| ==> ',' !in chunks[i][j]
    ensures Ports(JoinAll(chunks)) == Concat(chunks)
  {
    if chunks != [] {
      JoinSplits(chunks[0]);
      JoinedPorts(chunks[1..]);
      assert JoinAll(chunks)[1..] == JoinAll(chunks[1..]);
    }
  }

  /** How often the argument is negated, and the ports it names. */
  function Read(params: Params): (nat, seq<string>) {
    match params
    case Text(text) => (0, Split(text))
    case Rules(texts) => (0, Ports(texts))
    case Not(inner) => (Read(inner).0 + 1, Read(inner).1)
  }

  /** The same of the value that was parsed. */
  function Meant(value: PortValue): (nat, seq<string>) {
    match value
    case One(text) => (0, [text])
    case List(ports) => (0, ports)
    case Negated(inner) => (Meant(inner).0 + 1, Meant(inner).1)
  }

  lemma {:induction false} InChunks(chunks: seq<seq<string>>, i: nat, j: nat)
    requires i < |chunks| && j < |chunks[i]|
    ensures chunks[i][j] in Concat(chunks)
  {
    if i > 0 { InChunks(chunks[1..], i - 1, j); }
  }

  lemma {:induction false} JoinedReads(value: PortValue)
    requires Meant(value).1 != [] && forall port :: port in Meant(value).1 ==> ',' !in port
    ensures Read(JoinValue(value)) == Meant(value)
  {
    match value
    case One(text) =>
      assert Meant(value).1[0] == text;
      SplitPrefix(text, "");
      assert text + "" == text && text + Split("")[0] == text && Split("")[1..] == [];
      assert Split(text) == [text];
    case List(ports) => JoinSplits(ports);
    case Negated(inner) => JoinedReads(inner);
  }

  /** Cut into rules or not, an argument names the very ports that were given, in order, and as often negated. */
  lemma ArgumentReads(value: PortValue)
    requires (value.List? || Meant(value).1 != []) && forall port :: port in Meant(value).1 ==> ',' !in port
    ensures Read(Argument(value)) == Meant(value)
  {
    if value.List? {
      var chunks := Chunks(value.ports);
      ChunksLegal(value.ports);
      forall i, j | 0 <= i < |chunks| && 0 <= j < |chunks[i]| ensures ',' !in chunks[i][j] { InChunks(chunks, i, j); }
      JoinedPorts(chunks);
      if value.ports == [] {
        assert chunks == [] && JoinAll(chunks) == [];
      } else if |chunks| == 1 {
        OneRuleIff(value.ports);
        JoinSplits(value.ports);
        assert Read(Argument(value)) == (0, value.ports);
      } else {
        assert Read(Argument(value)) == (0, Concat(chunks));
      }
    } else {
      JoinedReads(value);
    }
  }
}
