/** The lazy token queue: lines are lexed when the queue runs dry, line sentinels keep the position. */
module TokenStream {
  import opened Seqs

  /** A queue entry: a lexed text, a late-evaluated value put back by the parser, or a line sentinel. */
  datatype Token = Str(text: string) | Deferred(value: string) | Line(number: nat)

  /** A token and the line it stands on. */
  datatype Item = Item(token: Token, line: nat)

  function Strs(words: seq<string>): (r: seq<Token>)
    ensures |r| == |words| && forall i :: 0 <= i < |r| ==> r[i] == Str(words[i])
  {
    seq(|words|, i requires 0 <= i < |words| => Str(words[i]))
  }

  /** What reading the remaining lines, after the first `n`, will put into the queue. */
  function Eager(lines: seq<seq<string>>, n: nat): seq<Token>
    requires n <= |lines|
    decreases |lines| - n
  {
    if n == |lines| then [] else [Line(n + 1)] + Strs(lines[n]) + Eager(lines, n + 1)
  }

  /** The tokens still to come, each with its line; sentinels only move the line. */
  function Located(line: nat, ts: seq<Token>): seq<Item>
    decreases |ts|
  {
    if ts == [] then []
    else if ts[0].Line? then Located(ts[0].number, ts[1..])
    else [Item(ts[0], line)] + Located(line, ts[1..])
  }

  function LastLine(line: nat, ts: seq<Token>): nat
    decreases |ts|
  {
    if ts == [] then line else LastLine(if ts[0].Line? then ts[0].number else line, ts[1..])
  }

  lemma {:induction false} LocatedAppend(line: nat, a: seq<Token>, b: seq<Token>)
    ensures Located(line, a + b) == Located(line, a) + Located(LastLine(line, a), b)
    decreases |a|
  {
    if a == [] {
      assert a + b == b;
    } else {
      assert (a + b)[1..] == a[1..] + b;
      LocatedAppend(if a[0].Line? then a[0].number else line, a[1..], b);
    }
  }

  lemma {:induction false} StrsKeepLine(line: nat, words: seq<string>)
    ensures LastLine(line, Strs(words)) == line
    ensures |Located(line, Strs(words))| == |words|
    ensures forall i :: 0 <= i < |words| ==> Located(line, Strs(words))[i] == Item(Str(words[i]), line)
    decreases |words|
  {
    if words != [] {
      assert Strs(words)[1..] == Strs(words[1..]);
      StrsKeepLine(line, words[1..]);
    }
  }

  /** Leading sentinels dropped, each moving the line. */
  function Handled(line: nat, ts: seq<Token>): (r: (nat, seq<Token>))
    ensures |r.1| <= |ts| && (r.1 != [] ==> !r.1[0].Line?)
    decreases |ts|
  {
    if ts != [] && ts[0].Line? then Handled(ts[0].number, ts[1..]) else (line, ts)
  }

  datatype Read = Peek | Next | Raw

  /**
   * What a sequence of reads takes off the entries to come: a plain read takes the next token, if
   * there is one, behind its sentinels; a raw read takes the next entry, which counts unless it is
   * a sentinel; a peek takes sentinels alone.
   */
  function Served(line: nat, ts: seq<Token>, reads_: seq<Read>): seq<Item>
    decreases |reads_|
  {
    if reads_ == [] then []
    else match reads_[0]
      case Peek => Served(Handled(line, ts).0, Handled(line, ts).1, reads_[1..])
      case Next =>
        var (at, rest) := Handled(line, ts);
        if rest == [] then Served(at, rest, reads_[1..])
        else [Item(rest[0], at)] + Served(at, rest[1..], reads_[1..])
      case Raw =>
        if ts == [] then Served(line, ts, reads_[1..])
        else if ts[0].Line? then Served(ts[0].number, ts[1..], reads_[1..])
        else [Item(ts[0], line)] + Served(line, ts[1..], reads_[1..])
  }

  lemma {:induction false} HandledKeeps(line: nat, ts: seq<Token>)
    ensures Located(Handled(line, ts).0, Handled(line, ts).1) == Located(line, ts)
    decreases |ts|
  {
    if ts != [] && ts[0].Line? { HandledKeeps(ts[0].number, ts[1..]); }
  }

  /** Plain reads alone are served the tokens to come one by one until none is left. */
  lemma {:induction false} PlainReadsServe(line: nat, ts: seq<Token>, reads_: seq<Read>)
    requires forall i :: 0 <= i < |reads_| ==> reads_[i].Next?
    ensures Served(line, ts, reads_)
            == Located(line, ts)[..if |reads_| < |Located(line, ts)| then |reads_| else |Located(line, ts)|]
    decreases |reads_|
  {
    if reads_ != [] {
      HandledKeeps(line, ts);
      var (at, rest) := Handled(line, ts);
      PlainReadsServe(at, if rest == [] then [] else rest[1..], reads_[1..]);
    }
  }

  class Script {
    const lines: seq<seq<string>>
    var read: nat
    var attached: bool
    var line: nat
    var tokens: seq<Token>

    constructor (lines: seq<seq<string>>)
      ensures this.lines == lines && Valid() && attached && tokens == []
      ensures View() == Located(0, Eager(lines, 0))
    {
      this.lines, this.read, this.attached, this.line, this.tokens := lines, 0, true, 0, [];
      new;
      assert [] + Eager(lines, 0) == Eager(lines, 0);
    }

    /** The sentinels in the queue are those of the lines read. */
    ghost predicate Valid()
      reads this
    {
      read <= |lines| && (attached ==> LastLine(line, tokens) == read)
    }

    /** Everything still to be delivered, with its line. */
    ghost function View(): seq<Item>
      requires read <= |lines|
      reads this
    {
      Located(line, Entries())
    }

    /** The same with the sentinels. */
    ghost function Entries(): seq<Token>
      requires read <= |lines|
      reads this
    {
      tokens + Behind()
    }

    ghost function Behind(): seq<Token>
      requires read <= |lines|
      reads this
    {
      if attached then Eager(lines, read) else []
    }

    /** Fills an empty queue from the next line. */
    method PrepareTokens() returns (more: bool)
      requires read <= |lines|
      modifies this`tokens, this`read
      ensures old(Valid()) ==> Valid() && Entries() == old(Entries())
      ensures old(read) <= read <= |lines| && (more <==> tokens != []) && (!more ==> Entries() == [])
      ensures if old(tokens) != [] then tokens == old(tokens) && read == old(read)
              else if !attached || old(read) == |lines| then tokens == [] && read == old(read)
              else tokens == [Line(line + 1)] + Strs(lines[old(read)]) && read == old(read) + 1
    {
      while tokens == []
        invariant old(Valid()) ==> Valid() && Entries() == old(Entries())
        invariant old(read) <= read <= |lines|
        invariant if old(tokens) != [] || tokens == [] then tokens == old(tokens) && read == old(read)
                  else attached && old(read) < |lines| && read == old(read) + 1
                       && tokens == [Line(line + 1)] + Strs(lines[old(read)])
        decreases |lines| - read
      {
        hide Located, LastLine, Strs, Eager;
        if !attached { return false; }
        if read == |lines| {
          EagerEnds(lines);
          return false;
        }
        var words := lines[read];
        EmptyQueueLine(line);
        LineRead(line, words);
        EagerNext(lines, read);
        tokens := [Line(line + 1)] + Strs(words);
        read := read + 1;
      }
      more := true;
    }

    /** Drops leading sentinels; each moves the line. */
    method HandleSpecialTokens()
      requires Valid()
      modifies this`tokens, this`line
      ensures Valid() && Handled(line, Entries()) == Handled(old(line), old(Entries()))
      ensures |tokens| <= |old(tokens)| && (tokens != [] ==> !tokens[0].Line?)
    {
      while tokens != [] && tokens[0].Line?
        invariant Valid() && Handled(line, Entries()) == Handled(old(line), old(Entries())) && |tokens| <= |old(tokens)|
        decreases |tokens|
      {
        assert (tokens + Behind())[1..] == tokens[1..] + Behind();
        line := tokens[0].number;
        tokens := tokens[1..];
      }
    }

    /** Makes the queue start with a token, reading as many lines as that takes. */
    method PrepareNormalTokens() returns (more: bool)
      requires Valid()
      modifies this`tokens, this`read, this`line
      ensures Valid() && (line, Entries()) == Handled(old(line), old(Entries())) && View() == old(View())
      ensures (more <==> tokens != []) && (!more ==> Entries() == [])
      ensures tokens != [] ==> !tokens[0].Line?
    {
      HandledKeeps(line, Entries());
      while true
        invariant Valid() && Handled(line, Entries()) == Handled(old(line), old(Entries()))
        decreases |lines| - read
      {
        HandleSpecialTokens();
        if tokens != [] { return true; }
        var filled := PrepareTokens();
        if !filled { return false; }
      }
    }

    /** The next token, left in place; the line is now that token's line. */
    method PeekToken() returns (token: Option<Token>)
      requires Valid()
      modifies this`tokens, this`read, this`line
      ensures Valid() && View() == old(View()) && (line, Entries()) == Handled(old(line), old(Entries()))
      ensures if View() == [] then token == None else token == Some(View()[0].token) && line == View()[0].line
    {
      var more := PrepareNormalTokens();
      if !more { return None; }
      token := Some(tokens[0]);
    }

    /** The next token, consumed. */
    method NextToken() returns (token: Option<Token>)
      requires Valid()
      modifies this`tokens, this`read, this`line
      ensures Valid()
      ensures var (at, rest) := Handled(old(line), old(Entries()));
              && line == at && token == (if rest == [] then None else Some(rest[0]))
              && Entries() == if rest == [] then [] else rest[1..]
      ensures if old(View()) == [] then token == None && View() == []
              else token == Some(old(View())[0].token) && line == old(View())[0].line && View() == old(View())[1..]
    {
      var more := PrepareNormalTokens();
      if !more { return None; }
      assert (tokens + Behind())[1..] == tokens[1..] + Behind();
      token := Some(tokens[0]);
      tokens := tokens[1..];
    }

    /** The next queue entry, sentinels included; it is the caller's to handle one. */
    method NextRawToken() returns (token: Option<Token>)
      requires read <= |lines|
      modifies this`tokens, this`read
      ensures old(read) <= read <= |lines|
      ensures old(Valid()) ==>
                if token == None then Valid() && old(View()) == [] && View() == []
                else if token.value.Line? then
                  (attached ==> LastLine(token.value.number, tokens) == read)
                  && old(View()) == Located(token.value.number, tokens + Behind())
                else Valid() && old(View()) == [Item(token.value, line)] + View()
      ensures old(Valid()) ==>
                if old(Entries()) == [] then token == None && Entries() == []
                else token == Some(old(Entries())[0]) && Entries() == old(Entries())[1..]
      ensures var queue := if old(tokens) == [] && attached && old(read) < |lines|
                           then [Line(line + 1)] + Strs(lines[old(read)]) else old(tokens);
              && (if queue == [] then token == None && tokens == [] else token == Some(queue[0]) && tokens == queue[1..])
              && read == if queue == old(tokens) then old(read) else old(read) + 1
    {
      hide Located, LastLine, Eager, Strs;
      NothingLeft(line);
      var more := PrepareTokens();
      if !more { return None; }
      FirstEntry(line, tokens, Behind());
      assert (tokens + Behind())[1..] == tokens[1..] + Behind();
      token := Some(tokens[0]);
      tokens := tokens[1..];
    }

    /** A raw read whose caller handles the sentinel it may get. */
    method ReadRaw() returns (token: Option<Token>)
      requires Valid()
      modifies this`tokens, this`read, this`line
      ensures Valid()
      ensures if token.Some? && !token.value.Line? then old(View()) == [Item(token.value, line)] + View()
              else View() == old(View())
      ensures token == None ==> View() == []
      ensures var ts := old(Entries());
              if ts == [] then token == None && Entries() == [] && line == old(line)
              else token == Some(ts[0]) && Entries() == ts[1..]
                   && line == if ts[0].Line? then ts[0].number else old(line)
    {
      token := NextRawToken();
      if token.Some? && token.value.Line? {
        line := token.value.number;
      }
    }

    /**
     * Reading everything raw and handling no sentinel, as the structural pass does: the current line never
     * moves, so the sentinel of every line carries the same number.
     */
    method DrainRaw() returns (out: seq<Token>)
      requires Valid() && tokens == [] && attached
      modifies this`tokens, this`read
      ensures out == Unhandled(lines, old(read), line) && line == old(line)
    {
      out := [];
      while true
        invariant read <= |lines| && attached
        invariant out + (tokens + Unhandled(lines, read, line)) == Unhandled(lines, old(read), line)
        decreases |lines| - read, |tokens|
      {
        hide Located, LastLine, Eager, Unhandled, Strs;
        ghost var n, queue := read, tokens;
        ghost var full := if queue == [] && n < |lines| then [Line(line + 1)] + Strs(lines[n]) else queue;
        var token := NextRawToken();
        if token == None { break; }
        UnhandledNext(lines, n, line, queue, full, out);
        out := out + [token.value];
      }
      assert out + (tokens + []) == out;
    }

    /** One read, and what it is due in front of the `later` ones. */
    method Serve(read_: Read, ghost later: seq<Read>) returns (got: seq<Item>)
      requires Valid()
      modifies this`tokens, this`read, this`line
      ensures Valid() && old(View()) == got + View()
      ensures Served(old(line), old(Entries()), [read_] + later) == got + Served(line, Entries(), later)
    {
      assert ([read_] + later)[1..] == later;
      hide Located, LastLine, Handled;
      got := [];
      var token;
      match read_ {
        case Peek => token := PeekToken();
        case Next =>
          token := NextToken();
          if token.Some? { got := [Item(token.value, line)]; }
        case Raw =>
          token := ReadRaw();
          if token.Some? && !token.value.Line? { got := [Item(token.value, line)]; }
      }
    }

    /** Any interleaving of reads delivers exactly what each of them is due, in order and on its own line. */
    method Deliver(reads_: seq<Read>) returns (got: seq<Item>)
      requires Valid()
      modifies this`tokens, this`read, this`line
      ensures Valid() && old(View()) == got + View()
      ensures got == Served(old(line), old(Entries()), reads_)
      decreases |reads_|
    {
      if reads_ == [] { return []; }
      hide Located, LastLine, Handled, Eager;
      var first := Serve(reads_[0], reads_[1..]);
      assert [reads_[0]] + reads_[1..] == reads_;
      hide Served, Entries, View, Valid, Behind;
      var rest := Deliver(reads_[1..]);
      got := first + rest;
    }
  }

  lemma EmptyQueueLine(line: nat)
    ensures LastLine(line, []) == line
  {
  }

  lemma EagerEnds(lines: seq<seq<string>>)
    ensures Eager(lines, |lines|) == []
  {
  }

  lemma EagerNext(lines: seq<seq<string>>, n: nat)
    requires n < |lines|
    ensures [] + Eager(lines, n) == ([Line(n + 1)] + Strs(lines[n])) + Eager(lines, n + 1)
    ensures [Line(n + 1)] + Strs(lines[n]) != []
  {
  }

  lemma NothingLeft(line: nat)
    ensures Located(line, []) == []
  {
  }

  /** Taking the first entry off. */
  lemma FirstEntry(line: nat, ts: seq<Token>, rest: seq<Token>)
    requires ts != []
    ensures var now := if ts[0].Line? then ts[0].number else line;
            && LastLine(line, ts) == LastLine(now, ts[1..])
            && Located(line, ts + rest)
               == (if ts[0].Line? then [] else [Item(ts[0], line)]) + Located(now, ts[1..] + rest)
  {
    assert (ts + rest)[1..] == ts[1..] + rest;
  }

  /** The raw entries of the lines after the first `n` when the current line stays at `line`. */
  function Unhandled(lines: seq<seq<string>>, n: nat, line: nat): seq<Token>
    requires n <= |lines|
    decreases |lines| - n
  {
    if n == |lines| then [] else ([Line(line + 1)] + Strs(lines[n])) + Unhandled(lines, n + 1, line)
  }

  lemma Shift<T>(out: seq<T>, x: T, rest: seq<T>, tail: seq<T>)
    ensures out + (([x] + rest) + tail) == (out + [x]) + (rest + tail)
  {
  }

  /** Taking one raw entry, from the queue or from the next line, moves it to the output. */
  lemma UnhandledNext(lines: seq<seq<string>>, n: nat, line: nat, queue: seq<Token>, full: seq<Token>, out: seq<Token>)
    requires n <= |lines| && full != []
    requires full == if queue == [] && n < |lines| then [Line(line + 1)] + Strs(lines[n]) else queue
    ensures var m := if queue == [] then n + 1 else n;
            m <= |lines|
            && out + (queue + Unhandled(lines, n, line)) == (out + [full[0]]) + (full[1..] + Unhandled(lines, m, line))
  {
    hide Strs;
    var m := if queue == [] then n + 1 else n;
    assert full == [full[0]] + full[1..];
    assert queue + Unhandled(lines, n, line) == full + Unhandled(lines, m, line) by {
      if queue == [] { assert queue + Unhandled(lines, n, line) == Unhandled(lines, n, line); }
    }
    Shift(out, full[0], full[1..], Unhandled(lines, m, line));
  }

  /** One line's entries: its sentinel moves the line, its tokens keep it. */
  lemma LineRead(line: nat, words: seq<string>)
    ensures LastLine(line, [Line(line + 1)] + Strs(words)) == line + 1
  {
    StrsKeepLine(line + 1, words);
    assert ([Line(line + 1)] + Strs(words))[1..] == Strs(words);
  }

  // --- against eager lexing -----------------------------------------------------------

  /** Every token of every line from the `n`-th on, with its line number. */
  function Lexed(lines: seq<seq<string>>, n: nat): seq<Item>
    requires n <= |lines|
    decreases |lines| - n
  {
    if n == |lines| then []
    else seq(|lines[n]|, i requires 0 <= i < |lines[n]| => Item(Str(lines[n][i]), n + 1)) + Lexed(lines, n + 1)
  }

  /** What a fresh script delivers is what lexing every line at once gives. */
  lemma {:induction false} EagerLocated(lines: seq<seq<string>>, n: nat, line: nat)
    requires n <= |lines|
    ensures Located(line, Eager(lines, n)) == Lexed(lines, n)
    decreases |lines| - n
  {
    if n < |lines| {
      EagerLocated(lines, n + 1, n + 1);
      StrsKeepLine(n + 1, lines[n]);
      LocatedAppend(n + 1, Strs(lines[n]), Eager(lines, n + 1));
      assert ([Line(n + 1)] + Strs(lines[n]) + Eager(lines, n + 1))[1..] == Strs(lines[n]) + Eager(lines, n + 1);
      assert Located(n + 1, Strs(lines[n]))
          == seq(|lines[n]|, i requires 0 <= i < |lines[n]| => Item(Str(lines[n][i]), n + 1));
    }
  }
}
