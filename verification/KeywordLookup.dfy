/**
 * What a keyword means at the end of a run, read backwards off the run itself: the nearest statement of an
 * enclosing level that settles it. No level is built on the way.
 */
module KeywordLookup {
  import opened Seqs
  import opened KeywordScope

  /** Looking back from position `n`: where the level was opened that encloses the current one `d` levels up. */
  function Opener(ops: seq<Op>, n: nat, d: nat): (m: Option<nat>)
    requires n <= |ops|
    ensures m.Some? ==> m.value < n
  {
    if n == 0 then None
    else match ops[n - 1]
      case Open => if d == 0 then Some(n - 1) else Opener(ops, n - 1, d - 1)
      case Close => Opener(ops, n - 1, d + 1)
      case _ => Opener(ops, n - 1, d)
  }

  /** A merged module settles the keywords it declares, a domain all of them; a closed or a finished level none. */
  function Definition(contents: Contents, ops: seq<Op>, n: nat, k: string): Option<string>
    requires n <= |ops|
  {
    if n == 0 then None
    else match ops[n - 1]
      case Merge(name, _) =>
        if name in contents && k in contents[name] then Some(contents[name][k]) else Definition(contents, ops, n - 1, k)
      case SetDomain(family) =>
        if family in contents && k in contents[family] then Some(contents[family][k]) else None
      case Open => Definition(contents, ops, n - 1, k)
      case _ =>
        var m := Opener(ops, n - 1, 0);
        if m.None? then None else Definition(contents, ops, m.value, k)
  }

  /** The module a keyword came from: the last merge that names one; a domain's own keywords come from none. */
  function Mark(contents: Contents, ops: seq<Op>, n: nat, k: string): Option<string>
    requires n <= |ops|
  {
    if n == 0 then None
    else match ops[n - 1]
      case Merge(name, origin) =>
        if name in contents && k in contents[name] && origin.Some? then origin else Mark(contents, ops, n - 1, k)
      case SetDomain(_) => None
      case Open => Mark(contents, ops, n - 1, k)
      case _ =>
        var m := Opener(ops, n - 1, 0);
        if m.None? then None else Mark(contents, ops, m.value, k)
  }

  function Entry(table: map<string, string>, k: string): Option<string> {
    if k in table then Some(table[k]) else None
  }

  /** The levels after the first `n` steps. */
  function Levels(contents: Contents, ops: seq<Op>, n: nat): seq<Level>
    requires n <= |ops| && Disciplined(1, ops[..n])
  {
    Steps(contents, [EMPTY], ops[..n])
  }

  lemma {:induction false} DisciplinedPrefix(d: nat, ops: seq<Op>, n: nat)
    requires n <= |ops| && Disciplined(d, ops)
    ensures Disciplined(d, ops[..n])
    decreases n
  {
    if n > 0 {
      assert ops[..n][0] == ops[0] && ops[..n][1..] == ops[1..][..n - 1];
      DisciplinedPrefix(Deeper(d, ops[0]), ops[1..], n - 1);
    }
  }

  lemma {:induction false} StepsLast(contents: Contents, view: seq<Level>, ops: seq<Op>)
    requires view != [] && ops != [] && Disciplined(|view|, ops)
    ensures var front, last := ops[..|ops| - 1], ops[|ops| - 1];
            && Disciplined(|view|, front)
            && var before := Steps(contents, view, front);
               && before != [] && (last.Close? ==> |before| >= 2)
               && Steps(contents, view, ops) == Step(contents, before, last)
    decreases |ops|
  {
    if |ops| > 1 {
      var next := Step(contents, view, ops[0]);
      StepsLast(contents, next, ops[1..]);
      assert ops[..|ops| - 1][1..] == ops[1..][..|ops[1..]| - 1];
    } else {
      assert ops[1..] == [];
    }
  }

  lemma {:induction false} LevelsNext(contents: Contents, ops: seq<Op>, n: nat)
    requires 0 < n <= |ops| && Disciplined(1, ops)
    ensures Disciplined(1, ops[..n]) && Disciplined(1, ops[..n - 1])
    ensures var before := Levels(contents, ops, n - 1);
            && before != [] && (ops[n - 1].Close? ==> |before| >= 2)
            && Levels(contents, ops, n) == Step(contents, before, ops[n - 1])
  {
    DisciplinedPrefix(1, ops, n);
    StepsLast(contents, [EMPTY], ops[..n]);
    assert ops[..n][..n - 1] == ops[..n - 1];
  }

  /** The levels below an open one are those its opener found. */
  lemma {:induction false} OpenerFinds(contents: Contents, ops: seq<Op>, n: nat, d: nat)
    requires n <= |ops| && Disciplined(1, ops)
    ensures Disciplined(1, ops[..n])
    ensures var now, m := Levels(contents, ops, n), Opener(ops, n, d);
            && (m.Some? <==> d + 1 < |now|)
            && (m.Some? ==> Disciplined(1, ops[..m.value]) && Levels(contents, ops, m.value) == now[..|now| - 1 - d])
    decreases n
  {
    DisciplinedPrefix(1, ops, n);
    if n > 0 {
      LevelsNext(contents, ops, n);
      var op := ops[n - 1];
      OpenerFinds(contents, ops, n - 1, if op.Close? then d + 1 else if op.Open? && d > 0 then d - 1 else d);
    }
  }

  lemma NothingKnown(contents: Contents, ops: seq<Op>)
    ensures Disciplined(1, ops[..0]) && Levels(contents, ops, 0) == [EMPTY]
  {
  }

  /** What one step that neither closes nor finishes a level does to the meaning of a keyword. */
  lemma StepSettles(contents: Contents, before: seq<Level>, op: Op, k: string)
    requires before != [] && !op.Close? && !op.Reset?
    ensures var top, now := before[|before| - 1], Step(contents, before, op);
            var next := now[|now| - 1];
            match op
            case Merge(name, origin) =>
              if name in contents && k in contents[name] then
                && Entry(next.keywords, k) == Some(contents[name][k])
                && Entry(next.origins, k) == if origin.Some? then origin else Entry(top.origins, k)
              else Entry(next.keywords, k) == Entry(top.keywords, k) && Entry(next.origins, k) == Entry(top.origins, k)
            case SetDomain(family) =>
              && Entry(next.keywords, k) == (if family in contents then Entry(contents[family], k) else None)
              && Entry(next.origins, k) == None
            case _ => next == top
  {
  }

  /**
   * Lexical scoping: after any run of a fresh scope, the current level knows exactly the keywords that looking back
   * finds, with the definition and the mark found there.
   */
  lemma {:induction false} ScopeIsLexical(contents: Contents, ops: seq<Op>, n: nat, k: string)
    requires n <= |ops| && Disciplined(1, ops)
    ensures Disciplined(1, ops[..n]) && Levels(contents, ops, n) != []
    ensures var now := Levels(contents, ops, n);
            && Entry(now[|now| - 1].keywords, k) == Definition(contents, ops, n, k)
            && Entry(now[|now| - 1].origins, k) == Mark(contents, ops, n, k)
    decreases n
  {
    hide Levels, Disciplined, Opener;
    DisciplinedPrefix(1, ops, n);
    if n == 0 {
      NothingKnown(contents, ops);
    } else {
      LevelsNext(contents, ops, n);
      ScopeIsLexical(contents, ops, n - 1, k);
      if ops[n - 1].Close? || ops[n - 1].Reset? {
        OpenerFinds(contents, ops, n - 1, 0);
        var m := Opener(ops, n - 1, 0);
        if m.Some? { ScopeIsLexical(contents, ops, m.value, k); }
      } else {
        hide Step;
        StepSettles(contents, Levels(contents, ops, n - 1), ops[n - 1], k);
      }
    }
  }
}
