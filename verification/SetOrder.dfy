/** The order of a canonicalised set, told by what the elements mean: classes first, then values, then spelling. */
module SetOrder {
  import opened Ordering
  import opened SetElements
  import opened SetPipeline
  import opened SetLaws

  /** Numbers, then intervals, addresses, protocol names, quoted names, and what cannot be read. */
  function Class(f: Form): nat {
    match f
    case Numeric(_) => 0
    case Ports(_, _) => 1
    case Range(_, _, _) => 1
    case Network(_, _, _) => 2
    case Protocol(_) => 3
    case Quoted => 4
    case Unparsable => 5
  }

  /** Version 4 in front of version 6. */
  predicate EarlierVersion(v: Version, w: Version) {
    v.V4? && w.V6?
  }

  /** Within one class: by value. A port interval and an address interval compare by the version number first. */
  predicate LowerValue(f: Form, g: Form)
    requires Class(f) == Class(g) && WellFormed(f) && WellFormed(g)
  {
    match (f, g)
    case (Numeric(m), Numeric(n)) => m < n
    case (Ports(a, b), Ports(c, d)) => a < c || (a == c && b < d)
    case (Range(v, a, b), Range(w, c, d)) => EarlierVersion(v, w) || (v == w && (a < c || (a == c && b < d)))
    case (Ports(a, b), Range(v, c, d)) =>
      var version := if v.V4? then 4 else 6; a < version || (a == version && b <= c)
    case (Range(v, a, b), Ports(c, d)) =>
      var version := if v.V4? then 4 else 6; version < c || (version == c && a < d)
    case (Network(v, _, p), Network(w, _, q)) =>
      EarlierVersion(v, w)
      || (v == w && (Denotes(f).lo < Denotes(g).lo || (Denotes(f).lo == Denotes(g).lo && p < q)))
    case (Protocol(m), Protocol(n)) => m < n
    case _ => false
  }

  /** The two elements stand as the order wants them; elements of one value stand by their text. */
  predicate InPlace(sp: Spelling, s: string, t: string)
    requires WellFormed(sp.parse(s)) && WellFormed(sp.parse(t))
  {
    var f, g := sp.parse(s), sp.parse(t);
    || Class(f) < Class(g)
    || (Class(f) == Class(g)
        && (LowerValue(f, g) || f.Unparsable? || (!LowerValue(g, f) && (s == t || Less(s, t)))))
  }

  // --- comparing keys ---------------------------------------------------------------

  lemma {:induction false} LexStem(a: seq<int>, b: seq<int>, x: seq<int>, y: seq<int>)
    requires |a| == |b|
    ensures LexLess(a + x, b + y) <==> LexLess(a, b) || (a == b && LexLess(x, y))
  {
    if a == [] {
      assert a + x == x && b + y == y;
    } else {
      assert (a + x)[1..] == a[1..] + x && (b + y)[1..] == b[1..] + y;
      assert a == [a[0]] + a[1..] && b == [b[0]] + b[1..];
      LexStem(a[1..], b[1..], x, y);
    }
  }

  /** One number ahead of the rest. */
  lemma LexHead(m: int, n: int, x: seq<int>, y: seq<int>)
    ensures LexLess([m] + x, [n] + y) <==> m < n || (m == n && LexLess(x, y))
  {
    assert ([m] + x)[1..] == x && ([n] + y)[1..] == y;
  }

  lemma LexThree(a: int, b: int, c: int, a': int, b': int, c': int, x: seq<int>, y: seq<int>)
    ensures LexLess([a, b, c] + x, [a', b', c'] + y)
       <==> a < a' || (a == a' && (b < b' || (b == b' && (c < c' || (c == c' && LexLess(x, y))))))
  {
    assert [a, b, c] + x == [a] + ([b] + ([c] + x)) && [a', b', c'] + y == [a'] + ([b'] + ([c'] + y));
    LexHead(a, a', [b] + ([c] + x), [b'] + ([c'] + y));
    LexHead(b, b', [c] + x, [c'] + y);
    LexHead(c, c', x, y);
  }

  /** The key starts with the class. */
  lemma KeyClass(sp: Spelling, i: nat, t: string)
    ensures |Key(sp, i, t)| >= 2 && Key(sp, i, t)[0] == Class(sp.parse(t))
  {
  }

  /** What follows the class in a key. */
  lemma KeyRest(sp: Spelling, i: nat, t: string)
    requires WellFormed(sp.parse(t))
    ensures Key(sp, i, t) == [Class(sp.parse(t))] + KeyTail(sp, i, t)
  {
  }

  function KeyTail(sp: Spelling, i: nat, t: string): seq<int>
    requires WellFormed(sp.parse(t))
  {
    var f := sp.parse(t);
    match f
    case Numeric(n) => [n, -1] + Codes(t)
    case Ports(first, last) => [first, last, -1] + Codes(t)
    case Range(v, low, high) => [if v.V4? then 4 else 6, low, high] + ([-1] + Codes(t))
    case Network(v, _, prefix) => [if v.V4? then 4 else 6, Denotes(f).lo, prefix] + ([-1] + Codes(t))
    case Protocol(n) => [n, -1] + Codes(t)
    case Quoted => [-1] + Codes(t)
    case Unparsable => [i]
  }

  lemma TwoStem(a: int, b: int, s: string, t: string)
    ensures LexLess([a, -1] + Codes(s), [b, -1] + Codes(t)) <==> a < b || (a == b && Less(s, t))
  {
    assert [a, -1] + Codes(s) == [a] + ([-1] + Codes(s)) && [b, -1] + Codes(t) == [b] + ([-1] + Codes(t));
    LexHead(a, b, [-1] + Codes(s), [-1] + Codes(t));
    LexHead(-1, -1, Codes(s), Codes(t));
  }

  /** Inside one class, the tails compare as the values and then the texts do. */
  lemma TailsCompare(sp: Spelling, i: nat, j: nat, s: string, t: string)
    requires WellFormed(sp.parse(s)) && WellFormed(sp.parse(t)) && Class(sp.parse(s)) == Class(sp.parse(t))
    requires !sp.parse(s).Unparsable?
    ensures var f, g := sp.parse(s), sp.parse(t);
            LexLess(KeyTail(sp, i, s), KeyTail(sp, j, t))
            <==> LowerValue(f, g) || (!LowerValue(g, f) && Less(s, t))
  {
    hide LexLess, Less, Codes;
    match (sp.parse(s), sp.parse(t))
    case (Numeric(m), Numeric(n)) => TwoStem(m, n, s, t);
    case (Protocol(m), Protocol(n)) => TwoStem(m, n, s, t);
    case (Quoted, Quoted) => QuotedTails(s, t);
    case (Ports(a, b), Ports(c, d)) => LexThree(a, b, -1, c, d, -1, Codes(s), Codes(t)); TextsCompare(s, t);
    case (Range(v, a, b), Range(w, c, d)) => RangesCompare(sp, i, j, s, t);
    case (Ports(a, b), Range(v, c, d)) =>
      LexThree(a, b, -1, if v.V4? then 4 else 6, c, d, Codes(s), [-1] + Codes(t));
    case (Range(v, a, b), Ports(c, d)) =>
      LexThree(if v.V4? then 4 else 6, a, b, c, d, -1, [-1] + Codes(s), Codes(t));
    case _ => NetworksCompare(sp, i, j, s, t);
  }

  lemma TextsCompare(s: string, t: string)
    ensures LexLess(Codes(s), Codes(t)) <==> Less(s, t)
  {
  }

  lemma QuotedTails(s: string, t: string)
    ensures LexLess([-1] + Codes(s), [-1] + Codes(t)) <==> Less(s, t)
  {
    LexHead(-1, -1, Codes(s), Codes(t));
  }

  lemma RangesCompare(sp: Spelling, i: nat, j: nat, s: string, t: string)
    requires WellFormed(sp.parse(s)) && WellFormed(sp.parse(t)) && sp.parse(s).Range? && sp.parse(t).Range?
    ensures var f, g := sp.parse(s), sp.parse(t);
            LexLess(KeyTail(sp, i, s), KeyTail(sp, j, t))
            <==> LowerValue(f, g) || (!LowerValue(g, f) && Less(s, t))
  {
    hide LexLess, Less, Codes;
    var f, g := sp.parse(s), sp.parse(t);
    LexThree(if f.version.V4? then 4 else 6, f.low, f.high, if g.version.V4? then 4 else 6, g.low, g.high,
             [-1] + Codes(s), [-1] + Codes(t));
    QuotedTails(s, t);
  }

  lemma NetworksCompare(sp: Spelling, i: nat, j: nat, s: string, t: string)
    requires WellFormed(sp.parse(s)) && WellFormed(sp.parse(t)) && sp.parse(s).Network? && sp.parse(t).Network?
    ensures var f, g := sp.parse(s), sp.parse(t);
            LexLess(KeyTail(sp, i, s), KeyTail(sp, j, t))
            <==> LowerValue(f, g) || (!LowerValue(g, f) && Less(s, t))
  {
    hide LexLess, Less, Codes, Denotes;
    var f, g := sp.parse(s), sp.parse(t);
    LexThree(if f.version.V4? then 4 else 6, Denotes(f).lo, f.prefix, if g.version.V4? then 4 else 6, Denotes(g).lo,
             g.prefix, [-1] + Codes(s), [-1] + Codes(t));
    QuotedTails(s, t);
  }

  // --- the order of the sorted list ---------------------------------------------------

  /** Of any two elements, the one sorted first is the one whose class, value and then text come first. */
  lemma SortedInPlace(sp: Spelling, xs: seq<string>, i: nat, j: nat)
    requires Lawful(sp) && i < j < |xs|
    ensures |SortTexts(sp, xs)| == |xs| && InPlace(sp, SortTexts(sp, xs)[i], SortTexts(sp, xs)[j])
  {
    hide LexLess, Less, LowerValue;
    SortMembers(sp, xs);
    var s, t := SortTexts(sp, xs)[i], SortTexts(sp, xs)[j];
    PairStaysSorted(sp, xs, i, j);
    KeyRest(sp, i, s);
    KeyRest(sp, j, t);
    hide Key, KeyTail;
    LexHead(Class(sp.parse(t)), Class(sp.parse(s)), KeyTail(sp, j, t), KeyTail(sp, i, s));
    if Class(sp.parse(s)) == Class(sp.parse(t)) && !sp.parse(t).Unparsable? {
      TailsCompare(sp, j, i, t, s);
      Total(s, t);
    }
  }

  /** So does the whole canonicaliser. */
  lemma PipelineInPlace(sp: Spelling, xs: seq<string>, absorb: bool, i: nat, j: nat)
    requires Lawful(sp) && i < j < |Pipeline(sp, xs, absorb)|
    ensures InPlace(sp, Pipeline(sp, xs, absorb)[i], Pipeline(sp, xs, absorb)[j])
  {
    hide InPlace, Canonicals;
    var c := Canonicals(sp, xs);
    var kept := if absorb then DropContained(sp, c) else c;
    SortMembers(sp, kept);
    SortedInPlace(sp, kept, i, j);
  }

  /** What cannot be read, in order. */
  function Unread(sp: Spelling, xs: seq<string>): seq<string> {
    if xs == [] then []
    else Unread(sp, xs[..|xs| - 1]) + if sp.parse(xs[|xs| - 1]).Unparsable? then [xs[|xs| - 1]] else []
  }

  function UnreadKeys(ks: seq<Keyed>): (r: seq<Keyed>)
    ensures forall k :: k in r <==> k in ks && k.key != [] && k.key[0] == 5
  {
    if ks == [] then []
    else
      var last, r := ks[|ks| - 1], UnreadKeys(ks[..|ks| - 1]);
      assert ks == ks[..|ks| - 1] + [last];
      r + if last.key != [] && last.key[0] == 5 then [last] else []
  }

  lemma {:induction false} UnreadKeysCount(ks: seq<Keyed>, k: Keyed)
    ensures multiset(UnreadKeys(ks))[k] == if k.key != [] && k.key[0] == 5 then multiset(ks)[k] else 0
  {
    if ks != [] {
      UnreadKeysCount(ks[..|ks| - 1], k);
      assert ks == ks[..|ks| - 1] + [ks[|ks| - 1]];
    }
  }

  lemma {:induction false} UnreadKeysOrder(ks: seq<Keyed>)
    requires InOrder(ks)
    ensures InOrder(UnreadKeys(ks))
  {
    if ks != [] {
      var front, last := ks[..|ks| - 1], ks[|ks| - 1];
      UnreadKeysOrder(front);
      forall i | 0 <= i < |UnreadKeys(front)| ensures !LexLess(last.key, UnreadKeys(front)[i].key) {
        assert UnreadKeys(front)[i] in front;
      }
    }
  }

  /** The unreadable entries of a numbered list, read off one by one. */
  lemma UnreadDecoratedNext(sp: Spelling, xs: seq<string>)
    requires xs != []
    ensures var front, last := xs[..|xs| - 1], xs[|xs| - 1];
            UnreadKeys(Decorate(sp, xs))
            == UnreadKeys(Decorate(sp, front)) + if sp.parse(last).Unparsable? then [Keyed([5, |front|], last)] else []
  {
    hide Key, UnreadKeys;
    var n, last := |xs| - 1, xs[|xs| - 1];
    assert Decorate(sp, xs) == Decorate(sp, xs[..n]) + [Keyed(Key(sp, n, last), last)];
    UnreadSnoc(Decorate(sp, xs[..n]), Keyed(Key(sp, n, last), last));
    KeyClass(sp, n, last);
    if sp.parse(last).Unparsable? { UnreadKey(sp, n, last); }
  }

  lemma UnreadSnoc(ks: seq<Keyed>, k: Keyed)
    ensures UnreadKeys(ks + [k]) == UnreadKeys(ks) + if k.key != [] && k.key[0] == 5 then [k] else []
  {
    assert (ks + [k])[..|ks|] == ks;
  }

  lemma UnreadKey(sp: Spelling, n: nat, t: string)
    requires sp.parse(t).Unparsable?
    ensures Key(sp, n, t) == [5, n]
  {
  }

  lemma {:induction false} UnreadDecorated(sp: Spelling, xs: seq<string>)
    ensures Texts(UnreadKeys(Decorate(sp, xs))) == Unread(sp, xs)
  {
    hide Decorate, Key;
    if xs == [] {
      assert Decorate(sp, xs) == [];
    } else {
      UnreadDecorated(sp, xs[..|xs| - 1]);
      UnreadDecoratedNext(sp, xs);
    }
  }

  /** They carry their positions, in order. */
  lemma {:induction false} UnreadNumbered(sp: Spelling, xs: seq<string>)
    ensures InOrder(UnreadKeys(Decorate(sp, xs))) && DistinctKeys(UnreadKeys(Decorate(sp, xs)))
    ensures forall k :: k in UnreadKeys(Decorate(sp, xs)) ==> |k.key| == 2 && k.key[0] == 5 && k.key[1] < |xs|
  {
    hide Decorate, Key, LexLess, UnreadKeys;
    if xs == [] {
      NoneUnread(sp, xs);
    } else {
      var front, last := xs[..|xs| - 1], xs[|xs| - 1];
      UnreadNumbered(sp, front);
      UnreadDecoratedNext(sp, xs);
      var r := UnreadKeys(Decorate(sp, front));
      forall i | 0 <= i < |r| ensures !LexLess([5, |front|], r[i].key) && [5, |front|] != r[i].key {
        assert r[i] in r;
        LastComesLast(r[i].key, |front|);
      }
    }
  }

  lemma NoneUnread(sp: Spelling, xs: seq<string>)
    requires xs == []
    ensures UnreadKeys(Decorate(sp, xs)) == []
  {
  }

  lemma LastComesLast(key: seq<int>, n: nat)
    requires |key| == 2 && key[0] == 5 && key[1] < n
    ensures !LexLess([5, n], key) && [5, n] != key
  {
    assert [5, n][1..] == [n] && [5, n][1] == n;
  }

  lemma UnreadSorted(sp: Spelling, xs: seq<string>)
    ensures UnreadKeys(SortKeyed(Decorate(sp, xs))) == UnreadKeys(Decorate(sp, xs))
  {
    hide Decorate, UnreadKeys, SortKeyed;
    var d := Decorate(sp, xs);
    var ks := SortKeyed(d);
    SortOrders(d);
    UnreadKeysOrder(ks);
    UnreadNumbered(sp, xs);
    forall k ensures multiset(UnreadKeys(ks))[k] == multiset(UnreadKeys(d))[k] {
      UnreadKeysCount(ks, k);
      UnreadKeysCount(d, k);
    }
    assert multiset(UnreadKeys(ks)) == multiset(UnreadKeys(d));
    OrderUnique(UnreadKeys(d), UnreadKeys(ks));
  }

  /** What cannot be read keeps its order. */
  lemma UnreadKeepOrder(sp: Spelling, xs: seq<string>)
    ensures Unread(sp, SortTexts(sp, xs)) == Unread(sp, xs)
  {
    hide Key, UnreadKeys, SortKeyed, Unread;
    var ks := SortKeyed(Decorate(sp, xs));
    UnreadSorted(sp, xs);
    UnreadDecorated(sp, xs);
    SortMembers(sp, xs);
    forall i | 0 <= i < |ks| ensures ks[i].key != [] && (ks[i].key[0] == 5 <==> sp.parse(ks[i].text).Unparsable?) {
      var i' := SortedKeys(sp, xs, i);
      KeyClass(sp, i', ks[i].text);
    }
    UnreadTexts(sp, ks);
  }

  lemma {:induction false} UnreadTexts(sp: Spelling, ks: seq<Keyed>)
    requires forall i :: 0 <= i < |ks| ==> ks[i].key != [] && (ks[i].key[0] == 5 <==> sp.parse(ks[i].text).Unparsable?)
    ensures Texts(UnreadKeys(ks)) == Unread(sp, Texts(ks))
  {
    if ks != [] {
      UnreadTexts(sp, ks[..|ks| - 1]);
      assert Texts(ks)[..|ks| - 1] == Texts(ks[..|ks| - 1]);
    }
  }

  // --- through the whole canonicaliser ------------------------------------------------

  lemma DedupSnoc(xs: seq<string>, x: string)
    ensures Dedup(xs + [x]) == if x in xs then Dedup(xs) else Dedup(xs) + [x]
  {
    assert (xs + [x])[..|xs|] == xs;
  }

  lemma UnreadNext(sp: Spelling, xs: seq<string>, x: string)
    ensures Unread(sp, xs + [x]) == Unread(sp, xs) + if sp.parse(x).Unparsable? then [x] else []
  {
    assert (xs + [x])[..|xs|] == xs;
  }

  lemma {:induction false} UnreadMembers(sp: Spelling, xs: seq<string>, x: string)
    ensures x in Unread(sp, xs) <==> x in xs && sp.parse(x).Unparsable?
  {
    if xs != [] {
      UnreadMembers(sp, xs[..|xs| - 1], x);
      assert xs == xs[..|xs| - 1] + [xs[|xs| - 1]];
    }
  }

  /** What cannot be read is not rewritten, and nothing is rewritten to it. */
  lemma RewriteUnread(sp: Spelling, t: string, e: string)
    requires Lawful(sp) && sp.parse(e).Unparsable?
    ensures CanonicalText(sp, t) == e <==> t == e
  {
    CanonicalTextReads(sp, t);
  }

  lemma {:induction false} DedupUnread(sp: Spelling, xs: seq<string>)
    requires Lawful(sp)
    ensures Unread(sp, Canonicals(sp, xs)) == Dedup(Unread(sp, xs))
  {
    hide Unread, Dedup, Lawful, CanonicalText;
    if xs == [] {
      assert Rewrite(sp, xs) == [];
      NoneLeft(sp);
    } else {
      var front, last := xs[..|xs| - 1], xs[|xs| - 1];
      DedupUnread(sp, front);
      assert xs == front + [last] && Rewrite(sp, xs) == Rewrite(sp, front) + [CanonicalText(sp, last)];
      DedupSnoc(Rewrite(sp, front), CanonicalText(sp, last));
      UnreadNext(sp, front, last);
      UnreadNext(sp, Canonicals(sp, front), CanonicalText(sp, last));
      DedupSnoc(Unread(sp, front), last);
      UnreadLast(sp, front, last);
      assert Unread(sp, front) + [] == Unread(sp, front);
      assert Unread(sp, Canonicals(sp, front)) + [] == Unread(sp, Canonicals(sp, front));
    }
  }

  /** One more element is unreadable, and met before, after the rewriting exactly if it was so in front of it. */
  lemma UnreadLast(sp: Spelling, front: seq<string>, last: string)
    requires Lawful(sp)
    ensures sp.parse(CanonicalText(sp, last)).Unparsable? <==> sp.parse(last).Unparsable?
    ensures sp.parse(last).Unparsable? ==>
              && CanonicalText(sp, last) == last
              && (last in Rewrite(sp, front) <==> last in Unread(sp, front))
  {
    CanonicalTextReads(sp, last);
    UnreadMembers(sp, front, last);
    if sp.parse(last).Unparsable? {
      forall i | 0 <= i < |front| ensures Rewrite(sp, front)[i] == last <==> front[i] == last {
        RewriteUnread(sp, front[i], last);
      }
    }
  }

  lemma NoneLeft(sp: Spelling)
    ensures Unread(sp, []) == [] && Dedup([]) == [] && Unread(sp, Dedup([])) == []
  {
  }

  lemma {:induction false} KeepUnread(sp: Spelling, all: seq<string>, n: nat)
    requires n <= |all|
    ensures Unread(sp, KeepUpTo(sp, all, n)) == Unread(sp, all[..n])
  {
    hide Unread;
    if n == 0 {
      assert all[..0] == [];
    } else {
      KeepUnread(sp, all, n - 1);
      assert all[..n] == all[..n - 1] + [all[n - 1]];
      UnreadNext(sp, all[..n - 1], all[n - 1]);
      UnreadNext(sp, KeepUpTo(sp, all, n - 1), all[n - 1]);
      assert KeepUpTo(sp, all, n - 1) + [] == KeepUpTo(sp, all, n - 1);
    }
  }

  /** What cannot be read comes out as it went in: in the input's order, the first of each. */
  lemma PipelineKeepsUnread(sp: Spelling, xs: seq<string>, absorb: bool)
    requires Lawful(sp)
    ensures Unread(sp, Pipeline(sp, xs, absorb)) == Dedup(Unread(sp, xs))
  {
    hide Unread, Dedup, Canonicals;
    var c := Canonicals(sp, xs);
    DedupUnread(sp, xs);
    KeepUnread(sp, c, |c|);
    assert c[..|c|] == c;
    UnreadKeepOrder(sp, if absorb then DropContained(sp, c) else c);
  }

  /** First occurrences: of two members, the one that was met first comes first. */
  lemma {:induction false} DedupInOrder(xs: seq<string>, i: nat, j: nat)
    requires i < j < |Dedup(xs)|
    ensures exists p :: 0 <= p < |xs| && xs[p] == Dedup(xs)[i] && Dedup(xs)[j] !in xs[..p]
  {
    var n := |xs| - 1;
    var r := Dedup(xs[..n]);
    if j < |r| {
      DedupInOrder(xs[..n], i, j);
      var p :| 0 <= p < n && xs[..n][p] == r[i] && r[j] !in xs[..n][..p];
      assert xs[..n][..p] == xs[..p];
    } else {
      assert r[i] in xs[..n];
      var p :| 0 <= p < n && xs[..n][p] == r[i];
      assert xs[n] !in xs[..n] && forall k :: 0 <= k < p ==> xs[..p][k] == xs[..n][k];
      assert xs[n] !in xs[..p];
    }
  }
}
