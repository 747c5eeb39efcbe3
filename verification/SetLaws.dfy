/** What the canonicaliser promises: meaning kept, nothing overlaps, a fixed point, one order per set. */
module SetLaws {
  import opened Ordering
  import opened SetElements
  import opened SetPipeline

  // --- membership through the stages -------------------------------------------

  lemma SameBagSameMembers(xs: seq<Keyed>, ys: seq<Keyed>)
    requires multiset(xs) == multiset(ys)
    ensures |xs| == |ys| && forall k :: k in xs <==> k in ys
  {
    assert |multiset(xs)| == |xs| && |multiset(ys)| == |ys|;
    forall k ensures k in xs <==> k in ys { assert k in multiset(xs) <==> k in multiset(ys); }
  }

  lemma SortMembers(sp: Spelling, xs: seq<string>)
    ensures |SortTexts(sp, xs)| == |xs| && forall e :: e in SortTexts(sp, xs) <==> e in xs
  {
    var d := Decorate(sp, xs);
    var ks := SortKeyed(d);
    SortOrders(d);
    SameBagSameMembers(ks, d);
    forall e ensures e in SortTexts(sp, xs) <==> e in xs {
      if e in xs {
        var i :| 0 <= i < |xs| && xs[i] == e;
        assert d[i] in ks;
        var j :| 0 <= j < |ks| && ks[j] == d[i];
        assert Texts(ks)[j] == e;
      }
      if e in SortTexts(sp, xs) {
        var j :| 0 <= j < |ks| && Texts(ks)[j] == e;
        assert ks[j] in d;
      }
    }
  }

  predicate AllCanonical(sp: Spelling, xs: seq<string>) {
    forall e :: e in xs ==> CanonicalText(sp, e) == e
  }

  lemma CanonicalsMembers(sp: Spelling, xs: seq<string>)
    requires Lawful(sp)
    ensures AllCanonical(sp, Canonicals(sp, xs)) && Distinct(Canonicals(sp, xs))
    ensures forall t :: t in xs ==> CanonicalText(sp, t) in Canonicals(sp, xs)
    ensures forall e :: e in Canonicals(sp, xs) ==> exists t :: t in xs && CanonicalText(sp, t) == e
  {
    var r := Rewrite(sp, xs);
    forall e | e in Canonicals(sp, xs)
      ensures CanonicalText(sp, e) == e && exists t :: t in xs && CanonicalText(sp, t) == e
    {
      var i :| 0 <= i < |r| && r[i] == e;
      CanonicalTextReads(sp, xs[i]);
      assert xs[i] in xs;
    }
    forall t | t in xs ensures CanonicalText(sp, t) in Canonicals(sp, xs) {
      var i :| 0 <= i < |xs| && xs[i] == t;
      assert r[i] in r;
    }
  }

  lemma PipelineMembers(sp: Spelling, xs: seq<string>, absorb: bool, e: string)
    ensures e in Pipeline(sp, xs, absorb)
       <==> e in Canonicals(sp, xs) && (absorb ==> !Absorbed(sp, Canonicals(sp, xs), e))
  {
    var c := Canonicals(sp, xs);
    SortMembers(sp, if absorb then DropContained(sp, c) else c);
  }

  // --- absorption keeps the meaning ----------------------------------------------

  /** A canonical text that reads as a network reads as a canonical one. */
  lemma CanonicalNetwork(sp: Spelling, e: string)
    requires Lawful(sp) && CanonicalText(sp, e) == e && IsAddress(sp.parse(e))
    ensures IsCanonical(sp.parse(e))
  {
    CanonicalTextReads(sp, e);
  }

  lemma SameNetworkSameText(sp: Spelling, e: string, k: string)
    requires Lawful(sp) && CanonicalText(sp, e) == e && CanonicalText(sp, k) == k
    requires IsAddress(sp.parse(e)) && sp.parse(e) == sp.parse(k)
    ensures e == k
  {
  }

  /** Every dropped element lies inside a single kept one. */
  lemma {:induction false} KeptCover(sp: Spelling, xs: seq<string>, e: string) returns (k: string)
    requires Lawful(sp) && AllCanonical(sp, xs) && e in xs
    ensures k in DropContained(sp, xs) && (k == e || SubnetOf(sp, e, k))
    decreases if sp.parse(e).Network? then sp.parse(e).prefix else 0
  {
    if !Absorbed(sp, xs, e) { return e; }
    var m :| m in xs && m != e && SubnetOf(sp, e, m);
    CanonicalNetwork(sp, e);
    CanonicalNetwork(sp, m);
    if sp.parse(e) == sp.parse(m) { SameNetworkSameText(sp, e, m); }
    WithinPrefix(sp.parse(e), sp.parse(m));
    k := KeptCover(sp, xs, m);
  }

  /** Some address element of the list covers this address. */
  predicate Covers(sp: Spelling, xs: seq<string>, v: Version, a: nat) {
    exists e :: e in xs && CoveredBy(sp, e, v, a)
  }

  predicate CoveredBy(sp: Spelling, e: string, v: Version, a: nat) {
    var f := sp.parse(e);
    IsAddress(f) && Denotes(f).version == v && Denotes(f).lo <= a <= Denotes(f).hi
  }

  lemma RewriteCovers(sp: Spelling, xs: seq<string>, v: Version, a: nat)
    requires Lawful(sp)
    ensures Covers(sp, Canonicals(sp, xs), v, a) <==> Covers(sp, xs, v, a)
  {
    CanonicalsMembers(sp, xs);
    if Covers(sp, xs, v, a) {
      var t :| t in xs && CoveredBy(sp, t, v, a);
      CanonicalTextReads(sp, t);
      assert CoveredBy(sp, CanonicalText(sp, t), v, a);
    }
    if Covers(sp, Canonicals(sp, xs), v, a) {
      var e :| e in Canonicals(sp, xs) && CoveredBy(sp, e, v, a);
      var t :| t in xs && CanonicalText(sp, t) == e;
      CanonicalTextReads(sp, t);
      assert CoveredBy(sp, t, v, a);
    }
  }

  /** The whole pipeline, absorbing or not, stands for exactly the addresses of its input. */
  lemma PipelineCovers(sp: Spelling, xs: seq<string>, absorb: bool, v: Version, a: nat)
    requires Lawful(sp)
    ensures Covers(sp, Pipeline(sp, xs, absorb), v, a) <==> Covers(sp, xs, v, a)
  {
    var c, p := Canonicals(sp, xs), Pipeline(sp, xs, absorb);
    RewriteCovers(sp, xs, v, a);
    CanonicalsMembers(sp, xs);
    forall e ensures e in p <==> e in c && (absorb ==> !Absorbed(sp, c, e)) { PipelineMembers(sp, xs, absorb, e); }
    if Covers(sp, c, v, a) {
      var e :| e in c && CoveredBy(sp, e, v, a);
      var k := KeptCover(sp, c, e);
      assert CoveredBy(sp, k, v, a);
      if !absorb { assert e in p; }
    }
  }

  /** Everything that is not an address goes through untouched, and nothing of the kind is invented. */
  lemma OthersRetained(sp: Spelling, xs: seq<string>, absorb: bool, e: string)
    requires Lawful(sp) && !IsAddress(sp.parse(e))
    ensures e in Pipeline(sp, xs, absorb) <==> e in xs
  {
    PipelineMembers(sp, xs, absorb, e);
    CanonicalsMembers(sp, xs);
    if e in Canonicals(sp, xs) {
      var t :| t in xs && CanonicalText(sp, t) == e;
      CanonicalTextReads(sp, t);
    }
  }

  /** What absorption drops lies inside one network that stays, in spelling as well as in meaning canonical. */
  lemma DroppedCovered(sp: Spelling, xs: seq<string>, e: string)
    requires Lawful(sp) && e in Canonicals(sp, xs) && e !in Pipeline(sp, xs, true)
    ensures exists k :: k in Pipeline(sp, xs, true) && SubnetOf(sp, e, k)
  {
    PipelineMembers(sp, xs, true, e);
    CanonicalsMembers(sp, xs);
    var k := KeptCover(sp, Canonicals(sp, xs), e);
    PipelineMembers(sp, xs, true, k);
  }

  /**
   * Absorption drops an element exactly when it is a network and another network of its family, another element of the
   * canonical list, spans all its addresses; a range neither goes nor absorbs.
   */
  lemma DroppedIff(sp: Spelling, xs: seq<string>, e: string)
    requires Lawful(sp) && e in Canonicals(sp, xs)
    ensures e !in Pipeline(sp, xs, true) <==> exists k :: k in Canonicals(sp, xs) && Spans(sp, k, e)
  {
    hide Pipeline, Canonicals;
    PipelineMembers(sp, xs, true, e);
    var c := Canonicals(sp, xs);
    if Absorbed(sp, c, e) {
      var k :| k in c && k != e && SubnetOf(sp, e, k);
      assert Spans(sp, k, e);
    }
    if k :| k in c && Spans(sp, k, e) { assert SubnetOf(sp, e, k); }
  }

  /** Two different elements are networks of one family, and every address of the second is one of the first. */
  predicate Spans(sp: Spelling, k: string, e: string)
    requires WellFormed(sp.parse(k)) && WellFormed(sp.parse(e))
  {
    var outer, inner := sp.parse(k), sp.parse(e);
    && k != e && outer.Network? && inner.Network? && outer.version == inner.version
    && Denotes(outer).lo <= Denotes(inner).lo && Denotes(inner).hi <= Denotes(outer).hi
  }

  lemma KeptApart(sp: Spelling, xs: seq<string>, e: string, k: string)
    requires Lawful(sp) && AllCanonical(sp, xs) && e != k && e in xs && k in xs
    requires !Absorbed(sp, xs, e) && sp.parse(e).Network? && sp.parse(k).Network?
    requires sp.parse(e).version == sp.parse(k).version && sp.parse(k).prefix <= sp.parse(e).prefix
    ensures Disjoint(Denotes(sp.parse(e)), Denotes(sp.parse(k)))
  {
    NetworksLaminar(sp.parse(e), sp.parse(k));
    assert k in xs;
    assert SubnetOf(sp, e, k) <==> Within(Denotes(sp.parse(e)), Denotes(sp.parse(k)));
  }

  /** After absorption no two networks share an address. */
  lemma KeptDisjoint(sp: Spelling, xs: seq<string>, e: string, k: string)
    requires Lawful(sp) && e in Pipeline(sp, xs, true) && k in Pipeline(sp, xs, true) && e != k
    requires sp.parse(e).Network? && sp.parse(k).Network?
    ensures Disjoint(Denotes(sp.parse(e)), Denotes(sp.parse(k)))
  {
    hide Pipeline, Canonicals, Absorbed, AllCanonical;
    var c := Canonicals(sp, xs);
    PipelineMembers(sp, xs, true, e);
    PipelineMembers(sp, xs, true, k);
    CanonicalsAll(sp, xs);
    var f, g := sp.parse(e), sp.parse(k);
    if f.version == g.version {
      if g.prefix <= f.prefix { KeptApart(sp, c, e, k); } else { KeptApart(sp, c, k, e); }
    }
  }

  lemma CanonicalsAll(sp: Spelling, xs: seq<string>)
    requires Lawful(sp)
    ensures AllCanonical(sp, Canonicals(sp, xs))
  {
    CanonicalsMembers(sp, xs);
  }

  // --- the sort key ---------------------------------------------------------------

  /** Away from unparsable elements the key does not depend on the position. */
  lemma KeyFixed(sp: Spelling, i: nat, j: nat, t: string)
    requires !sp.parse(t).Unparsable?
    ensures Key(sp, i, t) == Key(sp, j, t) && Key(sp, i, t)[0] < 5
  {
  }

  lemma TailsEqual(a: seq<int>, b: seq<int>, s: string, t: string)
    requires |a| == |b| && a + Codes(s) == b + Codes(t)
    ensures s == t
  {
    assert Codes(s) == (a + Codes(s))[|a|..] == (b + Codes(t))[|b|..] == Codes(t);
    CodesInjective(s, t);
  }

  /** The numbers in front of the text in a key. */
  function Stem(sp: Spelling, i: nat, t: string): (stem: seq<int>)
    requires !sp.parse(t).Unparsable?
    ensures Key(sp, i, t) == stem + Codes(t)
  {
    var n := match sp.parse(t)
      case Numeric(_) => 3
      case Ports(_, _) => 4
      case Range(_, _, _) => 5
      case Network(_, _, _) => 5
      case Protocol(_) => 3
      case _ => 2;
    Key(sp, i, t)[..n]
  }

  lemma PortsShow(sp: Spelling, i: nat, t: string)
    ensures sp.parse(t).Ports? <==> Key(sp, i, t)[0] == 1 && |Key(sp, i, t)| > 3 && Key(sp, i, t)[3] == -1
  {
  }

  /** The key decides the element, so equal keys never hide distinct elements. */
  lemma KeyInjective(sp: Spelling, i: nat, j: nat, s: string, t: string)
    requires !sp.parse(s).Unparsable? && !sp.parse(t).Unparsable? && Key(sp, i, s) == Key(sp, j, t)
    ensures s == t
  {
    var a, b := Key(sp, i, s), Key(sp, j, t);
    assert a[0] == b[0];
    PortsShow(sp, i, s);
    PortsShow(sp, j, t);
    TailsEqual(Stem(sp, i, s), Stem(sp, j, t), s, t);
  }

  // --- a fixed point ----------------------------------------------------------------

  lemma SortDistinct(sp: Spelling, xs: seq<string>)
    requires Distinct(xs)
    ensures Distinct(SortTexts(sp, xs))
  {
    var d, p := Decorate(sp, xs), SortTexts(sp, xs);
    SortOrders(d);
    SortMembers(sp, xs);
    DistinctFromSize(xs, p);
  }

  /** As many entries and the same members: distinctness carries over. */
  lemma DistinctFromSize(xs: seq<string>, p: seq<string>)
    requires Distinct(xs) && |p| == |xs| && forall e :: e in p <==> e in xs
    ensures Distinct(p)
  {
    DistinctCount(xs);
    var all := set e | e in xs;
    assert all == set e | e in p;
    forall i, j | 0 <= i < j < |p| ensures p[i] != p[j] {
      if p[i] == p[j] { RepeatShrinks(p, i, j); }
    }
  }

  lemma {:induction false} DistinctCount(xs: seq<string>)
    requires Distinct(xs)
    ensures |set e | e in xs| == |xs|
  {
    if xs != [] {
      var front, last := xs[..|xs| - 1], xs[|xs| - 1];
      DistinctCount(front);
      assert xs == front + [last];
      assert (set e | e in xs) == (set e | e in front) + {last};
    }
  }

  lemma {:induction false} MembersCount(xs: seq<string>)
    ensures |set e | e in xs| <= |xs|
  {
    if xs != [] {
      var front, last := xs[..|xs| - 1], xs[|xs| - 1];
      MembersCount(front);
      assert xs == front + [last];
      assert (set e | e in xs) == (set e | e in front) + {last};
    }
  }

  lemma RepeatShrinks(p: seq<string>, i: nat, j: nat)
    requires i < j < |p| && p[i] == p[j]
    ensures |set e | e in p| < |p|
  {
    var rest := p[..j] + p[j + 1..];
    MembersCount(rest);
    assert p == p[..j] + [p[j]] + p[j + 1..];
    assert rest[i] == p[j];
    assert (set e | e in p) == (set e | e in rest);
  }

  /** Every sorted entry carries its own key, numbered by where it once stood. */
  lemma SortedKeys(sp: Spelling, xs: seq<string>, i: nat) returns (i': nat)
    requires i < |xs|
    ensures |SortKeyed(Decorate(sp, xs))| == |xs|
    ensures SortKeyed(Decorate(sp, xs))[i].key == Key(sp, i', SortTexts(sp, xs)[i])
  {
    var d := Decorate(sp, xs);
    var ks := SortKeyed(d);
    SortOrders(d);
    SameBagSameMembers(ks, d);
    assert ks[i] in d;
    i' :| 0 <= i' < |d| && d[i'] == ks[i];
  }

  /** The keys of a sorted list, numbered afresh, are still in order. */
  lemma SortedStaysSorted(sp: Spelling, xs: seq<string>)
    ensures InOrder(Decorate(sp, SortTexts(sp, xs)))
  {
    var p := SortTexts(sp, xs);
    SortMembers(sp, xs);
    forall i, j | 0 <= i < j < |p| ensures !LexLess(Key(sp, j, p[j]), Key(sp, i, p[i])) {
      PairStaysSorted(sp, xs, i, j);
    }
  }

  lemma PairStaysSorted(sp: Spelling, xs: seq<string>, i: nat, j: nat)
    requires i < j < |xs| == |SortTexts(sp, xs)|
    ensures !LexLess(Key(sp, j, SortTexts(sp, xs)[j]), Key(sp, i, SortTexts(sp, xs)[i]))
  {
    SortOrders(Decorate(sp, xs));
    var i' := SortedKeys(sp, xs, i);
    var j' := SortedKeys(sp, xs, j);
    Renumbered(sp, SortTexts(sp, xs)[i], SortTexts(sp, xs)[j], i, j, i', j');
  }

  lemma Renumbered(sp: Spelling, s: string, t: string, i: nat, j: nat, i': nat, j': nat)
    requires i < j && !LexLess(Key(sp, j', t), Key(sp, i', s))
    ensures !LexLess(Key(sp, j, t), Key(sp, i, s))
  {
    if !sp.parse(s).Unparsable? { KeyFixed(sp, i, i', s); }
    if !sp.parse(t).Unparsable? { KeyFixed(sp, j, j', t); }
  }

  lemma SortTwice(sp: Spelling, xs: seq<string>)
    ensures SortTexts(sp, SortTexts(sp, xs)) == SortTexts(sp, xs)
  {
    var p := SortTexts(sp, xs);
    SortedStaysSorted(sp, xs);
    SortFixed(Decorate(sp, p));
    assert Texts(Decorate(sp, p)) == p;
  }

  lemma RewriteFixed(sp: Spelling, xs: seq<string>)
    requires AllCanonical(sp, xs) && Distinct(xs)
    ensures Canonicals(sp, xs) == xs
  {
    assert Rewrite(sp, xs) == xs;
    DedupFixed(xs);
  }

  /** Canonicalising is idempotent: both sides of a comparison may be canonicalised any number of times. */
  lemma PipelineIdempotent(sp: Spelling, xs: seq<string>, absorb: bool)
    requires Lawful(sp)
    ensures Pipeline(sp, Pipeline(sp, xs, absorb), absorb) == Pipeline(sp, xs, absorb)
  {
    var c := Canonicals(sp, xs);
    var d := if absorb then DropContained(sp, c) else c;
    CanonicalsMembers(sp, xs);
    KeepDistinct(sp, c, |c|);
    SortMembers(sp, d);
    SortDistinct(sp, d);
    var p := SortTexts(sp, d);
    RewriteFixed(sp, p);
    if absorb {
      KeepEverything(sp, p, |p|);
      assert p[..|p|] == p;
    }
    SortTwice(sp, d);
  }

  // --- one order per set ---------------------------------------------------------------

  predicate SameMembers(xs: seq<string>, ys: seq<string>) {
    (forall e :: e in xs ==> e in ys) && forall e :: e in ys ==> e in xs
  }

  predicate Parsable(sp: Spelling, xs: seq<string>) {
    forall e :: e in xs ==> !sp.parse(e).Unparsable?
  }

  lemma DecorateMembers(sp: Spelling, xs: seq<string>, ys: seq<string>, k: Keyed)
    requires Parsable(sp, xs) && SameMembers(xs, ys) && k in Decorate(sp, xs)
    ensures k in Decorate(sp, ys)
  {
    var i :| 0 <= i < |xs| && Decorate(sp, xs)[i] == k;
    assert xs[i] in ys;
    var j :| 0 <= j < |ys| && ys[j] == xs[i];
    KeyFixed(sp, i, j, xs[i]);
    assert Decorate(sp, ys)[j] == k;
  }

  lemma DecorateDistinct(sp: Spelling, xs: seq<string>)
    requires Parsable(sp, xs) && Distinct(xs)
    ensures DistinctKeys(Decorate(sp, xs))
  {
    forall i, j | 0 <= i < j < |xs| ensures Key(sp, i, xs[i]) != Key(sp, j, xs[j]) {
      if Key(sp, i, xs[i]) == Key(sp, j, xs[j]) { KeyInjective(sp, i, j, xs[i], xs[j]); }
    }
  }

  lemma {:induction false} DistinctMultiplicity(ks: seq<Keyed>, k: Keyed)
    requires DistinctKeys(ks)
    ensures multiset(ks)[k] == if k in ks then 1 else 0
  {
    if ks != [] {
      DistinctMultiplicity(ks[..|ks| - 1], k);
      assert ks == ks[..|ks| - 1] + [ks[|ks| - 1]];
    }
  }

  lemma RepeatCounts(b: seq<Keyed>, i: nat, j: nat)
    requires i < j < |b| && b[i] == b[j]
    ensures multiset(b)[b[i]] >= 2
  {
    assert b == b[..j] + [b[j]] + b[j + 1..];
    assert b[..j][i] == b[i];
    assert b[i] in multiset(b[..j]);
  }

  lemma SameKeySameEntry(a: seq<Keyed>, k: Keyed, m: Keyed)
    requires DistinctKeys(a) && k in a && m in a && k.key == m.key
    ensures k == m
  {
  }

  lemma DistinctKeysCarry(a: seq<Keyed>, b: seq<Keyed>)
    requires DistinctKeys(a) && multiset(a) == multiset(b)
    ensures DistinctKeys(b)
  {
    SameBagSameMembers(a, b);
    forall i, j | 0 <= i < j < |b| ensures b[i].key != b[j].key {
      DistinctMultiplicity(a, b[i]);
      if b[i].key == b[j].key {
        SameKeySameEntry(a, b[i], b[j]);
        RepeatCounts(b, i, j);
      }
    }
  }

  lemma SortedAlike(sp: Spelling, xs: seq<string>, ys: seq<string>)
    requires Parsable(sp, xs) && Distinct(xs) && Distinct(ys) && SameMembers(xs, ys)
    ensures SortTexts(sp, xs) == SortTexts(sp, ys)
  {
    var a, b := Decorate(sp, xs), Decorate(sp, ys);
    DecorateDistinct(sp, xs);
    DecorateDistinct(sp, ys);
    forall k ensures multiset(a)[k] == multiset(b)[k] {
      DistinctMultiplicity(a, k);
      DistinctMultiplicity(b, k);
      if k in a { DecorateMembers(sp, xs, ys, k); }
      if k in b { DecorateMembers(sp, ys, xs, k); }
    }
    assert multiset(a) == multiset(b);
    SortOrders(a);
    SortOrders(b);
    DistinctKeysCarry(a, SortKeyed(a));
    OrderUnique(SortKeyed(a), SortKeyed(b));
  }

  /**
   * Without unparsable elements the output depends only on the set of canonical elements: the order
   * in which they were written, repeats and spellings do not show.
   */
  lemma OrderIndependent(sp: Spelling, xs: seq<string>, ys: seq<string>, absorb: bool)
    requires Lawful(sp) && Parsable(sp, Canonicals(sp, xs)) && SameMembers(Canonicals(sp, xs), Canonicals(sp, ys))
    ensures Pipeline(sp, xs, absorb) == Pipeline(sp, ys, absorb)
  {
    var c, d := Canonicals(sp, xs), Canonicals(sp, ys);
    CanonicalsMembers(sp, xs);
    CanonicalsMembers(sp, ys);
    KeepDistinct(sp, c, |c|);
    KeepDistinct(sp, d, |d|);
    forall e | e in c ensures Absorbed(sp, c, e) <==> Absorbed(sp, d, e) {}
    if absorb {
      SortedAlike(sp, DropContained(sp, c), DropContained(sp, d));
    } else {
      SortedAlike(sp, c, d);
    }
  }

  /** Without absorption the output says which set it came from, and only that. */
  lemma OneListPerSet(sp: Spelling, xs: seq<string>, ys: seq<string>)
    requires Lawful(sp) && Parsable(sp, Canonicals(sp, xs))
    ensures Pipeline(sp, xs, false) == Pipeline(sp, ys, false) <==> SameMembers(Canonicals(sp, xs), Canonicals(sp, ys))
  {
    SortMembers(sp, Canonicals(sp, xs));
    SortMembers(sp, Canonicals(sp, ys));
    if SameMembers(Canonicals(sp, xs), Canonicals(sp, ys)) { OrderIndependent(sp, xs, ys, false); }
  }

  // --- lawful spellings exist -------------------------------------------------------------

  function Repeat(c: char, n: nat): (r: string)
    ensures |r| == n && forall i :: 0 <= i < n ==> r[i] == c
  {
    seq(n, _ => c)
  }

  /** A tally spelling: the kind and family, then two numbers in strokes. */
  function Tally(f: Form): string {
    match f
    case Network(v, addr, prefix) => (if v == V4 then "n" else "N") + Repeat('a', addr) + Repeat('b', prefix)
    case Range(v, low, high) => (if v == V4 then "r" else "R") + Repeat('a', low) + Repeat('b', high)
    case _ => ""
  }

  /** How many strokes of the first number a tally holds. */
  function Strokes(s: string): nat {
    if s == "" then 0 else Strokes(s[..|s| - 1]) + if s[|s| - 1] == 'a' then 1 else 0
  }

  lemma {:induction false} StrokesCounted(kind: string, x: nat, y: nat)
    requires |kind| == 1 && kind[0] != 'a'
    ensures Strokes(kind + Repeat('a', x) + Repeat('b', y)) == x
    decreases x + y
  {
    var s := kind + Repeat('a', x) + Repeat('b', y);
    if y > 0 {
      assert s[..|s| - 1] == kind + Repeat('a', x) + Repeat('b', y - 1);
      StrokesCounted(kind, x, y - 1);
    } else if x > 0 {
      assert s[..|s| - 1] == kind + Repeat('a', x - 1) + Repeat('b', 0);
      StrokesCounted(kind, x - 1, 0);
    } else {
      assert s == kind && s[..0] == "";
    }
  }

  lemma StrokesInjective(kind: string, x: nat, y: nat, kind': string, x': nat, y': nat)
    requires |kind| == 1 == |kind'| && kind[0] != 'a' && kind'[0] != 'a'
    requires kind + Repeat('a', x) + Repeat('b', y) == kind' + Repeat('a', x') + Repeat('b', y')
    ensures kind == kind' && x == x' && y == y'
  {
    StrokesCounted(kind, x, y);
    StrokesCounted(kind', x', y');
    var s, t := kind + Repeat('a', x) + Repeat('b', y), kind' + Repeat('a', x') + Repeat('b', y');
    assert s[0] == kind[0] && t[0] == kind'[0] && |s| == 1 + x + y && |t| == 1 + x' + y';
  }

  lemma TallyInjective(f: Form, g: Form)
    requires IsAddress(f) && IsAddress(g) && Tally(f) == Tally(g)
    ensures f == g
  {
    var (x, y) := if f.Network? then (f.addr, f.prefix) else (f.low, f.high);
    var (x', y') := if g.Network? then (g.addr, g.prefix) else (g.low, g.high);
    StrokesInjective([Tally(f)[0]], x, y, [Tally(g)[0]], x', y');
  }

  /** What is asked of a spelling can be met, so the laws above speak about something. */
  lemma LawfulExists()
    ensures exists sp :: Lawful(sp)
  {
    var parse := (t: string) =>
      if exists f :: IsCanonical(f) && Tally(f) == t then var f :| IsCanonical(f) && Tally(f) == t; f else Unparsable;
    var sp := Spelling(parse, Tally);
    forall f | IsCanonical(f) ensures sp.parse(sp.spell(f)) == f {
      var g := sp.parse(sp.spell(f));
      assert IsCanonical(g) && Tally(g) == Tally(f);
      TallyInjective(f, g);
    }
    assert Lawful(sp);
  }
}
