/** The whole canonicaliser: rewrite, drop duplicates, absorb contained networks, order. */
module SetPipeline {
  import opened Ordering
  import opened Prefixes
  import opened SetElements

  /** How element texts are read, and how address forms are written. */
  datatype Spelling = Spelling(parse: string -> Form, spell: Form -> string)

  /** Texts read as well-formed elements, and a written canonical form reads back as itself. */
  ghost predicate Lawful(sp: Spelling) {
    && (forall t :: WellFormed(sp.parse(t)))
    && forall f :: IsCanonical(f) ==> sp.parse(sp.spell(f)) == f
  }

  // --- one element ------------------------------------------------------------

  function CanonicalText(sp: Spelling, t: string): string {
    var f := sp.parse(t);
    if IsAddress(f) then sp.spell(Canonical(f)) else t
  }

  lemma CanonicalTextReads(sp: Spelling, t: string)
    requires Lawful(sp)
    ensures var f, c := sp.parse(t), sp.parse(CanonicalText(sp, t));
            if IsAddress(f) then c == Canonical(f) && IsCanonical(c) && Denotes(c) == Denotes(f)
            else CanonicalText(sp, t) == t
    ensures CanonicalText(sp, CanonicalText(sp, t)) == CanonicalText(sp, t)
  {
    var f := sp.parse(t);
    if IsAddress(f) {
      CanonicalIdempotent(f);
      CanonicalKeepsMeaning(f);
    }
  }

  /** Two address texts have one canonical spelling exactly when they stand for the same addresses. */
  lemma CanonicalTextUnique(sp: Spelling, s: string, t: string)
    requires Lawful(sp) && IsAddress(sp.parse(s)) && IsAddress(sp.parse(t))
    ensures CanonicalText(sp, s) == CanonicalText(sp, t) <==> Denotes(sp.parse(s)) == Denotes(sp.parse(t))
  {
    CanonicalTextReads(sp, s);
    CanonicalTextReads(sp, t);
    CanonicalUnique(sp.parse(s), sp.parse(t));
  }

  // --- ordering ---------------------------------------------------------------

  /** The sort key of the element at one position; only unparsable elements look at the position. */
  function Key(sp: Spelling, i: nat, t: string): seq<int> {
    match sp.parse(t)
    case Numeric(n) => [0, n, -1] + Codes(t)
    case Ports(first, last) => [1, first, last, -1] + Codes(t)
    case Range(v, low, high) => [1, v.Number(), low, high, -1] + Codes(t)
    case Network(v, addr, prefix) => [2, v.Number(), MaskedAddress(v, addr, prefix), prefix, -1] + Codes(t)
    case Protocol(n) => [3, n, -1] + Codes(t)
    case Quoted => [4, -1] + Codes(t)
    case Unparsable => [5, i]
  }

  function MaskedAddress(v: Version, addr: nat, prefix: nat): nat {
    if prefix <= v.Bits() then Mask(addr, BlockSize(v, prefix)) else addr
  }

  datatype Keyed = Keyed(key: seq<int>, text: string)

  function Decorate(sp: Spelling, xs: seq<string>): (r: seq<Keyed>)
    ensures |r| == |xs| && forall i :: 0 <= i < |r| ==> r[i] == Keyed(Key(sp, i, xs[i]), xs[i])
  {
    seq(|xs|, i requires 0 <= i < |xs| => Keyed(Key(sp, i, xs[i]), xs[i]))
  }

  function Texts(ks: seq<Keyed>): (r: seq<string>)
    ensures |r| == |ks| && forall i :: 0 <= i < |r| ==> r[i] == ks[i].text
  {
    seq(|ks|, i requires 0 <= i < |ks| => ks[i].text)
  }

  /** Stable insertion: behind everything that is not greater. */
  function Insert(k: Keyed, ks: seq<Keyed>): seq<Keyed> {
    if ks == [] then [k]
    else if LexLess(k.key, ks[0].key) then [k] + ks
    else [ks[0]] + Insert(k, ks[1..])
  }

  function SortKeyed(ks: seq<Keyed>): seq<Keyed> {
    if ks == [] then [] else Insert(ks[|ks| - 1], SortKeyed(ks[..|ks| - 1]))
  }

  function SortTexts(sp: Spelling, xs: seq<string>): seq<string> {
    Texts(SortKeyed(Decorate(sp, xs)))
  }

  predicate InOrder(ks: seq<Keyed>) {
    forall i, j :: 0 <= i < j < |ks| ==> !LexLess(ks[j].key, ks[i].key)
  }

  lemma {:induction false} InsertKeeps(k: Keyed, ks: seq<Keyed>)
    requires InOrder(ks)
    ensures InOrder(Insert(k, ks)) && multiset(Insert(k, ks)) == multiset{k} + multiset(ks)
  {
    if ks == [] {
    } else if LexLess(k.key, ks[0].key) {
      InsertInFront(k, ks);
    } else {
      InsertKeeps(k, ks[1..]);
      assert ks == [ks[0]] + ks[1..];
      var rest := Insert(k, ks[1..]);
      forall j | 0 <= j < |rest| ensures !LexLess(rest[j].key, ks[0].key) {
        assert rest[j] in multiset(rest);
        assert rest[j] == k || rest[j] in ks[1..];
      }
    }
  }

  lemma InsertInFront(k: Keyed, ks: seq<Keyed>)
    requires InOrder(ks) && ks != [] && LexLess(k.key, ks[0].key)
    ensures InOrder([k] + ks)
  {
    forall j | 0 <= j < |ks| ensures !LexLess(ks[j].key, k.key) {
      if LexLess(ks[j].key, k.key) {
        LexTransitive(ks[j].key, k.key, ks[0].key);
        LexIrreflexive(ks[0].key);
      }
    }
  }

  lemma NoneInOrder()
    ensures InOrder([])
  {
  }

  lemma {:induction false} SortOrders(ks: seq<Keyed>)
    ensures InOrder(SortKeyed(ks)) && multiset(SortKeyed(ks)) == multiset(ks)
  {
    hide InOrder, Insert;
    if ks == [] {
      NoneInOrder();
    } else {
      SortOrders(ks[..|ks| - 1]);
      InsertKeeps(ks[|ks| - 1], SortKeyed(ks[..|ks| - 1]));
      assert ks == ks[..|ks| - 1] + [ks[|ks| - 1]];
    }
  }

  lemma {:induction false} InsertLast(k: Keyed, ks: seq<Keyed>)
    requires forall i :: 0 <= i < |ks| ==> !LexLess(k.key, ks[i].key)
    ensures Insert(k, ks) == ks + [k]
  {
    if ks != [] { InsertLast(k, ks[1..]); }
  }

  /** A list already in order is left alone. */
  lemma {:induction false} SortFixed(ks: seq<Keyed>)
    requires InOrder(ks)
    ensures SortKeyed(ks) == ks
  {
    if ks != [] {
      SortFixed(ks[..|ks| - 1]);
      InsertLast(ks[|ks| - 1], ks[..|ks| - 1]);
    }
  }

  predicate DistinctKeys(ks: seq<Keyed>) {
    forall i, j :: 0 <= i < j < |ks| ==> ks[i].key != ks[j].key
  }

  /** With distinct keys the ordered arrangement of a bag is unique. */
  lemma {:induction false} OrderUnique(a: seq<Keyed>, b: seq<Keyed>)
    requires InOrder(a) && InOrder(b) && DistinctKeys(a) && multiset(a) == multiset(b)
    ensures a == b
  {
    assert |a| == |multiset(a)| == |multiset(b)| == |b|;
    if a != [] {
      FirstUnique(a, b);
      assert a == [a[0]] + a[1..] && b == [b[0]] + b[1..];
      assert multiset(a[1..]) == multiset(a) - multiset{a[0]};
      assert multiset(b[1..]) == multiset(b) - multiset{b[0]};
      OrderUnique(a[1..], b[1..]);
    }
  }

  lemma FirstUnique(a: seq<Keyed>, b: seq<Keyed>)
    requires a != [] && b != [] && InOrder(a) && InOrder(b) && DistinctKeys(a) && multiset(a) == multiset(b)
    ensures a[0] == b[0]
  {
    assert a[0] in multiset(b) && b[0] in multiset(a);
    var j :| 0 <= j < |b| && b[j] == a[0];
    var i :| 0 <= i < |a| && a[i] == b[0];
    LexTotal(a[0].key, b[0].key);
  }

  // --- duplicates -------------------------------------------------------------

  predicate Distinct(xs: seq<string>) {
    forall i, j :: 0 <= i < j < |xs| ==> xs[i] != xs[j]
  }

  /** First occurrences, in order. */
  function Dedup(xs: seq<string>): (r: seq<string>)
    ensures Distinct(r) && forall e :: e in r <==> e in xs
  {
    if xs == [] then []
    else
      var last, r := xs[|xs| - 1], Dedup(xs[..|xs| - 1]);
      assert xs == xs[..|xs| - 1] + [last];
      if last in r then r else r + [last]
  }

  lemma {:induction false} DedupFixed(xs: seq<string>)
    requires Distinct(xs)
    ensures Dedup(xs) == xs
  {
    if xs != [] {
      DedupFixed(xs[..|xs| - 1]);
      assert xs == xs[..|xs| - 1] + [xs[|xs| - 1]];
    }
  }

  function Rewrite(sp: Spelling, xs: seq<string>): (r: seq<string>)
    ensures |r| == |xs| && forall i :: 0 <= i < |r| ==> r[i] == CanonicalText(sp, xs[i])
  {
    seq(|xs|, i requires 0 <= i < |xs| => CanonicalText(sp, xs[i]))
  }

  function Canonicals(sp: Spelling, xs: seq<string>): seq<string> {
    Dedup(Rewrite(sp, xs))
  }

  // --- absorption -------------------------------------------------------------

  /** Both texts read as networks of one family, and the first lies inside the second. */
  predicate SubnetOf(sp: Spelling, a: string, b: string) {
    var f, g := sp.parse(a), sp.parse(b);
    && IsAddress(f) && f.Network? && IsAddress(g) && g.Network?
    && Within(Denotes(f), Denotes(g))
  }

  /** Some other element of the list covers this one. */
  predicate Absorbed(sp: Spelling, xs: seq<string>, e: string) {
    exists k :: k in xs && k != e && SubnetOf(sp, e, k)
  }

  /** Of the first `n` elements, those that nothing in the whole list covers. */
  function KeepUpTo(sp: Spelling, all: seq<string>, n: nat): (r: seq<string>)
    requires n <= |all|
    ensures forall e :: e in r <==> (exists i :: 0 <= i < n && all[i] == e) && !Absorbed(sp, all, e)
  {
    if n == 0 then []
    else KeepUpTo(sp, all, n - 1) + if Absorbed(sp, all, all[n - 1]) then [] else [all[n - 1]]
  }

  lemma {:induction false} KeepDistinct(sp: Spelling, all: seq<string>, n: nat)
    requires n <= |all| && Distinct(all)
    ensures Distinct(KeepUpTo(sp, all, n))
  {
    if n > 0 { KeepDistinct(sp, all, n - 1); }
  }

  lemma {:induction false} KeepEverything(sp: Spelling, all: seq<string>, n: nat)
    requires n <= |all| && forall e :: e in all ==> !Absorbed(sp, all, e)
    ensures KeepUpTo(sp, all, n) == all[..n]
  {
    if n > 0 { KeepEverything(sp, all, n - 1); }
  }

  function DropContained(sp: Spelling, xs: seq<string>): (r: seq<string>)
    ensures forall e :: e in r <==> e in xs && !Absorbed(sp, xs, e)
  {
    KeepUpTo(sp, xs, |xs|)
  }

  /** The canonicaliser as a function: rewrite, dedup, absorb when asked to, order. */
  function Pipeline(sp: Spelling, xs: seq<string>, absorb: bool): seq<string> {
    var c := Canonicals(sp, xs);
    SortTexts(sp, if absorb then DropContained(sp, c) else c)
  }

  predicate Inside(sp: Spelling, network: string, others: map<string, Form>, elem: string)
    requires network in others
  {
    exists k :: k in others && k != elem && IsAddress(others[network]) && IsAddress(others[k])
                && Within(Denotes(others[network]), Denotes(others[k]))
  }

  /** The table of one family holds the networks of that family among the first `n` elements. */
  ghost predicate Table(sp: Spelling, xs: seq<string>, n: nat, v: Version, table: map<string, Form>) {
    && n <= |xs|
    && (forall e :: e in table ==> e in xs && table[e] == sp.parse(e) && InFamily(sp, e, v))
    && forall i :: 0 <= i < n && InFamily(sp, xs[i], v) ==> xs[i] in table
  }

  predicate InFamily(sp: Spelling, e: string, v: Version) {
    sp.parse(e).Network? && sp.parse(e).version == v
  }

  lemma TablesDecide(sp: Spelling, xs: seq<string>, v4: map<string, Form>, v6: map<string, Form>, e: string)
    requires Lawful(sp) && Table(sp, xs, |xs|, V4, v4) && Table(sp, xs, |xs|, V6, v6) && e in xs
    ensures Absorbed(sp, xs, e) <==> (e in v4 && Inside(sp, e, v4, e)) || (e in v6 && Inside(sp, e, v6, e))
  {
    forall k | k in xs && k != e && SubnetOf(sp, e, k)
      ensures (e in v4 && Inside(sp, e, v4, e)) || (e in v6 && Inside(sp, e, v6, e))
    {
      if sp.parse(e).version == V4 { assert k in v4; } else { assert k in v6; }
    }
  }

  method FamilyTables(sp: Spelling, canonical: seq<string>) returns (v4: map<string, Form>, v6: map<string, Form>)
    ensures Table(sp, canonical, |canonical|, V4, v4) && Table(sp, canonical, |canonical|, V6, v6)
  {
    v4, v6 := map[], map[];
    for i := 0 to |canonical|
      invariant Table(sp, canonical, i, V4, v4) && Table(sp, canonical, i, V6, v6)
    {
      var elem := canonical[i];
      var net := sp.parse(elem);
      if net.Network? {
        if net.version.V4? { v4 := v4[elem := net]; } else { v6 := v6[elem := net]; }
      }
    }
  }

  /** The absorption loop: fill one table per family, then keep what no other entry covers. */
  method DropContainedNetworks(sp: Spelling, canonical: seq<string>) returns (kept: seq<string>)
    requires Lawful(sp)
    ensures kept == DropContained(sp, canonical)
  {
    hide Table, Inside, Absorbed, Lawful;
    var v4, v6 := FamilyTables(sp, canonical);
    kept := [];
    for i := 0 to |canonical|
      invariant kept == KeepUpTo(sp, canonical, i)
    {
      var elem := canonical[i];
      TablesDecide(sp, canonical, v4, v6, elem);
      if elem in v4 && Inside(sp, elem, v4, elem) { continue; }
      if elem in v6 && Inside(sp, elem, v6, elem) { continue; }
      kept := kept + [elem];
    }
  }
}
