/** Lexicographic order, as Python compares tuples of integers and strings: a strict total order. */
module Ordering {

  predicate LexLess(a: seq<int>, b: seq<int>) {
    if a == [] || b == [] then a == [] && b != []
    else a[0] < b[0] || (a[0] == b[0] && LexLess(a[1..], b[1..]))
  }

  /** The order of tuples: the first difference decides, and a proper prefix comes first. */
  lemma {:induction false} LexLessIff(a: seq<int>, b: seq<int>)
    ensures LexLess(a, b) <==> exists k :: 0 <= k < |b| && FirstDifference(a, b, k)
  {
    if a != [] && b != [] && a[0] == b[0] {
      LexLessIff(a[1..], b[1..]);
      if LexLess(a, b) {
        var k :| 0 <= k < |b[1..]| && FirstDifference(a[1..], b[1..], k);
        assert a[..k + 1] == [a[0]] + a[1..][..k] && b[..k + 1] == [b[0]] + b[1..][..k];
        assert FirstDifference(a, b, k + 1);
      }
      forall k | 0 <= k < |b| && FirstDifference(a, b, k) ensures LexLess(a, b) {
        assert k > 0;
        assert a[1..][..k - 1] == a[..k][1..] && b[1..][..k - 1] == b[..k][1..];
        assert FirstDifference(a[1..], b[1..], k - 1);
      }
    } else if b != [] {
      assert FirstDifference(a, b, 0) <==> a == [] || a[0] < b[0];
      forall k | 0 < k < |b| && k <= |a| ensures !FirstDifference(a, b, k) {
        assert a[..k][0] == a[0] && b[..k][0] == b[0];
      }
    }
  }

  predicate FirstDifference(a: seq<int>, b: seq<int>, k: nat) {
    k <= |a| && k < |b| && a[..k] == b[..k] && (k < |a| ==> a[k] < b[k])
  }

  lemma {:induction false} LexIrreflexive(a: seq<int>)
    ensures !LexLess(a, a)
  {
    if a != [] { LexIrreflexive(a[1..]); }
  }

  lemma {:induction false} LexTransitive(a: seq<int>, b: seq<int>, c: seq<int>)
    requires LexLess(a, b) && LexLess(b, c)
    ensures LexLess(a, c)
  {
    if a != [] && a[0] == b[0] == c[0] { LexTransitive(a[1..], b[1..], c[1..]); }
  }

  lemma {:induction false} LexTotal(a: seq<int>, b: seq<int>)
    ensures LexLess(a, b) || a == b || LexLess(b, a)
  {
    if a != [] && b != [] && a[0] == b[0] {
      LexTotal(a[1..], b[1..]);
      assert a == [a[0]] + a[1..] && b == [b[0]] + b[1..];
    }
  }

  function Codes(s: string): (r: seq<int>)
    ensures |r| == |s| && forall i :: 0 <= i < |s| ==> r[i] == s[i] as int
  {
    seq(|s|, i requires 0 <= i < |s| => s[i] as int)
  }

  lemma CodesInjective(a: string, b: string)
    requires Codes(a) == Codes(b)
    ensures a == b
  {
    assert |a| == |b|;
    forall i | 0 <= i < |a| ensures a[i] == b[i] { assert Codes(a)[i] == Codes(b)[i]; }
  }

  predicate Less(a: string, b: string) {
    LexLess(Codes(a), Codes(b))
  }

  lemma Irreflexive(a: string)
    ensures !Less(a, a)
  {
    LexIrreflexive(Codes(a));
  }

  lemma Transitive(a: string, b: string, c: string)
    requires Less(a, b) && Less(b, c)
    ensures Less(a, c)
  {
    LexTransitive(Codes(a), Codes(b), Codes(c));
  }

  lemma Total(a: string, b: string)
    ensures Less(a, b) || a == b || Less(b, a)
  {
    LexTotal(Codes(a), Codes(b));
    if Codes(a) == Codes(b) { CodesInjective(a, b); }
  }

  // --- sorted names -----------------------------------------------------------------

  predicate IsLeast(m: string, names: set<string>) {
    m in names && forall x :: x in names ==> x == m || Less(m, x)
  }

  lemma {:induction false} LeastExists(names: set<string>)
    requires names != {}
    ensures exists m :: IsLeast(m, names)
    decreases names
  {
    var m :| m in names;
    if names == {m} {
      assert IsLeast(m, names);
    } else {
      LeastExists(names - {m});
      var other :| IsLeast(other, names - {m});
      Total(m, other);
      if Less(other, m) {
        assert IsLeast(other, names);
      } else {
        forall x | x in names ensures x == m || Less(m, x) {
          if x != m && x != other { Transitive(m, other, x); }
        }
        assert IsLeast(m, names);
      }
    }
  }

  lemma LeastUnique(m: string, n: string, names: set<string>)
    requires IsLeast(m, names) && IsLeast(n, names)
    ensures m == n
  {
    if m != n {
      Transitive(m, n, m);
      Irreflexive(m);
    }
  }

  ghost function Least(names: set<string>): (m: string)
    requires names != {}
    ensures IsLeast(m, names)
  {
    LeastExists(names);
    var m :| IsLeast(m, names);
    m
  }

  /** The names in ascending order. */
  ghost function Sorted(names: set<string>): (r: seq<string>)
    decreases names
  {
    if names == {} then [] else [Least(names)] + Sorted(names - {Least(names)})
  }

  lemma {:induction false} SortedLists(names: set<string>)
    ensures forall x :: x in Sorted(names) <==> x in names
    ensures forall i, j :: 0 <= i < j < |Sorted(names)| ==> Less(Sorted(names)[i], Sorted(names)[j])
    decreases names
  {
    if names != {} {
      SortedLists(names - {Least(names)});
    }
  }

  lemma SortedStep(m: string, names: set<string>)
    requires IsLeast(m, names)
    ensures names != {} && Sorted(names) == [m] + Sorted(names - {m})
  {
    LeastUnique(m, Least(names), names);
  }

  method SortedNames(names: set<string>) returns (r: seq<string>)
    ensures r == Sorted(names)
  {
    var rest := names;
    r := [];
    while rest != {}
      invariant r + Sorted(rest) == Sorted(names)
      decreases rest
    {
      var m := TakeLeast(rest);
      assert r + ([m] + Sorted(rest - {m})) == (r + [m]) + Sorted(rest - {m});
      r := r + [m];
      rest := rest - {m};
    }
  }

  method TakeLeast(names: set<string>) returns (m: string)
    requires names != {}
    ensures m in names && Sorted(names) == [m] + Sorted(names - {m})
  {
    hide Sorted;
    LeastExists(names);
    m :| m in names && IsLeast(m, names);
    SortedStep(m, names);
  }
}
