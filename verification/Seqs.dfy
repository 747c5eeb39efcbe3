/** Small shared vocabulary: optional values and the ordered cartesian product. */
module Seqs {

  datatype Option<+T> = None | Some(value: T)

  /** The first answer wins; a rule list falls through to what comes after it. */
  function OrElse<T>(a: Option<T>, b: Option<T>): Option<T> {
    if a.Some? then a else b
  }

  function Concat<T>(parts: seq<seq<T>>): seq<T> {
    if parts == [] then [] else parts[0] + Concat(parts[1..])
  }

  lemma {:induction false} ConcatAppend<T>(a: seq<seq<T>>, b: seq<seq<T>>)
    ensures Concat(a + b) == Concat(a) + Concat(b)
  {
    if a == [] {
      assert a + b == b;
    } else {
      assert (a + b)[1..] == a[1..] + b;
      ConcatAppend(a[1..], b);
    }
  }

  /** Puts `x` in front of every row. */
  function PrefixAll<T>(x: T, rows: seq<seq<T>>): (r: seq<seq<T>>)
    ensures |r| == |rows|
    ensures forall i :: 0 <= i < |r| ==> r[i] == [x] + rows[i]
  {
    seq(|rows|, i requires 0 <= i < |rows| => [x] + rows[i])
  }

  /** Every way to pick one element from each list; the first list varies slowest. */
  function Product<T>(choices: seq<seq<T>>): seq<seq<T>>
    decreases choices, 1, 0
  {
    if choices == [] then [[]] else ProductFrom(choices[0], choices[1..])
  }

  function ProductFrom<T>(first: seq<T>, rest: seq<seq<T>>): seq<seq<T>>
    decreases rest, 2, first
  {
    if first == [] then []
    else PrefixAll(first[0], Product(rest)) + ProductFrom(first[1..], rest)
  }

}

/** Counting facts about the product: splitting one factor splits the rows. */
module Products {
  import opened Seqs

  lemma {:induction false} PrefixAllCount<T>(x: T, rows: seq<seq<T>>, row: seq<T>)
    ensures multiset(PrefixAll(x, rows))[row]
            == if row != [] && row[0] == x then multiset(rows)[row[1..]] else 0
  {
    if rows == [] {
      assert PrefixAll(x, rows) == [];
    } else {
      PrefixAllCount(x, rows[1..], row);
      assert rows == [rows[0]] + rows[1..];
      assert PrefixAll(x, rows) == [[x] + rows[0]] + PrefixAll(x, rows[1..]);
      assert ([x] + rows[0])[1..] == rows[0];
      assert row != [] ==> row == [row[0]] + row[1..];
    }
  }

  lemma PrefixAllSum<T>(x: T, rows: seq<seq<T>>, a: seq<seq<T>>, b: seq<seq<T>>)
    requires multiset(rows) == multiset(a) + multiset(b)
    ensures multiset(PrefixAll(x, rows)) == multiset(PrefixAll(x, a)) + multiset(PrefixAll(x, b))
  {
    forall row: seq<T>
      ensures multiset(PrefixAll(x, rows))[row] == (multiset(PrefixAll(x, a)) + multiset(PrefixAll(x, b)))[row]
    {
      PrefixAllCount(x, rows, row); PrefixAllCount(x, a, row); PrefixAllCount(x, b, row);
    }
  }

  function LengthProduct<T>(choices: seq<seq<T>>): nat {
    if choices == [] then 1 else |choices[0]| * LengthProduct(choices[1..])
  }

  lemma {:induction false} ProductFromSize<T>(first: seq<T>, rest: seq<seq<T>>)
    ensures |ProductFrom(first, rest)| == |first| * |Product(rest)|
  {
    if first != [] {
      ProductFromSize(first[1..], rest);
      assert |first| * |Product(rest)| == |Product(rest)| + |first[1..]| * |Product(rest)|;
    }
  }

  lemma {:induction false} ProductSize<T>(choices: seq<seq<T>>)
    ensures |Product(choices)| == LengthProduct(choices)
  {
    if choices != [] {
      ProductSize(choices[1..]);
      ProductFromSize(choices[0], choices[1..]);
    }
  }

  lemma {:induction false} ProductFromAt<T>(first: seq<T>, rest: seq<seq<T>>, i: nat, j: nat)
    requires i < |first| && j < |Product(rest)|
    ensures i * |Product(rest)| + j < |ProductFrom(first, rest)|
    ensures ProductFrom(first, rest)[i * |Product(rest)| + j] == [first[i]] + Product(rest)[j]
  {
    var size := |Product(rest)|;
    if i > 0 {
      ProductFromAt(first[1..], rest, i - 1, j);
      assert i * size + j == size + ((i - 1) * size + j);
    }
  }

  /** The rows come in lexicographic order of their choices: the first list varies slowest. */
  lemma ProductOrder<T>(choices: seq<seq<T>>, i: nat, j: nat)
    requires choices != [] && i < |choices[0]| && j < |Product(choices[1..])|
    ensures var size := |Product(choices[1..])|;
            && |Product(choices)| == |choices[0]| * size
            && i * size + j < |Product(choices)|
            && Product(choices)[i * size + j] == [choices[0][i]] + Product(choices[1..])[j]
  {
    ProductFromSize(choices[0], choices[1..]);
    ProductFromAt(choices[0], choices[1..], i, j);
  }

  lemma {:induction false} ProductFromSplit<T>(a: seq<T>, b: seq<T>, rest: seq<seq<T>>)
    ensures ProductFrom(a + b, rest) == ProductFrom(a, rest) + ProductFrom(b, rest)
  {
    if a == [] {
      assert a + b == b;
    } else {
      assert (a + b)[1..] == a[1..] + b;
      ProductFromSplit(a[1..], b, rest);
    }
  }

  lemma {:induction false} ProductFromSum<T>(first: seq<T>, r: seq<seq<T>>, a: seq<seq<T>>, b: seq<seq<T>>)
    requires multiset(Product(r)) == multiset(Product(a)) + multiset(Product(b))
    ensures multiset(ProductFrom(first, r)) == multiset(ProductFrom(first, a)) + multiset(ProductFrom(first, b))
  {
    if first != [] {
      ProductFromSum(first[1..], r, a, b);
      PrefixAllSum(first[0], Product(r), Product(a), Product(b));
    }
  }

  /** Splitting one factor in two splits the product, as a multiset of rows. */
  lemma {:induction false} ProductSplits<T>(pre: seq<seq<T>>, a: seq<T>, b: seq<T>, post: seq<seq<T>>)
    ensures multiset(Product(pre + [a + b] + post))
            == multiset(Product(pre + [a] + post)) + multiset(Product(pre + [b] + post))
  {
    if pre == [] {
      forall x: seq<T> ensures pre + [x] + post == [x] + post && ([x] + post)[1..] == post {}
      ProductFromSplit(a, b, post);
    } else {
      forall x: seq<T>
        ensures (pre + [x] + post)[0] == pre[0] && (pre + [x] + post)[1..] == pre[1..] + [x] + post {}
      ProductSplits(pre[1..], a, b, post);
      ProductFromSum(pre[0], pre[1..] + [a + b] + post, pre[1..] + [a] + post, pre[1..] + [b] + post);
    }
  }

  /** When every factor before it has a single choice, the rows split in order too. */
  lemma {:induction false} ProductSplitsInOrder<T>(pre: seq<seq<T>>, a: seq<T>, b: seq<T>, post: seq<seq<T>>)
    requires forall i :: 0 <= i < |pre| ==> |pre[i]| == 1
    ensures Product(pre + [a + b] + post) == Product(pre + [a] + post) + Product(pre + [b] + post)
  {
    if pre == [] {
      forall x: seq<T> ensures pre + [x] + post == [x] + post && ([x] + post)[1..] == post {}
      ProductFromSplit(a, b, post);
    } else {
      forall x: seq<T>
        ensures (pre + [x] + post)[0] == pre[0] && (pre + [x] + post)[1..] == pre[1..] + [x] + post
        ensures ProductFrom(pre[0], pre[1..] + [x] + post) == PrefixAll(pre[0][0], Product(pre[1..] + [x] + post))
      {
        assert pre[0] == [pre[0][0]];
        assert ProductFrom(pre[0][1..], pre[1..] + [x] + post) == [];
      }
      ProductSplitsInOrder(pre[1..], a, b, post);
    }
  }
}
