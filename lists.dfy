/** List helpers for the React state arrays (`addedSlots`, slot-name lists). */
module Lists {

  /** No element occurs twice. */
  predicate NoDup<T(==)>(xs: seq<T>) {
    forall i, j :: 0 <= i < j < |xs| ==> xs[i] != xs[j]
  }

  /** `xs.filter(y => y !== x)`: every occurrence of `x` removed, the rest kept in order. */
  function FilterOut(xs: seq<string>, x: string): (r: seq<string>)
    ensures forall y :: y in r <==> y in xs && y != x
    ensures |r| <= |xs|
    ensures NoDup(xs) ==> NoDup(r)
  {
    if xs == [] then []
    else if xs[0] == x then FilterOut(xs[1..], x)
    else
      var rest := FilterOut(xs[1..], x);
      assert NoDup(xs) ==> xs[0] !in xs[1..];
      [xs[0]] + rest
  }

  /** Filtering out an absent element changes nothing. */
  lemma {:induction false} FilterOutAbsent(xs: seq<string>, x: string)
    requires x !in xs
    ensures FilterOut(xs, x) == xs
  {
    if xs != [] {
      FilterOutAbsent(xs[1..], x);
    }
  }

  /** Filtering `x` out of a list that ends with `x` is filtering it out of the list before it. */
  lemma {:induction false} FilterOutAppended(xs: seq<string>, x: string)
    ensures FilterOut(xs + [x], x) == FilterOut(xs, x)
  {
    if xs == [] {
      assert [x][1..] == [];
    } else {
      assert (xs + [x])[1..] == xs[1..] + [x];
      FilterOutAppended(xs[1..], x);
    }
  }

  /**
   * The filter keeps order: a one-element list is kept unless it is `x`, and
   * filtering a concatenation filters each part and concatenates the results.
   * Together these determine the result for every list.
   */
  lemma {:induction false} FilterOutKeepsOrder(xs: seq<string>, ys: seq<string>, x: string)
    ensures forall y :: FilterOut([y], x) == if y == x then [] else [y]
    ensures FilterOut(xs + ys, x) == FilterOut(xs, x) + FilterOut(ys, x)
  {
    forall y
      ensures FilterOut([y], x) == if y == x then [] else [y]
    {
      assert [y][1..] == [];
    }
    if xs == [] {
      assert xs + ys == ys;
    } else {
      assert (xs + ys)[1..] == xs[1..] + ys;
      FilterOutKeepsOrder(xs[1..], ys, x);
    }
  }
}
