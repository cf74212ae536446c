/** Sorted sequences without repeats, as the sorting group-by and join
    operations of pandas produce them, over any strict total order. */
module Sorting {

  /** less is irreflexive, transitive and total. */
  ghost predicate StrictOrder<T(!new)>(less: (T, T) -> bool) {
    && (forall a :: !less(a, a))
    && (forall a, b, c :: less(a, b) && less(b, c) ==> less(a, c))
    && (forall a, b :: a != b ==> less(a, b) || less(b, a))
  }

  /** Ascending under less, hence without repeats. */
  predicate SortedBy<T>(less: (T, T) -> bool, xs: seq<T>) {
    forall i, j :: 0 <= i < j < |xs| ==> less(xs[i], xs[j])
  }

  /** x added to an ascending sequence, keeping it ascending. */
  function InsertBy<T(==,!new)>(less: (T, T) -> bool, x: T, xs: seq<T>): (r: seq<T>)
    requires StrictOrder(less) && SortedBy(less, xs)
    ensures SortedBy(less, r)
    ensures forall y :: y in r <==> y == x || y in xs
    decreases |xs|
  {
    if xs == [] then [x]
    else if x == xs[0] then xs
    else if less(x, xs[0]) then [x] + xs
    else
      var rest := InsertBy(less, x, xs[1..]);
      assert forall y :: y in rest ==> less(xs[0], y);
      [xs[0]] + rest
  }

  /** sorted(set(xs)) under less. */
  function SortedSet<T(==,!new)>(less: (T, T) -> bool, xs: seq<T>): (r: seq<T>)
    requires StrictOrder(less)
    ensures SortedBy(less, r)
    ensures forall y :: y in r <==> y in xs
  {
    if xs == [] then [] else InsertBy(less, xs[|xs| - 1], SortedSet(less, xs[..|xs| - 1]))
  }

  /** An ascending sequence is determined by its elements. */
  lemma {:induction false} SortedByUnique<T(!new)>(less: (T, T) -> bool, xs: seq<T>, ys: seq<T>)
    requires StrictOrder(less) && SortedBy(less, xs) && SortedBy(less, ys)
    requires forall y :: y in xs <==> y in ys
    ensures xs == ys
    decreases |xs|
  {
    if xs != [] && ys != [] {
      if xs[0] != ys[0] {
        HeadIn(xs);
        HeadIn(ys);
        assert false;
      }
      forall y ensures y in xs[1..] <==> y in ys[1..] {
        if y in xs[1..] {
          assert y != xs[0];
          assert y in ys;
        }
        if y in ys[1..] {
          assert y != ys[0];
          assert y in xs;
        }
      }
      SortedByUnique(less, xs[1..], ys[1..]);
      assert xs == [xs[0]] + xs[1..] && ys == [ys[0]] + ys[1..];
    } else if xs != [] {
      HeadIn(xs);
      assert false;
    } else if ys != [] {
      HeadIn(ys);
      assert false;
    }
  }

  /** Two ascending runs, every element of the first below every element
      of the second, make one ascending run. */
  lemma SortedConcat<T>(less: (T, T) -> bool, a: seq<T>, b: seq<T>)
    requires SortedBy(less, a) && SortedBy(less, b)
    requires forall x, y :: x in a && y in b ==> less(x, y)
    ensures SortedBy(less, a + b)
  {
    forall p, q | 0 <= p < q < |a + b| ensures less((a + b)[p], (a + b)[q]) {
      if q < |a| {
        assert (a + b)[p] == a[p] && (a + b)[q] == a[q];
      } else if p < |a| {
        assert (a + b)[p] in a && (a + b)[q] in b;
      } else {
        assert (a + b)[p] == b[p - |a|] && (a + b)[q] == b[q - |a|];
      }
    }
  }

  lemma HeadIn<T>(xs: seq<T>)
    ensures xs != [] ==> xs[0] in xs
  {
  }

  /** Lexicographic order of sequences under an order on their elements:
      Python's `<` on str and on tuples. */
  predicate Lex<T(==)>(less: (T, T) -> bool, a: seq<T>, b: seq<T>)
    decreases |a|
  {
    if a == [] then b != []
    else if b == [] then false
    else if a[0] != b[0] then less(a[0], b[0])
    else Lex(less, a[1..], b[1..])
  }

  lemma {:induction false} LexIrreflexive<T(!new)>(less: (T, T) -> bool, a: seq<T>)
    requires StrictOrder(less)
    ensures !Lex(less, a, a)
    decreases |a|
  {
    if a != [] {
      LexIrreflexive(less, a[1..]);
    }
  }

  lemma {:induction false} LexTransitive<T(!new)>(less: (T, T) -> bool, a: seq<T>, b: seq<T>, c: seq<T>)
    requires StrictOrder(less) && Lex(less, a, b) && Lex(less, b, c)
    ensures Lex(less, a, c)
    decreases |a|
  {
    if a != [] && a[0] == b[0] && b[0] == c[0] {
      LexTransitive(less, a[1..], b[1..], c[1..]);
    }
  }

  lemma {:induction false} LexTotal<T(!new)>(less: (T, T) -> bool, a: seq<T>, b: seq<T>)
    requires StrictOrder(less) && a != b
    ensures Lex(less, a, b) || Lex(less, b, a)
    decreases |a|
  {
    if a != [] && b != [] && a[0] == b[0] {
      assert a == [a[0]] + a[1..] && b == [b[0]] + b[1..];
      LexTotal(less, a[1..], b[1..]);
    }
  }
}
