/** Option and Result: the null values and the raised exceptions of the pipeline. */
module Wrappers {

  /** A value that may be missing (pandas NaN / Python None). */
  datatype Option<+T> = None | Some(value: T) {
    function GetOr(default: T): T {
      match this
      case Some(v) => v
      case None => default
    }
  }

  /** The outcome of an operation that may raise. */
  datatype Result<+T, +E> = Ok(value: T) | Err(error: E)

  /** f applied to each element in order: all the results, or the error
      of the first element that fails. */
  function MapResult<A, B, E>(f: A -> Result<B, E>, xs: seq<A>): Result<seq<B>, E>
    decreases |xs|
  {
    if xs == [] then Ok([])
    else
      var n := |xs| - 1;
      match MapResult(f, xs[..n])
      case Err(e) => Err(e)
      case Ok(ys) =>
        match f(xs[n])
        case Err(e) => Err(e)
        case Ok(y) => Ok(ys + [y])
  }

  /** MapResult succeeds exactly when f succeeds on every element, and then
      yields f's results in order; otherwise it yields the error of the
      first element on which f fails. */
  lemma {:induction false} MapResultPerElement<A, B, E>(f: A -> Result<B, E>, xs: seq<A>)
    ensures MapResult(f, xs).Ok? <==> forall j :: 0 <= j < |xs| ==> f(xs[j]).Ok?
    ensures MapResult(f, xs).Ok? ==>
      |MapResult(f, xs).value| == |xs| && forall j :: 0 <= j < |xs| ==> f(xs[j]) == Ok(MapResult(f, xs).value[j])
    ensures MapResult(f, xs).Err? ==>
      exists j :: 0 <= j < |xs| && f(xs[j]) == Err(MapResult(f, xs).error) && forall t :: 0 <= t < j ==> f(xs[t]).Ok?
  {
    if xs != [] {
      var n := |xs| - 1;
      var init := xs[..n];
      MapResultPerElement(f, init);
      assert forall j :: 0 <= j < n ==> init[j] == xs[j];
      if MapResult(f, init).Ok? && f(xs[n]).Err? {
        assert f(xs[n]) == Err(MapResult(f, xs).error);
      }
    }
  }

  /** Once a prefix of xs fails, MapResult over all of xs fails the same way. */
  lemma {:induction false} MapResultFailedPrefix<A, B, E>(f: A -> Result<B, E>, xs: seq<A>, n: nat)
    requires n <= |xs| && MapResult(f, xs[..n]).Err?
    ensures MapResult(f, xs) == MapResult(f, xs[..n])
    decreases |xs| - n
  {
    if n < |xs| {
      var m := |xs| - 1;
      assert xs[..m][..n] == xs[..n];
      MapResultFailedPrefix(f, xs[..m], n);
    } else {
      assert xs[..n] == xs;
    }
  }

  /** The state after n turns of a loop whose turns may fail: turn i maps
      the state to a new one or to the error that ends the loop. */
  function Steps<S, E>(step: (nat, S) -> Result<S, E>, init: S, n: nat): Result<S, E> {
    if n == 0 then Ok(init)
    else
      match Steps(step, init, n - 1)
      case Err(e) => Err(e)
      case Ok(s) => step(n - 1, s)
  }

  /** A failed turn ends the loop: every later count yields the same error. */
  lemma {:induction false} StepsFailureSticks<S, E>(step: (nat, S) -> Result<S, E>, init: S, n: nat, m: nat)
    requires n <= m && Steps(step, init, n).Err?
    ensures Steps(step, init, m) == Steps(step, init, n)
    decreases m - n
  {
    if n < m {
      StepsFailureSticks(step, init, n, m - 1);
    }
  }

  /** A property that turn j establishes and every later turn keeps holds
      at the end of a loop that got through n > j turns. */
  lemma {:induction false} StepsReach<S, E>(step: (nat, S) -> Result<S, E>, init: S, n: nat, j: nat, p: S -> bool)
    requires j < n && Steps(step, init, n).Ok?
    requires forall s :: step(j, s).Ok? ==> p(step(j, s).value)
    requires forall i: nat, s :: j < i && step(i, s).Ok? && p(s) ==> p(step(i, s).value)
    ensures p(Steps(step, init, n).value)
  {
    assert Steps(step, init, n - 1).Ok?;
    var s := Steps(step, init, n - 1).value;
    assert Steps(step, init, n) == step(n - 1, s);
    if j < n - 1 {
      StepsReach(step, init, n - 1, j, p);
    }
    ReachTurn(step, j, n - 1, s, p);
  }

  /** Turn i establishes the property when it is turn j, or a later turn
      starting from a state that has it. */
  lemma ReachTurn<S, E>(step: (nat, S) -> Result<S, E>, j: nat, i: nat, s: S, p: S -> bool)
    requires forall s :: step(j, s).Ok? ==> p(step(j, s).value)
    requires forall i: nat, s :: j < i && step(i, s).Ok? && p(s) ==> p(step(i, s).value)
    requires step(i, s).Ok? && (i == j || (j < i && p(s)))
    ensures p(step(i, s).value)
  {
  }

  /** A loop that got through n turns got through every turn before. */
  lemma StepsPrefixOk<S, E>(step: (nat, S) -> Result<S, E>, init: S, n: nat)
    requires n > 0 && Steps(step, init, n).Ok?
    ensures Steps(step, init, n - 1).Ok?
  {
  }

  /** The blocks f gives the elements of xs, concatenated in order. */
  function FlatMap<A, B>(f: A -> seq<B>, xs: seq<A>): seq<B> {
    if xs == [] then []
    else FlatMap(f, xs[..|xs| - 1]) + f(xs[|xs| - 1])
  }

  /** Where every block is one element, FlatMap keeps the number and the
      order of the elements. */
  lemma {:induction false} FlatMapSingles<A, B>(f: A -> seq<B>, xs: seq<A>)
    requires forall i :: 0 <= i < |xs| ==> |f(xs[i])| == 1
    ensures |FlatMap(f, xs)| == |xs|
    ensures forall i :: 0 <= i < |xs| ==> FlatMap(f, xs)[i] == f(xs[i])[0]
  {
    if xs != [] {
      var n := |xs| - 1;
      assert forall i :: 0 <= i < n ==> xs[..n][i] == xs[i];
      FlatMapSingles(f, xs[..n]);
    }
  }

  /** FlatMap over a concatenation is the concatenation of the FlatMaps. */
  lemma {:induction false} FlatMapConcat<A, B>(f: A -> seq<B>, xs: seq<A>, ys: seq<A>)
    ensures FlatMap(f, xs + ys) == FlatMap(f, xs) + FlatMap(f, ys)
    decreases |ys|
  {
    if ys == [] {
      assert xs + ys == xs;
    } else {
      var n := |ys| - 1;
      assert (xs + ys)[..|xs| + n] == xs + ys[..n];
      FlatMapConcat(f, xs, ys[..n]);
    }
  }

  /** FlatMap over one element is its block. */
  lemma FlatMapOne<A, B>(f: A -> seq<B>, x: A)
    ensures FlatMap(f, [x]) == f(x)
  {
    assert [x][..0] == [];
  }

  /** The block of xs[k] sits in FlatMap right after the blocks of the
      elements before it. */
  lemma FlatMapAt<A, B>(f: A -> seq<B>, xs: seq<A>, k: nat)
    requires k < |xs|
    ensures FlatMap(f, xs) == FlatMap(f, xs[..k]) + f(xs[k]) + FlatMap(f, xs[k + 1..])
  {
    var front, back := xs[..k], xs[k..];
    assert xs == front + back;
    FlatMapConcat(f, front, back);
    assert back == [xs[k]] + xs[k + 1..];
    FlatMapConcat(f, [xs[k]], xs[k + 1..]);
    FlatMapOne(f, xs[k]);
  }


  /** Where no block is empty, FlatMap has at least one element per
      element of xs, and one more per further element of any block. */
  lemma {:induction false} FlatMapLength<A, B>(f: A -> seq<B>, xs: seq<A>, k: nat)
    requires forall i :: 0 <= i < |xs| ==> |f(xs[i])| >= 1
    requires k < |xs|
    ensures |FlatMap(f, xs)| >= |xs| - 1 + |f(xs[k])|
  {
    var n := |xs| - 1;
    assert forall i :: 0 <= i < n ==> xs[..n][i] == xs[i];
    if k < n {
      FlatMapLength(f, xs[..n], k);
    } else if n > 0 {
      FlatMapLength(f, xs[..n], 0);
    }
  }

  /** The values f gives the elements of xs, in order, leaving out the
      elements it gives None for. */
  function Collect<A, B>(f: A -> Option<B>, xs: seq<A>): (ys: seq<B>)
    ensures |ys| <= |xs|
  {
    if xs == [] then []
    else
      var n := |xs| - 1;
      match f(xs[n])
      case None => Collect(f, xs[..n])
      case Some(y) => Collect(f, xs[..n]) + [y]
  }

  /** One more element adds its value, if it has one. */
  lemma CollectNext<A, B>(f: A -> Option<B>, xs: seq<A>, x: A)
    ensures Collect(f, xs + [x]) == match f(x)
                                    case None => Collect(f, xs)
                                    case Some(y) => Collect(f, xs) + [y]
  {
    assert (xs + [x])[..|xs|] == xs;
  }

  /** Every collected value is the value of some element. */
  lemma {:induction false} CollectFrom<A, B>(f: A -> Option<B>, xs: seq<A>, i: nat)
    requires i < |Collect(f, xs)|
    ensures exists j :: 0 <= j < |xs| && f(xs[j]) == Some(Collect(f, xs)[i])
  {
    var n := |xs| - 1;
    var rest := Collect(f, xs[..n]);
    if i < |rest| {
      CollectFrom(f, xs[..n], i);
      var j :| 0 <= j < n && f(xs[..n][j]) == Some(rest[i]);
      assert xs[..n][j] == xs[j];
    } else {
      assert f(xs[n]) == Some(Collect(f, xs)[i]);
    }
  }

  /** Where f gives every element a value, one value per element, in
      order. */
  lemma {:induction false} CollectAll<A, B>(f: A -> Option<B>, xs: seq<A>)
    requires forall j :: 0 <= j < |xs| ==> f(xs[j]).Some?
    ensures |Collect(f, xs)| == |xs|
    ensures forall j :: 0 <= j < |xs| ==> Some(Collect(f, xs)[j]) == f(xs[j])
  {
    if xs != [] {
      var n := |xs| - 1;
      assert forall j :: 0 <= j < n ==> xs[..n][j] == xs[j];
      CollectAll(f, xs[..n]);
    }
  }

  /** The elements of xs that satisfy p, in order. */
  function Filter<T(!new)>(p: T -> bool, xs: seq<T>): (ys: seq<T>)
    ensures |ys| <= |xs|
    ensures forall y :: y in ys <==> y in xs && p(y)
  {
    if xs == [] then []
    else
      var n := |xs| - 1;
      var init := Filter(p, xs[..n]);
      assert forall y :: y in xs <==> y in xs[..n] || y == xs[n];
      if p(xs[n]) then init + [xs[n]] else init
  }

  /** Filtering a concatenation filters each part. */
  lemma {:induction false} FilterConcat<T(!new)>(p: T -> bool, xs: seq<T>, ys: seq<T>)
    ensures Filter(p, xs + ys) == Filter(p, xs) + Filter(p, ys)
    decreases |ys|
  {
    if ys != [] {
      var n := |ys| - 1;
      assert (xs + ys)[..|xs| + n] == xs + ys[..n];
      FilterConcat(p, xs, ys[..n]);
    } else {
      assert xs + ys == xs;
    }
  }

  /** The first position of x in xs. */
  function Find<T(==)>(xs: seq<T>, x: T): (i: nat)
    requires x in xs
    ensures i < |xs| && xs[i] == x && x !in xs[..i]
  {
    if xs[0] == x then 0
    else
      assert x in xs[1..];
      var j := Find(xs[1..], x);
      assert xs[..j + 1] == [xs[0]] + xs[1..][..j];
      j + 1
  }
}
