/** Failure-compatible wrappers standing for Python's exceptions, and two
    sequence predicates shared by the other modules. */
module Base {

  /** The Python exception classes the modelled code can raise. */
  datatype Error =
    | KeyError        // a missing dictionary key
    | TypeError       // float(None)
    | IndexError      // a list or string index out of range
    | ValueError      // tuple unpacking of the wrong length, float() of a bad literal
    | RuntimeError    // raised explicitly by the GlobalPhone parser
    | AssertionError  // a failed `assert` statement
    | ValidationError(reason: string)  // whatever the corpus validator raises

  datatype Option<+T> = None | Some(value: T)

  datatype Result<+T> = Success(value: T) | Failure(error: Error) {
    predicate IsFailure() { Failure? }

    function PropagateFailure<U>(): Result<U>
      requires Failure?
    {
      Failure(error)
    }

    function Extract(): T
      requires Success?
    {
      value
    }
  }

  /** The outcome of a call made only for its exceptions. */
  datatype Outcome = Pass | Fail(error: Error)

  /** No element occurs twice. */
  predicate NoDuplicates<T(==)>(xs: seq<T>) {
    forall i, j :: 0 <= i < j < |xs| ==> xs[i] != xs[j]
  }

  /** `xs` is obtained from `ys` by deleting elements, keeping the order. */
  predicate IsSubsequence<T(==)>(xs: seq<T>, ys: seq<T>)
    decreases |ys|
  {
    if ys == [] then xs == []
    else
      (xs != [] && xs[|xs| - 1] == ys[|ys| - 1] && IsSubsequence(xs[..|xs| - 1], ys[..|ys| - 1]))
      || IsSubsequence(xs, ys[..|ys| - 1])
  }

  lemma NoDuplicatesAppend<T>(xs: seq<T>, x: T)
    requires NoDuplicates(xs) && x !in xs
    ensures NoDuplicates(xs + [x])
  {
    forall i, j | 0 <= i < j < |xs + [x]| ensures (xs + [x])[i] != (xs + [x])[j] {
      if j == |xs| { assert (xs + [x])[i] == xs[i]; }
    }
  }

  /** The first components of a sequence of pairs. */
  function Firsts<A, B>(ps: seq<(A, B)>): (r: seq<A>)
    ensures |r| == |ps| && forall i :: 0 <= i < |ps| ==> r[i] == ps[i].0
  {
    seq(|ps|, i requires 0 <= i < |ps| => ps[i].0)
  }

  /** Python's `zip(xs, ys)`: pairs up to the shorter length. */
  function Zip<A, B>(xs: seq<A>, ys: seq<B>): (r: seq<(A, B)>)
    ensures |r| == if |xs| <= |ys| then |xs| else |ys|
    ensures forall i :: 0 <= i < |r| ==> r[i] == (xs[i], ys[i])
  {
    var n := if |xs| <= |ys| then |xs| else |ys|;
    seq(n, i requires 0 <= i < n => (xs[i], ys[i]))
  }

  lemma ZipAppend<A, B>(xs: seq<A>, ys: seq<B>, x: A, y: B)
    requires |xs| == |ys|
    ensures Zip(xs + [x], ys + [y]) == Zip(xs, ys) + [(x, y)]
  {
  }

  /** `f` applied to every element in order, stopping at the first
      failure. */
  function MapAll<A, T>(xs: seq<A>, f: A -> Result<T>): Result<seq<T>>
    decreases |xs|
  {
    if xs == [] then Success([])
    else
      var init :- MapAll(xs[..|xs| - 1], f);
      var y :- f(xs[|xs| - 1]);
      Success(init + [y])
  }

  lemma {:induction false} MapAllSuccess<A, T>(xs: seq<A>, f: A -> Result<T>)
    requires MapAll(xs, f).Success?
    ensures |MapAll(xs, f).value| == |xs|
    ensures forall i :: 0 <= i < |xs| ==> f(xs[i]).Success? && MapAll(xs, f).value[i] == f(xs[i]).value
    decreases |xs|
  {
    if xs != [] {
      var init := xs[..|xs| - 1];
      MapAllSuccess(init, f);
      forall i | 0 <= i < |xs|
        ensures f(xs[i]).Success? && MapAll(xs, f).value[i] == f(xs[i]).value
      {
        if i < |init| { assert xs[i] == init[i]; }
      }
    }
  }

  /** A failure on a prefix is the failure of the whole. */
  lemma {:induction false} MapAllFailure<A, T>(xs: seq<A>, f: A -> Result<T>, n: nat)
    requires n <= |xs| && MapAll(xs[..n], f).Failure?
    ensures MapAll(xs, f) == MapAll(xs[..n], f)
    decreases |xs|
  {
    if n < |xs| {
      assert xs[..|xs| - 1][..n] == xs[..n];
      MapAllFailure(xs[..|xs| - 1], f, n);
    } else {
      assert xs[..n] == xs;
    }
  }

  lemma MapAllStep<A, T>(xs: seq<A>, f: A -> Result<T>, i: nat)
    requires i < |xs| && MapAll(xs[..i], f).Success?
    ensures MapAll(xs[..i + 1], f) ==
      if f(xs[i]).Success? then Success(MapAll(xs[..i], f).value + [f(xs[i]).value])
      else Failure(f(xs[i]).error)
  {
    assert xs[..i + 1][..i] == xs[..i];
  }

  /** The images under `f`, in order, of the elements of `xs` that satisfy
      `keep`: a list comprehension `[f(x) for x in xs if keep(x)]`. */
  function FilterMap<A, B>(xs: seq<A>, keep: A -> bool, f: A -> B): seq<B>
    decreases |xs|
  {
    if xs == [] then []
    else FilterMap(xs[..|xs| - 1], keep, f) + (if keep(xs[|xs| - 1]) then [f(xs[|xs| - 1])] else [])
  }

  lemma FilterMapStep<A, B>(xs: seq<A>, keep: A -> bool, f: A -> B, i: nat)
    requires i < |xs|
    ensures FilterMap(xs[..i + 1], keep, f) == FilterMap(xs[..i], keep, f) + (if keep(xs[i]) then [f(xs[i])] else [])
  {
    assert xs[..i + 1][..i] == xs[..i];
  }

  /** `y` is produced exactly when some kept element maps to it. */
  lemma {:induction false} FilterMapMembership<A, B>(xs: seq<A>, keep: A -> bool, f: A -> B, y: B)
    ensures y in FilterMap(xs, keep, f) <==> exists i :: 0 <= i < |xs| && keep(xs[i]) && f(xs[i]) == y
    decreases |xs|
  {
    if xs != [] {
      var n := |xs| - 1;
      var init := xs[..n];
      FilterMapMembership(init, keep, f, y);
      if y in FilterMap(xs, keep, f) {
        if y in FilterMap(init, keep, f) {
          var i :| 0 <= i < |init| && keep(init[i]) && f(init[i]) == y;
          assert xs[i] == init[i];
        } else {
          assert keep(xs[n]) && f(xs[n]) == y;
        }
      }
      if exists i :: 0 <= i < |xs| && keep(xs[i]) && f(xs[i]) == y {
        var i :| 0 <= i < |xs| && keep(xs[i]) && f(xs[i]) == y;
        if i < n {
          assert init[i] == xs[i];
        }
      }
    }
  }

  /** The result keeps the order of `ys`, the image of all of `xs`. */
  /** Filtering without changing the elements keeps each kept element as
      often as it occurs. */
  lemma {:induction false} FilterMapCount<A>(xs: seq<A>, keep: A -> bool, f: A -> A, y: A)
    requires forall x :: f(x) == x
    ensures multiset(FilterMap(xs, keep, f))[y] == if keep(y) then multiset(xs)[y] else 0
    decreases |xs|
  {
    if xs != [] {
      var n := |xs| - 1;
      FilterMapCount(xs[..n], keep, f, y);
      assert xs == xs[..n] + [xs[n]];
    }
  }

  lemma {:induction false} FilterMapSubsequence<A, B>(xs: seq<A>, keep: A -> bool, f: A -> B, ys: seq<B>)
    requires |ys| == |xs| && forall i :: 0 <= i < |xs| ==> ys[i] == f(xs[i])
    ensures IsSubsequence(FilterMap(xs, keep, f), ys)
    decreases |xs|
  {
    if xs != [] {
      var n := |xs| - 1;
      FilterMapSubsequence(xs[..n], keep, f, ys[..n]);
      var r := FilterMap(xs, keep, f);
      if keep(xs[n]) {
        assert r[..|r| - 1] == FilterMap(xs[..n], keep, f);
      } else {
        assert r == FilterMap(xs[..n], keep, f);
      }
    }
  }

  /** Distinct images give a result without duplicates. */
  lemma {:induction false} FilterMapDistinct<A, B>(xs: seq<A>, keep: A -> bool, f: A -> B, ys: seq<B>)
    requires |ys| == |xs| && forall i :: 0 <= i < |xs| ==> ys[i] == f(xs[i])
    requires NoDuplicates(ys)
    ensures NoDuplicates(FilterMap(xs, keep, f))
    decreases |xs|
  {
    if xs != [] {
      var n := |xs| - 1;
      var init := xs[..n];
      FilterMapDistinct(init, keep, f, ys[..n]);
      if keep(xs[n]) {
        FilterMapMembership(init, keep, f, f(xs[n]));
        NoDuplicatesAppend(FilterMap(init, keep, f), f(xs[n]));
      }
    }
  }
}
