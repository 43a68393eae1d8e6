/** Sequence helpers shared by the remap loader and device discovery. */
module Seqs {
  import opened Options

  /** Keeps, in order, the values that `f` yields for the elements of `xs`. */
  function FilterMap<A, B>(f: A -> Option<B>, xs: seq<A>): (ys: seq<B>)
    ensures |ys| <= |xs|
  {
    if |xs| == 0 then []
    else
      (match f(xs[0])
       case Some(y) => [y]
       case None => []) + FilterMap(f, xs[1..])
  }

  /** A kept head element leads the result. */
  lemma FilterMapKeptHead<A, B>(f: A -> Option<B>, xs: seq<A>, y: B)
    requires |xs| > 0 && f(xs[0]) == Some(y)
    ensures FilterMap(f, xs) == [y] + FilterMap(f, xs[1..])
  {
  }

  /** Filtering distributes over concatenation: what a prefix yields does not depend on what follows. */
  lemma {:induction false} FilterMapConcat<A, B>(f: A -> Option<B>, xs: seq<A>, ys: seq<A>)
    ensures FilterMap(f, xs + ys) == FilterMap(f, xs) + FilterMap(f, ys)
  {
    if |xs| == 0 {
      assert xs + ys == ys;
    } else {
      var head := match f(xs[0]) case Some(y) => [y] case None => [];
      assert (xs + ys)[0] == xs[0] && (xs + ys)[1..] == xs[1..] + ys;
      FilterMapConcat(f, xs[1..], ys);
      assert FilterMap(f, xs + ys) == head + (FilterMap(f, xs[1..]) + FilterMap(f, ys));
    }
  }

  /** Nothing is kept exactly when `f` rejects every element. */
  lemma {:induction false} FilterMapEmptyIff<A, B>(f: A -> Option<B>, xs: seq<A>)
    ensures FilterMap(f, xs) == [] <==> forall i :: 0 <= i < |xs| ==> f(xs[i]).None?
  {
    if |xs| > 0 {
      FilterMapEmptyIff(f, xs[1..]);
      assert forall i :: 1 <= i < |xs| ==> xs[i] == xs[1..][i - 1];
    }
  }

  lemma FilterMapSingle<A, B>(f: A -> Option<B>, x: A)
    ensures FilterMap(f, [x]) == match f(x) case Some(y) => [y] case None => []
  {
    assert [x][1..] == [];
  }

  /** Appending one element appends what `f` yields for it. */
  lemma FilterMapSnoc<A, B>(f: A -> Option<B>, xs: seq<A>, x: A)
    ensures FilterMap(f, xs + [x]) == FilterMap(f, xs) + (match f(x) case Some(y) => [y] case None => [])
  {
    FilterMapConcat(f, xs, [x]);
    assert [x][1..] == [];
  }

  /** Extending a prefix by one element extends what it yields by what that element yields. */
  lemma FilterMapPrefixStep<A, B>(f: A -> Option<B>, xs: seq<A>, i: nat)
    requires i < |xs|
    ensures FilterMap(f, xs[..i + 1]) == FilterMap(f, xs[..i]) + (match f(xs[i]) case Some(y) => [y] case None => [])
  {
    assert xs[..i + 1] == xs[..i] + [xs[i]];
    FilterMapSnoc(f, xs[..i], xs[i]);
  }

  /** What a sequence yields is what its prefix yields followed by what the rest yields. */
  lemma FilterMapSplit<A, B>(f: A -> Option<B>, xs: seq<A>, i: nat)
    requires i <= |xs|
    ensures FilterMap(f, xs) == FilterMap(f, xs[..i]) + FilterMap(f, xs[i..])
  {
    assert xs == xs[..i] + xs[i..];
    FilterMapConcat(f, xs[..i], xs[i..]);
  }

  /** An element that `f` rejects contributes nothing, wherever it stands. */
  lemma FilterMapSkipsRejected<A, B>(f: A -> Option<B>, xs: seq<A>, x: A, ys: seq<A>)
    requires f(x).None?
    ensures FilterMap(f, xs + [x] + ys) == FilterMap(f, xs + ys)
  {
    FilterMapConcat(f, xs + [x], ys);
    FilterMapConcat(f, xs, [x]);
    FilterMapConcat(f, xs, ys);
    assert FilterMap(f, [x]) == [];
  }

  /** Every value kept comes from some element of `xs`. */
  lemma {:induction false} FilterMapOrigin<A, B>(f: A -> Option<B>, xs: seq<A>, k: nat)
    requires k < |FilterMap(f, xs)|
    ensures exists i :: 0 <= i < |xs| && f(xs[i]) == Some(FilterMap(f, xs)[k])
  {
    var head := match f(xs[0]) case Some(y) => [y] case None => [];
    assert FilterMap(f, xs) == head + FilterMap(f, xs[1..]);
    if k < |head| {
      assert f(xs[0]) == Some(FilterMap(f, xs)[k]);
    } else {
      FilterMapOrigin(f, xs[1..], k - |head|);
      var i :| 0 <= i < |xs[1..]| && f(xs[1..][i]) == Some(FilterMap(f, xs[1..])[k - |head|]);
      assert xs[1..][i] == xs[i + 1];
    }
  }

  /**
   * Reads `xs` in order, keeping what `f` yields, and stops reading as soon as
   * `cap` values are kept. `consumed` is the number of elements read.
   */
  method CollectUpTo<A, B>(f: A -> Option<B>, xs: seq<A>, cap: nat) returns (kept: seq<B>, consumed: nat)
    requires cap > 0
    ensures consumed <= |xs|
    ensures kept == FilterMap(f, xs[..consumed])
    ensures kept == Take(FilterMap(f, xs), cap)
    ensures consumed < |xs| ==> |kept| == cap
    ensures 0 < consumed ==> |FilterMap(f, xs[..consumed - 1])| < cap
  {
    kept := [];
    consumed := 0;
    while consumed < |xs|
      invariant consumed <= |xs|
      invariant kept == FilterMap(f, xs[..consumed])
      invariant |kept| < cap
      invariant 0 < consumed ==> |FilterMap(f, xs[..consumed - 1])| < cap
    {
      var y := f(xs[consumed]);
      FilterMapPrefixStep(f, xs, consumed);
      ghost var read := xs[..consumed];
      if y.Some? {
        kept := kept + [y.value];
      }
      consumed := consumed + 1;
      assert read == xs[..consumed - 1];
      if |kept| == cap {
        break;
      }
    }
    FilterMapSplit(f, xs, consumed);
  }

  /** The first `n` elements of `xs`, or all of them when there are fewer. */
  function Take<T>(xs: seq<T>, n: nat): (ys: seq<T>)
    ensures |ys| == if |xs| <= n then |xs| else n
    ensures ys <= xs
  {
    if |xs| <= n then xs else xs[..n]
  }
}
