/** Small sequence and multiset vocabulary shared by every part of the model. */
module Base {

  datatype Option<+T> = None | Some(value: T)

  /** Concatenation of all the sequences of `xss`, in order. */
  function Flatten<T>(xss: seq<seq<T>>): (r: seq<T>) {
    if xss == [] then [] else xss[0] + Flatten(xss[1..])
  }

  lemma {:induction false} FlattenConcat<T>(xss: seq<seq<T>>, yss: seq<seq<T>>)
    ensures Flatten(xss + yss) == Flatten(xss) + Flatten(yss)
  {
    if xss == [] {
      assert xss + yss == yss;
    } else {
      assert (xss + yss)[1..] == xss[1..] + yss;
      FlattenConcat(xss[1..], yss);
    }
  }

  lemma FlattenSnoc<T>(xss: seq<seq<T>>, xs: seq<T>)
    ensures Flatten(xss + [xs]) == Flatten(xss) + xs
  {
    FlattenConcat(xss, [xs]);
    assert Flatten([xs]) == xs + Flatten([]);
  }

  lemma RemoveOne<T>(x: T, xs: seq<T>, left: seq<T>, right: seq<T>)
    requires multiset([x] + xs) == multiset(left + [x] + right)
    ensures multiset(xs) == multiset(left + right)
  {
    var a, b := multiset(xs), multiset(left + right);
    assert multiset{x} + a == multiset{x} + b by {
      assert multiset([x] + xs) == multiset{x} + a;
      assert multiset(left + [x] + right) == multiset(left) + multiset{x} + multiset(right);
      assert b == multiset(left) + multiset(right);
    }
    assert a == (multiset{x} + a) - multiset{x};
    assert b == (multiset{x} + b) - multiset{x};
  }

  lemma FlattenMiddle<T>(left: seq<seq<T>>, x: seq<T>, right: seq<seq<T>>)
    ensures Flatten(left + [x] + right) == Flatten(left) + x + Flatten(right)
    ensures Flatten(left + right) == Flatten(left) + Flatten(right)
  {
    FlattenConcat(left + [x], right);
    FlattenSnoc(left, x);
    FlattenConcat(left, right);
  }

  /** Reordering the blocks does not change what is in them. */
  lemma {:induction false} FlattenPermutation<T>(xss: seq<seq<T>>, yss: seq<seq<T>>)
    requires multiset(xss) == multiset(yss)
    ensures multiset(Flatten(xss)) == multiset(Flatten(yss))
  {
    if xss == [] {
      assert |yss| == |multiset(yss)| == 0;
    } else {
      assert xss[0] in multiset(yss);
      var i :| 0 <= i < |yss| && yss[i] == xss[0];
      var left, right := yss[..i], yss[i + 1..];
      assert yss == left + [xss[0]] + right;
      assert xss == [xss[0]] + xss[1..];
      RemoveOne(xss[0], xss[1..], left, right);
      FlattenPermutation(xss[1..], left + right);
      FlattenMiddle(left, xss[0], right);
    }
  }

  /** The elements of `xs` that `keep` accepts, order kept. */
  function Filter<T>(keep: T -> bool, xs: seq<T>): seq<T> {
    if xs == [] then []
    else if keep(xs[0]) then [xs[0]] + Filter(keep, xs[1..])
    else Filter(keep, xs[1..])
  }

  lemma {:induction false} FilterConcat<T>(keep: T -> bool, xs: seq<T>, ys: seq<T>)
    ensures Filter(keep, xs + ys) == Filter(keep, xs) + Filter(keep, ys)
  {
    if xs == [] {
      assert xs + ys == ys;
    } else {
      assert (xs + ys)[1..] == xs[1..] + ys;
      FilterConcat(keep, xs[1..], ys);
    }
  }

  function Map<A, B>(f: A -> B, xs: seq<A>): (r: seq<B>)
    ensures |r| == |xs|
    ensures forall i :: 0 <= i < |xs| ==> r[i] == f(xs[i])
  {
    seq(|xs|, i requires 0 <= i < |xs| => f(xs[i]))
  }

  lemma MapConcat<A, B>(f: A -> B, xs: seq<A>, ys: seq<A>)
    ensures Map(f, xs + ys) == Map(f, xs) + Map(f, ys)
  {
  }

  lemma MapMiddle<A, B>(f: A -> B, left: seq<A>, x: A, right: seq<A>)
    ensures Map(f, left + [x] + right) == Map(f, left) + [f(x)] + Map(f, right)
    ensures Map(f, left + right) == Map(f, left) + Map(f, right)
  {
  }

  lemma Rearranged<B>(left: seq<B>, x: B, right: seq<B>, rest: seq<B>)
    requires multiset(left + right) == multiset(rest)
    ensures multiset([] + [x] + rest) == multiset(left + [x] + right)
  {
    assert multiset([] + [x] + rest) == multiset{x} + multiset(rest);
    assert multiset(left + right) == multiset(left) + multiset(right);
  }

  lemma {:induction false} MapPermutation<A, B>(f: A -> B, xs: seq<A>, ys: seq<A>)
    requires multiset(xs) == multiset(ys)
    ensures multiset(Map(f, xs)) == multiset(Map(f, ys))
  {
    if xs == [] {
      assert |ys| == |multiset(ys)| == 0;
    } else {
      hide Map;
      assert xs[0] in multiset(ys);
      var i :| 0 <= i < |ys| && ys[i] == xs[0];
      var left, right := ys[..i], ys[i + 1..];
      assert ys == left + [xs[0]] + right;
      assert xs == [] + [xs[0]] + xs[1..];
      assert [] + xs[1..] == xs[1..] && [xs[0]] + xs[1..] == xs;
      RemoveOne(xs[0], xs[1..], left, right);
      MapPermutation(f, xs[1..], left + right);
      MapMiddle(f, left, xs[0], right);
      MapMiddle(f, [], xs[0], xs[1..]);
      assert Map(f, []) == [];
      Rearranged(Map(f, left), f(xs[0]), Map(f, right), Map(f, xs[1..]));
    }
  }

  ghost predicate Distinct(xs: seq<nat>) {
    forall i, j :: 0 <= i < j < |xs| ==> xs[i] != xs[j]
  }

  function Min(a: nat, b: nat): (m: nat)
    ensures m <= a && m <= b && (m == a || m == b)
  {
    if a <= b then a else b
  }

  /** The first `limit` elements, or all of them when there is no limit. */
  function Take<T>(xs: seq<T>, limit: Option<nat>): seq<T> {
    match limit
    case None => xs
    case Some(n) => xs[..Min(n, |xs|)]
  }
}
