/** Optional values, and lists in which nothing occurs twice. */
module Basics {

  datatype Option<T> = None | Some(value: T)

  ghost predicate Once<T>(xs: seq<T>) {
    forall i, j :: 0 <= i < j < |xs| ==> xs[i] != xs[j]
  }

  lemma OnceNone<T>()
    ensures Once<T>([])
  {
  }

  lemma OnceMore<T>(x: T, xs: seq<T>)
    requires Once(xs) && x !in xs
    ensures Once([x] + xs)
  {
  }

  lemma OnceJoin<T>(xs: seq<T>, ys: seq<T>)
    requires Once(xs) && Once(ys) && forall x :: x in xs ==> x !in ys
    ensures Once(xs + ys)
  {
    forall i, j | 0 <= i < j < |xs + ys| ensures (xs + ys)[i] != (xs + ys)[j] {
      if i < |xs| <= j { assert xs[i] in xs && ys[j - |xs|] in ys; }
    }
  }

  /** Cutting a list with no repetitions cuts its elements. */
  lemma OnceParts<T>(xs: seq<T>, n: nat)
    requires Once(xs) && n <= |xs|
    ensures Once(xs[..n]) && Once(xs[n..])
    ensures forall x :: x in xs[n..] <==> x in xs && x !in xs[..n]
    ensures forall x :: x in xs[..n] ==> x in xs
  {
    forall x ensures x in xs[n..] <==> x in xs && x !in xs[..n] {
      if x in xs {
        var i :| 0 <= i < |xs| && xs[i] == x;
        if i < n { assert xs[..n][i] == x; } else { assert xs[n..][i - n] == x; }
      }
    }
  }

  lemma LastIn<T>(xs: seq<T>)
    requires xs != []
    ensures forall x :: x in xs <==> x in xs[..|xs| - 1] || x == xs[|xs| - 1]
  {
    assert xs == xs[..|xs| - 1] + [xs[|xs| - 1]];
  }

  lemma LastOnce<T>(xs: seq<T>)
    requires xs != [] && Once(xs)
    ensures Once(xs[..|xs| - 1]) && xs[|xs| - 1] !in xs[..|xs| - 1]
    ensures forall x :: x in xs <==> x in xs[..|xs| - 1] || x == xs[|xs| - 1]
  {
    LastIn(xs);
  }

  /** A list of all elements of a set, each once, is as long as the set is large. */
  lemma {:induction false} CountOnce<T>(xs: seq<T>, s: set<T>)
    requires Once(xs) && forall x :: x in xs <==> x in s
    ensures |xs| == |s|
  {
    if xs == [] {
      assert s == {};
    } else {
      LastOnce(xs);
      CountOnce(xs[..|xs| - 1], s - {xs[|xs| - 1]});
    }
  }

  lemma Associate<T>(xs: seq<T>, ys: seq<T>, zs: seq<T>)
    ensures xs + ys + zs == xs + (ys + zs)
  {
  }
}
