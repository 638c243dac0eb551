/** Element-wise projection of a sequence. */
module Seqs {
  function Map<A, B>(f: A -> B, s: seq<A>): (r: seq<B>)
    ensures |r| == |s| && forall i :: 0 <= i < |s| ==> r[i] == f(s[i])
  {
    seq(|s|, i requires 0 <= i < |s| => f(s[i]))
  }

  lemma MapAppend<A, B>(f: A -> B, a: seq<A>, b: seq<A>)
    ensures Map(f, a + b) == Map(f, a) + Map(f, b)
  {
    assert forall i :: 0 <= i < |a + b| ==> Map(f, a + b)[i] == (Map(f, a) + Map(f, b))[i];
  }

  /** The part a sequence gained at its end: `b` grew from `a` by appending `d`. */
  lemma SuffixAppend<T>(a: seq<T>, b: seq<T>, d: seq<T>)
    requires a <= b
    ensures (b + d)[|a|..] == b[|a|..] + d
  {
  }

  /**
   * Projections of consecutive growth compose: if `b` extends `a` by rows viewed as `va`
   * and `d` extends `b` by rows viewed as `vb`, then `d` extends `a` by `va + vb`.
   */
  lemma ViewStep<A, B>(f: A -> B, a: seq<A>, b: seq<A>, d: seq<A>, va: seq<B>, vb: seq<B>)
    requires a <= b && b <= d
    requires Map(f, b[|a|..]) == va && Map(f, d[|b|..]) == vb
    ensures a <= d && Map(f, d[|a|..]) == va + vb
  {
    assert d == b + d[|b|..];
    SuffixAppend(a, b, d[|b|..]);
    MapAppend(f, b[|a|..], d[|b|..]);
  }

  /** The concatenation of `f` over `s`, in order. */
  function FlatMap<A, B>(f: A -> seq<B>, s: seq<A>): seq<B>
  {
    if |s| == 0 then [] else FlatMap(f, s[..|s| - 1]) + f(s[|s| - 1])
  }

  lemma {:induction false} FlatMapAppend<A, B>(f: A -> seq<B>, a: seq<A>, b: seq<A>)
    ensures FlatMap(f, a + b) == FlatMap(f, a) + FlatMap(f, b)
    decreases |b|
  {
    if |b| > 0 {
      assert (a + b)[..|a + b| - 1] == a + b[..|b| - 1];
      FlatMapAppend(f, a, b[..|b| - 1]);
    } else {
      assert a + b == a;
    }
  }

  /** The part contributed by element `i` sits between those of its neighbours. */
  lemma {:induction false} FlatMapAt<A, B>(f: A -> seq<B>, s: seq<A>, i: nat)
    requires i < |s|
    ensures FlatMap(f, s) == FlatMap(f, s[..i]) + f(s[i]) + FlatMap(f, s[i + 1..])
  {
    var pre, post := s[..i + 1], s[i + 1..];
    assert s == pre + post;
    FlatMapAppend(f, pre, post);
    assert pre[..|pre| - 1] == s[..i];
    assert FlatMap(f, pre) == FlatMap(f, s[..i]) + f(s[i]);
  }

  /** Some element satisfies `p` exactly when one before the last does, or the last does. */
  lemma ExistsInit<T>(xs: seq<T>, init: seq<T>, p: T -> bool)
    requires |xs| > 0 && init == xs[..|xs| - 1]
    ensures (exists i :: 0 <= i < |xs| && p(xs[i]))
            <==> (exists i :: 0 <= i < |init| && p(init[i])) || p(xs[|xs| - 1])
  {
    assert forall i :: 0 <= i < |init| ==> init[i] == xs[i];
  }
}
