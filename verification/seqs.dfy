/** Sequence helpers for the program's loops over slices: mapping every element, and keeping some in order. */
module Seqs {

  /** The images of the elements of `xs`, in order. */
  function Map<X, Y>(f: X -> Y, xs: seq<X>): (ys: seq<Y>)
    ensures |ys| == |xs|
    ensures forall i :: 0 <= i < |xs| ==> ys[i] == f(xs[i])
  {
    seq(|xs|, i requires 0 <= i < |xs| => f(xs[i]))
  }

  /** Mapping a sequence with one more element gives one more image at the end. */
  lemma MapSnoc<X, Y>(f: X -> Y, xs: seq<X>, x: X)
    ensures Map(f, xs + [x]) == Map(f, xs) + [f(x)]
  {
  }

  /** Without its last element, `a + b` is `a` followed by `b` without its last element. */
  lemma AppendInit<X>(a: seq<X>, b: seq<X>)
    requires b != []
    ensures (a + b)[..|a + b| - 1] == a + b[..|b| - 1]
    ensures (a + b)[|a + b| - 1] == b[|b| - 1]
  {
  }

  /** `s` is `t` with some elements left out, the rest in their order. */
  predicate Subsequence<X(==)>(s: seq<X>, t: seq<X>)
    decreases |t|
  {
    if s == [] then true
    else if t == [] then false
    else if s[|s| - 1] == t[|t| - 1] then Subsequence(s[..|s| - 1], t[..|t| - 1])
    else Subsequence(s, t[..|t| - 1])
  }

  /** A subsequence of `t` is one of `t` with an element added at the end. */
  lemma {:induction false} SubsequenceOfLonger<X>(s: seq<X>, t: seq<X>, x: X)
    requires Subsequence(s, t)
    ensures Subsequence(s, t + [x])
    decreases |t|, 1
  {
    var tx := t + [x];
    assert tx[..|tx| - 1] == t;
    if s != [] && s[|s| - 1] == x {
      var s' := s[..|s| - 1];
      SubsequenceOfPrefix(s', s, t);
    }
  }

  /** Dropping the last element of a subsequence leaves a subsequence. */
  lemma {:induction false} SubsequenceOfPrefix<X>(s': seq<X>, s: seq<X>, t: seq<X>)
    requires s != [] && s' == s[..|s| - 1] && Subsequence(s, t)
    ensures Subsequence(s', t)
    decreases |t|, 0
  {
    if s' != [] && t != [] {
      var t' := t[..|t| - 1];
      if s[|s| - 1] == t[|t| - 1] {
        SubsequenceOfLonger(s', t', t[|t| - 1]);
        assert t' + [t[|t| - 1]] == t;
      } else {
        SubsequenceOfPrefix(s', s, t');
        SubsequenceOfLonger(s', t', t[|t| - 1]);
        assert t' + [t[|t| - 1]] == t;
      }
    }
  }
}
