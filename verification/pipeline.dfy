/**
 * The fan-out/fan-in shape shared by the three getters: every requested name
 * becomes exactly one outcome, outcomes arrive in some order, the successes
 * are sorted by the index of their name and the failures are collected as
 * they arrive.
 *
 * The goroutines are modelled by an arrival order: a permutation of the
 * request indices saying in which order the outcomes reach the collectors.
 */
module Pipeline {
  import opened Seqs

  /** What one download produced: the named contents, or the reason it failed. */
  datatype Outcome<S, F> = Success(value: S) | Failure(reason: F)

  /** The success values of `outs`, in the order of `outs`. */
  function Successes<S, F>(outs: seq<Outcome<S, F>>): seq<S>
  {
    if outs == [] then []
    else
      var last := outs[|outs| - 1];
      Successes(outs[..|outs| - 1]) + (if last.Success? then [last.value] else [])
  }

  /** The failure reasons of `outs`, in the order of `outs`. */
  function Failures<S, F>(outs: seq<Outcome<S, F>>): seq<F>
  {
    if outs == [] then []
    else
      var last := outs[|outs| - 1];
      Failures(outs[..|outs| - 1]) + (if last.Failure? then [last.reason] else [])
  }

  /** Every outcome is collected exactly once: as a success or as a failure. */
  lemma {:induction false} OutcomesPartition<S, F>(outs: seq<Outcome<S, F>>)
    ensures |Successes(outs)| + |Failures(outs)| == |outs|
  {
    if outs != [] {
      OutcomesPartition(outs[..|outs| - 1]);
    }
  }

  /** The successes are exactly the values of the Success outcomes, counted with multiplicity. */
  lemma {:induction false} SuccessesCount<S, F>(outs: seq<Outcome<S, F>>, s: S)
    ensures multiset(Successes(outs))[s] == multiset(outs)[Success(s)]
  {
    if outs != [] {
      var init, last := outs[..|outs| - 1], outs[|outs| - 1];
      SuccessesCount(init, s);
      assert outs == init + [last];
      CountSnoc(init, last, Success(s));
      var more := if last.Success? then [last.value] else [];
      assert Successes(outs) == Successes(init) + more;
      CountAppend(Successes(init), more, s);
    }
  }

  /** The failures are exactly the reasons of the Failure outcomes, counted with multiplicity. */
  lemma {:induction false} FailuresCount<S, F>(outs: seq<Outcome<S, F>>, f: F)
    ensures multiset(Failures(outs))[f] == multiset(outs)[Failure(f)]
  {
    if outs != [] {
      var init, last := outs[..|outs| - 1], outs[|outs| - 1];
      FailuresCount(init, f);
      assert outs == init + [last];
      CountSnoc(init, last, Failure(f));
      var more := if last.Failure? then [last.reason] else [];
      assert Failures(outs) == Failures(init) + more;
      CountAppend(Failures(init), more, f);
    }
  }

  /** One element more counts once more when it is the one counted. */
  lemma CountSnoc<T>(a: seq<T>, x: T, y: T)
    ensures multiset(a + [x])[y] == multiset(a)[y] + (if x == y then 1 else 0)
  {
  }

  lemma CountAppend<T>(a: seq<T>, b: seq<T>, y: T)
    ensures multiset(a + b)[y] == multiset(a)[y] + multiset(b)[y]
  {
  }

  lemma {:induction false} SuccessesAppend<S, F>(a: seq<Outcome<S, F>>, b: seq<Outcome<S, F>>)
    ensures Successes(a + b) == Successes(a) + Successes(b)
    decreases |b|
  {
    if b == [] {
      assert a + b == a;
    } else {
      SuccessesAppend(a, b[..|b| - 1]);
      AppendInit(a, b);
    }
  }

  lemma {:induction false} FailuresAppend<S, F>(a: seq<Outcome<S, F>>, b: seq<Outcome<S, F>>)
    ensures Failures(a + b) == Failures(a) + Failures(b)
    decreases |b|
  {
    if b == [] {
      assert a + b == a;
    } else {
      FailuresAppend(a, b[..|b| - 1]);
      AppendInit(a, b);
    }
  }

  /** Taking one element out of a sequence takes it out of its multiset. */
  lemma RemoveAt<T>(b: seq<T>, j: nat)
    requires j < |b|
    ensures multiset(b[..j] + b[j + 1..]) == multiset(b) - multiset{b[j]}
  {
    assert b == b[..j] + [b[j]] + b[j + 1..];
  }

  /** An element of `b` and `b` without it, when `b` has the same multiset as `a` with `last` added. */
  lemma {:induction false} MatchLast<T>(a: seq<T>, b: seq<T>) returns (j: nat)
    requires a != [] && multiset(a) == multiset(b)
    ensures j < |b| && b[j] == a[|a| - 1]
    ensures multiset(a[..|a| - 1]) == multiset(b[..j] + b[j + 1..])
  {
    var n := |a|;
    assert a[n - 1] in multiset(b);
    j :| 0 <= j < |b| && b[j] == a[n - 1];
    RemoveAt(a, n - 1);
    RemoveAt(b, j);
    assert a[..n - 1] + a[n..] == a[..n - 1];
  }

  lemma SuccessesAppend3<S, F>(x: seq<Outcome<S, F>>, y: seq<Outcome<S, F>>, z: seq<Outcome<S, F>>)
    ensures Successes(x + y + z) == Successes(x) + Successes(y) + Successes(z)
  {
    SuccessesAppend(x + y, z);
    SuccessesAppend(x, y);
  }

  lemma FailuresAppend3<S, F>(x: seq<Outcome<S, F>>, y: seq<Outcome<S, F>>, z: seq<Outcome<S, F>>)
    ensures Failures(x + y + z) == Failures(x) + Failures(y) + Failures(z)
  {
    FailuresAppend(x + y, z);
    FailuresAppend(x, y);
  }

  /** Reordering the outcomes reorders the successes, and nothing more. */
  lemma {:induction false} SuccessesOfReordering<S, F>(a: seq<Outcome<S, F>>, b: seq<Outcome<S, F>>)
    requires multiset(a) == multiset(b)
    ensures multiset(Successes(a)) == multiset(Successes(b))
    decreases |a|
  {
    if a == [] {
      assert |b| == |multiset(b)| == 0;
    } else {
      var j := MatchLast(a, b);
      var a', last, b1, b2 := a[..|a| - 1], [a[|a| - 1]], b[..j], b[j + 1..];
      SuccessesOfReordering(a', b1 + b2);
      assert a == a' + last;
      SuccessesAppend(a', last);
      assert b == b1 + last + b2;
      SuccessesAppend3(b1, last, b2);
      SuccessesAppend(b1, b2);
    }
  }

  /** Reordering the outcomes reorders the failures, and nothing more. */
  lemma {:induction false} FailuresOfReordering<S, F>(a: seq<Outcome<S, F>>, b: seq<Outcome<S, F>>)
    requires multiset(a) == multiset(b)
    ensures multiset(Failures(a)) == multiset(Failures(b))
    decreases |a|
  {
    if a == [] {
      assert |b| == |multiset(b)| == 0;
    } else {
      var j := MatchLast(a, b);
      var a', last, b1, b2 := a[..|a| - 1], [a[|a| - 1]], b[..j], b[j + 1..];
      FailuresOfReordering(a', b1 + b2);
      assert a == a' + last;
      FailuresAppend(a', last);
      assert b == b1 + last + b2;
      FailuresAppend3(b1, last, b2);
      FailuresAppend(b1, b2);
    }
  }

  /** A value is collected as a success exactly when some outcome delivered it. */
  lemma InSuccesses<S, F>(outs: seq<Outcome<S, F>>, v: S)
    ensures v in Successes(outs) <==> Success(v) in outs
  {
    SuccessesCount(outs, v);
    assert v in Successes(outs) <==> multiset(Successes(outs))[v] > 0;
    assert Success(v) in outs <==> multiset(outs)[Success(v)] > 0;
  }

  /** There were failures exactly when some outcome failed. */
  lemma {:induction false} FailuresEmpty<S, F>(outs: seq<Outcome<S, F>>)
    ensures Failures(outs) == [] <==> forall k :: 0 <= k < |outs| ==> outs[k].Success?
  {
    if outs != [] {
      var init, last := outs[..|outs| - 1], outs[|outs| - 1];
      FailuresEmpty(init);
      assert forall k :: 0 <= k < |init| ==> init[k] == outs[k];
      var more := if last.Failure? then [last.reason] else [];
      assert Failures(outs) == Failures(init) + more;
      assert Failures(outs) == [] <==> Failures(init) == [] && more == [];
    }
  }

  // ---------------------------------------------------------------- arrival order

  /** The request indices 0 .. n-1 in request order. */
  function Indices(n: nat): (r: seq<nat>)
    ensures |r| == n && forall k :: 0 <= k < n ==> r[k] == k
  {
    seq(n, k => k)
  }

  /** `p` lists each of the indices 0 .. n-1 exactly once, in some order. */
  predicate IsPermutation(p: seq<nat>, n: nat)
  {
    && |p| == n
    && (forall k :: 0 <= k < |p| ==> p[k] < n)
    && multiset(p) == multiset(Indices(n))
  }

  /** The elements of `xs` in the order the indices of `order` name them. */
  function Arrange<T>(xs: seq<T>, order: seq<nat>): (r: seq<T>)
    requires forall k :: 0 <= k < |order| ==> order[k] < |xs|
    ensures |r| == |order|
    ensures forall k :: 0 <= k < |order| ==> r[k] == xs[order[k]]
  {
    seq(|order|, k requires 0 <= k < |order| => xs[order[k]])
  }

  lemma ArrangeAppend<T>(xs: seq<T>, p: seq<nat>, q: seq<nat>)
    requires forall k :: 0 <= k < |p| ==> p[k] < |xs|
    requires forall k :: 0 <= k < |q| ==> q[k] < |xs|
    ensures Arrange(xs, p + q) == Arrange(xs, p) + Arrange(xs, q)
  {
  }

  /** Two orders that list the same indices arrange the same elements. */
  lemma {:induction false} ArrangeReordered<T>(xs: seq<T>, p: seq<nat>, q: seq<nat>)
    requires forall k :: 0 <= k < |p| ==> p[k] < |xs|
    requires forall k :: 0 <= k < |q| ==> q[k] < |xs|
    requires multiset(p) == multiset(q)
    ensures multiset(Arrange(xs, p)) == multiset(Arrange(xs, q))
    decreases |p|
  {
    if p == [] {
      assert |q| == |multiset(q)| == 0;
    } else {
      var j := MatchLast(p, q);
      var p', q1, q2, last := p[..|p| - 1], q[..j], q[j + 1..], [p[|p| - 1]];
      ArrangeReordered(xs, p', q1 + q2);
      assert p == p' + last;
      ArrangeAppend(xs, p', last);
      assert q == q1 + (last + q2);
      ArrangeAppend(xs, q1, last + q2);
      ArrangeAppend(xs, last, q2);
      ArrangeAppend(xs, q1, q2);
    }
  }

  /** Receiving the outcomes in any arrival order receives each of them exactly once. */
  lemma ArrangePermutation<T>(xs: seq<T>, p: seq<nat>)
    requires IsPermutation(p, |xs|)
    ensures multiset(Arrange(xs, p)) == multiset(xs)
  {
    ArrangeReordered(xs, p, Indices(|xs|));
    assert Arrange(xs, Indices(|xs|)) == xs;
  }

  /** Whatever the arrival order, the same values are collected as successes, each as often. */
  lemma SuccessesAnyArrival<S, F>(outs: seq<Outcome<S, F>>, arrival: seq<nat>)
    requires IsPermutation(arrival, |outs|)
    ensures multiset(Successes(Arrange(outs, arrival))) == multiset(Successes(outs))
  {
    ArrangePermutation(outs, arrival);
    SuccessesOfReordering(Arrange(outs, arrival), outs);
  }

  /**
   * Whatever the arrival order, the same failures are collected, each as
   * often; in particular there is some failure in every order or in none.
   */
  lemma FailuresAnyArrival<S, F>(outs: seq<Outcome<S, F>>, arrival: seq<nat>)
    requires IsPermutation(arrival, |outs|)
    ensures multiset(Failures(Arrange(outs, arrival))) == multiset(Failures(outs))
    ensures Failures(Arrange(outs, arrival)) == [] <==> Failures(outs) == []
  {
    ArrangePermutation(outs, arrival);
    FailuresOfReordering(Arrange(outs, arrival), outs);
    assert |Failures(Arrange(outs, arrival))| == |multiset(Failures(outs))| == |Failures(outs)|;
  }

  // ---------------------------------------------------------------- the fan-in

  /** The outcome of every requested item, in request order. */
  function Downloads<X, S, F>(download: X -> Outcome<S, F>, items: seq<X>): (outs: seq<Outcome<S, F>>)
    ensures |outs| == |items|
    ensures forall i :: 0 <= i < |items| ==> outs[i] == download(items[i])
  {
    Map(download, items)
  }

  /**
   * The downloaders and the two collectors: each item's outcome, taken in
   * `arrival` order, is appended to the successes or to the failures.
   */
  method Collect<X, S, F>(download: X -> Outcome<S, F>, items: seq<X>, arrival: seq<nat>)
    returns (retrieved: seq<S>, failed: seq<F>)
    requires IsPermutation(arrival, |items|)
    ensures retrieved == Successes(Arrange(Downloads(download, items), arrival))
    ensures failed == Failures(Arrange(Downloads(download, items), arrival))
  {
    ghost var outs := Downloads(download, items);
    retrieved, failed := [], [];
    for k := 0 to |arrival|
      invariant retrieved == Successes(Arrange(outs, arrival[..k]))
      invariant failed == Failures(Arrange(outs, arrival[..k]))
    {
      var outcome := download(items[arrival[k]]);
      ArrangePrefix(outs, arrival, k);
      OutcomesSnoc(Arrange(outs, arrival[..k]), outcome);
      match outcome
      case Success(v) => retrieved := retrieved + [v];
      case Failure(f) => failed := failed + [f];
    }
    assert arrival[..|arrival|] == arrival;
  }

  /** One index more of the order arranges one element more. */
  lemma ArrangePrefix<T>(xs: seq<T>, order: seq<nat>, k: nat)
    requires forall j :: 0 <= j < |order| ==> order[j] < |xs|
    requires k < |order|
    ensures Arrange(xs, order[..k + 1]) == Arrange(xs, order[..k]) + [xs[order[k]]]
  {
  }

  /** One outcome more adds its value to the successes or its reason to the failures. */
  lemma OutcomesSnoc<S, F>(outs: seq<Outcome<S, F>>, o: Outcome<S, F>)
    ensures Successes(outs + [o]) == Successes(outs) + (if o.Success? then [o.value] else [])
    ensures Failures(outs + [o]) == Failures(outs) + (if o.Failure? then [o.reason] else [])
  {
    assert (outs + [o])[..|outs|] == outs;
  }

  // ---------------------------------------------------------------- ordering by request index

  /**
   * The index of the last occurrence of `x` in `xs`, and 0 when `x` does not
   * occur: the value a Go map from name to index, filled in request order,
   * gives for `x`.
   */
  function Position<T(==)>(xs: seq<T>, x: T): (i: nat)
    ensures x in xs ==> i < |xs| && xs[i] == x && forall k :: i < k < |xs| ==> xs[k] != x
    ensures x !in xs ==> i == 0
  {
    if xs == [] then 0
    else if xs[|xs| - 1] == x then |xs| - 1
    else Position(xs[..|xs| - 1], x)
  }

  /** Requested names at the same position are the same name. */
  lemma PositionInjective<T>(xs: seq<T>, x: T, y: T)
    requires x in xs && y in xs && Position(xs, x) == Position(xs, y)
    ensures x == y
  {
  }

  /** When no name is requested twice, a name's position is its request index. */
  lemma PositionOfDistinct<T>(xs: seq<T>, i: nat)
    requires i < |xs| && forall k, l :: 0 <= k < l < |xs| ==> xs[k] != xs[l]
    ensures Position(xs, xs[i]) == i
  {
  }

  /**
   * createNamesOrdering: maps every requested name to its index, a later
   * occurrence overwriting an earlier one.
   */
  method CreateNamesOrdering<T(==)>(names: seq<T>) returns (ordering: map<T, nat>)
    ensures ordering.Keys == set x | x in names
    ensures forall x :: x in ordering ==> ordering[x] == Position(names, x)
  {
    ordering := map[];
    for i := 0 to |names|
      invariant ordering.Keys == set x | x in names[..i]
      invariant forall x :: x in ordering ==> ordering[x] == Position(names[..i], x)
    {
      assert names[..i + 1][..i] == names[..i];
      ordering := ordering[names[i] := i];
    }
    assert names[..|names|] == names;
  }

  /** ordering[name] in Go: the zero value for a name that is not a key. */
  function OrderOf<T>(ordering: map<T, nat>, x: T): nat
  {
    if x in ordering then ordering[x] else 0
  }

  /** Looking a name up in the ordering map gives its position, requested or not. */
  lemma OrderOfIsPosition<T>(ordering: map<T, nat>, names: seq<T>, x: T)
    requires ordering.Keys == set y | y in names
    requires forall y :: y in ordering ==> ordering[y] == Position(names, y)
    ensures OrderOf(ordering, x) == Position(names, x)
  {
  }

  // ---------------------------------------------------------------- sorting

  /** `s` is sorted non-decreasingly by `key`. */
  predicate SortedBy<T>(s: seq<T>, key: T -> int)
  {
    forall i, j :: 0 <= i < j < |s| ==> key(s[i]) <= key(s[j])
  }

  /** Being sorted only depends on the keys of the elements present. */
  lemma SortedByAgreeingKeys<T>(s: seq<T>, key1: T -> int, key2: T -> int)
    requires SortedBy(s, key1)
    requires forall k :: 0 <= k < |s| ==> key1(s[k]) == key2(s[k])
    ensures SortedBy(s, key2)
  {
  }

  /** contentsWithOrdering.Swap */
  method Swap<T>(a: array<T>, i: nat, j: nat)
    requires i < a.Length && j < a.Length
    modifies a
    ensures a[i] == old(a[j]) && a[j] == old(a[i])
    ensures forall k :: 0 <= k < a.Length && k != i && k != j ==> a[k] == old(a[k])
    ensures multiset(a[..]) == old(multiset(a[..]))
  {
    a[i], a[j] := a[j], a[i];
  }

  /**
   * sort.Sort over contentsWithOrdering: reorders `a` in place so that the
   * keys are non-decreasing. Go's sort is not stable, and neither is this
   * promise: only sortedness and the permutation are stated.
   */
  method SortByKey<T>(a: array<T>, key: T -> int)
    modifies a
    ensures SortedBy(a[..], key)
    ensures multiset(a[..]) == old(multiset(a[..]))
  {
    if a.Length == 0 {
      return;
    }
    var i := 1;
    while i < a.Length
      invariant 1 <= i <= a.Length
      invariant forall p, q :: 0 <= p < q < i ==> key(a[p]) <= key(a[q])
      invariant multiset(a[..]) == old(multiset(a[..]))
    {
      InsertLast(a, i, key);
      i := i + 1;
    }
  }

  /** One insertion-sort step: moves a[i] down into the sorted a[..i]. */
  method InsertLast<T>(a: array<T>, i: nat, key: T -> int)
    requires 1 <= i < a.Length
    requires forall p, q :: 0 <= p < q < i ==> key(a[p]) <= key(a[q])
    modifies a
    ensures forall p, q :: 0 <= p < q <= i ==> key(a[p]) <= key(a[q])
    ensures multiset(a[..]) == old(multiset(a[..]))
  {
    var j := i;
    while j > 0 && key(a[j - 1]) > key(a[j])
      invariant 0 <= j <= i
      invariant forall p, q :: 0 <= p < q <= i && p != j && q != j ==> key(a[p]) <= key(a[q])
      invariant forall q :: j < q <= i ==> key(a[j]) <= key(a[q])
      invariant multiset(a[..]) == old(multiset(a[..]))
    {
      Swap(a, j - 1, j);
      j := j - 1;
    }
  }

  /** A sorted sequence stays sorted behind an element whose key bounds all of it from below. */
  lemma ConsSorted<T>(y: T, rest: seq<T>, key: T -> int)
    requires SortedBy(rest, key)
    requires forall z :: z in rest ==> key(y) <= key(z)
    ensures SortedBy([y] + rest, key)
  {
    var r := [y] + rest;
    forall i, j | 0 <= i < j < |r|
      ensures key(r[i]) <= key(r[j])
    {
      assert r[j] == rest[j - 1] && r[j] in rest;
      if i > 0 {
        assert r[i] == rest[i - 1];
      }
    }
  }

  /** The first element of a sorted sequence has the smallest key. */
  lemma FirstIsLeast<T>(s: seq<T>, key: T -> int, y: T)
    requires SortedBy(s, key) && y in s
    ensures key(s[0]) <= key(y)
  {
    var k :| 0 <= k < |s| && s[k] == y;
    if k > 0 {
      assert key(s[0]) <= key(s[k]);
    }
  }

  /** `x` placed into the sorted `s` before the first element with a larger key. */
  function Insert<T>(x: T, s: seq<T>, key: T -> int): (r: seq<T>)
    requires SortedBy(s, key)
    ensures SortedBy(r, key)
    ensures multiset(r) == multiset(s) + multiset{x}
  {
    if s == [] then [x]
    else if key(x) <= key(s[0]) then
      PrependLeast(x, s, key);
      [x] + s
    else
      SortedTail(s, key);
      var rest := Insert(x, s[1..], key);
      KeepFirst(s, x, rest, key);
      [s[0]] + rest
  }

  /** An element whose key is at most that of the first stays sorted in front. */
  lemma PrependLeast<T>(x: T, s: seq<T>, key: T -> int)
    requires SortedBy(s, key) && s != [] && key(x) <= key(s[0])
    ensures SortedBy([x] + s, key)
  {
    forall z | z in s
      ensures key(x) <= key(z)
    {
      FirstIsLeast(s, key, z);
    }
    ConsSorted(x, s, key);
  }

  /** The first element stays in front of the rest with `x` inserted, when `x` has a larger key. */
  lemma KeepFirst<T>(s: seq<T>, x: T, rest: seq<T>, key: T -> int)
    requires s != [] && SortedBy(s, key) && key(s[0]) < key(x)
    requires SortedBy(rest, key) && multiset(rest) == multiset(s[1..]) + multiset{x}
    ensures SortedBy([s[0]] + rest, key)
    ensures multiset([s[0]] + rest) == multiset(s) + multiset{x}
  {
    var tail := s[1..];
    assert s == [s[0]] + tail;
    forall z | z in rest
      ensures key(s[0]) <= key(z)
    {
      assert z in multiset(rest);
      if z != x {
        assert z in multiset(tail);
        FirstIsLeast(s, key, z);
      }
    }
    ConsSorted(s[0], rest, key);
  }

  /**
   * The reference ordering of the collected contents: `s` sorted by `key`.
   * Any sorted permutation equals it when keys single out elements.
   */
  function Ordered<T>(s: seq<T>, key: T -> int): (r: seq<T>)
    ensures SortedBy(r, key)
    ensures multiset(r) == multiset(s)
  {
    if s == [] then []
    else
      assert s == s[..|s| - 1] + [s[|s| - 1]];
      Insert(s[|s| - 1], Ordered(s[..|s| - 1], key), key)
  }

  /** No two different elements of `s` share a key. */
  predicate KeysSingleOut<T(==)>(s: seq<T>, key: T -> int)
  {
    forall x, y :: x in s && y in s && key(x) == key(y) ==> x == y
  }

  /**
   * Two sorted arrangements of the same elements are the same sequence when
   * no two different elements share a key: an unstable sort still has only
   * one possible result.
   */
  lemma {:induction false} SortedPermutationUnique<T>(s: seq<T>, t: seq<T>, key: T -> int)
    requires multiset(s) == multiset(t)
    requires SortedBy(s, key) && SortedBy(t, key)
    requires KeysSingleOut(s, key)
    ensures s == t
    decreases |s|
  {
    if s == [] {
      assert |t| == |multiset(t)| == 0;
    } else {
      SameFirst(s, t, key);
      RestSortedPermutation(s, t, key);
      SortedPermutationUnique(s[1..], t[1..], key);
      SameHeadAndTail(s, t);
    }
  }

  /** Sequences with the same first element and the same rest are equal. */
  lemma SameHeadAndTail<T>(s: seq<T>, t: seq<T>)
    requires s != [] && t != [] && s[0] == t[0] && s[1..] == t[1..]
    ensures s == t
  {
    assert s == [s[0]] + s[1..];
    assert t == [t[0]] + t[1..];
  }

  /** Under the conditions of SortedPermutationUnique, both sequences start with the same element. */
  lemma SameFirst<T>(s: seq<T>, t: seq<T>, key: T -> int)
    requires s != [] && multiset(s) == multiset(t)
    requires SortedBy(s, key) && SortedBy(t, key)
    requires KeysSingleOut(s, key)
    ensures t != [] && s[0] == t[0]
  {
    assert |t| == |multiset(t)| == |s|;
    assert s[0] in multiset(t) && t[0] in multiset(s);
    FirstIsLeast(t, key, s[0]);
    FirstIsLeast(s, key, t[0]);
  }

  /** Without their common first element, the rests still meet the conditions of SortedPermutationUnique. */
  lemma RestSortedPermutation<T>(s: seq<T>, t: seq<T>, key: T -> int)
    requires s != [] && t != [] && s[0] == t[0] && multiset(s) == multiset(t)
    requires SortedBy(s, key) && SortedBy(t, key)
    requires KeysSingleOut(s, key)
    ensures multiset(s[1..]) == multiset(t[1..])
    ensures SortedBy(s[1..], key) && SortedBy(t[1..], key)
    ensures KeysSingleOut(s[1..], key)
  {
    DropFirst(s);
    DropFirst(t);
    SortedTail(s, key);
    SortedTail(t, key);
    assert forall x :: x in s[1..] ==> x in s;
  }

  lemma DropFirst<T>(s: seq<T>)
    requires s != []
    ensures multiset(s[1..]) == multiset(s) - multiset{s[0]}
  {
    assert s == [s[0]] + s[1..];
  }

  lemma SortedTail<T>(s: seq<T>, key: T -> int)
    requires s != [] && SortedBy(s, key)
    ensures SortedBy(s[1..], key)
  {
    forall i, j | 0 <= i < j < |s| - 1
      ensures key(s[1..][i]) <= key(s[1..][j])
    {
      assert s[1..][i] == s[i + 1] && s[1..][j] == s[j + 1];
    }
  }

  /** Appending an element whose key bounds the sorted `s` from above keeps it sorted. */
  lemma SnocSorted<T>(s: seq<T>, x: T, key: T -> int)
    requires SortedBy(s, key)
    requires forall z :: z in s ==> key(z) <= key(x)
    ensures SortedBy(s + [x], key)
  {
    var r := s + [x];
    forall i, j | 0 <= i < j < |r|
      ensures key(r[i]) <= key(r[j])
    {
      assert r[i] == s[i] && r[i] in s;
    }
  }

  /** Successes come out sorted when the successful outcomes come in key order. */
  lemma {:induction false} SuccessesSorted<S, F>(outs: seq<Outcome<S, F>>, key: S -> int)
    requires forall i, j :: 0 <= i < j < |outs| && outs[i].Success? && outs[j].Success? ==>
               key(outs[i].value) <= key(outs[j].value)
    ensures SortedBy(Successes(outs), key)
  {
    if outs != [] {
      var init, last := outs[..|outs| - 1], outs[|outs| - 1];
      SuccessesSorted(init, key);
      if last.Success? {
        forall z | z in Successes(init)
          ensures key(z) <= key(last.value)
        {
          InSuccesses(init, z);
          var i :| 0 <= i < |init| && init[i] == Success(z);
          assert outs[i] == Success(z);
        }
        SnocSorted(Successes(init), last.value, key);
      }
    }
  }

  /**
   * Sorting keeps the request order when the contents already come in
   * increasing key order.
   */
  lemma OrderedOfSorted<T>(s: seq<T>, key: T -> int)
    requires SortedBy(s, key) && KeysSingleOut(s, key)
    ensures Ordered(s, key) == s
  {
    var r := Ordered(s, key);
    assert forall x :: x in r ==> x in multiset(s);
    SortedPermutationUnique(s, r, key);
  }

  /** A key that gives each success the request index of its item. */
  predicate KeyedByPosition<X(==), S, F>(download: X -> Outcome<S, F>, items: seq<X>, key: S -> int)
  {
    forall i :: 0 <= i < |items| && download(items[i]).Success? ==>
      key(download(items[i]).value) == Position(items, items[i])
  }

  /** Every success of `download` carries the item it was requested for, as `nameOf` reads it. */
  ghost predicate SuccessesNamed<X(!new), S, F>(download: X -> Outcome<S, F>, nameOf: S -> X)
  {
    forall x :: download(x).Success? ==> nameOf(download(x).value) == x
  }

  /** Every failure of `download` names the item it was requested for, as `nameOf` reads it. */
  ghost predicate FailuresNamed<X(!new), S, F>(download: X -> Outcome<S, F>, nameOf: F -> X)
  {
    forall x :: download(x).Failure? ==> nameOf(download(x).reason) == x
  }

  /** The sort key of contentsWithOrdering: the request index of the name a success carries. */
  function ByPosition<X(==), S>(items: seq<X>, nameOf: S -> X): S -> int
  {
    (c: S) => Position(items, nameOf(c))
  }

  /** The key Less compares: the ordering map's entry for the name a success carries. */
  function ByOrdering<X, S>(ordering: map<X, nat>, nameOf: S -> X): S -> int
  {
    (c: S) => OrderOf(ordering, nameOf(c))
  }

  /** Successes that carry their item are keyed by request index. */
  lemma NamedKeyedByPosition<X(!new), S, F>(download: X -> Outcome<S, F>, items: seq<X>, nameOf: S -> X)
    requires SuccessesNamed(download, nameOf)
    ensures KeyedByPosition(download, items, ByPosition(items, nameOf))
  {
    forall i | 0 <= i < |items| && download(items[i]).Success?
      ensures ByPosition(items, nameOf)(download(items[i]).value) == Position(items, items[i])
    {
      assert nameOf(download(items[i]).value) == items[i];
    }
  }

  /**
   * Every requested item is accounted for: a success carrying it is among
   * the collected contents, or a failure naming it is among the failures.
   */
  lemma EveryItemAccountedFor<X(!new), S, F>(download: X -> Outcome<S, F>, items: seq<X>, i: nat,
                                       successName: S -> X, failureName: F -> X)
    requires i < |items|
    requires SuccessesNamed(download, successName) && FailuresNamed(download, failureName)
    ensures var outs := Downloads(download, items);
            || (exists c :: c in Successes(outs) && successName(c) == items[i])
            || (exists f :: f in Failures(outs) && failureName(f) == items[i])
  {
    var outs := Downloads(download, items);
    match outs[i]
    case Success(c) =>
      InSuccesses(outs, c);
    case Failure(f) =>
      FailuresCount(outs, f);
      assert multiset(outs)[Outcome.Failure(f)] > 0;
  }

  /**
   * The sort.Sort of processContents: the contents in non-decreasing order of
   * `ordering[name]`, the same elements as before.
   */
  method SortContents<X, S>(contents: seq<S>, ordering: map<X, nat>, nameOf: S -> X)
    returns (sorted: seq<S>)
    ensures SortedBy(sorted, ByOrdering(ordering, nameOf))
    ensures multiset(sorted) == multiset(contents)
  {
    var a := new S[|contents|](i requires 0 <= i < |contents| => contents[i]);
    assert a[..] == contents;
    SortByKey(a, ByOrdering(ordering, nameOf));
    sorted := a[..];
  }

  /** Sorting by the name→index map is sorting by request index. */
  lemma SortedByOrdering<X, S>(items: seq<X>, ordering: map<X, nat>, nameOf: S -> X, contents: seq<S>)
    requires ordering.Keys == set x | x in items
    requires forall x :: x in ordering ==> ordering[x] == Position(items, x)
    requires SortedBy(contents, ByOrdering(ordering, nameOf))
    ensures SortedBy(contents, ByPosition(items, nameOf))
  {
    forall k | 0 <= k < |contents|
      ensures ByOrdering(ordering, nameOf)(contents[k]) == ByPosition(items, nameOf)(contents[k])
    {
      OrderOfIsPosition(ordering, items, nameOf(contents[k]));
    }
    SortedByAgreeingKeys(contents, ByOrdering(ordering, nameOf), ByPosition(items, nameOf));
  }

  /** Successes keyed by the request index of their item are told apart by the key. */
  lemma SuccessesSingledOut<X, S, F>(download: X -> Outcome<S, F>, items: seq<X>, key: S -> int)
    requires KeyedByPosition(download, items, key)
    ensures KeysSingleOut(Successes(Downloads(download, items)), key)
  {
    var outs := Downloads(download, items);
    forall x, y | x in Successes(outs) && y in Successes(outs) && key(x) == key(y)
      ensures x == y
    {
      InSuccesses(outs, x);
      InSuccesses(outs, y);
      var i :| 0 <= i < |outs| && outs[i] == Success(x);
      var j :| 0 <= j < |outs| && outs[j] == Success(y);
      PositionInjective(items, items[i], items[j]);
    }
  }

  /**
   * Whatever the arrival order, the collected successes, once sorted by
   * request index, are the successes in request order.
   */
  lemma SortedCollectedIsOrdered<X, S, F>(download: X -> Outcome<S, F>, items: seq<X>, key: S -> int,
                                          arrival: seq<nat>, contents: seq<S>)
    requires KeyedByPosition(download, items, key)
    requires IsPermutation(arrival, |items|)
    requires SortedBy(contents, key)
    requires multiset(contents) == multiset(Successes(Arrange(Downloads(download, items), arrival)))
    ensures contents == Ordered(Successes(Downloads(download, items)), key)
  {
    var outs := Downloads(download, items);
    var successes := Successes(outs);
    SuccessesAnyArrival(outs, arrival);
    var expected := Ordered(successes, key);
    SuccessesSingledOut(download, items, key);
    SingleOutPermutation(expected, successes, key);
    SortedPermutationUnique(expected, contents, key);
  }

  /** Keys that single out the elements of `t` single out those of any permutation of it. */
  lemma SingleOutPermutation<T>(s: seq<T>, t: seq<T>, key: T -> int)
    requires multiset(s) == multiset(t) && KeysSingleOut(t, key)
    ensures KeysSingleOut(s, key)
  {
    assert forall x :: x in s ==> x in multiset(t);
  }

  /** When no item is requested twice, sorting by request index keeps the successes as they come. */
  lemma SuccessesInRequestOrder<X, S, F>(download: X -> Outcome<S, F>, items: seq<X>, key: S -> int)
    requires KeyedByPosition(download, items, key)
    requires forall k, l :: 0 <= k < l < |items| ==> items[k] != items[l]
    ensures Ordered(Successes(Downloads(download, items)), key) == Successes(Downloads(download, items))
  {
    var outs := Downloads(download, items);
    forall i, j | 0 <= i < j < |outs| && outs[i].Success? && outs[j].Success?
      ensures key(outs[i].value) <= key(outs[j].value)
    {
      PositionOfDistinct(items, i);
      PositionOfDistinct(items, j);
    }
    SuccessesSorted(outs, key);
    SuccessesSingledOut(download, items, key);
    OrderedOfSorted(Successes(outs), key);
  }
}
