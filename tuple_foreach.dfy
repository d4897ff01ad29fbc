/** Index-ordered application of a functor to every element of a tuple (TupleForEach.hpp).

    A functor call `f(std::get<I>(t), args...)` may change the element it is given (it is
    passed by reference) and may change the functor object itself (it is passed on, as
    the same object, to the next index). Both effects are modelled by a function that
    takes the functor state, the element and the extra arguments, and returns the new
    state and the new element. The heterogeneous tuple is a `seq<T>`. */
module TupleForEach {

  /** `detail::doForEach<I>`: the overload for `I == size` does nothing; the one for
      `I < size` applies `f` at `I` and recurses on `I + 1`.
      Returns the tuple after the calls and the functor's final state. */
  function DoForEach<S, T, A>(i: nat, t: seq<T>, f: (S, T, A) -> (S, T), s: S, args: A): (r: (seq<T>, S))
    requires i <= |t|
    ensures |r.0| == |t|
    ensures r.0[..i] == t[..i]
    decreases |t| - i
  {
    if i == |t| then (t, s)
    else
      var step := f(s, t[i], args);
      var r := DoForEach(i + 1, t[i := step.1], f, step.0, args);
      assert r.0[..i] == r.0[..i + 1][..i];
      r
  }

  /** `foreach(t, f, args...)`: drives `doForEach` from index 0, updating the tuple in place. */
  method ForEach<S, T, A>(t: seq<T>, f: (S, T, A) -> (S, T), s: S, args: A) returns (t': seq<T>, s': S)
    ensures (t', s') == DoForEach(0, t, f, s, args)
    ensures t == [] ==> t' == [] && s' == s
  {
    t', s' := t, s;
    var i := 0;
    while i < |t|
      invariant 0 <= i <= |t| == |t'|
      invariant DoForEach(i, t', f, s', args) == DoForEach(0, t, f, s, args)
    {
      var step := f(s', t'[i], args);
      t', s' := t'[i := step.1], step.0;
      i := i + 1;
    }
  }

  /** A functor whose element update `g` does not depend on its state leaves element `k`
      equal to `g` of its old value, for every `k` from `i` on; earlier elements are
      untouched (the ensures of `DoForEach`). */
  lemma {:induction false} ForEachInPlace<S, T, A>(i: nat, t: seq<T>, f: (S, T, A) -> (S, T), s: S, args: A, g: T -> T)
    requires i <= |t|
    requires forall s0: S, x: T :: f(s0, x, args).1 == g(x)
    ensures forall k :: i <= k < |t| ==> DoForEach(i, t, f, s, args).0[k] == g(t[k])
    decreases |t| - i
  {
    if i < |t| {
      var step := f(s, t[i], args);
      var t1 := t[i := step.1];
      ForEachInPlace(i + 1, t1, f, step.0, args, g);
      var r := DoForEach(i + 1, t1, f, step.0, args).0;
      assert r[..i + 1][i] == t1[i];
    }
  }

  /** With a functor that records what it is called with, the record lists every element
      from `i` on exactly once, in increasing index order, each paired with the unchanged
      extra arguments; the tuple itself is left as it was. */
  lemma {:induction false} ForEachVisitsInOrder<T, A>(i: nat, t: seq<T>, f: (seq<(T, A)>, T, A) -> (seq<(T, A)>, T), s: seq<(T, A)>, args: A)
    requires i <= |t|
    requires forall s0: seq<(T, A)>, x: T :: f(s0, x, args) == (s0 + [(x, args)], x)
    ensures DoForEach(i, t, f, s, args).0 == t
    ensures |DoForEach(i, t, f, s, args).1| == |s| + |t| - i
    ensures DoForEach(i, t, f, s, args).1[..|s|] == s
    ensures forall k :: i <= k < |t| ==> DoForEach(i, t, f, s, args).1[|s| + k - i] == (t[k], args)
    decreases |t| - i
  {
    if i < |t| {
      var s1 := s + [(t[i], args)];
      assert t[i := t[i]] == t;
      ForEachVisitsInOrder(i + 1, t, f, s1, args);
      var r := DoForEach(i + 1, t, f, s1, args).1;
      assert r[..|s|] == r[..|s1|][..|s|];
      assert r[|s|] == r[..|s1|][|s|];
    }
  }

  /** `detail::doParallelForEach<I>`: applies `f(a[I], b[I], args...)` for `I` up to the
      size of the FIRST tuple only; `b` must be at least as long, or `std::get<I>(b)` would
      not compile. Both elements may be changed by the call. */
  function DoParallelForEach<S, T, U, A>(i: nat, a: seq<T>, b: seq<U>, f: (S, T, U, A) -> (S, T, U), s: S, args: A): (r: (seq<T>, seq<U>, S))
    requires i <= |a| <= |b|
    ensures |r.0| == |a| && |r.1| == |b|
    ensures r.0[..i] == a[..i] && r.1[..i] == b[..i]
    ensures r.1[|a|..] == b[|a|..]
    decreases |a| - i
  {
    if i == |a| then (a, b, s)
    else
      var step := f(s, a[i], b[i], args);
      var r := DoParallelForEach(i + 1, a[i := step.1], b[i := step.2], f, step.0, args);
      assert r.0[..i] == r.0[..i + 1][..i];
      assert r.1[..i] == r.1[..i + 1][..i];
      assert r.1[|a|..] == b[i := step.2][|a|..];
      r
  }

  /** `parallel_foreach(a, b, f, args...)`: drives `doParallelForEach` from index 0. */
  method ParallelForEach<S, T, U, A>(a: seq<T>, b: seq<U>, f: (S, T, U, A) -> (S, T, U), s: S, args: A)
    returns (a': seq<T>, b': seq<U>, s': S)
    requires |a| <= |b|
    ensures (a', b', s') == DoParallelForEach(0, a, b, f, s, args)
  {
    a', b', s' := a, b, s;
    var i := 0;
    while i < |a|
      invariant 0 <= i <= |a| == |a'| && |b'| == |b|
      invariant DoParallelForEach(i, a', b', f, s', args) == DoParallelForEach(0, a, b, f, s, args)
    {
      var step := f(s', a'[i], b'[i], args);
      a', b', s' := a'[i := step.1], b'[i := step.2], step.0;
      i := i + 1;
    }
  }

  /** A pairwise functor whose update `g` does not depend on its state leaves the pair at
      every index `k` from `i` below `|a|` equal to `g` of the old pair. */
  lemma {:induction false} ParallelForEachInPlace<S, T, U, A>(i: nat, a: seq<T>, b: seq<U>, f: (S, T, U, A) -> (S, T, U), s: S, args: A, g: (T, U) -> (T, U))
    requires i <= |a| <= |b|
    requires forall s0: S, x: T, y: U :: (f(s0, x, y, args).1, f(s0, x, y, args).2) == g(x, y)
    ensures forall k :: i <= k < |a| ==>
      (DoParallelForEach(i, a, b, f, s, args).0[k], DoParallelForEach(i, a, b, f, s, args).1[k]) == g(a[k], b[k])
    decreases |a| - i
  {
    if i < |a| {
      var step := f(s, a[i], b[i], args);
      var a1, b1 := a[i := step.1], b[i := step.2];
      ParallelForEachInPlace(i + 1, a1, b1, f, step.0, args, g);
      var r := DoParallelForEach(i + 1, a1, b1, f, step.0, args);
      assert r.0[..i + 1][i] == a1[i];
      assert r.1[..i + 1][i] == b1[i];
    }
  }

  /** With a recording pairwise functor, the record lists the pairs `(a[k], b[k], args)`
      for `k` from `i` to `|a| - 1`, in order and once each; nothing of `b` past `|a|` is
      visited. */
  lemma {:induction false} ParallelForEachVisitsInOrder<T, U, A>(i: nat, a: seq<T>, b: seq<U>, f: (seq<(T, U, A)>, T, U, A) -> (seq<(T, U, A)>, T, U), s: seq<(T, U, A)>, args: A)
    requires i <= |a| <= |b|
    requires forall s0: seq<(T, U, A)>, x: T, y: U :: f(s0, x, y, args) == (s0 + [(x, y, args)], x, y)
    ensures DoParallelForEach(i, a, b, f, s, args).0 == a
    ensures DoParallelForEach(i, a, b, f, s, args).1 == b
    ensures |DoParallelForEach(i, a, b, f, s, args).2| == |s| + |a| - i
    ensures DoParallelForEach(i, a, b, f, s, args).2[..|s|] == s
    ensures forall k :: i <= k < |a| ==> DoParallelForEach(i, a, b, f, s, args).2[|s| + k - i] == (a[k], b[k], args)
    decreases |a| - i
  {
    if i < |a| {
      var s1 := s + [(a[i], b[i], args)];
      assert a[i := a[i]] == a;
      assert b[i := b[i]] == b;
      ParallelForEachVisitsInOrder(i + 1, a, b, f, s1, args);
      var r := DoParallelForEach(i + 1, a, b, f, s1, args).2;
      assert r[..|s|] == r[..|s1|][..|s|];
      assert r[|s|] == r[..|s1|][|s|];
    }
  }
}
