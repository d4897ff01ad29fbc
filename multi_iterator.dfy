/** `multi_iterator` and its helpers (multi_iterator.hpp).

    A multi-iterator holds one iterator per bound sequence; each is modelled by its offset
    from the beginning of its own sequence, so the iterator is the sequence `its` of
    offsets (the `m_iterators` tuple), updated in place by the stepping operations. The
    component iterator categories are a constant `tags`, fixed by the iterator's type. */
module MultiIterators {
  import opened IteratorTags
  import opened TupleForEach
  import opened TupleWrappers

  /** Every offset moved by `n`. */
  function Shifted(its: seq<int>, n: int): (r: seq<int>)
    ensures |r| == |its|
  {
    seq(|its|, i requires 0 <= i < |its| => its[i] + n)
  }

  /** Moving by nothing changes no component. */
  lemma ShiftedZero(its: seq<int>)
    ensures Shifted(its, 0) == its
  {
  }

  /** Moving by `m` and then by `n` is moving by `m + n`. */
  lemma ShiftedAdds(its: seq<int>, m: int, n: int)
    ensures Shifted(Shifted(its, m), n) == Shifted(its, m + n)
  {
  }

  /** A step forward followed by a step back, or the other way round, restores every
      component, so `++` then `--` (and `--` then `++`) leaves an iterator as it was. */
  lemma StepsCancel(its: seq<int>)
    ensures Shifted(Shifted(its, 1), -1) == its
    ensures Shifted(Shifted(its, -1), 1) == its
  {
    ShiftedAdds(its, 1, -1);
    ShiftedAdds(its, -1, 1);
    ShiftedZero(its);
  }

  /** Every component at the same offset, as for iterators obtained from `begin()` or
      `end()` of equally long sequences and moved only through the multi-iterator. */
  predicate Synchronized(its: seq<int>) {
    forall i :: 0 <= i < |its| ==> its[i] == its[0]
  }

  /** The functors `do_increment` and `do_decrement` handed to `foreach`. */
  function DoIncrement(s: (), it: int, args: ()): (r: ((), int)) {
    (s, it + 1)
  }

  function DoDecrement(s: (), it: int, args: ()): (r: ((), int)) {
    (s, it - 1)
  }

  /** The functor `iterator_swap` handed to `parallel_foreach`. */
  function IteratorSwap(s: (), a: int, b: int, args: ()): (r: ((), int, int)) {
    (s, b, a)
  }

  /** `foreach` with `do_increment` or `do_decrement` moves every component one step. */
  lemma StepAll(its: seq<int>)
    ensures DoForEach(0, its, DoIncrement, (), ()).0 == Shifted(its, 1)
    ensures DoForEach(0, its, DoDecrement, (), ()).0 == Shifted(its, -1)
  {
    ForEachInPlace(0, its, DoIncrement, (), (), x => x + 1);
    ForEachInPlace(0, its, DoDecrement, (), (), x => x - 1);
  }

  /** `parallel_foreach` with `iterator_swap` exchanges two equally long tuples of
      iterators position by position. */
  lemma SwapExchanges(a: seq<int>, b: seq<int>)
    requires |a| == |b|
    ensures DoParallelForEach(0, a, b, IteratorSwap, (), ()).0 == b
    ensures DoParallelForEach(0, a, b, IteratorSwap, (), ()).1 == a
  {
    var g := (x: int, y: int) => (y, x);
    ParallelForEachInPlace(0, a, b, IteratorSwap, (), (), g);
    var r := DoParallelForEach(0, a, b, IteratorSwap, (), ());
    forall k | 0 <= k < |a|
      ensures r.0[k] == b[k] && r.1[k] == a[k]
    {
      assert (r.0[k], r.1[k]) == g(a[k], b[k]);
    }
    assert r.0 == b;
    assert r.1 == a;
  }

  /** Swapping twice restores both iterators. */
  lemma SwapTwice(a: seq<int>, b: seq<int>)
    requires |a| == |b|
    ensures var once := DoParallelForEach(0, a, b, IteratorSwap, (), ());
            DoParallelForEach(0, once.0, once.1, IteratorSwap, (), ()).0 == a &&
            DoParallelForEach(0, once.0, once.1, IteratorSwap, (), ()).1 == b
  {
    SwapExchanges(a, b);
    SwapExchanges(b, a);
  }

  /** The comparison functors `equal`, `less`, `less_or_equal`, `greater` and
      `greater_or_equal` handed to `iterator_compare`, applied to two offsets. */
  datatype Comparison = EqualCmp | LessCmp | LessOrEqualCmp | GreaterCmp | GreaterOrEqualCmp {
    function Holds(x: int, y: int): (r: bool) {
      match this
      case EqualCmp => x == y
      case LessCmp => x < y
      case LessOrEqualCmp => x <= y
      case GreaterCmp => x > y
      case GreaterOrEqualCmp => x >= y
    }
  }

  /** The fold `(cmp(std::get<Is>(a), std::get<Is>(b)) && ...)` over every pair. */
  function AllPairsHold(a: seq<int>, b: seq<int>, cmp: Comparison): (r: bool)
    requires |a| == |b|
    ensures r <==> forall i :: 0 <= i < |a| ==> cmp.Holds(a[i], b[i])
  {
    if a == [] then true
    else
      var rest := AllPairsHold(a[1..], b[1..], cmp);
      assert rest <==> forall i :: 1 <= i < |a| ==> cmp.Holds(a[i], b[i]) by {
        assert forall i :: 1 <= i < |a| ==> a[i] == a[1..][i - 1] && b[i] == b[1..][i - 1];
      }
      cmp.Holds(a[0], b[0]) && rest
  }

  /** The debug-only check of `iterator_compare`: the fold over all pairs equals the first
      pair's result. It fails exactly when the first pair satisfies the comparison and some
      other pair does not. */
  function DebugAgreement(a: seq<int>, b: seq<int>, cmp: Comparison): (ok: bool)
    requires |a| == |b| > 0
    ensures !ok <==> cmp.Holds(a[0], b[0]) && exists i :: 0 < i < |a| && !cmp.Holds(a[i], b[i])
  {
    AllPairsHold(a, b, cmp) == cmp.Holds(a[0], b[0])
  }

  /** `detail::iterator_compare`: applying it stores the first pair's result in `m_val`. */
  class IteratorCompare {
    var mVal: bool

    /** `m_val` is left uninitialised by the source. */
    constructor ()
    {
    }

    /** `operator()(a, b, cmp, Is...)`. The returned flag is the `dbg_assert` condition, which
        only a debug build acts on (by throwing). */
    method Apply(a: seq<int>, b: seq<int>, cmp: Comparison) returns (consistent: bool)
      requires |a| == |b| > 0
      modifies this
      ensures mVal == cmp.Holds(a[0], b[0])
      ensures consistent == DebugAgreement(a, b, cmp)
    {
      mVal := cmp.Holds(a[0], b[0]);
      consistent := AllPairsHold(a, b, cmp) == mVal;
    }

    function Value(): (r: bool)
      reads this
    {
      mVal
    }
  }

  class MultiIterator {
    const tags: seq<IteratorTag>
    var its: seq<int>

    /** The type compiles (see `Instantiable`) and there is one offset per component. */
    ghost predicate Valid()
      reads this
    {
      Instantiable(tags) && |its| == |tags|
    }

    /** `iterator_category`. */
    function Category(): (r: IteratorTag)
      reads this
      requires Valid()
    {
      CategoryOf(tags)
    }

    /** `multi_iterator(Its... its)`. */
    constructor (tags: seq<IteratorTag>, its: seq<int>)
      requires Instantiable(tags) && |its| == |tags|
      ensures Valid() && this.tags == tags && this.its == its
    {
      this.tags := tags;
      this.its := its;
    }

    /** Pre-increment: `foreach(m_iterators, do_increment{})`. */
    method Increment()
      requires Valid()
      modifies this
      ensures Valid() && its == Shifted(old(its), 1)
    {
      var next, _ := ForEach(its, DoIncrement, (), ());
      StepAll(its);
      its := next;
    }

    /** Post-increment. The source returns a reference to its local copy, which is
        destroyed on return; the model returns that copy by value. */
    method PostIncrement() returns (copy: MultiIterator)
      requires Valid()
      modifies this
      ensures fresh(copy) && copy.Valid() && copy.tags == tags && copy.its == old(its)
      ensures Valid() && its == Shifted(old(its), 1)
    {
      copy := new MultiIterator(tags, its);
      Increment();
    }

    /** Pre-decrement: needs a bidirectional category. */
    method Decrement()
      requires Valid() && IsAtLeastTag(Category(), Bidirectional)
      modifies this
      ensures Valid() && its == Shifted(old(its), -1)
    {
      var next, _ := ForEach(its, DoDecrement, (), ());
      StepAll(its);
      its := next;
    }

    /** Post-decrement; returns the old snapshot by value (see `PostIncrement`). */
    method PostDecrement() returns (copy: MultiIterator)
      requires Valid() && IsAtLeastTag(Category(), Bidirectional)
      modifies this
      ensures fresh(copy) && copy.Valid() && copy.tags == tags && copy.its == old(its)
      ensures Valid() && its == Shifted(old(its), -1)
    {
      copy := new MultiIterator(tags, its);
      Decrement();
    }

    /** `operator+=(n)`: `n` single forward steps when `n >= 0`, otherwise `-n` single
        backward steps. Needs a random-access category. */
    method AddAssign(n: int)
      requires Valid() && IsAtLeastTag(Category(), RandomAccess)
      modifies this
      ensures Valid() && its == Shifted(old(its), n)
    {
      var m := n;
      if m >= 0 {
        while m != 0
          invariant 0 <= m <= n
          invariant Valid() && its == Shifted(old(its), n - m)
          decreases m
        {
          m := m - 1;
          Increment();
        }
      } else {
        while m != 0
          invariant n <= m <= 0
          invariant Valid() && its == Shifted(old(its), n - m)
          decreases -m
        {
          m := m + 1;
          Decrement();
        }
      }
    }

    /** `operator-=(n)`: `*this += -n`. */
    method SubAssign(n: int)
      requires Valid() && IsAtLeastTag(Category(), RandomAccess)
      modifies this
      ensures Valid() && its == Shifted(old(its), -n)
    {
      AddAssign(-n);
    }

    /** `it + n` (and `n + it`, whose body is the same): a copy moved by `n`; `it` itself
        is not changed. */
    method Plus(n: int) returns (r: MultiIterator)
      requires Valid() && IsAtLeastTag(Category(), RandomAccess)
      ensures fresh(r) && r.Valid() && r.tags == tags && r.its == Shifted(its, n)
    {
      r := new MultiIterator(tags, its);
      r.AddAssign(n);
    }

    /** `it - n` (and `n - it`, whose body is the same and so also yields `it - n`). */
    method Minus(n: int) returns (r: MultiIterator)
      requires Valid() && IsAtLeastTag(Category(), RandomAccess)
      ensures fresh(r) && r.Valid() && r.tags == tags && r.its == Shifted(its, -n)
    {
      r := new MultiIterator(tags, its);
      r.SubAssign(n);
    }

    /** `a - b`: the difference of the FIRST components only. It is the difference of every
        component when both iterators are synchronized. */
    function Distance(b: MultiIterator): (d: int)
      reads this, b
      requires Valid() && b.Valid() && b.tags == tags && IsAtLeastTag(Category(), RandomAccess)
      ensures d == its[0] - b.its[0]
      ensures Synchronized(its) && Synchronized(b.its) ==> forall i :: 0 <= i < |its| ==> d == its[i] - b.its[i]
    {
      NegotiatedCategory(tags);
      its[0] - b.its[0]
    }

    /** The comparison operators: `iterator_compare` with the given functor. `r` is the first
        pair's result; `consistent` is the debug-only agreement of all pairs. */
    method Compare(b: MultiIterator, cmp: Comparison) returns (r: bool, consistent: bool)
      requires Valid() && b.Valid() && b.tags == tags
      ensures |its| > 0 && r == cmp.Holds(its[0], b.its[0])
      ensures !consistent <==> r && exists i :: 0 < i < |its| && !cmp.Holds(its[i], b.its[i])
    {
      NegotiatedCategory(tags);
      var comp := new IteratorCompare();
      consistent := comp.Apply(its, b.its, cmp);
      r := comp.Value();
    }

    /** `==` and `!=` (any category: every tag is at least Input). */
    method EqualTo(b: MultiIterator) returns (r: bool, consistent: bool)
      requires Valid() && b.Valid() && b.tags == tags
      ensures |its| > 0 && (r <==> its[0] == b.its[0])
      ensures !consistent <==> r && exists i :: 0 < i < |its| && its[i] != b.its[i]
    {
      r, consistent := Compare(b, EqualCmp);
    }

    method NotEqualTo(b: MultiIterator) returns (r: bool, consistent: bool)
      requires Valid() && b.Valid() && b.tags == tags
      ensures |its| > 0 && (r <==> its[0] != b.its[0])
      ensures !consistent <==> !r && exists i :: 0 < i < |its| && its[i] != b.its[i]
    {
      var eq;
      eq, consistent := EqualTo(b);
      r := !eq;
    }

    /** `<`, `>`, `<=`, `>=`: need a random-access category. */
    method LessThan(b: MultiIterator) returns (r: bool, consistent: bool)
      requires Valid() && b.Valid() && b.tags == tags && IsAtLeastTag(Category(), RandomAccess)
      ensures |its| > 0 && (r <==> its[0] < b.its[0])
      ensures !consistent <==> r && exists i :: 0 < i < |its| && !(its[i] < b.its[i])
    {
      r, consistent := Compare(b, LessCmp);
    }

    method GreaterThan(b: MultiIterator) returns (r: bool, consistent: bool)
      requires Valid() && b.Valid() && b.tags == tags && IsAtLeastTag(Category(), RandomAccess)
      ensures |its| > 0 && (r <==> its[0] > b.its[0])
      ensures !consistent <==> r && exists i :: 0 < i < |its| && !(its[i] > b.its[i])
    {
      r, consistent := Compare(b, GreaterCmp);
    }

    method LessOrEqualTo(b: MultiIterator) returns (r: bool, consistent: bool)
      requires Valid() && b.Valid() && b.tags == tags && IsAtLeastTag(Category(), RandomAccess)
      ensures |its| > 0 && (r <==> its[0] <= b.its[0])
      ensures !consistent <==> r && exists i :: 0 < i < |its| && !(its[i] <= b.its[i])
    {
      r, consistent := Compare(b, LessOrEqualCmp);
    }

    method GreaterOrEqualTo(b: MultiIterator) returns (r: bool, consistent: bool)
      requires Valid() && b.Valid() && b.tags == tags && IsAtLeastTag(Category(), RandomAccess)
      ensures |its| > 0 && (r <==> its[0] >= b.its[0])
      ensures !consistent <==> r && exists i :: 0 < i < |its| && !(its[i] >= b.its[i])
    {
      r, consistent := Compare(b, GreaterOrEqualCmp);
    }

    /** `operator*`: the view whose slot `i` is the element at offset `its[i]` of bound
        sequence `i` (undefined at the end, hence the requirement). */
    function Deref<T>(conts: seq<seq<T>>): (w: TupleWrapper<T>)
      reads this
      requires Addressable(conts, its)
      ensures w.Arity() == |its|
      ensures forall i :: 0 <= i < |its| ==> w.GetElem(i) == conts[i][its[i]]
    {
      View(conts, its)
    }

    /** `operator[](n)`: moves THIS iterator by `n` and then dereferences it. */
    method Subscript<T>(n: int, conts: seq<seq<T>>) returns (w: TupleWrapper<T>)
      requires Valid() && IsAtLeastTag(Category(), RandomAccess)
      requires Addressable(conts, Shifted(its, n))
      modifies this
      ensures Valid() && its == Shifted(old(its), n)
      ensures w.Arity() == |its| && forall i :: 0 <= i < |its| ==> w.GetElem(i) == conts[i][its[i]]
    {
      AddAssign(n);
      w := Deref(conts);
    }
  }

  /** `swap(a, b)`: `parallel_foreach(a.m_iterators, b.m_iterators, iterator_swap{})`. */
  method Swap(a: MultiIterator, b: MultiIterator)
    requires a.Valid() && b.Valid() && a.tags == b.tags
    modifies a, b
    ensures a.Valid() && b.Valid()
    ensures a.its == old(b.its) && b.its == old(a.its)
  {
    var x, y, _ := ParallelForEach(a.its, b.its, IteratorSwap, (), ());
    SwapExchanges(a.its, b.its);
    a.its := x;
    b.its := y;
  }
}
