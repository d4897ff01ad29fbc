/** `multi_container` (multi_container.hpp): N sequences held BY VALUE (the constructors
    copy them into the `m_containers` tuple) and exposed as one sequence of N-slot views.
    Every mutator fans out, index by index, to all N sequences. The sequences are the
    field `containers`; `tags` are the iterator categories of the N sequence types. */
module MultiContainers {
  import opened IteratorTags
  import opened TupleForEach
  import opened TupleWrappers
  import opened MultiIterators

  /** `std::numeric_limits<std::size_t>::max()` on a 64-bit target. */
  const SIZE_MAX: nat := 0xFFFF_FFFF_FFFF_FFFF

  /** `std::numeric_limits<int>::max()`: the counter of the count-insert is an `int`. */
  const INT_MAX: nat := 0x7FFF_FFFF

  /** Running minimum of `multi_size`: starts at `val` and is lowered, in index order, to
      every length smaller than it. The result is the least of `val` and all lengths. */
  function MinSize<T>(val: nat, conts: seq<seq<T>>): (r: nat)
    ensures r <= val
    ensures forall i :: 0 <= i < |conts| ==> r <= |conts[i]|
    ensures r == val || exists i :: 0 <= i < |conts| && r == |conts[i]|
    decreases |conts|
  {
    if conts == [] then val
    else
      var r := MinSize(if |conts[0]| < val then |conts[0]| else val, conts[1..]);
      assert forall i :: 1 <= i < |conts| ==> conts[i] == conts[1..][i - 1];
      r
  }

  /** `size()`: the minimum length, `SIZE_MAX` when there are no sequences. */
  function MultiSize<T>(conts: seq<seq<T>>): (r: nat) {
    MinSize(SIZE_MAX, conts)
  }

  /** The functor `multi_size`, whose state is `val`. */
  function MultiSizeStep<T>(val: nat, cont: seq<T>, args: ()): (r: (nat, seq<T>)) {
    (if |cont| < val then |cont| else val, cont)
  }

  /** `foreach` with `multi_size` computes `MinSize` and leaves the sequences alone. */
  lemma {:induction false} SizeFold<T>(i: nat, conts: seq<seq<T>>, val: nat)
    requires i <= |conts|
    ensures DoForEach(i, conts, MultiSizeStep, val, ()) == (conts, MinSize(val, conts[i..]))
    decreases |conts| - i
  {
    if i < |conts| {
      assert conts[i := conts[i]] == conts;
      SizeFold(i + 1, conts, if |conts[i]| < val then |conts[i]| else val);
      assert conts[i..][1..] == conts[i + 1..];
    }
  }

  /** `size() == 0` exactly when some sequence is empty; with no sequences the size is
      `SIZE_MAX`. */
  lemma EmptyIffSomeSequenceEmpty<T>(conts: seq<seq<T>>)
    ensures MultiSize(conts) == 0 <==> exists i :: 0 <= i < |conts| && |conts[i]| == 0
    ensures conts == [] ==> MultiSize(conts) == SIZE_MAX
  {
  }

  /** The functors `multi_clear`, `multi_pop_back` and `multi_push_back`. `multi_pop_back`
      is only applied to non-empty sequences (`pop_back` on an empty one is undefined);
      on an empty one this model leaves it alone. */
  function MultiClear<T>(s: (), cont: seq<T>, args: ()): (r: ((), seq<T>)) {
    (s, [])
  }

  function MultiPopBack<T>(s: (), cont: seq<T>, args: ()): (r: ((), seq<T>)) {
    (s, if cont == [] then cont else cont[..|cont| - 1])
  }

  function MultiPushBack<T>(s: (), cont: seq<T>, elem: T, args: ()): (r: ((), seq<T>, T)) {
    (s, cont + [elem], elem)
  }

  /** Offsets at which each sequence can take an insertion (`begin()` to `end()`). */
  predicate Insertable<T>(conts: seq<seq<T>>, at: seq<int>) {
    |at| == |conts| && forall i :: 0 <= i < |conts| ==> 0 <= at[i] <= |conts[i]|
  }

  /** Each sequence `i` with `runs[i]` spliced in before offset `at[i]`. */
  function Spliced<T>(conts: seq<seq<T>>, at: seq<int>, runs: seq<seq<T>>): (r: seq<seq<T>>)
    requires Insertable(conts, at) && |runs| == |conts|
    ensures |r| == |conts|
  {
    seq(|conts|, i requires 0 <= i < |conts| => conts[i][..at[i]] + runs[i] + conts[i][at[i]..])
  }

  /** A splice keeps what was before the insertion point, puts the run right there, and
      moves what was from the insertion point on to the end of the run. */
  lemma SplicedShape<T>(conts: seq<seq<T>>, at: seq<int>, runs: seq<seq<T>>)
    requires Insertable(conts, at) && |runs| == |conts|
    ensures forall i :: 0 <= i < |conts| ==> |Spliced(conts, at, runs)[i]| == |conts[i]| + |runs[i]|
    ensures forall i :: 0 <= i < |conts| ==> Spliced(conts, at, runs)[i][..at[i]] == conts[i][..at[i]]
    ensures forall i :: 0 <= i < |conts| ==> Spliced(conts, at, runs)[i][at[i]..at[i] + |runs[i]|] == runs[i]
    ensures forall i :: 0 <= i < |conts| ==> Spliced(conts, at, runs)[i][at[i] + |runs[i]|..] == conts[i][at[i]..]
  {
    var r := Spliced(conts, at, runs);
    forall i | 0 <= i < |conts|
      ensures |r[i]| == |conts[i]| + |runs[i]| && r[i][..at[i]] == conts[i][..at[i]]
      ensures r[i][at[i]..at[i] + |runs[i]|] == runs[i] && r[i][at[i] + |runs[i]|..] == conts[i][at[i]..]
    {
      assert r[i] == conts[i][..at[i]] + runs[i] + conts[i][at[i]..];
    }
  }

  /** The runs of a single-element insert: slot `i` of the tuple, for sequence `i`. */
  function Singletons<T>(elems: seq<T>): (r: seq<seq<T>>)
    ensures |r| == |elems| && forall i :: 0 <= i < |r| ==> r[i] == [elems[i]]
  {
    seq(|elems|, i requires 0 <= i < |elems| => [elems[i]])
  }

  /** `count` copies of `x`. */
  function Repeat<T>(x: T, count: nat): (r: seq<T>)
    ensures |r| == count && forall k :: 0 <= k < count ==> r[k] == x
  {
    seq(count, _ => x)
  }

  /** Splicing in nothing leaves every sequence as it was. */
  lemma SplicedNothing<T>(conts: seq<seq<T>>, at: seq<int>, runs: seq<seq<T>>)
    requires Insertable(conts, at) && |runs| == |conts|
    requires forall i :: 0 <= i < |runs| ==> runs[i] == []
    ensures Spliced(conts, at, runs) == conts
  {
    var r := Spliced(conts, at, runs);
    SplicedShape(conts, at, runs);
    forall i | 0 <= i < |conts| ensures r[i] == conts[i] {
      assert r[i] == r[i][..at[i]] + r[i][at[i]..];
      assert conts[i] == conts[i][..at[i]] + conts[i][at[i]..];
    }
  }

  /** The offsets of the ends of the sequences. */
  function Lengths<T>(conts: seq<seq<T>>): (r: seq<int>)
    ensures |r| == |conts| && forall i :: 0 <= i < |r| ==> r[i] == |conts[i]|
  {
    seq(|conts|, i requires 0 <= i < |conts| => |conts[i]|)
  }

  /** `k` elements of each source sequence `i`, from offset `from[i]` on. */
  function Runs<T>(src: seq<seq<T>>, from: seq<int>, k: nat): (r: seq<seq<T>>)
    requires |from| == |src| && forall i :: 0 <= i < |src| ==> 0 <= from[i] && from[i] + k <= |src[i]|
    ensures |r| == |src| && forall i :: 0 <= i < |r| ==> r[i] == src[i][from[i]..from[i] + k]
  {
    seq(|src|, i requires 0 <= i < |src| => src[i][from[i]..from[i] + k])
  }

  /** `count` copies of each slot of `elems`. */
  function Repeats<T>(elems: seq<T>, count: nat): (r: seq<seq<T>>)
    ensures |r| == |elems| && forall i :: 0 <= i < |r| ==> r[i] == Repeat(elems[i], count)
  {
    seq(|elems|, i requires 0 <= i < |elems| => Repeat(elems[i], count))
  }

  /** Each sequence `i` with the `count` elements from offset `at[i]` on removed. */
  function Cut<T>(conts: seq<seq<T>>, at: seq<int>, count: nat): (r: seq<seq<T>>)
    requires |at| == |conts| && forall i :: 0 <= i < |conts| ==> 0 <= at[i] && at[i] + count <= |conts[i]|
    ensures |r| == |conts|
    ensures forall i :: 0 <= i < |r| ==> |r[i]| == |conts[i]| - count
    ensures forall i :: 0 <= i < |r| ==> r[i][..at[i]] == conts[i][..at[i]]
    ensures forall i :: 0 <= i < |r| ==> r[i][at[i]..] == conts[i][at[i] + count..]
  {
    var r := seq(|conts|, i requires 0 <= i < |conts| => conts[i][..at[i]] + conts[i][at[i] + count..]);
    assert forall i :: 0 <= i < |r| ==> r[i][..at[i]] == conts[i][..at[i]] by {
      forall i | 0 <= i < |r| ensures r[i][..at[i]] == conts[i][..at[i]] {
        assert r[i] == conts[i][..at[i]] + conts[i][at[i] + count..];
      }
    }
    assert forall i :: 0 <= i < |r| ==> r[i][at[i]..] == conts[i][at[i] + count..] by {
      forall i | 0 <= i < |r| ensures r[i][at[i]..] == conts[i][at[i] + count..] {
        assert r[i] == conts[i][..at[i]] + conts[i][at[i] + count..];
      }
    }
    r
  }

  /** Inserting one element before offset `p` of a sequence that already had `j` elements
      spliced in before `p` extends the splice: the shape of each step of the range and
      count inserts. */
  lemma SpliceOneMore<T>(c: seq<T>, p: nat, run: seq<T>, x: T)
    requires p <= |c|
    ensures var d := c[..p] + run + c[p..];
            d[..p + |run|] + [x] + d[p + |run|..] == c[..p] + (run + [x]) + c[p..]
  {
    var d := c[..p] + run + c[p..];
    assert d[..p + |run|] == c[..p] + run;
    assert d[p + |run|..] == c[p..];
  }

  /** One round of the range insert: with the first `j` views of the range already spliced
      in before `at`, inserting view `j` at `at` shifted by `j` splices in the first `j + 1`. */
  lemma SpliceRunStep<T>(c0: seq<seq<T>>, at: seq<int>, src: seq<seq<T>>, from: seq<int>, j: nat,
                         before: seq<seq<T>>, x: seq<T>)
    requires Insertable(c0, at) && |src| == |c0| && |from| == |c0| && |x| == |c0|
    requires forall i :: 0 <= i < |c0| ==> 0 <= from[i] && from[i] + j < |src[i]| && x[i] == src[i][from[i] + j]
    requires before == Spliced(c0, at, Runs(src, from, j))
    ensures Insertable(before, Shifted(at, j))
    ensures Spliced(before, Shifted(at, j), Singletons(x)) == Spliced(c0, at, Runs(src, from, j + 1))
  {
    SplicedShape(c0, at, Runs(src, from, j));
    var after := Spliced(before, Shifted(at, j), Singletons(x));
    var goal := Spliced(c0, at, Runs(src, from, j + 1));
    SplicedShape(before, Shifted(at, j), Singletons(x));
    SplicedShape(c0, at, Runs(src, from, j + 1));
    forall i | 0 <= i < |c0| ensures after[i] == goal[i] {
      var run := src[i][from[i]..from[i] + j];
      assert before[i] == c0[i][..at[i]] + run + c0[i][at[i]..] by {
        assert before[i] == before[i][..at[i]] + before[i][at[i]..at[i] + j] + before[i][at[i] + j..];
      }
      SpliceOneMore(c0[i], at[i], run, x[i]);
      assert after[i] == before[i][..at[i] + j] + [x[i]] + before[i][at[i] + j..] by {
        assert after[i] == after[i][..at[i] + j] + after[i][at[i] + j..at[i] + j + 1] + after[i][at[i] + j + 1..];
      }
      assert run + [x[i]] == src[i][from[i]..from[i] + j + 1];
      assert goal[i] == goal[i][..at[i]] + goal[i][at[i]..at[i] + j + 1] + goal[i][at[i] + j + 1..];
    }
  }

  /** Removing the element at offset `p` after `j` were already removed there. */
  lemma CutOneMore<T>(c: seq<T>, p: nat, j: nat)
    requires p + j < |c|
    ensures var d := c[..p] + c[p + j..];
            d[..p] + d[p + 1..] == c[..p] + c[p + j + 1..]
  {
    var d := c[..p] + c[p + j..];
    assert d[..p] == c[..p];
    assert d[p + 1..] == c[p + j + 1..];
  }

  /** One round of the count insert: with `i` copies already spliced in before `at`, one
      more insert at `at` puts the new copy in front of them. */
  lemma RepeatStep<T>(c0: seq<seq<T>>, at: seq<int>, elem: seq<T>, i: nat, before: seq<seq<T>>)
    requires Insertable(c0, at) && |elem| == |c0|
    requires before == Spliced(c0, at, Repeats(elem, i))
    ensures Insertable(before, at)
    ensures Spliced(before, at, Singletons(elem)) == Spliced(c0, at, Repeats(elem, i + 1))
  {
    SplicedShape(c0, at, Repeats(elem, i));
    var after := Spliced(before, at, Singletons(elem));
    var goal := Spliced(c0, at, Repeats(elem, i + 1));
    SplicedShape(before, at, Singletons(elem));
    SplicedShape(c0, at, Repeats(elem, i + 1));
    forall n | 0 <= n < |c0| ensures after[n] == goal[n] {
      var d := before[n];
      assert d == c0[n][..at[n]] + Repeat(elem[n], i) + c0[n][at[n]..] by {
        assert d == d[..at[n]] + d[at[n]..at[n] + i] + d[at[n] + i..];
      }
      assert d[..at[n]] == c0[n][..at[n]];
      assert d[at[n]..] == Repeat(elem[n], i) + c0[n][at[n]..];
      assert after[n] == after[n][..at[n]] + after[n][at[n]..at[n] + 1] + after[n][at[n] + 1..];
      assert [elem[n]] + Repeat(elem[n], i) == Repeat(elem[n], i + 1);
      assert goal[n] == goal[n][..at[n]] + goal[n][at[n]..at[n] + i + 1] + goal[n][at[n] + i + 1..];
    }
  }

  /** Cutting nothing leaves every sequence as it was. */
  lemma CutNothing<T>(conts: seq<seq<T>>, at: seq<int>)
    requires Insertable(conts, at)
    ensures Cut(conts, at, 0) == conts
  {
    var r := Cut(conts, at, 0);
    forall n | 0 <= n < |conts| ensures r[n] == conts[n] {
      assert r[n] == r[n][..at[n]] + r[n][at[n]..];
      assert conts[n] == conts[n][..at[n]] + conts[n][at[n]..];
    }
  }

  /** One round of the range erase: with `i` elements already cut at `at`, erasing at `at`
      once more cuts `i + 1`. */
  lemma CutStep<T>(c0: seq<seq<T>>, at: seq<int>, i: nat, before: seq<seq<T>>)
    requires |at| == |c0| && forall n :: 0 <= n < |c0| ==> 0 <= at[n] && at[n] + i < |c0[n]|
    requires before == Cut(c0, at, i)
    ensures Addressable(before, at)
    ensures Cut(before, at, 1) == Cut(c0, at, i + 1)
  {
    var after := Cut(before, at, 1);
    var goal := Cut(c0, at, i + 1);
    forall n | 0 <= n < |c0| ensures after[n] == goal[n] {
      assert before[n] == c0[n][..at[n]] + c0[n][at[n] + i..] by {
        assert before[n] == before[n][..at[n]] + before[n][at[n]..];
      }
      CutOneMore(c0[n], at[n], i);
      assert after[n] == after[n][..at[n]] + after[n][at[n]..];
      assert goal[n] == goal[n][..at[n]] + goal[n][at[n]..];
    }
  }

  /** `++pos; ++first;` in the loop of the range insert: both move on by one. */
  method StepBoth(p: MultiIterator, f: MultiIterator, ghost at: seq<int>, ghost from: seq<int>, ghost j: int)
    requires p.Valid() && f.Valid() && p != f && p.its == Shifted(at, j) && f.its == Shifted(from, j)
    modifies p, f
    ensures p.Valid() && f.Valid() && p.its == Shifted(at, j + 1) && f.its == Shifted(from, j + 1)
  {
    p.Increment();
    f.Increment();
    ShiftedAdds(at, j, 1);
    ShiftedAdds(from, j, 1);
  }

  /** The as-written guard of `at(index)`: it rejects only `index > size()`. */
  function AtRejectsAsWritten(index: nat, size: nat): (r: bool) {
    index > size
  }

  /** With the guard as written, `at(size())` is accepted although `size()` is outside at
      least one sequence, so `*(begin() + size())` reads past that sequence's end. */
  lemma AtAsWrittenAdmitsEnd<T>(conts: seq<seq<T>>)
    requires |conts| > 0 && forall i :: 0 <= i < |conts| ==> |conts[i]| <= SIZE_MAX
    ensures !AtRejectsAsWritten(MultiSize(conts), MultiSize(conts))
    ensures exists i :: 0 <= i < |conts| && MultiSize(conts) >= |conts[i]|
  {
    var n := MultiSize(conts);
    if n == SIZE_MAX {
      assert n <= |conts[0]| <= SIZE_MAX;
    }
  }

  /** The checked access `at`: the view or an `std::out_of_range` failure. */
  datatype Checked<T> = Element(view: TupleWrapper<T>) | OutOfRange

  class MultiContainer<T> {
    const tags: seq<IteratorTag>
    var containers: seq<seq<T>>

    /** One sequence per declared sequence type. */
    ghost predicate Valid()
      reads this
    {
      |containers| == |tags|
    }

    /** The iterator type of this container compiles. */
    ghost predicate Iterable()
      reads this
    {
      Valid() && Instantiable(tags)
    }

    /** The iterator category of the container's iterator is random access. */
    ghost predicate RandomAccessible()
      reads this
    {
      Iterable() && IsAtLeastTag(CategoryOf(tags), RandomAccess)
    }

    /** `multi_container(Ts const&... containers)`: copies of the given sequences. */
    constructor (conts: seq<seq<T>>, tags: seq<IteratorTag>)
      requires |conts| == |tags|
      ensures Valid() && this.tags == tags && containers == conts
    {
      this.tags := tags;
      containers := conts;
    }

    /** `multi_container()`: every sequence default-constructed, which for the growable
        sequence types (`std::vector`, `std::list`, `std::deque`) is empty. A fixed-size
        `std::array` component is not covered. */
    constructor Empty(tags: seq<IteratorTag>)
      ensures Valid() && this.tags == tags
      ensures forall i :: 0 <= i < |containers| ==> containers[i] == []
    {
      this.tags := tags;
      containers := seq(|tags|, _ => []);
    }

    /** `begin()`: every component at offset 0. */
    method Begin() returns (it: MultiIterator)
      requires Iterable()
      ensures fresh(it) && it.Valid() && it.tags == tags
      ensures it.its == seq(|tags|, _ => 0)
    {
      it := new MultiIterator(tags, seq(|tags|, _ => 0));
    }

    /** `end()`: every component at the end of its own sequence. */
    method End() returns (it: MultiIterator)
      requires Iterable()
      ensures fresh(it) && it.Valid() && it.tags == tags
      ensures it.its == Lengths(containers)
    {
      it := new MultiIterator(tags, Lengths(containers));
    }

    /** `size()`: `foreach(m_containers, multi_size{})`. The result is the least length,
        or `SIZE_MAX` when there are no sequences. */
    method Size() returns (n: nat)
      requires Valid()
      ensures n == MultiSize(containers)
      ensures n <= SIZE_MAX && forall i :: 0 <= i < |containers| ==> n <= |containers[i]|
      ensures n == SIZE_MAX || exists i :: 0 <= i < |containers| && n == |containers[i]|
    {
      var _, val := ForEach(containers, MultiSizeStep, SIZE_MAX, ());
      SizeFold(0, containers, SIZE_MAX);
      assert containers[0..] == containers;
      n := val;
    }

    /** `empty()`: `size() == 0`, which holds exactly when some sequence is empty. */
    method IsEmpty() returns (b: bool)
      requires Valid()
      ensures b <==> MultiSize(containers) == 0
      ensures b <==> exists i :: 0 <= i < |containers| && containers[i] == []
    {
      var n := Size();
      b := n == 0;
      EmptyIffSomeSequenceEmpty(containers);
    }

    /** `operator[](index)`: `*(begin() + index)`. Only a debug build checks
        `index < size()`, so the model requires it. */
    method Index(index: nat) returns (w: TupleWrapper<T>)
      requires RandomAccessible() && index < MultiSize(containers)
      ensures w.Arity() == |containers|
      ensures forall i :: 0 <= i < |containers| ==> w.GetElem(i) == containers[i][index]
    {
      var b := Begin();
      var p := b.Plus(index);
      w := p.Deref(containers);
    }

    /** `at(index)` with the bound `index < size()` that `operator[]` asserts: outside it the
        result is `OutOfRange`, inside it the view at `index`. (The source's guard is
        `index > size()`; see `AtAsWrittenAdmitsEnd`.) */
    method At(index: nat) returns (r: Checked<T>)
      requires RandomAccessible()
      ensures r.OutOfRange? <==> index >= MultiSize(containers)
      ensures r.Element? ==> r.view.Arity() == |containers| &&
                             forall i :: 0 <= i < |containers| ==> r.view.GetElem(i) == containers[i][index]
    {
      var size := Size();
      if index >= size {
        return OutOfRange;
      }
      var b := Begin();
      var p := b.Plus(index);
      r := Element(p.Deref(containers));
    }

    /** `front()`: `*begin()`, the first element of every sequence (undefined when one is
        empty). */
    method Front() returns (w: TupleWrapper<T>)
      requires Iterable() && forall i :: 0 <= i < |containers| ==> containers[i] != []
      ensures w.Arity() == |containers|
      ensures forall i :: 0 <= i < |containers| ==> w.GetElem(i) == containers[i][0]
    {
      var b := Begin();
      w := b.Deref(containers);
    }

    /** `back()`: `*(end() - 1)`, the LAST element of every sequence, whatever its length. */
    method Back() returns (w: TupleWrapper<T>)
      requires RandomAccessible() && forall i :: 0 <= i < |containers| ==> containers[i] != []
      ensures w.Arity() == |containers|
      ensures forall i :: 0 <= i < |containers| ==> w.GetElem(i) == containers[i][|containers[i]| - 1]
    {
      var e := End();
      var p := e.Minus(1);
      w := p.Deref(containers);
    }

    /** `clear()`: `foreach(m_containers, multi_clear{})`. */
    method Clear()
      requires Valid()
      modifies this
      ensures Valid()
      ensures forall i :: 0 <= i < |containers| ==> containers[i] == []
    {
      var next, _ := ForEach(containers, MultiClear, (), ());
      ForEachInPlace(0, containers, MultiClear, (), (), (c: seq<T>) => []);
      containers := next;
    }

    /** `push_back(elems)`: `parallel_foreach(m_containers, elems, multi_push_back{})`; the
        tuple must have one element per sequence (a `static_assert`). */
    method PushBack(elems: seq<T>)
      requires Valid() && |elems| == |containers|
      modifies this
      ensures Valid()
      ensures forall i :: 0 <= i < |containers| ==> containers[i] == old(containers[i]) + [elems[i]]
    {
      var next, _, _ := ParallelForEach(containers, elems, MultiPushBack, (), ());
      ParallelForEachInPlace(0, containers, elems, MultiPushBack, (), (), (c: seq<T>, e: T) => (c + [e], e));
      containers := next;
    }

    /** `pop_back()`: `foreach(m_containers, multi_pop_back{})`. */
    method PopBack()
      requires Valid() && forall i :: 0 <= i < |containers| ==> containers[i] != []
      modifies this
      ensures Valid()
      ensures forall i :: 0 <= i < |containers| ==>
        containers[i] == old(containers[i])[..|old(containers[i])| - 1]
    {
      var next, _ := ForEach(containers, MultiPopBack, (), ());
      ForEachInPlace(0, containers, MultiPopBack, (), (),
                     (c: seq<T>) => if c == [] then c else c[..|c| - 1]);
      containers := next;
    }

    /** `insert(pos, elems)` (`multi_insert`): element `i` of the tuple goes into sequence
        `i` BEFORE offset `pos[i]`, as `std::vector::insert` does (the comment above it in the
        source says "after"). The returned iterator has the offsets of `pos`, that is, it
        points at the inserted elements. */
    method Insert(pos: MultiIterator, elems: seq<T>) returns (r: MultiIterator)
      requires Iterable() && pos.Valid() && pos.tags == tags
      requires |elems| == |containers| && Insertable(containers, pos.its)
      modifies this
      ensures Valid()
      ensures containers == Spliced(old(containers), pos.its, Singletons(elems))
      ensures fresh(r) && r.Valid() && r.tags == tags && r.its == pos.its
      ensures Addressable(containers, r.its) && r.Deref(containers).slots == elems
    {
      SplicedShape(containers, pos.its, Singletons(elems));
      containers := Spliced(containers, pos.its, Singletons(elems));
      r := new MultiIterator(pos.tags, pos.its);
      assert r.Deref(containers).slots == elems by {
        forall i | 0 <= i < |elems| ensures containers[i][pos.its[i]] == elems[i] {
          assert containers[i][pos.its[i]..pos.its[i] + 1] == [elems[i]];
        }
      }
    }

    /** `insert(pos, first, last)`: while `first != last`, insert `*first` at `pos`, then
        step both. The range is taken from another container `other`; as the source, it
        trusts that `last` is reachable from `first` and that each view exists. Returns
        `pos` moved past the `k` inserted views. */
    method InsertRange(pos: MultiIterator, other: MultiContainer<T>, first: MultiIterator, last: MultiIterator)
      returns (r: MultiIterator)
      requires Iterable() && pos.Valid() && pos.tags == tags && Insertable(containers, pos.its)
      requires other != this && other.Valid() && |other.tags| == |tags|
      requires first.Valid() && last.Valid() && first.tags == last.tags == other.tags
      requires first.its[0] <= last.its[0]
      requires forall i :: 0 <= i < |tags| ==>
        0 <= first.its[i] && first.its[i] + (last.its[0] - first.its[0]) <= |other.containers[i]|
      modifies this
      ensures Valid()
      ensures containers == Spliced(old(containers), pos.its, Runs(other.containers, first.its, last.its[0] - first.its[0]))
      ensures fresh(r) && r.Valid() && r.tags == tags && r.its == Shifted(pos.its, last.its[0] - first.its[0])
    {
      ghost var k := last.its[0] - first.its[0];
      ghost var c0, src, at, from := containers, other.containers, pos.its, first.its;
      var p := new MultiIterator(pos.tags, pos.its);
      var f := new MultiIterator(first.tags, first.its);
      var more, agree := f.NotEqualTo(last);
      ghost var j := 0;
      SplicedNothing(c0, at, Runs(src, from, 0));
      ShiftedZero(at);
      ShiftedZero(from);
      while more
        invariant Valid() && other.containers == src && first.its == from && last.its[0] == from[0] + k
        invariant forall i :: 0 <= i < |tags| ==> 0 <= from[i] && from[i] + k <= |src[i]|
        invariant fresh(p) && fresh(f) && p != f && last != f
        invariant p.Valid() && p.tags == tags && f.Valid() && f.tags == other.tags
        invariant 0 <= j <= k && p.its == Shifted(at, j) && f.its == Shifted(from, j)
        invariant more <==> j < k
        invariant containers == Spliced(c0, at, Runs(src, from, j))
        decreases k - j
      {
        p, more := InsertRangeRound(p, f, last, other.containers, c0, at, from, j);
        j := j + 1;
      }
      r := p;
    }

    /** One round of the range insert's loop, `pos = insert(pos, *first); ++pos; ++first;`,
        with `j` views of the range already inserted. */
    method InsertRangeRound(p: MultiIterator, f: MultiIterator, last: MultiIterator, src: seq<seq<T>>,
                            ghost c0: seq<seq<T>>, ghost at: seq<int>, ghost from: seq<int>, ghost j: nat)
      returns (p': MultiIterator, more: bool)
      requires Iterable() && p.Valid() && p.tags == tags && p != f && last != f
      requires f.Valid() && last.Valid() && last.tags == f.tags && |src| == |tags| == |f.tags|
      requires Insertable(c0, at) && |from| == |tags|
      requires forall i :: 0 <= i < |tags| ==> 0 <= from[i] && from[i] + j < |src[i]|
      requires p.its == Shifted(at, j) && f.its == Shifted(from, j)
      requires containers == Spliced(c0, at, Runs(src, from, j))
      modifies this, f
      ensures Valid() && fresh(p') && p'.Valid() && p'.tags == tags && f.Valid()
      ensures p'.its == Shifted(at, j + 1) && f.its == Shifted(from, j + 1)
      ensures more <==> from[0] + j + 1 != last.its[0]
      ensures containers == Spliced(c0, at, Runs(src, from, j + 1))
    {
      var view := f.Deref(src);
      assert forall i :: 0 <= i < |tags| ==> view.slots[i] == src[i][from[i] + j];
      SpliceRunStep(c0, at, src, from, j, containers, view.slots);
      p' := Insert(p, view.slots);
      StepBoth(p', f, at, from, j);
      var agree;
      more, agree := f.NotEqualTo(last);
    }

    /** `insert(pos, count, elem)`: `count` single inserts at the same offsets; as the copies
        are equal, `count` copies of `elem[i]` end up before `pos[i]`. The loop counter is an
        `int`, so `count` beyond `INT_MAX` would overflow it. */
    method InsertCount(pos: MultiIterator, count: nat, elem: seq<T>)
      requires Iterable() && pos.Valid() && pos.tags == tags
      requires |elem| == |containers| && Insertable(containers, pos.its) && count <= INT_MAX
      modifies this
      ensures Valid()
      ensures containers == Spliced(old(containers), pos.its, Repeats(elem, count))
    {
      ghost var c0 := containers;
      var p := pos;
      var i := 0;
      SplicedNothing(c0, pos.its, Repeats(elem, 0));
      while i < count
        invariant Valid() && 0 <= i <= count
        invariant p.Valid() && p.tags == tags && p.its == pos.its
        invariant containers == Spliced(c0, pos.its, Repeats(elem, i))
      {
        RepeatStep(c0, pos.its, elem, i, containers);
        p := Insert(p, elem);
        i := i + 1;
      }
    }

    /** `erase(pos)` (`multi_erase`): removes element `pos[i]` of each sequence `i`; the
        returned iterator has the same offsets, now at the element after the erased one. */
    method Erase(pos: MultiIterator) returns (r: MultiIterator)
      requires Iterable() && pos.Valid() && pos.tags == tags && Addressable(containers, pos.its)
      modifies this
      ensures Valid()
      ensures containers == Cut(old(containers), pos.its, 1)
      ensures fresh(r) && r.Valid() && r.tags == tags && r.its == pos.its
    {
      containers := Cut(containers, pos.its, 1);
      r := new MultiIterator(pos.tags, pos.its);
    }

    /** `erase(first, last)`: `count = std::distance(first, last)`, the difference of the
        FIRST components, then `count` erases at `first`'s offsets. The count is a
        `std::size_t`, so `last` must not be before `first`. */
    method EraseRange(first: MultiIterator, last: MultiIterator) returns (r: MultiIterator)
      requires Iterable() && first.Valid() && last.Valid() && first.tags == last.tags == tags
      requires first.its[0] <= last.its[0]
      requires forall i :: 0 <= i < |tags| ==>
        0 <= first.its[i] && first.its[i] + (last.its[0] - first.its[0]) <= |containers[i]|
      modifies this
      ensures Valid()
      ensures containers == Cut(old(containers), first.its, last.its[0] - first.its[0])
      ensures fresh(r) && r.Valid() && r.tags == tags && r.its == first.its
    {
      var count: nat := last.its[0] - first.its[0];
      ghost var c0 := containers;
      r := new MultiIterator(first.tags, first.its);
      var i := 0;
      CutNothing(c0, first.its);
      while i < count
        invariant Valid() && 0 <= i <= count
        invariant fresh(r) && r.Valid() && r.tags == tags && r.its == first.its
        invariant containers == Cut(c0, first.its, i)
      {
        CutStep(c0, first.its, i, containers);
        r := Erase(r);
        i := i + 1;
      }
    }

    /** `*pos = rhs` on the view of `pos`: a position-wise write into every sequence. */
    method AssignAt(pos: MultiIterator, rhs: TupleWrapper<T>)
      requires Iterable() && pos.Valid() && pos.tags == tags
      requires Addressable(containers, pos.its) && rhs.Arity() == |containers|
      modifies this
      ensures Valid()
      ensures containers == WriteThrough(old(containers), pos.its, rhs)
      ensures Addressable(containers, pos.its) && pos.Deref(containers) == rhs
    {
      containers := WriteThrough(containers, pos.its, rhs);
      assert pos.Deref(containers).slots == rhs.slots;
    }

    /** `swap(*p, *q)`: the two views trade their values, slot by slot. */
    method SwapAt(p: MultiIterator, q: MultiIterator)
      requires Iterable() && p.Valid() && q.Valid() && p.tags == q.tags == tags
      requires Addressable(containers, p.its) && Addressable(containers, q.its)
      modifies this
      ensures Valid()
      ensures containers == SwapThrough(old(containers), p.its, q.its)
    {
      containers := SwapThrough(containers, p.its, q.its);
    }
  }
}
