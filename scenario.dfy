/** The walk-through of main.cpp on integer elements: a range-for that increments every
    element through the views, and the push, range insert, range erase and clear of the
    later containers. The `float` and `long long` sequences of the program hold whole
    numbers there, so they are integer sequences here. */
module Scenario {
  import opened IteratorTags
  import opened TupleWrappers
  import opened MultiIterators
  import opened MultiContainers

  /** The element type `X` of the last container; its member `f` only prints. */
  datatype X = X

  /** Every slot of a view plus one. */
  function Incremented(w: TupleWrapper<int>): (r: TupleWrapper<int>)
    ensures r.Arity() == w.Arity() && forall i :: 0 <= i < w.Arity() ==> r.GetElem(i) == w.GetElem(i) + 1
  {
    TupleWrapper(seq(|w.slots|, i requires 0 <= i < |w.slots| => w.slots[i] + 1))
  }

  /** `for (auto [a, b, c] : mc) { ++a; ++b; ++c; }`: the loop runs from `begin()` while it
      differs from `end()` in the first component, and each binding aliases the elements, so
      every element of equally long sequences ends up one larger. */
  method IncrementAll(mc: MultiContainer<int>)
    requires mc.Iterable()
    requires forall i :: 0 <= i < |mc.containers| ==> |mc.containers[i]| == |mc.containers[0]|
    modifies mc
    ensures mc.Valid() && |mc.containers| == old(|mc.containers|)
    ensures forall i :: 0 <= i < |mc.containers| ==> |mc.containers[i]| == |old(mc.containers[i])|
    ensures forall i, k :: 0 <= i < |mc.containers| && 0 <= k < |mc.containers[i]| ==>
      mc.containers[i][k] == old(mc.containers[i][k]) + 1
  {
    ghost var c0 := mc.containers;
    NegotiatedCategory(mc.tags);
    ghost var len := |c0[0]|;
    var it := mc.Begin();
    var e := mc.End();
    var more, agree := it.NotEqualTo(e);
    ghost var j := 0;
    while more
      invariant mc.Valid() && |mc.containers| == |c0|
      invariant fresh(it) && it.Valid() && it.tags == mc.tags && e.Valid() && e.tags == mc.tags && it != e
      invariant e.its[0] == len && 0 <= j <= len
      invariant forall i :: 0 <= i < |it.its| ==> it.its[i] == j
      invariant more <==> j < len
      invariant forall i :: 0 <= i < |c0| ==> |mc.containers[i]| == len
      invariant forall i, k :: 0 <= i < |c0| && 0 <= k < len ==>
        mc.containers[i][k] == if k < j then c0[i][k] + 1 else c0[i][k]
      decreases len - j
    {
      var w := it.Deref(mc.containers);
      mc.AssignAt(it, Incremented(w));
      it.Increment();
      j := j + 1;
      more, agree := it.NotEqualTo(e);
    }
  }

  /** The first container of main.cpp, over copies of `vi`, `vf` and `all`, after the
      range-for that increments every element. */
  method IncrementFirst() returns (first: seq<seq<int>>)
    ensures first == [[1, 2, 0, 3, -1], [12, 13, 14, 15, 16], [2, 3, 4, 5, 6]]
  {
    var multiCont := new MultiContainer([[0, 1, -1, 2, -2], [11, 12, 13, 14, 15], [1, 2, 3, 4, 5]],
                                        [RandomAccess, RandomAccess, RandomAccess]);
    IncrementAll(multiCont);
    first := multiCont.containers;
    assert first[0] == [1, 2, 0, 3, -1];
    assert first[1] == [12, 13, 14, 15, 16];
    assert first[2] == [2, 3, 4, 5, 6];
  }

  /** All three views of `n` spliced in at offset 0 of each sequence of `m`. */
  lemma InsertAtFront()
    ensures Spliced([[0, 1, -1, 2, -2, 1], [11, 12, 13, 14, 15, 2]], [0, 0],
                    Runs([[-10, -11, -12], [-2, -3, -4]], [0, 0], 3))
         == [[-10, -11, -12, 0, 1, -1, 2, -2, 1], [-2, -3, -4, 11, 12, 13, 14, 15, 2]]
  {
    var r := Spliced([[0, 1, -1, 2, -2, 1], [11, 12, 13, 14, 15, 2]], [0, 0],
                     Runs([[-10, -11, -12], [-2, -3, -4]], [0, 0], 3));
    var runs := Runs([[-10, -11, -12], [-2, -3, -4]], [0, 0], 3);
    SplicedShape([[0, 1, -1, 2, -2, 1], [11, 12, 13, 14, 15, 2]], [0, 0], runs);
    assert runs[0] == [-10, -11, -12] && runs[1] == [-2, -3, -4];
    assert r[0] == r[0][..0] + r[0][0..3] + r[0][3..];
    assert r[0] == [-10, -11, -12] + [0, 1, -1, 2, -2, 1];
    assert r[1] == r[1][..0] + r[1][0..3] + r[1][3..];
    assert r[1] == [-2, -3, -4] + [11, 12, 13, 14, 15, 2];
    assert [-10, -11, -12] + [0, 1, -1, 2, -2, 1] == [-10, -11, -12, 0, 1, -1, 2, -2, 1];
    assert [-2, -3, -4] + [11, 12, 13, 14, 15, 2] == [-2, -3, -4, 11, 12, 13, 14, 15, 2];
    assert r == [r[0], r[1]];
  }

  /** `m { vi, vf }` after `m.push_back(std::make_tuple(1, 2.0f))`. */
  method PushOnto() returns (mc: MultiContainer<int>)
    ensures fresh(mc) && mc.Valid() && mc.tags == [RandomAccess, RandomAccess]
    ensures mc.containers == [[0, 1, -1, 2, -2, 1], [11, 12, 13, 14, 15, 2]]
  {
    mc := new MultiContainer([[0, 1, -1, 2, -2], [11, 12, 13, 14, 15]], [RandomAccess, RandomAccess]);
    mc.PushBack([1, 2]);
    assert mc.containers[0] == [0, 1, -1, 2, -2, 1];
    assert mc.containers[1] == [11, 12, 13, 14, 15, 2];
  }

  /** The pushed-onto `m` gets all of `n { vi2, vf2 }` inserted at its beginning; `m` holds
      copies, so the first container's increments are not seen, and `n` is left as it was. */
  method PushAndInsertRange() returns (m: seq<seq<int>>, n: seq<seq<int>>)
    ensures m == [[-10, -11, -12, 0, 1, -1, 2, -2, 1], [-2, -3, -4, 11, 12, 13, 14, 15, 2]]
    ensures n == [[-10, -11, -12], [-2, -3, -4]]
  {
    var mc := PushOnto();
    var nc := new MultiContainer([[-10, -11, -12], [-2, -3, -4]], [RandomAccess, RandomAccess]);
    var mb := mc.Begin();
    var nb := nc.Begin();
    var ne := nc.End();
    assert mb.its == [0, 0] && nb.its == [0, 0] && ne.its[0] == 3;
    var _ := mc.InsertRange(mb, nc, nb, ne);
    InsertAtFront();
    m := mc.containers;
    n := nc.containers;
  }

  /** `n.erase(n.begin(), n.end())` empties both sequences of `n`. */
  method EraseEverything() returns (n: seq<seq<int>>)
    ensures n == [[], []]
  {
    var nc := new MultiContainer([[-10, -11, -12], [-2, -3, -4]], [RandomAccess, RandomAccess]);
    var nb := nc.Begin();
    var ne := nc.End();
    var _ := nc.EraseRange(nb, ne);
    n := nc.containers;
  }

  /** `l { vx, lx }` over a vector and a list, cleared. */
  method ClearVectorAndList() returns (l: seq<seq<X>>)
    ensures l == [[], []]
  {
    var lc := new MultiContainer([[X, X], [X, X]], [RandomAccess, Bidirectional]);
    lc.Clear();
    l := lc.containers;
  }

  /** `multi_iterator { vx.begin(), lx.begin() }` over a vector and a list is bidirectional:
      it can be decremented but not moved by a distance. */
  lemma VectorAndListIterator()
    ensures Instantiable([RandomAccess, Bidirectional])
    ensures CategoryOf([RandomAccess, Bidirectional]) == Bidirectional
    ensures !IsAtLeastTag(CategoryOf([RandomAccess, Bidirectional]), RandomAccess)
  {
  }
}
