/** `tuple_wrapper`, the element view a multi-iterator dereferences to (multi_iterator.hpp).

    A wrapper of values is a `TupleWrapper<T>`. A wrapper of references aliases one slot
    in each bound sequence; it is modelled by the sequences `conts` it points into and the
    offsets `at` of its slots, and writing through it yields the new sequences. */
module TupleWrappers {

  datatype TupleWrapper<T> = TupleWrapper(slots: seq<T>) {
    function Arity(): (r: nat) {
      |slots|
    }

    /** `get_elem<I>()`: the slot at position `I`. */
    function GetElem(i: nat): (r: T)
      requires i < |slots|
    {
      slots[i]
    }
  }

  /** Offsets that address one existing element in each sequence. */
  predicate Addressable<T>(conts: seq<seq<T>>, at: seq<int>) {
    |at| == |conts| && forall i :: 0 <= i < |conts| ==> 0 <= at[i] < |conts[i]|
  }

  /** `std::tie(*its...)`: the view whose slot `i` is element `at[i]` of sequence `i`. */
  function View<T>(conts: seq<seq<T>>, at: seq<int>): (w: TupleWrapper<T>)
    requires Addressable(conts, at)
    ensures w.Arity() == |conts|
    ensures forall i :: 0 <= i < |conts| ==> w.GetElem(i) == conts[i][at[i]]
  {
    TupleWrapper(seq(|conts|, i requires 0 <= i < |conts| => conts[i][at[i]]))
  }

  /** Assignment to a wrapper of references (`m_tuple = rhs.m_tuple`): slot `i` of `rhs` is
      stored into element `at[i]` of sequence `i`, and no other element changes. */
  function WriteThrough<T>(conts: seq<seq<T>>, at: seq<int>, rhs: TupleWrapper<T>): (r: seq<seq<T>>)
    requires Addressable(conts, at) && rhs.Arity() == |conts|
    ensures |r| == |conts|
    ensures forall i :: 0 <= i < |r| ==> |r[i]| == |conts[i]| && r[i][at[i]] == rhs.slots[i]
    ensures forall i, j :: 0 <= i < |r| && 0 <= j < |r[i]| && j != at[i] ==> r[i][j] == conts[i][j]
  {
    seq(|conts|, i requires 0 <= i < |conts| => conts[i][at[i] := rhs.slots[i]])
  }

  /** A write through a view is seen by every later view: a slot whose offset is the
      written one reads the assigned value, any other slot reads what it read before. */
  lemma ViewAfterWrite<T>(conts: seq<seq<T>>, at: seq<int>, rhs: TupleWrapper<T>, q: seq<int>)
    requires Addressable(conts, at) && Addressable(conts, q) && rhs.Arity() == |conts|
    ensures Addressable(WriteThrough(conts, at, rhs), q)
    ensures forall i :: 0 <= i < |conts| ==>
      View(WriteThrough(conts, at, rhs), q).GetElem(i) == if q[i] == at[i] then rhs.slots[i] else View(conts, q).GetElem(i)
  {
  }

  /** `swap(tuple_wrapper&&, tuple_wrapper&&)`: `std::swap` of two tuples of references
      exchanges the referenced values slot by slot. */
  function SwapThrough<T>(conts: seq<seq<T>>, p: seq<int>, q: seq<int>): (r: seq<seq<T>>)
    requires Addressable(conts, p) && Addressable(conts, q)
    ensures |r| == |conts| && forall i :: 0 <= i < |r| ==> |r[i]| == |conts[i]|
    ensures Addressable(r, p) && Addressable(r, q)
    ensures View(r, p) == View(conts, q) && View(r, q) == View(conts, p)
    ensures forall i, j :: 0 <= i < |r| && 0 <= j < |r[i]| && j != p[i] && j != q[i] ==> r[i][j] == conts[i][j]
  {
    var r := seq(|conts|, i requires 0 <= i < |conts| => conts[i][p[i] := conts[i][q[i]]][q[i] := conts[i][p[i]]]);
    assert View(r, p).slots == View(conts, q).slots;
    assert View(r, q).slots == View(conts, p).slots;
    r
  }

  /** Swapping the same two views twice restores every sequence. */
  lemma {:induction false} SwapThroughTwice<T>(conts: seq<seq<T>>, p: seq<int>, q: seq<int>)
    requires Addressable(conts, p) && Addressable(conts, q)
    ensures SwapThrough(SwapThrough(conts, p, q), p, q) == conts
  {
    var once := SwapThrough(conts, p, q);
    var twice := SwapThrough(once, p, q);
    forall i | 0 <= i < |conts|
      ensures twice[i] == conts[i]
    {
      assert View(twice, p).GetElem(i) == View(conts, p).GetElem(i);
      assert View(twice, q).GetElem(i) == View(conts, q).GetElem(i);
    }
  }

  /** Neither slot is less than the other. */
  predicate Equivalent<T>(x: T, y: T, lt: (T, T) -> bool) {
    !lt(x, y) && !lt(y, x)
  }

  /** Some slot `k` of `a` is less than the same slot of `b`, and every slot before `k` is
      equivalent in the two. */
  predicate LexDecides<T>(a: seq<T>, b: seq<T>, lt: (T, T) -> bool)
    requires |a| == |b|
  {
    exists k :: 0 <= k < |a| && lt(a[k], b[k]) && forall j :: 0 <= j < k ==> Equivalent(a[j], b[j], lt)
  }

  /** `std::tuple`'s `<`: the first slot decides unless neither is less than the other, in
      which case the rest decides. It is lexicographic, so the empty tuple is less than
      nothing. */
  function LexLess<T>(a: seq<T>, b: seq<T>, lt: (T, T) -> bool): (r: bool)
    requires |a| == |b|
    ensures r <==> LexDecides(a, b, lt)
  {
    if a == [] then false
    else
      var rest := LexLess(a[1..], b[1..], lt);
      LexStep(a, b, lt, rest);
      lt(a[0], b[0]) || (!lt(b[0], a[0]) && rest)
  }

  /** The first slot decides, or it is equivalent and the rest decides. */
  lemma LexStep<T>(a: seq<T>, b: seq<T>, lt: (T, T) -> bool, rest: bool)
    requires |a| == |b| > 0
    requires rest <==> LexDecides(a[1..], b[1..], lt)
    ensures (lt(a[0], b[0]) || (!lt(b[0], a[0]) && rest)) <==> LexDecides(a, b, lt)
  {
    if rest && !lt(a[0], b[0]) && !lt(b[0], a[0]) {
      var k :| 0 <= k < |a[1..]| && lt(a[1..][k], b[1..][k]) &&
               forall j :: 0 <= j < k ==> Equivalent(a[1..][j], b[1..][j], lt);
      assert forall j :: 1 <= j < k + 1 ==> Equivalent(a[j], b[j], lt) by {
        forall j | 1 <= j < k + 1 ensures Equivalent(a[j], b[j], lt) {
          assert a[j] == a[1..][j - 1] && b[j] == b[1..][j - 1];
        }
      }
      assert lt(a[k + 1], b[k + 1]);
    }
    if LexDecides(a, b, lt) && !lt(a[0], b[0]) {
      var k :| 0 <= k < |a| && lt(a[k], b[k]) && forall j :: 0 <= j < k ==> Equivalent(a[j], b[j], lt);
      assert Equivalent(a[0], b[0], lt);
      assert lt(a[1..][k - 1], b[1..][k - 1]);
      assert forall j :: 0 <= j < k - 1 ==> Equivalent(a[1..][j], b[1..][j], lt) by {
        forall j | 0 <= j < k - 1 ensures Equivalent(a[1..][j], b[1..][j], lt) {
          assert Equivalent(a[j + 1], b[j + 1], lt);
        }
      }
    }
  }

  /** `std::tuple`'s `==`: every slot equal. */
  function SlotsEqual<T(==)>(a: seq<T>, b: seq<T>): (r: bool)
    requires |a| == |b|
    ensures r <==> a == b
  {
    if a == [] then true
    else
      assert a == [a[0]] + a[1..] && b == [b[0]] + b[1..];
      a[0] == b[0] && SlotsEqual(a[1..], b[1..])
  }

  /** The six wrapper comparisons (`MAKE_REF_TUPLE_OP`), each delegating to the tuple's:
      `<` and `>` are lexicographic, `<=` and `>=` are the negations of `>` and `<`, and
      `==` and `!=` compare all slots. */
  function Less<T>(a: TupleWrapper<T>, b: TupleWrapper<T>, lt: (T, T) -> bool): (r: bool)
    requires a.Arity() == b.Arity()
    ensures r <==> LexDecides(a.slots, b.slots, lt)
  {
    LexLess(a.slots, b.slots, lt)
  }

  function Greater<T>(a: TupleWrapper<T>, b: TupleWrapper<T>, lt: (T, T) -> bool): (r: bool)
    requires a.Arity() == b.Arity()
    ensures r <==> LexDecides(b.slots, a.slots, lt)
  {
    LexLess(b.slots, a.slots, lt)
  }

  function LessEq<T>(a: TupleWrapper<T>, b: TupleWrapper<T>, lt: (T, T) -> bool): (r: bool)
    requires a.Arity() == b.Arity()
    ensures r <==> !LexDecides(b.slots, a.slots, lt)
  {
    !LexLess(b.slots, a.slots, lt)
  }

  function GreaterEq<T>(a: TupleWrapper<T>, b: TupleWrapper<T>, lt: (T, T) -> bool): (r: bool)
    requires a.Arity() == b.Arity()
    ensures r <==> !LexDecides(a.slots, b.slots, lt)
  {
    !LexLess(a.slots, b.slots, lt)
  }

  function Equal<T(==)>(a: TupleWrapper<T>, b: TupleWrapper<T>): (r: bool)
    requires a.Arity() == b.Arity()
    ensures r <==> a == b
  {
    SlotsEqual(a.slots, b.slots)
  }

  function NotEqual<T(==)>(a: TupleWrapper<T>, b: TupleWrapper<T>): (r: bool)
    requires a.Arity() == b.Arity()
    ensures r <==> a != b
  {
    !SlotsEqual(a.slots, b.slots)
  }

  function IntLess(x: int, y: int): (r: bool) {
    x < y
  }

  /** Over integer slots the wrapper comparisons form a total order: exactly one of
      `a < b`, `a == b`, `b < a` holds, and `<=` is `<` or `==`.*/
  lemma {:induction false} IntWrappersTotallyOrdered(a: TupleWrapper<int>, b: TupleWrapper<int>)
    requires a.Arity() == b.Arity()
    ensures Less(a, b, IntLess) || Equal(a, b) || Greater(a, b, IntLess)
    ensures !(Less(a, b, IntLess) && Greater(a, b, IntLess))
    ensures !(Equal(a, b) && Less(a, b, IntLess))
    ensures LessEq(a, b, IntLess) <==> Less(a, b, IntLess) || Equal(a, b)
    ensures GreaterEq(a, b, IntLess) <==> Greater(a, b, IntLess) || Equal(a, b)
    decreases |a.slots|
  {
    if a.slots != [] {
      var a', b' := TupleWrapper(a.slots[1..]), TupleWrapper(b.slots[1..]);
      IntWrappersTotallyOrdered(a', b');
      assert a.slots == [a.slots[0]] + a'.slots && b.slots == [b.slots[0]] + b'.slots;
    }
  }

  /** Over integer slots `<` is transitive, so sorting by it is meaningful. */
  lemma {:induction false} IntWrapperLessTransitive(a: seq<int>, b: seq<int>, c: seq<int>)
    requires |a| == |b| == |c|
    requires LexLess(a, b, IntLess) && LexLess(b, c, IntLess)
    ensures LexLess(a, c, IntLess)
  {
    if a[0] == b[0] && b[0] == c[0] {
      IntWrapperLessTransitive(a[1..], b[1..], c[1..]);
    }
  }
}
