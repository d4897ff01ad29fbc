/** Capability negotiation of multi_iterator.hpp: the standard iterator category tags,
    the `is_at_least_tag` trait, the category a multi-iterator takes from its components
    (`std::common_type` of their tags) and the check that rejects mixing single-pass read
    and single-pass write iterators. What the source decides at compile time is a
    predicate here; an operation gated by a `static_assert` requires it. */
module IteratorTags {
  import opened Traits

  /** `std::input_iterator_tag` … `std::random_access_iterator_tag`. */
  datatype IteratorTag = Input | Output | Forward | Bidirectional | RandomAccess

  datatype Option<T> = None | Some(value: T)

  /** The order written down beside the trait: Input == Output < Forward < Bidirectional
      < RandomAccess. */
  function Rank(t: IteratorTag): (r: nat) {
    match t
    case Input => 0
    case Output => 0
    case Forward => 1
    case Bidirectional => 2
    case RandomAccess => 3
  }

  /** `is_at_least_tag<T, Cat>`: true for every `T` when `Cat` is Input or Output; for a
      stronger `Cat`, true by default and excluded, one specialization each, for every
      weaker tag. */
  function IsAtLeastTag(t: IteratorTag, cat: IteratorTag): (r: bool)
    ensures r <==> Rank(t) >= Rank(cat)
  {
    match cat
    case Input => true
    case Output => true
    case Forward => !(t in {Input, Output})
    case Bidirectional => !(t in {Input, Output, Forward})
    case RandomAccess => !(t in {Input, Output, Forward, Bidirectional})
  }

  /** `std::common_type<A, B>` of two standard tags. Each of Forward, Bidirectional and
      RandomAccess derives from the one before it and Forward from Input, so two tags of
      that chain have the base one as common type; Output is related to no other tag. */
  function CommonType2(a: IteratorTag, b: IteratorTag): (r: Option<IteratorTag>)
    ensures r.Some? <==> a == b || (a != Output && b != Output)
    ensures r.Some? ==> (r.value == a || r.value == b) && Rank(r.value) <= Rank(a) && Rank(r.value) <= Rank(b)
  {
    if a == b then Some(a)
    else if a == Output || b == Output then None
    else if Rank(a) <= Rank(b) then Some(a)
    else Some(b)
  }

  /** `std::common_type<acc, Rest...>`, folded from the left as the standard defines it for
      more than two types. */
  function FoldCommonType(acc: IteratorTag, rest: seq<IteratorTag>): (r: Option<IteratorTag>)
    decreases |rest|
  {
    if rest == [] then Some(acc)
    else match CommonType2(acc, rest[0])
      case None => None
      case Some(c) => FoldCommonType(c, rest[1..])
  }

  /** The fold has a result exactly when `acc` and the rest are all Output or none of them
      is; the result is then `acc` or one of the rest, no stronger than `acc`, and every tag
      of the rest is at least it. */
  lemma {:induction false} FoldCommonTypeIsWeakest(acc: IteratorTag, rest: seq<IteratorTag>)
    ensures FoldCommonType(acc, rest).Some? <==>
      if acc == Output then forall i :: 0 <= i < |rest| ==> rest[i] == Output
      else forall i :: 0 <= i < |rest| ==> rest[i] != Output
    ensures FoldCommonType(acc, rest).Some? ==>
      var r := FoldCommonType(acc, rest).value;
      (r == acc || r in rest) && Rank(r) <= Rank(acc) && forall i :: 0 <= i < |rest| ==> Rank(rest[i]) >= Rank(r)
    decreases |rest|
  {
    if rest != [] {
      assert forall i :: 1 <= i < |rest| ==> rest[i] == rest[1..][i - 1];
      match CommonType2(acc, rest[0])
      case None =>
      case Some(c) => FoldCommonTypeIsWeakest(c, rest[1..]);
    }
  }

  /** `std::common_type_t<Tags...>`, the `iterator_category` of a multi-iterator
      (multi_iterator.hpp:382-383): there is none for an empty pack, the tag itself for one
      tag, the left fold otherwise. */
  function CommonType(tags: seq<IteratorTag>): (r: Option<IteratorTag>) {
    if tags == [] then None else FoldCommonType(tags[0], tags[1..])
  }

  /** The common type exists exactly for a non-empty pack that is all Output or has no
      Output; it is then one of the tags and every tag is at least it. */
  lemma CommonTypeIsWeakest(tags: seq<IteratorTag>)
    ensures CommonType(tags).Some? <==> (|tags| > 0 &&
                                         ((forall i :: 0 <= i < |tags| ==> tags[i] == Output) ||
                                          (forall i :: 0 <= i < |tags| ==> tags[i] != Output)))
    ensures CommonType(tags).Some? ==>
      CommonType(tags).value in tags && forall i :: 0 <= i < |tags| ==> IsAtLeastTag(tags[i], CommonType(tags).value)
  {
    if tags != [] {
      FoldCommonTypeIsWeakest(tags[0], tags[1..]);
      assert forall i :: 1 <= i < |tags| ==> tags[i] == tags[1..][i - 1];
      assert tags == [tags[0]] + tags[1..];
    }
  }

  /** `detail::common_iterator_tag<void, Its...>`: the common type when there is one, and
      `std::input_iterator_tag` (the SFINAE fallback) when there is none. */
  function CommonIteratorTag(tags: seq<IteratorTag>): (r: IteratorTag)
    ensures (|tags| == 0 || (Output in tags && exists i :: 0 <= i < |tags| && tags[i] != Output)) ==> r == Input
    ensures (|tags| > 0 && (Output !in tags || forall i :: 0 <= i < |tags| ==> tags[i] == Output)) ==>
      r in tags && forall i :: 0 <= i < |tags| ==> IsAtLeastTag(tags[i], r)
  {
    CommonTypeIsWeakest(tags);
    match CommonType(tags)
    case None => Input
    case Some(t) => t
  }

  /** The condition of the `static_assert` in the body of multi_iterator
      (multi_iterator.hpp:400-413): the component tags hold both Input and Output. */
  function MixesInputAndOutput(tags: seq<IteratorTag>): (r: bool)
    ensures r <==> Input in tags && Output in tags
  {
    TupleHasTypeV(Input, tags) && TupleHasTypeV(Output, tags)
  }

  /** A multi-iterator over components with these tags compiles: its `iterator_category`
      exists and the mixing assertion holds. */
  predicate Instantiable(tags: seq<IteratorTag>) {
    CommonType(tags).Some? && !MixesInputAndOutput(tags)
  }

  /** The negotiated `iterator_category` of an instantiable multi-iterator. */
  function CategoryOf(tags: seq<IteratorTag>): (r: IteratorTag)
    requires Instantiable(tags)
  {
    CommonType(tags).value
  }

  /** The category is the weakest component tag: one of the tags, and every tag is at least
      it. No empty pack has one, and a pack mixing Input and Output has no common type,
      so the `static_assert` only restates what `std::common_type` already rejects. */
  lemma NegotiatedCategory(tags: seq<IteratorTag>)
    ensures Instantiable(tags) ==> |tags| > 0 && CategoryOf(tags) in tags
    ensures Instantiable(tags) ==> forall i :: 0 <= i < |tags| ==> IsAtLeastTag(tags[i], CategoryOf(tags))
    ensures MixesInputAndOutput(tags) ==> CommonType(tags).None?
    ensures Instantiable(tags) <==> CommonType(tags).Some?
  {
    CommonTypeIsWeakest(tags);
    if MixesInputAndOutput(tags) {
      var i :| 0 <= i < |tags| && tags[i] == Input;
      var j :| 0 <= j < |tags| && tags[j] == Output;
    }
  }
}
