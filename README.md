# multi_container: a zip adaptor over N sequences, modelled in Dafny

`mvg::multi_container<Ts...>` holds N sequence containers by value. Every mutator fans
out to all N sequences, index by index: `push_back`, `pop_back`, `clear`, the single,
range and count `insert`, and the single and range `erase`. `size()` is the least of the
N lengths.

`mvg::multi_iterator<Its...>` zips N iterators, one per sequence.
- `++`, `--`, `+=` and `-=` move every component.
- Distance and the comparisons look only at the first component. A debug-only check
  fires when the first pair satisfies the comparison and some later pair does not; a
  false result on the first pair is never checked against the others.
- Dereferencing gives a `tuple_wrapper` of references, one slot per sequence. Assigning
  to it writes every slot. Comparing two wrappers is lexicographic, as `std::tuple`
  compares.
- The iterator's category is negotiated from the component tags with
  `std::common_type`. `is_at_least_tag` then gates the operations a category allows.

Two drivers perform the per-element work: `TupleForEach::foreach` and
`TupleForEach::parallel_foreach`.

How the model represents these:
- A multi-iterator is a class holding one integer offset per component (`its`) and the
  component tags (`tags`).
- A container is a class holding a `seq<seq<T>>` whose length never changes. One generic
  element type stands for the N element types.
- A wrapper of references is the pair of the sequences it points into and the offsets of
  its slots. Writing through it yields the new sequences.
- A compile-time check (`static_assert`, a failed `std::common_type`) becomes a predicate.
  Every operation it gates requires that predicate.
- The `dbg_assert` of a comparison becomes a returned flag, `consistent`.

The modules follow the source files:

| module | source |
|---|---|
| `Traits` (traits.dfy) | Traits.hpp |
| `TupleForEach` (tuple_foreach.dfy) | TupleForEach.hpp |
| `IteratorTags` (iterator_tags.dfy) | the tag traits of multi_iterator.hpp |
| `TupleWrappers` (tuple_wrapper.dfy) | `tuple_wrapper` in multi_iterator.hpp |
| `MultiIterators` (multi_iterator.dfy) | `iterator_compare`, `iterator_swap`, `multi_iterator` |
| `MultiContainers` (multi_container.dfy) | multi_container.hpp |
| `Scenario` (scenario.dfy) | the integer walk-through of main.cpp |

## Model

| member | source | states |
|---|---|---|
| Traits.TupleHasType | Traits.hpp:7-17 | The recursive membership query yields `true_type` exactly when the type occurs at some position of the pack. The empty pack gives `false_type`. |
| Traits.TupleHasTypeV | Traits.hpp:19-23 | The `_v` shorthand is true exactly when the type is a member of the pack. |
| TupleForEach.DoForEach | TupleForEach.hpp:12-32 | Applying the functor from index `i` onwards keeps the tuple's length and leaves every element before `i` untouched. |
| TupleForEach.ForEach | TupleForEach.hpp:39-47 | The loop performs the functor recursion from index 0. Over an empty tuple it changes nothing, neither the tuple nor the functor's state. |
| TupleForEach.ForEachInPlace | TupleForEach.hpp:22-32 | With a functor that updates an element by a fixed rule and ignores its own state, element `k` ends up as the rule applied to its old value. |
| TupleForEach.ForEachVisitsInOrder | TupleForEach.hpp:22-32 | Every index is visited exactly once, in increasing order, and each call receives the same extra arguments. |
| TupleForEach.DoParallelForEach | TupleForEach.hpp:53-76 | Both tuples keep their lengths and their elements before `i`. Elements of the second tuple beyond the first tuple's length are never touched. |
| TupleForEach.ParallelForEach | TupleForEach.hpp:85-95 | The loop performs the paired recursion from index 0. |
| TupleForEach.ParallelForEachInPlace | TupleForEach.hpp:66-76 | With a functor that updates a pair by a fixed rule, pair `k` ends up as the rule applied to its old values. |
| TupleForEach.ParallelForEachVisitsInOrder | TupleForEach.hpp:66-76 | The pairs `(a[I], b[I])` are visited exactly once, for `I` from 0 up to the first tuple's length, in order. |
| IteratorTags.IsAtLeastTag | multi_iterator.hpp:229-275 | A tag is at least a category exactly when it does not come before it in Input = Output < Forward < Bidirectional < RandomAccess. Every tag is at least Input and at least Output, and only RandomAccess is at least RandomAccess. |
| IteratorTags.CommonType2 | multi_iterator.hpp:382-383 | `std::common_type` of two tags exists exactly when they are equal or neither is Output. It is then one of the two, and no stronger than either. |
| IteratorTags.FoldCommonType | multi_iterator.hpp:382-383 | The left fold of `std::common_type` over the tags. What it yields is stated and proved in `FoldCommonTypeIsWeakest`. |
| IteratorTags.CommonType | multi_iterator.hpp:382-383 | `std::common_type_t` of the whole pack, none for an empty pack. What it yields is stated and proved in `CommonTypeIsWeakest`. |
| IteratorTags.CategoryOf | multi_iterator.hpp:382-383 | The `iterator_category` of a compiling multi-iterator. `NegotiatedCategory` proves it is the weakest component tag. |
| IteratorTags.MixesInputAndOutput | multi_iterator.hpp:399-413 | The condition the `static_assert` rejects, written with `TupleHasType_v`, holds exactly when Input and Output both occur among the tags. |
| IteratorTags.Instantiable | multi_iterator.hpp:382-413 | The multi-iterator type compiles: a category exists and the assertion holds. `NegotiatedCategory` proves this is the same as a common type existing. |
| IteratorTags.FoldCommonTypeIsWeakest | multi_iterator.hpp:382-383 | The left fold of `std::common_type` exists exactly when all the tags are Output or none of them is. Its result is one of the tags, and every tag is at least it. |
| IteratorTags.CommonTypeIsWeakest | multi_iterator.hpp:382-383 | A pack has a common tag exactly when it is non-empty and is all Output or has no Output. The common tag is then a member of the pack and the weakest one. |
| IteratorTags.CommonIteratorTag | multi_iterator.hpp:212-227 | With no common type (an empty pack, or Output mixed with another tag), the SFINAE fallback is Input. For a non-empty pack with no Output, or made only of Output tags, the result is a member tag and the weakest one. |
| IteratorTags.NegotiatedCategory | multi_iterator.hpp:382-413 | A compiling multi-iterator has a category that is one of its component tags, and every component is at least that category. A pack mixing Input and Output already has no common type, so the type compiles exactly when a common type exists. |
| TupleWrappers.TupleWrapper.GetElem | multi_iterator.hpp:99-103 | `get_elem<I>()` returns slot `I` of the wrapper; `View` and `Deref` state every slot through it. |
| TupleWrappers.View | multi_iterator.hpp:457-460 | Dereferencing gives one slot per sequence. Slot `i` holds element `at[i]` of sequence `i`. |
| TupleWrappers.WriteThrough | multi_iterator.hpp:77-86 | Assigning to a wrapper of references stores slot `i` at offset `at[i]` of sequence `i`. Every other element and every length stays the same. |
| TupleWrappers.ViewAfterWrite | multi_iterator.hpp:77-86 | After the write, any view reads the assigned value in each slot whose offset was written, and its old value in every other slot. |
| TupleWrappers.SwapThrough | multi_iterator.hpp:88-91 | Swapping two wrappers of references exchanges the two views slot by slot and leaves every other element alone. |
| TupleWrappers.SwapThroughTwice | multi_iterator.hpp:88-91 | Swapping the same two views twice restores every sequence. |
| TupleWrappers.SlotsEqual | multi_iterator.hpp:120-125 | Wrapper `==` holds exactly when all slots are equal. |
| TupleWrappers.LexLess | multi_iterator.hpp:120-125 | The tuple `<` that every wrapper ordering delegates to holds exactly when some slot is less and every earlier slot is equivalent in the two tuples. The empty tuple is less than nothing. |
| TupleWrappers.Less | multi_iterator.hpp:120-120 | Wrapper `<` holds exactly when some slot of the left wrapper is less than the right's and every earlier slot is equivalent. |
| TupleWrappers.Greater | multi_iterator.hpp:121-121 | Wrapper `>` holds exactly when some slot of the right wrapper is less than the left's and every earlier slot is equivalent. |
| TupleWrappers.LessEq | multi_iterator.hpp:122-122 | Wrapper `<=` holds exactly when the right wrapper is not lexicographically less than the left. |
| TupleWrappers.GreaterEq | multi_iterator.hpp:123-123 | Wrapper `>=` holds exactly when the left wrapper is not lexicographically less than the right. |
| TupleWrappers.Equal | multi_iterator.hpp:124-124 | Wrapper `==` holds exactly when the two wrappers hold the same slots. |
| TupleWrappers.NotEqual | multi_iterator.hpp:125-125 | Wrapper `!=` holds exactly when the two wrappers differ in some slot. |
| TupleWrappers.IntWrappersTotallyOrdered | multi_iterator.hpp:120-125 | Over integer slots, exactly one of `<`, `==` and `>` holds. `<=` is `<` or `==`, and `>=` is `>` or `==`. |
| TupleWrappers.IntWrapperLessTransitive | multi_iterator.hpp:120-125 | Over integer slots, wrapper `<` is transitive. |
| MultiIterators.StepsCancel | multi_iterator.hpp:444-523 | A step forward followed by a step back, or a step back followed by a step forward, restores every component offset. |
| MultiIterators.DoIncrement | multi_iterator.hpp:189-196 | The functor `do_increment`, one component one step forward. `StepAll` proves what `foreach` does with it. |
| MultiIterators.DoDecrement | multi_iterator.hpp:199-206 | The functor `do_decrement`, one component one step back. `StepAll` proves what `foreach` does with it. |
| MultiIterators.IteratorSwap | multi_iterator.hpp:303-312 | The functor `iterator_swap`, exchanging two components. `SwapExchanges` proves what `parallel_foreach` does with it. |
| MultiIterators.StepAll | multi_iterator.hpp:189-206 | `foreach` with `do_increment` adds 1 to every offset, and with `do_decrement` it subtracts 1 from every offset. |
| MultiIterators.SwapExchanges | multi_iterator.hpp:303-312 | `parallel_foreach` with `iterator_swap` exchanges two equally long tuples of iterators, position by position. |
| MultiIterators.SwapTwice | multi_iterator.hpp:303-312 | Swapping twice restores both tuples. |
| MultiIterators.Comparison.Holds | multi_iterator.hpp:314-363 | The comparison functors `equal`, `less`, `less_or_equal`, `greater` and `greater_or_equal` applied to one pair of offsets. |
| MultiIterators.AllPairsHold | multi_iterator.hpp:283-299 | The folded comparison holds exactly when the comparison holds for every pair of components. |
| MultiIterators.DebugAgreement | multi_iterator.hpp:283-299 | The debug check fails exactly when the first pair compares true and some later pair compares false. |
| MultiIterators.IteratorCompare.Apply | multi_iterator.hpp:283-299 | Applying the comparer stores the first pair's result. The returned flag is the debug agreement check. |
| MultiIterators.IteratorCompare.Value | multi_iterator.hpp:292-295 | `value()` reads the result stored by the last `Apply`, which `Apply`'s contract states is the first pair's comparison. |
| MultiIterators.MultiIterator.constructor | multi_iterator.hpp:419-421 | The iterator is built over the given components, provided their tag pack compiles. |
| MultiIterators.MultiIterator.Increment | multi_iterator.hpp:444-448 | Pre-increment moves every component one step forward. |
| MultiIterators.MultiIterator.PostIncrement | multi_iterator.hpp:450-455 | The result is a fresh snapshot of the old offsets, and the iterator itself moves one step forward. |
| MultiIterators.MultiIterator.Decrement | multi_iterator.hpp:516-523 | Pre-decrement needs a bidirectional category and moves every component one step back. |
| MultiIterators.MultiIterator.PostDecrement | multi_iterator.hpp:525-533 | The result is a snapshot of the old offsets, and the iterator itself moves one step back. |
| MultiIterators.MultiIterator.AddAssign | multi_iterator.hpp:535-544 | `+= n` takes \|n\| single steps in the direction of `n`'s sign. It leaves every component at its old offset plus `n`. |
| MultiIterators.MultiIterator.SubAssign | multi_iterator.hpp:564-570 | `-= n` is `+= -n`: every component moves by `-n`. |
| MultiIterators.MultiIterator.Plus | multi_iterator.hpp:546-562 | `it + n` is a new iterator with every offset moved by `n`. `it` itself is unchanged. |
| MultiIterators.MultiIterator.Minus | multi_iterator.hpp:572-588 | `it - n` is a new iterator with every offset moved by `-n`. `it` itself is unchanged. |
| MultiIterators.MultiIterator.Distance | multi_iterator.hpp:590-597 | `a - b` is the difference of the first components only. When both iterators are aligned, it is also the difference of every component. |
| MultiIterators.MultiIterator.Compare | multi_iterator.hpp:283-299 | A comparison returns its result on the first pair. The debug flag fails exactly when that result is true and some other pair disagrees. |
| MultiIterators.MultiIterator.EqualTo | multi_iterator.hpp:489-497 | `==` compares the first components. Its debug flag fails when they are equal but a later pair differs. |
| MultiIterators.MultiIterator.NotEqualTo | multi_iterator.hpp:499-505 | `!=` is the negation of `==` on the first components, with the same debug check as `==`. |
| MultiIterators.MultiIterator.LessThan | multi_iterator.hpp:617-624 | `<` needs random access and compares the first components. Its debug flag fails exactly when the first pair satisfies `<` and some later pair does not. |
| MultiIterators.MultiIterator.GreaterThan | multi_iterator.hpp:626-633 | `>` needs random access and compares the first components. Its debug flag fails exactly when the first pair satisfies `>` and some later pair does not. |
| MultiIterators.MultiIterator.LessOrEqualTo | multi_iterator.hpp:635-642 | `<=` needs random access and compares the first components. Its debug flag fails exactly when the first pair satisfies `<=` and some later pair does not. |
| MultiIterators.MultiIterator.GreaterOrEqualTo | multi_iterator.hpp:644-651 | `>=` needs random access and compares the first components. Its debug flag fails exactly when the first pair satisfies `>=` and some later pair does not. |
| MultiIterators.MultiIterator.Deref | multi_iterator.hpp:457-460 | `*it` gives, in slot `i`, element `its[i]` of sequence `i`. |
| MultiIterators.MultiIterator.Subscript | multi_iterator.hpp:599-606 | `it[n]` first moves the iterator itself by `n`, then yields the view at the new offsets. |
| MultiIterators.Swap | multi_iterator.hpp:437-440 | `swap(a, b)` exchanges the two iterators' component offsets. |
| MultiContainers.MinSize | multi_container.hpp:53-76 | The running minimum starts at its initial value. It ends no larger than that value and no larger than any length, and it equals one of them. |
| MultiContainers.MultiSize | multi_container.hpp:271-276 | The size: `MinSize` started from SIZE_MAX, so its bounds and attainment come from `MinSize`'s contract. |
| MultiContainers.MultiSizeStep | multi_container.hpp:53-76 | The functor `multi_size`, lowering its running value to a shorter length. `SizeFold` proves what `foreach` does with it. |
| MultiContainers.SizeFold | multi_container.hpp:271-276 | `foreach` with `multi_size` leaves the sequences alone. Its state ends as the minimum of the starting value and every remaining length. |
| MultiContainers.EmptyIffSomeSequenceEmpty | multi_container.hpp:328-331 | The size is 0 exactly when some sequence is empty. With no sequences, the size is SIZE_MAX. |
| MultiContainers.MultiClear | multi_container.hpp:78-85 | The functor `multi_clear`, emptying one sequence. `MultiContainer.Clear` states its effect on the container. |
| MultiContainers.MultiPushBack | multi_container.hpp:87-94 | The functor `multi_push_back`, appending one element. `MultiContainer.PushBack` states its effect on the container. |
| MultiContainers.MultiPopBack | multi_container.hpp:96-103 | The functor `multi_pop_back`, dropping a last element. `MultiContainer.PopBack` states its effect on the container. |
| MultiContainers.Spliced | multi_container.hpp:105-133 | Generalises `multi_insert`, which inserts one element per sequence, to a run per sequence at the given offsets; a run of length one is the single insert. Its shape is stated and proved in `SplicedShape`. |
| MultiContainers.SplicedShape | multi_container.hpp:105-133 | Inserting a run at offset `at[i]` of sequence `i` keeps the elements before the offset. The run follows them, the old tail is shifted right by the run's length, and each length grows by the run's length. |
| MultiContainers.Cut | multi_container.hpp:136-157 | Removing `count` elements at offset `at[i]` of each sequence keeps the prefix. The suffix from `at[i] + count` follows it, and each length shrinks by `count`. |
| MultiContainers.SpliceRunStep | multi_container.hpp:361-371 | One round of the range insert adds the next source view at the moved position. The result is the splice of one more source element at the original position. |
| MultiContainers.RepeatStep | multi_container.hpp:373-379 | One more single insert at the same offsets adds one more copy to the run of copies. |
| MultiContainers.CutStep | multi_container.hpp:391-400 | One more single erase at the same offsets removes one more element from the run being erased. |
| MultiContainers.AtRejectsAsWritten | multi_container.hpp:292-292 | The guard of `at()` as written, `index > size()`. `AtAsWrittenAdmitsEnd` shows what it lets through (see Findings). |
| MultiContainers.AtAsWrittenAdmitsEnd | multi_container.hpp:290-297 | The source's guard lets `at(size())` through, and that index reaches the end of some sequence (see Findings). |
| MultiContainers.MultiContainer.constructor | multi_container.hpp:182-185 | The container holds copies of the given sequences. |
| MultiContainers.MultiContainer.Empty | multi_container.hpp:176-179 | The default constructor leaves every growable sequence (vector, list, deque) empty. |
| MultiContainers.MultiContainer.Begin | multi_container.hpp:211-214 | `begin()` puts every component at offset 0. |
| MultiContainers.MultiContainer.End | multi_container.hpp:216-219 | `end()` puts every component at the end of its own sequence. |
| MultiContainers.MultiContainer.Size | multi_container.hpp:271-276 | `size()` is at most every length and at most SIZE_MAX. It equals one of the lengths, or SIZE_MAX when there are no sequences. |
| MultiContainers.MultiContainer.IsEmpty | multi_container.hpp:328-331 | `empty()` holds exactly when `size() == 0`, that is, exactly when some sequence is empty. |
| MultiContainers.MultiContainer.Index | multi_container.hpp:278-282 | For an index below `size()`, `c[index]` yields element `index` of every sequence. |
| MultiContainers.MultiContainer.At | multi_container.hpp:290-297 | `at(index)` signals out of range exactly when `index >= size()`. Otherwise it yields element `index` of every sequence. This is the corrected guard; see Findings. |
| MultiContainers.MultiContainer.Front | multi_container.hpp:308-311 | `front()` yields the first element of every non-empty sequence. |
| MultiContainers.MultiContainer.Back | multi_container.hpp:318-321 | `back()` yields the last element of every sequence, whatever the sequences' lengths. |
| MultiContainers.MultiContainer.Clear | multi_container.hpp:333-336 | `clear()` leaves every sequence empty. |
| MultiContainers.MultiContainer.PushBack | multi_container.hpp:338-343 | `push_back(elems)` appends `elems[i]` to sequence `i`. Each length grows by one and the earlier elements stay the same. |
| MultiContainers.MultiContainer.PopBack | multi_container.hpp:413-416 | `pop_back()` removes the last element of every sequence and keeps the rest. |
| MultiContainers.MultiContainer.Insert | multi_container.hpp:346-351 | `insert(pos, elems)` places `elems[i]` at offset `pos[i]` of sequence `i` and shifts the tail right. The returned iterator has the old offsets and dereferences to `elems`. |
| MultiContainers.MultiContainer.InsertRange | multi_container.hpp:360-371 | `insert(pos, first, last)` inserts the k = `last - first` source views at `pos`, in their order. It returns `pos` moved by k. The source container is unchanged. |
| MultiContainers.MultiContainer.InsertCount | multi_container.hpp:373-379 | `insert(pos, count, elem)` inserts exactly `count` copies of `elem[i]` at offset `pos[i]` of each sequence. |
| MultiContainers.MultiContainer.Erase | multi_container.hpp:381-384 | `erase(pos)` removes element `pos[i]` from each sequence `i`. The returned iterator has the same offsets. |
| MultiContainers.MultiContainer.EraseRange | multi_container.hpp:391-400 | `erase(first, last)` removes `distance(first, last)` consecutive elements at `first`'s offsets from every sequence and keeps both sides in order. It returns `first`'s offsets. |
| MultiContainers.MultiContainer.AssignAt | multi_iterator.hpp:77-86 | `*pos = rhs` writes slot `i` into sequence `i` at `pos[i]`. Afterwards `*pos` reads `rhs`. |
| MultiContainers.MultiContainer.SwapAt | multi_iterator.hpp:88-91 | `swap(*p, *q)` exchanges the two views' values slot by slot. |
| Scenario.IncrementAll | main.cpp:39-44 | The range-for that increments every binding leaves every element of equally long sequences one larger. |
| Scenario.IncrementFirst | main.cpp:33-44 | `[0,1,-1,2,-2]`, `[11..15]` and `[1..5]` become `[1,2,0,3,-1]`, `[12..16]` and `[2..6]`. |
| Scenario.InsertAtFront | main.cpp:71-71 | The three views of `n`, spliced in at the beginning of the pushed-onto `m`, give the expected sequences. |
| Scenario.PushOnto | main.cpp:63-70 | After `push_back(make_tuple(1, 2.0f))`, `m` holds `vi` and `vf` with 1 and 2 appended. |
| Scenario.PushAndInsertRange | main.cpp:63-71 | After the push and the range insert of all of `n` at `m.begin()`, `m` holds `n`'s elements first. `n` is unchanged. |
| Scenario.EraseEverything | main.cpp:72-72 | `n.erase(n.begin(), n.end())` empties both sequences. |
| Scenario.ClearVectorAndList | main.cpp:74-75 | `l.clear()` empties the vector and the list. |
| Scenario.VectorAndListIterator | main.cpp:55-55 | A multi-iterator over a vector and a list compiles and is bidirectional, not random access. |

## Left out

- TypeList.hpp, `underlying_iterator`/`underlying_const_iterator` and the `std::` specializations of `multi_iterator`: compile-time aliases with no behaviour. Dafny generics and the tag datatype stand in for them.
- `operator->`: it is deliberately uninstantiable.
- The second `MAKE_REF_TUPLE_OP_WITH_TUPLE` overload, the const `operator[]` (it calls `+=` on a const object), the tuple-of-const-references constructor and the move assignment without `return`: they do not compile or are broken as written.
- The `const_iterator` overloads `insert(const_iterator, elems)` (multi_container.hpp:353-358), `erase(const_iterator)` (multi_container.hpp:386-389) and `erase(const_iterator, const_iterator)` (multi_container.hpp:402-411): they do not compile once called. `multi_insert::insert` and `multi_erase::erase` return `It`, here the const iterator, but build it from the non-const iterators that each sequence's `insert`/`erase` returns, and `multi_iterator` has no conversion between the two; the members then return that value as `iterator`, and the range erase also initialises `iterator pos` from a `const_iterator`.
- IteratorTags.CommonIteratorTag: the source's SFINAE test reads `Its::iterator_category` directly, not through `std::iterator_traits`, so a raw-pointer component falls back to Input even when a common type exists. The model treats every component as a class iterator with a tag. The trait is also unused: the `iterator_category` alias uses `std::common_type_t` directly and leaves the trait commented out.
- The `MAKE_REF_TUPLE_OP_WITH_TUPLE` comparisons of a wrapper with a plain `std::tuple` (multi_iterator.hpp:49-53, 127-132): a plain tuple of values and a wrapper are the same `TupleWrapper` value in the model, so the wrapper-first overload is the wrapper-to-wrapper comparison already modelled. The tuple-first overload names an undeclared `lhs` and cannot be instantiated.
- MultiContainers.MultiContainer.Empty: a default-constructed `std::array` component holds default values rather than being empty; the model covers only growable sequence types.
- `rbegin`/`rend`, `data()`, `get_container` and by-type `get_elem`: standard adaptors and compile-time type lookups.
- By-type `std::get` in `begin`, `end` and dereference requires distinct sequence types. The model indexes by position, so it does not reject repeated types.
- The const accessors `begin`, `end`, `at`, `operator[]`, `front` and `back`: they behave like their non-const counterparts, yielding views of const references.
- Copy and move assignment and the move and rvalue constructors: they copy or move the same tuple.
- Iterator invalidation: the rules of `std::vector` and `std::list` are not visible, so positions are integer offsets and stay meaningful after every mutation.
- Non-transactional partial mutation: a throwing per-sequence operation could leave some sequences changed. Every per-sequence operation is taken to succeed.
- The `dbg_assert` throw: the check is a returned `consistent` flag.
- Console I/O, `std::sort` over reverse iterators, the `multiCont[2]` assignment after it, the `float` vectors and `std::cin.ignore` in main.cpp. The walk-through keeps only the integer steps, with whole numbers for the `float` and `long long` values.
- `n + it` and `n - it`: `n + it` has the same body as `it + n` (`Plus`), and `n - it` computes `it - n` (`Minus`), not a reflected difference.
- MultiIterators.MultiIterator.PostIncrement: the source returns a reference to a local copy, which dangles. The model returns the old offsets by value, as evidently intended.
- MultiIterators.MultiIterator.PostDecrement: it returns a dangling reference to a local copy, like post-increment. The model returns the old offsets by value.
- MultiIterators.IteratorCompare.Value: before any `Apply`, `m_val` is uninitialised in the source. In the model it holds an arbitrary value.
- `ptrdiff_t` and `size_t` widths of offsets and distances: offsets are unbounded integers. SIZE_MAX appears as the starting value of `multi_size` and as the bound on the sequence lengths in `AtAsWrittenAdmitsEnd`.
- MultiContainers.MultiContainer.PopBack: requires every sequence to be non-empty, because `pop_back` on an empty standard container is undefined behaviour.
- MultiContainers.MultiContainer.InsertCount: requires `count <= INT_MAX`, because the source counts with an `int` that would overflow beyond it. The model also takes one element per sequence (`elem: seq<T>`), where the source's signature takes `std::tuple<Ts...>`, a tuple of whole containers, whose slots no sequence's `insert(it, value)` accepts, so no call of the source overload compiles; the model follows the evidently intended element tuple of the single `insert`.
- MultiContainers.MultiContainer.EraseRange: requires `last` not before `first`, because the source's `size_t count` would wrap around otherwise.
- MultiContainers.MultiContainer.InsertRange: requires the source range to be valid in every sequence of `other`, which the source explicitly does not check. It also requires `other` to be a different container: inserting a container's own range into itself is well defined for list-backed iterators, but integer offsets cannot express iterators that keep pointing at the same nodes while the sequence grows.
- MultiContainers.MultiContainer.Insert: the comment above it says "after pos", but the code inserts before `pos`, as `std::vector::insert` does. The model follows the code.
- MultiContainers.MultiContainer.Index: requires `index < size()`, because the source checks it only in a debug build and is otherwise undefined beyond it.

## Findings

| source | as written | input that shows it | evidently intended | confidence | as-written member | corrected member |
|---|---|---|---|---|---|---|
| multi_container.hpp:292 | `at` throws `out_of_range` only when `index > size()` | a container whose sequences are `[1]` and `[2]`; `at(1)` passes the guard and dereferences `begin() + 1`, which is `end()` | throw when `index >= size()` | not executed | MultiContainers.AtRejectsAsWritten, MultiContainers.AtAsWrittenAdmitsEnd | MultiContainers.MultiContainer.At |
