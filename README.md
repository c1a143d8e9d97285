# OneOrMany: a verified model of rig's non-empty list

`OneOrMany<T>` in rig-core is a list that cannot be empty. It stores a
mandatory head `first` and a tail `rest`, so its logical value is always
`[first] + rest`, which has length at least 1. The Rust code does four things with it:

- it builds lists with `one`, `many` and `merge`;
- it grows them in place with `push` and `insert`;
- it transforms them with `map` and `try_map`;
- it walks them with three iterators.

It also gives the list a serde codec. Encoding always produces a sequence.
Decoding also accepts a bare string (or char) or a map, and reads either
one as a one-element list.

The project has five modules:

- `Wrappers` (`wrappers.dfy`): `Option` and `Result`.
- `NonEmpty` (`one_or_many.dfy`): the value `OneOrMany<T>` as a datatype,
  `len` and `is_empty`, and the operations that build a new value (`one`,
  `many`, `merge`, `map`, `try_map`). Each one is specified against the
  logical sequence `Elements()`. There are also lemmas relating the
  operations to each other.
- `InPlace` (`in_place.dfy`): class `Binding` is the mutable place that
  `&mut self` points at. Its fields are the struct's `first` and `rest`. `push`
  and `insert` are methods on it, and so are the reads and writes made
  through the references that `iter_mut` yields (`Ref`).
- `Iterators` (`iterators.dfy`): the head-slot-then-tail iterators
  (`Iter`/`IntoIter` and `IterMut`), with a method that drains an iterator
  and a method that rewrites every element through `IterMut`.
- `Codec` (`codec.dfy`): an abstract self-describing `Wire` value. It has
  `Encode`/`Serialize` for `serialize` and `DecodeSeq`/`VisitSeq`,
  `VisitStr`, `VisitMap` and `Deserialize` for the visitor. The element
  type's own encoder and decoders are fallible function parameters. There
  are round-trip lemmas in both directions.

Among scalars the visitor accepts only strings, and chars, which serde's
default `visit_char` forwards to `visit_str`. It overrides
`visit_str`/`visit_string`, `visit_seq` and `visit_map`, so a bare boolean,
number or null is rejected with serde's default invalid-type error. The element type is decoded by a different deserializer on
each path: the format's own inside a sequence, a `StrDeserializer` (or a
`StringDeserializer` from `visit_string`) for a bare string, and a `MapAccessDeserializer` for a bare map. The model
therefore takes three element decoders (`ElementDecoder`).

## Model

| member | source | states |
|---|---|---|
| NonEmpty.OneOrMany.Len | rig-core/src/one_or_many.rs:50-53 | the length is the length of `[first] + rest` and is never below 1 |
| NonEmpty.OneOrMany.IsEmpty | rig-core/src/one_or_many.rs:55-59 | true exactly when the length is 0, hence always false |
| NonEmpty.One | rig-core/src/one_or_many.rs:61-67 | the list's elements are exactly `[item]`, length 1 |
| NonEmpty.Many | rig-core/src/one_or_many.rs:69-79 | fails with `EmptyListError` if and only if the vector is empty; otherwise the elements are the vector in its original order and the length is the vector's |
| NonEmpty.ManyOfElements | rig-core/src/one_or_many.rs:69-79 | `many` of a list's own elements rebuilds that very list (head and tail) |
| NonEmpty.Flatten | rig-core/src/one_or_many.rs:83-86 | the flat_map of the lists yields at least one element per list, and starts with the first list's head |
| NonEmpty.Merge | rig-core/src/one_or_many.rs:81-89 | fails if and only if the outer list is empty; on success the elements are every list's elements concatenated in order, the head is the first list's head, and the length is at least the number of lists |
| NonEmpty.FlattenAppend | rig-core/src/one_or_many.rs:83-86 | flattening `a + b` is flattening `a` followed by flattening `b` |
| NonEmpty.FlattenLength | rig-core/src/one_or_many.rs:83-86 | the merged length is the sum of the lengths merged |
| NonEmpty.MergeSingleton | rig-core/src/one_or_many.rs:81-89 | merging a single list gives that list back |
| NonEmpty.MergeAssociative | rig-core/src/one_or_many.rs:81-89 | merging two non-empty groups separately and then merging the two results equals merging all lists at once |
| NonEmpty.MergeTwoAndOne | rig-core/src/one_or_many.rs:353-374 | merging `many([a, b])` with `one(c)` gives the list `a, b, c` |
| NonEmpty.MapSeq | rig-core/src/one_or_many.rs:99 | mapping the tail keeps its length and applies `op` to element k at position k |
| NonEmpty.Map | rig-core/src/one_or_many.rs:96-101 | the result has the same length and element k of the result is `op` of element k of the input |
| NonEmpty.MapCompose | rig-core/src/one_or_many.rs:96-101 | mapping with `f` then `g` equals mapping once with their composition |
| NonEmpty.TryMapSeq | rig-core/src/one_or_many.rs:109-113 | collecting into `Result` succeeds if and only if every element maps successfully, and then holds each mapped element in order; otherwise it returns the error of the first failing element, every element before it having succeeded |
| NonEmpty.TryMap | rig-core/src/one_or_many.rs:103-115 | succeeds if and only if every element (head first) maps successfully, with the same length and element-wise results; otherwise returns the first failure in element order |
| NonEmpty.TryMapOfTotal | rig-core/src/one_or_many.rs:96-115 | `try_map` with an operation that never fails is `map` |
| NonEmpty.TryMapHeadFailure | rig-core/src/one_or_many.rs:107-108 | when the head fails, the result is exactly the head's error, whatever the tail holds |
| InPlace.Binding.Push | rig-core/src/one_or_many.rs:35-38 | the head and every existing element are unchanged, `item` is appended at the end, the length grows by 1 |
| InPlace.Binding.Insert | rig-core/src/one_or_many.rs:40-48 | for an index up to the length, the new elements are the old ones with `item` inserted at that index; at index 0 the item becomes the head and the old head becomes `rest[0]`; any other index keeps the head |
| InPlace.Binding.Load | rig-core/src/one_or_many.rs:194-212 | reading through a reference yielded by `iter_mut` gives the element at the logical position it points at |
| InPlace.Binding.Store | rig-core/src/one_or_many.rs:194-212 | writing through such a reference changes exactly the element at its logical position |
| Iterators.Iter.constructor | rig-core/src/one_or_many.rs:117-122 | `iter()` (and `into_iter()`) starts an iterator whose remaining items are the list's elements |
| Iterators.Iter.Next | rig-core/src/one_or_many.rs:151-157 | each call yields the next remaining item (the head first, then the tail in order) and removes it; once nothing remains it yields `None` and stays exhausted |
| Iterators.Collect | rig-core/src/one_or_many.rs:326-351 | draining the iterator yields exactly the list's elements in order, `len()` of them |
| Iterators.IterMut.constructor | rig-core/src/one_or_many.rs:124-129 | `iter_mut()` starts with no reference handed out |
| Iterators.IterMut.Next | rig-core/src/one_or_many.rs:206-212 | yields a valid reference to logical position 0, 1, … in turn (the head, then the tail), then `None` |
| Iterators.ForEachMut | rig-core/src/one_or_many.rs:387-403 | rewriting every element through `iter_mut` leaves the list equal to `f` mapped over its old elements, so a later read sees the writes |
| Codec.Encode | rig-core/src/one_or_many.rs:215-228 | succeeds if and only if every element encodes; the output is then a sequence of exactly `len()` items, item k being element k encoded; otherwise the first element's failure is returned |
| NonEmpty.TryMapSeqAppend | rig-core/src/one_or_many.rs:109-113 | collecting over `a + b` returns `a`'s failure if any, else `b`'s, else both results concatenated |
| NonEmpty.TryMapSeqStep | rig-core/src/one_or_many.rs:109-113 | collecting element by element: once a prefix has collected, the next element's failure is the result for the whole sequence, and its success extends the collected prefix by that one value |
| Codec.Serialize | rig-core/src/one_or_many.rs:219-228 | the loop over `iter()` produces exactly what `Encode` describes |
| Codec.DecodeSeq | rig-core/src/one_or_many.rs:251-263 | an empty sequence fails with invalid length 0; a non-empty one succeeds if and only if every item decodes, giving a list of the same length whose element k decodes from item k; otherwise it fails with the first item's failure |
| Codec.VisitSeq | rig-core/src/one_or_many.rs:251-263 | the loop that takes the head and pushes the tail produces exactly what `DecodeSeq` describes |
| Codec.VisitStr | rig-core/src/one_or_many.rs:265-279 | a string decodes, through the string deserializer, to the one-element list of the element decoded from it, or to that decoder's error |
| Codec.VisitMap | rig-core/src/one_or_many.rs:281-288 | a map decodes, through the map-access deserializer, to the one-element list of the element decoded from it, or to that decoder's error |
| Codec.Deserialize | rig-core/src/one_or_many.rs:231-293 | each shape goes to its visitor: a sequence to `DecodeSeq` (invalid length 0 when empty; otherwise success exactly when every item decodes, one element per item, else the first failing item's error), a string or char to `VisitStr`, a map to `VisitMap` (success exactly when the element decodes, else its error); booleans, numbers and null fail with invalid type |
| Codec.DecodeEncode | rig-core/src/one_or_many.rs:215-293 | if the element codec round-trips, decoding an encoded list gives back the same head and tail |
| Codec.EncodeDecode | rig-core/src/one_or_many.rs:215-293 | if the element codec round-trips the other way, encoding a decoded sequence reproduces that sequence |
| Codec.SingleShapeIsSingletonSeq | rig-core/src/one_or_many.rs:251-288 | a bare string or map decodes to the same result as a one-element sequence holding it, provided the element type decodes it the same way on its own as inside a sequence |
| Codec.SingleShapeNeedsAgreement | rig-core/src/one_or_many.rs:251-288 | without that agreement the results differ: an element decoder that accepts `"x"` inside a sequence but rejects the bare string (as `Option<String>` does) decodes `["x"]` to a one-element list but fails on `"x"` |

## Left out

- The serde machinery itself is not modelled: the `deserialize_any` dispatch, `into_deserializer`, `MapAccessDeserializer` and the `expecting` message. `Deserialize` stands for the dispatch. The element type's codec is a function parameter that may fail.
- Codec.Serialize: a failure of the serializer's own `serialize_seq` or `end` (I/O in a concrete format) is not modelled. Only failures of the element encoder are.
- Codec.VisitSeq: a failure of `SeqAccess::next_element` that is not an element-decoding failure (malformed input) is not modelled.
- Floating-point and the other wire scalars besides strings and chars are represented by `Bool`, `Int` and `Unit`. The visitor rejects all of them alike. Byte strings, options, enums and newtype wrappers are not separate shapes; the visitor rejects them too.
- Codec.Deserialize: the three element decoders in `ElementDecoder` are independent parameters. The model does not derive `fromStr` or `fromMap` from `inSeq`, because serde's string and map-access deserializers do not agree with a format's own deserializer for every type. `Option<String>` and newtype structs are examples: they decode from a string inside a sequence but not from a bare string.
- The borrow and lifetime rules of `Iter` and `IterMut` are not modelled: exclusive access, and no mutation while borrowed. `Iter` iterates over a value snapshot.
- `into_iter` consuming the list is not modelled. Dafny values have no ownership, so one class `Iter` models both `Iter` and `IntoIter`; their `next` bodies are identical.
- The `Clone`-returning accessors `first()` and `rest()` (rig-core/src/one_or_many.rs:25-33) are plain field reads in the model.
- Side effects inside the `FnMut` closures passed to `map` and `try_map` are not modelled; `op` is a pure, total function. For `try_map`, "later elements are not evaluated" therefore becomes "the result does not depend on them".
- NonEmpty.OneOrMany.Len: `1 + rest.len()` overflows only when `T` is zero-sized and `rest` holds `usize::MAX` elements: a debug build panics, and a release build wraps so that `len()` returns 0. The model's `Len` is an unbounded `nat` and does not capture this.
- InPlace.Binding.Insert: an index greater than the length makes `Vec::insert` panic. The model states this as a precondition rather than as a modelled panic.
- All of `rig-core/src/providers/xai/completion.rs` is left out: its async HTTP request, its response conversion over types from another provider, and its serde data structs. It only uses `OneOrMany` as a field type.
