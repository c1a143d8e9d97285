/** The three iterators of `OneOrMany<T>`. Each keeps the head in an
    `Option` slot that its first `next` takes, and afterwards delegates to an
    iterator over the tail. `Iter` (by reference) and `IntoIter` (by value)
    have the same state and the same `next`; Dafny values carry no ownership,
    so one class models both. `IterMut` yields references into a `Binding`,
    so that writes through them land in the list. */
module Iterators {
  import opened Wrappers
  import opened NonEmpty
  import opened InPlace

  /** `Iter` and `IntoIter`: the head slot, the tail and the position of the
      tail's own iterator. */
  class Iter<T> {
    var first: Option<T>
    var rest: seq<T>
    var index: nat

    ghost predicate Valid()
      reads this
    {
      index <= |rest| && (first.Some? ==> index == 0)
    }

    /** What the iterator has still to yield, in order. */
    function Remaining(): seq<T>
      reads this
      requires Valid()
    {
      (if first.Some? then [first.value] else []) + rest[index..]
    }

    /** `iter()` and `into_iter()`: the head slot is full and the tail
        iterator is at its start. */
    constructor (o: OneOrMany<T>)
      ensures Valid() && Remaining() == o.Elements()
    {
      first := Some(o.first);
      rest := o.rest;
      index := 0;
    }

    /** `next`: the head once, then the tail in order, then `None` forever. */
    method Next() returns (item: Option<T>)
      requires Valid()
      modifies this
      ensures Valid()
      ensures old(Remaining()) == [] ==> item == None && Remaining() == []
      ensures old(Remaining()) != [] ==> item == Some(old(Remaining())[0]) && Remaining() == old(Remaining())[1..]
    {
      if first.Some? {
        item := first;
        first := None;
      } else if index < |rest| {
        item := Some(rest[index]);
        index := index + 1;
      } else {
        item := None;
      }
    }
  }

  /** Draining an iterator, as `collect` and `count` do: the items are the
      list's elements in order, so their number is `len()`. */
  method Collect<T>(o: OneOrMany<T>) returns (items: seq<T>)
    ensures items == o.Elements()
    ensures |items| == o.Len()
  {
    var it := new Iter(o);
    items := [];
    ghost var n: nat := 0;
    while true
      invariant it.Valid()
      invariant n <= o.Len()
      invariant it.Remaining() == o.Elements()[n..]
      invariant items == o.Elements()[..n]
      decreases |it.Remaining()|
    {
      var next := it.Next();
      if next.None? {
        break;
      }
      SplitAt(o.Elements(), n);
      items := items + [next.value];
      n := n + 1;
    }
    assert o.Elements()[..n] == o.Elements();
  }

  /** `IterMut`: the head slot holds a reference to the head until taken;
      then references into the tail follow. */
  class IterMut<T> {
    const target: Binding<T>
    var first: bool
    var index: nat

    ghost predicate Valid()
      reads this, target
    {
      index <= |target.rest| && (first ==> index == 0)
    }

    /** How many references have been handed out so far. */
    function Yielded(): (n: nat)
      reads this, target
      requires Valid()
      ensures n <= target.Value().Len()
    {
      if first then 0 else 1 + index
    }

    /** `iter_mut()`. */
    constructor (b: Binding<T>)
      ensures Valid() && target == b && Yielded() == 0
    {
      target := b;
      first := true;
      index := 0;
    }

    /** `next`: a reference to each logical position in turn, then `None`. */
    method Next() returns (r: Option<Ref>)
      requires Valid()
      modifies this
      ensures Valid()
      ensures old(Yielded()) < target.Value().Len() ==>
                r.Some? && target.Points(r.value) && r.value.Position() == old(Yielded())
                && Yielded() == old(Yielded()) + 1
      ensures old(Yielded()) == target.Value().Len() ==> r == None && Yielded() == old(Yielded())
    {
      if first {
        first := false;
        r := Some(First);
      } else if index < |target.rest| {
        r := Some(Rest(index));
        index := index + 1;
      } else {
        r := None;
      }
    }
  }

  /** `iter_mut().for_each(|x| *x = f(x))`: every element is replaced in
      place, in order, and a later read sees the new values. */
  method ForEachMut<T>(b: Binding<T>, f: T -> T)
    modifies b
    ensures b.Value().Elements() == MapSeq(old(b.Value().Elements()), f)
  {
    ghost var before := b.Value().Elements();
    var it := new IterMut(b);
    while true
      invariant it.Valid() && it.target == b
      invariant |b.Value().Elements()| == |before|
      invariant forall k :: 0 <= k < it.Yielded() ==> b.Value().Elements()[k] == f(before[k])
      invariant forall k :: it.Yielded() <= k < |before| ==> b.Value().Elements()[k] == before[k]
      decreases |before| - it.Yielded()
    {
      var r := it.Next();
      if r.None? {
        break;
      }
      var x := b.Load(r.value);
      b.Store(r.value, f(x));
    }
  }
}
