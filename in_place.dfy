/** The operations that change a `OneOrMany<T>` in place through `&mut self`:
    `push`, `insert`, and the writes made through the references that
    `iter_mut` hands out. A `Binding` is the mutable place holding the value;
    its two fields are the struct's two fields. */
module InPlace {
  import opened NonEmpty

  /** A mutable reference into a binding, as `IterMut` yields it: either
      the head, or the element at `index` of the tail. */
  datatype Ref = First | Rest(index: nat) {

    /** Where the reference points in the logical sequence. */
    function Position(): (p: nat)
      ensures First? <==> p == 0
    {
      match this
      case First => 0
      case Rest(i) => i + 1
    }
  }

  class Binding<T> {
    var first: T
    var rest: seq<T>

    /** The value currently held. */
    function Value(): (v: OneOrMany<T>)
      reads this
      ensures v.first == first && v.rest == rest
    {
      OneOrMany(first, rest)
    }

    constructor (v: OneOrMany<T>)
      ensures Value() == v
    {
      first := v.first;
      rest := v.rest;
    }

    /** `push`: appends to the tail; the head and every existing element stay
        where they were. */
    method Push(item: T)
      modifies this
      ensures first == old(first) && rest == old(rest) + [item]
      ensures Value().Elements() == old(Value().Elements()) + [item]
      ensures Value().Len() == old(Value().Len()) + 1
    {
      rest := rest + [item];
    }

    /** `insert`: `item` lands at logical position `index`. At position 0 it
        replaces the head and the old head moves to the front of the tail;
        elsewhere it goes into the tail at `index - 1`. An index past the end
        makes the underlying `Vec::insert` panic, so it is excluded here. */
    method Insert(index: nat, item: T)
      requires index <= Value().Len()
      modifies this
      ensures Value().Elements() == old(Value().Elements())[..index] + [item] + old(Value().Elements())[index..]
      ensures index == 0 ==> first == item && rest == [old(first)] + old(rest)
      ensures index > 0 ==> first == old(first)
      ensures Value().Len() == old(Value().Len()) + 1
    {
      if index == 0 {
        var oldFirst := first;
        first := item;
        rest := [oldFirst] + rest;
      } else {
        rest := rest[..index - 1] + [item] + rest[index - 1..];
        assert old(Value().Elements())[..index] == [first] + old(rest)[..index - 1];
      }
    }

    /** Whether `r` points at an element of this binding. */
    predicate Points(r: Ref)
      reads this
      ensures Points(r) <==> r.Position() < Value().Len()
    {
      r.Rest? ==> r.index < |rest|
    }

    /** Reading through a reference: `*r`. */
    function Load(r: Ref): (x: T)
      reads this
      requires Points(r)
      ensures x == Value().Elements()[r.Position()]
    {
      match r
      case First => first
      case Rest(i) => rest[i]
    }

    /** Writing through a reference: `*r = x`. Only the element `r` points
        at changes. */
    method Store(r: Ref, x: T)
      requires Points(r)
      modifies this
      ensures Value().Elements() == old(Value().Elements())[r.Position() := x]
    {
      match r
      case First => first := x;
      case Rest(i) => rest := rest[i := x];
    }
  }
}
