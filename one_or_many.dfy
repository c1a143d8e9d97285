/** The non-empty list `OneOrMany<T>` as a value: a mandatory head `first`
    and a tail `rest`, so that the empty list has no representation. Its
    logical value is the sequence `[first] + rest`. This module holds the
    operations that build a new value (`one`, `many`, `merge`, `map`,
    `try_map`) and the queries `len` and `is_empty`. */
module NonEmpty {
  import opened Wrappers

  /** The only error of the module: a list was asked to be built from
      zero elements. */
  datatype EmptyListError = EmptyListError

  datatype OneOrMany<T> = OneOrMany(first: T, rest: seq<T>) {

    /** The logical sequence the value denotes. */
    function Elements(): (s: seq<T>)
      ensures |s| >= 1 && s[0] == first && s[1..] == rest
    {
      [first] + rest
    }

    /** `len`: the head plus the tail, never zero. */
    function Len(): (n: nat)
      ensures n == |Elements()|
      ensures n >= 1
    {
      1 + |rest|
    }

    /** `is_empty`: kept only because `len` exists; always false. */
    function IsEmpty(): (b: bool)
      ensures b <==> Len() == 0
      ensures !b
    {
      false
    }
  }

  /** `one`: a list holding exactly `item`. */
  function One<T>(item: T): (r: OneOrMany<T>)
    ensures r.Elements() == [item]
    ensures r.Len() == 1
  {
    OneOrMany(item, [])
  }

  /** `many`: fails exactly on the empty vector, otherwise keeps the
      elements in their original order. */
  function Many<T>(items: seq<T>): (r: Result<OneOrMany<T>, EmptyListError>)
    ensures r.Failure? <==> items == []
    ensures r.Success? ==> r.value.Elements() == items && r.value.Len() == |items|
  {
    if items == [] then Failure(EmptyListError)
    else Success(OneOrMany(items[0], items[1..]))
  }

  /** The flat_map over the lists of `merge`: every list's elements, list
      after list. */
  function Flatten<T>(lists: seq<OneOrMany<T>>): (r: seq<T>)
    ensures |r| >= |lists|
    ensures lists != [] ==> r[0] == lists[0].first
  {
    if lists == [] then [] else lists[0].Elements() + Flatten(lists[1..])
  }

  /** `merge`: fails only on an empty outer list, since each inner list
      contributes at least one element. */
  function Merge<T>(lists: seq<OneOrMany<T>>): (r: Result<OneOrMany<T>, EmptyListError>)
    ensures r.Failure? <==> lists == []
    ensures r.Success? ==> r.value.Elements() == Flatten(lists)
    ensures r.Success? ==> r.value.first == lists[0].first && r.value.Len() >= |lists|
  {
    Many(Flatten(lists))
  }

  /** The `into_iter().map(op).collect()` over a tail. */
  function MapSeq<T, U>(s: seq<T>, op: T -> U): (r: seq<U>)
    ensures |r| == |s|
    ensures forall k :: 0 <= k < |s| ==> r[k] == op(s[k])
  {
    if s == [] then [] else [op(s[0])] + MapSeq(s[1..], op)
  }

  /** `map`: same length, same order, every element transformed. */
  function Map<T, U>(o: OneOrMany<T>, op: T -> U): (r: OneOrMany<U>)
    ensures r.Len() == o.Len()
    ensures forall k :: 0 <= k < o.Len() ==> r.Elements()[k] == op(o.Elements()[k])
  {
    OneOrMany(op(o.first), MapSeq(o.rest, op))
  }

  /** The `into_iter().map(op).collect::<Result<Vec<_>, E>>()` over a
      sequence: the first failure in order, or every element mapped. */
  function TryMapSeq<T, U, E>(s: seq<T>, op: T -> Result<U, E>): (r: Result<seq<U>, E>)
    ensures r.Success? <==> forall k :: 0 <= k < |s| ==> op(s[k]).Success?
    ensures r.Success? ==> |r.value| == |s| && forall k :: 0 <= k < |s| ==> op(s[k]) == Success(r.value[k])
    ensures r.Failure? ==> exists k :: 0 <= k < |s| && op(s[k]) == Failure(r.error)
                                     && forall j :: 0 <= j < k ==> op(s[j]).Success?
  {
    if s == [] then Success([])
    else
      match op(s[0])
      case Failure(e) => Failure(e)
      case Success(u) =>
        match TryMapSeq(s[1..], op)
        case Failure(e) =>
          TailFailureShifts(s, op, e);
          Failure(e)
        case Success(us) => Success([u] + us)
  }

  /** A failure found in the tail of `s`, behind a head that maps
      successfully, is the first failure of `s` itself. */
  lemma TailFailureShifts<T, U, E>(s: seq<T>, op: T -> Result<U, E>, e: E)
    requires s != [] && op(s[0]).Success?
    requires exists k :: 0 <= k < |s| - 1 && op(s[1..][k]) == Failure(e)
                         && forall j :: 0 <= j < k ==> op(s[1..][j]).Success?
    ensures exists k :: 0 <= k < |s| && op(s[k]) == Failure(e)
                        && forall j :: 0 <= j < k ==> op(s[j]).Success?
  {
    var k :| 0 <= k < |s| - 1 && op(s[1..][k]) == Failure(e)
             && forall j :: 0 <= j < k ==> op(s[1..][j]).Success?;
    assert op(s[k + 1]) == Failure(e);
    forall j | 0 <= j < k + 1
      ensures op(s[j]).Success?
    {
      if j > 0 { assert s[j] == s[1..][j - 1]; }
    }
  }

  /** Mapping `op` over `a + b` fails with `a`'s first failure if there is
      one, else with `b`'s, else succeeds with both results concatenated. */
  lemma {:induction false} TryMapSeqAppend<T, U, E>(a: seq<T>, b: seq<T>, op: T -> Result<U, E>)
    ensures TryMapSeq(a, op).Failure? ==>
              TryMapSeq(a + b, op) == TryMapSeq(a, op)
    ensures TryMapSeq(a, op).Success? && TryMapSeq(b, op).Failure? ==>
              TryMapSeq(a + b, op) == TryMapSeq(b, op)
    ensures TryMapSeq(a, op).Success? && TryMapSeq(b, op).Success? ==>
              TryMapSeq(a + b, op) == Success(TryMapSeq(a, op).value + TryMapSeq(b, op).value)
  {
    if a == [] {
      assert a + b == b;
      if TryMapSeq(b, op).Success? {
        assert [] + TryMapSeq(b, op).value == TryMapSeq(b, op).value;
      }
    } else {
      var ab := a + b;
      assert ab[0] == a[0] && ab[1..] == a[1..] + b;
      match op(a[0])
      case Failure(e) =>
        assert TryMapSeq(ab, op) == Failure(e);
        assert TryMapSeq(a, op) == Failure(e);
      case Success(u) =>
        TryMapSeqAppend(a[1..], b, op);
        match TryMapSeq(a[1..], op)
        case Failure(e) =>
          assert TryMapSeq(ab, op) == Failure(e);
          assert TryMapSeq(a, op) == Failure(e);
        case Success(us) =>
          assert TryMapSeq(a, op) == Success([u] + us);
          match TryMapSeq(b, op)
          case Failure(e) =>
            assert TryMapSeq(ab, op) == Failure(e);
          case Success(vs) =>
            assert TryMapSeq(ab, op) == Success([u] + (us + vs));
            ConsAppendAssociates(u, us, vs);
    }
  }

  /** Kept separate so that `TryMapSeqAppend` does not reason about
      associativity next to `TryMapSeq`'s quantified postconditions. */
  lemma ConsAppendAssociates<U>(u: U, us: seq<U>, vs: seq<U>)
    ensures [u] + (us + vs) == ([u] + us) + vs
  {
  }

  /** Mapping over a single element. */
  lemma TryMapSeqSingleton<T, U, E>(x: T, op: T -> Result<U, E>)
    ensures op(x).Failure? ==> TryMapSeq([x], op) == Failure(op(x).error)
    ensures op(x).Success? ==> TryMapSeq([x], op) == Success([op(x).value])
  {
    assert [x][0] == x && [x][1..] == [];
    assert TryMapSeq<T, U, E>([], op) == Success([]);
    if op(x).Success? {
      assert [op(x).value] + [] == [op(x).value];
    }
  }

  /** One more element after a prefix that mapped successfully. */
  lemma TryMapSeqSnoc<T, U, E>(a: seq<T>, x: T, op: T -> Result<U, E>, us: seq<U>)
    requires TryMapSeq(a, op) == Success(us)
    ensures op(x).Failure? ==> TryMapSeq(a + [x], op) == Failure(op(x).error)
    ensures op(x).Success? ==> TryMapSeq(a + [x], op) == Success(us + [op(x).value])
  {
    TryMapSeqAppend(a, [x], op);
    TryMapSeqSingleton(x, op);
  }

  /** A failure in a prefix is the failure of the whole sequence. */
  lemma TryMapSeqPrefixFailure<T, U, E>(a: seq<T>, b: seq<T>, op: T -> Result<U, E>)
    requires TryMapSeq(a, op).Failure?
    ensures TryMapSeq(a + b, op) == TryMapSeq(a, op)
  {
    TryMapSeqAppend(a, b, op);
  }

  /** One step of a loop that collects `s` element by element: with the
      prefix `s[..n]` collected into `us`, element `n` either fails, and
      that failure is the result for the whole of `s`, or extends the
      collected prefix by one. */
  lemma TryMapSeqStep<T, U, E>(s: seq<T>, n: nat, op: T -> Result<U, E>, us: seq<U>)
    requires n < |s|
    requires TryMapSeq(s[..n], op) == Success(us)
    ensures op(s[n]).Failure? ==> TryMapSeq(s, op) == Failure(op(s[n]).error)
    ensures op(s[n]).Success? ==> TryMapSeq(s[..n + 1], op) == Success(us + [op(s[n]).value])
  {
    SplitAt(s, n);
    TryMapSeqSnoc(s[..n], s[n], op, us);
    if op(s[n]).Failure? {
      TryMapSeqPrefixFailure(s[..n + 1], s[n + 1..], op);
    }
  }

  /** Cutting `s` after position `n`. It stands alone so that the proofs
      using it do not see `TryMapSeq` while they reason about slices. */
  lemma SplitAt<T>(s: seq<T>, n: nat)
    requires n < |s|
    ensures s[..n + 1] == s[..n] + [s[n]]
    ensures s[..n + 1] + s[n + 1..] == s
  {
  }

  /** `try_map`: the head is mapped first and its failure returned at once;
      then the tail, stopping at its first failure. */
  function TryMap<T, U, E>(o: OneOrMany<T>, op: T -> Result<U, E>): (r: Result<OneOrMany<U>, E>)
    ensures r.Success? <==> forall k :: 0 <= k < o.Len() ==> op(o.Elements()[k]).Success?
    ensures r.Success? ==> r.value.Len() == o.Len()
    ensures r.Success? ==> forall k :: 0 <= k < o.Len() ==> op(o.Elements()[k]) == Success(r.value.Elements()[k])
    ensures r.Failure? ==> exists k :: 0 <= k < o.Len() && op(o.Elements()[k]) == Failure(r.error)
                                     && forall j :: 0 <= j < k ==> op(o.Elements()[j]).Success?
  {
    match op(o.first)
    case Failure(e) =>
      assert op(o.Elements()[0]) == Failure(e);
      Failure(e)
    case Success(head) =>
      match TryMapSeq(o.rest, op)
      case Failure(e) =>
        TailFailureShifts(o.Elements(), op, e);
        Failure(e)
      case Success(tail) => Success(OneOrMany(head, tail))
  }

  // ---------------------------------------------------------------------
  // Properties relating the operations to each other
  // ---------------------------------------------------------------------

  /** `many` rebuilds any list from its own elements. */
  lemma ManyOfElements<T>(o: OneOrMany<T>)
    ensures Many(o.Elements()) == Success(o)
  {
  }

  /** Flattening distributes over concatenation of the outer list. */
  lemma {:induction false} FlattenAppend<T>(a: seq<OneOrMany<T>>, b: seq<OneOrMany<T>>)
    ensures Flatten(a + b) == Flatten(a) + Flatten(b)
  {
    if a == [] {
      assert a + b == b;
    } else {
      assert (a + b)[0] == a[0] && (a + b)[1..] == a[1..] + b;
      FlattenAppend(a[1..], b);
    }
  }

  /** The length of a merge is the sum of the lengths merged. */
  function TotalLen<T>(lists: seq<OneOrMany<T>>): nat
  {
    if lists == [] then 0 else lists[0].Len() + TotalLen(lists[1..])
  }

  lemma {:induction false} FlattenLength<T>(lists: seq<OneOrMany<T>>)
    ensures |Flatten(lists)| == TotalLen(lists)
  {
    if lists != [] {
      FlattenLength(lists[1..]);
    }
  }

  /** Merging one list gives that list back. */
  lemma MergeSingleton<T>(o: OneOrMany<T>)
    ensures Merge([o]) == Success(o)
  {
    assert [o][1..] == [];
    assert Flatten([o]) == o.Elements();
    ManyOfElements(o);
  }

  /** Merging two groups of lists separately and then merging the two
      results gives the same list as merging all of them at once. */
  lemma MergeAssociative<T>(a: seq<OneOrMany<T>>, b: seq<OneOrMany<T>>)
    requires a != [] && b != []
    ensures Merge([Merge(a).value, Merge(b).value]) == Merge(a + b)
  {
    var ma, mb := Merge(a).value, Merge(b).value;
    assert [ma, mb][1..] == [mb] && [mb][1..] == [];
    assert Flatten([mb]) == mb.Elements();
    assert Flatten([ma, mb]) == ma.Elements() + mb.Elements();
    FlattenAppend(a, b);
  }

  /** Merging `[a, b]` with `[c]` gives `[a, b, c]`, in that order. */
  lemma MergeTwoAndOne<T>(a: T, b: T, c: T)
    ensures Merge([Many([a, b]).value, One(c)]) == Success(OneOrMany(a, [b, c]))
  {
    var ab := Many([a, b]).value;
    assert [ab, One(c)][1..] == [One(c)] && [One(c)][1..] == [];
    assert Flatten([One(c)]) == [c];
    assert ab.Elements() == [a, b];
    assert Flatten([ab, One(c)]) == [a, b, c];
    assert [a, b, c][1..] == [b, c];
  }

  /** `map` with `f` then with `g` is `map` with their composition. */
  lemma MapCompose<T, U, V>(o: OneOrMany<T>, f: T -> U, g: U -> V)
    ensures Map(Map(o, f), g) == Map(o, x => g(f(x)))
  {
  }

  /** `try_map` with an operation that never fails is `map`. */
  lemma TryMapOfTotal<T, U, E>(o: OneOrMany<T>, f: T -> U)
    ensures TryMap<T, U, E>(o, x => Success(f(x))) == Success(Map(o, f))
  {
    var op: T -> Result<U, E> := x => Success(f(x));
    var r := TryMap(o, op);
    assert r.Success?;
    assert r.value.Elements() == Map(o, f).Elements();
  }

  /** When the head fails, `try_map` returns exactly that failure, whatever
      the tail holds. */
  lemma TryMapHeadFailure<T, U, E>(o: OneOrMany<T>, op: T -> Result<U, E>)
    requires op(o.first).Failure?
    ensures TryMap(o, op) == Failure(op(o.first).error)
  {
  }
}
