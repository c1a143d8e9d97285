/** The serde codec of `OneOrMany<T>`: it always encodes as a sequence, and
    it decodes from a non-empty sequence, from a bare string or from a map.
    The wire format is abstract: `Wire` has the shapes a self-describing
    format hands to `deserialize_any`, and the element type's own encoder
    and decoders are fallible functions given as parameters. */
module Codec {
  import opened Wrappers
  import NonEmpty
  import Iterators

  /** A self-describing wire value. The visitor accepts `Seq`, `Str`, `Map`
      and `Char` (serde's default `visit_char` forwards to `visit_str`);
      `Bool`, `Int` and `Unit` stand for every other shape. */
  datatype Wire =
    | Seq(items: seq<Wire>)
    | Str(text: string)
    | Char(c: char)
    | Map(entries: seq<(Wire, Wire)>)
    | Bool(b: bool)
    | Int(i: int)
    | Unit

  /** The decoding errors the visitor raises itself; an element decoder
      may return any of them (or a `Custom` one). */
  datatype DeError =
    | InvalidLength(length: nat)
    | InvalidType(unexpected: Wire)
    | Custom(message: string)

  /** The element type's `Deserialize`, as reached along the three paths of
      the visitor. They are separate functions because they are separate
      deserializers: `inSeq` is the format's own, used by `next_element`;
      `fromStr` runs on serde's `StrDeserializer` (or `StringDeserializer`
      from `visit_string`) built by `into_deserializer`; `fromMap` runs on a `MapAccessDeserializer`. For
      some element types they disagree (an `Option<String>` decodes from a
      string inside a sequence but not from a bare `StrDeserializer`). */
  datatype ElementDecoder<T> = ElementDecoder(
    inSeq: Wire -> Result<T, DeError>,
    fromStr: string -> Result<T, DeError>,
    fromMap: seq<(Wire, Wire)> -> Result<T, DeError>)

  // ---------------------------------------------------------------------
  // Encoding
  // ---------------------------------------------------------------------

  /** What `serialize` produces: a sequence of the encoded elements in
      iteration order, or the first element's encoding failure. */
  function Encode<T, E>(o: NonEmpty.OneOrMany<T>, enc: T -> Result<Wire, E>): (r: Result<Wire, E>)
    ensures r.Success? <==> forall k :: 0 <= k < o.Len() ==> enc(o.Elements()[k]).Success?
    ensures r.Success? ==> r.value.Seq? && |r.value.items| == o.Len()
    ensures r.Success? ==> forall k :: 0 <= k < o.Len() ==> enc(o.Elements()[k]) == Success(r.value.items[k])
    ensures r.Failure? ==> exists k :: 0 <= k < o.Len() && enc(o.Elements()[k]) == Failure(r.error)
                                     && forall j :: 0 <= j < k ==> enc(o.Elements()[j]).Success?
  {
    match NonEmpty.TryMapSeq(o.Elements(), enc)
    case Success(ws) => Success(Seq(ws))
    case Failure(e) => Failure(e)
  }

  /** One step of `serialize` over `o` at position `n`: element `n` either
      fails, and that failure is what `Encode` returns, or it extends the
      encoded prefix. */
  lemma EncodeStep<T, E>(o: NonEmpty.OneOrMany<T>, n: nat, enc: T -> Result<Wire, E>, items: seq<Wire>)
    requires n < o.Len()
    requires NonEmpty.TryMapSeq(o.Elements()[..n], enc) == Success(items)
    ensures enc(o.Elements()[n]).Failure? ==> Encode(o, enc) == Failure(enc(o.Elements()[n]).error)
    ensures enc(o.Elements()[n]).Success? ==>
              NonEmpty.TryMapSeq(o.Elements()[..n + 1], enc) == Success(items + [enc(o.Elements()[n]).value])
  {
    NonEmpty.TryMapSeqStep(o.Elements(), n, enc, items);
  }

  /** Once every element is encoded, `Encode` is the sequence of the items. */
  lemma EncodeDone<T, E>(o: NonEmpty.OneOrMany<T>, enc: T -> Result<Wire, E>, items: seq<Wire>)
    requires NonEmpty.TryMapSeq(o.Elements()[..o.Len()], enc) == Success(items)
    ensures Encode(o, enc) == Success(Seq(items))
  {
    assert o.Elements()[..o.Len()] == o.Elements();
  }

  /** `serialize`: emits each element in iteration order, stopping at the
      first element that fails; on success the items emitted are `len()` in
      number, the length the source announces to `serialize_seq`. */
  method Serialize<T, E>(o: NonEmpty.OneOrMany<T>, enc: T -> Result<Wire, E>) returns (r: Result<Wire, E>)
    ensures r == Encode(o, enc)
  {
    var it := new Iterators.Iter(o);
    var items: seq<Wire> := [];
    ghost var n: nat := 0;
    while true
      invariant it.Valid()
      invariant n <= o.Len()
      invariant it.Remaining() == o.Elements()[n..]
      invariant NonEmpty.TryMapSeq(o.Elements()[..n], enc) == Success(items)
      decreases |it.Remaining()|
    {
      var next := it.Next();
      if next.None? {
        break;
      }
      EncodeStep(o, n, enc, items);
      var w := enc(next.value);
      if w.Failure? {
        return Failure(w.error);
      }
      items := items + [w.value];
      n := n + 1;
    }
    EncodeDone(o, enc, items);
    r := Success(Seq(items));
  }

  // ---------------------------------------------------------------------
  // Decoding
  // ---------------------------------------------------------------------

  /** `visit_seq`, as a function: an empty sequence is an invalid length of
      0; otherwise the first element, then every later one, is decoded in
      order and the first failure is returned. */
  function DecodeSeq<T>(items: seq<Wire>, dec: Wire -> Result<T, DeError>): (r: Result<NonEmpty.OneOrMany<T>, DeError>)
    ensures items == [] ==> r == Failure(InvalidLength(0))
    ensures items != [] ==> (r.Success? <==> forall k :: 0 <= k < |items| ==> dec(items[k]).Success?)
    ensures r.Success? ==> r.value.Len() == |items|
                           && forall k :: 0 <= k < |items| ==> dec(items[k]) == Success(r.value.Elements()[k])
    ensures r.Failure? && items != [] ==>
              exists k :: 0 <= k < |items| && dec(items[k]) == Failure(r.error)
                          && forall j :: 0 <= j < k ==> dec(items[j]).Success?
  {
    if items == [] then Failure(InvalidLength(0))
    else
      match dec(items[0])
      case Failure(e) => Failure(e)
      case Success(first) =>
        match NonEmpty.TryMapSeq(items[1..], dec)
        case Failure(e) =>
          NonEmpty.TailFailureShifts(items, dec, e);
          Failure(e)
        case Success(rest) =>
          assert forall k :: 1 <= k < |items| ==> items[k] == items[1..][k - 1];
          Success(NonEmpty.OneOrMany(first, rest))
  }

  /** A failure in the tail, after the head decoded, is what `DecodeSeq`
      returns. */
  lemma DecodeTailFailure<T>(items: seq<Wire>, dec: Wire -> Result<T, DeError>, first: T, e: DeError)
    requires 1 <= |items|
    requires dec(items[0]) == Success(first)
    requires NonEmpty.TryMapSeq(items[1..], dec) == Failure(e)
    ensures DecodeSeq(items, dec) == Failure(e)
  {
  }

  /** Once the whole tail is decoded, `DecodeSeq` is the list of the head and
      the decoded tail. */
  lemma DecodeDone<T>(items: seq<Wire>, dec: Wire -> Result<T, DeError>, first: T, rest: seq<T>)
    requires 1 <= |items|
    requires dec(items[0]) == Success(first)
    requires NonEmpty.TryMapSeq(items[1..][..|items| - 1], dec) == Success(rest)
    ensures DecodeSeq(items, dec) == Success(NonEmpty.OneOrMany(first, rest))
  {
    assert items[1..][..|items| - 1] == items[1..];
  }

  /** `visit_seq`: takes the first element (or reports an invalid length of
      0), then pushes every further element onto the tail. */
  method VisitSeq<T>(items: seq<Wire>, dec: Wire -> Result<T, DeError>) returns (r: Result<NonEmpty.OneOrMany<T>, DeError>)
    ensures r == DecodeSeq(items, dec)
  {
    if |items| == 0 {
      return Failure(InvalidLength(0));
    }
    var head := dec(items[0]);
    if head.Failure? {
      return Failure(head.error);
    }
    var rest: seq<T> := [];
    var i := 1;
    while i < |items|
      invariant 1 <= i <= |items|
      invariant NonEmpty.TryMapSeq(items[1..][..i - 1], dec) == Success(rest)
    {
      NonEmpty.TryMapSeqStep(items[1..], i - 1, dec, rest);
      var value := dec(items[i]);
      if value.Failure? {
        DecodeTailFailure(items, dec, head.value, value.error);
        return Failure(value.error);
      }
      rest := rest + [value.value];
      i := i + 1;
    }
    DecodeDone(items, dec, head.value, rest);
    r := Success(NonEmpty.OneOrMany(head.value, rest));
  }

  /** `visit_str` and `visit_string`: the string itself is decoded, through
      a `StrDeserializer` (or `StringDeserializer` from `visit_string`), as
      the single element. */
  function VisitStr<T>(text: string, fromStr: string -> Result<T, DeError>): (r: Result<NonEmpty.OneOrMany<T>, DeError>)
    ensures r.Success? <==> fromStr(text).Success?
    ensures r.Success? ==> r.value.Elements() == [fromStr(text).value]
    ensures r.Failure? ==> r.error == fromStr(text).error
  {
    match fromStr(text)
    case Success(x) => Success(NonEmpty.One(x))
    case Failure(e) => Failure(e)
  }

  /** `visit_map`: the whole map is decoded, through a
      `MapAccessDeserializer`, as the single element. */
  function VisitMap<T>(entries: seq<(Wire, Wire)>, fromMap: seq<(Wire, Wire)> -> Result<T, DeError>): (r: Result<NonEmpty.OneOrMany<T>, DeError>)
    ensures r.Success? <==> fromMap(entries).Success?
    ensures r.Success? ==> r.value.Elements() == [fromMap(entries).value]
    ensures r.Failure? ==> r.error == fromMap(entries).error
  {
    match fromMap(entries)
    case Success(x) => Success(NonEmpty.One(x))
    case Failure(e) => Failure(e)
  }

  /** `deserialize`: `deserialize_any` hands the wire value to the visitor
      method for its shape (a `char` reaches `visit_str` through serde's
      default `visit_char`); every other shape is an invalid type. */
  function Deserialize<T>(w: Wire, d: ElementDecoder<T>): (r: Result<NonEmpty.OneOrMany<T>, DeError>)
    ensures w.Seq? ==> r == DecodeSeq(w.items, d.inSeq)
    ensures w.Str? ==> r == VisitStr(w.text, d.fromStr)
    ensures w.Char? ==> r == VisitStr([w.c], d.fromStr)
    ensures w.Map? ==> r == VisitMap(w.entries, d.fromMap)
    ensures w == Seq([]) ==> r == Failure(InvalidLength(0))
    ensures w.Seq? && w.items != [] ==> (r.Success? <==> forall k :: 0 <= k < |w.items| ==> d.inSeq(w.items[k]).Success?)
    ensures w.Seq? && r.Success? ==> r.value.Len() == |w.items|
                                     && forall k :: 0 <= k < |w.items| ==> d.inSeq(w.items[k]) == Success(r.value.Elements()[k])
    ensures w.Str? ==> (r.Success? <==> d.fromStr(w.text).Success?)
    ensures w.Str? && r.Success? ==> r.value.Elements() == [d.fromStr(w.text).value]
    ensures w.Str? && r.Failure? ==> r.error == d.fromStr(w.text).error
    ensures w.Map? ==> (r.Success? <==> d.fromMap(w.entries).Success?)
    ensures w.Map? && r.Success? ==> r.value.Elements() == [d.fromMap(w.entries).value]
    ensures w.Map? && r.Failure? ==> r.error == d.fromMap(w.entries).error
    ensures (w.Bool? || w.Int? || w.Unit?) ==> r == Failure(InvalidType(w))
  {
    match w
    case Seq(items) => DecodeSeq(items, d.inSeq)
    case Str(text) => VisitStr(text, d.fromStr)
    case Char(ch) => VisitStr([ch], d.fromStr)
    case Map(entries) => VisitMap(entries, d.fromMap)
    case _ => Failure(InvalidType(w))
  }

  // ---------------------------------------------------------------------
  // Round trips
  // ---------------------------------------------------------------------

  /** Whenever the element codec round-trips, so does the list's:
      decoding what was encoded gives back the same head and tail. */
  lemma DecodeEncode<T, E>(o: NonEmpty.OneOrMany<T>, enc: T -> Result<Wire, E>, d: ElementDecoder<T>)
    requires forall x: T, w: Wire :: enc(x) == Success(w) ==> d.inSeq(w) == Success(x)
    requires Encode(o, enc).Success?
    ensures Deserialize(Encode(o, enc).value, d) == Success(o)
  {
    var dec := d.inSeq;
    var ws := Encode(o, enc).value.items;
    forall k | 0 <= k < |ws|
      ensures dec(ws[k]) == Success(o.Elements()[k])
    {
      assert enc(o.Elements()[k]) == Success(ws[k]);
    }
    var r := Deserialize(Seq(ws), d);
    assert r.Success?;
    assert r.value.Elements() == o.Elements();
  }

  /** Encoding what a sequence decoded to gives back that sequence, when
      the element codec round-trips the other way. */
  lemma EncodeDecode<T, E>(items: seq<Wire>, enc: T -> Result<Wire, E>, d: ElementDecoder<T>)
    requires forall x: T, w: Wire :: d.inSeq(w) == Success(x) ==> enc(x) == Success(w)
    requires Deserialize(Seq(items), d).Success?
    ensures Encode(Deserialize(Seq(items), d).value, enc) == Success(Seq(items))
  {
    var o := Deserialize(Seq(items), d).value;
    var dec := d.inSeq;
    forall k | 0 <= k < o.Len()
      ensures enc(o.Elements()[k]) == Success(items[k])
    {
      assert dec(items[k]) == Success(o.Elements()[k]);
    }
    var r := Encode(o, enc);
    assert r.Success?;
    assert r.value.items == items;
  }

  /** A bare string or map decodes to the same list as a one-element
      sequence holding it, provided the element type decodes that string or
      map the same way on its own as inside a sequence. Without that
      agreement the two results can differ. */
  lemma SingleShapeIsSingletonSeq<T>(w: Wire, d: ElementDecoder<T>)
    requires w.Str? || w.Map?
    requires w.Str? ==> d.fromStr(w.text) == d.inSeq(w)
    requires w.Map? ==> d.fromMap(w.entries) == d.inSeq(w)
    ensures Deserialize(w, d) == Deserialize(Seq([w]), d)
  {
    assert [w][0] == w && [w][1..] == [];
    assert NonEmpty.TryMapSeq([w][1..], d.inSeq) == Success([]);
  }

  /** The agreement is needed: an element type whose bare-string decoder
      rejects what its in-sequence decoder accepts (serde's `Option<String>`
      behaves so) decodes `["x"]` but not `"x"`. */
  lemma SingleShapeNeedsAgreement(d: ElementDecoder<Option<string>>)
    requires d.inSeq(Str("x")) == Success(Some("x"))
    requires d.fromStr("x") == Failure(InvalidType(Str("x")))
    ensures Deserialize(Seq([Str("x")]), d) == Success(NonEmpty.One(Some("x")))
    ensures Deserialize(Str("x"), d).Failure?
  {
    var items := [Str("x")];
    assert items[0] == Str("x") && items[1..] == [];
    assert NonEmpty.TryMapSeq<Wire, Option<string>, DeError>([], d.inSeq) == Success([]);
  }
}
