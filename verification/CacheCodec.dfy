/**
 * The typed-envelope codec of the cache: values that JSON cannot represent are wrapped in a
 * two-key object on the way in and rebuilt, innermost first, on the way out.
 *
 * JSON is taken at the level of its trees; dictionaries keep the order of their items.
 */
module CacheCodec {
  import opened Prelude

  /** The kinds of leaf with a printed form: `isoformat`, `total_seconds` or `str`. */
  datatype Kind = DateTime | Date | Time | TimeDelta | Decimal | Uuid

  datatype Plain = Null | Bool(b: bool) | Int(n: int) | Float(x: real) | Str(s: string)

  /** A hashable value; `id` stands for the datetime, decimal, ... of that kind. */
  datatype Scalar = Plain(plain: Plain) | Bytes(bytes: seq<nat>) | Typed(kind: Kind, id: int)

  /** A Python value; `Opaque` is any object of an unsupported type. */
  datatype Value =
    | Scalar(scalar: Scalar)
    | Set(elements: set<Scalar>)
    | List(items: Values)
    | Tuple(items: Values)
    | Dict(fields: Fields)
    | DataClass(fields: Fields)
    | Enumeration(value: Value)
    | Opaque
  datatype Values = NoValues | Values(head: Value, tail: Values)
  datatype Fields = NoFields | Field(key: string, value: Value, rest: Fields)

  datatype Json = Atom(plain: Plain) | Array(elements: Jsons) | Object(members: Members)
  datatype Jsons = NoJsons | Jsons(head: Json, tail: Jsons)
  datatype Members = NoMembers | Member(key: string, json: Json, rest: Members)

  /** A parser accepts, raises `TypeError` or `ValueError`, or raises something else. */
  datatype Parse = Parsed(id: int) | Rejected | Broken

  /** The library functions the codec relies on; `listing` is `sorted(value, key=repr)`. */
  datatype Codec = Codec(
    show: (Kind, int) -> Plain,
    parse: (Kind, Value) -> Parse,
    utf8Decode: seq<nat> -> Option<string>,
    utf8Encode: string -> Option<seq<nat>>,
    listing: set<Scalar> -> seq<Scalar>)

  const TYPE_TAG := "__sf_cache_type__"
  const VALUE_KEY := "__sf_cache_value__"

  function NameOf(kind: Kind): string {
    match kind
    case DateTime => "datetime"
    case Date => "date"
    case Time => "time"
    case TimeDelta => "timedelta"
    case Decimal => "decimal"
    case Uuid => "uuid"
  }

  function KindOf(name: string): Option<Kind> {
    if name == "datetime" then Some(DateTime)
    else if name == "date" then Some(Date)
    else if name == "time" then Some(Time)
    else if name == "timedelta" then Some(TimeDelta)
    else if name == "decimal" then Some(Decimal)
    else if name == "uuid" then Some(Uuid)
    else None
  }

  // ---- Encoding -----------------------------------------------------------------------------------

  function Envelope(name: string, payload: Json): Json {
    Object(Member(TYPE_TAG, Atom(Str(name)), Member(VALUE_KEY, payload, NoMembers)))
  }

  /** `None` stands for `CacheSerializationError`. */
  function EncodeScalar(c: Codec, x: Scalar): Option<Json> {
    match x
    case Plain(p) => Some(Atom(p))
    case Bytes(b) =>
      (match c.utf8Decode(b)
       case None => None
       case Some(s) => Some(Envelope("bytes", Atom(Str(s)))))
    case Typed(kind, id) => Some(Envelope(NameOf(kind), Atom(c.show(kind, id))))
  }

  function EncodeScalars(c: Codec, xs: seq<Scalar>): Option<Jsons> {
    if xs == [] then Some(NoJsons)
    else
      match (EncodeScalar(c, xs[0]), EncodeScalars(c, xs[1..]))
      case (Some(j), Some(js)) => Some(Jsons(j, js))
      case _ => None
  }

  /** Tuples become arrays, dataclasses objects of their fields, and enumeration members their values. */
  function Encode(c: Codec, v: Value): Option<Json> {
    match v
    case Scalar(x) => EncodeScalar(c, x)
    case Set(elements) =>
      var js := EncodeScalars(c, c.listing(elements));
      if js.Some? then Some(Envelope("set", Array(js.value))) else None
    case List(items) =>
      var js := EncodeAll(c, items);
      if js.Some? then Some(Array(js.value)) else None
    case Tuple(items) =>
      var js := EncodeAll(c, items);
      if js.Some? then Some(Array(js.value)) else None
    case Dict(fields) =>
      var ms := EncodeFields(c, fields);
      if ms.Some? then Some(Object(ms.value)) else None
    case DataClass(fields) =>
      var ms := EncodeFields(c, fields);
      if ms.Some? then Some(Object(ms.value)) else None
    case Enumeration(value) => Encode(c, value)
    case Opaque => None
  }

  function EncodeAll(c: Codec, vs: Values): Option<Jsons> {
    match vs
    case NoValues => Some(NoJsons)
    case Values(v, rest) =>
      match (Encode(c, v), EncodeAll(c, rest))
      case (Some(j), Some(js)) => Some(Jsons(j, js))
      case _ => None
  }

  function EncodeFields(c: Codec, fs: Fields): Option<Members> {
    match fs
    case NoFields => Some(NoMembers)
    case Field(k, v, rest) =>
      match (Encode(c, v), EncodeFields(c, rest))
      case (Some(j), Some(ms)) => Some(Member(k, j, ms))
      case _ => None
  }

  // ---- Decoding ------------------------------------------------------------------------------------

  /**
   * A `TypeError` that escapes the hook makes `_deserialize` answer the raw text; other exceptions reach its
   * caller.
   */
  datatype Failure = RawText | Raises

  /** What the hook makes of an object: the object itself, a rebuilt value, or an exception. */
  datatype Outcome = Kept | Built(value: Value) | Escapes(failure: Failure)

  predicate EnvelopeShaped(fs: Fields) {
    && fs.Field? && fs.rest.Field? && fs.rest.rest.NoFields?
    && ((fs.key == TYPE_TAG && fs.rest.key == VALUE_KEY) || (fs.key == VALUE_KEY && fs.rest.key == TYPE_TAG))
  }

  function ScalarsOf(vs: Values): Option<set<Scalar>> {
    match vs
    case NoValues => Some({})
    case Values(v, rest) =>
      if !v.Scalar? || ScalarsOf(rest).None? then None else Some({v.scalar} + ScalarsOf(rest).value)
  }

  function KeysOf(fs: Fields): set<Scalar> {
    if fs.NoFields? then {} else {Plain(Str(fs.key))} + KeysOf(fs.rest)
  }

  /** `set(v)`: an unhashable element, or nothing to iterate over, is a `TypeError`. */
  function AsSet(v: Value): Outcome {
    match v
    case List(items) => if ScalarsOf(items).Some? then Built(Set(ScalarsOf(items).value)) else Kept
    case Set(elements) => Built(v)
    case Dict(fields) => Built(Set(KeysOf(fields)))
    case Scalar(Plain(Str(s))) => Built(Set(set i | 0 <= i < |s| :: Plain(Str([s[i]]))))
    case Scalar(Bytes(b)) => Built(Set(set i | 0 <= i < |b| :: Plain(Int(b[i]))))
    case _ => Kept
  }

  /** `v.encode("utf-8")`: only a string has it. */
  function AsBytes(c: Codec, v: Value): Outcome {
    if v.Scalar? && v.scalar.Plain? && v.scalar.plain.Str? then
      match c.utf8Encode(v.scalar.plain.s)
      case None => Kept
      case Some(b) => Built(Scalar(Bytes(b)))
    else Escapes(Raises)
  }

  function Rebuild(c: Codec, name: string, v: Value): Outcome {
    if name == "set" then AsSet(v)
    else if name == "bytes" then AsBytes(c, v)
    else if KindOf(name).Some? then
      match c.parse(KindOf(name).value, v)
      case Parsed(id) => Built(Scalar(Typed(KindOf(name).value, id)))
      case Rejected => Kept
      case Broken => Escapes(Raises)
    else Kept
  }

  /** The object hook: looking up an unhashable tag raises a `TypeError` that nothing in the hook catches. */
  function Hook(c: Codec, fs: Fields): Outcome {
    if !EnvelopeShaped(fs) then Kept
    else
      var tag := if fs.key == TYPE_TAG then fs.value else fs.rest.value;
      var v := if fs.key == TYPE_TAG then fs.rest.value else fs.value;
      if !tag.Scalar? then Escapes(RawText)
      else if tag.scalar.Plain? && tag.scalar.plain.Str? then Rebuild(c, tag.scalar.plain.s, v)
      else Kept
  }

  function Hooked(c: Codec, fs: Fields): Result<Value, Failure> {
    match Hook(c, fs)
    case Kept => Ok(Dict(fs))
    case Built(v) => Ok(v)
    case Escapes(e) => Err(e)
  }

  function Decode(c: Codec, j: Json): Result<Value, Failure> {
    match j
    case Atom(p) => Ok(Scalar(Plain(p)))
    case Array(js) =>
      (match DecodeAll(c, js)
       case Err(e) => Err(e)
       case Ok(vs) => Ok(List(vs)))
    case Object(ms) =>
      match DecodeFields(c, ms)
      case Err(e) => Err(e)
      case Ok(fs) => Hooked(c, fs)
  }

  function DecodeAll(c: Codec, js: Jsons): Result<Values, Failure> {
    match js
    case NoJsons => Ok(NoValues)
    case Jsons(j, rest) =>
      match Decode(c, j)
      case Err(e) => Err(e)
      case Ok(v) =>
        match DecodeAll(c, rest)
        case Err(e) => Err(e)
        case Ok(vs) => Ok(Values(v, vs))
  }

  function DecodeFields(c: Codec, ms: Members): Result<Fields, Failure> {
    match ms
    case NoMembers => Ok(NoFields)
    case Member(k, j, rest) =>
      match Decode(c, j)
      case Err(e) => Err(e)
      case Ok(v) =>
        match DecodeFields(c, rest)
        case Err(e) => Err(e)
        case Ok(fs) => Ok(Field(k, v, fs))
  }

  // ---- Laws of the library functions ------------------------------------------------------------------

  /** Parsing what was printed gives the leaf back. */
  predicate Faithful(c: Codec, kind: Kind, id: int) {
    c.parse(kind, Scalar(Plain(c.show(kind, id)))) == Parsed(id)
  }

  /**
   * Every kind but `timedelta` parses back what it prints. A `timedelta` goes through a float: it may come
   * back rounded, but what came back once comes back unchanged.
   */
  ghost predicate Lawful(c: Codec) {
    && (forall kind, id :: kind != TimeDelta ==> Faithful(c, kind, id))
    && (forall id :: RoundedIsFaithful(c, id))
    && (forall b :: c.utf8Decode(b).Some? ==> c.utf8Encode(c.utf8Decode(b).value) == Some(b))
    && (forall s: set<Scalar>, x :: x in c.listing(s) <==> x in s)
  }

  predicate RoundedIsFaithful(c: Codec, id: int) {
    var p := c.parse(TimeDelta, Scalar(Plain(c.show(TimeDelta, id))));
    p.Parsed? ==> Faithful(c, TimeDelta, p.id)
  }

  predicate IsAscii(b: seq<nat>) {
    forall i :: 0 <= i < |b| ==> b[i] < 128
  }

  function AsciiText(b: seq<nat>): string
    requires IsAscii(b)
  {
    seq(|b|, i requires 0 <= i < |b| && b[i] < 128 => b[i] as char)
  }

  ghost function AnyListing(s: set<Scalar>): seq<Scalar> {
    if s == {} then []
    else
      var x :| x in s;
      [x] + AnyListing(s - {x})
  }

  lemma {:induction false} AnyListingHolds(s: set<Scalar>, x: Scalar)
    ensures x in AnyListing(s) <==> x in s
  {
    if s != {} {
      var y :| y in s && AnyListing(s) == [y] + AnyListing(s - {y});
      AnyListingHolds(s - {y}, x);
    }
  }

  /** The laws can be met. */
  lemma LawfulExists()
    ensures exists c :: Lawful(c)
  {
    var c := Codec(
      (kind: Kind, id: int) => Int(id),
      (kind: Kind, v: Value) =>
        if v.Scalar? && v.scalar.Plain? && v.scalar.plain.Int? then Parsed(v.scalar.plain.n) else Rejected,
      (b: seq<nat>) => if IsAscii(b) then Some(AsciiText(b)) else None,
      (s: string) => Some(seq(|s|, i requires 0 <= i < |s| => s[i] as int)),
      AnyListing);
    forall b | c.utf8Decode(b).Some? ensures c.utf8Encode(c.utf8Decode(b).value) == Some(b) {
      assert c.utf8Encode(c.utf8Decode(b).value).value == b;
    }
    forall s: set<Scalar>, x ensures x in c.listing(s) <==> x in s {
      AnyListingHolds(s, x);
    }
    assert forall id :: RoundedIsFaithful(c, id);
    assert Lawful(c);
  }

  // ---- What can be cached, and what comes back unchanged --------------------------------------------

  predicate EncodableScalar(c: Codec, x: Scalar) {
    x.Bytes? ==> c.utf8Decode(x.bytes).Some?
  }

  /** No object of an unsupported type and no bytes that are not UTF-8. */
  predicate Encodable(c: Codec, v: Value) {
    match v
    case Scalar(x) => EncodableScalar(c, x)
    case Set(elements) => forall x :: x in elements ==> EncodableScalar(c, x)
    case List(items) => AllEncodable(c, items)
    case Tuple(items) => AllEncodable(c, items)
    case Dict(fields) => FieldsEncodable(c, fields)
    case DataClass(fields) => FieldsEncodable(c, fields)
    case Enumeration(value) => Encodable(c, value)
    case Opaque => false
  }

  predicate AllEncodable(c: Codec, vs: Values) {
    vs.Values? ==> Encodable(c, vs.head) && AllEncodable(c, vs.tail)
  }

  predicate FieldsEncodable(c: Codec, fs: Fields) {
    fs.Field? ==> Encodable(c, fs.value) && FieldsEncodable(c, fs.rest)
  }

  /** The dictionary has the two keys of an envelope, in whichever order, and its tag is mistaken for one. */
  predicate TakenForEnvelope(c: Codec, fs: Fields) {
    match fs
    case Field("__sf_cache_type__", tag, Field("__sf_cache_value__", v, NoFields)) => Mistaken(c, tag, v)
    case Field("__sf_cache_value__", v, Field("__sf_cache_type__", tag, NoFields)) => Mistaken(c, tag, v)
    case _ => false
  }

  /**
   * A tag that cannot be hashed, or that names a decoder which accepts the value or fails on it with something
   * other than a `TypeError` or `ValueError`.
   */
  predicate Mistaken(c: Codec, tag: Value, v: Value) {
    match tag
    case Scalar(Plain(Str("set"))) => !(v.Scalar? && Unlistable(v.scalar)) && !HasUnhashable(v) && !Foreign(v)
    case Scalar(Plain(Str("bytes"))) =>
      !(v.Scalar? && v.scalar.Plain? && v.scalar.plain.Str?) || c.utf8Encode(v.scalar.plain.s).Some?
    case Scalar(Plain(Str("datetime"))) => c.parse(DateTime, v) != Rejected
    case Scalar(Plain(Str("date"))) => c.parse(Date, v) != Rejected
    case Scalar(Plain(Str("time"))) => c.parse(Time, v) != Rejected
    case Scalar(Plain(Str("timedelta"))) => c.parse(TimeDelta, v) != Rejected
    case Scalar(Plain(Str("decimal"))) => c.parse(Decimal, v) != Rejected
    case Scalar(Plain(Str("uuid"))) => c.parse(Uuid, v) != Rejected
    case Scalar(_) => false
    case _ => true
  }

  /** Scalars that are no strings cannot be iterated over. */
  predicate Unlistable(x: Scalar) {
    !x.Bytes? && !(x.Plain? && x.plain.Str?)
  }

  /** A list with an element that is no scalar. */
  predicate HasUnhashable(v: Value) {
    v.List? && SomeUnhashable(v.items)
  }

  predicate SomeUnhashable(vs: Values) {
    vs.Values? && (!vs.head.Scalar? || SomeUnhashable(vs.tail))
  }

  /** JSON yields no such value. */
  predicate Foreign(v: Value) {
    v.Tuple? || v.DataClass? || v.Enumeration? || v.Opaque?
  }

  lemma {:induction false} UnhashableIff(vs: Values)
    ensures ScalarsOf(vs).None? <==> SomeUnhashable(vs)
  {
    if vs.Values? {
      UnhashableIff(vs.tail);
    }
  }

  /** The hook leaves a dictionary alone exactly when it is not taken for an envelope. */
  lemma HookKeepsIff(c: Codec, fs: Fields)
    ensures Hook(c, fs) == Kept <==> !TakenForEnvelope(c, fs)
  {
    if EnvelopeShaped(fs) {
      var v := if fs.key == TYPE_TAG then fs.rest.value else fs.value;
      if v.List? {
        UnhashableIff(v.items);
      }
    }
  }

  predicate CleanScalar(c: Codec, x: Scalar) {
    x.Typed? ==> Faithful(c, x.kind, x.id)
  }

  /**
   * Every duration survives its float, no plain dictionary is mistaken for an envelope, and no type is flattened
   * away.
   */
  predicate Clean(c: Codec, v: Value) {
    match v
    case Scalar(x) => CleanScalar(c, x)
    case Set(elements) => forall x :: x in elements ==> CleanScalar(c, x)
    case List(items) => AllClean(c, items)
    case Dict(fields) => FieldsClean(c, fields) && !TakenForEnvelope(c, fields)
    case _ => false
  }

  predicate AllClean(c: Codec, vs: Values) {
    vs.Values? ==> Clean(c, vs.head) && AllClean(c, vs.tail)
  }

  predicate FieldsClean(c: Codec, fs: Fields) {
    fs.Field? ==> Clean(c, fs.value) && FieldsClean(c, fs.rest)
  }

  // ---- Encoding succeeds exactly on encodable values ---------------------------------------------------

  lemma {:induction false} ScalarsEncodeIff(c: Codec, xs: seq<Scalar>)
    ensures EncodeScalars(c, xs).Some? <==> forall x :: x in xs ==> EncodableScalar(c, x)
  {
    if xs != [] {
      ScalarsEncodeIff(c, xs[1..]);
      assert xs == [xs[0]] + xs[1..];
      assert EncodeScalar(c, xs[0]).Some? <==> EncodableScalar(c, xs[0]);
    }
  }

  /** A value is refused, rather than degraded, exactly when something inside it cannot be represented. */
  lemma {:induction false} EncodesIff(c: Codec, v: Value)
    requires Lawful(c)
    ensures Encode(c, v).Some? <==> Encodable(c, v)
    decreases v
  {
    match v
    case Scalar(x) =>
    case Set(elements) => ScalarsEncodeIff(c, c.listing(elements));
    case List(items) => AllEncodeIff(c, items);
    case Tuple(items) => AllEncodeIff(c, items);
    case Dict(fields) => FieldsEncodeIff(c, fields);
    case DataClass(fields) => FieldsEncodeIff(c, fields);
    case Enumeration(value) => EncodesIff(c, value);
    case Opaque =>
  }

  lemma {:induction false} AllEncodeIff(c: Codec, vs: Values)
    requires Lawful(c)
    ensures EncodeAll(c, vs).Some? <==> AllEncodable(c, vs)
    decreases vs
  {
    if vs.Values? {
      EncodesIff(c, vs.head);
      AllEncodeIff(c, vs.tail);
    }
  }

  lemma {:induction false} FieldsEncodeIff(c: Codec, fs: Fields)
    requires Lawful(c)
    ensures EncodeFields(c, fs).Some? <==> FieldsEncodable(c, fs)
    decreases fs
  {
    if fs.Field? {
      EncodesIff(c, fs.value);
      FieldsEncodeIff(c, fs.rest);
    }
  }

  // ---- The round trip ------------------------------------------------------------------------------------

  function Wrapped(name: string, v: Value): Fields {
    Field(TYPE_TAG, Scalar(Plain(Str(name))), Field(VALUE_KEY, v, NoFields))
  }

  /** An envelope is opened once its payload has been decoded. */
  lemma DecodeEnvelope(c: Codec, name: string, payload: Json)
    ensures var r := Decode(c, payload);
      && Decode(c, Envelope(name, payload)) == (if r.Ok? then Hooked(c, Wrapped(name, r.value)) else r)
      && (r.Ok? ==> Hook(c, Wrapped(name, r.value)) == Rebuild(c, name, r.value))
  {
    var inner := Member(VALUE_KEY, payload, NoMembers);
    var r := Decode(c, payload);
    assert DecodeFields(c, inner) == if r.Ok? then Ok(Field(VALUE_KEY, r.value, NoFields)) else Err(r.error);
    assert Decode(c, Atom(Str(name))) == Ok(Scalar(Plain(Str(name))));
  }

  lemma NamesAreKinds(kind: Kind)
    ensures KindOf(NameOf(kind)) == Some(kind) && NameOf(kind) != "set" && NameOf(kind) != "bytes"
  {
  }

  /** A leaf comes back unchanged exactly when it is clean, and whatever leaf comes back is clean. */
  lemma ScalarReturns(c: Codec, x: Scalar)
    requires Lawful(c) && EncodableScalar(c, x)
    ensures var r := Decode(c, EncodeScalar(c, x).value);
      && (r == Ok(Scalar(x)) <==> CleanScalar(c, x))
      && (r.Ok? && r.value.Scalar? ==> CleanScalar(c, r.value.scalar))
  {
    match x
    case Plain(p) =>
    case Bytes(b) => DecodeEnvelope(c, "bytes", Atom(Str(c.utf8Decode(b).value)));
    case Typed(kind, id) =>
      NamesAreKinds(kind);
      DecodeEnvelope(c, NameOf(kind), Atom(c.show(kind, id)));
      assert kind == TimeDelta ==> RoundedIsFaithful(c, id);
  }

  lemma EncodedHead(c: Codec, xs: seq<Scalar>)
    requires xs != [] && forall x :: x in xs ==> EncodableScalar(c, x)
    ensures EncodeScalar(c, xs[0]).Some? && EncodeScalars(c, xs[1..]).Some?
    ensures EncodeScalars(c, xs) == Some(Jsons(EncodeScalar(c, xs[0]).value, EncodeScalars(c, xs[1..]).value))
  {
    ScalarsEncodeIff(c, xs);
    ScalarsEncodeIff(c, xs[1..]);
  }

  /** Clean elements come back as the same set. */
  lemma {:induction false} CleanScalarsReturn(c: Codec, xs: seq<Scalar>)
    requires Lawful(c) && forall x :: x in xs ==> EncodableScalar(c, x) && CleanScalar(c, x)
    ensures EncodeScalars(c, xs).Some?
    ensures var r := DecodeAll(c, EncodeScalars(c, xs).value); r.Ok? && ScalarsOf(r.value) == Some(set x | x in xs)
  {
    if xs == [] {
      assert (set x: Scalar | x in xs) == {};
    } else {
      EncodedHead(c, xs);
      ScalarReturns(c, xs[0]);
      CleanScalarsReturn(c, xs[1..]);
      var rest := set x | x in xs[1..];
      assert xs == [xs[0]] + xs[1..];
      assert (set x | x in xs) == {xs[0]} + rest;
    }
  }

  /** Whatever elements come back as scalars are clean. */
  lemma {:induction false} ReturnedScalarsAreClean(c: Codec, xs: seq<Scalar>)
    requires Lawful(c) && forall x :: x in xs ==> EncodableScalar(c, x)
    ensures EncodeScalars(c, xs).Some?
    ensures var r := DecodeAll(c, EncodeScalars(c, xs).value);
      r.Ok? && ScalarsOf(r.value).Some? ==> forall y :: y in ScalarsOf(r.value).value ==> CleanScalar(c, y)
  {
    if xs != [] {
      EncodedHead(c, xs);
      ScalarReturns(c, xs[0]);
      ReturnedScalarsAreClean(c, xs[1..]);
    }
  }

  lemma SetReturns(c: Codec, elements: set<Scalar>)
    requires Lawful(c) && Encodable(c, Set(elements))
    ensures Encode(c, Set(elements)).Some?
    ensures Decode(c, Encode(c, Set(elements)).value) == Ok(Set(elements)) <==> Clean(c, Set(elements))
  {
    var xs := c.listing(elements);
    ReturnedScalarsAreClean(c, xs);
    if Clean(c, Set(elements)) {
      CleanScalarsReturn(c, xs);
    }
    var js := EncodeScalars(c, xs).value;
    DecodeEnvelope(c, "set", Array(js));
    assert (set x | x in xs) == elements;
  }

  /** Decoding yields scalars, sets, lists and dictionaries only. */
  lemma DecodedKinds(c: Codec, j: Json)
    ensures var r := Decode(c, j); r.Ok? ==> r.value.Scalar? || r.value.Set? || r.value.List? || r.value.Dict?
  {
  }

  lemma BuiltIsNoDict(c: Codec, fs: Fields)
    ensures Hook(c, fs).Built? ==> !Hook(c, fs).value.Dict?
  {
  }

  /**
   * `_deserialize(_serialize(v)) == v` exactly when every duration inside survives its float, there is no
   * tuple, dataclass or enumeration member inside, and no plain dictionary inside is two-keyed like an
   * envelope with a tag that is unhashable, or that names a decoder which accepts the value or fails on it
   * with anything but a TypeError or ValueError.
   */
  lemma {:induction false} RoundTripIff(c: Codec, v: Value)
    requires Lawful(c) && Encodable(c, v)
    ensures Encode(c, v).Some?
    ensures Decode(c, Encode(c, v).value) == Ok(v) <==> Clean(c, v)
    decreases v
  {
    EncodesIff(c, v);
    match v
    case Scalar(x) => ScalarReturns(c, x);
    case Set(elements) => SetReturns(c, elements);
    case List(items) => AllReturnIff(c, items);
    case Dict(fields) =>
      FieldsReturnIff(c, fields);
      HookKeepsIff(c, fields);
      BuiltIsNoDict(c, fields);
      var r := DecodeFields(c, EncodeFields(c, fields).value);
      if r.Ok? {
        BuiltIsNoDict(c, r.value);
      }
    case _ => DecodedKinds(c, Encode(c, v).value);
  }

  lemma {:induction false} AllReturnIff(c: Codec, vs: Values)
    requires Lawful(c) && AllEncodable(c, vs)
    ensures EncodeAll(c, vs).Some?
    ensures DecodeAll(c, EncodeAll(c, vs).value) == Ok(vs) <==> AllClean(c, vs)
    decreases vs
  {
    if vs.Values? {
      RoundTripIff(c, vs.head);
      AllReturnIff(c, vs.tail);
    }
  }

  lemma {:induction false} FieldsReturnIff(c: Codec, fs: Fields)
    requires Lawful(c) && FieldsEncodable(c, fs)
    ensures EncodeFields(c, fs).Some?
    ensures DecodeFields(c, EncodeFields(c, fs).value) == Ok(fs) <==> FieldsClean(c, fs)
    decreases fs
  {
    if fs.Field? {
      RoundTripIff(c, fs.value);
      FieldsReturnIff(c, fs.rest);
    }
  }

  // ---- Values without envelopes ---------------------------------------------------------------------------

  /** No plain dictionary has the two envelope keys, and there are no durations. */
  predicate Ordinary(v: Value) {
    match v
    case Scalar(x) => OrdinaryScalar(x)
    case Set(elements) => forall x :: x in elements ==> OrdinaryScalar(x)
    case List(items) => AllOrdinary(items)
    case Dict(fields) => FieldsOrdinary(fields) && !EnvelopeShaped(fields)
    case _ => false
  }

  predicate OrdinaryScalar(x: Scalar) {
    x.Typed? ==> x.kind != TimeDelta
  }

  predicate AllOrdinary(vs: Values) {
    vs.Values? ==> Ordinary(vs.head) && AllOrdinary(vs.tail)
  }

  predicate FieldsOrdinary(fs: Fields) {
    fs.Field? ==> Ordinary(fs.value) && FieldsOrdinary(fs.rest)
  }

  lemma {:induction false} OrdinaryIsClean(c: Codec, v: Value)
    requires Lawful(c) && Ordinary(v)
    ensures Clean(c, v)
    decreases v
  {
    match v
    case Scalar(x) =>
    case Set(elements) =>
    case List(items) => AllOrdinaryAreClean(c, items);
    case Dict(fields) => FieldsOrdinaryAreClean(c, fields);
  }

  lemma {:induction false} AllOrdinaryAreClean(c: Codec, vs: Values)
    requires Lawful(c) && AllOrdinary(vs)
    ensures AllClean(c, vs)
    decreases vs
  {
    if vs.Values? {
      OrdinaryIsClean(c, vs.head);
      AllOrdinaryAreClean(c, vs.tail);
    }
  }

  lemma {:induction false} FieldsOrdinaryAreClean(c: Codec, fs: Fields)
    requires Lawful(c) && FieldsOrdinary(fs)
    ensures FieldsClean(c, fs)
    decreases fs
  {
    if fs.Field? {
      OrdinaryIsClean(c, fs.value);
      FieldsOrdinaryAreClean(c, fs.rest);
    }
  }

  /** The promise of the codec: JSON values, dates, decimals, UUIDs, UTF-8 bytes and sets of such scalars survive. */
  lemma OrdinaryValuesSurvive(c: Codec, v: Value)
    requires Lawful(c) && Encodable(c, v) && Ordinary(v)
    ensures Encode(c, v).Some? && Decode(c, Encode(c, v).value) == Ok(v)
  {
    OrdinaryIsClean(c, v);
    RoundTripIff(c, v);
  }

  // ---- What types JSON does not have come back as ---------------------------------------------------------

  /** Tuples as lists, dataclasses as dictionaries of their fields, enumeration members as their values. */
  function Flattened(v: Value): Value {
    match v
    case List(items) => List(AllFlattened(items))
    case Tuple(items) => List(AllFlattened(items))
    case Dict(fields) => Dict(FieldsFlattened(fields))
    case DataClass(fields) => Dict(FieldsFlattened(fields))
    case Enumeration(value) => Flattened(value)
    case _ => v
  }

  function AllFlattened(vs: Values): Values {
    if vs.NoValues? then NoValues else Values(Flattened(vs.head), AllFlattened(vs.tail))
  }

  function FieldsFlattened(fs: Fields): Fields {
    if fs.NoFields? then NoFields else Field(fs.key, Flattened(fs.value), FieldsFlattened(fs.rest))
  }

  lemma {:induction false} FlatteningIsInvisible(c: Codec, v: Value)
    ensures Encode(c, v) == Encode(c, Flattened(v)) && (Encodable(c, v) <==> Encodable(c, Flattened(v)))
    decreases v
  {
    match v
    case List(items) => FlatteningAllIsInvisible(c, items);
    case Tuple(items) => FlatteningAllIsInvisible(c, items);
    case Dict(fields) => FlatteningFieldsIsInvisible(c, fields);
    case DataClass(fields) => FlatteningFieldsIsInvisible(c, fields);
    case Enumeration(value) => FlatteningIsInvisible(c, value);
    case _ =>
  }

  lemma {:induction false} FlatteningAllIsInvisible(c: Codec, vs: Values)
    ensures EncodeAll(c, vs) == EncodeAll(c, AllFlattened(vs))
    ensures AllEncodable(c, vs) <==> AllEncodable(c, AllFlattened(vs))
    decreases vs
  {
    if vs.Values? {
      FlatteningIsInvisible(c, vs.head);
      FlatteningAllIsInvisible(c, vs.tail);
    }
  }

  lemma {:induction false} FlatteningFieldsIsInvisible(c: Codec, fs: Fields)
    ensures EncodeFields(c, fs) == EncodeFields(c, FieldsFlattened(fs))
    ensures FieldsEncodable(c, fs) <==> FieldsEncodable(c, FieldsFlattened(fs))
    decreases fs
  {
    if fs.Field? {
      FlatteningIsInvisible(c, fs.value);
      FlatteningFieldsIsInvisible(c, fs.rest);
    }
  }

  /**
   * Any value that can be cached comes back with its tuples as lists, its dataclasses as dictionaries and its
   * enumeration members as values, exactly when that form is clean.
   */
  lemma ComesBackFlattenedIff(c: Codec, v: Value)
    requires Lawful(c) && Encodable(c, v)
    ensures Encode(c, v).Some?
    ensures Decode(c, Encode(c, v).value) == Ok(Flattened(v)) <==> Clean(c, Flattened(v))
  {
    FlatteningIsInvisible(c, v);
    RoundTripIff(c, Flattened(v));
  }

  /** How scalars and sets are spelled in the cache. */
  lemma SpelledInTheCache(c: Codec, kind: Kind, id: int, bytes: seq<nat>, elements: set<Scalar>)
    ensures Encode(c, Scalar(Typed(kind, id))) == Some(Object(
      Member("__sf_cache_type__", Atom(Str(match kind
        case DateTime => "datetime" case Date => "date" case Time => "time"
        case TimeDelta => "timedelta" case Decimal => "decimal" case Uuid => "uuid")),
      Member("__sf_cache_value__", Atom(c.show(kind, id)), NoMembers))))
    ensures c.utf8Decode(bytes).Some? ==> Encode(c, Scalar(Bytes(bytes))) == Some(Object(
      Member("__sf_cache_type__", Atom(Str("bytes")),
      Member("__sf_cache_value__", Atom(Str(c.utf8Decode(bytes).value)), NoMembers))))
    ensures EncodeScalars(c, c.listing(elements)).Some? ==> Encode(c, Set(elements)) == Some(Object(
      Member("__sf_cache_type__", Atom(Str("set")),
      Member("__sf_cache_value__", Array(EncodeScalars(c, c.listing(elements)).value), NoMembers))))
  {
  }

  /** A set is rebuilt from whatever can be iterated over: keys of a dictionary, characters, bytes. */
  lemma SetsAreRebuiltFrom(x: Scalar, s: string, bytes: seq<nat>, fields: Fields)
    ensures var o := AsSet(Scalar(Plain(Str(s))));
      o.Built? && o.value.Set? && (x in o.value.elements <==> exists i :: 0 <= i < |s| && x == Plain(Str([s[i]])))
    ensures var o := AsSet(Scalar(Bytes(bytes)));
      o.Built? && o.value.Set? && (x in o.value.elements <==> exists i :: 0 <= i < |bytes| && x == Plain(Int(bytes[i])))
    ensures var o := AsSet(Dict(fields)); o.Built? && o.value.Set? && (x in o.value.elements <==> IsKey(x, fields))
  {
    KeysAreKeys(x, fields);
  }

  predicate IsKey(x: Scalar, fs: Fields) {
    fs.Field? && (x == Plain(Str(fs.key)) || IsKey(x, fs.rest))
  }

  lemma {:induction false} KeysAreKeys(x: Scalar, fs: Fields)
    ensures x in KeysOf(fs) <==> IsKey(x, fs)
  {
    if fs.Field? {
      KeysAreKeys(x, fs.rest);
    }
  }

  /** A plain dictionary with the two keys and a list for a tag comes back as the raw text of the cache entry. */
  lemma ListTagComesBackAsText(c: Codec, x: Value)
    requires Encode(c, x).Some? && Decode(c, Encode(c, x).value) == Ok(x)
    ensures var v := Dict(Field(TYPE_TAG, List(NoValues), Field(VALUE_KEY, x, NoFields)));
      Encode(c, v).Some? && Decode(c, Encode(c, v).value) == Err(RawText)
  {
    var inner := Field(VALUE_KEY, x, NoFields);
    var j := Encode(c, x).value;
    assert EncodeFields(c, inner) == Some(Member(VALUE_KEY, j, NoMembers));
    assert Encode(c, List(NoValues)) == Some(Array(NoJsons));
    assert DecodeFields(c, Member(VALUE_KEY, j, NoMembers)) == Ok(inner);
    assert Decode(c, Array(NoJsons)) == Ok(List(NoValues));
    assert TYPE_TAG != VALUE_KEY;
  }
}
