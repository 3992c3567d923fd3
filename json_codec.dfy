/**
 * The MySQL `JSON` column type's value codec: the closure returned by
 * `JSON.bind_processor` (Python value to column value) and the one
 * returned by `JSON.result_processor` (column value to Python value).
 *
 * The JSON serializer and deserializer, and Python's `str.encode` and
 * `bytes.decode`, are foreign code: they are carried as function values
 * and never looked inside. A Python value handed to the serializer, or
 * produced by the deserializer, is an `Option<V>`: `None` is Python's
 * `None` (the JSON `null` literal) and `Some(v)` any other value `v`.
 */
module MySqlJson {
  import opened Wrappers

  newtype byte = x: int | 0 <= x < 256

  /** A non-NULL column value: text, or the bytes of a text in some character encoding. */
  datatype Scalar = Text(text: string) | Bytes(bytes: seq<byte>)

  /** A column value as the driver exchanges it; `None` is storage NULL. */
  type Column = Option<Scalar>

  /**
   * What the bind processor can be handed: the `JSON.NULL` sentinel, a
   * SQL `null()` element, Python's `None`, or any other value.
   */
  datatype BindInput<V> = JsonNullSentinel | SqlNull | PyNone | Other(v: V)

  /** The parts of the dialect the processors read. */
  datatype Dialect<!V> = Dialect(
    jsonSerializer: Option<Option<V> -> string>,
    jsonDeserializer: Option<Scalar -> Option<V>>,
    encoding: string)

  /**
   * The Python runtime around the processors: whether it is Python 2,
   * the standard library's `json.dumps` and `json.loads`, and the string
   * codecs `str.encode(enc)` and `value.decode(enc)`.
   */
  datatype Runtime<!V> = Runtime(
    py2k: bool,
    dumps: Option<V> -> string,
    loads: Scalar -> Option<V>,
    encode: (string, string) -> seq<byte>,
    decode: (Scalar, string) -> string)

  /** The `mysql.JSON` type object; only its `none_as_null` flag matters here. */
  datatype JsonType = JsonType(noneAsNull: bool)

  /**
   * What the bind `process` closure captures from the dialect and the
   * runtime. The closure also holds the type object itself and reads its
   * `none_as_null` flag anew on every call, so `Bind` takes the type.
   */
  datatype BindProcessor<!V> = BindProcessor(
    serializer: Option<V> -> string,
    encoding: Option<string>,
    encode: (string, string) -> seq<byte>)

  /** What the result `process` closure captures. */
  datatype ResultProcessor<!V> = ResultProcessor(
    deserializer: Scalar -> Option<V>,
    encoding: Option<string>,
    decode: (Scalar, string) -> string)

  /** Python's `if encoding:`: `None` and the empty string are false. */
  predicate Truthy(encoding: Option<string>) {
    encoding.Some? && |encoding.value| > 0
  }

  /** The encoding captured by both factories: the dialect's on Python 2, none on Python 3. */
  function CapturedEncoding<V>(d: Dialect<V>, rt: Runtime<V>): Option<string> {
    if rt.py2k then Some(d.encoding) else None
  }

  /** `JSON.bind_processor`: the dialect's serializer, or `json.dumps` when it has none. */
  function MakeBindProcessor<V>(d: Dialect<V>, rt: Runtime<V>): (p: BindProcessor<V>)
    ensures d.jsonSerializer.Some? ==> p.serializer == d.jsonSerializer.value
    ensures d.jsonSerializer.None? ==> p.serializer == rt.dumps
    ensures rt.py2k ==> p.encoding == Some(d.encoding)
    ensures !rt.py2k ==> p.encoding == None
    ensures Truthy(p.encoding) <==> rt.py2k && |d.encoding| > 0
    ensures p.encode == rt.encode
  {
    BindProcessor(
      if d.jsonSerializer.Some? then d.jsonSerializer.value else rt.dumps,
      CapturedEncoding(d, rt),
      rt.encode)
  }

  /** `JSON.result_processor`: the dialect's deserializer, or `json.loads` when it has none. */
  function MakeResultProcessor<V>(d: Dialect<V>, rt: Runtime<V>): (q: ResultProcessor<V>)
    ensures d.jsonDeserializer.Some? ==> q.deserializer == d.jsonDeserializer.value
    ensures d.jsonDeserializer.None? ==> q.deserializer == rt.loads
    ensures rt.py2k ==> q.encoding == Some(d.encoding)
    ensures !rt.py2k ==> q.encoding == None
    ensures Truthy(q.encoding) <==> rt.py2k && |d.encoding| > 0
    ensures q.decode == rt.decode
  {
    ResultProcessor(
      if d.jsonDeserializer.Some? then d.jsonDeserializer.value else rt.loads,
      CapturedEncoding(d, rt),
      rt.decode)
  }

  /** The serialized text as written: encoded to bytes when an encoding is in force. */
  function Emit<V>(p: BindProcessor<V>, text: string): Scalar {
    if Truthy(p.encoding) then Bytes(p.encode(text, p.encoding.value)) else Text(text)
  }

  /** The Python value the serializer receives, once `JSON.NULL` has been replaced by `None`. */
  function SerializerArgument<V>(value: BindInput<V>): Option<V>
    requires !value.SqlNull?
  {
    if value.Other? then Some(value.v) else None
  }

  /**
   * The bind `process` closure. Storage NULL comes out exactly for a SQL
   * `null()` and for `None` under `none_as_null`; `JSON.NULL` is checked
   * first and always serialized as Python `None`.
   */
  function Bind<V>(p: BindProcessor<V>, t: JsonType, value: BindInput<V>): (r: Column)
    ensures r.None? <==> value.SqlNull? || (value.PyNone? && t.noneAsNull)
    ensures value.JsonNullSentinel? ==> r == Some(Emit(p, p.serializer(None)))
    ensures value.PyNone? && !t.noneAsNull ==> r == Some(Emit(p, p.serializer(None)))
    ensures value.Other? ==> r == Some(Emit(p, p.serializer(Some(value.v))))
  {
    if value.JsonNullSentinel? then
      Some(Emit(p, p.serializer(None)))
    else if value.SqlNull? || (value.PyNone? && t.noneAsNull) then
      None
    else
      Some(Emit(p, p.serializer(SerializerArgument(value))))
  }

  /** The text handed to the deserializer: decoded first when an encoding is in force. */
  function Decoded<V>(q: ResultProcessor<V>, s: Scalar): Scalar {
    if Truthy(q.encoding) then Text(q.decode(s, q.encoding.value)) else s
  }

  /** The result `process` closure: storage NULL reads as `None` without deserializing. */
  function Read<V>(q: ResultProcessor<V>, column: Column): (r: Option<V>)
    ensures column.None? ==> r.None?
    ensures column.Some? ==> r == q.deserializer(Decoded(q, column.value))
  {
    if column.None? then None else q.deserializer(Decoded(q, column.value))
  }

  // ---------------------------------------------------------------------
  // Properties of the codec

  /** `JSON.NULL` is never storage NULL, whatever `none_as_null` says. */
  lemma NullSentinelIgnoresPolicy<V>(p: BindProcessor<V>, t: JsonType)
    ensures Bind(p, t, JsonNullSentinel).Some?
    ensures Bind(p, t, JsonNullSentinel) == Bind(p, t.(noneAsNull := !t.noneAsNull), JsonNullSentinel)
  {
  }

  /** A SQL `null()` gives storage NULL for every serializer: the serializer is not consulted. */
  lemma SqlNullSkipsSerializer<V>(p: BindProcessor<V>, t: JsonType, other: Option<V> -> string)
    ensures Bind(p, t, SqlNull) == None
    ensures Bind(p.(serializer := other), t, SqlNull) == Bind(p, t, SqlNull)
  {
  }

  /** `None` gives storage NULL exactly under `none_as_null`, and otherwise the same column as `JSON.NULL`. */
  lemma NoneAsNullPolicy<V>(p: BindProcessor<V>, t: JsonType)
    ensures Bind(p, t, PyNone).None? <==> t.noneAsNull
    ensures !t.noneAsNull ==> Bind(p, t, PyNone) == Bind(p, t, JsonNullSentinel)
  {
  }

  /** Storage NULL reads as `None` for every deserializer: the deserializer is not consulted. */
  lemma ReadNullSkipsDeserializer<V>(q: ResultProcessor<V>, other: Scalar -> Option<V>)
    ensures Read(q, None) == None
    ensures Read(q.(deserializer := other), None) == Read(q, None)
  {
  }

  /** On Python 3 no encoding is captured, so every non-NULL column written is text. */
  lemma Python3WritesText<V>(t: JsonType, d: Dialect<V>, rt: Runtime<V>, value: BindInput<V>)
    requires !rt.py2k
    ensures var r := Bind(MakeBindProcessor(d, rt), t, value); r.Some? ==> r.value.Text?
  {
  }

  /** On Python 3 the column value goes to the deserializer untouched. */
  lemma Python3ReadsUndecoded<V>(d: Dialect<V>, rt: Runtime<V>, s: Scalar)
    requires !rt.py2k
    ensures Read(MakeResultProcessor(d, rt), Some(s)) == MakeResultProcessor(d, rt).deserializer(s)
  {
  }

  /**
   * The codec half of the round-trip assumption, for the text written for
   * `x`: when an encoding is in force, decoding the encoded text gives it back.
   */
  ghost predicate CodecReadsBack<V>(p: BindProcessor<V>, q: ResultProcessor<V>, x: Option<V>) {
    var text := p.serializer(x);
    Truthy(p.encoding) ==> q.decode(Bytes(p.encode(text, p.encoding.value)), p.encoding.value) == text
  }

  /**
   * The assumption the round trip rests on, for one Python value `x`: the
   * codec half above, and the deserializer inverting the serializer on
   * `x`'s text.
   */
  ghost predicate ReadsBack<V>(p: BindProcessor<V>, q: ResultProcessor<V>, x: Option<V>) {
    CodecReadsBack(p, q, x) && q.deserializer(Text(p.serializer(x))) == x
  }

  /** Decoding on read undoes the encoding applied on write: the deserializer sees the serializer's text. */
  lemma DecodedEmit<V>(p: BindProcessor<V>, q: ResultProcessor<V>, x: Option<V>)
    requires p.encoding == q.encoding && CodecReadsBack(p, q, x)
    ensures Decoded(q, Emit(p, p.serializer(x))) == Text(p.serializer(x))
  {
  }

  /**
   * Round trip: with processors built over the same encoding, and a
   * deserializer and decoder that invert the serializer and encoder on
   * the value written, reading back what was bound gives the Python value
   * bound. Every null-like input reads back as `None`: storage NULL and
   * the JSON `null` literal are both `None` in Python.
   */
  lemma RoundTrip<V>(p: BindProcessor<V>, q: ResultProcessor<V>, t: JsonType, value: BindInput<V>)
    requires p.encoding == q.encoding
    requires value.Other? ==> ReadsBack(p, q, Some(value.v))
    requires value.JsonNullSentinel? || (value.PyNone? && !t.noneAsNull) ==> ReadsBack(p, q, None)
    ensures Read(q, Bind(p, t, value)) == (if value.Other? then Some(value.v) else None)
  {
  }

  /** The two factories, given one dialect and runtime, capture one and the same encoding. */
  lemma FactoriesShareEncoding<V>(d: Dialect<V>, rt: Runtime<V>)
    ensures MakeBindProcessor(d, rt).encoding == MakeResultProcessor(d, rt).encoding
  {
  }

  /** The round trip, for every input, for processors built by the two factories from one dialect and runtime. */
  lemma FactoryRoundTrip<V>(t: JsonType, d: Dialect<V>, rt: Runtime<V>, value: BindInput<V>)
    requires value.Other? ==> ReadsBack(MakeBindProcessor(d, rt), MakeResultProcessor(d, rt), Some(value.v))
    requires value.JsonNullSentinel? || (value.PyNone? && !t.noneAsNull) ==>
      ReadsBack(MakeBindProcessor(d, rt), MakeResultProcessor(d, rt), None)
    ensures Read(MakeResultProcessor(d, rt), Bind(MakeBindProcessor(d, rt), t, value))
      == (if value.Other? then Some(value.v) else None)
  {
    FactoriesShareEncoding(d, rt);
    RoundTrip(MakeBindProcessor(d, rt), MakeResultProcessor(d, rt), t, value);
  }
}
