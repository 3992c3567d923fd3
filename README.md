# MySQL JSON type adapter: a Dafny model

This project models SQLAlchemy's MySQL `JSON` dialect module
(`lib/sqlalchemy/dialects/mysql/json.py`). The module has three parts:

- **Value codec** (`MySqlJson`). `JSON.bind_processor` returns a closure that turns a Python value into a
  column value. The column value is storage NULL, the serializer's text, or that text encoded to bytes.
  `JSON.result_processor` returns the closure that reads a column value back.
  Three different null-like inputs are kept apart:
  - the `JSON.NULL` sentinel, which is always serialized as Python `None`;
  - a SQL `null()` element, which always becomes storage NULL;
  - Python `None`, which becomes storage NULL only when `none_as_null` is set.
- **Single-segment path renderer** (`MySqlJsonPath.IndexPath`). This is `JSONIndexType.bind_processor`:
  an integer renders as `$.[n]` and anything else as `$.<text>`.
- **Multi-segment path renderer** (`MySqlJsonPath.PathExpr`). This is `JSONPathType.bind_processor`:
  integer segments render as `[n]` and keys render verbatim. The pieces are joined with `.` and prefixed with `$.`.

`Decimal` renders an integer as Python's `"%s" % n` does, and also holds its inverse parser.
`Wrappers` holds `Option`.

All of this code is pure, so the model is made of datatypes, functions and lemmas. Foreign code is passed in as
function values and never looked inside: the JSON serializer and deserializer (the dialect's own ones, or
`json.dumps` / `json.loads`), and Python's `str.encode` and `value.decode`. The `util.py2k` check is a boolean
field of `Runtime`. The configuration each closure captures from the dialect and the runtime is a record
(`BindProcessor`, `ResultProcessor`), built by `MakeBindProcessor` and `MakeResultProcessor`. The bind closure
also reads the type's `none_as_null` flag, and it does so on every call, so `Bind` takes the type (`JsonType`) as an
argument instead of a captured copy of the flag.

The path renderers do no escaping. To state what they preserve, the model pairs them with a reader
(`Split`, `ParsePiece`, `ParsePath`, `ParseIndexPath`). Two facts are proved:
- a non-empty path whose keys contain no `.` and do not start with `[` reads back exactly, segment for segment and in order;
- without that condition, distinct paths can render alike (`DottedKeyCollides`, `BracketedKeyCollides`,
  `EmptyKeyCollides`).

The code formats any integer or string segment without raising, so no error for a malformed segment is
modelled for them (other segment types are discussed under "## Left out"). The result processor calls `decode` on
whatever value it gets whenever an encoding is in force, whether the value is bytes or text; the model does the same.

## Model

| member | source | states |
|---|---|---|
| Decimal.NatToString | lib/sqlalchemy/dialects/mysql/json.py:65 | the decimal text of a natural number is non-empty, all digits, one digit exactly below 10, starts with `0` only for 0, and never for a positive number |
| Decimal.IntToString | lib/sqlalchemy/dialects/mysql/json.py:77 | `str(n)` starts with `-` exactly for negative `n`; every other character is a digit; there is no leading zero (the text is `0` itself, or a nonzero digit follows any sign), so with `ParseIntToString` the text is the canonical decimal of `n` |
| Decimal.ParseNatToString | lib/sqlalchemy/dialects/mysql/json.py:65 | reading the digits of `n` back gives `n` |
| Decimal.ParseIntToString | lib/sqlalchemy/dialects/mysql/json.py:65 | reading `str(n)` back gives `n`, so distinct indices render differently |
| MySqlJsonPath.IndexPath | lib/sqlalchemy/dialects/mysql/json.py:63-67 | the output starts with `$.`; a key follows the prefix verbatim; an integer follows it as exactly `[` + `str(n)` + `]`, whose inner text reads back as `n` |
| MySqlJsonPath.PathExpr | lib/sqlalchemy/dialects/mysql/json.py:74-80 | every rendered path starts with `$.` |
| MySqlJsonPath.SingleSegmentAgrees | lib/sqlalchemy/dialects/mysql/json.py:64-80 | a one-segment path renders exactly as the index renderer renders that segment |
| MySqlJsonPath.PiecesAppend | lib/sqlalchemy/dialects/mysql/json.py:76-79 | the list comprehension maps a concatenation of paths to the concatenation of their pieces, one piece per segment in order |
| MySqlJsonPath.Renderings | lib/sqlalchemy/dialects/mysql/json.py:63-80 | concrete outputs: `2` gives `$.[2]`, `-5` gives `$.[-5]`, `0` gives `$.[0]`, `name` gives `$.name`, the path `a`, `2`, `b` gives `$.a.[2].b`, and the empty path gives `$.` |
| MySqlJsonPath.JoinAppend | lib/sqlalchemy/dialects/mysql/json.py:76 | joining a concatenation of non-empty piece lists is the two joins with one dot between |
| MySqlJsonPath.PathAppend | lib/sqlalchemy/dialects/mysql/json.py:75-80 | segment order is preserved: rendering `p + q` is rendering `p`, a dot, then `q`'s pieces |
| MySqlJsonPath.PieceDots | lib/sqlalchemy/dialects/mysql/json.py:77-78 | an index piece contains no dot; a key piece contains exactly the key's dots |
| MySqlJsonPath.SeparatorDots | lib/sqlalchemy/dialects/mysql/json.py:75-80 | a path of k >= 1 segments has exactly k - 1 joining dots after `$.`, besides the dots inside its keys |
| MySqlJsonPath.SplitJoin | lib/sqlalchemy/dialects/mysql/json.py:76 | splitting a dot-join of dot-free pieces on `.` gives the pieces back |
| MySqlJsonPath.ParsePieceOfPiece | lib/sqlalchemy/dialects/mysql/json.py:77-78 | each piece reads back as its segment, unless it is a key starting with `[` |
| MySqlJsonPath.IndexPathRoundTrip | lib/sqlalchemy/dialects/mysql/json.py:64-67 | the index renderer is injective on integers and on keys not starting with `[` |
| MySqlJsonPath.PathRoundTrip | lib/sqlalchemy/dialects/mysql/json.py:75-80 | a non-empty path whose keys have no `.` and no leading `[` reads back from its rendering, in order |
| MySqlJsonPath.DottedKeyCollides | lib/sqlalchemy/dialects/mysql/json.py:78 | keys are not escaped: the key `a.b` renders like the two keys `a`, `b` |
| MySqlJsonPath.BracketedKeyCollides | lib/sqlalchemy/dialects/mysql/json.py:64-67 | keys are not escaped: the key `[0]` renders like the index 0 |
| MySqlJsonPath.EmptyKeyCollides | lib/sqlalchemy/dialects/mysql/json.py:75-80 | the empty path and the path holding one empty key both render as `$.` |
| MySqlJson.MakeBindProcessor | lib/sqlalchemy/dialects/mysql/json.py:24-29 | the serializer is the dialect's when set, else `json.dumps`; the captured encoding is the dialect's on Python 2 and none on Python 3, so it is in force exactly on Python 2 with a non-empty dialect encoding; the encoder is the runtime's `str.encode` |
| MySqlJson.MakeResultProcessor | lib/sqlalchemy/dialects/mysql/json.py:45-50 | the deserializer is the dialect's when set, else `json.loads`; the captured encoding is the dialect's on Python 2 and none on Python 3, the same as the bind factory captures, so it is in force exactly on Python 2 with a non-empty dialect encoding; the decoder is the runtime's `value.decode` |
| MySqlJson.Bind | lib/sqlalchemy/dialects/mysql/json.py:31-41 | storage NULL exactly for SQL `null()` and for `None` under `none_as_null`; `JSON.NULL`, and `None` without the flag, give the serialized `None`; the flag is the type's at the time of the call; any other value gives its serialized, possibly encoded, text |
| MySqlJson.Read | lib/sqlalchemy/dialects/mysql/json.py:52-57 | storage NULL reads as `None`; any other column value reads as the deserialized, possibly decoded, value |
| MySqlJson.NullSentinelIgnoresPolicy | lib/sqlalchemy/dialects/mysql/json.py:32-33 | `JSON.NULL` never gives storage NULL, and its column is the same whatever `none_as_null` says |
| MySqlJson.SqlNullSkipsSerializer | lib/sqlalchemy/dialects/mysql/json.py:34-37 | SQL `null()` gives storage NULL for every serializer, so the serializer is not consulted |
| MySqlJson.NoneAsNullPolicy | lib/sqlalchemy/dialects/mysql/json.py:34-41 | `None` gives storage NULL exactly when `none_as_null` is set; otherwise it writes the same column as `JSON.NULL` |
| MySqlJson.ReadNullSkipsDeserializer | lib/sqlalchemy/dialects/mysql/json.py:53-54 | storage NULL reads as `None` for every deserializer, so the deserializer is not consulted |
| MySqlJson.Python3WritesText | lib/sqlalchemy/dialects/mysql/json.py:26-41 | on Python 3 every non-NULL column written is text, never bytes |
| MySqlJson.Python3ReadsUndecoded | lib/sqlalchemy/dialects/mysql/json.py:47-57 | on Python 3 the column value goes to the deserializer undecoded |
| MySqlJson.DecodedEmit | lib/sqlalchemy/dialects/mysql/json.py:38-57 | when decoding inverts encoding on the serialized text (`CodecReadsBack`, nothing assumed of the deserializer), the read side hands the deserializer exactly the text the serializer alone produced |
| MySqlJson.RoundTrip | lib/sqlalchemy/dialects/mysql/json.py:31-57 | when the deserializer inverts the serializer and decoding inverts encoding on the value actually serialized (nothing is assumed for inputs that give storage NULL), reading back what was bound gives the bound value; every null-like input reads back as `None` |
| MySqlJson.FactoriesShareEncoding | lib/sqlalchemy/dialects/mysql/json.py:26-50 | the bind and result factories built from one dialect and runtime capture the same encoding, the premise the round trip needs |
| MySqlJson.FactoryRoundTrip | lib/sqlalchemy/dialects/mysql/json.py:24-57 | for processors built by the two factories from one dialect and runtime, under the same per-value assumptions as `RoundTrip`, a bound `Other(v)` reads back as `v` and every null-like input reads back as `None` |

## Left out

- The JSON serializer and deserializer, `json.dumps` / `json.loads`, and the `str.encode` / `bytes.decode`
  codecs are foreign code. They are opaque function parameters. Their inverse relationship is an explicit
  requirement of `RoundTrip` (`ReadsBack`), not a proved fact.
- Failures raised by those foreign calls are not modelled. Examples are an unserializable value, malformed JSON,
  and bytes invalid in the encoding. The code neither catches nor wraps them, so they would propagate unchanged.
- The identity test `value is self.NULL` is modelled by a separate datatype case `JsonNullSentinel`.
  `isinstance(value, elements.Null)` is modelled by the case `SqlNull`.
- Segments are limited to `Int | Str`. In Python, `bool` is a subclass of `int`, so `True` would render as `[True]`.
  Any other non-`int` object other than a tuple would render with its `%s` text as a key. A tuple is spread
  over the `%` format: a 1-tuple renders as its single element, and a tuple of any other length raises
  `TypeError`. These segment types are not modelled.
- On Python 2, a `long` is not an `int` for `isinstance`. A `long` index therefore renders as a key
  (`$.<digits>`), not as `$.[<digits>]`. The model follows Python 3's `int`.
- The SQLAlchemy type hierarchy, the dialect object beyond the three attributes read, the way the processors are
  invoked, and where `JSON_EXTRACT` is rendered all live outside this module.
