# xrpl-py: binary-codec base value and the channel_authorize request rule

A Dafny model of two small pieces of the XRP Ledger Python library.

- **`SerializedType`**, the base of every binary-codec field type. It holds an
  immutable byte `buffer` fixed at construction. It exposes the buffer
  (`to_bytes`), its length (`__len__`) and an upper-case hexadecimal rendering
  (`to_hex`, which `to_json` and `to_string` return in the base class). It can
  append the buffer to a caller-owned `bytearray` (`to_byte_sink`).
  `SerializedType` is a class whose `buffer` is a `const`. The `bytearray` is
  the class `ByteSink`, whose `contents` sequence `Extend` grows. `to_hex` is
  modelled as the code writes it, `bytes.hex()` followed by `str.upper()`. It
  is proved equal to the upper-case Base 16 encoding of section 8 of RFC 4648.
  That encoding is proved to have a strict inverse, `Hex.Decode`.
- **`ChannelAuthorize._get_errors`**, the validation rule of the
  `channel_authorize` request. Exactly one of `secret`, `seed`, `seed_hex` and
  `passphrase` must be given. Otherwise the key `"ChannelAuthorize"` is set to
  a fixed message in the errors inherited from the base `Request`. The request
  is a datatype with `Option<string>` fields. The inherited errors are an input
  map. `GetErrors` is a function returning that map, updated at one key or not
  at all. The message is kept character for character, including its unbalanced
  back-quote after `seed`.

Files: `wrappers.dfy` (`Option`), `hex.dfy` (Base 16, `bytes.hex()`,
`str.upper()`), `serialized_type.dfy`, `channel_authorize.dfy`.

## Model

| member | source | states |
|---|---|---|
| `Hex.Encode` | xrpl/binarycodec/types/serialized_type.py:89-96 | the upper-case Base 16 text has exactly two characters per byte, each in 0-9 or A-F |
| `Hex.Decode` | xrpl/binarycodec/types/serialized_type.py:96 | reading hex text two digits at a time gives half as many bytes as characters, and fails on odd length or a non-digit |
| `Hex.DecodeEncode` | xrpl/binarycodec/types/serialized_type.py:96 | decoding the hex text of any byte string gives back that byte string |
| `Hex.EncodeDecode` | xrpl/binarycodec/types/serialized_type.py:96 | any text that decodes is exactly the hex text of what it decodes to |
| `Hex.DecodeIffEncode` | xrpl/binarycodec/types/serialized_type.py:96 | a text decodes to a byte string if and only if it is that byte string's hex text |
| `Hex.EncodeInjective` | xrpl/binarycodec/types/serialized_type.py:96 | distinct byte strings have distinct hex texts |
| `Hex.LowerHex` | xrpl/binarycodec/types/serialized_type.py:96 | `bytes.hex()` writes two lower-case digits per byte |
| `Hex.ToUpper` | xrpl/binarycodec/types/serialized_type.py:96 | `str.upper()` keeps the length, turns each a-z into its capital and leaves every other character alone |
| `Hex.UpperOfLowerHex` | xrpl/binarycodec/types/serialized_type.py:96 | `bytes.hex().upper()` equals the RFC 4648 upper-case Base 16 encoding for every byte string |
| `SerializedTypes.ByteSink.constructor` | xrpl/binarycodec/types/serialized_type.py:49-54 | a fresh sink is empty |
| `SerializedTypes.ByteSink.Extend` | xrpl/binarycodec/types/serialized_type.py:58 | `extend` leaves the sink equal to its old contents followed by the data |
| `SerializedTypes.SerializedType.constructor` | xrpl/binarycodec/types/serialized_type.py:11-13 | the value holds exactly the given buffer; `to_bytes` returns it and the length is its length |
| `SerializedTypes.SerializedType.Default` | xrpl/binarycodec/types/serialized_type.py:11-13 | the default constructor holds the empty buffer: no bytes, length 0, empty hex text |
| `SerializedTypes.SerializedType.ToBytes` | xrpl/binarycodec/types/serialized_type.py:60-67 | the returned bytes are the buffer, which the hex text decodes back to |
| `SerializedTypes.SerializedType.Len` | xrpl/binarycodec/types/serialized_type.py:98-100 | the length is the number of bytes `to_bytes` returns and half the length of the hex text |
| `SerializedTypes.SerializedType.ToHex` | xrpl/binarycodec/types/serialized_type.py:89-96 | the hex text has length twice the buffer's, only 0-9 and A-F, no lower-case letter, is the RFC 4648 encoding and decodes back to the buffer |
| `SerializedTypes.SerializedType.ToJson` | xrpl/binarycodec/types/serialized_type.py:69-78 | in the base class the JSON form is the hex text, so it decodes back to the buffer |
| `SerializedTypes.SerializedType.ToString` | xrpl/binarycodec/types/serialized_type.py:80-87 | the string form is the hex text, so it decodes back to the buffer |
| `SerializedTypes.SerializedType.ToByteSink` | xrpl/binarycodec/types/serialized_type.py:49-58 | the sink ends as its old contents followed by the buffer: its old prefix is kept and it grows by exactly the value's length; nothing but the sink is modified |
| `SerializedTypes.HexDeterminesBuffer` | xrpl/binarycodec/types/serialized_type.py:89-96 | two values with the same hex text hold the same bytes |
| `SerializedTypes.WriteTwice` | xrpl/binarycodec/types/serialized_type.py:49-58 | writing a value twice appends its buffer twice, and the result differs from writing it once exactly when the buffer is non-empty |
| `Requests.Present` | xrpl/models/requests/channel_authorize.py:34-43 | the comprehension keeps exactly the present values and is no longer than its input |
| `Requests.SigningMethods` | xrpl/models/requests/channel_authorize.py:34-43 | the `signing_methods` list has one entry per field among secret, seed, seed_hex and passphrase that is not None, and holds exactly their values |
| `Requests.GetErrors` | xrpl/models/requests/channel_authorize.py:32-48 | with exactly one signing method the result is the base errors unchanged; otherwise `"ChannelAuthorize"` maps to the fixed message; no other key is added and every other base key keeps its value |
| `Requests.NoSigningMethodIsRejected` | xrpl/models/requests/channel_authorize.py:44-47 | with none of the four set, the result is the base errors with `"ChannelAuthorize"` set to the message |
| `Requests.TwoSigningMethodsAreRejected` | xrpl/models/requests/channel_authorize.py:44-47 | with any two of the four set, the result is the base errors with `"ChannelAuthorize"` set to the message |
| `Requests.EmptyStringCounts` | xrpl/models/requests/channel_authorize.py:42 | an empty-string secret alone is accepted: only presence is tested, not content |
| `Requests.OnlyPresenceMatters` | xrpl/models/requests/channel_authorize.py:24-44 | two requests whose four signing fields agree on presence get the same errors, whatever their channel_id, amount, key_type and field contents |
| `Requests.ChannelAuthorize.Method` | xrpl/models/requests/channel_authorize.py:23 | every request names the channel_authorize method and never another member of the method enumeration; it is not a constructor argument |

## Left out

- `from_parser` and `from_value`: abstract class methods that only raise `NotImplementedError`; their parser argument is untyped.
- `SerializedType` is an abstract base class in the source. The model's class can be built directly; subclasses and their overrides of `to_json` (which may return an int) are not part of this model.
- `Hex.ToUpper`: does not model `str.upper()` beyond ASCII letters, because its input here is always the ASCII output of `bytes.hex()`.
- `Hex.Decode`: accepts only upper-case digits and no whitespace, unlike Python's lenient `bytes.fromhex`. It is the reference inverse of the encoding, not a source operation.
- The aliasing of a Python `bytes` buffer with a `bytearray` sink is not modelled: `bytes` is immutable and the buffer is a value.
- `Request._get_errors`, the `REQUIRED` sentinel and the `require_kwargs_on_init` decorator are not part of this model. The base errors are an arbitrary input map, and required fields are plain strings.
- Insertion order of the Python errors dictionary: the model's map is unordered.
- The `frozen=True` dataclass machinery is modelled as an immutable datatype. `field(init=False)` is modelled by `method` not being a constructor argument.
- The `RequestMethod` enumeration's other members are not listed one by one: they are `OtherMethod` with a name.
- The channel_authorize RPC call and the signature the server creates: network I/O and cryptography outside this code.
- The classic-address and X-address codec exercised by tests/addresscodec/test_main.py: its implementation is not part of this model. Base58-check, the double-SHA-256 checksum and the X-address byte layout are therefore not modelled.
