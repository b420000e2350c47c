# Apache Thrift 0.12: protocols, transports and services, modelled and proved

This project models the parts of Apache Thrift 0.12.0 in which bytes, field states and threads have to
fit together: the Go compact, binary and JSON protocols and the generic `Skip`, the Go framed transport
and simple server, fb303's `StableVector` and counters, and the Tornado transport of the Python library.
Each is stated as its code behaves, and the properties that callers rely on are proved for all values,
all byte strings, all buffer sizes and all interleavings.

How it is laid out:

- `Options`, `Words`, `Varint`, `Values` — optional values, machine words and their bits, varint and
  zigzag arithmetic, Thrift values.
- `Wire`, `Trees`, `RoundTrip`, `Skipping`, `SkipLimits`, `SkipErrors`, `ReadPrefix`, `Samples` — compact
  and binary: what is written, what readers make of any bytes, the round trip, skipping, input cut short, and
  literal bytes.
- `CompactProtocol`, `BinaryProtocol`, `Protocol`, `Generated` — the protocol objects themselves, with
  their fields, scratch buffers and loops; the interface with `Skip`; writing and reading whole values
  as generated code does.
- `Utf8`, `JsonText`, `JsonWire`, `JsonTrees`, `JsonSpacing`, `JsonTokens`, `JsonRoundTrip`, `JsonTight`,
  `JsonSamples`, `JsonErrors`, `JsonProtocol`, `JsonGenerated`, `JsonGrammar` — the JSON protocol in the
  same order, its texts with white space, what is refused, and the grammar of its output.
- `StableVector`, `LevelGrowth`, `Counters`, `SimpleServer`, `Tornado` — a class or a state machine per
  component; a concurrent component takes one step of one thread at a time.
- `Frames`, `FramedTransport`, `FramedStream` — length-prefixed frames.

A protocol object works over a memory buffer: writes append and reads take from the front. Methods of a
class are proved against functions of the old state; the lemmas are about those functions. A `trace` or
`marks` is a history of the context stack, or of the field-id state, after each token or field.

Where the code departs from what its documentation or its callers expect, the model follows the code:

- `readVarint64` has no cap on the number of bytes, although its comment speaks of at most ten
  (`AnyLengthIsRead`, `ElevenByteVarint`); it takes at most ten exactly when one of the first ten ends
  the varint (`VarintWithinTenIff`).
- `Skip` drops the errors of `ReadFieldBegin` and of map values and passes over anything of type STOP. It
  succeeds without meeting any of these exactly on bytes that read as a value within the depth limit
  (`SkipReadsIff`). Otherwise its success says less: a struct may end at a header that errs
  (`CutStructSkipIff`, `UnknownCodeEndsStruct`, `CutHeaderEndsStruct`), input may end in a struct or a map
  (`SkipNothingIff`, `CutMapSkipped`), and elements of type STOP take no bytes (`StopElementsSkipIff`).
- `Skip` judges map values afresh against a depth of 64. On encodings it consumes every value within the
  limit (`SkipEncoded`); a value past it, with no map value past its own, it refuses with some of the value
  unread (`SkipEncodedTooDeep`). A map all of whose entries fit but for the last value, in which no map
  value is past its own limit, is reported as skipped while Skip stands inside that value
  (`SkipMapExactIff`); a value of more than 64 nested lists is such a one (`SkipDeepMapIff`,
  `SkipLosesPlace`). When a too deep map value is not the last, the bytes left of it are read as what comes
  next, and Skip may by accident end where the map does (`SkipFindsPlaceAgain`).
- A JSON string whose text does not unquote is an error if it holds an escaped quote and reads as empty
  otherwise (`StringBodyFailsIff`, `BadEscapeReadsAsEmpty`). A second quote does not end a quoted number
  (`QuotedNumberIff`, `QuoteInsideNumber`). `safePeekContains` indexes past a text that stops inside
  `null`; the model returns an error `IndexPanic` there (`PeekPanicsIff`). A null where a container should
  be closed is taken for its end (`NullAtClose`).
- White space may stand between any two tokens but between the braces of a struct without fields, where it
  is an error (`EmptyStructFails`, `SpacedReadsIff`).
- `OutputNull` does not quote its literal where a key belongs (`KeyIsStringIff`), and a run of output calls
  writes JSON exactly when it is never called there (`RunIsJson`, `NullKeyIsNotJson`).
- A string that is not valid UTF-8 is written with replacement characters (`ComesBackIff`,
  `StrayByteComesBack`).
- A framed `Read` that steps over an empty frame onto an oversized header returns bytes of no frame
  without an error (`ReadConserves`, `StrayByte`).
- A compact message type is reduced to three bits (`ReadMessageOf`).

## Model

| member | source | states |
|---|---|---|
| Varint.DigitsAreVarint | Project-2/thrift-0.12.0/lib/go/thrift/compact_protocol.go:629-667 | what the varint writers emit has its top bit clear in the last byte and in no other |
| Varint.DigitsShortest | Project-2/thrift-0.12.0/lib/go/thrift/compact_protocol.go:629-667 | no varint of the same value is shorter, and the shortest is unique |
| Varint.DigitsBounds | Project-2/thrift-0.12.0/lib/go/thrift/compact_protocol.go:629-667 | a 32-bit word takes at most 5 varint bytes, a 64-bit word at most 10 |
| Varint.UndigitsOfDigits | Project-2/thrift-0.12.0/lib/go/thrift/compact_protocol.go:715-730 | reading the varint of any number, whatever follows, gives the number and leaves exactly what follows |
| Varint.ReadStep | Project-2/thrift-0.12.0/lib/go/thrift/compact_protocol.go:715-730 | or-ing in seven more bits keeps the 64-bit accumulator equal to the value read so far modulo 2^64, also once the shift passes 64 |
| Varint.ConsumedWithinIff | Project-2/thrift-0.12.0/lib/go/thrift/compact_protocol.go:715-730 | reading a varint takes at most k bytes if and only if one of the first k has its top bit clear, and runs out of input if and only if no byte has |
| Varint.AnyLengthIsRead | Project-2/thrift-0.12.0/lib/go/thrift/compact_protocol.go:715-730 | a varint is read however many bytes it has: any number of continued bytes may come before its last |
| Trees.VarintWithinTenIff | Project-2/thrift-0.12.0/lib/go/thrift/compact_protocol.go:713-730 | what the reader's comment says, exactly: on any bytes, a varint that is read takes at most ten if and only if one of the first ten ends it |
| Trees.ElevenByteVarint | Project-2/thrift-0.12.0/lib/go/thrift/compact_protocol.go:713-730 | an eleven-byte varint is read as zero without an error |
| Varint.EncodeIsZigZag32 | Project-2/thrift-0.12.0/lib/go/thrift/compact_protocol.go:677-679 | the 32-bit shift and xor is the arithmetic zigzag map, for every int32 |
| Varint.EncodeIsZigZag64 | Project-2/thrift-0.12.0/lib/go/thrift/compact_protocol.go:671-673 | the same for every int64 |
| Varint.DecodeIsUnZigZag32 | Project-2/thrift-0.12.0/lib/go/thrift/compact_protocol.go:742-745 | the 32-bit decoder is the arithmetic inverse, for every int32 |
| Varint.DecodeIsUnZigZag64 | Project-2/thrift-0.12.0/lib/go/thrift/compact_protocol.go:748-751 | the same for every int64 |
| Varint.ZigZagRoundTrip32 | Project-2/thrift-0.12.0/lib/go/thrift/compact_protocol.go:677-745 | 32-bit encoder and decoder undo each other in both orders |
| Varint.ZigZagRoundTrip64 | Project-2/thrift-0.12.0/lib/go/thrift/compact_protocol.go:671-751 | 64-bit encoder and decoder undo each other in both orders |
| Varint.ZigZagLength | Project-2/thrift-0.12.0/lib/go/thrift/compact_protocol.go:671-680 | n takes at most k varint bytes if and only if n lies in [-2^(7k-1), 2^(7k-1)) |
| Words.LittleEndianRoundTrip | Project-2/thrift-0.12.0/lib/go/thrift/compact_protocol.go:681-765 | the eight bytes of a compact double give the word back |
| Words.BigEndianRoundTrip | Project-2/thrift-0.12.0/lib/go/thrift/binary_protocol.go:192-215 | the big-endian bytes of a word of any width give it back |
| CompactProtocol.TCompactProtocol.WriteVarint32 | Project-2/thrift-0.12.0/lib/go/thrift/compact_protocol.go:629-648 | the loop over the scratch buffer ends within 5 bytes, inside the buffer, and writes exactly the varint of the word |
| CompactProtocol.TCompactProtocol.WriteVarint64 | Project-2/thrift-0.12.0/lib/go/thrift/compact_protocol.go:651-667 | the same within 10 bytes |
| CompactProtocol.TCompactProtocol.ReadVarint64 | Project-2/thrift-0.12.0/lib/go/thrift/compact_protocol.go:715-730 | on any bytes, the loop consumes up to and including the first byte with a clear top bit and returns the value modulo 2^64, or consumes everything and fails |
| CompactProtocol.TCompactProtocol.ReadVarint32 | Project-2/thrift-0.12.0/lib/go/thrift/compact_protocol.go:706-711 | the low 32 bits of what ReadVarint64 finds |
| CompactProtocol.TCompactProtocol.WriteMessageBegin | Project-2/thrift-0.12.0/lib/go/thrift/compact_protocol.go:128-144 | appends the protocol id, version and type byte, sequence number and name |
| CompactProtocol.TCompactProtocol.ReadMessageBegin | Project-2/thrift-0.12.0/lib/go/thrift/compact_protocol.go:332-363 | on any bytes, result, error and consumption of reading a message header |
| CompactProtocol.TCompactProtocol.WriteStructBegin | Project-2/thrift-0.12.0/lib/go/thrift/compact_protocol.go:151-155 | pushes the last field id and starts again at zero |
| CompactProtocol.TCompactProtocol.WriteStructEnd | Project-2/thrift-0.12.0/lib/go/thrift/compact_protocol.go:160-164 | gives the interrupted id back; the caller owes a struct begun |
| CompactProtocol.TCompactProtocol.WriteFieldBegin | Project-2/thrift-0.12.0/lib/go/thrift/compact_protocol.go:166-174 | a bool field waits with its id, any other field sends its header |
| CompactProtocol.TCompactProtocol.WriteFieldBeginInternal | Project-2/thrift-0.12.0/lib/go/thrift/compact_protocol.go:179-214 | the header is one byte with the delta when that is 1 to 15 and the code with the whole id otherwise, and the id becomes the last one |
| CompactProtocol.TCompactProtocol.WriteBool | Project-2/thrift-0.12.0/lib/go/thrift/compact_protocol.go:254-268 | a waiting field is sent with the value in its type code and nothing more; otherwise one byte |
| CompactProtocol.TCompactProtocol.WriteMapBegin | Project-2/thrift-0.12.0/lib/go/thrift/compact_protocol.go:223-234 | an empty map is one zero byte; otherwise the size as the varint of its 32 bits, whatever its sign, and a byte with both type codes |
| CompactProtocol.TCompactProtocol.WriteCollectionBegin | Project-2/thrift-0.12.0/lib/go/thrift/compact_protocol.go:615-625 | for every int: up to 14, negative sizes too, the low four bits share the type byte; beyond that the size follows |
| CompactProtocol.TCompactProtocol.WriteListBegin | Project-2/thrift-0.12.0/lib/go/thrift/compact_protocol.go:239-242 | writes the collection header |
| CompactProtocol.TCompactProtocol.WriteSetBegin | Project-2/thrift-0.12.0/lib/go/thrift/compact_protocol.go:247-250 | writes the collection header |
| CompactProtocol.TCompactProtocol.WriteI16 | Project-2/thrift-0.12.0/lib/go/thrift/compact_protocol.go:277-280 | appends the varint of the zigzag of the value |
| CompactProtocol.TCompactProtocol.WriteI32 | Project-2/thrift-0.12.0/lib/go/thrift/compact_protocol.go:283-286 | the same |
| CompactProtocol.TCompactProtocol.WriteI64 | Project-2/thrift-0.12.0/lib/go/thrift/compact_protocol.go:289-292 | the same in 64 bits |
| CompactProtocol.TCompactProtocol.WriteDouble | Project-2/thrift-0.12.0/lib/go/thrift/compact_protocol.go:295-300 | appends the word in little-endian order, through the scratch buffer |
| CompactProtocol.TCompactProtocol.WriteString | Project-2/thrift-0.12.0/lib/go/thrift/compact_protocol.go:303-312 | appends the length as an unsigned varint, not zigzagged, and the bytes |
| CompactProtocol.TCompactProtocol.ReadStructBegin | Project-2/thrift-0.12.0/lib/go/thrift/compact_protocol.go:369-373 | pushes the last field id and starts again at zero |
| CompactProtocol.TCompactProtocol.ReadStructEnd | Project-2/thrift-0.12.0/lib/go/thrift/compact_protocol.go:377-382 | gives the interrupted id back; the caller owes a struct begun |
| CompactProtocol.TCompactProtocol.ReadFieldBegin | Project-2/thrift-0.12.0/lib/go/thrift/compact_protocol.go:385-424 | on any bytes: type, id, error and new field state, by delta or in full, with the value of a bool field kept aside |
| CompactProtocol.TCompactProtocol.ReadMapBegin | Project-2/thrift-0.12.0/lib/go/thrift/compact_protocol.go:431-453 | on any bytes; unknown type codes pass as STOP and a negative size is refused |
| CompactProtocol.TCompactProtocol.ReadListBegin | Project-2/thrift-0.12.0/lib/go/thrift/compact_protocol.go:461-485 | on any bytes; an unknown type code or a negative size is an error |
| CompactProtocol.TCompactProtocol.ReadSetBegin | Project-2/thrift-0.12.0/lib/go/thrift/compact_protocol.go:493-495 | the same for sets |
| CompactProtocol.TCompactProtocol.ReadBool | Project-2/thrift-0.12.0/lib/go/thrift/compact_protocol.go:502-509 | a kept field value is used up without reading; otherwise a byte |
| CompactProtocol.TCompactProtocol.ReadI16 | Project-2/thrift-0.12.0/lib/go/thrift/compact_protocol.go:521-524 | the zigzag value read, truncated to 16 bits |
| CompactProtocol.TCompactProtocol.ReadI32 | Project-2/thrift-0.12.0/lib/go/thrift/compact_protocol.go:527-534 | the zigzag value of a 32-bit varint |
| CompactProtocol.TCompactProtocol.ReadI64 | Project-2/thrift-0.12.0/lib/go/thrift/compact_protocol.go:537-544 | the zigzag value of a 64-bit varint |
| CompactProtocol.TCompactProtocol.ReadDouble | Project-2/thrift-0.12.0/lib/go/thrift/compact_protocol.go:547-554 | eight little-endian bytes, or an error |
| CompactProtocol.TCompactProtocol.ReadString | Project-2/thrift-0.12.0/lib/go/thrift/compact_protocol.go:557-577 | on any bytes: a negative length is refused, otherwise exactly that many bytes are taken, or an error |
| Wire.CompactType | Project-2/thrift-0.12.0/lib/go/thrift/compact_protocol.go:60-75 | each type has a compact code of its own, which getTType maps back |
| Trees.CompactHeaderOf | Project-2/thrift-0.12.0/lib/go/thrift/compact_protocol.go:179-424 | a field header, by delta or in full, gives back id and type, moves the last id, and keeps a bool value aside |
| Trees.ReadMapBeginOf | Project-2/thrift-0.12.0/lib/go/thrift/compact_protocol.go:223-453 | a map header comes back, except that an empty compact map has STOP for both types |
| Trees.ListSizeSurvivesIff | Project-2/thrift-0.12.0/lib/go/thrift/compact_protocol.go:461-625 | for every int, a list or set header gives type and size back if and only if the size is from 0 to 2^31 - 1 |
| Trees.ReadMessageOf | Project-2/thrift-0.12.0/lib/go/thrift/compact_protocol.go:128-363 | a compact message header comes back with its type modulo 8, so exactly the types 0 to 7 survive |
| Trees.LongHeaderOf | Project-2/thrift-0.12.0/lib/go/thrift/compact_protocol.go:385-424 | the long form of a field header is read after any last id, also where the short one would do |
| Trees.LongListOf | Project-2/thrift-0.12.0/lib/go/thrift/compact_protocol.go:461-485 | the long form of a list header is read for every size, also up to 14 |
| Trees.BoolByteOf | Project-2/thrift-0.12.0/lib/go/thrift/compact_protocol.go:502-509 | a byte reads as true if and only if it is 1, in both protocols |
| Trees.UnknownCodesOf | Project-2/thrift-0.12.0/lib/go/thrift/compact_protocol.go:431-485 | a type code above 12 is an error in a list header and passes for STOP in a map header |
| Samples.CompactCodes | Project-2/thrift-0.12.0/lib/go/thrift/compact_protocol.go:41-75 | the literal first byte of a compact list of three of each type, and of a bool field of either value |
| Samples.CompactFieldCode | Project-2/thrift-0.12.0/lib/go/thrift/compact_protocol.go:179-214 | any other field carries the same code in its delta header |
| Samples.CompactValues | Project-2/thrift-0.12.0/lib/go/thrift/compact_protocol.go:128-312 | literal compact bytes of small values, long and short headers and a message |
| Samples.BinaryCodes | Project-2/thrift-0.12.0/lib/go/thrift/binary_protocol.go:119-161 | the literal type byte and size of a binary list of each type |
| Samples.BinaryFieldCode | Project-2/thrift-0.12.0/lib/go/thrift/binary_protocol.go:119-126 | a field carries the same type byte, and its id high byte first |
| Samples.BinaryValues | Project-2/thrift-0.12.0/lib/go/thrift/binary_protocol.go:137-224 | literal binary bytes of small values |
| Samples.Doubles | Project-2/thrift-0.12.0/lib/go/thrift/compact_protocol.go:295-300 | the low byte of a double comes first in compact and last in binary |
| BinaryProtocol.TBinaryProtocol.WriteFieldBegin | Project-2/thrift-0.12.0/lib/go/thrift/binary_protocol.go:119-126 | appends the type and the id in two bytes |
| BinaryProtocol.TBinaryProtocol.WriteMapBegin | Project-2/thrift-0.12.0/lib/go/thrift/binary_protocol.go:137-148 | appends both types and the size, any int, as an int32 |
| BinaryProtocol.TBinaryProtocol.WriteListBegin | Project-2/thrift-0.12.0/lib/go/thrift/binary_protocol.go:154-161 | appends the type and the size, any int, as an int32 |
| BinaryProtocol.TBinaryProtocol.WriteI16 | Project-2/thrift-0.12.0/lib/go/thrift/binary_protocol.go:192-197 | appends two big-endian bytes through the scratch buffer |
| BinaryProtocol.TBinaryProtocol.WriteI32 | Project-2/thrift-0.12.0/lib/go/thrift/binary_protocol.go:199-204 | four bytes |
| BinaryProtocol.TBinaryProtocol.WriteI64 | Project-2/thrift-0.12.0/lib/go/thrift/binary_protocol.go:206-211 | eight bytes |
| BinaryProtocol.TBinaryProtocol.WriteString | Project-2/thrift-0.12.0/lib/go/thrift/binary_protocol.go:217-224 | appends the length as an int32 and the bytes |
| BinaryProtocol.TBinaryProtocol.ReadFieldBegin | Project-2/thrift-0.12.0/lib/go/thrift/binary_protocol.go:291-301 | on any bytes: a type is returned even beside an error in the id |
| BinaryProtocol.TBinaryProtocol.ReadMapBegin | Project-2/thrift-0.12.0/lib/go/thrift/binary_protocol.go:309-333 | on any bytes; a negative size is refused |
| BinaryProtocol.TBinaryProtocol.ReadListBegin | Project-2/thrift-0.12.0/lib/go/thrift/binary_protocol.go:339-358 | on any bytes; a negative size is refused |
| BinaryProtocol.TBinaryProtocol.ReadI16 | Project-2/thrift-0.12.0/lib/go/thrift/binary_protocol.go:402-407 | two bytes through the scratch buffer, or an error that uses up what there was |
| BinaryProtocol.TBinaryProtocol.ReadI32 | Project-2/thrift-0.12.0/lib/go/thrift/binary_protocol.go:409-414 | four bytes |
| BinaryProtocol.TBinaryProtocol.ReadI64 | Project-2/thrift-0.12.0/lib/go/thrift/binary_protocol.go:416-421 | eight bytes |
| BinaryProtocol.TBinaryProtocol.ReadString | Project-2/thrift-0.12.0/lib/go/thrift/binary_protocol.go:430-441 | on any bytes: a negative length is refused, otherwise exactly that many bytes or an error |
| BinaryProtocol.TBinaryProtocol.ReadStringBody | Project-2/thrift-0.12.0/lib/go/thrift/binary_protocol.go:477-509 | for every size, through all three choices of buffer and at multiples of 32768, exactly the first size bytes are returned and consumed, or the rest is used up and an error returned; no slice leaves its array |
| RoundTrip.ValueBack | Project-2/thrift-0.12.0/lib/go/thrift/compact_protocol.go:128-595 | round trip of every well-typed value in both protocols, whatever follows: the same tree (an empty compact map with STOP types), exactly the bytes that follow left, stack, last id and flags restored, and the writer's field-id states passed through |
| RoundTrip.FieldsBack | Project-2/thrift-0.12.0/lib/go/thrift/compact_protocol.go:151-424 | the fields of a struct, in any order of ids, come back, and the compact last id is in step with the writer's after each of them |
| RoundTrip.StructBack | Project-2/thrift-0.12.0/lib/go/thrift/compact_protocol.go:151-382 | a struct comes back and gives the outer struct its last id again |
| RoundTrip.ListBack | Project-2/thrift-0.12.0/lib/go/thrift/compact_protocol.go:239-495 | lists and sets come back with every element |
| RoundTrip.MapBack | Project-2/thrift-0.12.0/lib/go/thrift/compact_protocol.go:223-453 | maps come back with every entry in order |
| Generated.WriteValue | Project-2/thrift-0.12.0/lib/go/thrift/compact_protocol.go:151-325 | writing any value through either protocol adds exactly its encoding and its field-id states |
| Generated.ReadValue | Project-2/thrift-0.12.0/lib/go/thrift/compact_protocol.go:369-577 | reading a value through either protocol object is, on any bytes, the reading that the round trip speaks of |
| Generated.ReadStruct | Project-2/thrift-0.12.0/lib/go/thrift/compact_protocol.go:369-382 | on any bytes, the end of a struct finds the id that its beginning pushed: the stack is never popped empty |
| Generated.ValueKeepsStack | Project-2/thrift-0.12.0/lib/go/thrift/compact_protocol.go:151-214 | on any bytes, a value that reads without error leaves the field stack as it was |
| Generated.WriteThenRead | Project-2/thrift-0.12.0/lib/go/thrift/compact_protocol.go:128-595 | one protocol object writes any value and another reads it back with any bytes after it: tree, rest and field-id states agree |
| ReadPrefix.ReadExtends | Project-2/thrift-0.12.0/lib/go/thrift/compact_protocol.go:369-595 | on any bytes and in both protocols: unless reading a value hits the end of its input, more input changes nothing but what is left, whether it succeeds or fails |
| ReadPrefix.CutShortIsEnd | Project-2/thrift-0.12.0/lib/go/thrift/compact_protocol.go:369-595 | the encoding of any value, cut short anywhere, fails to read with the end of the input |
| ReadPrefix.EncodingsDelimit | Project-2/thrift-0.12.0/lib/go/thrift/compact_protocol.go:128-325 | no encoding is the beginning of another of the same type |
| Protocol.TProtocol.Skip | Project-2/thrift-0.12.0/lib/go/thrift/protocol.go:92-179 | on any bytes and in both protocols Skip ends, with calls nested no deeper than there are unread bytes although map values restart the depth and errors are dropped, and does what the function Skipping.Skip says |
| Protocol.TProtocol.SkipDefaultDepth | Project-2/thrift-0.12.0/lib/go/thrift/protocol.go:87-89 | Skip with depth 64 |
| Protocol.TProtocol.SkipStruct | Project-2/thrift-0.12.0/lib/go/thrift/protocol.go:122-137 | the loop over fields, which looks only at the type that ReadFieldBegin returns |
| Protocol.TProtocol.SkipMap | Project-2/thrift-0.12.0/lib/go/thrift/protocol.go:138-150 | the loop over entries, which drops the error of a value and skips it at depth 64 |
| Protocol.TProtocol.SkipList | Project-2/thrift-0.12.0/lib/go/thrift/protocol.go:151-174 | the loops over list and set elements |
| Protocol.TProtocol.SkipScalar | Project-2/thrift-0.12.0/lib/go/thrift/protocol.go:101-121 | one scalar is read, and an unknown type is an error |
| Skipping.SkipIsRead | Project-2/thrift-0.12.0/lib/go/thrift/protocol.go:92-179 | on any bytes that read as a value within the depth limit, skipping succeeds and leaves the reader exactly where reading would |
| SkipLimits.SkipEncoded | Project-2/thrift-0.12.0/lib/go/thrift/protocol.go:92-179 | on the encoding of any value within the limit, map values judged afresh, Skip succeeds, consumes exactly the encoding and restores stack, last id and flags |
| SkipLimits.SkipSucceedsIff | Project-2/thrift-0.12.0/lib/go/thrift/protocol.go:92-179 | when no map value exceeds its fresh limit, Skip succeeds if and only if the value is within the depth limit |
| SkipLimits.SkipTooDeep | Project-2/thrift-0.12.0/lib/go/thrift/protocol.go:92-179 | on any bytes that read as a value past the limit, with no map value past its own, Skip reports the depth limit and, unless a bool field's value is held, stops before the end of the value |
| SkipLimits.SkipEncodedTooDeep | Project-2/thrift-0.12.0/lib/go/thrift/protocol.go:92-179 | on the encoding of any value past the limit, with no map value past its own, Skip reports the depth limit and leaves some of the value unread |
| SkipLimits.SkipEntriesExactIff | Project-2/thrift-0.12.0/lib/go/thrift/protocol.go:138-150 | on any bytes that read as entries all of which fit but perhaps for the last value, the loop reports success, and stands where reading would if and only if that value fits its fresh limit; if not, it stops before the end |
| SkipLimits.SkipReadMapExactIff | Project-2/thrift-0.12.0/lib/go/thrift/protocol.go:138-150 | the same on any bytes that read as a whole map |
| SkipLimits.SkipMapExactIff | Project-2/thrift-0.12.0/lib/go/thrift/protocol.go:138-150 | on the encoding of any map all of whose entries fit but perhaps for the last value, in both protocols, Skip reports success and consumes exactly the map if and only if that value fits its fresh limit |
| SkipLimits.SkipDeepMapIff | Project-2/thrift-0.12.0/lib/go/thrift/protocol.go:138-150 | from a depth limit of 2 on, a map whose one value is nested lists is consumed if and only if there are at most 64 of them, and reported as skipped either way |
| SkipLimits.SkipLosesPlace | Project-2/thrift-0.12.0/lib/go/thrift/protocol.go:143-149 | for that map with more than 64 nested lists, in both protocols: Skip reports success and stands at the header of the 65th |
| SkipLimits.SkipFindsPlaceAgain | Project-2/thrift-0.12.0/lib/go/thrift/protocol.go:138-150 | a map of two entries, the first value one list too deep, on which Skip ends exactly where the map does: success and position do not tell that every value fitted |
| SkipErrors.SkippedReads | Project-2/thrift-0.12.0/lib/go/thrift/protocol.go:92-179 | the converse of SkipIsRead on any bytes: if Skip succeeds and on its way no field header errs, no map value fails and nothing has type STOP, the bytes read as a value within the depth limit, and reading ends in the same state |
| SkipErrors.ReadingDropsNothing | Project-2/thrift-0.12.0/lib/go/thrift/protocol.go:92-179 | on any bytes that read as a value within the limit, Skip meets no such error and no STOP |
| SkipErrors.SkipReadsIff | Project-2/thrift-0.12.0/lib/go/thrift/protocol.go:92-179 | hence, on any bytes, types and depths: Skip succeeds without dropping an error if and only if the bytes read as a value within the limit, and then both end in the same state |
| SkipErrors.BadHeaderIff | Project-2/thrift-0.12.0/lib/go/thrift/compact_protocol.go:385-424 | a field header errs if and only if there are no bytes, the id is cut short or, in compact, the type code is above 12 |
| SkipErrors.BadHeaderSkipIff | Project-2/thrift-0.12.0/lib/go/thrift/protocol.go:126-137 | at such a header reading always fails, and Skip takes it for the end of the struct if and only if the protocol is compact, there are no bytes, or what is cut short is a binary struct field that there is depth for |
| SkipErrors.CutStructSkipIff | Project-2/thrift-0.12.0/lib/go/thrift/protocol.go:122-137 | on the encoding of any fields within the limit without the stop byte, followed by any bytes whose header errs: reading the struct always fails, and Skip reports it as skipped, up to the end of that header, if and only if that condition holds there |
| SkipErrors.UnknownCodeEndsStruct | Project-2/thrift-0.12.0/lib/go/thrift/protocol.go:126-130 | a compact struct that begins with the unknown type code 13 is reported as skipped after one byte, and does not read |
| SkipErrors.CutHeaderEndsStruct | Project-2/thrift-0.12.0/lib/go/thrift/protocol.go:126-130 | so is a binary struct of the single byte that announces a struct field |
| SkipErrors.SkipNothingIff | Project-2/thrift-0.12.0/lib/go/thrift/protocol.go:92-179 | on empty input Skip succeeds if and only if there is depth and the type is STOP or a struct or a compact bool that a field header held; reading succeeds on the last of these alone |
| SkipErrors.CutMapSkipped | Project-2/thrift-0.12.0/lib/go/thrift/protocol.go:138-150 | a map whose entries fit and whose input ends after its last key is reported as skipped in both protocols, and does not read |
| SkipErrors.StopElementsSkipIff | Project-2/thrift-0.12.0/lib/go/thrift/protocol.go:98-99 | any number of elements or entries of type STOP is passed over without reading a byte if and only if there is depth for one, where reading refuses the first |
| SkipErrors.UnknownTypeRefused | Project-2/thrift-0.12.0/lib/go/thrift/protocol.go:92-179 | a type that is none is refused by reading, and by Skip unless it is STOP, without taking a byte |
| Utf8.DecodeEncode | Project-2/thrift-0.12.0/lib/go/thrift/simple_json_protocol.go:143-153 | every rune decodes from its own UTF-8, whatever follows |
| Utf8.SanitizeIff | Project-2/thrift-0.12.0/lib/go/thrift/simple_json_protocol.go:143-153 | replacing broken bytes changes nothing exactly in valid UTF-8 |
| Utf8.StrayByteReplaced | Project-2/thrift-0.12.0/lib/go/thrift/simple_json_protocol.go:143-153 | the byte 0xFF is not UTF-8 and is replaced by the three bytes of the replacement character |
| JsonText.UnquoteQuote | Project-2/thrift-0.12.0/lib/go/thrift/simple_json_protocol.go:143-153 | unquoting a quoted string gives it back with broken bytes replaced, hence unchanged if and only if it is valid UTF-8 |
| JsonText.QuoteIsString | Project-2/thrift-0.12.0/lib/go/thrift/simple_json_protocol.go:143-147 | every byte string is quoted as a string of section 7 of RFC 8259 |
| JsonText.ParseFormat | Project-2/thrift-0.12.0/lib/go/thrift/simple_json_protocol.go:664-947 | every int64 is parsed back from its decimal text |
| JsonText.FormatIsNumber | Project-2/thrift-0.12.0/lib/go/thrift/simple_json_protocol.go:664-678 | that text is a number of section 6 of RFC 8259 |
| JsonText.SplitIsAutomaton | Project-2/thrift-0.12.0/lib/go/thrift/simple_json_protocol.go:852-907 | on every byte sequence, splitting at quotes and testing the parity of trailing backslashes stops at the quote that a left-to-right escape automaton stops at |
| JsonText.EndOfQuoted | Project-2/thrift-0.12.0/lib/go/thrift/simple_json_protocol.go:852-883 | a quoted string ends at its own closing quote, whatever follows |
| JsonText.UnquoteIff | Project-2/thrift-0.12.0/lib/go/thrift/simple_json_protocol.go:149-153 | text is unquoted if and only if every backslash in it begins one of JSON's escapes, surrogates in pairs or not, and no quote or control character stands by itself |
| JsonProtocol.TJSONProtocol.CountEscapes | Project-2/thrift-0.12.0/lib/go/thrift/simple_json_protocol.go:857-891 | the loop finds the number of backslashes before the quote, plus one |
| JsonProtocol.TJSONProtocol.ParseQuotedStringBody | Project-2/thrift-0.12.0/lib/go/thrift/simple_json_protocol.go:885-907 | the recursion returns exactly the bytes through the quote at which the automaton ends and consumes just those, or everything and an error |
| JsonProtocol.TJSONProtocol.ParseStringBody | Project-2/thrift-0.12.0/lib/go/thrift/simple_json_protocol.go:852-883 | the unquoted string up to that quote; a malformed one is an error after an escaped quote and empty otherwise |
| JsonWire.StringBodyFailsIff | Project-2/thrift-0.12.0/lib/go/thrift/simple_json_protocol.go:852-883 | on any text, reading a string fails if and only if it has no closing quote, or is badly escaped and holds an escaped quote; badly escaped text without one reads as empty, and any other as what it says |
| JsonWire.BadEscapeReadsAsEmpty | Project-2/thrift-0.12.0/lib/go/thrift/simple_json_protocol.go:868-882 | the text \x before a closing quote reads as the empty string without an error |
| JsonWire.TypeNames | Project-2/thrift-0.12.0/lib/go/thrift/json_protocol.go:526-584 | the two name tables are inverse to each other and name exactly the types |
| JsonProtocol.TJSONProtocol.constructor | Project-2/thrift-0.12.0/lib/go/thrift/json_protocol.go:45-50 | both stacks start with the top level twice |
| JsonProtocol.TJSONProtocol.ResetContextStack | Project-2/thrift-0.12.0/lib/go/thrift/simple_json_protocol.go:1327-1330 | both stacks go back to the top level |
| JsonProtocol.TJSONProtocol.OutputPreValue | Project-2/thrift-0.12.0/lib/go/thrift/simple_json_protocol.go:568-583 | writes the separator of the context |
| JsonProtocol.TJSONProtocol.OutputPostValue | Project-2/thrift-0.12.0/lib/go/thrift/simple_json_protocol.go:585-606 | replaces the top context by its successor |
| JsonProtocol.TJSONProtocol.OutputBool | Project-2/thrift-0.12.0/lib/go/thrift/simple_json_protocol.go:608-627 | a literal, quoted where a key belongs |
| JsonProtocol.TJSONProtocol.OutputNull | Project-2/thrift-0.12.0/lib/go/thrift/simple_json_protocol.go:629-637 | a literal, not quoted even where a key belongs |
| JsonProtocol.TJSONProtocol.OutputI64 | Project-2/thrift-0.12.0/lib/go/thrift/simple_json_protocol.go:664-678 | a number, quoted where a key belongs |
| JsonProtocol.TJSONProtocol.OutputString | Project-2/thrift-0.12.0/lib/go/thrift/simple_json_protocol.go:680-688 | a quoted string |
| JsonProtocol.TJSONProtocol.OutputObjectBegin | Project-2/thrift-0.12.0/lib/go/thrift/simple_json_protocol.go:695-704 | separator, brace and a new context |
| JsonProtocol.TJSONProtocol.OutputObjectEnd | Project-2/thrift-0.12.0/lib/go/thrift/simple_json_protocol.go:706-715 | brace, and the outer context moves on; the caller owes an open container |
| JsonProtocol.TJSONProtocol.OutputListBegin | Project-2/thrift-0.12.0/lib/go/thrift/simple_json_protocol.go:717-726 | separator, bracket and a new context |
| JsonProtocol.TJSONProtocol.OutputListEnd | Project-2/thrift-0.12.0/lib/go/thrift/simple_json_protocol.go:728-737 | bracket, and the outer context moves on; the caller owes an open container |
| JsonProtocol.TJSONProtocol.WriteMessageBegin | Project-2/thrift-0.12.0/lib/go/thrift/json_protocol.go:63-81 | resets both stacks and opens the list with version, name, type and sequence number |
| JsonProtocol.TJSONProtocol.WriteMessageEnd | Project-2/thrift-0.12.0/lib/go/thrift/json_protocol.go:83-85 | closes the list |
| JsonProtocol.TJSONProtocol.WriteFieldBegin | Project-2/thrift-0.12.0/lib/go/thrift/json_protocol.go:98-113 | the quoted id, a brace and the type name; an unknown type is an error after the brace |
| JsonProtocol.TJSONProtocol.WriteMapBegin | Project-2/thrift-0.12.0/lib/go/thrift/json_protocol.go:121-143 | bracket, type names, size and brace; an unknown type is an error part of the way |
| JsonProtocol.TJSONProtocol.WriteMapEnd | Project-2/thrift-0.12.0/lib/go/thrift/json_protocol.go:145-150 | brace and bracket |
| JsonProtocol.TJSONProtocol.OutputElemListBegin | Project-2/thrift-0.12.0/lib/go/thrift/json_protocol.go:458-473 | bracket, type name and size; an unknown type is an error after the bracket |
| JsonProtocol.TJSONProtocol.WriteBool | Project-2/thrift-0.12.0/lib/go/thrift/json_protocol.go:168-173 | 1 or 0 |
| JsonProtocol.TJSONProtocol.ReadWhitespace | Project-2/thrift-0.12.0/lib/go/thrift/simple_json_protocol.go:834-850 | the loop passes over exactly the leading white space |
| JsonProtocol.TJSONProtocol.SafePeekNull | Project-2/thrift-0.12.0/lib/go/thrift/simple_json_protocol.go:1316-1324 | whether null follows; a text that stops inside the word is indexed past its end |
| JsonWire.PeekPanicsIff | Project-2/thrift-0.12.0/lib/go/thrift/simple_json_protocol.go:1316-1324 | the peek indexes past its end if and only if the whole text is n, nu or nul |
| JsonProtocol.TJSONProtocol.ReadIfNull | Project-2/thrift-0.12.0/lib/go/thrift/simple_json_protocol.go:1157-1180 | white space and then null are passed over if null is there |
| JsonProtocol.TJSONProtocol.ReadNumeric | Project-2/thrift-0.12.0/lib/go/thrift/simple_json_protocol.go:1189-1313 | on any text, the loop's integer value, error and consumption |
| JsonTokens.QuotedNumberIff | Project-2/thrift-0.12.0/lib/go/thrift/simple_json_protocol.go:1189-1313 | a quoted numeral is read as its number and up to its closing quote if and only if the text ends there or goes on with a byte that ends numbers |
| JsonTokens.QuoteInsideNumber | Project-2/thrift-0.12.0/lib/go/thrift/simple_json_protocol.go:1297-1302 | the text "1"2 is read as twelve: the second quote is passed over |
| JsonProtocol.TJSONProtocol.ParsePreValue | Project-2/thrift-0.12.0/lib/go/thrift/simple_json_protocol.go:752-810 | on any text: the separator of the context is required and consumed, unless the container closes or the text ends |
| JsonProtocol.TJSONProtocol.ParsePostValue | Project-2/thrift-0.12.0/lib/go/thrift/simple_json_protocol.go:812-832 | white space is passed over and the top context replaced by its successor |
| JsonProtocol.TJSONProtocol.ParseI64 | Project-2/thrift-0.12.0/lib/go/thrift/simple_json_protocol.go:927-947 | on any text, value, error, consumption and context |
| JsonProtocol.TJSONProtocol.ReadString | Project-2/thrift-0.12.0/lib/go/thrift/json_protocol.go:381-409 | on any text, value, error, consumption and context |
| JsonProtocol.TJSONProtocol.ParseOpen | Project-2/thrift-0.12.0/lib/go/thrift/simple_json_protocol.go:971-1036 | on any text: the bracket opens a context, null is reported and left |
| JsonProtocol.TJSONProtocol.ParseObjectEnd | Project-2/thrift-0.12.0/lib/go/thrift/simple_json_protocol.go:991-1015 | on any text: only white space may come before the brace, the context must be that of a key, and one level is popped |
| JsonProtocol.TJSONProtocol.ParseListEnd | Project-2/thrift-0.12.0/lib/go/thrift/simple_json_protocol.go:1052-1079 | the same for a list; nothing is passed over after one at the top level |
| JsonProtocol.TJSONProtocol.ReadMessageBegin | Project-2/thrift-0.12.0/lib/go/thrift/json_protocol.go:225-251 | on any text; both stacks are reset first |
| JsonProtocol.TJSONProtocol.ReadFieldBegin | Project-2/thrift-0.12.0/lib/go/thrift/json_protocol.go:267-285 | on any text: a closing bracket or the end is STOP, otherwise id, brace and type name |
| JsonProtocol.TJSONProtocol.ReadMapBegin | Project-2/thrift-0.12.0/lib/go/thrift/json_protocol.go:291-325 | on any text |
| JsonProtocol.TJSONProtocol.ReadMapEnd | Project-2/thrift-0.12.0/lib/go/thrift/json_protocol.go:327-333 | the end of the object, then of the list |
| JsonProtocol.TJSONProtocol.ParseElemListBegin | Project-2/thrift-0.12.0/lib/go/thrift/json_protocol.go:475-490 | on any text |
| JsonTokens.ParseSpelled | Project-2/thrift-0.12.0/lib/go/thrift/simple_json_protocol.go:752-947 | an integer in any spelling, with a sign or none, leading zeros, quotes or none, and with any white space around it and its separator, is read as its value at any position |
| JsonTokens.ParseI64Of | Project-2/thrift-0.12.0/lib/go/thrift/simple_json_protocol.go:664-947 | a number, plain or as a key, is read back at any position and with any white space around it, in step with the writer's stack |
| JsonTokens.ReadSpelled | Project-2/thrift-0.12.0/lib/go/thrift/json_protocol.go:381-409 | a properly escaped string in any spelling, with any white space around it, is read as what its escapes stand for, up to its own closing quote |
| JsonTokens.NullOf | Project-2/thrift-0.12.0/lib/go/thrift/simple_json_protocol.go:927-947 | null reads as the number zero and as the empty string |
| JsonTokens.ReadStringOf | Project-2/thrift-0.12.0/lib/go/thrift/json_protocol.go:195-409 | a string is read back at any position, whatever follows, with any white space around it, in step with the writer's stack |
| JsonTokens.ReadFieldBeginOf | Project-2/thrift-0.12.0/lib/go/thrift/json_protocol.go:98-285 | a field header is read back, first or not, with any white space before and between its tokens, with the writer's three stacks |
| JsonTokens.ReadListBeginOf | Project-2/thrift-0.12.0/lib/go/thrift/json_protocol.go:458-490 | a list header of any size, negative too, is read back with any white space between its tokens, with the writer's stacks |
| JsonTokens.ReadMapBeginOf | Project-2/thrift-0.12.0/lib/go/thrift/json_protocol.go:121-325 | a map header, likewise |
| JsonTokens.ReadMessageBeginOf | Project-2/thrift-0.12.0/lib/go/thrift/json_protocol.go:63-251 | a message header is read back whatever the stacks were, with any white space before and between its tokens |
| JsonSpacing.WrittenValue | Project-2/thrift-0.12.0/lib/go/thrift/json_protocol.go:87-197 | laid out without white space, the tokens of a value are the text that the writer writes |
| JsonRoundTrip.ValueSpaced | Project-2/thrift-0.12.0/lib/go/thrift/simple_json_protocol.go:752-850 | reading any doubles-free well-typed value with scalar keys from its tokens with any run of space, tab, newline and return after each of them, at any position: the tree with its strings made valid, what follows left, and after every token the stack that the writer had after it; only inside the braces of a struct without fields there must be none |
| JsonRoundTrip.FieldsSpaced | Project-2/thrift-0.12.0/lib/go/thrift/json_protocol.go:87-289 | the fields of a struct, likewise, in any number and order, up to the closing brace |
| JsonTight.EmptyStructFails | Project-2/thrift-0.12.0/lib/go/thrift/json_protocol.go:267-271 | white space between the braces of a struct without fields is an error: the closing brace is looked for before white space is skipped |
| JsonTight.ValueLoose | Project-2/thrift-0.12.0/lib/go/thrift/json_protocol.go:258-349 | so any value with such white space anywhere inside it is refused |
| JsonTight.SpacedReadsIff | Project-2/thrift-0.12.0/lib/go/thrift/simple_json_protocol.go:752-850 | the tokens of a value with any white space between them are read, as the value, if and only if no struct without fields has white space between its braces |
| JsonRoundTrip.ValueBack | Project-2/thrift-0.12.0/lib/go/thrift/json_protocol.go:63-349 | round trip of every doubles-free well-typed value with scalar keys, at any position and whatever follows that a number would not run into: the tree with its strings made valid, the rest left, and after every token the stack that the writer had after it |
| JsonRoundTrip.FieldsBack | Project-2/thrift-0.12.0/lib/go/thrift/json_protocol.go:87-289 | the fields of a struct come back in any number and order, up to the closing brace |
| JsonRoundTrip.ComesBackIff | Project-2/thrift-0.12.0/lib/go/thrift/json_protocol.go:63-349 | the very same value comes back if and only if its strings are valid UTF-8 |
| JsonRoundTrip.StrayByteComesBack | Project-2/thrift-0.12.0/lib/go/thrift/json_protocol.go:195-409 | the string of the one byte 0xFF comes back, at any position, as the replacement character |
| JsonRoundTrip.MessageSpaced | Project-2/thrift-0.12.0/lib/go/thrift/json_protocol.go:63-256 | a whole message, header, value and end, is read with any white space before it and between its tokens, from any reader state, whatever follows |
| JsonRoundTrip.MessageBack | Project-2/thrift-0.12.0/lib/go/thrift/json_protocol.go:63-256 | a whole message, header, value and end, comes back from any reader state, whatever follows |
| JsonSamples.JsonNames | Project-2/thrift-0.12.0/lib/go/thrift/json_protocol.go:526-584 | the name of each type, to the letter |
| JsonSamples.JsonStruct | Project-2/thrift-0.12.0/lib/go/thrift/json_protocol.go:87-113 | the text of a struct with one field, to the letter |
| JsonSamples.JsonList | Project-2/thrift-0.12.0/lib/go/thrift/json_protocol.go:458-473 | the text of a list of two booleans, to the letter |
| JsonSamples.JsonMap | Project-2/thrift-0.12.0/lib/go/thrift/json_protocol.go:121-150 | the text of a map with a number as key, to the letter |
| JsonSamples.JsonMessage | Project-2/thrift-0.12.0/lib/go/thrift/json_protocol.go:63-81 | the beginning of a message, to the letter |
| JsonSamples.JsonEscapesWritten | Project-2/thrift-0.12.0/lib/go/thrift/simple_json_protocol.go:143-147 | the short escapes that are written |
| JsonSamples.JsonCodeUnitsWritten | Project-2/thrift-0.12.0/lib/go/thrift/simple_json_protocol.go:143-147 | control characters and < > & are written as code units |
| JsonSamples.JsonEscapesRead | Project-2/thrift-0.12.0/lib/go/thrift/simple_json_protocol.go:149-153 | what each of the eight short escapes stands for |
| JsonSamples.HexDigitsToTheLetter | Project-2/thrift-0.12.0/lib/go/thrift/simple_json_protocol.go:143-153 | hexadecimal digits of both cases are read, and lower case is written |
| JsonSamples.JsonCodeUnitsRead | Project-2/thrift-0.12.0/lib/go/thrift/simple_json_protocol.go:149-153 | a code unit, a pair of surrogates and half of one |
| JsonSamples.SpacedMessage | Project-2/thrift-0.12.0/lib/go/thrift/simple_json_protocol.go:752-788 | the header [1, "ping", 1, 7 with its spaces is read |
| JsonSamples.JsonLiterals | Project-2/thrift-0.12.0/lib/go/thrift/simple_json_protocol.go:608-637 | null, true and false, to the letter |
| JsonErrors.NumberIff | Project-2/thrift-0.12.0/lib/go/thrift/simple_json_protocol.go:1189-1313 | text without quotes, up to where a number may end, is taken for a number if and only if it is not empty and each byte fits what comes before it: a digit always, a point after neither point nor exponent, an exponent after none, a sign at the start or after an exponent; its integer is that of the text, or zero if the text is no integer |
| JsonErrors.WordRefused | Project-2/thrift-0.12.0/lib/go/thrift/simple_json_protocol.go:1241-1296 | NaN or Infinity anywhere but at the beginning, after a sign at most, or not whole, is refused |
| JsonErrors.NumberEnders | Project-2/thrift-0.12.0/lib/go/thrift/simple_json_protocol.go:1238-1240 | the nine bytes that end a number |
| JsonErrors.WordsReadAsZero | Project-2/thrift-0.12.0/lib/go/thrift/simple_json_protocol.go:1241-1296 | NaN and the infinities, quoted or not, are read whole, as the integer zero |
| JsonErrors.CloseIff | Project-2/thrift-0.12.0/lib/go/thrift/simple_json_protocol.go:991-1079 | between the last token of a container and its closing bracket there may be white space and nothing else |
| JsonErrors.NullAtClose | Project-2/thrift-0.12.0/lib/go/thrift/simple_json_protocol.go:991-1079 | a null where a container should be closed is taken for its end and closes nothing |
| JsonErrors.SeparatorRequired | Project-2/thrift-0.12.0/lib/go/thrift/simple_json_protocol.go:752-810 | where the context calls for a separator any other byte but a closing bracket is refused |
| JsonErrors.OpenIff | Project-2/thrift-0.12.0/lib/go/thrift/simple_json_protocol.go:971-1036 | where an object or a list should begin, its bracket opens it, null is reported, and anything else is an error |
| JsonErrors.TypeNameIff | Project-2/thrift-0.12.0/lib/go/thrift/json_protocol.go:553-584 | a name is read as a type if and only if it is one of the eleven |
| JsonErrors.VersionRefused | Project-2/thrift-0.12.0/lib/go/thrift/json_protocol.go:225-251 | a message of another version is refused |
| JsonGenerated.WriteValue | Project-2/thrift-0.12.0/lib/go/thrift/json_protocol.go:87-197 | writing any value adds exactly its text and its context stacks |
| JsonGenerated.ReadValue | Project-2/thrift-0.12.0/lib/go/thrift/json_protocol.go:258-409 | reading a value through the protocol object is, on any text, the reading that the round trip speaks of |
| JsonGenerated.WriteThenRead | Project-2/thrift-0.12.0/lib/go/thrift/json_protocol.go:63-349 | one object writes any value and another reads it back; both stacks go through the same states |
| JsonGrammar.Perform | Project-2/thrift-0.12.0/lib/go/thrift/simple_json_protocol.go:608-737 | each output call has the effect that the lemmas below are about |
| JsonGrammar.StepAgrees | Project-2/thrift-0.12.0/lib/go/thrift/simple_json_protocol.go:568-737 | every well-nested call keeps the text equal to the tree so far, written with one comma between siblings, one colon after each key, no trailing separator and every key quoted but a null one, and the context stack equal to that of its open containers |
| JsonGrammar.RunAgrees | Project-2/thrift-0.12.0/lib/go/thrift/simple_json_protocol.go:568-737 | so does every well-nested run |
| JsonGrammar.RenderDerives | Project-2/thrift-0.12.0/lib/go/thrift/simple_json_protocol.go:568-737 | the text of a finished value without null keys is in the grammar of sections 3 to 7 of RFC 8259, laid out as the value is |
| JsonGrammar.IsJsonIff | Project-2/thrift-0.12.0/lib/go/thrift/simple_json_protocol.go:568-737 | the text of a finished value, null keys allowed, is in that grammar as any value at all if and only if no key in it is null |
| JsonGrammar.NullAtKeyIff | Project-2/thrift-0.12.0/lib/go/thrift/simple_json_protocol.go:568-737 | the tree of a well-nested run has a null key, in an open container or a closed one, if and only if OutputNull was called where a key belongs |
| JsonGrammar.RunIsJson | Project-2/thrift-0.12.0/lib/go/thrift/simple_json_protocol.go:568-737 | every well-nested run that makes one value is back in the context it began in, and the text it has written is in the grammar if and only if OutputNull was never called where a key belongs |
| JsonGrammar.KeyIsStringIff | Project-2/thrift-0.12.0/lib/go/thrift/simple_json_protocol.go:608-688 | where a key belongs, a scalar call writes a string if and only if it is not OutputNull |
| JsonGrammar.NullKeyIsNotJson | Project-2/thrift-0.12.0/lib/go/thrift/simple_json_protocol.go:629-637 | the four calls that write the object {null:n}, for any n, write text outside the grammar |
| StableVector.WhichInRange | Project-2/thrift-0.12.0/contrib/fb303/TClientInfo.h:101-116 | the cell of an index below 2^31 lies in its level's allocation, at level 21 at most, and the shift stays within an int |
| StableVector.IndexOfWhich | Project-2/thrift-0.12.0/contrib/fb303/TClientInfo.h:101-116 | the index can be computed back from its cell |
| StableVector.WhichOfIndex | Project-2/thrift-0.12.0/contrib/fb303/TClientInfo.h:101-116 | every cell of an allocated level is that of exactly the index computed from it |
| StableVector.WhichInjective | Project-2/thrift-0.12.0/contrib/fb303/TClientInfo.h:101-116 | distinct indices never share a cell |
| StableVector.LevelsHold | Project-2/thrift-0.12.0/contrib/fb303/TClientInfo.h:85-116 | an index has its cell in levels 0 to L if and only if it is below 2^(L+10) |
| StableVector.StableVector.constructor | Project-2/thrift-0.12.0/contrib/fb303/TClientInfo.h:73-79 | level 0 is allocated |
| StableVector.StableVector.Expand | Project-2/thrift-0.12.0/contrib/fb303/TClientInfo.h:85-95 | levels up to the one asked for exist with doubling sizes, and those in use stay |
| StableVector.StableVector.FindCell | Project-2/thrift-0.12.0/contrib/fb303/TClientInfo.h:101-116 | the cell of the index exists, and the size is raised to cover it |
| StableVector.StableVector.At | Project-2/thrift-0.12.0/contrib/fb303/TClientInfo.h:125-130 | the reference returned is to that cell; elements never move |
| StableVector.StableVector.Assign | Project-2/thrift-0.12.0/contrib/fb303/TClientInfo.h:125-130 | assigning through it changes that element and no other |
| LevelGrowth.NextKeepsInv | Project-2/thrift-0.12.0/contrib/fb303/TClientInfo.h:85-130 | every step of every thread keeps the growth invariant |
| LevelGrowth.NeverOutOfRange | Project-2/thrift-0.12.0/contrib/fb303/TClientInfo.h:85-130 | under every interleaving the published level is allocated, each level has its doubling size, and no thread indexes an unallocated level or past its end |
| LevelGrowth.AllocatedOnce | Project-2/thrift-0.12.0/contrib/fb303/TClientInfo.h:85-95 | levels are allocated once and never replaced, and the published level only rises |
| LevelGrowth.CallsKeepIndex | Project-2/thrift-0.12.0/contrib/fb303/TClientInfo.h:101-130 | a call keeps its index until it has indexed the cell of that index |
| LevelGrowth.SomeCallMoves | Project-2/thrift-0.12.0/contrib/fb303/TClientInfo.h:85-130 | while some call is under way some thread can take a step that brings its call closer to its element |
| Counters.NextKeepsInv | Project-2/thrift-0.12.0/contrib/fb303/cpp/FacebookBase.cpp:49-119 | every step of every thread keeps the locks exclusive and the log a legal sequential history |
| Counters.StepTakesEffect | Project-2/thrift-0.12.0/contrib/fb303/cpp/FacebookBase.cpp:49-119 | an operation takes effect in one step, with its sequential result |
| Counters.Linearizable | Project-2/thrift-0.12.0/contrib/fb303/cpp/FacebookBase.cpp:49-119 | in every interleaving, results and counters are those of the logged operations run one at a time, each once |
| Counters.RealTimeOrder | Project-2/thrift-0.12.0/contrib/fb303/cpp/FacebookBase.cpp:49-119 | an operation that returned before another was called comes first |
| Counters.IncrementsAddUp | Project-2/thrift-0.12.0/contrib/fb303/cpp/FacebookBase.cpp:49-74 | operations run one at a time that never set a key leave the wrapped sum of the amounts added to it, and the counter exists if and only if something was added |
| Counters.NoIncrementLost | Project-2/thrift-0.12.0/contrib/fb303/cpp/FacebookBase.cpp:49-74 | in every interleaving, a counter that has not been set is the wrapped sum of all amounts that have taken effect, even when several threads miss the key at once |
| Counters.RunKeepsDoneOnce | Project-2/thrift-0.12.0/contrib/fb303/cpp/FacebookBase.cpp:49-119 | in every interleaving, each returned call is recorded once and no call in flight is among them |
| Counters.EveryIncrementCounts | Project-2/thrift-0.12.0/contrib/fb303/cpp/FacebookBase.cpp:49-74 | when every thread is idle, a counter that no returned call has set exists if and only if an increment of it has returned, and is the wrapped sum of the amounts of all of those |
| Counters.TotalSinceSet | Project-2/thrift-0.12.0/contrib/fb303/cpp/FacebookBase.cpp:49-99 | the number that a log amounts to for a key is the value of the last Set and the amounts added after it |
| Counters.ReplayIsTotal | Project-2/thrift-0.12.0/contrib/fb303/cpp/FacebookBase.cpp:49-99 | operations run one at a time leave exactly the keys set or added to, each with that number, wrapped |
| Counters.LegalExplained | Project-2/thrift-0.12.0/contrib/fb303/cpp/FacebookBase.cpp:49-119 | in a legal log a Set returns its own value, a Get the wrapped number of its key at its place, zero if there is none, and an Increment the number after it |
| Counters.CountersAreTotals | Project-2/thrift-0.12.0/contrib/fb303/cpp/FacebookBase.cpp:49-119 | in every interleaving the counters and all results are those |
| Counters.ReturnedCallsExplained | Project-2/thrift-0.12.0/contrib/fb303/cpp/FacebookBase.cpp:49-119 | when every thread is idle, the calls that returned can be put in an order, each once, that explains every result and every counter |
| Counters.LastSetHolds | Project-2/thrift-0.12.0/contrib/fb303/cpp/FacebookBase.cpp:76-99 | when every thread is idle and a Set was called after every other change of its key had returned, the counter is its value |
| Counters.SomeThreadMoves | Project-2/thrift-0.12.0/contrib/fb303/cpp/FacebookBase.cpp:49-119 | no deadlock: while some call is under way some thread can take a step that brings its call closer to its return |
| SimpleServer.NextKeepsInv | Project-2/thrift-0.12.0/lib/go/thrift/simple_server.go:128-182 | every step of every accept loop, worker and Stop keeps the invariant |
| SimpleServer.WaitCountsWorkers | Project-2/thrift-0.12.0/lib/go/thrift/simple_server.go:128-182 | the wait counter is the number of live workers, and one more only between Add and the go statement |
| SimpleServer.NoWorkerAfterClosed | Project-2/thrift-0.12.0/lib/go/thrift/simple_server.go:128-182 | once closed is set no worker is added and none that has finished runs again |
| SimpleServer.StopIsABarrier | Project-2/thrift-0.12.0/lib/go/thrift/simple_server.go:172-182 | when any call of Stop has returned no worker is live, then or ever after |
| SimpleServer.EveryClientServed | Project-2/thrift-0.12.0/lib/go/thrift/simple_server.go:128-148 | in every interleaving the workers ever started, and one about to be, are as many as the clients whose accept loop saw closed == 0: none is dropped, none served twice |
| SimpleServer.EndsIff | Project-2/thrift-0.12.0/lib/go/thrift/simple_server.go:128-161 | an accept loop is on its way out or has returned if and only if it once saw closed or a failure of Accept |
| SimpleServer.StopNotStuck | Project-2/thrift-0.12.0/lib/go/thrift/simple_server.go:172-182 | a call of Stop that has not returned can go on, or what holds the lock can come closer to letting it go |
| SimpleServer.LoopNotStuck | Project-2/thrift-0.12.0/lib/go/thrift/simple_server.go:128-161 | nor is an accept loop stuck that has something to hand over |
| Frames.StreamAppend | Project-2/thrift-0.12.0/lib/go/thrift/framed_transport.go:139-157 | one more frame is appended to a stream of frames |
| Frames.FramesAgree | Project-2/thrift-0.12.0/lib/go/thrift/framed_transport.go:83-169 | two runs of frames at the head of the same bytes hold the same messages |
| FramedTransport.TFramedTransport.ReadFullHeader | Project-2/thrift-0.12.0/lib/go/thrift/framed_transport.go:159-163 | four bytes gathered by short reads, or an error that uses up what there was |
| FramedTransport.TFramedTransport.ReadFrameHeader | Project-2/thrift-0.12.0/lib/go/thrift/framed_transport.go:159-169 | the size, refused when above the maximum |
| FramedTransport.TFramedTransport.Read | Project-2/thrift-0.12.0/lib/go/thrift/framed_transport.go:83-107 | result, error, frame size and consumption for every buffer length and every short read; delivered bytes plus frame size stay equal to the header except in the one case named below |
| FramedTransport.TFramedTransport.ReadByte | Project-2/thrift-0.12.0/lib/go/thrift/framed_transport.go:109-124 | the same for one byte, without exception |
| FramedTransport.TFramedTransport.Write | Project-2/thrift-0.12.0/lib/go/thrift/framed_transport.go:126-137 | appends to the buffer |
| FramedTransport.TFramedTransport.Flush | Project-2/thrift-0.12.0/lib/go/thrift/framed_transport.go:139-157 | one frame goes out, whole or cut off where the transport fails, and the buffer is empty either way |
| FramedStream.ReadConserves | Project-2/thrift-0.12.0/lib/go/thrift/framed_transport.go:83-107 | a Read that reports no oversized frame loses, repeats and invents no byte of the frames if and only if it does not step over an empty frame onto an oversized header |
| FramedStream.ReadByteConserves | Project-2/thrift-0.12.0/lib/go/thrift/framed_transport.go:109-124 | a ReadByte that reports no oversized frame never does |
| FramedStream.StrayByte | Project-2/thrift-0.12.0/lib/go/thrift/framed_transport.go:83-107 | a concrete such call: a byte of no frame is returned without an error and the frame size wraps round |
| FramedStream.FramesDelivered | Project-2/thrift-0.12.0/lib/go/thrift/framed_transport.go:83-157 | for any messages within the maximum, empty ones too, and any pattern of calls and short reads: inside a message ReadByte returns its next byte without an error, and Read at least one and at most the bytes left, with an error if and only if it asked for more than are left; an empty message gives no bytes, only the end gives EOF; together the calls give the beginning of the messages, and all of them once the end is reported |
| FramedStream.BytesOfMessage | Project-2/thrift-0.12.0/lib/go/thrift/framed_transport.go:109-124 | calls of ReadByte alone give the bytes of a message one by one, without an error, up to and including its last |
| FramedStream.OversizedRefused | Project-2/thrift-0.12.0/lib/go/thrift/framed_transport.go:159-169 | a header above the maximum is reported by either call, which has then taken the header and nothing more |
| FramedStream.CutShort | Project-2/thrift-0.12.0/lib/go/thrift/framed_transport.go:83-124 | a stream that ends before or inside a header, or inside a frame, is reported as the end, or as an unexpected one |
| Tornado.FifoLock.Acquire | Project-2/thrift-0.12.0/lib/py/src/TTornado.py:44-50 | appends the new future and waits on the last one before it |
| Tornado.FifoLock.Release | Project-2/thrift-0.12.0/lib/py/src/TTornado.py:54-57 | removes and resolves the future at the head |
| Tornado.NextKeepsInv | Project-2/thrift-0.12.0/lib/py/src/TTornado.py:37-141 | every step of every coroutine, failures included, keeps the invariant |
| Tornado.MutualExclusion | Project-2/thrift-0.12.0/lib/py/src/TTornado.py:37-64 | a call past its wait is the head of the queue, every earlier one has left and every later one waits on the one just before it |
| Tornado.HeadIsNotBlocked | Project-2/thrift-0.12.0/lib/py/src/TTornado.py:45-64 | the head of the queue is never held up by the lock |
| Tornado.ReleaseRemovesOwn | Project-2/thrift-0.12.0/lib/py/src/TTornado.py:54-64 | the lock is held whenever it is released, and what is removed is the releasing call's own future |
| Tornado.FramesInOrder | Project-2/thrift-0.12.0/lib/py/src/TTornado.py:131-141 | the k-th call to start receives the k-th frame whole, unless it or an earlier one raised, however the bytes arrive |
| Tornado.FailureIsNegativeLength | Project-2/thrift-0.12.0/lib/py/src/TTornado.py:131-141 | a call that fails and has used up input has read a header with its sign bit set and nothing more; any other failure is the stream raising and uses up nothing |
| Tornado.HeaderTaken | Project-2/thrift-0.12.0/lib/py/src/TTornado.py:131-140 | with four bytes unread the head can take its header, and goes on to a body of the announced length unless the sign bit is set |
| Tornado.BodyTaken | Project-2/thrift-0.12.0/lib/py/src/TTornado.py:140-141 | with the announced length unread the head can take its body, and then it has exactly those bytes |
| Tornado.NoCallFails | Project-2/thrift-0.12.0/lib/py/src/TTornado.py:131-141 | while the stream does not raise and the peer sends frames shorter than 2^31, no call fails |
| Tornado.EveryFrameDelivered | Project-2/thrift-0.12.0/lib/py/src/TTornado.py:131-141 | once such frames have been sent and no call can go further, the k-th call has the k-th frame, for as many as there are of both |
| Tornado.FrameWriter.Write | Project-2/thrift-0.12.0/lib/py/src/TTornado.py:143-144 | appends to the buffer |
| Tornado.FrameWriter.Flush | Project-2/thrift-0.12.0/lib/py/src/TTornado.py:146-152 | one frame goes out; the buffer is empty afterwards even when the stream raises, and kept when it is too long for its header |

## Left out

- Sockets, TLS, HTTP, zlib, ZeroMQ, Rebus and pipe code, tutorials, examples, build scripts and the
  homework outlines: I/O plumbing, or no state worth a proof.
- The JavaScript, PHP, Ruby and Lua codecs and the multiplexed processors: the same ideas again.
- Transport errors other than the end of the input in the protocol objects; the bytes a Go writer
  returns as a count; the value a Go reader returns beside an error.
- Binary message headers and `WriteBinary`/`ReadBinary`: the strict and the old form add an easy case
  split, and the byte-string calls repeat the string calls.
- Base64 in the JSON protocol, and its doubles: doubles are opaque words in the compact and binary
  protocols and are not values of the JSON model, whose tree reader refuses their type.
- `TSimpleJSONProtocol`'s own struct, map and list calls: their text is not meant to be read back.
- `ParseOpen` stands for both `ParseObjectStart` and `ParseListBegin`, which differ only in the bracket
  and the context; a `bufio` read is taken to find all of a text that is in memory.
- Skip: its switch arms for structs, maps, lists and sets, and scalars are methods of their own, and a
  ghost budget counts how deep calls nest; it is not modelled over the JSON protocol.
- `getCounters`: it reads entries without their locks, so it is no atomic snapshot. int64 addition in
  `incrementCounter` is taken to wrap.
- `size_` of `StableVector` under concurrency, where it is written without the lock; indices from 2^31
  on, where the shift in `which` leaves its type. Memory is sequentially consistent in all interleavings.
- The framed transport's reader is taken to return some bytes whenever any are left and no error before
  the end; `ReadConserves` and `FramesDelivered` are about buffers shorter than 2^32 bytes, whose length
  survives the conversion to uint32, while `Read` is specified for every length.
- What Tornado's stream does with a negative length is taken to be an exception; calls are numbered in
  the order in which they called `acquire`.
- What generated code is for a given schema: `Generated` and `JsonGenerated` write and read any value by
  its own types, as generated code does field by field.
