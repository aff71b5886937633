# mp4_box_parser in Dafny

A model of `Mp4BoxParser`, a reader of ISO base media files (MP4). The
parser walks the tree of boxes in a file and returns a JavaScript object
keyed by box type:

- Each box starts with a 4-byte big-endian size and a 4-byte type. A size of
  1 means a 64-bit size follows. Sizes 0 and 2..7 are a `SizeError`.
- Seven container types (`moov`, `edts`, `mdia`, `minf`, `dinf`, `stbl`,
  `udta`) are walked recursively and stored as `{ size, type }` merged with
  their children.
- `trak` is walked the same way, but its occurrences at one level are
  collected into an array.
- `uuid` boxes are filed under the 36-character text form of their 16-byte
  identifier.
- Every other box goes to the decoder named after its type (`ftyp`, `mvhd`,
  `tkhd`, `hdlr`, `elst`, `uuid`, `mdhd`, `stsz`). A type without a decoder
  becomes `{ size, type }`. The last box of a type at one level wins.

The file is a `seq<byte>`. `Bytes.Read` is the positioned read: a
zero-filled buffer into which the bytes of the file are copied, so bytes
past the end of the file read as 0. `Values.Value` is the JavaScript value
the parser builds (number, string, array, object). `Values.Error` names
the failures the model covers; the ones it does not cover are listed under
"Left out".

Each decoder and the walker are written twice:

- a function that states what the result is, at absolute offsets;
- a method that follows the source's cursor-advancing code step by step,
  proved equal to the function.

The properties are lemmas about the functions:

- round trips of the integer, text, identifier and header encodings;
- the layout facts of each decoder;
- the order in which the walk meets boxes;
- how the object stores them;
- which inputs make the parse fail.

Modules:

| module | file | what |
|---|---|---|
| `Bytes` | `bytes.dfy` | `_readBytes`, `_buffer2integer`, `_buffer2string` |
| `Uuid` | `uuid.dfy` | `_buffer2uuid` and its inverse |
| `Values` | `values.dfy` | the JavaScript values and the errors |
| `BoxHeader` | `header.dfy` | `_readSizeAndType` |
| `FieldDecoders` | `decoders.dfy` | `parseFullBox`, the `parseBox_<type>` decoders and `parseBox_xxxx` |
| `BoxWalker` | `walker.dfy` | `parseBox` |
| `WalkProperties` | `walk_properties.dfy` | what the walk guarantees about the object it returns |

Where the code departs from ISO/IEC 14496-12, the model follows the code:

- After a 16-byte header (32-bit size 1, then a 64-bit size), everything is
  still read from 8 bytes past the start of the box. The standard puts the
  payload after the whole header.
  - The children of a container or `trak` box are walked from offset 8, and
    those of a `uuid` box from offset 24.
    `WalkProperties.ExtendedContainerFails` shows that such a container
    with a 64-bit size from 17 to 2^32 - 1 (room for a child header) always
    fails.
  - Every leaf decoder reads its fields from offset 8: `ftyp`,
    `parseFullBox` (so `mvhd`, `tkhd`, `hdlr`, `elst` and `mdhd`) and
    `stsz`. In such an `ftyp` box the major brand is the high half of the
    64-bit size.
  - A `uuid` box takes its identifier from offset 8. With a 16-byte header
    that is the 64-bit size followed by half of the real identifier
    (`WalkProperties.ExtendedUuidKey`).
- A 32-bit size of 0 means "to the end of the file" in the standard. The
  code throws `SizeError` for it (`BoxHeader.SmallSizeRejected`).
- `elst` decodes `media_time` and `media_rate_integer` as unsigned, where
  the standard makes them signed. An empty edit's `media_time` of -1 is
  2^32 - 1 (version 0) or 2^64 - 1 (version 1).
- `mdhd` version 1 reads `timescale` at offset 20 and `duration` at offset
  24, as the code does. `FieldDecoders.MdhdOffsets` relates these to the
  layout of section 8.4.2 of ISO/IEC 14496-12.

These failures, which the source meets by throwing or never returning, are
`Err` values:

- `SizeError` is the thrown header error.
- `NegativeLength` is the `RangeError` of a buffer allocated with a
  negative length. It happens for an `hdlr` box shorter than 32 bytes, and
  for one of exactly 32 bytes whose name would start more than one byte
  past the end of the file.
- `NoProgress`: a 64-bit size of 0 would make `parseBox` loop for ever.
- `CallStackExhausted`: a box of type `xxxx` makes `parseBox_xxxx` call
  itself without end.

## Model

| member | source | states |
|---|---|---|
| Bytes.ReadInBounds | lib/mp4_box_parser.js:435-441 | a read that lies inside the file returns exactly the file's bytes at that range |
| Bytes.ReadPastEnd | lib/mp4_box_parser.js:435-441 | bytes past the end of the file are never filled in, so they read as 0 |
| Bytes.ReadToEnd | lib/mp4_box_parser.js:437-439 | a request for 0 bytes reads the rest of the file followed by one zero byte |
| Bytes.Buffer2Integer | lib/mp4_box_parser.js:410-416 | the loop that adds each byte times 16^(2i) from the least significant end computes the big-endian value of the buffer |
| Bytes.BigEndianBound | lib/mp4_box_parser.js:410-416 | the value of n bytes is below 256^n |
| Bytes.DecodeEncode | lib/mp4_box_parser.js:410-416 | decoding the n-byte big-endian encoding of a value below 256^n gives the value back |
| Bytes.EncodeDecode | lib/mp4_box_parser.js:410-416 | every buffer is the encoding of its decoded value, so the decoder is injective for a fixed length |
| Bytes.Latin1 | lib/mp4_box_parser.js:406-408 | the text has one character per byte, whose code is that byte |
| Bytes.Latin1Injective | lib/mp4_box_parser.js:406-408 | different buffers give different texts |
| Uuid.Buffer2Uuid | lib/mp4_box_parser.js:418-433 | the loop that appends each byte as two lower-case hex digits, then regroups 8-4-4-4-12 with dashes, computes the identifier text |
| Uuid.HexStringDigits | lib/mp4_box_parser.js:421-424 | the hex text has two characters per byte, characters 2i and 2i+1 spell byte i, and all are lower-case hex digits |
| Uuid.UuidShape | lib/mp4_box_parser.js:418-433 | 16 bytes give 36 characters, with dashes at 8, 13, 18 and 23 and lower-case hex digits elsewhere |
| Uuid.UuidGroups | lib/mp4_box_parser.js:426-432 | removing the four dashes gives back the 32 hex digits |
| Uuid.HexRoundTrip | lib/mp4_box_parser.js:421-424 | decoding the hex text gives back the bytes |
| Uuid.UuidInjective | lib/mp4_box_parser.js:418-433 | two 16-byte identifiers have the same text if and only if they are equal |
| BoxHeader.HeaderAt | lib/mp4_box_parser.js:443-462 | the header is refused exactly when the 32-bit size is below 8 and not 1, with a `SizeError` carrying that size and the type; otherwise the type is the 4 bytes at 4, a compact size lies in [8, 2^32), and any size is below 2^64 |
| BoxHeader.ReadSizeAndType | lib/mp4_box_parser.js:443-462 | the method reads the size, the type and, for size 1, the 64-bit size, and returns what `HeaderAt` states |
| BoxHeader.CompactHeaderRoundTrip | lib/mp4_box_parser.js:443-451 | a header written with a 32-bit size in [8, 2^32) reads back as that size and type |
| BoxHeader.ExtendedHeaderRoundTrip | lib/mp4_box_parser.js:452-455 | a header written with size 1 and a 64-bit size reads back as that size (any value, even below 8) and type |
| BoxHeader.SmallSizeRejected | lib/mp4_box_parser.js:452-458 | a header written with a size of 0 or 2..7 is refused with `SizeError` of that size and type |
| FieldDecoders.UintValueOfRead | lib/mp4_box_parser.js:410-416 | the decoders' integer fields are `_buffer2integer` of the bytes `_readBytes` returns |
| FieldDecoders.ReadUint | lib/mp4_box_parser.js:435-441 | reading n bytes and decoding them gives the big-endian field at that offset |
| FieldDecoders.ReadFixedInt | lib/mp4_box_parser.js:245-251 | decoding the first 2 of 4 bytes read gives the width or height field |
| FieldDecoders.ParseFullBox | lib/mp4_box_parser.js:94-108 | the box holds size, type, the version byte at 8 and the 3-byte flags at 9; the cursor ends 12 bytes past the start |
| FieldDecoders.ParseFtyp | lib/mp4_box_parser.js:70-92 | the loop collects brand i from offset 16 + 4i while the cursor is inside the box, giving ceil((size - 16) / 4) brands, with the major brand at 8 and the minor version at 12 |
| FieldDecoders.ParseMvhd | lib/mp4_box_parser.js:110-173 | version 1 reads 64-bit times and duration and version 0 reads 32-bit ones; 76 bytes are skipped and `nextTrackID` is read at 116 or 104 |
| FieldDecoders.MvhdFields | lib/mp4_box_parser.js:110-173 | the object holds exactly the full box fields, the four time fields and `nextTrackID`; in version 0 the times and the duration are below 2^32 |
| FieldDecoders.ParseTkhdHead | lib/mp4_box_parser.js:175-219 | the version branch reads the times, the track id and the duration, and leaves the cursor at 44 (version 1) or 32 (version 0) |
| FieldDecoders.ParseTkhd | lib/mp4_box_parser.js:175-254 | the whole decoder yields the version-dependent head followed by the common fields at fixed distances from it |
| FieldDecoders.TkhdDimensions | lib/mp4_box_parser.js:221-251 | `reserved` holds the second reserved field, 2 bytes before the matrix, which overwrites the first; width and height are the integer parts of their 16.16 fixed-point fields |
| FieldDecoders.IntegerPart | lib/mp4_box_parser.js:245-251 | the first two bytes of a 4-byte field decode to the field's value divided by 2^16 |
| FieldDecoders.FindIndex | lib/mp4_box_parser.js:275 | the index of the first NUL, or -1 exactly when there is none |
| FieldDecoders.ParseHdlr | lib/mp4_box_parser.js:256-280 | the handler type is read at 16 and the name from 32; a negative name length, including the one the 0-length fallback yields past the end of the file, is `NegativeLength` |
| FieldDecoders.HdlrName | lib/mp4_box_parser.js:273-277 | for a box over 32 bytes the name is the text before the first NUL of the name field; with no NUL, its last byte is dropped |
| FieldDecoders.HdlrNameReadsToEnd | lib/mp4_box_parser.js:274-277 | for a box of exactly 32 bytes the name is the rest of the file up to its first NUL, or all of it |
| FieldDecoders.ElstEntries | lib/mp4_box_parser.js:290-321 | the edit list has exactly `entryCount` entries |
| FieldDecoders.ElstEntriesAt | lib/mp4_box_parser.js:290-321 | entry k is decoded at 16 + 20k (version 1) or 16 + 12k (version 0) |
| FieldDecoders.ParseElstEntry | lib/mp4_box_parser.js:292-320 | one entry reads duration and media time (8 or 4 bytes each) and the two 2-byte rate parts, and moves the cursor 20 or 12 bytes on |
| FieldDecoders.ParseElst | lib/mp4_box_parser.js:282-324 | the loop for i from 1 to `entryCount` builds the edit list in file order |
| FieldDecoders.ParseUuid | lib/mp4_box_parser.js:326-332 | the result has one member, named by the identifier at offset 8, holding `{ size, type }` |
| FieldDecoders.ParseMdhd | lib/mp4_box_parser.js:334-369 | the timestamp, timescale and duration are read at the offsets of each version's branch as written |
| FieldDecoders.MdhdOffsets | lib/mp4_box_parser.js:338-350 | in version 1 the decoded `timescale` is the high half of the standard's 64-bit modification time, and `duration` is its low half followed by the real timescale |
| FieldDecoders.ParseStsz | lib/mp4_box_parser.js:371-404 | `sampleTotal` is `sampleSize * sampleCount`, and the object never has a `smapleSize` member |
| FieldDecoders.StszReadsNoEntries | lib/mp4_box_parser.js:392-401 | the decoded box depends only on the first 20 bytes of the box, and `sampleTotal` is the product |
| FieldDecoders.ParseLeaf | lib/mp4_box_parser.js:61-68 | the dispatcher calls the decoder named after the type, and otherwise returns `{ size, type }` |
| FieldDecoders.UnknownTypeIsPlaceholder | lib/mp4_box_parser.js:61-68 | a type without a decoder gives exactly `{ size, type }` and never fails |
| FieldDecoders.LeafFailures | lib/mp4_box_parser.js:61-68 | a leaf fails exactly for `xxxx`, and for an `hdlr` box shorter than 32 bytes or of exactly 32 bytes whose name field, at its end, starts more than one byte past the end of the file |
| BoxWalker.BoxAt | lib/mp4_box_parser.js:27-55 | a box read successfully starts at the cursor, inside the file, and has a size of at least 1, so the cursor moves forward |
| BoxWalker.ParseBox | lib/mp4_box_parser.js:23-59 | the loop, while more than 8 bytes remain before the end, reads each box and stores it, and returns the object the walk of the range defines, or the first error |
| BoxWalker.StoreBox | lib/mp4_box_parser.js:30-55 | a container replaces its type's member, a `trak` is appended to its array, a `uuid` member is merged into its object, and anything else replaces its member |
| BoxWalker.ReadBox | lib/mp4_box_parser.js:28-55 | one iteration reads the header, produces the box's value and refuses a size of 0 |
| BoxWalker.ParseEntry | lib/mp4_box_parser.js:30-53 | a container or `trak` is `{ size, type }` merged with its children walked from 8 bytes in; a `uuid` is its identifier member merged with the children walked from 24 bytes in; anything else goes to the dispatcher |
| WalkProperties.VisitsInFileOrder | lib/mp4_box_parser.js:27-56 | the boxes of one level are met in file order: the first at the start, each next one exactly `size` bytes after the previous, each more than 8 bytes before the end, each the box read at its own position; the walk stops when 8 or fewer bytes remain |
| WalkProperties.VisitsStrictlyIncreasing | lib/mp4_box_parser.js:27-56 | the boxes of one level start at strictly increasing offsets, so no box is met twice |
| WalkProperties.StoredTypes | lib/mp4_box_parser.js:30-55 | the object has a member for a type if and only if a box of that type was met |
| WalkProperties.RepeatedStorage | lib/mp4_box_parser.js:35-41 | the `trak` member is the array of every `trak` value, in file order |
| WalkProperties.LastOccurrenceWins | lib/mp4_box_parser.js:30-54 | for any type other than `trak` and `uuid`, the member holds the value of the last box of that type |
| WalkProperties.KeyedStorage | lib/mp4_box_parser.js:42-50 | the `uuid` member maps an identifier if and only if a `uuid` box with it was met, to the value of the last such box |
| WalkProperties.UuidValueKeyed | lib/mp4_box_parser.js:42-47 | a `uuid` box yields exactly one member, named by its 36-character identifier |
| WalkProperties.UnknownTypeValue | lib/mp4_box_parser.js:51-54 | a box of a type with no decoder and no registry entry yields `{ size, type }` and never fails |
| WalkProperties.UnknownTypeStored | lib/mp4_box_parser.js:51-54 | in a successful walk, such a type's member is `{ size, type }` of a box of that type |
| WalkProperties.NoFailingLeaf | lib/mp4_box_parser.js:23-68 | a successful walk met no `xxxx` box and no `hdlr` box shorter than 32 bytes |
| WalkProperties.VisitNotFailing | lib/mp4_box_parser.js:61-68 | a box read successfully is neither `xxxx` nor a short `hdlr` |
| WalkProperties.FtypOnlyFile | lib/mp4_box_parser.js:4-13 | a file holding one `ftyp` box with a payload parses to an object whose only member is that box's decoded fields |
| WalkProperties.SmallSizeAbortsParse | lib/mp4_box_parser.js:452-458 | a first box with a size of 0 or 2..7, and more than 8 bytes in the file, fails the whole parse with that `SizeError` |
| WalkProperties.ExtendedUuidKey | lib/mp4_box_parser.js:326-330 | a `uuid` box with a 64-bit size is keyed by the text of the size's 8 bytes and the first 8 bytes of its identifier, because the identifier is read from offset 8 |
| WalkProperties.ExtendedContainerFails | lib/mp4_box_parser.js:30-33 | a container with a 64-bit size from 17 to 2^32 - 1 (room for a child header) reads its first child header from the 64-bit size field, whose high half is 0, and fails with `SizeError(0, …)` |

## Left out

- File I/O: `parse` opening, stat-ing and closing the file becomes the byte sequence and its length. `Walk(file, 0, |file|)` is what `parse` returns.
- Failed reads: the model does not tell a read error from a read past the end of the file; both leave zeros. In the source a failed read throws instead; for example, Node refuses a read position above 2^53 - 1, which nested 64-bit sizes can reach.
- Bytes.Buffer2Integer: computes the exact value. JavaScript numbers are doubles, so the source rounds every value above 2^53:
  - the 8-byte fields of version 1 boxes;
  - `tkhd`'s 36-byte `matrix`, which on a real file (first entry 0x00010000) is near 2^272, so the model's exact `matrix` never equals the source's double;
  - `stsz`'s `sampleTotal`, the product of two 32-bit values;
  - the 64-bit header size (line 455), which also feeds the cursor `position`, so the source's later offsets are rounded as well.
- Buffer allocation limits: an allocation larger than Node's maximum buffer length is not modelled, because it depends on the runtime.
- Heap exhaustion: an `ftyp` box with a huge declared size, or an `elst` box with an `entryCount` near 2^32, makes the source build an array that exhausts the JavaScript heap. The model returns the whole array.
- Deep nesting: `parseBox` calls itself once per container level. A file with a few thousand nested container headers (8 bytes each) overflows the JavaScript call stack and throws a RangeError. The model has no stack and returns the walked object.
- Long texts: `String.fromCharCode.apply` throws a RangeError once the buffer exceeds the engine's limit on argument count (about 10^5 in V8). An `hdlr` name field with no early NUL can reach that, including the read to the end of the file for a 32-byte `hdlr`. The model converts texts of any length.
- Key order: JavaScript objects are modelled as maps, so the order of their keys is not modelled. The one place the source relies on key order, the single key of a `uuid` box's object, has only one key.
- Aliasing: the object `Object.assign` mutates is modelled as a new value. No object is shared between two places in the result, so this is not observable.
- FieldDecoders.ParseStsz: the per-sample loop under `smapleSize === 0` is not written out. Its guard reads a member that is never set, so it is never taken. The model computes the other branch and proves the member is absent.
- Runtime failures are modelled as values: the unbounded recursion of an `xxxx` box and the endless loop on a 64-bit size of 0 become `Err`.
- `scripts/start.js` and the test file are callers of the parser and are not part of this model.
