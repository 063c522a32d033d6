# DataMeta Hadoop codec and core helpers, modelled in Dafny

This project models two parts of the DataMeta Python runtime.

- **The Hadoop binary codec** (`ebay_datameta_hadoop.base`):
  - `InOutable`'s version helpers and `BytesDataIoUtil`, which reads and writes one record, optionally behind a version tag.
  - `DataMetaHadoopUtil`:
    - the glue for text, date-times and decimals;
    - the generic `writeCollection` / `readList` / `readSet` / `readDeque`, and all 48 typed list, deque and set readers and writers;
    - the long array;
    - the bit array packer `bitArrayToLongs` / `longsToBitArray`.
- **The core helpers** (`ebay_datameta_core.base`): the `SemVer` class (parse, variable name, accessors, `__eq__`, `__cmp__`, `diffLevel`) and `DateTime.fromMillis` / `toMillis`.

## The stream

A stream is a sequence of tokens, one per Hadoop primitive write: `VInt`, `VLong`, `Bool`, `Float32`, `Float64` (bit patterns) and `Text`.

- An `InOutable` is a `Codec`: a write function, plus a read function that takes the front of a stream and returns the value and the number of tokens consumed.
- The output stream `DataOutput` and the input stream `DataInput` (tokens plus a read position) are classes. The codec methods change them in place, as the original changes its `DataOutputStream` / `DataInputStream`.
- Each reading method is proved against a specification function on the remaining tokens: `DecodeCollection`, `DecodeSet`, `DecodeBits`, `ReadOne`. Each writing method states exactly which tokens it appends.
- The properties are proved on those functions:
  - round trips;
  - framing, meaning a value written after a collection still decodes;
  - counts;
  - failure on truncated input.
- In the token model a read returns `Fail` where the stream ends early or the next token is of another kind. Python raises on a stream that ends early; on a token of another kind it may not (see "Left out").

## The bit packer

- `bitArrayToLongs` is a loop that ors each set bit into an unsigned word and appends the word as `int64` after bit 63 of each run. Its final flush test is `bitLen ^ 64 != 0`, which holds exactly when `bitLen != 64`.
- The model keeps this behaviour:
  - `n = 0` gives one zero word;
  - `n = 64` gives one word;
  - every other positive multiple of 64 gives a trailing zero word.
- `BitWords.Pack` is the reference definition the loop is proved against. The lemmas show that:
  - the data bits still round-trip through `longsToBitArray`;
  - the padding bits are clear;
  - every word beyond `ceil(n / 64)` is zero.
- `uint64` words are modelled by their values in `[0, 2^64)`:
  - `w | (1 << j)` is `SetBit`;
  - the test `w & (1 << j) != 0` is `Bit`;
  - `astype(int64)` / `uint64(x)` are `ToSigned` / `ToUnsigned`.

## Model

| member | source | states |
|---|---|---|
| Wire.ReadOneOfWrite | ser/hadoop/ebay_datameta_hadoop/base.py:18-27 | For a sound `InOutable` (one whose read inverts its write), reading what `write` produced gives the value back and consumes exactly its tokens, whatever follows. |
| Wire.PrimitiveCodecsSound | ser/hadoop/ebay_datameta_hadoop/base.py:229-263 | Each primitive (`writeVInt`/`readVInt`, `writeVLong`/`readVLong`, booleans, floats, doubles, `Text`) reads back what it wrote, and fails on a stream cut short. |
| Wire.ReadOne | ser/hadoop/ebay_datameta_hadoop/base.py:41-42 | A read from the front of a stream never claims more tokens than there are. It agrees with the codec whenever the codec succeeds within the stream, and fails otherwise. |
| Wire.DataOutput.Write | ser/hadoop/ebay_datameta_hadoop/base.py:45-49 | Writing a value appends its encoding to everything written so far. |
| Wire.DataInput.Read | ser/hadoop/ebay_datameta_hadoop/base.py:41-42 | A read yields the value the codec decodes at the current position and advances past exactly its tokens, or fails. |
| CollectionWire.DecodeElems | ser/hadoop/ebay_datameta_hadoop/base.py:136-142 | `n` element reads yield exactly `max(n, 0)` elements, within the stream, or fail. |
| CollectionWire.DecodeCollection | ser/hadoop/ebay_datameta_hadoop/base.py:136-142 | A collection read consumes at least the count token and no more than the stream holds. |
| CollectionWire.ElemsRoundTrip | ser/hadoop/ebay_datameta_hadoop/base.py:136-142 | Reading back the element encodings of `xs` gives `xs`, in order, and consumes exactly those encodings. |
| CollectionWire.CollectionRoundTrip | ser/hadoop/ebay_datameta_hadoop/base.py:129-133 | `readList(writeCollection(xs)) == xs` with order kept, and the read ends exactly where the written collection ends. |
| CollectionWire.NextValueIntact | ser/hadoop/ebay_datameta_hadoop/base.py:136-142 | A value written after a collection still decodes intact after the collection is read. |
| CollectionWire.NonPositiveCountIsEmpty | ser/hadoop/ebay_datameta_hadoop/base.py:136-142 | A count of zero or below yields an empty collection after consuming only the count; no error. |
| CollectionWire.DecodeElemsFailsOnward | ser/hadoop/ebay_datameta_hadoop/base.py:136-142 | Once one element read fails, every longer run of reads fails. |
| CollectionWire.TruncatedCollectionFails | ser/hadoop/ebay_datameta_hadoop/base.py:136-142 | A collection whose encoding was cut short cannot be read. |
| CollectionWire.EnumerationSize | ser/hadoop/ebay_datameta_hadoop/base.py:129-133 | An iteration over a set visits as many elements as the set has, so the count written for a set is its size. |
| CollectionWire.SetRoundTrip | ser/hadoop/ebay_datameta_hadoop/base.py:145-151 | `readSet(writeCollection(s)) == s` for every iteration order of `s`, consuming exactly what was written; the count written is `len(s)`. |
| DataMetaHadoopUtil.WriteTextIfAny | ser/hadoop/ebay_datameta_hadoop/base.py:77-78 | Appends exactly one `Text` token holding the string, or `""` for `None`. |
| DataMetaHadoopUtil.ReadText | ser/hadoop/ebay_datameta_hadoop/base.py:81-82 | Reads one `Text` token, or fails. |
| DataMetaHadoopUtil.TextIfAnyRoundTrip | ser/hadoop/ebay_datameta_hadoop/base.py:77-82 | What `writeTextIfAny` wrote reads back as the string, and as `""` when the string was `None`. |
| DataMetaHadoopUtil.WriteDttm | ser/hadoop/ebay_datameta_hadoop/base.py:85-87 | Appends the zone key `Z_TZ_ID` (0) and then the epoch milliseconds. |
| DataMetaHadoopUtil.ReadDttm | ser/hadoop/ebay_datameta_hadoop/base.py:90-92 | Reads a zone key, whatever its value, then milliseconds, and yields their date-time; fails when either is missing. |
| DataMetaHadoopUtil.WriteDttmUtc | ser/hadoop/ebay_datameta_hadoop/base.py:95-100 | Appends the epoch milliseconds alone. |
| DataMetaHadoopUtil.ReadDttmUtc | ser/hadoop/ebay_datameta_hadoop/base.py:103-104 | Reads the milliseconds and yields their date-time, or fails. |
| DataMetaHadoopUtil.DttmCodecsSound | ser/hadoop/ebay_datameta_hadoop/base.py:85-104 | Both date-time forms read back the date-time written, consume exactly what was written and fail when cut short. |
| DataMetaHadoopUtil.AnyZoneKeyDiscarded | ser/hadoop/ebay_datameta_hadoop/base.py:90-92 | Any zone key followed by milliseconds reads as the date-time of those milliseconds, truncated to whole seconds. |
| DataMetaHadoopUtil.WriteBigDecimal | ser/hadoop/ebay_datameta_hadoop/base.py:111-112 | A decimal is written as one `Text` token holding its `"%s"` text. |
| DataMetaHadoopUtil.ReadBigDecimal | ser/hadoop/ebay_datameta_hadoop/base.py:107-108 | A decimal is read from one `Text` token, or the read fails. |
| DataMetaHadoopUtil.DecimalCodecSound | ser/hadoop/ebay_datameta_hadoop/base.py:107-112 | A decimal reads back as itself; its encoding is that of its text. |
| DataMetaHadoopUtil.WriteCollection | ser/hadoop/ebay_datameta_hadoop/base.py:129-133 | Nothing for `None`; otherwise `VInt(len(vals))` and one element encoding per element, in order. |
| DataMetaHadoopUtil.WriteElems | ser/hadoop/ebay_datameta_hadoop/base.py:132-133 | The element loop appends one encoding per element, in order. |
| DataMetaHadoopUtil.SetIterationOrder | ser/hadoop/ebay_datameta_hadoop/base.py:132-133 | Iterating over a set visits every element exactly once. |
| DataMetaHadoopUtil.WriteCollectionOfSet | ser/hadoop/ebay_datameta_hadoop/base.py:129-133 | For a set: nothing for `None`, else the size and the elements in an iteration order that lists each element once. |
| DataMetaHadoopUtil.ReadElems | ser/hadoop/ebay_datameta_hadoop/base.py:138-142 | The `range(n)` loop appends `n` element reads in order, matching `DecodeElems`; a failing read fails the whole. |
| DataMetaHadoopUtil.ReadList | ser/hadoop/ebay_datameta_hadoop/base.py:136-142 | Reads the count and that many elements, exactly as `DecodeCollection` specifies, ending right after them. |
| DataMetaHadoopUtil.ReadDeque | ser/hadoop/ebay_datameta_hadoop/base.py:154-160 | The same reads as `readList`, into a deque. |
| DataMetaHadoopUtil.ReadSet | ser/hadoop/ebay_datameta_hadoop/base.py:145-151 | Reads the count and that many elements into a set, exactly as `DecodeSet` specifies. |
| DataMetaHadoopUtil.ReadSetElems | ser/hadoop/ebay_datameta_hadoop/base.py:147-151 | The set loop adds each element read; the set is that of the elements `DecodeElems` yields. |
| DataMetaHadoopUtil.WriteLongArray | ser/hadoop/ebay_datameta_hadoop/base.py:115-118 | Always (no `None` case) the count and then one `VLong` per word. |
| DataMetaHadoopUtil.ReadLongArray | ser/hadoop/ebay_datameta_hadoop/base.py:121-126 | Reads the count and that many `VLong` words. |
| DataMetaHadoopUtil.BitArrayToLongs | ser/hadoop/ebay_datameta_hadoop/base.py:530-547 | The packing loop yields `Pack(ba)`: bit `i` in bit `i mod 64` of word `i / 64`, a word appended after each bit 63 and a final one unless `len(ba) == 64`. |
| DataMetaHadoopUtil.PackBitStep | ser/hadoop/ebay_datameta_hadoop/base.py:539-544 | One pass of the loop or-s bit `ix` into the current word and appends the word once it holds bit 63 of its run, keeping the packer state exact. |
| DataMetaHadoopUtil.LongsToBitArray | ser/hadoop/ebay_datameta_hadoop/base.py:550-559 | Yields `64 * len(longs)` bits, bit `64k + j` set exactly when bit `j` of word `k` read as unsigned is set. |
| DataMetaHadoopUtil.WriteBitArray | ser/hadoop/ebay_datameta_hadoop/base.py:562-563 | Writes the packed words as a long array. |
| DataMetaHadoopUtil.ReadBitArray | ser/hadoop/ebay_datameta_hadoop/base.py:566-567 | Reads a long array and unpacks it; fails when the long array cannot be read. |
| DataMetaHadoopUtil.ElementCodecsSound | ser/hadoop/ebay_datameta_hadoop/base.py:165-527 | Every element kind of the typed collections reads back what it wrote, so their list, deque and set round trips hold. |
| DataMetaHadoopUtil.ReadListInteger | ser/hadoop/ebay_datameta_hadoop/base.py:165-170 | The count, then that many `VInt` elements in order, as `DecodeCollection` specifies. |
| DataMetaHadoopUtil.ReadListLong | ser/hadoop/ebay_datameta_hadoop/base.py:173-178 | The count, then that many `VLong` elements in order, as `DecodeCollection` specifies. |
| DataMetaHadoopUtil.ReadListBoolean | ser/hadoop/ebay_datameta_hadoop/base.py:181-186 | The count, then that many boolean elements in order, as `DecodeCollection` specifies. |
| DataMetaHadoopUtil.ReadListFloat | ser/hadoop/ebay_datameta_hadoop/base.py:189-194 | The count, then that many float elements in order, as `DecodeCollection` specifies. |
| DataMetaHadoopUtil.ReadListDouble | ser/hadoop/ebay_datameta_hadoop/base.py:197-202 | The count, then that many double elements in order, as `DecodeCollection` specifies. |
| DataMetaHadoopUtil.ReadListString | ser/hadoop/ebay_datameta_hadoop/base.py:205-210 | The count, then that many `Text` elements in order, as `DecodeCollection` specifies. |
| DataMetaHadoopUtil.ReadListDateTime | ser/hadoop/ebay_datameta_hadoop/base.py:213-218 | The count, then that many legacy date-time elements in order, as `DecodeCollection` specifies. |
| DataMetaHadoopUtil.ReadListBigDecimal | ser/hadoop/ebay_datameta_hadoop/base.py:221-226 | The count, then that many decimal elements in order, as `DecodeCollection` specifies. |
| DataMetaHadoopUtil.WriteListInteger | ser/hadoop/ebay_datameta_hadoop/base.py:229-233 | Nothing for `None`, else the count and one `VInt` encoding per element, in order. |
| DataMetaHadoopUtil.WriteListLong | ser/hadoop/ebay_datameta_hadoop/base.py:236-240 | Nothing for `None`, else the count and one `VLong` encoding per element, in order. |
| DataMetaHadoopUtil.WriteListBoolean | ser/hadoop/ebay_datameta_hadoop/base.py:243-247 | Nothing for `None`, else the count and one boolean encoding per element, in order. |
| DataMetaHadoopUtil.WriteListFloat | ser/hadoop/ebay_datameta_hadoop/base.py:250-254 | Nothing for `None`, else the count and one float encoding per element, in order. |
| DataMetaHadoopUtil.WriteListDouble | ser/hadoop/ebay_datameta_hadoop/base.py:257-261 | Nothing for `None`, else the count and one double encoding per element, in order. |
| DataMetaHadoopUtil.WriteListString | ser/hadoop/ebay_datameta_hadoop/base.py:264-268 | Nothing for `None`, else the count and one `Text` encoding per element, in order. |
| DataMetaHadoopUtil.WriteListDateTime | ser/hadoop/ebay_datameta_hadoop/base.py:271-275 | Nothing for `None`, else the count and one legacy date-time encoding per element, in order. |
| DataMetaHadoopUtil.WriteListBigDecimal | ser/hadoop/ebay_datameta_hadoop/base.py:278-282 | Nothing for `None`, else the count and one decimal encoding per element, in order. |
| DataMetaHadoopUtil.ReadDequeInteger | ser/hadoop/ebay_datameta_hadoop/base.py:288-293 | The count, then that many `VInt` elements in order, as `DecodeCollection` specifies. |
| DataMetaHadoopUtil.ReadDequeLong | ser/hadoop/ebay_datameta_hadoop/base.py:296-301 | The count, then that many `VLong` elements in order, as `DecodeCollection` specifies. |
| DataMetaHadoopUtil.ReadDequeBoolean | ser/hadoop/ebay_datameta_hadoop/base.py:304-309 | The count, then that many boolean elements in order, as `DecodeCollection` specifies. |
| DataMetaHadoopUtil.ReadDequeFloat | ser/hadoop/ebay_datameta_hadoop/base.py:312-317 | The count, then that many float elements in order, as `DecodeCollection` specifies. |
| DataMetaHadoopUtil.ReadDequeDouble | ser/hadoop/ebay_datameta_hadoop/base.py:320-325 | The count, then that many double elements in order, as `DecodeCollection` specifies. |
| DataMetaHadoopUtil.ReadDequeString | ser/hadoop/ebay_datameta_hadoop/base.py:328-333 | The count, then that many `Text` elements in order, as `DecodeCollection` specifies. |
| DataMetaHadoopUtil.ReadDequeDateTime | ser/hadoop/ebay_datameta_hadoop/base.py:336-341 | The count, then that many legacy date-time elements in order, as `DecodeCollection` specifies. |
| DataMetaHadoopUtil.ReadDequeBigDecimal | ser/hadoop/ebay_datameta_hadoop/base.py:344-349 | The count, then that many decimal elements in order, as `DecodeCollection` specifies. |
| DataMetaHadoopUtil.WriteDequeInteger | ser/hadoop/ebay_datameta_hadoop/base.py:352-356 | Nothing for `None`, else the count and one `VInt` encoding per element, in order. |
| DataMetaHadoopUtil.WriteDequeLong | ser/hadoop/ebay_datameta_hadoop/base.py:359-363 | Nothing for `None`, else the count and one `VLong` encoding per element, in order. |
| DataMetaHadoopUtil.WriteDequeBoolean | ser/hadoop/ebay_datameta_hadoop/base.py:366-370 | Nothing for `None`, else the count and one boolean encoding per element, in order. |
| DataMetaHadoopUtil.WriteDequeFloat | ser/hadoop/ebay_datameta_hadoop/base.py:373-377 | Nothing for `None`, else the count and one float encoding per element, in order. |
| DataMetaHadoopUtil.WriteDequeDouble | ser/hadoop/ebay_datameta_hadoop/base.py:380-384 | Nothing for `None`, else the count and one double encoding per element, in order. |
| DataMetaHadoopUtil.WriteDequeString | ser/hadoop/ebay_datameta_hadoop/base.py:387-391 | Nothing for `None`, else the count and one `Text` encoding per element, in order. |
| DataMetaHadoopUtil.WriteDequeDateTime | ser/hadoop/ebay_datameta_hadoop/base.py:394-398 | Nothing for `None`, else the count and one legacy date-time encoding per element, in order. |
| DataMetaHadoopUtil.WriteDequeBigDecimal | ser/hadoop/ebay_datameta_hadoop/base.py:401-405 | Nothing for `None`, else the count and one decimal encoding per element, in order. |
| DataMetaHadoopUtil.ReadSetInteger | ser/hadoop/ebay_datameta_hadoop/base.py:410-415 | The count, then that many `VInt` elements gathered into a set, as `DecodeSet` specifies. |
| DataMetaHadoopUtil.ReadSetLong | ser/hadoop/ebay_datameta_hadoop/base.py:418-423 | The count, then that many `VLong` elements gathered into a set, as `DecodeSet` specifies. |
| DataMetaHadoopUtil.ReadSetBoolean | ser/hadoop/ebay_datameta_hadoop/base.py:426-431 | The count, then that many boolean elements gathered into a set, as `DecodeSet` specifies. |
| DataMetaHadoopUtil.ReadSetFloat | ser/hadoop/ebay_datameta_hadoop/base.py:434-439 | The count, then that many float elements gathered into a set, as `DecodeSet` specifies. |
| DataMetaHadoopUtil.ReadSetDouble | ser/hadoop/ebay_datameta_hadoop/base.py:442-447 | The count, then that many double elements gathered into a set, as `DecodeSet` specifies. |
| DataMetaHadoopUtil.ReadSetString | ser/hadoop/ebay_datameta_hadoop/base.py:450-455 | The count, then that many `Text` elements gathered into a set, as `DecodeSet` specifies. |
| DataMetaHadoopUtil.ReadSetDateTime | ser/hadoop/ebay_datameta_hadoop/base.py:458-463 | The count, then that many legacy date-time elements gathered into a set, as `DecodeSet` specifies. |
| DataMetaHadoopUtil.ReadSetBigDecimal | ser/hadoop/ebay_datameta_hadoop/base.py:466-471 | The count, then that many decimal elements gathered into a set, as `DecodeSet` specifies. |
| DataMetaHadoopUtil.WriteSetInteger | ser/hadoop/ebay_datameta_hadoop/base.py:474-478 | Nothing for `None`, else the size and one `VInt` encoding per element, each element once. |
| DataMetaHadoopUtil.WriteSetLong | ser/hadoop/ebay_datameta_hadoop/base.py:481-485 | Nothing for `None`, else the size and one `VLong` encoding per element, each element once. |
| DataMetaHadoopUtil.WriteSetBoolean | ser/hadoop/ebay_datameta_hadoop/base.py:488-492 | Nothing for `None`, else the size and one boolean encoding per element, each element once. |
| DataMetaHadoopUtil.WriteSetFloat | ser/hadoop/ebay_datameta_hadoop/base.py:495-499 | Nothing for `None`, else the size and one float encoding per element, each element once. |
| DataMetaHadoopUtil.WriteSetDouble | ser/hadoop/ebay_datameta_hadoop/base.py:502-506 | Nothing for `None`, else the size and one double encoding per element, each element once. |
| DataMetaHadoopUtil.WriteSetString | ser/hadoop/ebay_datameta_hadoop/base.py:509-513 | Nothing for `None`, else the size and one `Text` encoding per element, each element once. |
| DataMetaHadoopUtil.WriteSetDateTime | ser/hadoop/ebay_datameta_hadoop/base.py:516-520 | Nothing for `None`, else the size and one legacy date-time encoding per element, each element once. |
| DataMetaHadoopUtil.WriteSetBigDecimal | ser/hadoop/ebay_datameta_hadoop/base.py:523-527 | Nothing for `None`, else the size and one decimal encoding per element, each element once. |
| BitWords.ToSigned | ser/hadoop/ebay_datameta_hadoop/base.py:543 | `astype(int64)` gives a signed 64-bit value congruent to the word mod 2^64, negative exactly when bit 63 is set. |
| BitWords.ToUnsigned | ser/hadoop/ebay_datameta_hadoop/base.py:555 | `uint64(x)` is in range, leaves an unsigned word as it is, and undoes `astype(int64)`. |
| BitWords.UnsignedOfSigned | ser/hadoop/ebay_datameta_hadoop/base.py:543-555 | A word read back as unsigned after `astype(int64)` is the word that was built. |
| BitWords.SetBitBit | ser/hadoop/ebay_datameta_hadoop/base.py:541 | Or-ing in `1 << j` sets bit `j` and leaves every other bit as it was. |
| BitWords.RunWord | ser/hadoop/ebay_datameta_hadoop/base.py:539-544 | The word of a run of bits is below `2^(run length)`. |
| BitWords.RunWordBit | ser/hadoop/ebay_datameta_hadoop/base.py:539-544 | Bit `j` of a run's word is bit `lo + j` of the input within the run, and clear beyond it. |
| BitWords.Pack | ser/hadoop/ebay_datameta_hadoop/base.py:530-547 | The packing has `len(ba) / 64 + (len(ba) != 64 ? 1 : 0)` words. |
| BitWords.WordCount | ser/hadoop/ebay_datameta_hadoop/base.py:546 | The packer emits at least one word, enough words to hold all `n` bits, and no word that starts beyond the input. |
| BitWords.WordCountCases | ser/hadoop/ebay_datameta_hadoop/base.py:546 | `n = 0` gives one word, `n = 64` one word, `n = 128` three; always at least `ceil(n / 64)` words. |
| BitWords.PackInt64 | ser/hadoop/ebay_datameta_hadoop/base.py:543-546 | Every packed word is a signed 64-bit value. |
| BitWords.PackBit | ser/hadoop/ebay_datameta_hadoop/base.py:530-547 | Bit `j` of word `k`, read as unsigned, is bit `64k + j` of the input when it exists, and clear otherwise. |
| BitWords.Unpack | ser/hadoop/ebay_datameta_hadoop/base.py:550-559 | Unpacking yields 64 bits per word. |
| BitWords.UnpackPack | ser/hadoop/ebay_datameta_hadoop/base.py:530-559 | Unpacking the packing gives the input bits first and only clear bits after them, `64 * WordCount(n)` bits in all. |
| BitWords.PaddingWordsZero | ser/hadoop/ebay_datameta_hadoop/base.py:546 | Every word beyond the `ceil(n / 64)` that hold data bits is zero. |
| BitWords.BitArrayRoundTrip | ser/hadoop/ebay_datameta_hadoop/base.py:562-567 | `readBitArray(writeBitArray(ba))` holds `ba` in its first `len(ba)` bits and clear bits after them, and ends where the encoding ends. |
| BitWords.DecodeBits | ser/hadoop/ebay_datameta_hadoop/base.py:566-567 | `readBitArray` fails exactly when `readLongArray` fails; otherwise it yields 64 bits per long read and stops where that read stops, within the stream. |
| InOutable.WriteVersion | ser/hadoop/ebay_datameta_hadoop/base.py:30-31 | Appends the version as one `VInt`. |
| InOutable.ReadVersion | ser/hadoop/ebay_datameta_hadoop/base.py:34-35 | In the token model: reads one `VInt` token, whatever its value, and advances past it; fails when the next token is not a `VInt`. |
| InOutable.VersionRoundTrip | ser/hadoop/ebay_datameta_hadoop/base.py:30-35 | The tag written by `writeVersion` is read back by `readVersion`, which stops right after it. |
| BytesDataIoUtil.Read | ser/hadoop/ebay_datameta_hadoop/base.py:41-42 | One read from a fresh stream over the bytes: the value the codec decodes there, or failure. |
| BytesDataIoUtil.Write | ser/hadoop/ebay_datameta_hadoop/base.py:45-49 | The bytes are the value's encoding on a fresh stream, and a sound codec reads them back as the value. |
| BytesDataIoUtil.Decode | ser/hadoop/ebay_datameta_hadoop/base.py:41-42 | One read from the start of the bytes: it fails exactly when the codec read fails, and otherwise yields the read value, ignoring whatever follows it. |
| BytesDataIoUtil.ReadVersioned | ser/hadoop/ebay_datameta_hadoop/base.py:52-55 | In the token model: reads and discards a `VInt` tag token, then one value; fails when the bytes do not start with a `VInt` token. |
| BytesDataIoUtil.WriteVersioned | ser/hadoop/ebay_datameta_hadoop/base.py:58-63 | The bytes are `VInt(val.getVersion())` then the value's encoding, and a versioned read gives the value back. |
| BytesDataIoUtil.DecodeVersioned | ser/hadoop/ebay_datameta_hadoop/base.py:52-55 | In the token model, a versioned read succeeds only over a leading `VInt` tag token, and is then the plain read of what follows the tag. |
| BytesDataIoUtil.RoundTrip | ser/hadoop/ebay_datameta_hadoop/base.py:41-49 | `read(write(io, v)) == v` for a sound codec. |
| BytesDataIoUtil.TagIgnored | ser/hadoop/ebay_datameta_hadoop/base.py:52-55 | A versioned read is the plain read of what follows the tag, whatever the tag. |
| BytesDataIoUtil.VersionedRoundTrip | ser/hadoop/ebay_datameta_hadoop/base.py:41-63 | `readVersioned(writeVersioned(io, v)) == read(write(io, v))` for every version, and so `v` for a sound codec. |
| DateTime.FromMillis | core/ebay_datameta_core/base.py:67-69 | `ms // 1000` seconds: the date-time lies within the second holding `ms`, rounding negative values towards the past. |
| DateTime.ToMillis | core/ebay_datameta_core/base.py:71-73 | Always a multiple of 1000, the date-time's seconds times 1000. |
| DateTime.MillisRoundTrip | core/ebay_datameta_core/base.py:67-73 | `toMillis(fromMillis(ms)) == (ms // 1000) * 1000`, the largest multiple of 1000 not above `ms`. |
| DateTime.DateTimeRoundTrip | core/ebay_datameta_core/base.py:67-73 | `fromMillis(toMillis(dt)) == dt`. |
| DateTime.WholeSecondMillisRoundTrip | core/ebay_datameta_core/base.py:67-73 | Whole-second milliseconds round-trip exactly. |
| DateTime.TestTimestampRoundTrip | core/tests/test_core.py:34-37 | The timestamp 1464586777000 of `test_dt_roundtrip` round-trips. |
| SemVer.DigitPrefix | core/ebay_datameta_core/base.py:116-120 | The items are the values of the longest all-digit prefix of the pieces; the piece after it, if any, is not all digits. |
| SemVer.DigitPrefixUnique | core/ebay_datameta_core/base.py:116-120 | The digit prefix is the only item list that converts all-digit pieces in order and stops at the end or at a non-digit piece. |
| SemVer.Parsed | core/ebay_datameta_core/base.py:112-126 | A successful parse keeps its source and has 3 or 4 items; `None` is rejected. |
| SemVer.Parse | core/ebay_datameta_core/base.py:112-126 | The constructor loop accepts exactly when the digit prefix of the dot-split pieces has 3 or 4 items, and then holds those items; `None` fails; a zero build is not rejected. |
| SemVer.VarNameRoundTrip | core/ebay_datameta_core/base.py:132-133 | Each `_`-separated piece of `toVarName` is the decimal form of its item, in order: all digits, no leading zero unless it is `0`, and `int(piece)` is the item. |
| SemVer.ToVarName | core/ebay_datameta_core/base.py:132-133 | `toVarName` splits back on `_` into the decimal forms of the items, in order. |
| SemVer.SemanticPartsOnly | core/ebay_datameta_core/base.py:128 | The semantic parts split back on `.` into the decimal forms of the items, in order. |
| SemVer.JoinNumerals | core/ebay_datameta_core/base.py:128-133 | `sep.join(map(str, items))` on a non-digit separator splits back on `sep` into the decimal forms of the items, in order. |
| SemVer.SemanticPartsReparse | core/ebay_datameta_core/base.py:128 | The semantic parts (items joined with dots) parse back to the same items. |
| SemVer.Cmp | core/ebay_datameta_core/base.py:182 | Python 2 `cmp` on numbers: 0, -1, 1 exactly for equal, less, greater. |
| SemVer.CmpBuild | core/ebay_datameta_core/base.py:189 | Python 2 `cmp` on optional builds: 0 exactly when equal, `None` below every number, numbers by value. |
| SemVer.LexCompare | core/ebay_datameta_core/base.py:177-189 | The order on item lists is a three-way answer. |
| SemVer.Compare | core/ebay_datameta_core/base.py:177-189 | `__cmp__` on valid versions equals the lexicographic comparison of the items (a proper prefix first); comparing with `None` fails. |
| SemVer.LexCompareZeroIff | core/ebay_datameta_core/base.py:177-189 | The comparison is 0 exactly when the item lists are equal. |
| SemVer.LexCompareAntisymmetric | core/ebay_datameta_core/base.py:177-189 | Swapping the operands negates the comparison. |
| SemVer.LexCompareTransitive | core/ebay_datameta_core/base.py:177-189 | "Less than" is transitive. |
| SemVer.Equals | core/ebay_datameta_core/base.py:171-172 | `__eq__` holds exactly when `__cmp__` is 0; comparing with `None` fails, as `None.items()` raises. |
| SemVer.DiffLevelOf | core/ebay_datameta_core/base.py:156-169 | MAJOR exactly when the majors differ; MINOR exactly when the majors agree and the minors differ; UPDATE exactly when major and minor agree and the updates differ; BUILD exactly when major, minor and update agree and the builds differ (a missing build differs from a present one); NONE exactly when `__eq__` holds. |
| SemVer.SamePartsSameItems | core/ebay_datameta_core/base.py:144-154 | Versions that agree on major, minor, update and build have the same items. |
| SemVer.DiffLevelSymmetric | core/ebay_datameta_core/base.py:156-169 | `diffLevel` does not depend on the order of its operands. |
| SemVer.DiffLevelDecidesCompare | core/ebay_datameta_core/base.py:156-189 | At MAJOR, MINOR or UPDATE, `__cmp__` is decided by that part; at BUILD by comparing the builds (a missing build first); NONE exactly when `__cmp__` is 0. |
| Strings.Split | core/ebay_datameta_core/base.py:116 | Splitting on `.` gives at least one piece and no piece holds a dot. |
| Strings.SplitJoin | core/ebay_datameta_core/base.py:116 | Splitting the join of dot-free pieces gives the pieces back. |
| Strings.JoinSplit | core/ebay_datameta_core/base.py:116 | Joining the pieces of a split gives the text back. |
| Strings.NatToStringValue | core/ebay_datameta_core/base.py:133 | `int(str(n)) == n`. |
| SemVerExamples.ParsedPieces | core/ebay_datameta_core/base.py:116-123 | For a text that is the dot-join of dot-free pieces, the parse is decided by their digit prefix. |
| SemVerExamples.RejectsTrailingDot | core/tests/test_core.py:72 | `"1.2."` is rejected. |
| SemVerExamples.RejectsLetter | core/tests/test_core.py:73 | `"1a.2.3"` is rejected. |
| SemVerExamples.RejectsTrailingLetter | core/tests/test_core.py:75 | `"1.2.3a"` is rejected. |
| SemVerExamples.RejectsEmpty | core/tests/test_core.py:77-78 | `""` and `None` are rejected. |
| SemVerExamples.RejectsMinus | core/tests/test_core.py:79 | `"-1.2.3"` is rejected. |
| SemVerExamples.AcceptsZeroBuild | core/ebay_datameta_core/base.py:125-126 | `"1.2.3.0"` is accepted with build 0: the zero-build test never fires. |
| SemVerExamples.AcceptsSuffix | core/tests/test_core.py:96 | `"12.345.6.blah-blah-yada.yada"` parses to 12, 345, 6 with no build. |
| SemVerExamples.AcceptsBuild | core/tests/test_core.py:92 | `"12.345.6.7"` parses to major 12, minor 345, update 6 and build 7. |
| SemVerExamples.CompareExamples | core/tests/test_core.py:99-123 | The orderings the tests assert hold on the item lists of the tests' texts. |
| SemVerExamples.CompareParsedExample | core/tests/test_core.py:105-113 | From the texts themselves, `SemVer("5.6.7")` is below `SemVer("5.6.7.8")` and `SemVer("5.6.7.8")` above `SemVer("5.6.7")`. |
| SemVerExamples.DiffLevelExamples | core/tests/test_core.py:126-134 | The difference levels the tests assert hold on versions built from the items of the tests' texts. |
| SemVerExamples.DiffLevelParsedExample | core/tests/test_core.py:132 | From the texts themselves, `SemVer("1.2.3.4").diffLevel(SemVer("1.2.3.blah"))` is BUILD. |
| SemVerExamples.VarNameThree | core/tests/test_core.py:83 | `SemVer("12.234.456").toVarName() == "12_234_456"`. |
| SemVerExamples.VarNameFour | core/tests/test_core.py:84 | `SemVer("12.234.456.7890").toVarName() == "12_234_456_7890"`. |

## Left out

- The byte-level Hadoop encodings are not modelled: the `WritableUtils` VInt/VLong byte formats, `Text` UTF-8, and `DataInput`/`DataOutput` booleans and floats. Each primitive is one token, and a read either yields the token's value or fails. Token integers are unbounded, so the 32-bit range of `VInt` and the 64-bit range of `VLong` are not enforced. The type of the exception on a bad stream is not modelled, nor is the stream position after a failed read.
- Tokens are typed, so reading one primitive kind over a token of another kind fails in the model. In Hadoop the bytes may still decode: `VInt` and `VLong` share one byte format, `Text` begins with a `VInt` length, and the boolean bytes 0 and 1 are valid `VInt`s. So `readVersion`, `readVersioned` and the other readers may succeed in Python over a stream that the model rejects.
- Float and double elements travel as opaque bit patterns. `writeFloat`'s narrowing of a Python float to 32 bits and all floating-point semantics are not modelled.
- Decimals are their `"%s"` text. `Decimal` parsing, validation and numeric equality are not modelled.
- `WriteBigDecimal` takes a present decimal, so `"%s" % None` writing the text `"None"` is not modelled.
- Strings in the typed string collections are assumed present. `writeListString` and the other string writers pass each element through `writeTextIfAny`, which would write `None` as `""`; that is modelled only for single strings (`TextOf`, `WriteTextIfAny`).
- Date-times are whole seconds since the epoch. The calendar functions (`utcfromtimestamp`, `timegm`), `DateTime.fromIsoUtc` / `toIsoUtc` and their formats are not modelled.
- The debug output and dead code of `bitArrayToLongs` are not modelled: the two debug prints, and `i8Len`, which is computed but never sizes anything.
- The empty `TZ_ID_TO_KEY` / `KEY_TO_TZ_ID` tables are not modelled, nor is `setTextualIfAny`, which fills a foreign `Text` object.
- The abstract `InOutable.read` / `readVal` / `write` are the `Codec` datatype; `readVal` (read into an existing object) has no counterpart.
- The marker classes of the core file are not modelled. `val.getVersion()` is a function passed to `WriteVersioned`.
- `readLongArray` / `writeLongArray` and the 48 typed collection codecs each repeat the generic loop in the original. The model runs the one generic loop (`ReadElems`, `ReadSetElems`, `WriteElems`) with the element's codec.
- Set iteration order is left open: `WriteCollectionOfSet` and the typed set writers return the order they used as a ghost value, and the round trip holds for every order.
- `uint64(x)` on a word outside the `int64` range read from a stream is modelled as wrapping modulo 2^64 (`ToUnsigned`); a numpy version that raises instead is not modelled.
- `SemVer.__hash__`, `__str__`, `longStr`, `items()` and `source()` are not modelled; the last two are the fields of `Version`.
- The `$` of the digit pattern `^[0-9]+$` also accepts a trailing newline; pieces are treated as plain text, so that quirk is not modelled.
- `re.split` on `.` is `Strings.Split`.
- The accessors `major` / `minor` / `update` / `build` are functions of `Version` without contracts of their own. What is proved about them is in `DiffLevelDecidesCompare`, `AcceptsSuffix` and `AcceptsZeroBuild`.
- SemVer.DiffLevelOf: takes a present version. `diffLevel(None)` raises `AttributeError` in the original (`None.major()`); that error path is not modelled, unlike for `Equals` and `Compare`.
