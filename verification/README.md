# Verified model of the RDB decoder and batcher

This project models the core of a streaming decoder for Valkey and Redis RDB dumps and of the
row-exploding batcher behind it, and proves what the pipeline is for: that exactly the well-formed
dumps are read, each as what it stands for; that reading in bounded chunks changes nothing; which
damage the checksum catches; and that no row is lost, reordered or invented on the way to the output
files.

Run `dafny verify dfyconfig.toml` to check the whole project.

## What is modelled

| files | part of the program |
|---|---|
| `Common`, `Types`, `Compact` | bytes, errors, little- and big-endian and decimal numbers, parsed values and entries |
| `BitLists`, `Crc64`, `Burst`, `CheckValue`, `Lzf`, `Listpack`, `Ziplist`, `Intset`, `StreamPack` | the checksum and the compact codecs, each with its loops as methods and its layout as an independent encoder |
| `Wire` | every parser of the reader as a function of the input and a position, with the position an error leaves |
| `Machine` | the reader between calls as a state, one `next` call and whole runs as functions |
| `Reader` | `CrcReader` and `RdbReader` as classes, every method proved to compute the function of `Wire` or `Machine` |
| `Chunking`, `Splitting` | chunked reading against whole-key reading: the chunks merged, and the whole run cut |
| `Locality`, `Printing`, `ValueFormat`, `Values`, `FileFormat`, `WholeFile` | parsers depend only on what they consume; lengths, strings, values of every type, records and files as a writer means and prints them, and their round trips |
| `Recovery`, `FileRecovery` | the converse: whatever the reader accepts was printed |
| `Verdict`, `Damage` | the checksum verdict on every file, and what damage it catches |
| `Encodings` | the encodings of a collection of integers are observationally equal; printed elements of plain collections |
| `Words`, `Geohash` | the bit deinterleave and geohash decoding over exact reals |
| `Schema`, `Builders`, `Tables` | tags, schemas, the column builders as a class, and reading the tables back |
| `Routing`, `Naming` | which tables an entry goes to, and the codes and names of stored values, spelled out on their own |
| `Batcher`, `Peaks`, `ArrowBatching` (in `ArrowBatcher.dfy`) | the batcher as functions on buffered rows, its peak bounds, and the classes that follow it |
| `Filter`, `Summary`, `Export`, `Writer` | filter pushdown, the counting pass, whole exports, and the always-finalizing writer driver |

Two styles meet here. A parser or a batching step is a function whose properties are lemmas; the
method with the source's loop or field updates is proved to compute that function. Round trips are
stated against encoders written for this purpose, usually as an if-and-only-if: decoding succeeds
with a value exactly when the input is an encoding of it.

## Main results

- `Chunking.Refines`: for every input and limit, merging the chunks of the chunked run gives the
  unlimited run, item for item, with the same final state.
- `FileRecovery.AcceptsExactlyPrinted`, from `WholeFile.FileReadsBack`, `Values.ValueReads` and
  `Recovery.ValueFrom`: for every byte string, the reader reaches a clean end if and only if the input
  is a file of printed records, and then yields exactly what they stand for. Values and records are
  abstract, printed and given a meaning without any parser; only a listpack entry's back-length may be
  any bytes of the right number that the code's own check passes, which the canonical ones do
  (`Listpack.WriterItemValid`).
- `Verdict.FileVerdict` and `Damage.DamageDetected`: what the end of a run says about the checksum for
  every file that opens, and exactly when damage within eight consecutive bytes of a verified file is
  not reported. Damage behind the header that leaves the end of the records in place always is
  (`Damage.DamageInPlaceReported`); two kinds of damage that are not are shown on files
  (`Damage.VersionDamageUnreported`, `Damage.EarlyEofUnreported`).
- `Crc64.Update` with `Burst.WindowCollision` and `CheckValue.NineDigits`: the table form is the shift
  register, when two inputs can collide, and that it is the checksum of that polynomial.
- `AcceptsExactly...` in `Lzf`, `Listpack`, `Ziplist` and `Intset`, with `StreamPack.RoundTrip` and
  `StreamPack.AcceptsOnlyLayouts`: the codecs accept exactly the encodings and decode their meaning.
- `Export.TablesUnderLimit`, `Export.TablesIgnoreLimits` and `Export.PrintedFileExports`: exactly when
  the chunk limit shows in an exported table, also of a run that ends in an error; without an entry
  cap it never does for a native type; and from a printed file the tables are the rows of the keys its records stand for.
- `Batcher.PeakOverRun` and `Peaks.PeakOfReader`: no batch of a whole iteration exceeds its row and byte
  bounds, for every type.
- `Routing.RowsGoWhereDue`, with `Summary.CountedWhereDue` and `Filter.MatchesPass`: one account of which
  tables an entry goes to, followed by the batcher, the counting pass and the filter alike.
- `Batcher.IterateKeeps`, `Filter.PushdownExact`, `Summary.ExportAgrees` and
  `Writer.EveryWriterClosedOnce`: conservation and order, exact pushdown, export against validation,
  and finalization on every run.
- `Geohash.DecodeEncode` and `Geohash.EncodeDecode`: decoding inverts encoding, both ways.

Where the code is looser than its format suggests, the model follows the code: ziplist counts, tail
offsets and previous lengths are never checked; listpack's element count is not checked and only the
first backlen byte's high bit is; the trailer is read at every version; stream deltas must not be
negative; the version in the header may carry a plus sign; a chunk of a sorted set is never geo.

## Model

| member | source | states |
|---|---|---|
| `Common.LeOfToLe` | crates/rdb-parser/src/reader.rs:206-216 | little-endian writing then reading is the identity on every number of that width |
| `Common.ToLeOfLe` | crates/rdb-parser/src/reader.rs:206-216 | and reading then writing is the identity on every byte string |
| `Common.BeOfToBe` | crates/rdb-parser/src/reader.rs:240-282 | the same for the big-endian 32- and 64-bit lengths |
| `Common.ToBeOfBe` | crates/rdb-parser/src/reader.rs:240-282 | and back |
| `Common.DecimalInjective` | crates/rdb-parser/src/compact.rs:18-27 | two integers with the same decimal text are equal, so integer entries lose nothing when turned into bytes |
| `Common.DecimalWrites` | crates/rdb-parser/src/compact.rs:20-27 | the text of an integer is its magnitude in ASCII digits without leading zeros, which parse back to it, behind byte 45 exactly when it is negative |
| `Compact.IntoBytesSays` | crates/rdb-parser/src/compact.rs:18-27 | a string entry becomes its own bytes, an integer entry that text |
| `Compact.ReadWriteInt` | crates/rdb-parser/src/compact.rs:41-64 | every signed integer of a width reads back from its two's-complement bytes |
| `Compact.WriteReadInt` | crates/rdb-parser/src/compact.rs:41-64 | and every byte string is what its value writes |
| `Crc64.MakeEntry` | crates/rdb-parser/src/crc64.rs:17-37 | the eight-step inner loop computes the register after one byte from zero |
| `Crc64.MakeTable` | crates/rdb-parser/src/crc64.rs:17-37 | the table loop fills every entry with the register after that byte from zero |
| `Crc64.TableStepIsClocking` | crates/rdb-parser/src/crc64.rs:41-47 | one table step equals clocking the byte's eight bits through the shift register |
| `Crc64.Update` | crates/rdb-parser/src/crc64.rs:41-47 | the table-driven loop equals the bit-at-a-time register, for every start value, input and polynomial |
| `Crc64.CrcAppend` | crates/rdb-parser/src/crc64.rs:39-47 | the checksum composes over any split of the input |
| `Burst.WindowCollision` | crates/rdb-parser/src/crc64.rs:39-47 | two registers fed equally long windows of at most 64 bits meet if and only if they differ by the exclusive-or of the windows |
| `Burst.BurstDetected` | crates/rdb-parser/src/crc64.rs:39-47 | bit strings that differ only inside 64 consecutive bits always leave different registers |
| `Burst.ByteBurstDetected` | crates/rdb-parser/src/crc64.rs:41-47 | inputs of equal length that differ only inside eight consecutive bytes always have different checksums |
| `Burst.PolyInvertible` | crates/rdb-parser/src/crc64.rs:14 | the top bit of the polynomial is set, which the three results above ask for |
| `CheckValue.ClockWords` | crates/rdb-parser/src/crc64.rs:17-37 | the register as a list of bits is the source's 64-bit word, shifted right and combined with 0x95ac9329ac4bc9b5 whenever its low bit and the input bit differ, for every start and input |
| `CheckValue.PolynomialBothWays` | crates/rdb-parser/src/crc64.rs:5-14 | the constant is 0x95ac9329ac4bc9b5, and its bits in reverse order are the polynomial 0xad93d23594c935a9 that the checksum is named by |
| `CheckValue.NineDigits` | crates/rdb-parser/src/crc64.rs:5-47 | the checksum of the nine characters 1 to 9 is 0xe9c6d914c4b8d9ca, the check value of this checksum |
| `Lzf.CopyBackBytes` | crates/rdb-parser/src/lzf.rs:77-96 | every byte a back-reference appends is the byte `offset` places before it, overlapping or not |
| `Lzf.BulkCopy` | crates/rdb-parser/src/lzf.rs:77-96 | the bulk-copy branch appends what the byte loop appends whenever the copy does not overlap itself |
| `Lzf.CopyMatch` | crates/rdb-parser/src/lzf.rs:77-96 | both branches of the copy compute the byte-by-byte meaning |
| `Lzf.ReadMatch` | crates/rdb-parser/src/lzf.rs:51-75 | length and offset of a back-reference, or the truncation |
| `Lzf.Inflate` | crates/rdb-parser/src/lzf.rs:29-106 | the token loop with its early checks returns the meaning of the stream when it has the expected length, and an error otherwise |
| `Lzf.Decompress` | crates/rdb-parser/src/lzf.rs:19-106 | the ratio guard and the early checks never change that answer |
| `Lzf.AcceptsExactlyEncodings` | crates/rdb-parser/src/lzf.rs:19-106 | a stream decompresses to `o` if and only if it is the encoding of some token list that expands to `o` |
| `Lzf.Growth` | crates/rdb-parser/src/lzf.rs:9 | a stream means at most 88 output bytes for each input byte |
| `Lzf.RatioGuardIsHarmless` | crates/rdb-parser/src/lzf.rs:20-28 | no stream that the 1024x guard rejects had the expected length |
| `Listpack.EntryRoundTrip` | crates/rdb-parser/src/listpack.rs:118-206 | every entry decodes back from every encoding form that fits it, with its length |
| `Listpack.EntrySound` | crates/rdb-parser/src/listpack.rs:118-206 | every accepted entry is the encoding, in the form its first byte names, of the entry returned |
| `Listpack.DecodeBacklen` | crates/rdb-parser/src/listpack.rs:230-250 | the reversed loop computes the base-128 value, rejecting empty, over-long and unterminated input |
| `Listpack.BacklenRoundTrip` | crates/rdb-parser/src/listpack.rs:212-250 | every length below 2^35 reads back from one byte up to 127, two up to 16382, three up to 2097150, four up to 268435454 and five beyond |
| `Listpack.DecodeEntries` | crates/rdb-parser/src/listpack.rs:63-114 | the entry loop computes the recursive decoding |
| `Listpack.Decode` | crates/rdb-parser/src/listpack.rs:40-114 | header checks and entry loop together |
| `Listpack.AcceptsExactlyLayouts` | crates/rdb-parser/src/listpack.rs:40-250 | decoding returns `es` if and only if the blob is header, entries each with a matching backlen of that many bytes, and one final end byte holding `es`; then 2 * entries + 7 <= length |
| `Listpack.WriterItemValid` | crates/rdb-parser/src/listpack.rs:212-250 | every entry stored with its canonical backlen passes the checks, so the layouts exist for every entry sequence that fits |
| `Listpack.OnlyThisWidth` | crates/rdb-parser/src/listpack.rs:60-114 | a listpack of one entry is read back when its backlen takes that many bytes, and is corrupt at every other number of bytes, for every entry in every form that fits it |
| `Ziplist.ContentRoundTrip` | crates/rdb-parser/src/ziplist.rs:76-222 | every entry decodes back from every encoding form that fits it |
| `Ziplist.ContentSound` | crates/rdb-parser/src/ziplist.rs:76-222 | every accepted content is the encoding of the entry returned |
| `Ziplist.DecodeEntries` | crates/rdb-parser/src/ziplist.rs:52-72 | the entry loop computes the recursive decoding |
| `Ziplist.Decode` | crates/rdb-parser/src/ziplist.rs:29-72 | header checks and entry loop together |
| `Ziplist.AcceptsExactlyLayouts` | crates/rdb-parser/src/ziplist.rs:29-222 | decoding returns `es` if and only if entries with any well-formed prevlen and then the first end marker follow the header; count, tail offset, prevlen values and anything after the marker are not looked at |
| `Intset.DecodeMembers` | crates/rdb-parser/src/intset.rs:62-101 | the member loop yields the decimal texts at the element width |
| `Intset.Decode` | crates/rdb-parser/src/intset.rs:27-101 | size, width and count checks and the loop together |
| `Intset.AcceptsExactlyLayouts` | crates/rdb-parser/src/intset.rs:27-101 | decoding returns the members if and only if the blob stores integers with those decimal texts at one of the three widths |
| `Intset.CapIsTenMillion` | crates/rdb-parser/src/intset.rs:27-101 | stored integers are read back up to ten million of them and refused beyond, at every width |
| `StreamPack.ReadFields` | crates/rdb-parser/src/stream.rs:160-188 | the field loop computes the pairs, for the shared field names and for own ones |
| `StreamPack.ReadItem` | crates/rdb-parser/src/stream.rs:118-198 | one item: flags, identifier deltas, fields and the back-length element |
| `StreamPack.DecodeStreamListpack` | crates/rdb-parser/src/stream.rs:60-214 | the whole decoder computes the recursive one |
| `StreamPack.RoundTrip` | crates/rdb-parser/src/stream.rs:60-214 | any mixture of live, deleted, same-fields and own-fields items whose deltas and sums fit decodes to exactly the live items in order, with their identifiers and field names |
| `StreamPack.AcceptsOnlyLayouts` | crates/rdb-parser/src/stream.rs:60-214 | conversely every accepted element list is such a layout, is consumed whole, and satisfies 4 * (count + deleted) + fields + 4 <= elements |
| `StreamPack.BudgetKept` | crates/rdb-parser/src/stream.rs:191-196 | accepted entries never exceed the remaining budget |
| `StreamPack.DecodedSays` | crates/rdb-parser/src/stream.rs:118-198 | the decoded entries are the records without the deleted flag, in order: each identifier is written as the milliseconds and the sequence number, master and delta added, in decimal around one byte 45, and each field is its own name and value or its value under the master's name |
| `Printing.LenRoundTrip` | crates/rdb-parser/src/reader.rs:240-282 | every length reads back from each of the four length forms that holds it |
| `Printing.CountCapped` | crates/rdb-parser/src/reader.rs:226-237 | a count of 536870912 is accepted and one above it refused where it stands, for collections and for the length of a string |
| `Printing.StrRoundTrip` | crates/rdb-parser/src/reader.rs:297-343 | every string encoding (plain, 8/16/32-bit integer, compressed) reads back as the text it stands for |
| `Printing.PlainRoundTrip` | crates/rdb-parser/src/reader.rs:851-921 | a count and that many printed elements read back as the collection of those elements in order |
| `Printing.BlobRoundTrip` | crates/rdb-parser/src/reader.rs:575-733 | a compact collection read from a printed string is its decoded blob |
| `Printing.QuicklistRoundTrip` | crates/rdb-parser/src/reader.rs:643-687 | a quicklist of either version reads back as its nodes' elements end to end |
| `Encodings.IntegersReadAlike` | crates/rdb-parser/src/intset.rs:27-101 | one integer list stored as intset of any width, listpack, ziplist, or plain strings in any string encoding reads as the same byte strings |
| `Encodings.StoredEveryWay` | crates/rdb-parser/src/intset.rs:27-101 | and every list of 64-bit integers that an intset may hold is stored in all these ways: an intset, a listpack, a ziplist and plain strings are constructed for it |
| `Encodings.QuicklistsReadAlike` | crates/rdb-parser/src/reader.rs:643-687 | any cut of an integer list into nodes as they are written, ziplists in the first version, tagged listpacks or single elements in the second, with strings in any encoding, reads as the same list |
| `Encodings.HashPairsAt` | crates/rdb-parser/src/reader.rs:1141-1164 | in a compact hash entries alternate field and value |
| `Encodings.ZsetPairsAre` | crates/rdb-parser/src/reader.rs:1166-1190 | a compact sorted set is accepted if and only if its entries are even in number and every score is a number; entries alternate member and score |
| `Encodings.HashesReadAlike` | crates/rdb-parser/src/reader.rs:1141-1164 | a listpack and a ziplist whose entries have the same texts read as the same hash |
| `Encodings.HashElement` | crates/rdb-parser/src/reader.rs:851-921 | a printed field and value read as that field and value, without expiry |
| `Encodings.ExpiringHashElement` | crates/rdb-parser/src/reader.rs:851-921 | with an expiry, where -1 stands for none |
| `Encodings.BinaryScoreElement` | crates/rdb-parser/src/reader.rs:851-921 | a member and an eight-byte score |
| `Encodings.TextScoreElement` | crates/rdb-parser/src/reader.rs:345-366 | a member and a score as text |
| `Encodings.SpecialScoreElement` | crates/rdb-parser/src/reader.rs:345-366 | the marks 253, 254 and 255 are not-a-number, positive and negative infinity |
| `ValueFormat.StreamRoundTrip` | crates/rdb-parser/src/reader.rs:735-811 | a printed stream of each version reads as its live items when the written length is their number and at most five million; otherwise it is refused after being consumed to its end |
| `ValueFormat.GroupsSkipped` | crates/rdb-parser/src/reader.rs:813-849 | printed consumer groups are skipped exactly, in the layout of each stream version |
| `ValueFormat.NodesRead` | crates/rdb-parser/src/reader.rs:738-773 | printed nodes are consumed to their end; their live items are collected in order under their own master identifiers, and more than five million become an error that waits |
| `ValueFormat.StreamValue` | crates/rdb-parser/src/reader.rs:735-811 | a printed stream with the right length is a complete value, whose last identifier is written from the two numbers printed for it, milliseconds first |
| `ValueFormat.ModuleRoundTrip` | crates/rdb-parser/src/reader.rs:387-464 | a printed module payload reads as its values in order within the count and byte caps, as corruption beyond them, and without caps always as its values |
| `ValueFormat.CapsAre` | crates/rdb-parser/src/reader.rs:368-450 | the caps on a module payload are five million values and 268435456 bytes of text in all |
| `ValueFormat.ModuleValueReads` | crates/rdb-parser/src/reader.rs:575-733 | so a printed module is a value a key can hold |
| `ValueFormat.ModuleIdRoundTrip` | crates/rdb-parser/src/reader.rs:21-39 | nine alphabet positions and a ten-bit version packed into an identifier come apart again, and no other positions have that name |
| `Values.ElementReads` | crates/rdb-parser/src/reader.rs:851-921 | one printed element of any of the six plain types, with any choice of encodings, reads as a collection of what it stands for alone |
| `Values.ListpackReads` | crates/rdb-parser/src/reader.rs:575-733 | a set, hash or sorted set in a listpack reads as its entries: members, field and value in turn, member and score in turn |
| `Values.ZiplistReads` | crates/rdb-parser/src/reader.rs:575-733 | the same for lists, hashes and sorted sets in a ziplist |
| `Values.ModuleIdReads` | crates/rdb-parser/src/reader.rs:21-39 | the identifier packed from nine name characters and a version reads back as that name and version |
| `Values.ValueReads` | crates/rdb-parser/src/reader.rs:575-733 | every value of every type, printed under any choice of encodings, reads back as what it stands for, a meaning given without any parser |
| `Recovery.StrOfBytes` | crates/rdb-parser/src/reader.rs:297-343 | conversely every string the reader accepts is the printed form, plain, integer or compressed, of one that stands for the text returned |
| `Recovery.GroupOf` | crates/rdb-parser/src/reader.rs:813-849 | every consumer group the reader skips is a printed group of its stream version |
| `Recovery.NodesOf` | crates/rdb-parser/src/reader.rs:742-790 | stream nodes read without a deferred error are printed nodes: sixteen-byte identifiers and listpacks of stream items |
| `Recovery.PiecesOf` | crates/rdb-parser/src/reader.rs:387-464 | every module payload the reader accepts is a printed one, its values within the caps when they are kept |
| `Recovery.IdIsModule` | crates/rdb-parser/src/reader.rs:21-39 | every 64-bit identifier is that of a nine-character name and a ten-bit version |
| `Recovery.ValueFrom` | crates/rdb-parser/src/reader.rs:575-733 | every value the reader accepts, of whatever type, is the printed form of one that stands for the value returned, and the reader stops where it ends |
| `Wire.ReadElement` | crates/rdb-parser/src/reader.rs:851-921 | an element consumes at least one byte and has size one; its errors are never the recoverable one |
| `Wire.SplitElements` | crates/rdb-parser/src/reader.rs:851-921 | reading a + b elements equals reading a and then b, on every input, errors and end positions included |
| `Wire.StreamAligned` | crates/rdb-parser/src/reader.rs:735-811 | a stream value ends where a framing-only skipper ends, on success, deferred decode errors and the length check alike; on success the length is the entry count and within the cap |
| `Wire.PacksFraming` | crates/rdb-parser/src/reader.rs:735-790 | reading the stream's nodes ends where skipping them ends, whatever their contents, and keeps the entry budget |
| `Locality.ValueL` | crates/rdb-parser/src/reader.rs:575-733 | any value that reads successfully reads the same from any other input that holds the same bytes: parsers depend on nothing they did not consume |
| `Locality.ModuleL` | crates/rdb-parser/src/reader.rs:387-430 | the same for module payloads |
| `Machine.ReadChunk` | crates/rdb-parser/src/reader.rs:923-966 | a chunk yields an entry and consumes input, or ends the reading with an error that is not the recoverable one |
| `Machine.ReadEntry` | crates/rdb-parser/src/reader.rs:496-573 | reading a key keeps the state consistent and never moves back |
| `Machine.ReadRecord` | crates/rdb-parser/src/reader.rs:1016-1135 | every other record moves forward, keeps the replay byte and chunk state, and fails only with a terminal error |
| `Machine.ReadPreamble` | crates/rdb-parser/src/reader.rs:483-494 | the eager scan stops at the first byte that is not the AUX opcode and keeps it for replay |
| `Machine.AtEof` | crates/rdb-parser/src/reader.rs:1062-1087 | the trailer is read at every version; the end finishes the reader, a mismatch is a terminal error |
| `Machine.NextInner` | crates/rdb-parser/src/reader.rs:1002-1137 | success and the recoverable error strictly decrease unread bytes plus the byte to replay; only the end of the file finishes the reader |
| `Machine.Next` | crates/rdb-parser/src/reader.rs:979-996 | every call finishes the reader or strictly decreases that measure; a finished reader answers nothing for ever; every error but the recoverable one finishes it |
| `Machine.Run` | crates/rdb-parser/src/reader.rs:976-996 | iteration from any state ends, in a finished state |
| `Chunking.Refines` | crates/rdb-parser/src/reader.rs:923-966 | for every input, state between keys and limit: the chunked run, its chunks merged, yields item for item what the unlimited run yields, errors included, and ends at the same byte with the same fields; chunks are non-empty, of the limit's size but the last, contiguous from 0, of one key, metadata and total, summing to that total |
| `Reader.CrcReader.constructor` | crates/rdb-parser/src/reader.rs:63-75 | starts at position 0 with an empty checksum |
| `Reader.CrcReader.Read` | crates/rdb-parser/src/reader.rs:77-83 | however many bytes one read delivers, the checksum covers exactly the bytes delivered so far |
| `Reader.CrcReader.ReadExact` | crates/rdb-parser/src/reader.rs:218-224 | the same bytes and checksum however the reads are split; a short read consumes what is left |
| `Reader.RdbReader.constructor` | crates/rdb-parser/src/reader.rs:134-153 | all fields at their initial values |
| `Reader.RdbReader.ReadU8` | crates/rdb-parser/src/reader.rs:200-204 | computes `Wire.ReadU8`, leaves every other field alone |
| `Reader.RdbReader.ReadI64Le` | crates/rdb-parser/src/reader.rs:212-216 | computes `Wire.ReadI64` |
| `Reader.RdbReader.ReadLength` | crates/rdb-parser/src/reader.rs:240-282 | computes `Wire.ReadLength` over all six length tags |
| `Reader.RdbReader.ReadLengthValue` | crates/rdb-parser/src/reader.rs:284-295 | computes `Wire.ReadLengthValue`: an encoding marker is an error here |
| `Reader.RdbReader.ReadCount` | crates/rdb-parser/src/reader.rs:226-238 | computes `Wire.ReadCount`: the 512 MB cap |
| `Reader.RdbReader.ReadString` | crates/rdb-parser/src/reader.rs:297-343 | computes `Wire.ReadString` |
| `Reader.RdbReader.ReadDoubleValue` | crates/rdb-parser/src/reader.rs:345-366 | computes `Wire.ReadDouble` |
| `Reader.RdbReader.ReadElement` | crates/rdb-parser/src/reader.rs:851-921 | computes `Wire.ReadElement` for the six plain types |
| `Reader.RdbReader.ReadNElements` | crates/rdb-parser/src/reader.rs:851-921 | the element loop computes `Wire.ReadElements` |
| `Reader.RdbReader.ReadQuicklist` | crates/rdb-parser/src/reader.rs:643-687 | the node loop computes `Wire.ReadNodes` |
| `Reader.RdbReader.ReadStream` | crates/rdb-parser/src/reader.rs:735-811 | computes `Wire.ReadStream`, with decode errors deferred until the framing is consumed |
| `Reader.RdbReader.SkipStreamConsumerGroups` | crates/rdb-parser/src/reader.rs:813-849 | computes `Wire.SkipGroups` |
| `Reader.RdbReader.ForEachModuleValue` | crates/rdb-parser/src/reader.rs:387-464 | computes `Wire.ReadModule`, with the caps when collecting and without when skipping |
| `Reader.RdbReader.DecodeModuleId` | crates/rdb-parser/src/reader.rs:29-39 | computes the nine name characters, first character from the top bits, and the version |
| `Reader.RdbReader.ReadValue` | crates/rdb-parser/src/reader.rs:575-733 | computes `Wire.ReadValue` for every type code |
| `Reader.RdbReader.ReadEntry` | crates/rdb-parser/src/reader.rs:496-573 | computes `Machine.ReadEntry`: all fields after it are the state machine's |
| `Reader.RdbReader.ReadAuxField` | crates/rdb-parser/src/reader.rs:466-481 | the key must be UTF-8; the value is kept as text, by lossy conversion when it is not UTF-8 |
| `Reader.RdbReader.ReadPreamble` | crates/rdb-parser/src/reader.rs:483-494 | computes `Machine.ReadPreamble` |
| `Reader.RdbReader.HandleRecord` | crates/rdb-parser/src/reader.rs:1016-1135 | computes `Machine.ReadRecord` for every opcode |
| `Reader.RdbReader.HandleEof` | crates/rdb-parser/src/reader.rs:1062-1087 | computes `Machine.AtEof`: the running checksum is the one compared |
| `Reader.RdbReader.NextInner` | crates/rdb-parser/src/reader.rs:1002-1137 | computes `Machine.NextInner` |
| `Reader.RdbReader.Next` | crates/rdb-parser/src/reader.rs:979-996 | computes `Machine.Next`: reply and every field |
| `Reader.Open` | crates/rdb-parser/src/reader.rs:134-153 | opening checks the header, reads the preamble, and returns a reader in the state `Start` gives, or its error |
| `FileFormat.RecordReads` | crates/rdb-parser/src/reader.rs:1008-1136 | every record but a key has exactly its effect and ends where it was printed to end |
| `FileFormat.KeyReads` | crates/rdb-parser/src/reader.rs:496-503 | a key reads as the entry its parts stand for, with the current database and pending metadata; a zipmap key is the recoverable error; both consume the metadata |
| `FileFormat.FileRoundTrip` | crates/rdb-parser/src/reader.rs:1002-1137 | from any sequence of records, each printed from abstract values under any choice of encodings, EOF and a trailer, the reader yields exactly what the records stand for, in order, and the checksum verdict |
| `FileFormat.FileRoundTripChunked` | crates/rdb-parser/src/reader.rs:923-1006 | the same through the chunking reader, chunks merged |
| `FileFormat.PreambleTransparent` | crates/rdb-parser/src/reader.rs:483-494 | reading AUX fields ahead and replaying one byte changes nothing about a run, on every input |
| `WholeFile.HeaderRoundTrip` | crates/rdb-parser/src/reader.rs:1192-1223 | a printed header reads back if and only if its version is accepted for its magic, else it is unsupported |
| `WholeFile.HeaderExactly` | crates/rdb-parser/src/reader.rs:1192-1226 | any nine bytes: magic and three digits, or a plus sign and two, are read if the version is accepted and unsupported if not; anything else is no header |
| `WholeFile.FileReadsBack` | crates/rdb-parser/src/reader.rs:134-153 | a whole printed file, from its first byte: opening succeeds and reading yields exactly what its records stand for |
| `WholeFile.FileReadsBackChunked` | crates/rdb-parser/src/reader.rs:923-1006 | the same under any chunk limit, chunks merged |
| `FileRecovery.OnlyZipmapUnknown` | crates/rdb-parser/src/reader.rs:575-733 | the recoverable error comes from a readable zipmap value only; every other failure to read a value is terminal |
| `FileRecovery.RecordFrom` | crates/rdb-parser/src/reader.rs:1016-1135 | every record the reader accepts is the printed form of one with the same effect |
| `FileRecovery.AcceptsExactlyPrinted` | crates/rdb-parser/src/reader.rs:976-1137 | for every byte string: it opens and is read to its end with no error but skipped types if and only if it is an accepted header, printed records, EOF and a trailer that is no wrong checksum; the items are then what the records stand for, however the bytes are read as records |
| `FileRecovery.EveryLimitAccepts` | crates/rdb-parser/src/reader.rs:923-966 | every chunk limit accepts the same files, stops at the same byte and gives the same checksum flag |
| `Verdict.EndVerdict` | crates/rdb-parser/src/reader.rs:1062-1087 | for every input, from any unfinished state whose byte kept for replay, if any, stands just before the cursor: the run has no terminal error if and only if it meets an EOF opcode whose trailer is there and is no wrong checksum; it then stops after that trailer, and `crc_checked` holds if and only if version >= 5, the stored value is not zero and it is the checksum of all bytes before it; any other run never claims one, and ends in corruption after the trailer when the trailer is there |
| `Verdict.PreambleKeeps` | crates/rdb-parser/src/reader.rs:483-494 | the eager scan keeps a byte that stands just before the cursor, and neither sets nor clears the two flags |
| `Verdict.FileVerdict` | crates/rdb-parser/src/reader.rs:134-153 | the verdict for every file that opens, from its first byte, under every chunk limit |
| `Damage.DamageDetected` | crates/rdb-parser/src/reader.rs:1062-1087 | exactly when damage within eight consecutive bytes of a verified file goes unreported: the damaged file still opens, and it meets EOF either at the same place under a version below 5, or at another place where a trailer happens to pass |
| `Damage.DamageInPlaceReported` | crates/rdb-parser/src/reader.rs:1062-1087 | so behind the header, damage that leaves EOF where it was is always reported as corruption after the trailer |
| `Damage.ChangedRecordsReported` | crates/rdb-parser/src/reader.rs:1062-1087 | damage that turns a verified file into other records of the same length: the reader delivers those records and then reports corruption |
| `Damage.VersionDamageUnreported` | crates/rdb-parser/src/reader.rs:1062-1087 | rewriting the three version digits of any file to a version below 5 leaves it reading the same without error, unverified |
| `Damage.EarlyEofUnreported` | crates/rdb-parser/src/reader.rs:1062-1087 | two damaged bytes that turn a function record of zero bytes into an EOF opcode before a zero trailer: the reader ends there with no item and no error, whatever records follow |
| `Damage.VerifiedFileExists` | crates/rdb-parser/src/reader.rs:1062-1087 | any records make a file whose checksum is verified, at version 10 or 11 |
| `Damage.VerifiedYetLost` | crates/rdb-parser/src/reader.rs:1062-1087 | so verified files exist whose records are all lost unreported by two damaged bytes |
| `Words.WordHolds` | crates/rdb-to-arrow/src/detect.rs:66 | every list of up to 64 bits is the bits of one machine word |
| `Geohash.Deinterleave64` | crates/rdb-to-arrow/src/detect.rs:104-137 | the low half of the result has exactly the even-position bits of the word, in order, and the high half the odd-position bits |
| `Geohash.WordsInverse` | crates/rdb-to-arrow/src/detect.rs:104-158 | deinterleave and interleave are mutual inverses on every 64-bit word and every pair of 32-bit words |
| `Geohash.GatherIsEvens` | crates/rdb-to-arrow/src/detect.rs:115-136 | the stages gather exactly the even-position bits, in order |
| `Geohash.GatherIsOdds` | crates/rdb-to-arrow/src/detect.rs:115-136 | run one bit further on, exactly the odd-position bits |
| `Geohash.Split` | crates/rdb-to-arrow/src/detect.rs:66-69 | the low half of the result is the even-position bits, the high half the odd-position bits |
| `Geohash.InterleaveIsWeave` | crates/rdb-to-arrow/src/detect.rs:143-158 | the encoder's interleave weaves its two words bit by bit |
| `Geohash.GeohashDecode` | crates/rdb-to-arrow/src/detect.rs:60-87 | computes the decoding: none unless a non-negative integer below 2^52, else the cell centre |
| `Geohash.DecodeEncode` | crates/rdb-to-arrow/src/detect.rs:60-173 | over exact reals a score decodes if and only if it is an integer in [0, 2^52); the point lies strictly inside the limits and encodes to the same score |
| `Geohash.EncodeDecode` | crates/rdb-to-arrow/src/detect.rs:60-173 | any point within the limits encodes to a score that decodes to within half a cell of it |
| `Schema.AllOnce` | crates/rdb-to-arrow/src/schema.rs:110-120 | every tag is in the order list, once |
| `Schema.HllColumns` | crates/rdb-to-arrow/src/detect.rs:26-49 | for any bytes: the cached cardinality is the 63-bit number at bytes 8 to 15, or -1 without a header or with the top bit of byte 15 set; the encoding is told by byte 4, and every detected sketch has one |
| `Routing.FiledUnder` | crates/rdb-to-arrow/src/schema.rs:183-270 | the tag and the additive geo rule file an entry under exactly the tables its value goes to, spelled out without them: a string with HYLL, a byte 0 or 1 and eleven bytes more to the sketches and any other to the strings, a whole sorted set of scores that are integers below 2^52 to geo beside its own |
| `Routing.RowsGoWhereDue` | crates/rdb-to-arrow/src/batcher.rs:176-208 | an entry within the size limit adds all its rows, at least one, to each table it goes to and none to any other; one above it adds none |
| `Builders.RowsForEntry` | crates/rdb-to-arrow/src/schema.rs:214-228 | each builder appends exactly the announced number of rows for entries it takes and none for others; every row fits the schema, with no null in a required column |
| `Builders.TableWellFormed` | crates/rdb-to-arrow/src/builders.rs:134-148 | columns that hold fitting rows have one length, the schema's kinds and no null where required |
| `Builders.Builder.constructor` | crates/rdb-to-arrow/src/builders.rs:74-87 | empty columns and counters |
| `Builders.PartlyAll` | crates/rdb-to-arrow/src/builders.rs:94-120 | when every column has been given the cell of one more row, the columns are the table with that row |
| `Builders.Builder.AppendCommon` | crates/rdb-to-arrow/src/builders.rs:94-120 | the eight common columns each get their cell, one after another, and the counters one row, its key and its own bytes more |
| `Builders.Builder.AppendCell` | crates/rdb-to-arrow/src/builders.rs:94-120 | one cell at the end of one column; no other column and no counter changes |
| `Builders.Builder.Complete` | crates/rdb-to-arrow/src/builders.rs:94-120 | only when every column of the schema has its cell is the row complete and the columns of one length again |
| `Builders.Builder.PushString` | crates/rdb-to-arrow/src/builders.rs:176-181 | appends the string row |
| `Builders.Builder.PushHll` | crates/rdb-to-arrow/src/builders.rs:506-515 | appends the sketch row |
| `Builders.Builder.PushList` | crates/rdb-to-arrow/src/builders.rs:217-233 | appends the list rows: one an element with its index, or the sentinel |
| `Builders.Builder.PushSet` | crates/rdb-to-arrow/src/builders.rs:268-281 | appends the set rows |
| `Builders.Builder.PushSortedSet` | crates/rdb-to-arrow/src/builders.rs:317-333 | appends the sorted-set rows |
| `Builders.Builder.PushHash` | crates/rdb-to-arrow/src/builders.rs:372-397 | appends the hash rows, with field expiry |
| `Builders.Builder.PushGeo` | crates/rdb-to-arrow/src/builders.rs:439-465 | appends the geo rows with decoded points |
| `Builders.Builder.PushPoint` | crates/rdb-to-arrow/src/builders.rs:450-463 | one geo row: member, point or two nulls, score |
| `Builders.Builder.PushModule` | crates/rdb-to-arrow/src/builders.rs:716-786 | appends the module rows, or its sentinel |
| `Builders.Builder.PushValue` | crates/rdb-to-arrow/src/builders.rs:735-786 | one module row |
| `Builders.Builder.PushCells` | crates/rdb-to-arrow/src/builders.rs:752-786 | the three value columns, of which exactly the one of the variant has a value |
| `Builders.Builder.PushStream` | crates/rdb-to-arrow/src/builders.rs:555-604 | appends one row a field, or one an entry without fields, or the sentinel |
| `Builders.Builder.Push` | crates/rdb-to-arrow/src/builders.rs:171-465 | appends the rows of the entry for this builder's tag; an entry of another variant changes nothing |
| `Builders.Builder.Finish` | crates/rdb-to-arrow/src/builders.rs:183-187 | returns the buffered rows as columns, is never refused, and leaves the builder empty |
| `Tables.EveryRowCarriesItsKey` | crates/rdb-to-arrow/src/builders.rs:94-120 | under the schema's names every row of every type holds its entry's database, key, type, expiry, idle time, frequency, encoding and the size of the whole key |
| `Tables.NullableExactly` | crates/rdb-to-arrow/src/schema.rs:272-358 | a column is declared nullable exactly when some row of its type has a null in it, which the row of an empty value without metadata then has |
| `Tables.WidthsHold` | crates/rdb-to-arrow/src/schema.rs:272-358 | no integer cell is out of the range of its column, for every entry whose numbers fit the fields they are kept in |
| `Tables.RowsCountTheirData` | crates/rdb-to-arrow/src/builders.rs:94-149 | what a row adds to its builder's byte count is the key's length and the data in its own columns, eight bytes for a number or a double and four for a module's version and index |
| `Tables.ListReadsBack` | crates/rdb-to-arrow/src/builders.rs:217-233 | the element and index columns read back as the elements numbered from the chunk offset; empty is one all-null row |
| `Tables.SetReadsBack` | crates/rdb-to-arrow/src/builders.rs:268-281 | the member column reads back as the members |
| `Tables.ZSetReadsBack` | crates/rdb-to-arrow/src/builders.rs:317-333 | member and score columns read back as the pairs |
| `Tables.HashReadsBack` | crates/rdb-to-arrow/src/builders.rs:372-397 | field, value and expiry columns read back as the fields |
| `Tables.StringReadsBack` | crates/rdb-to-arrow/src/builders.rs:176-515 | the value column reads back as the string; a sketch's columns as its raw bytes, encoding and cached cardinality, -1 when the header marks it invalid |
| `Tables.TablesDetermineValues` | crates/rdb-to-arrow/src/builders.rs:217-397 | two entries of one plain collection type with equal tables hold equal values |
| `Tables.StreamReadsBack` | crates/rdb-to-arrow/src/builders.rs:555-604 | the identifier, field and value columns hold every entry's identifier once for each of its fields, or once with nulls; empty is one all-null row |
| `Tables.StreamTablesDetermine` | crates/rdb-to-arrow/src/builders.rs:555-604 | equal tables mean equal entries for streams whose neighbouring identifiers differ |
| `Tables.SharedIdentifier` | crates/rdb-to-arrow/src/builders.rs:555-604 | and not without that: two different streams with one table |
| `Tables.ModuleReadsBack` | crates/rdb-to-arrow/src/builders.rs:716-786 | name and version in every row, values numbered, each under the opcode of its variant and in the one column for it, integers modulo 2^64; one `eof` row when there are none |
| `Tables.ModuleTablesDetermine` | crates/rdb-to-arrow/src/builders.rs:716-786 | equal tables mean equal name, version and values |
| `Tables.GeoReadsBack` | crates/rdb-to-arrow/src/builders.rs:439-465 | a geo row's longitude and latitude lie inside the limits and encode to the score beside them |
| `Batcher.EstimateIsGrowth` | crates/rdb-to-arrow/src/batcher.rs:54-90 | the growth of the entry's own builder is exactly the size estimate, and for streams and modules what it leaves out: the identifier of every row, and every module row's name, opcode and eight bytes |
| `Batcher.GeoGrowth` | crates/rdb-to-arrow/src/batcher.rs:54-90 | the geo builder grows by the estimate and 16 bytes a member |
| `Batcher.PushKeeps` | crates/rdb-to-arrow/src/batcher.rs:176-207 | one push: for every tag, rows emitted and rows left are the rows before and then exactly what the entry contributes; no empty batch |
| `Batcher.FlushKeeps` | crates/rdb-to-arrow/src/batcher.rs:209-216 | flushing emits everything buffered and leaves nothing |
| `Batcher.IterateKeeps` | crates/rdb-to-arrow/src/batcher.rs:296-335 | over a whole iteration a tag's batches end to end are what was buffered and then every entry's contribution in input order |
| `Batcher.ThresholdsDoNotMatter` | crates/rdb-to-arrow/src/batcher.rs:17-37 | any two threshold settings with the same size skip give every tag the same rows in the same order |
| `Batcher.PushBelow` | crates/rdb-to-arrow/src/batcher.rs:233-248 | with positive thresholds every builder is below both between pushes |
| `Batcher.PushCuts` | crates/rdb-to-arrow/src/batcher.rs:233-248 | every batch a push emits was below the thresholds without the entry and reaches one of them with it |
| `Batcher.BesideCapped` | crates/rdb-to-arrow/src/batcher.rs:54-90 | what the estimate leaves out is at most the longest identifier, or the name and 14 bytes, for each row |
| `Batcher.PeakBound` | crates/rdb-to-arrow/src/batcher.rs:185-190 | with entry cap M and byte budget B such a batch is below B + M bytes in the exactly estimated builders, B + 3M for geo, and B + M and `c` bytes for each of the entry's rows for streams and modules, where `c` bounds identifiers, or name and fixed columns; and below the row threshold and the entry's rows together |
| `Batcher.IterateSplit` | crates/rdb-to-arrow/src/batcher.rs:296-335 | an iteration cut anywhere is what came out up to the cut and then what the buffers left there and the remaining items give |
| `Batcher.PeakOverRun` | crates/rdb-to-arrow/src/batcher.rs:296-335 | over a whole iteration from empty builders: after every prefix each builder is below both thresholds, and every batch that comes out, those of the final flush included, has these bounds |
| `Naming.OpcodeBytes` | crates/rdb-parser/src/opcodes.rs:15-54 | every record starts with its own byte, from 243 to 254 or the type code of its value, never the 255 that ends the records |
| `Naming.OtherBytes` | crates/rdb-parser/src/reader.rs:1008-1127 | the byte 8, those from 23 to 242, and 246 are refused where they stand, with nothing consumed behind them |
| `Naming.Stored` | crates/rdb-parser/src/opcodes.rs:31-145 | every way of storing a value has its type code, and the two name functions name the type of the value and the encoding it is stored in |
| `Naming.NotStored` | crates/rdb-parser/src/opcodes.rs:69-145 | the two codes that never yield a value keep their names, and every other byte is unknown |
| `Peaks.RunWithin` | crates/rdb-to-arrow/src/batcher.rs:54-90 | whatever the reader yields has identifiers of at most 41 bytes and module names and fixed columns within that, and its type code is named after the type of its value |
| `Peaks.PeakOfReader` | crates/rdb-to-arrow/src/batcher.rs:296-335 | so for whatever the reader yields those bounds hold with 41 bytes a row |
| `ArrowBatching.ArrowBatcher.constructor` | crates/rdb-to-arrow/src/batcher.rs:130-144 | nine distinct empty builders |
| `ArrowBatching.ArrowBatcher.Push` | crates/rdb-to-arrow/src/batcher.rs:176-207 | state and result are those of `Batcher.Push`; an oversized entry only moves the saturating counter |
| `ArrowBatching.ArrowBatcher.MaybeFlushTag` | crates/rdb-to-arrow/src/batcher.rs:233-248 | state and result are those of `Batcher.MaybeFlushTag` |
| `ArrowBatching.ArrowBatcher.FlushTag` | crates/rdb-to-arrow/src/batcher.rs:250-262 | state and result are those of `Batcher.FlushTag`: only this tag's builder changes |
| `ArrowBatching.ArrowBatcher.Flush` | crates/rdb-to-arrow/src/batcher.rs:209-216 | state and result are those of flushing every tag in order |
| `ArrowBatching.BatchIterator.constructor` | crates/rdb-to-arrow/src/batcher.rs:220-231 | everything the whole iteration will yield is still to come |
| `ArrowBatching.BatchIterator.Pull` | crates/rdb-to-arrow/src/batcher.rs:307-333 | one item from the inner iterator leaves what remains to be yielded unchanged, or takes the error at its head |
| `ArrowBatching.BatchIterator.Next` | crates/rdb-to-arrow/src/batcher.rs:296-335 | each call yields the head of what remains and leaves the tail, nothing when nothing remains; unsupported items are counted |
| `Filter.MatchesPass` | crates/cli/src/filter.rs:15-57 | an entry matches exactly when it is in the wanted database, has a key the pattern accepts, and goes to a wanted table |
| `Filter.FilteredAt` | crates/cli/src/filter.rs:78-89 | the filtered items are, in order and each once, those at the places of the entries that pass and of every error |
| `Filter.FilteredEntries.Next` | crates/cli/src/filter.rs:78-89 | each call yields the first item that passes, by those three conditions, drops the ones before it, and leaves the rest |
| `Filter.PushDropped` | crates/cli/src/filter.rs:38-57 | an entry the type filter drops would have changed no wanted builder and emitted no wanted batch |
| `Filter.PushdownExact` | crates/cli/src/export.rs:85-117 | filtering by type before batching and keeping wanted batches after gives the identical batch sequence, cuts, order and errors included, as batching everything and keeping the wanted |
| `Summary.SummarizeEntries` | crates/rdb-to-arrow/src/summarize.rs:65-132 | walking the reader's iterator fails with the run's first error that is not the recoverable one; else every count in the summary is its declared total over the run, a type or database is listed exactly when something was counted, and the summary carries the reader's header and, from the run's end, its AUX metadata and checksum flag |
| `Summary.CountedWhereDue` | crates/rdb-to-arrow/src/summarize.rs:76-121 | what an entry adds to each count: the rows it has in each table it goes to, and one key to that table, its database and the whole at its first chunk only |
| `Summary.RunNext` | crates/rdb-parser/src/reader.rs:976-996 | a run is the first reply of `next` and then the run from the state it leaves |
| `Summary.ExportAgrees` | crates/rdb-to-arrow/src/summarize.rs:76-121 | without an entry cap, each type's emitted rows are as many as counted, and it has a batch if and only if the summary lists it |
| `Summary.LimitDoesNotMatter` | crates/rdb-to-arrow/src/schema.rs:243-270 | for every input and limit the scan fails alike; else keys, per-database keys and rows agree for every type but geo, and geo rows are no more with the limit |
| `Summary.AnyTwoLimits` | crates/rdb-to-arrow/src/summarize.rs:87-120 | the same between any two limits |
| `Summary.NoSentinelRows` | crates/rdb-to-arrow/src/schema.rs:214-228 | every chunk becomes exactly as many rows as it has elements, at least one, and is never geo |
| `Splitting.RunEndsInError` | crates/rdb-parser/src/reader.rs:976-996 | a run has at most one error that is not the recoverable one, as its last item |
| `Splitting.ChunkedRunIsSplit` | crates/rdb-parser/src/reader.rs:923-966 | for every file and every limit, the chunked run is the whole run with each plain collection above the limit cut in place into pieces of the limit's size; when the whole run ends in an error, the chunks of the key that it cut off come just before it |
| `Export.PieceRows` | crates/rdb-to-arrow/src/builders.rs:217-397 | a piece of a key has exactly the rows of its elements in the whole key's table, indexes and totals included |
| `Export.PieceLighter` | crates/rdb-to-arrow/src/batcher.rs:54-90 | no piece is estimated heavier than its key, so a key within the entry cap is never dropped in part |
| `Export.TablesUnderLimit` | crates/rdb-to-arrow/src/batcher.rs:176-207 | for every file, tag, limit and entry cap: the table of the chunked run is that of the whole run cut, and then the rows of the chunks of a key that an error cut off; it equals the table of the whole run if and only if there are no such rows and no key shows the limit: for native types a large key that exceeds the cap whole while some piece is within it, which then adds rows; for geo a large plain-encoded geo set within the cap, whose rows are then missing |
| `Export.TablesIgnoreLimits` | crates/rdb-to-arrow/src/batcher.rs:296-335 | without an entry cap, for every file read to its end, the exported table of every native type is row for row the same at any chunk limit, with or without chunking, and any thresholds |
| `Export.PrintedFileExports` | crates/cli/src/export.rs:92-117 | end to end: from any printed file with no wrong checksum, at any chunk limit and thresholds, each native type's exported table is the rows of the keys its records stand for, in file order |
| `Writer.EnsureWriter` | crates/rdb-to-arrow/src/writer.rs:72-79 | creates and opens a writer only when the tag has none |
| `Writer.PopulateAll` | crates/rdb-to-arrow/src/writer.rs:69-83 | the populate loop computes `Populate`, stopping at the first failure |
| `Writer.CloseWriters` | crates/rdb-to-arrow/src/writer.rs:19-38 | the close loop computes `CloseAll` over the opened tags in order |
| `Writer.RunWriterPipeline` | crates/rdb-to-arrow/src/writer.rs:52-87 | the result is the populate error if any, else the first close error, else success, and the log is exactly theirs |
| `Writer.PopulateGoes` | crates/rdb-to-arrow/src/writer.rs:69-83 | batches are written in order up to the first failure, which is the upstream's or the last event's; the map holds exactly the writers whose open succeeded |
| `Writer.CloseAllGoes` | crates/rdb-to-arrow/src/writer.rs:19-38 | every writer is closed even after close errors, and the error kept is that of the first close that failed |
| `Writer.EveryWriterClosedOnce` | crates/rdb-to-arrow/src/writer.rs:52-87 | on every run, whatever fails: each writer that entered the map is closed exactly once, in tag order, after all writes, and no other is |

## Left out

- Shared element loop: the source writes out six element loops in `read_n_elements`, one a type; the model has one loop whose step depends on the type.
- Wire.HashPairs: the pairing loops of compact hashes and sorted sets, like the module name loop's digits, are recursive functions.
- Integer masks: bit masks and shifts on single bytes and lengths are written as division and remainder; the checksum register is a list of 64 booleans, which `CheckValue.ClockWords` relates to the machine word.
- Address width: `usize` is taken to be 64 bits, so conversions from `u64` and checked additions within a blob cannot fail.
- Geohash.DecodeEncode: over exact reals, not doubles; the rounding of the last place is not modelled.
- Geohash.EncodeDecode: the same, and only for points within the limits, as the encoder is only meant for them.
- Geohash.GeohashDecode: the cell centre is an exact real, not the double nearest to it.
- Tables.GeoReadsBack: the point beside a score is an exact real.
- Float and text conversions: parsing a score from text, `from_le_bytes` of floats, integer-to-double, UTF-8 validity and lossy conversion to text are arbitrary functions given as a parameter, so every result holds for whatever they do.
- The accessors for particular AUX keys are not modelled.
- Error texts: errors keep their kind and, for the recoverable one, the type code, not their message.
- Machine.Run: the input is a complete byte string, so a reader that fails for a reason other than its end is not modelled; `CrcReader` does model arbitrary short reads.
- Builders.Builder: one class stands for the nine builders; its columns are a list in schema order instead of named fields, the eight common ones first.
- ArrowBatching.BatchIterator.Next: the inner iterator is the sequence of items it has left; that the reader's iterator produces such a sequence is `Machine.Run`.
- Foreign columnar library: a record batch is a list of columns with the checks its constructor makes; buffers, capacities and file formats are not modelled.
- ArrowBatching.ArrowBatcher.FlushTag: since finishing is proved never to be refused, the branch that would pass its error on is not written.
- Value variants: `type_tag_for` and the builders have a fallback for variants the reader never makes; the model has no such variant.
- Export.TablesIgnoreLimits: for native types, files read to their end, and no entry cap; otherwise, and for geo rows, which the code deliberately omits for chunked keys, the exact condition is `Export.TablesUnderLimit`.
- Filter: the glob pattern on the key as text is an arbitrary predicate.
- Writer: what a writer does inside its steps, and the files it leaves, are an oracle that may fail any step; backends for the four formats are not modelled.
- Files, standard input, buffering, command line, printed tables, shard discovery and the Python bindings.
- Allocation hints, which change no result.
