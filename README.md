# Daedalus data archive — a Dafny model

Daedalus packs the files of a directory into one `.dat` archive. On the
packing side, `DataTool` does the work:

- It serialises a directory as a byte stream. Each entry is a metadata record followed by the file's bytes.
- It cuts that stream into content-defined chunks. The cut points and sort keys come from a SipHash-2-4 rolling hash.
- It sorts and deduplicates the chunks by external merge sort. The temporary segments hold keyed records (ids, a four-int key, the payload), and are merged 64 at a time. Equal chunks are coalesced into one record that lists every occurrence id.
- It writes the archive: `H2A1`, the total size as a varint, then the key-less records.

On the unpacking side:

- `DataProcessor.copyAndProcess` reads the archive back. It uses an id-keyed table per 16 MiB of payload, temporary segments, 64-way merges through `IndexEntry` / `DataIterator`, and a final pass. The result is the original stream, each chunk payload written once per id, in id order.
- `ExtractorOutputStream` consumes that stream byte by byte. It rebuilds the directories and files.
- `ClassNodeCache` is the obfuscator's cache from class names to class records.

The model:

- A byte is an `int` in 0..255. Java `int` and `long` are the subset types `i32` and `i64`, with the wrap-around written out where the source relies on it.
- Streams and temporary files are byte sequences. A stream is "the bytes not read yet".
- The file system is a log of events (directory made, empty file made, file written with its attributes).
- Classes with mutable fields become Dafny classes: the merge cursors and iterator, the directory stream, the extractor and the class cache. Each method is proved against a functional specification:
  - the record codec `RecordFormat`;
  - the varint codec `VarLong.Encode` / `Decode`;
  - the reference SipHash `SipHash.Hash`;
  - the chunking `Chunker.KeyOf` / `Chunking`;
  - the table listing `Processor.Listing`;
  - the directory stream's pending bytes `DirectoryStream.Pending`;
  - the extractor's byte-at-a-time transition `Extractor.Step` and its fold `Feed`.
- The two sides are composed in `RoundTrip`: what `sort` writes for a stream, `copyAndProcess` turns back into that stream.

Source paths below are relative to the repository root.

## Model

| member | source | states |
|---|---|---|
| VarLong.WriteVarLong | myj2c/src/main/java/project/daedalus/utils/DataTool.java:465-475 | writes exactly the 7-bit little-endian groups of the 64-bit pattern (`Encode(U64(x))`), 1 to 10 bytes, and returns that count |
| VarLong.ReadVarLong | myj2c/src/main/java/project/daedalus/utils/DataTool.java:477-499 | agrees with `Decode`: Eof when the stream ends before a byte without the high bit; at most 10 bytes are read, and the 10th ends the value whatever its high bit: a 10th byte with the high bit set still ends the value, and no error is reported |
| VarLong.ProcessorWriteVarLong | myj2c/src/main/java/cn/muyang/compiletime/DataProcessor.java:43-53 | the unpacking side's writer emits the same bytes as the packing side's (`Encode(U64(val))`), count 1..10 |
| VarLong.ProcessorReadVarLong | myj2c/src/main/java/cn/muyang/compiletime/DataProcessor.java:30-41 | the unpacking side's reader agrees with the same `Decode`, so both sides read the same format |
| VarLong.EncodeDecode | myj2c/src/main/java/project/daedalus/utils/DataTool.java:465-499 | round trip: decoding the encoding of any long, followed by any bytes, gives the long back and consumes exactly the encoding |
| VarLong.DecodeShape | myj2c/src/main/java/project/daedalus/utils/DataTool.java:477-499 | decoding fails (Eof) iff fewer than 10 bytes are present and all have the high bit set; on success it consumed a prefix ending at the first byte without the high bit, or at the 10th |
| VarLong.DecodePrefix | myj2c/src/main/java/project/daedalus/utils/DataTool.java:477-499 | decoding looks only at the bytes it consumes: any stream with the same prefix decodes the same |
| SipHash.GetSipHash24 | myj2c/src/main/java/project/daedalus/utils/DataTool.java:419-463 | the loop over 8-byte little-endian words, length byte in the last word, 2 compression and 4 finalisation rounds, equals the reference `Hash(b[start..end], k0, k1)` |
| SipHash.LastWord | myj2c/src/main/java/project/daedalus/utils/DataTool.java:428-436 | the last word carries the message length mod 256 in its top byte and the trailing bytes little-endian below it |
| Chunker.GetKey | myj2c/src/main/java/project/daedalus/utils/DataTool.java:373-417 | the key is four ints: the high and low halves of the least window hash seen, the 8-bit byte-distribution signature of the chunk, and the chunk length where the first cut condition holds |
| Chunker.CutBounds | myj2c/src/main/java/project/daedalus/utils/DataTool.java:386-398 | a chunk ends at the input's end or after more than 4096 and at most 16·4096+1 window positions, and is never empty |
| Chunker.FirstCutUnique | myj2c/src/main/java/project/daedalus/utils/DataTool.java:378-398 | the chunk length is the first position where a cut condition holds |
| Chunker.MinHashLeast | myj2c/src/main/java/project/daedalus/utils/DataTool.java:382-385 | key halves come from a hash no greater than any hash of a scanned window |
| Chunker.MinHashAttained | myj2c/src/main/java/project/daedalus/utils/DataTool.java:376-385 | that minimum is Long.MAX_VALUE or the hash of a scanned window |
| Chunker.HalvesRoundTrip | myj2c/src/main/java/project/daedalus/utils/DataTool.java:412-413 | the two key ints hold the 64-bit minimum without loss |
| Chunker.SignatureBits | myj2c/src/main/java/project/daedalus/utils/DataTool.java:399-410 | bit 7-k of the signature is set iff bucket k (bytes k·32..k·32+31) holds more than len/32 bytes of the chunk |
| Chunker.ChunkingCovers | myj2c/src/main/java/project/daedalus/utils/DataTool.java:218-233 | cutting a buffer chunk after chunk gives non-empty pieces whose concatenation is the buffer |
| Sorter.ReadFully | myj2c/src/main/java/project/daedalus/utils/DataTool.java:359-371 | whatever the sizes of the individual reads, the bytes read are the front of the stream, min(max, buffer length) of them or all that remain |
| Sorter.PiecesCover | myj2c/src/main/java/project/daedalus/utils/DataTool.java:212-233 | the chunks of all 32 MiB buffers concatenate to the input, there are no more chunks than bytes, and none for empty input |
| Sorter.FillTable | myj2c/src/main/java/project/daedalus/utils/DataTool.java:217-233 | after a buffer, the TreeMap is strictly sorted by Chunk.compareTo, holds each distinct chunk once with the ids of all its occurrences, and ids advance by one per chunk |
| Sorter.InsertGood | myj2c/src/main/java/project/daedalus/utils/DataTool.java:224-231 | inserting a chunk the map does not hold keeps the map strictly sorted and sound and grows it by one |
| Sorter.WriteChunks | myj2c/src/main/java/project/daedalus/utils/DataTool.java:234-239 | the bytes written are the segment encoding of the map's chunks plus the closing 0, and the count returned is their length |
| Sorter.FirstPass | myj2c/src/main/java/project/daedalus/utils/DataTool.java:201-240 | the temporary file is one segment per buffer at the recorded offsets; each segment is strictly sorted, every record's payload and key are those of the pieces it names, the ids over all segments are 1..n each once, and there are no segments iff the input is empty |
| Chunk.Write | myj2c/src/main/java/project/daedalus/utils/DataTool.java:572-589 | writes the ids, the 0 terminator, the key when asked, the length and the payload (`EncodeRecord`); the int count wraps like Java's |
| Chunk.Read | myj2c/src/main/java/project/daedalus/utils/DataTool.java:541-570 | agrees with `ParseRecord`: `End` on a leading 0, otherwise ids, optional key, length and payload, Eof on a short stream |
| Chunk.CompareTo | myj2c/src/main/java/project/daedalus/utils/DataTool.java:591-625 | without keys, the first ids decide; with keys, the key ints, then the payload length, then the unsigned payload bytes |
| Chunk.CompareZero | myj2c/src/main/java/project/daedalus/utils/DataTool.java:591-625 | keyed chunks compare equal iff keys and payloads are equal; key-less ones iff their first ids are equal |
| Chunk.CompareAntisymmetric | myj2c/src/main/java/project/daedalus/utils/DataTool.java:591-625 | swapping the arguments negates the result |
| Chunk.CompareTransitive | myj2c/src/main/java/project/daedalus/utils/DataTool.java:591-625 | the order is transitive among chunks that all have keys or all lack them |
| RecordFormat.RecordRoundTrip | myj2c/src/main/java/project/daedalus/utils/DataTool.java:541-589 | reading a written record gives it back (non-zero ids, the key only when keys are written) and consumes exactly its bytes |
| RecordFormat.SegmentRoundTrip | myj2c/src/main/java/project/Daedalus/compiletime/DataBlock.java:29-56 | reading a written segment record by record until the 0 terminator gives all its records back in order |
| RecordFormat.ParseRecordStorable | myj2c/src/main/java/project/Daedalus/compiletime/DataBlock.java:31-51 | every record read has non-zero ids and a payload small enough to be written again |
| DataBlock.ReadFrom | myj2c/src/main/java/project/Daedalus/compiletime/DataBlock.java:29-56 | agrees with `ParseRecord`: null on a leading 0, else the ids up to 0, the four metadata ints when asked, the length and the payload; Eof on a short stream |
| DataBlock.CompareTo | myj2c/src/main/java/project/Daedalus/compiletime/DataBlock.java:64-92 | blocks without metadata come first and are ordered by first id; otherwise metadata lexicographically, then length, then signed payload bytes |
| DataBlock.CompareZero | myj2c/src/main/java/project/Daedalus/compiletime/DataBlock.java:64-92 | zero iff first ids are equal (no metadata) or metadata and payloads are equal; one side without metadata orders it first |
| DataBlock.CompareAntisymmetric | myj2c/src/main/java/project/Daedalus/compiletime/DataBlock.java:64-92 | swapping the arguments negates the sign |
| DataBlock.CompareTransitive | myj2c/src/main/java/project/Daedalus/compiletime/DataBlock.java:64-92 | the order is transitive |
| Merge.CmpTransitive | myj2c/src/main/java/project/daedalus/utils/DataTool.java:521-527 | the cursor order's record part is transitive for both record kinds |
| Merge.CursorCompareStrict | myj2c/src/main/java/project/daedalus/compiletime/IndexEntry.java:29-33 | the tie-break on the stream id makes two cursors equal only when they are the same stream, and swapping negates the sign |
| Merge.Cursor.constructor | myj2c/src/main/java/project/daedalus/compiletime/IndexEntry.java:12-14 | a new cursor holds its id, kind and stream and has no current block |
| Merge.Cursor.LoadData | myj2c/src/main/java/project/daedalus/compiletime/IndexEntry.java:20-26 | reads the next record of the cursor's stream: none and 0 at the terminator, the record and its payload length otherwise, the read error when the stream is broken |
| Merge.MergeIterator.constructor | src/main/java/project/daedalus/compiletime/DataIterator.java:10-12 | the iterator holds the given set of cursors, which is exactly the cursors that have a record, and what it will yield is all records of all streams |
| Merge.MergeIterator.HasNext | myj2c/src/main/java/project/daedalus/utils/DataTool.java:340-342 | true iff some cursor is in the set, iff some stream still has records |
| Merge.MergeIterator.Next | src/main/java/project/daedalus/compiletime/DataIterator.java:27-37 | returns the least head record under the (record, stream id) order; only that stream advances, and its cursor goes back into the set iff it has another record |
| Merge.MergeIterator.Drain | myj2c/src/main/java/project/daedalus/utils/DataTool.java:336-357 | draining the iterator yields exactly the multiset of all records of all streams, sorted when each stream was sorted |
| Merge.FirstIsLeast | myj2c/src/main/java/project/daedalus/utils/DataTool.java:345-354 | the head taken is no greater than any record left in any stream |
| MergePasses.BufferSize | myj2c/src/main/java/cn/muyang/compiletime/DataProcessor.java:227-228 | 64 MiB shared among the streams (64 MiB with no streams), and 4096 when the share rounds to 0 |
| MergePasses.BuildIndex | myj2c/src/main/java/cn/muyang/compiletime/DataProcessor.java:222-250 | one cursor per offset, in the set iff its segment has a first record; Eof iff some offset lies beyond the file |
| MergePasses.Runs | myj2c/src/main/java/cn/muyang/compiletime/DataProcessor.java:158-182 | the segments are grouped into ceil(n/64) runs of 1 to 64 |
| MergePasses.MergeLevel | myj2c/src/main/java/cn/muyang/compiletime/DataProcessor.java:152-188 | one merge level writes ceil(n/64) segments, each holding exactly the blocks of its run (first ids only) |
| MergePasses.MergeAll | myj2c/src/main/java/cn/muyang/compiletime/DataProcessor.java:150-191 | merging continues until at most 64 segments remain, and the blocks overall are kept |
| MergePasses.FinalPass | myj2c/src/main/java/cn/muyang/compiletime/DataProcessor.java:193-203 | the output is the payloads of all blocks in ascending first-id order, and nothing when there are no segments |
| Processor.PutAll | myj2c/src/main/java/cn/muyang/compiletime/DataProcessor.java:123-125 | every id of a block maps to the block's payload in the table, a later block replacing an earlier one |
| Processor.Entries | myj2c/src/main/java/cn/muyang/compiletime/DataProcessor.java:132-137 | the TreeMap's entries in key order (`Listing`) |
| Processor.ListingLists | myj2c/src/main/java/cn/muyang/compiletime/DataProcessor.java:132-137 | that listing has one single-id block per table key, ascending, each with the key's payload |
| Processor.WriteSegment | myj2c/src/main/java/cn/muyang/compiletime/DataProcessor.java:131-138 | writes each block as its first id, 0, length and payload, then a closing 0: the key-less segment encoding of the first-id blocks |
| Processor.FirstsOfSingles | myj2c/src/main/java/cn/muyang/compiletime/DataProcessor.java:172-177 | writing only the first id loses nothing for single-id blocks |
| Passes.FillTable | myj2c/src/main/java/cn/muyang/compiletime/DataProcessor.java:110-126 | reads blocks until the wrapped int sum of payload lengths reaches 16777216 or the segment ends; the table is the expansion of the blocks read; the read error is the segment's parse error |
| Passes.FirstPass | myj2c/src/main/java/cn/muyang/compiletime/DataProcessor.java:104-143 | one temporary segment per non-empty table, each the ascending listing of its table, at the recorded offsets |
| Unpack.CopyAndProcess | myj2c/src/main/java/cn/muyang/compiletime/DataProcessor.java:87-207 | Eof on a short header, InvalidHeader when it is not `H2A1`, the varint's error; otherwise the payloads of the archive's ids in ascending id order |
| SortMerge.Coalesce | myj2c/src/main/java/project/daedalus/utils/DataTool.java:261-275 | coalescing a sorted run gives records with no two neighbours equal, no more of them than before, none iff none before, and the last equal to the input's last |
| SortMerge.CoalesceIds | myj2c/src/main/java/project/daedalus/utils/DataTool.java:266-267 | coalescing keeps the multiset of ids: `addAll` moves the ids, none lost or duplicated |
| SortMerge.CoalesceGood | myj2c/src/main/java/project/daedalus/utils/DataTool.java:261-275 | coalescing a sorted run of sound records gives a strictly sorted run of sound records |
| SortMerge.WriteCoalesced | myj2c/src/main/java/project/daedalus/utils/DataTool.java:261-275 | the loop writes exactly the encoding of the coalesced run and counts its bytes |
| SortMerge.DrainCoalesced | myj2c/src/main/java/project/daedalus/utils/DataTool.java:260-275 | draining a merge of sound sorted segments writes a strict, sound run holding all their ids |
| SortMerge.StreamBuffer | myj2c/src/main/java/project/daedalus/utils/DataTool.java:320-321 | the per-stream buffer is 64 MiB divided by the stream count, and division by zero when there are no streams |
| SortMerge.OpenSegments | myj2c/src/main/java/project/daedalus/utils/DataTool.java:317-334 | as written: division by zero iff there are no segments; otherwise one cursor per segment, in the set iff it has a first record |
| SortMerge.MergeRun | myj2c/src/main/java/project/daedalus/utils/DataTool.java:254-277 | merging up to 64 segments writes one strict, sound segment with all their ids |
| SortMerge.MergeLevel | myj2c/src/main/java/project/daedalus/utils/DataTool.java:246-285 | one level turns n segments into ceil(n/64), keeping soundness and the multiset of ids |
| SortMerge.MergeAll | myj2c/src/main/java/project/daedalus/utils/DataTool.java:246-285 | levels repeat until at most 64 segments remain; ids kept; nothing changes when there were at most 64; there are no segments iff there were none |
| SortMerge.FinalWrite | myj2c/src/main/java/project/daedalus/utils/DataTool.java:287-313 | the archive is `H2A1`, the size varint and the coalesced key-less records with a closing 0; the records are strict, sound and hold every id |
| SortMerge.Finish | myj2c/src/main/java/project/daedalus/utils/DataTool.java:287-313 | as written: fails with division by zero iff there are no segments, else writes the archive above |
| SortMerge.Sort | myj2c/src/main/java/project/daedalus/utils/DataTool.java:201-315 | as written: fails with division by zero iff the input is empty; otherwise the archive's records are strict and sound and their ids are exactly 1..n, one per chunk |
| SortMerge.SortGuarded | myj2c/src/main/java/project/daedalus/utils/DataTool.java:201-315 | corrected: always writes an archive; it has no records iff the input is empty, and for the empty input it is exactly `H2A1`, the size varint and the closing 0; the same ids and soundness otherwise |
| SortMerge.Recoverable | myj2c/src/main/java/project/daedalus/utils/DataTool.java:223-231 | every chunk of the input can be found in the archive: some record lists its id and carries its payload and key |
| SortMerge.FinalEmpty | myj2c/src/main/java/project/daedalus/utils/DataTool.java:295-310 | the archive has no records iff the input had no chunks |
| RoundTrip.CanonicalCount | myj2c/src/main/java/cn/muyang/compiletime/DataProcessor.java:104-143 | the one-id blocks for the chunks hold each block standing for a chunk exactly once, and nothing else |
| RoundTrip.CanonicalPayloads | myj2c/src/main/java/cn/muyang/compiletime/DataProcessor.java:193-206 | the payloads of those blocks, in id order, are the chunks joined |
| RoundTrip.SortedCanonical | myj2c/src/main/java/cn/muyang/compiletime/DataProcessor.java:193-206 | key-less blocks in DataBlock order that are, as a multiset, the blocks for the chunks are exactly those blocks in id order |
| RoundTrip.SegmentCount | myj2c/src/main/java/cn/muyang/compiletime/DataProcessor.java:117-135 | the first-pass segment of a group of archive records holds the block of every id the group lists, once, and nothing else |
| RoundTrip.TotalCount | myj2c/src/main/java/cn/muyang/compiletime/DataProcessor.java:104-143 | over all first-pass segments, each listed id's block appears once when no id is listed twice |
| RoundTrip.BlocksGiveInput | myj2c/src/main/java/cn/muyang/compiletime/DataProcessor.java:104-206 | given records whose ids are 1..n, each once, with the payload of its chunk, the blocks the final pass writes give the chunks joined |
| RoundTrip.ArchiveParses | myj2c/src/main/java/cn/muyang/compiletime/DataProcessor.java:91-104 | an archive written by sort passes the magic and size checks, and its body reads back as the records without their keys |
| RoundTrip.UnpackArchive | myj2c/src/main/java/cn/muyang/compiletime/DataProcessor.java:87-207 | copyAndProcess of an archive sort wrote gives the chunks joined in id order |
| RoundTrip.PackUnpack | myj2c/src/main/java/project/daedalus/utils/DataTool.java:201-315 | as written: sort then copyAndProcess gives back every non-empty input unchanged; the empty input fails with division by zero |
| RoundTrip.PackUnpackGuarded | myj2c/src/main/java/cn/muyang/compiletime/DataProcessor.java:87-207 | with openSegments guarded, sort then copyAndProcess gives back every input unchanged, the empty one included |
| ClassCache.Normalize | myj2c/src/main/java/dev/daedalus/cache/ClassNodeCache.java:26-31 | a name ending in `;` and not starting with `[` loses one leading `L` and every `;`; other names are unchanged |
| ClassCache.DescriptorName | myj2c/src/main/java/dev/daedalus/cache/ClassNodeCache.java:26-31 | the descriptor `L<name>;` normalises to `name` |
| ClassCache.NormalizeIdempotent | myj2c/src/main/java/dev/daedalus/cache/ClassNodeCache.java:26-31 | normalising twice is normalising once |
| ClassCache.Find | myj2c/src/main/java/dev/daedalus/cache/ClassNodeCache.java:25-41 | obfuscator-prefixed names give null and leave the cache alone; other names are added when absent (fresh record with the fresh id) and their record returned; existing entries never change |
| ClassCache.ClassNodeCache.Size | myj2c/src/main/java/dev/daedalus/cache/ClassNodeCache.java:43-45 | the number of cached names, 0 exactly when the cache is empty |
| ClassCache.FindSize | myj2c/src/main/java/dev/daedalus/cache/ClassNodeCache.java:35-39 | a lookup grows the cache by at most one entry |
| ClassCache.FindAgain | myj2c/src/main/java/dev/daedalus/cache/ClassNodeCache.java:35-40 | a second lookup of the same name returns the same record and changes nothing |
| ClassCache.FindDescriptor | myj2c/src/main/java/dev/daedalus/cache/ClassNodeCache.java:26-31 | `L<name>;` and `name` find the same record |
| ClassCache.IdOf | myj2c/src/main/java/dev/daedalus/cache/ClassNodeCache.java:19-23 | 0 for null, else the record's id |
| ClassCache.ClassNodeCache.constructor | myj2c/src/main/java/dev/daedalus/cache/ClassNodeCache.java:10-13 | keeps the pointer pattern; the cache starts empty |
| ClassCache.ClassNodeCache.GetClass | myj2c/src/main/java/dev/daedalus/cache/ClassNodeCache.java:25-41 | result and new cache are those of `Find` on the old cache |
| ClassCache.ClassNodeCache.GetId | myj2c/src/main/java/dev/daedalus/cache/ClassNodeCache.java:19-23 | the id of `Find`'s record, 0 when null, with the same cache update |
| ClassCache.ClassNodeCache.GetPointer | myj2c/src/main/java/dev/daedalus/cache/ClassNodeCache.java:15-17 | the pattern paired with `getId`'s id, with the same cache update |
| ClassCache.ClassNodeCache.IsEmpty | myj2c/src/main/java/dev/daedalus/cache/ClassNodeCache.java:47-49 | true iff the size is 0 |
| ClassCache.ClassNodeCache.Clear | myj2c/src/main/java/dev/daedalus/cache/ClassNodeCache.java:55-57 | the cache is empty afterwards |
| DirectoryStream.ListingPerm | myj2c/src/main/java/project/daedalus/utils/DataTool.java:92-107 | the directories kept are the listed entries for which `isDirectory()` holds, and the files kept those for which `isFile()` holds, each as often as listed; an entry that is neither (a dangling link, a pipe, a device) is dropped |
| DirectoryStream.ListingSplit | myj2c/src/main/java/project/daedalus/utils/DataTool.java:92-107 | a listing whose every entry is a directory or a file, but not both, is split into a permutation of itself |
| DirectoryStream.AddDirectory | myj2c/src/main/java/project/daedalus/utils/DataTool.java:92-107 | the first loop keeps the `isDirectory()` entries and the second the `isFile()` entries, each in listing order, so the list is directories then files |
| DirectoryStream.RelativeName | myj2c/src/main/java/project/daedalus/utils/DataTool.java:157-160 | the name is the path after the base directory and one separator; an error when the path is not longer than the base or does not start with it |
| DirectoryStream.Record | myj2c/src/main/java/project/daedalus/utils/DataTool.java:147-167 | the record starts with its own length as a big-endian int, then the file flag, read-only flag, lastModified varint, length varint (files only) and the name in writeUTF form; errors for a path outside the base and a name of 65536 bytes or more |
| DirectoryStream.MetaBytes | myj2c/src/main/java/project/daedalus/utils/DataTool.java:147-167 | building the record in place (a 0 placeholder, then the trailing length moved to the front) gives `Record` |
| DirectoryStream.PendingIntact | myj2c/src/main/java/project/daedalus/utils/DataTool.java:118-185 | when every entry is intact, the stream emits records and contents without stopping, entries taken from the end of the list |
| DirectoryStream.ConcatPending | myj2c/src/main/java/project/daedalus/utils/DataTool.java:138-143 | the stream's remaining output is the concatenation of each listed entry's output |
| DirectoryStream.DirectoryInputStream.constructor | myj2c/src/main/java/project/daedalus/utils/DataTool.java:86-90 | the stream starts with directories-then-files of the base directory (entries that are neither left out), and its output is their pending bytes |
| DirectoryStream.DirectoryInputStream.Read | myj2c/src/main/java/project/daedalus/utils/DataTool.java:118-185 | returns the next byte of the pending output, -1 at its end, or the error where the output stops; the rest of the output is unchanged |
| DirectoryStream.DirectoryInputStream.ReadInto | myj2c/src/main/java/project/daedalus/utils/DataTool.java:188-196 | fills the buffer range with the next pending bytes; the bulk file read is taken only when no record is held (`meta == null`: a record whose last byte was read stays held until the next read() lets it go), a file is open and bytes are announced, and it fails with EOF on a short file, while the byte-wise path returns what it read before the end or an IOException, while a RuntimeException (the `substring` index failure) after the first byte propagates; the bytes outside the range are untouched |
| Extractor.BaseNameJoin | src/main/java/project/daedalus/compiletime/ExtractorOutputStream.java:114-122 | the file name of `baseDir/name` is `name`, the basis of the originalName comparison |
| Extractor.ReadUtfWrite | src/main/java/project/daedalus/compiletime/ExtractorOutputStream.java:113 | reading a name written in writeUTF form gives it back |
| Extractor.ParseFields | src/main/java/project/daedalus/compiletime/ExtractorOutputStream.java:95-113 | parsing the fields the directory stream writes gives back the entry's flags, lastModified, length and name |
| Extractor.ParseBuffer | src/main/java/project/daedalus/compiletime/ExtractorOutputStream.java:95-113 | reading the buffered fields through DataInputStream agrees with `ParseMeta` |
| Extractor.Enter | src/main/java/project/daedalus/compiletime/ExtractorOutputStream.java:113-156 | the buffer is cleared and the entry's attributes kept; a directory or an empty file waits for the next 4-byte header, with the sink as it was; a non-empty file opens an empty sink and expects its length in bytes, logging nothing yet |
| Extractor.FeedContent | src/main/java/project/daedalus/compiletime/ExtractorOutputStream.java:121-154 | after its record, an entry's bytes leave the extractor ready, having logged its events: a directory made with its attributes; an empty file created at its target with no lastModified or read-only, whatever originalName says (the code skips both there); a non-empty file written with its attributes only when it goes to disk |
| Extractor.FeedAppend | src/main/java/project/daedalus/compiletime/ExtractorOutputStream.java:50-158 | feeding a + b is feeding a, then b: the result does not depend on how the stream is split into writes |
| Extractor.FeedHeader | src/main/java/project/daedalus/compiletime/ExtractorOutputStream.java:83-93 | four header bytes set the remaining count to the big-endian length minus 4, or throw "Illegal directory stream" when that exceeds 16384 |
| Extractor.FeedBody | src/main/java/project/daedalus/compiletime/ExtractorOutputStream.java:95-157 | the metadata bytes either fail to parse (the parse error) or enter the described entry |
| Extractor.FeedFile | src/main/java/project/daedalus/compiletime/ExtractorOutputStream.java:51-77 | the file's bytes go to the sink; the last closes it, logs the write with its attributes when the sink is the disk, and waits for the next header |
| Extractor.FeedRecord | src/main/java/project/daedalus/compiletime/ExtractorOutputStream.java:79-157 | a record from the directory stream enters exactly the entry it describes |
| Extractor.FeedEntry | src/main/java/project/daedalus/compiletime/ExtractorOutputStream.java:50-158 | a record followed by its content leaves the extractor ready for the next header, with the entry's events logged |
| Extractor.RefuseLong | src/main/java/project/daedalus/compiletime/ExtractorOutputStream.java:88-90 | a record longer than 16384+4 bytes is refused, whatever follows |
| Extractor.ExtractAll | src/main/java/project/daedalus/compiletime/ExtractorOutputStream.java:50-158 | with no originalName or altName, extracting a directory stream recreates every entry (directory made, empty file made, or file written with its bytes, lastModified and read-only flag), in stream order, and ends ready |
| Extractor.ExtractorOutputStream.constructor | src/main/java/project/daedalus/compiletime/ExtractorOutputStream.java:16-23 | empty buffer, no sink, 4 bytes of header expected |
| Extractor.ExtractorOutputStream.Write | src/main/java/project/daedalus/compiletime/ExtractorOutputStream.java:50-158 | the new state, or the exception thrown, is one `Step` of the old state on the byte |
| Extractor.ExtractorOutputStream.WriteBytes | src/main/java/project/daedalus/compiletime/ExtractorOutputStream.java:26-47 | bulk writes (single bytes near a boundary, runs of up to remaining-1 bytes to the sink otherwise) reach the state of feeding the bytes one at a time |

## Left out

- DEFLATE compression and decompression around the archive are not modelled. They are library code. The round trip `RoundTrip.PackUnpack` takes them as inverse to each other, so copyAndProcess reads the bytes sort wrote.
- Console output is left out.
- `DataTool.compress`, `getSize` and `DataProcessor.reconstructLibrary` are not modelled. They only open files and call the modelled parts.
- File-system effects are an event log. Directory listings, `canWrite`, `lastModified` and file lengths are inputs of an `Entry`.
- Names are byte strings, and the modified-UTF-8 encoding of `writeUTF`/`readUTF` is not modelled. The 65535 limit is on the byte count.
- Exceptions end the modelled run as an `Err` value. The state an object is left in after throwing is not specified.
- DirectoryStream.DirectoryInputStream.constructor: one directory level is serialised, as in the code. Sub-directories appear as entries, but their contents do not.
- Entries are emitted from the end of the directories-then-files list, so files come first in reverse order, then directories in reverse order.
- Extractor.ExtractorOutputStream.WriteBytes: requires `off + len <= b.Length`. Java would throw ArrayIndexOutOfBoundsException there.
- ClassCache.ClassNodeCache.GetPointer: `String.format` is not modelled. The pointer is the pattern paired with the id.
- `CachedClassInfo`'s own id assignment is not part of this model. A fresh id is a parameter.
- `getCache` exposes the map. This is not modelled.
- Sorter.WriteChunks: the count added to `outPos`, which becomes the next entry of `segmentStart`, is the number of bytes written. Java adds `Chunk.write`'s int result, which wraps for a record over 2^31-1 bytes (one listing hundreds of millions of ids); the wrong offsets that would follow are not modelled.
- SortMerge.WriteCoalesced: the same holds for the merge levels' `outPos`: the model adds the bytes written, not `Chunk.write`'s wrapping int result.
- The byte counts that `openSegments` and `ChunkStream.readNext` return are not modelled. `sort` stores them in `read` and `len` and never uses them.
- The temporary-file deletes and renames are not modelled. A file is a byte sequence that is replaced.
- Sorter.FirstPass: requires fewer chunks than the largest long, so ids never wrap.

## Findings

| source | as written | input that shows it | evidently intended | confidence | as-written member | corrected member |
|---|---|---|---|---|---|---|
| myj2c/src/main/java/project/daedalus/utils/DataTool.java:321 | `openSegments` divides 64 MiB by `segmentStart.size()`. `sort` calls it for the final pass, even when the first pass wrote no segment | an empty input stream: `readFully` returns 0 at once, `segmentStart` stays empty, and the final `openSegments` throws ArithmeticException | an empty input gives an archive with the header, the size and no records | not executed | SortMerge.Sort | SortMerge.SortGuarded |
