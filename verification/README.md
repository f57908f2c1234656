# PinusDB: storage, query and wire model

PinusDB is a time-series database. This project models its compressed day partitions, the
evaluation of queries over blocks of rows, and the formats its clients speak, and proves that
writers and readers, fast forms and simple forms agree.

**Partitions.** `CompPartBuilder` is the writer: rows go into column builders, a full block's
timestamps are written at once, its other columns wait in an arena behind pointers stored in
index entries. `Sync` patches the pointers into file offsets, spills the index in parts, and
`WriteIdxBlk` transposes the parts into one column-major index; `PartLayout` says what stands
where in the file meanwhile. `CompDataPart` is the reader: it takes the fields from the meta
data (`PartMeta`), recomputes all positions from the footer, rebuilds the run of every device,
searches block start times, and decodes columns in either direction (`ColumnCodec`,
`ColumnDecoder`). `PartCut` shows that the rows alone decide where the writer cuts blocks.
`PartQuery` and `PartFirstLast` add index pruning, descending order, snapshots and the early exit
of FIRST and LAST, `PartAggregate` the traversal for COUNT, SUM and AVG. `Partition` puts writer and reader together: `StoreAndRead` is the round trip of rows,
`StoreAndQuery` the result of a SELECT, `StoreAndFetch` what the clients read of it, and
`StoreAndAggregate` the result of a SELECT with aggregates.

**Queries.** `BlockValues` holds a block with its filter bitmap and cached survivor positions,
`ConditionFilter` merges conditions into it and collects their time range
(query/condition_filter.cpp:25-190, query/value_item.cpp:1820-2145), `QueryRaw` applies LIMIT
and OFFSET to rows and blocks in any mixture, and `GroupFunctions` has the aggregates in row
form and array form, both proved against one step function.

**Formats.** `InsertSql` builds binary records, `IntTool`, `ByteStream` and `Wire` write the
.NET client's packets, `WireReaders` holds the .NET and the C++ reader, `ServerConnection` is
the pool of connection records, `Crc` the table-driven checksum.

Classes keep the fields and loops of the source. Machine integers are mathematical integers in
a range, with every wraparound and truncation written out; only the checksum uses bit vectors.
Strings are their UTF-8 bytes, floats and doubles their bit patterns, times microseconds.

## Where the code does less than its purpose

Each point has a lemma or method for the inputs that go wrong, and the exact condition under
which the code does meet its purpose.

- MAX and MIN over a DATETIME column compare nothing: MAX over the times 5 and 3 is 3,
  MIN over 3 and 5 is 5 (`DateTimeWrong`). The result is right if and only if no time before the
  last one beats it (`DateTimeRight`).
- MAX and MIN over an INT64 column compare with 32 bits of the kept value in the array form:
  MAX over 2^32 and 5 is 5 there (`FormsDiffer`). Both forms agree on every next row if and only
  if the kept value fits 32 bits (`ResultsAgree`).
- MAX and MIN with a string target zero the part of the string behind its old length in the row
  form, at first all of it (`CopyLoses`). The copy is right if and only if the string is enlarged
  or only zeros are lost (`CopyRight`).
- LAST starts from time 0 and keeps only later times, FIRST from the last microsecond of the era
  and only earlier ones: a single row at such a time is not found (`BoundaryTimes`). The first row of
  an ordered stream is kept if and only if its time lies inside the sentinel (`FirstRowKept`).
- AVG of a column narrower than 64 bits sets its value and reports an error (`AvgOfNarrow`);
  there is no error if and only if there was no value or the column is INT64
  (`AvgFunc.GetResult`). The record is filled all the same, because ResultObject::GetRecord does
  not look at errors (`ResultObject.GetRecord`).
- A block that is used for other rows without being constructed anew keeps its survivor cache and
  can return a row that did not survive (`StaleCache`). It reads right, whatever the rows are, if
  and only if nothing is filtered, the size of the cache is not the number of survivors, or the
  cache holds their positions (`CacheRight`). The reader constructs a new block for every page,
  and there the cache is right.
- The server counts one day too few up to the year 3000 (util/date_time.h:38): for it the era ends
  with 30 December 2999. The .NET client writes the times of 31 December 2999, and exactly those
  beyond the era, which the server refuses as values (`LastDay`). Such a time given as a string
  passes the conversion (expr/insert_sql.cpp:82-87), but a row with it is not found: no block of
  its partition is selected, whatever the conditions (`DayLost`). The range of a query covers all
  matching rows if and only if they lie in the era (`RangeTaken`).
- The .NET client does not end on a result without columns that has bytes left (`StandsStill`);
  each row moves the offset if and only if there are columns (`RowAdvances`).
- `GetDevIdxs` compares int64 bounds as uint64. Taken by itself it loses rows with a negative
  lower and a non-negative upper bound (`PruningLoses`) and with no others
  (`PruningTransparent`). No query gets there: the range collected from conditions never starts
  below 0 (`RangeStart`, `RangeTaken`).

## Model

| member | source | states |
|---|---|---|
| Coding.ZigzagRoundTrip | src/pinusdb/util/coding.h:50-58 | ZigZag decoding undoes encoding for every int64 |
| Coding.VarintLength | src/pinusdb/util/coding.h:156-168 | a value of 7g bits takes at most g bytes |
| Coding.VarintRoundTrip | src/pinusdb/util/coding.h:102-119 | decoding the bytes of v, at any position and with bits already read, adds v and stops right behind it |
| Coding.Varint64RoundTrip | src/pinusdb/util/coding.h:102-119 | 64-bit varints round trip whatever surrounds them, in at most 10 bytes |
| Coding.Varint32RoundTrip | src/pinusdb/util/coding.h:121-140 | 32-bit varints round trip whatever surrounds them, in at most 5 bytes |
| Coding.PutVarint | src/pinusdb/util/coding.h:156-168 | the encoding loop appends exactly the varint |
| Coding.VarintDecode | src/pinusdb/util/coding.h:102-140 | the decoding loops, including their failures at the end of the buffer and on over-long numbers |
| Coding.FixedRoundTrip | src/pinusdb/util/coding.h:244-324 | little-endian fixed-width integers round trip |
| Coding.FixedByte | src/pinusdb/util/coding.h:244-324 | the lowest byte comes first: byte i is n / 2^(8 i) modulo 256 |
| Coding.FixedTruncates | src/pinusdb/util/coding.h:244-324 | what does not fit the width is cut off: decoding gives n modulo 2^(8 k) |
| Coding.VarintByte | src/pinusdb/util/coding.h:156-168 | byte i holds the i-th seven bits from below, its highest bit says whether another byte follows |
| Coding.OverlongVarint | src/pinusdb/util/coding.h:102-140 | ten (five) bytes with the continuation bit are refused |
| DbValue.MakeIntOf | src/pinusdb/storage/comp_val_builder.h:133-160 | an integer widened to 64 bits and cast back to its field type is unchanged |
| ColumnCodec.IntTokenRoundTrip | src/pinusdb/storage/comp_val_builder.h:159-177 | delta-of-delta with 64-bit wraparound is undone by the reader, for the first, the second and every later value |
| ColumnCodec.XorUndo | src/pinusdb/storage/comp_data_part.cpp:513-582 | XOR with the previous pattern is undone by the same XOR |
| ColumnCodec.ZeroPairsFit | src/pinusdb/storage/comp_val_builder.h:219-233 | the count of trailing zero pairs fits its 4-bit (float) or 5-bit (double) field |
| ColumnCodec.XorTokenRoundTrip | src/pinusdb/storage/comp_val_builder.h:263-300 | every 32-bit and 64-bit pattern difference round trips and takes at most 6 or 10 bytes |
| ColumnCodec.AppendBitReads | src/pinusdb/storage/comp_val_builder.h:102-119 | appending a bit keeps all earlier bits of the bitmap and reads back |
| ColumnCodec.TokenRoundTrip | src/pinusdb/storage/comp_data_part.cpp:405-621 | for every type the encoded value reads back between any other bytes, given the values before it |
| ColumnCodec.TokenSize | src/pinusdb/storage/comp_val_builder.h:322-331 | upper bound of what one value adds to a column |
| ColumnCodec.ColumnRoundTrip | src/pinusdb/storage/comp_data_part.cpp:405-621 | decoding an encoded column returns all its values and consumes exactly their bytes, for every type and length |
| ColumnCodec.SteadySeries | src/pinusdb/storage/comp_val_builder.h:159-177 | a value that continues a steady series takes one byte, and so does a repeated float or double |
| ColumnCodec.KnownColumns | src/pinusdb/storage/comp_val_builder.h:102-331 | columns of booleans, integers, floats, doubles and strings, byte for byte |
| CompValBuilders.CompValBuilder.AppendVal | src/pinusdb/storage/comp_val_builder.h:102-182 | a value of the right type extends the column, one of another type is refused and changes nothing |
| CompValBuilders.CompValBuilder.AppendBool | src/pinusdb/storage/comp_val_builder.h:102-119 | the bitmap grows by one bit |
| CompValBuilders.CompValBuilder.AppendInt | src/pinusdb/storage/comp_val_builder.h:133-182 | data_, preVal_ and preDelta_ follow the delta-of-delta tokens |
| CompValBuilders.CompValBuilder.AppendBits | src/pinusdb/storage/comp_val_builder.h:205-300 | the float and double builders append one XOR token and remember the pattern |
| CompValBuilders.CompValBuilder.CountZeroPairs | src/pinusdb/storage/comp_val_builder.h:219-224 | the shift loop strips exactly the trailing zero pairs |
| CompValBuilders.CompValBuilder.AppendBytes | src/pinusdb/storage/comp_val_builder.h:322-331 | length and bytes are appended |
| CompValBuilders.CompValBuilder.Reset | src/pinusdb/storage/comp_val_builder.h:60-85 | the builder is empty again |
| ColumnDecoder.DecodeBoolVals | src/pinusdb/storage/comp_data_part.cpp:405-423 | fills the array with the decoded column, forwards or backwards, or fails where the format does |
| ColumnDecoder.DecodeIntVals | src/pinusdb/storage/comp_data_part.cpp:425-510 | same, with the special cases for the first two values |
| ColumnDecoder.DecodeFloatVals | src/pinusdb/storage/comp_data_part.cpp:512-582 | same, for both bit widths |
| ColumnDecoder.DecodeBytesVals | src/pinusdb/storage/comp_data_part.cpp:584-621 | same, for strings and blobs |
| ColumnDecoder.OrientedIs | src/pinusdb/storage/comp_data_part.cpp:122-131 | ascending order is that of the block, descending order its reverse |
| CompFormat.TsReads | src/pinusdb/storage/comp_part_builder.cpp:267-274 | every field of a timestamp entry reads back at its place, cut to its width |
| CompFormat.CmpReads | src/pinusdb/storage/comp_part_builder.cpp:285-291 | so does every field of a column entry |
| CompFormat.HeadReads | src/pinusdb/storage/comp_part_builder.cpp:250-259 | every field of a block header reads back at its place, cut to its width |
| CompFormat.FooterReads | src/pinusdb/storage/comp_part_builder.cpp:403-424 | and every field of the footer |
| CompFormat.PayloadReads | src/pinusdb/storage/comp_data_part.cpp:337-347 | a stored payload gives type, column, record count and, unpacked, its raw bytes, and both of its checksums are right |
| PartIndex.CmpEntryAt | src/pinusdb/storage/comp_data_part.cpp:197-208 | index transposition: entry of field f of block b in the column-major runs |
| PartIndex.TsEntryAt | src/pinusdb/storage/comp_data_part.cpp:210-216 | timestamp entries stand in creation order |
| PartIndex.SpillAt | src/pinusdb/storage/comp_part_builder.cpp:341-374 | each spilled index part stands behind the parts before it |
| PartIndex.SpilledTs | src/pinusdb/storage/comp_part_builder.cpp:408-420 | the read of WriteIdxBlk finds the timestamp entries of a part |
| PartIndex.SpilledRun | src/pinusdb/storage/comp_part_builder.cpp:426-436 | the read of WriteIdxBlk finds the run of one field of a part |
| PartIndex.SpillStays | src/pinusdb/storage/comp_part_builder.cpp:341-374 | blocks closed later do not change what was spilled |
| PartMeta.MetaReads | src/pinusdb/storage/comp_part_builder.cpp:75-131 | number of fields and the record of each field stand in the written meta data where the reader looks |
| PartMeta.MetaHeadReads | src/pinusdb/storage/comp_part_builder.cpp:75-131 | around them stand the head text, the part code, the partition type, and at the end the checksum of everything before |
| PartMeta.RecordReads | src/pinusdb/storage/comp_data_part.cpp:184-191 | a field record gives name, up to its zero, and type |
| PartMeta.ReadName | src/pinusdb/storage/comp_data_part.cpp:187 | the C string at an offset, and no byte behind its zero |
| PartMeta.ReadFields | src/pinusdb/storage/comp_data_part.cpp:179-195 | from the meta data of a written file the loop recovers exactly the fields, names and types |
| PartLayout.WrittenStep | src/pinusdb/storage/comp_part_builder.cpp:319-338 | one turn of the inner loop of Sync: the file is still meta data and payloads without gaps, no column twice, every entry with the offset of its payload |
| PartLayout.WrittenClosed | src/pinusdb/storage/comp_part_builder.cpp:261-277 | so it is after the timestamps of one more block |
| PartLayout.AddedPending | src/pinusdb/storage/comp_part_builder.cpp:316-339 | what a sync adds is the set of pending columns, each of them once |
| PartLayout.WrittenApart | src/pinusdb/storage/comp_part_builder.cpp:316-339 | when nothing is pending the ranges of all columns are pairwise disjoint, behind the meta data and inside the file |
| CompPartBuilders.EntriesStay | src/pinusdb/storage/comp_part_builder.cpp:261-294 | writing behind the end of the file and allocating more leave every index entry good |
| CompPartBuilders.SyncStep | src/pinusdb/storage/comp_part_builder.cpp:316-339 | one patched entry: from live arena pointer to final offset, all others untouched |
| CompPartBuilders.SyncDone | src/pinusdb/storage/comp_part_builder.cpp:316-339 | after the strided loops no entry points into the arena |
| CompPartBuilders.FinishedOK | src/pinusdb/storage/comp_part_builder.cpp:382-446 | data with disjoint payloads, padding, index and footer make a complete partition file |
| CompPartBuilders.DataGrowth | src/pinusdb/storage/comp_part_builder.cpp:167-175 | a column under the flush length still fits the 512 KB buffer after one more value |
| CompPartBuilders.GatherRun | src/pinusdb/storage/comp_part_builder.cpp:350-361 | every k-th entry from f on is the run of field f |
| CompPartBuilders.WriteRuns | src/pinusdb/storage/comp_part_builder.cpp:350-368 | the side file gets one run per field |
| CompPartBuilders.CopyTimestamps | src/pinusdb/storage/comp_part_builder.cpp:406-421 | all parts together give the timestamp entries of all blocks, and their number |
| CompPartBuilders.CopyRun | src/pinusdb/storage/comp_part_builder.cpp:428-442 | all parts together give the run of one field over all blocks |
| CompPartBuilders.CopyRuns | src/pinusdb/storage/comp_part_builder.cpp:426-443 | the index is column-major over all blocks however it was spilled |
| CompPartBuilders.CompPartBuilder.constructor | src/pinusdb/storage/comp_part_builder.cpp:43-149 | the file is the meta data of the fields, and the empty writer satisfies the invariant |
| CompPartBuilders.CompPartBuilder.Append | src/pinusdb/storage/comp_part_builder.cpp:151-183 | keeps the whole invariant and adds exactly the row; the block is closed if it is full with it, and only then or for another device (CutOK); after it there is room for another row |
| CompPartBuilders.CompPartBuilder.AppendValues | src/pinusdb/storage/comp_part_builder.cpp:166-175 | all column builders hold the same rows, and a column that reached the flush length is reported |
| CompPartBuilders.CompPartBuilder.SwitchDevice | src/pinusdb/storage/comp_part_builder.cpp:154-164 | the open block is empty or belongs to the device of the row, and what was closed was full or of another device |
| CompPartBuilders.CompPartBuilder.MakePayload | src/pinusdb/storage/comp_part_builder.cpp:243-259 | header and compressed data of one column of the open block |
| CompPartBuilders.CompPartBuilder.FlushTimestamps | src/pinusdb/storage/comp_part_builder.cpp:261-277 | the timestamp column is in the file at once, its entry says where |
| CompPartBuilders.CompPartBuilder.FlushColumn | src/pinusdb/storage/comp_part_builder.cpp:278-294 | any other column is in the arena, its entry points there |
| CompPartBuilders.CompPartBuilder.CloseBlock | src/pinusdb/storage/comp_part_builder.cpp:239-298 | the open rows become one more closed block of at most 8192 rows of one device; the deferred-write invariant holds |
| CompPartBuilders.CompPartBuilder.Flush | src/pinusdb/storage/comp_part_builder.cpp:226-308 | the open rows, if there are any, become the last block and nothing else changes in the blocks, whether or not a sync follows |
| CompPartBuilders.CompPartBuilder.PatchEntry | src/pinusdb/storage/comp_part_builder.cpp:319-338 | one round of the inner loop: the file grows by the payload of one pending column |
| CompPartBuilders.CompPartBuilder.WritePending | src/pinusdb/storage/comp_part_builder.cpp:316-339 | every pending entry is visited exactly once: the file grows by exactly the payloads of the pending columns, each once, and then every entry holds a file offset |
| CompPartBuilders.CompPartBuilder.Spill | src/pinusdb/storage/comp_part_builder.cpp:341-374 | the vectors move to the side file completely |
| CompPartBuilders.CompPartBuilder.Sync | src/pinusdb/storage/comp_part_builder.cpp:310-380 | nothing is pending afterwards, so the arena can be deleted; with syncAll the whole index is spilled |
| CompPartBuilders.CompPartBuilder.WriteIdxBlk | src/pinusdb/storage/comp_part_builder.cpp:382-446 | the file is a complete partition file, every column once and without gaps behind the meta data, the index on the next 1024-byte boundary |
| CompPartBuilders.CompPartBuilder.Finish | src/pinusdb/storage/comp_part_builder.cpp:185-215 | the file holds exactly the appended rows, in blocks that were closed neither too early nor too late, and besides them only meta data, padding up to the next 1024-byte boundary, index and footer |
| CompDataParts.FooterOf | src/pinusdb/storage/comp_data_part.cpp:197-199 | the reader takes block count and index position from the footer |
| CompDataParts.TsEntryOf | src/pinusdb/storage/comp_data_part.cpp:301-304 | what the reader finds in the timestamp entry of a block |
| CompDataParts.CmpEntryOf | src/pinusdb/storage/comp_data_part.cpp:331-335 | the recomputed position of field f plus b entries leads to the payload written for field f of block b |
| CompDataParts.ChecksumsRight | src/pinusdb/storage/comp_part_builder.cpp:261-334 | the footer has its magic number, and footer, timestamp entries and column entries end with the checksum of the bytes before |
| CompDataParts.StoreOfIs | src/pinusdb/storage/data_part.cpp:201-215 | a query column shows the stored field of the last mapping of that column, if there is one |
| CompDataParts.ProjectIs | src/pinusdb/storage/comp_data_part.cpp:292-313 | a row as a query sees it: the device id, the stored value of every mapped column, NULL elsewhere |
| CompDataParts.RunMapComplete | src/pinusdb/storage/comp_data_part.cpp:210-239 | the device map reaches all blocks of every device if and only if each device has one contiguous run |
| CompDataParts.RunPositions | src/pinusdb/storage/comp_data_part.cpp:197-208 | every field has its index run where the number of blocks puts it |
| CompDataParts.DeviceRuns | src/pinusdb/storage/comp_data_part.cpp:210-239 | counting along the timestamp entries gives the first run of every device |
| CompDataParts.RunEnds | src/pinusdb/storage/comp_data_part.cpp:218-236 | closing a run inserts the first run of a device and never overwrites one |
| CompDataParts.DecodeVals | src/pinusdb/storage/comp_data_part.cpp:349-393 | the decoder chosen for a type returns the encoded column, in either direction |
| CompDataParts.CompDataPart.constructor | src/pinusdb/storage/comp_data_part.cpp:166-245 | field names and types, index positions and device map recomputed from the file alone |
| CompDataParts.CompDataPart.BlockStart | src/pinusdb/storage/comp_data_part.cpp:263-276 | the start time the search compares is that of the block |
| CompDataParts.CompDataPart.Search | src/pinusdb/storage/comp_data_part.cpp:256-279 | the binary search terminates on any start times, with the last block not behind the bound or with the first block |
| CompDataParts.CompDataPart.Collect | src/pinusdb/storage/comp_data_part.cpp:281-288 | the blocks up to the first one that starts behind the upper bound |
| CompDataParts.CompDataPart.GetDevIdxs | src/pinusdb/storage/comp_data_part.cpp:247-290 | the selected stretch of the run of a device; nothing for an unknown device |
| CompDataParts.CompDataPart.Locate | src/pinusdb/storage/comp_data_part.cpp:325-335 | the index leads to the payload of the column |
| CompDataParts.CompDataPart.ReadColumn | src/pinusdb/storage/comp_data_part.cpp:315-396 | a column of a block reads back as it was stored, forwards or backwards; no error path is taken |
| CompDataParts.CompDataPart.LoadColumns | src/pinusdb/storage/comp_data_part.cpp:314-401 | every mapped field is decoded into its query column |
| CompDataParts.CompDataPart.LoadPage | src/pinusdb/storage/comp_data_part.cpp:292-402 | the query sees all rows of the block, aligned across columns, in stored or reverse order |
| PartQueries.OnlyFirstInVain | src/pinusdb/storage/comp_data_part.cpp:256-288 | behind the first selected block every selected block has a row in range |
| PartQueries.PruningTransparent | src/pinusdb/storage/comp_data_part.cpp:247-290 | filtering the selected blocks is filtering all blocks of the device, when the bounds satisfy SearchSound |
| PartQueries.SelectMeans | src/pinusdb/storage/comp_data_part.cpp:72-164 | the matching rows of a device are the stored rows of that device for which every condition is TRUE, each once, in insertion order or in reverse |
| PartQueries.OutsideMisses | src/pinusdb/storage/comp_data_part.cpp:256-288 | no row of a block that is not selected lies in the range |
| PartQueries.RangeTaken | src/pinusdb/storage/data_part.cpp:176-194 | a range taken from the conditions satisfies SearchSound, and all rows that meet the conditions lie in it if and only if they lie in the era |
| PartQueries.DayLost | src/pinusdb/storage/comp_data_part.cpp:281-288 | of a partition with later times than the era no block is selected, whatever the conditions |
| PartQueries.PruningLoses | src/pinusdb/storage/comp_data_part.cpp:263-276 | GetDevIdxs by itself: for all other bounds a two-row device loses a row in range, because int64 bounds are compared unsigned; RangeStart shows that no query passes such bounds |
| PartQueries.OfferedIs | src/pinusdb/storage/comp_data_part.cpp:122-131 | reversed blocks, each decoded backwards, are the reverse of the ascending row stream |
| PartQueries.QueryDevData | src/pinusdb/storage/comp_data_part.cpp:90-164 | the query ends as if it had been offered exactly the rows of the selected blocks, in order or in reverse; no block is read after the one that fills the result |
| PartQueries.RunHoldsDevice | src/pinusdb/storage/comp_data_part.cpp:210-239 | the run of a device holds exactly the rows of the device |
| PartQueries.QueryDevice | src/pinusdb/storage/comp_data_part.cpp:72-164 | for rows in time order and a range taken from the conditions, the matching rows of a query are those of the device, in insertion order or in reverse, and no others |
| PartQueries.SnapshotRow | src/pinusdb/storage/comp_data_part.cpp:90-155 | a snapshot takes the row of the device that was appended last |
| PartQueries.ReadPage | src/pinusdb/query/block_values.h:118-158 | reading row after row gives the surviving rows |
| PartQueries.ReadDevice | src/pinusdb/storage/comp_data_part.cpp:122-131 | reading all blocks of the run of a device gives exactly its rows, in insertion order or in reverse, whatever their times |
| PartQueries.AllFieldsShow | src/pinusdb/storage/data_part.cpp:201-215 | a query of all columns shows stored rows as they are |
| PartQueries.GroupedBlocks | src/pinusdb/storage/comp_part_builder.cpp:154-164 | rows grouped by device are cut into blocks grouped by device |
| PartQueries.FilterReverse | src/pinusdb/storage/comp_data_part.cpp:122-131 | filtering commutes with reversing |
| PartCuts.NotShorter | src/pinusdb/storage/comp_part_builder.cpp:166-180 | of two cuts of the same rows neither has the shorter first block |
| PartCuts.CutUnique | src/pinusdb/storage/comp_part_builder.cpp:151-183 | there is one way only to cut rows into blocks such that each is full as soon as its last row is in and not before, or is followed by another device |
| PartCuts.DeviceBlockCount | src/pinusdb/storage/comp_part_builder.cpp:177-180 | the blocks of a device hold 8192 rows each, up to the last one |
| PartCuts.BlockNumber | src/pinusdb/storage/comp_part_builder.cpp:177-180 | the number of blocks is the sum over the devices of their rows divided by 8192, rounded up |
| Partitions.WritePart | src/pinusdb/storage/comp_part_builder.cpp:151-215 | any sequence of rows is what the finished file holds, behind the meta data of its fields, cut into blocks that are neither closed too early nor too late |
| Partitions.OpenPart | src/pinusdb/storage/comp_data_part.cpp:166-245 | a finished file is opened with the fields and rows it was written with, and grouped rows give grouped blocks |
| Partitions.StoreAndRead | src/pinusdb/storage/comp_data_part.cpp:90-164 | partition round trip: rows grouped by device, appended, finished, reopened and read per device come back, in insertion order or in reverse, whatever blocks, syncs and spills came about |
| Partitions.StoreAndQuery | src/pinusdb/storage/comp_data_part.cpp:72-164 | SELECT on such a file: for a device with strictly increasing times and the range taken from the conditions, whose matching rows lie in the era, the result is the encoded LIMIT/OFFSET window of the matching appended rows |
| Partitions.BlocksNeeded | src/pinusdb/storage/comp_part_builder.cpp:151-183 | a file has at most as many blocks as rows, and at most 8192 rows a block |
| Partitions.BlocksDetermined | src/pinusdb/storage/comp_part_builder.cpp:151-183 | the rows alone decide how many blocks a file has, whatever syncs and spills came about |
| Partitions.BlocksPerDevice | src/pinusdb/storage/comp_part_builder.cpp:151-183 | rows grouped by device whose columns stay below 490 KB take for each device its number of rows divided by 8192, rounded up |
| Partitions.StoreAndFetch | src/dotnet/PDB.DotNetSDK/PDBCommand.cs:521-545 | from appended rows to both clients: each reads the selected window back, to its last byte |
| Partitions.StoreAndAggregate | src/pinusdb/query/result_object.cpp:50-74 | COUNT, SUM and AVG, in any combination, are those of the matching appended rows |
| PartAggregates.MatchesFit | src/pinusdb/storage/comp_data_part.cpp:292-402 | matching rows of a partition have values of the right type, so no aggregate refuses one |
| PartAggregates.KnownAnswers | src/pinusdb/query/result_object.cpp:63-74 | COUNT, SUM and AVG of 7, NULL, -2 and -10, and of nothing |
| PartAggregates.AppendField | src/pinusdb/query/result_object.cpp:50-61 | one aggregate takes exactly the surviving rows of a block, the shortcut of COUNT included |
| PartAggregates.FieldResult | src/pinusdb/query/result_object.cpp:63-74 | the result of one aggregate is that of all rows it took |
| PartAggregates.ResultObject.AppendArray | src/pinusdb/query/result_object.cpp:50-61 | every aggregate of the record takes the rows of the block |
| PartAggregates.ResultObject.GetRecord | src/pinusdb/query/result_object.cpp:63-74 | the record holds what each aggregate means for all rows taken; errors of GetResult are ignored |
| PartAggregates.AggregatePage | src/pinusdb/storage/comp_data_part.cpp:292-402 | the matching rows of one block are taken |
| PartAggregates.AggregateDevice | src/pinusdb/storage/comp_data_part.cpp:90-164 | with index pruning exactly the matching rows of the device are taken |
| PartFirstLast.OrientedSuited | src/pinusdb/storage/comp_data_part.cpp:292-402 | projected rows keep their types, and their order in the direction of the query |
| PartFirstLast.FilterSuited | src/pinusdb/query/query_raw.cpp:86-88 | conditions keep types and order |
| PartFirstLast.VisitPage | src/pinusdb/storage/comp_data_part.cpp:292-402 | one block: the function folds the matching rows; a block counts as added when a row matches |
| PartFirstLast.QueryDevSingle | src/pinusdb/storage/comp_data_part.cpp:122-139 | stopping at the first block with a match, behind which none is read, gives what all selected blocks give |
| PartFirstLast.FirstOrLastOfDevice | src/pinusdb/storage/comp_data_part.cpp:72-164 | FIRST and LAST with pruning and early exit equal the fold over every matching row of the device: the time and value of the oldest (newest) one if it lies strictly inside the era, and NULL exactly for FIRST at its last and LAST at its first microsecond |
| QueryBlocks.SameSize | src/pinusdb/query/block_values.h:127-139 | a filter that only narrowed has fewer survivors or is the same: why a size comparison is enough to trust the cache |
| QueryBlocks.MergeKeeps | src/pinusdb/query/block_values.h:41-94 | merging one flag per survivor filters the survivors |
| ConditionFilters.FilterStep | src/pinusdb/query/block_values.h:68-95 | keeping the rows whose value is TRUE is filtering by one condition more |
| ConditionFilters.FilterIs | src/pinusdb/query/query_raw.cpp:86-88 | filtering keeps exactly the rows for which every condition is TRUE, each once and in order |
| ConditionFilters.ComparisonLaws | src/pinusdb/query/condition_filter.h:38 | the comparisons of a time (query/value_item.cpp:1868-1884) over all 64-bit integers: >= by the sign of the difference, the others as negations and combinations of each other |
| ConditionFilters.ComparisonMeans | src/pinusdb/query/condition_filter.h:38 | a comparison is TRUE exactly for a row with a time in the range of the comparison (query/value_item.cpp:2018-2049), its bound excluded for <, > and <>; never for a row without a time |
| ConditionFilters.CompareRangeIs | src/pinusdb/query/condition_filter.h:38 | the times in the range of a comparison |
| ConditionFilters.FullRange | src/pinusdb/query/condition_filter.h:38 | without conditions the range is the era of the server |
| ConditionFilters.BothTrue | src/pinusdb/query/condition_filter.h:32-35 | AND is TRUE exactly when both sides are, and its conditions come in order |
| ConditionFilters.RunCondition | src/pinusdb/query/query_raw.cpp:45-47 | a row passes exactly when every condition is TRUE |
| ConditionFilters.RunConditionArray | src/pinusdb/query/query_raw.cpp:86-88 | vectorised WHERE: the surviving rows are those a row-at-a-time filter lets through, early break included |
| ConditionFilters.ConjunctsMean | src/pinusdb/query/condition_filter.h:32-35 | the collected conditions mean what the nested AND means |
| ConditionFilters.RangeIs | src/pinusdb/query/condition_filter.h:38 | the collected time range is the intersection of the ranges of all time comparisons with the times there are |
| ConditionFilters.RangeStart | src/pinusdb/query/condition_filter.h:38 | it never starts below 0 |
| ConditionFilters.RangeBounds | src/pinusdb/query/condition_filter.h:38 | every row that meets the conditions lies in it |
| ConditionFilters.ConditionFilter.BuildCondition | src/pinusdb/query/condition_filter.h:32-33 | the conjuncts from left to right, with the range of all of them |
| ConditionFilters.ConditionFilter.GetTstampRange | src/pinusdb/query/query_raw.cpp:156-159 | no row that the filter lets through lies outside of the range |
| QueryBlocks.Scan | src/pinusdb/query/block_values.h:129-136 | the cache holds the surviving positions in order |
| QueryBlocks.StaleCache | src/pinusdb/query/block_values.h:96-139 | SetRecordSize keeps the cache: a block used again can return a row that did not survive |
| QueryBlocks.CacheRight | src/pinusdb/query/block_values.h:118-158 | looking up row after row is right for all rows if and only if nothing is filtered, the size of the cache is not the number of survivors, or it holds their positions |
| QueryBlocks.BlockValues.MergeFilter | src/pinusdb/query/block_values.h:41-94 | refused exactly on a size mismatch; otherwise the conjunction of the old filter and the values, with its count; the loop never runs off the end |
| QueryBlocks.BlockValues.GetRecordValue | src/pinusdb/query/block_values.h:118-158 | the k-th surviving row, from the cache or after rebuilding it; exactly what a stale cache returns is stated too |
| QueryBlocks.BlockValues.SetRecordSize | src/pinusdb/query/block_values.h:96-101 | all rows survive; the cache is kept |
| QueryRaws.WindowSnoc | src/pinusdb/query/query_raw.cpp:52-72 | one matching row more: skipped, emitted or refused |
| QueryRaws.WindowFull | src/pinusdb/query/query_raw.cpp:42-43 | a full window does not change any more |
| QueryRaws.WindowIs | src/pinusdb/query/query_raw.cpp:52-72 | row i of the window is row offset + i, as many as there are up to the limit |
| QueryRaws.SelectedIs | src/pinusdb/query/query_raw.cpp:60-66 | column f of row i of the result is target f of row i |
| QueryRaws.QueryRaw.AppendSingle | src/pinusdb/query/query_raw.cpp:36-75 | one row: result, offset and count stay those of LIMIT/OFFSET over the matching rows so far; the flag tells whether it was added |
| QueryRaws.QueryRaw.AppendArray | src/pinusdb/query/query_raw.cpp:77-133 | a block has the effect of its surviving rows one by one, across any offset and limit; the flag is also set when the offset is used up exactly and nothing was added |
| QueryRaws.QueryRaw.GetResult | src/pinusdb/query/query_raw.cpp:140-149 | the result is the encoded window of all matching rows ever offered, and their number |
| GroupFunctions.FoldAppend | src/pinusdb/query/group_function.h:247-274 | how rows are split into blocks does not matter |
| GroupFunctions.ReachNext | src/pinusdb/query/group_function.h:293-322 | one turn of an array loop is one row of the group, or none |
| GroupFunctions.ReachFailed | src/pinusdb/query/group_function.h:990-991 | an array form stops at the row at which the row form would fail |
| GroupFunctions.CountMeaning | src/pinusdb/query/group_function.h:237-245 | COUNT is the number of non-null values |
| GroupFunctions.CountIs | src/pinusdb/query/group_function.h:237-245 | that number is the number of positions with a value |
| GroupFunctions.CountShortcut | src/pinusdb/query/group_function.h:253-257 | adding the number of survivors counts right if and only if none of them is null |
| GroupFunctions.SumMeaning | src/pinusdb/query/group_function.h:869-908 | SUM is the sum modulo 2^64, NULL without values, and fails exactly on a value of another type |
| GroupFunctions.AvgMeaning | src/pinusdb/query/group_function.h:37-76 | AVG keeps sum and number of the non-null values |
| GroupFunctions.TruncDivIs | src/pinusdb/query/group_function.h:106-121 | the quotient of AVG truncates toward zero |
| GroupFunctions.GroupTotals | src/pinusdb/query/group_function.h:303-318 | per-group totals of any weight add up to the total over the survivors |
| GroupFunctions.GroupsAddUp | src/pinusdb/query/group_function.h:303-318 | per-group counts and sums add up to the ungrouped ones |
| GroupFunctions.BestMeaning | src/pinusdb/query/group_function.h:363-409 | FIRST (LAST) keeps the value of the earliest arrival among the smallest (largest) times inside the sentinel |
| GroupFunctions.EarlyExit | src/pinusdb/query/group_function.h:457-533 | after the first part with a row, later rows of an ordered stream change nothing |
| GroupFunctions.FirstRowKept | src/pinusdb/query/group_function.h:337-341 | of an ordered stream FIRST keeps the first row if and only if its time is before the last microsecond of the era, LAST if and only if it is behind 0; otherwise the result is NULL |
| GroupFunctions.BoundaryTimes | src/pinusdb/query/group_function.h:337-341 | LAST over one row at time 0 is NULL, and so is FIRST over one row at 32503593599999999 |
| GroupFunctions.BestAccepts | src/pinusdb/query/group_function.h:363-409 | FIRST and LAST fail exactly on a row without a time or with a value of another type |
| GroupFunctions.ResultsAgree | src/pinusdb/query/group_function.h:771-805 | with a kept INT64 the array form does what the row form does with every next row if and only if the kept value fits 32 bits |
| GroupFunctions.FormsAgree | src/pinusdb/query/group_function.h:566-842 | MAX and MIN: array form and row form agree, INT64 included as long as the compare values fit 32 bits |
| GroupFunctions.FormsDiffer | src/pinusdb/query/group_function.h:771-772 | MAX over 2^32 and 5 is 2^32 by rows and 5 in a block |
| GroupFunctions.CopyRight | src/pinusdb/query/group_function.h:649-665 | the string copy of the row form is right if and only if the string is enlarged or loses only zeros |
| GroupFunctions.CopyLoses | src/pinusdb/query/group_function.h:649-665 | MAX with the string A as target leaves a zero instead |
| GroupFunctions.TakenFits | src/pinusdb/query/group_function.h:649-665 | the string behind the target has the length of the value taken and, where it was too small, has grown |
| GroupFunctions.Low32Keeps | src/pinusdb/query/group_function.h:771-772 | a kept INT64 read as INT32 has the same low 32 bits |
| GroupFunctions.ExtremeAccepts | src/pinusdb/query/group_function.h:566-600 | MAX and MIN fail exactly on a compare value, or a target beside one, of another type |
| GroupFunctions.ExtremeMeaning | src/pinusdb/query/group_function.h:566-673 | MAX (MIN) over an integer column keeps the target of the first row with the largest (smallest) compare value: no row has one above (below) it |
| GroupFunctions.DateTimeKeepsLast | src/pinusdb/query/group_function.h:582-640 | MAX and MIN over a DATETIME column keep the last row with a time, in both forms, because nothing is compared |
| GroupFunctions.DateTimeRight | src/pinusdb/query/group_function.h:754-812 | so the result is the extreme if and only if no time before the last one beats it |
| GroupFunctions.DateTimeWrong | src/pinusdb/query/group_function.h:582-640 | MAX over the times 5 and 3 is 3, and MIN over 3 and 5 is 5 |
| GroupFunctions.AvgOfNarrow | src/pinusdb/query/group_function.h:102-138 | AVG of one INT32 is set and reported as an error |
| GroupFunctions.CountFunc.AppendSingle | src/pinusdb/query/group_function.h:237-245 | one step of the fold |
| GroupFunctions.CountFunc.AppendArray | src/pinusdb/query/group_function.h:247-322 | the fold over the surviving rows of the group, errors included; the shortcut adds the number of survivors |
| GroupFunctions.CountFunc.GetResult | src/pinusdb/query/group_function.h:276-280 | for every history of rows and blocks the number of non-null values among all of them |
| GroupFunctions.SumFunc.AppendSingle | src/pinusdb/query/group_function.h:869-908 | one step of the fold |
| GroupFunctions.SumFunc.AppendArray | src/pinusdb/query/group_function.h:910-1025 | the fold over the surviving rows of the group, errors included |
| GroupFunctions.SumFunc.GetResult | src/pinusdb/query/group_function.h:933-951 | for every history of rows and blocks the sum over all of them modulo 2^64, or NULL when there was no value |
| GroupFunctions.AvgFunc.AppendSingle | src/pinusdb/query/group_function.h:37-76 | one step of the fold |
| GroupFunctions.AvgFunc.AppendArray | src/pinusdb/query/group_function.h:78-215 | the fold over the surviving rows of the group, errors included |
| GroupFunctions.AvgFunc.GetResult | src/pinusdb/query/group_function.h:102-138 | for every history the truncated mean of the values; for types narrower than 64 bits it is set and an error is reported all the same |
| GroupFunctions.FirstOrLastValueFunc.AppendSingle | src/pinusdb/query/group_function.h:363-409 | one step of the fold |
| GroupFunctions.FirstOrLastValueFunc.AppendArray | src/pinusdb/query/group_function.h:411-533 | the fold over the surviving rows of the group; refused when a column is missing |
| GroupFunctions.ExtremeValueFunc.AppendSingle | src/pinusdb/query/group_function.h:566-673 | one step of the row form |
| GroupFunctions.ExtremeValueFunc.AppendArray | src/pinusdb/query/group_function.h:675-842 | the array form folded over the surviving rows of the group |
| InsertSqls.SlotsApart | src/pinusdb/expr/insert_sql.cpp:199-208 | record slots do not overlap and lie inside the fixed part |
| InsertSqls.IntegerKept | src/pinusdb/expr/insert_sql.cpp:57-96 | conversion of an integer literal keeps its value, as a time too, and fails exactly outside the range of the column |
| InsertSqls.LiteralsTaken | src/pinusdb/expr/insert_sql.cpp:57-119 | which literals a column of each type takes, and no others |
| InsertSqls.LiteralsStored | src/pinusdb/expr/insert_sql.cpp:57-119 | what they become: unchanged, the same number, the time that was parsed, or the matching floating-point conversion |
| InsertSqls.KnownLayout | src/pinusdb/expr/insert_sql.cpp:188-212 | the slots of a table with a column of every type |
| InsertSqls.KnownSlots | src/pinusdb/expr/insert_sql.cpp:328-368 | slots of small values, byte for byte |
| InsertSqls.KnownWideSlots | src/pinusdb/expr/insert_sql.cpp:328-368 | slots of four and eight bytes, byte for byte |
| InsertSqls.HoldsReads | src/pinusdb/expr/insert_sql.cpp:328-368 | a stored value reads back from its slot, or through offset and length |
| InsertSqls.ErrorMeans | src/pinusdb/expr/insert_sql.cpp:299-368 | a record succeeds if and only if every value is NULL, or converts and fits behind the values before it; otherwise the error is that of the first value that does not: a mismatch if it cannot be converted, else the record would reach 8192 bytes |
| InsertSqls.SlotKept | src/pinusdb/expr/insert_sql.cpp:328-368 | storing one value leaves the slots and strings of the others alone |
| InsertSqls.StoreValue | src/pinusdb/expr/insert_sql.cpp:328-368 | one value: slot and appended bytes; a value that would outgrow the reservation is refused and changes nothing |
| InsertSqls.InsertSql.constructor | src/pinusdb/expr/insert_sql.cpp:188-212 | positions, slots and types of the listed columns |
| InsertSqls.InsertSql.SlotsStep | src/pinusdb/expr/insert_sql.cpp:299-371 | slot after slot, none disturbs another |
| InsertSqls.InsertSql.GetNextRecBinary | src/pinusdb/expr/insert_sql.cpp:286-375 | takes exactly fieldCnt_ values even on failure; reports the error of the first value that cannot be stored; the record stays below the reservation and holds every value; device id and time are those of their columns |
| InsertSqls.InsertSql.RecordReads | src/pinusdb/expr/insert_sql.cpp:286-375 | every column of a finished record reads back as the converted value, NULL as zero |
| InsertSqls.InsertSql.GetNextRec | src/pinusdb/expr/insert_sql.cpp:219-284 | the record as values; mismatches are reported after all values were taken |
| InsertSqls.InsertSql.RunBatch | src/pinusdb/expr/insert_sql.cpp:178-181 | a batch stays in frame whichever records fail and ends with the last record |
| ByteStreams.ByteBuffer.WriteBytes | src/dotnet/PDB.DotNetSDK/ByteBuffer.cs:17-25 | all or nothing |
| ByteStreams.ByteBuffer.ReadBytes | src/dotnet/PDB.DotNetSDK/ByteBuffer.cs:27-34 | copies the contents to an offset, or throws |
| ByteStreams.ByteStream.Write | src/dotnet/PDB.DotNetSDK/ByteStream.cs:17-32 | the contents grow by exactly the bytes, in whichever chunks |
| ByteStreams.ByteStream.GetTotalLen | src/dotnet/PDB.DotNetSDK/ByteStream.cs:34-43 | the length of the contents |
| ByteStreams.ByteStream.Read | src/dotnet/PDB.DotNetSDK/ByteStream.cs:45-51 | the destination holds the flattened contents at the offset and is unchanged elsewhere |
| WireFormat.ValueRoundTrip | src/dotnet/PDB.DotNetSDK/PDBCommand.cs:619-668 | an encoded value of any type reads back between any other bytes |
| WireFormat.RowRoundTrip | src/dotnet/PDB.DotNetSDK/PDBCommand.cs:604-617 | a row reads back and the reader stops right behind it |
| WireFormat.RowsRoundTrip | src/dotnet/PDB.DotNetSDK/PDBCommand.cs:521-545 | a table reads back to its last byte |
| WireFormat.KnownValues | src/dotnet/PDB.DotNetSDK/IntTool.cs:92-355 | one value of every type, byte for byte |
| WireFormat.KnownRows | src/dotnet/PDB.DotNetSDK/PDBCommand.cs:375-426 | rows and their values follow each other in order, without separators |
| WireFormat.SameCodes | src/pinusdb/storage/comp_part_builder.cpp:251 | the type byte is the type code of the partition files |
| IntTool.WriteVarint | src/dotnet/PDB.DotNetSDK/IntTool.cs:155-225 | type and ZigZag varint; 11 scratch bytes are always enough |
| IntTool.WriteFloat | src/dotnet/PDB.DotNetSDK/IntTool.cs:227-248 | type and bit pattern |
| IntTool.WriteDouble | src/dotnet/PDB.DotNetSDK/IntTool.cs:250-280 | type and bit pattern |
| IntTool.WriteDatetime | src/dotnet/PDB.DotNetSDK/IntTool.cs:282-305 | refused exactly outside of the years 1970 to 2999 |
| IntTool.LastDay | src/pinusdb/util/date_time.h:36-44 | the times the client writes and the server takes for invalid are those of 31 December 2999 |
| IntTool.WhatCanBeWritten | src/dotnet/PDB.DotNetSDK/IntTool.cs:282-355 | strings and blobs below 8192 bytes, the times of the 376200 days from 1970 to 2999, among them all that the server takes, and everything of other types |
| IntTool.WriteBytes | src/dotnet/PDB.DotNetSDK/IntTool.cs:316-355 | refused from 8192 bytes on; below that 3 scratch bytes hold type and length |
| IntTool.WriteRow | src/dotnet/PDB.DotNetSDK/PDBCommand.cs:377-425 | succeeds if and only if every value can be written |
| IntTool.WriteRows | src/dotnet/PDB.DotNetSDK/PDBCommand.cs:375-426 | all rows of the table, in order |
| IntTool.MakePacket | src/dotnet/PDB.DotNetSDK/PDBCommand.cs:354-447 | head room, names and rows, flattened |
| WireReaders.ReadRawVarint32 | src/dotnet/PDB.DotNetSDK/IntTool.cs:29-73 | the nested branches read every 32-bit varint the format defines |
| WireReaders.ReadRawVarint64 | src/dotnet/PDB.DotNetSDK/IntTool.cs:75-90 | the loop reads every 64-bit varint the format defines |
| WireReaders.GetStoreData | src/dotnet/PDB.DotNetSDK/PDBCommand.cs:619-668 | every value the format defines |
| WireReaders.GetRecord | src/dotnet/PDB.DotNetSDK/PDBCommand.cs:604-617 | every row the format defines, with the offset behind it |
| WireReaders.DecodeRows | src/dotnet/PDB.DotNetSDK/PDBCommand.cs:521-545 | every table the format defines, up to the end of the packet |
| WireReaders.StandsStill | src/dotnet/PDB.DotNetSDK/PDBCommand.cs:521-545 | without columns no number of rows moves the offset, so with bytes left the loop does not end |
| WireReaders.RowAdvances | src/dotnet/PDB.DotNetSDK/PDBCommand.cs:604-617 | a row moves the offset if and only if there are columns |
| WireReaders.DBObj.ParseValue | src/pdb_csdk/db_obj.cpp:188-246 | every value the format defines is pushed onto the object |
| WireReaders.DBObj.ParseTrans | src/pdb_csdk/db_obj.cpp:175-253 | every row the format defines replaces the contents of the object; the length is that of the row |
| WireReaders.ParseRows | src/pdb_csdk/db_obj.cpp:175-253 | record after record, so both clients agree on every stream of the format |
| Wire.RoundTrip | src/dotnet/PDB.DotNetSDK/PDBCommand.cs:354-545 | written into chunks, flattened and read by either client, a table is the same table, and both readers stop at the end |
| ServerConnections.FrontTaken | src/pinusdb/server/server_connection.cpp:184-189 | taking the first free record conserves all records |
| ServerConnections.KeyTakes | src/pinusdb/server/server_connection.cpp:78-79 | so does giving it to a new key |
| ServerConnections.KeyGivesBack | src/pinusdb/server/server_connection.cpp:99-108 | so does taking it from a key |
| ServerConnections.BlockAdded | src/pinusdb/server/server_connection.cpp:171-185 | a new block adds 64 free records |
| ServerConnections.CarvingIs | src/pinusdb/server/server_connection.cpp:171-185 | its last record comes first |
| ServerConnections.NewConnection | src/pinusdb/server/server_connection.cpp:21-34 | a new connection has role 0, no login, the given port and time, and of its host the longest prefix that fits 15 bytes |
| ServerConnections.LoggedIn | src/pinusdb/server/server_connection.cpp:36-44 | a login sets role and name, of which 47 bytes are kept, and nothing else |
| ServerConnections.StepMeans | src/pinusdb/server/server_connection.cpp:63-110 | an operation concerns one key: added unless the table is full, gone after it was deleted, the others as they were |
| ServerConnections.ServerConnection.AddConnection | src/pinusdb/server/server_connection.cpp:63-84 | refused if and only if the key is new and all records of 16 blocks are in use; otherwise the table shows the new connection and no other change |
| ServerConnections.ServerConnection.MallocConnInfo | src/pinusdb/server/server_connection.cpp:167-194 | hands out the first free record, the last one of a new block when there is none, or none when all are in use |
| ServerConnections.ServerConnection.ConnectionLogin | src/pinusdb/server/server_connection.cpp:86-94 | changes the login of that connection only |
| ServerConnections.ServerConnection.DelConnection | src/pinusdb/server/server_connection.cpp:96-110 | removes that connection only; its record is the next to be handed out |
| ServerConnections.Run | src/pinusdb/server/server_connection.cpp:63-194 | after any run of operations the pool shows what a map bounded to 1024 entries shows |
| ServerConnections.StepsBound | src/pinusdb/server/server_connection.cpp:63-84 | that map never exceeds its bound |
| Crc.TableIsSteps | src/dotnet/PDB.DotNetSDK/CRC.cs:12-141 | all 256 entries are eight steps of the shift register from their index |
| Crc.StepsLinear | src/dotnet/PDB.DotNetSDK/CRC.cs:148-158 | the register is linear |
| Crc.ByteStep | src/dotnet/PDB.DotNetSDK/CRC.cs:154-155 | a lookup does the work of eight steps, for every register and byte |
| Crc.Crc64 | src/dotnet/PDB.DotNetSDK/CRC.cs:148-158 | the table-driven loop computes the bit-at-a-time checksum of the covered bytes |
| Crc.Crc32 | src/dotnet/PDB.DotNetSDK/CRC.cs:160-164 | its low 32 bits |
| Crc.CheckValue | src/dotnet/PDB.DotNetSDK/CRC.cs:148-158 | the checksum of the digits 1 to 9 is the published check value of the polynomial |
| Crc.OneByteDetected | src/dotnet/PDB.DotNetSDK/CRC.cs:148-158 | the 64-bit checksum detects every error confined to one byte |

## Left out

- zlib: compression is a function with an inverse that succeeds on every raw buffer of up to 512 KB; incompressible columns close to the size of the output buffer are not modelled.
- Disk errors and error paths of file writes: writes succeed, and `Append` ignoring the result of `Flush` has no effect then.
- PartMeta.ReadFields: field names are shorter than their 48 bytes and contain no zero; there are at most 860 fields; the codes of the REAL types are refused, because these types are not modelled.
- Checking the stored checksums of blocks, entries and footer: the reader does not check them either; their values are computed with an arbitrary function.
- REAL2, REAL3, REAL4 and REAL6 columns: stored like INT64, scaled to double on read.
- GroupFunctions.SumMeaning: SUM is modelled for the integer types; the floating-point sums of FLOAT and DOUBLE columns are not.
- GroupFunctions.AvgMeaning: AVG likewise.
- GroupFunctions.AvgFunc.AppendArray: FLOAT and DOUBLE columns are not modelled, nor by the other members of AvgFunc.
- GroupFunctions.FormsAgree: FLOAT and DOUBLE compare columns are not modelled.
- PartAggregates.AggregateDevice: so aggregates over the partition are COUNT of any column, SUM and AVG of integers.
- GroupFunctions.ExtremeMeaning: MAX and MIN are modelled for integer and DATETIME compare columns; FLOAT and DOUBLE, and the row form comparing a FLOAT through its INT64 reading, are not.
- CompPartBuilders.CompPartBuilder.Flush: the size test of the arena is a free choice, so everything holds for every schedule; the code also reads the size through a null pointer when there is no arena, which counts as size 0 here.
- CompPartBuilders.CompPartBuilder.Append: rows are well typed, have a positive device id, and strings and blobs of at most 22 KB less 5 bytes; with longer ones a column can outgrow the 512 KB buffers. The server limits a record to 8 KB (PDB_MAX_REC_LEN, include/internal.h).
- ColumnDecoder.DecodeFloatVals: reading a header byte behind a malformed payload is a failure here; the code reads on.
- ColumnDecoder.DecodeBytesVals: going on behind a malformed payload is a failure here; the code reads on.
- PartQueries.QueryDevData: time-outs are not modelled; blocks are at most 2^30, because the search adds two block numbers in 32 bits (`Readable`).
- PartQueries.SnapshotRow: the query object that takes the row is not modelled.
- ConditionFilters.ConditionFilter.BuildCondition: constant conditions and the range of device ids are not treated apart, as the code does to find empty results early.
- ConditionFilters.GetValueArray: a condition other than a comparison of the time column is a function of the row, and so is a target; building them from SQL and their error results are not modelled.
- QueryBlocks.BlockValues.MergeFilter: flags are booleans where the source has bytes 0 and 1.
- GroupFunctions.SumFunc.AppendArray: signed overflow, undefined in C++, wraps around; FLOAT and DOUBLE columns are not modelled, nor by the other members of SumFunc.
- GroupFunctions.ExtremeValueFunc.AppendSingle: how far a string's capacity grows is an arbitrary function; FLOAT and DOUBLE compare columns are not modelled, nor in AppendArray.
- The conditional aggregate (AggIf), and GROUP BY beyond the label a row carries: the array form of the former walks all rows through an interface bounded by the survivors.
- InsertSqls.InsertSql.constructor: column names are resolved to positions beforehand.
- InsertSqls.InsertSql.GetNextRecBinary: REAL columns are not modelled; date parsing and conversions to float and double are arbitrary functions.
- IntTool.WriteDatetime: the year test on local time is a test on UTC time; DateTime ticks and time zones are not modelled.
- IntTool.MakePacket: the head is room that stays zero; setting its fields and the limit on table names are not modelled.
- WireReaders.GetStoreData: on bytes that are no value of the format only the bounds of the read are stated. The two clients treat such bytes differently: a boolean byte other than 0 and 1, an integer wider than its type, an unknown type.
- WireReaders.DecodeRows: a packet without columns and with bytes left, on which the loop of the code does not end, is no input of the method; StandsStill states that case.
- ServerConnections.ServerConnection.AddConnection: locks, and the C strings behind host and login names beyond their clipping, are not modelled.
- Crc.Crc64: the table is a function of the byte, grouped in rows of 16 entries, instead of an array.
- SQL parsing, tables, sessions, sockets, logs, configuration and the manager program.
