# VQLite core in Dafny

VQLite is a vector search service. It keeps named **collections**, and each collection is an ordered list of **segments**. A segment holds a document table and one ScaNN vector index. Only the last segment takes inserts, and a full segment is sealed and followed by a new one. A document gets the next slot of its segment's table as its id. Each of its vectors gets a vector id that packs that slot with the vector's tag into one `int64`. A search asks every searchable segment's index and merges the per-segment results: it sorts them by score, cuts them to top-K and drops hits whose document was deleted. A Python client shapes the HTTP requests.

This project models that core and proves its contracts. One module per source file:

| module | file | what it models |
|---|---|---|
| `Types` | — | Option/Result, `int64`/`uint64` wrap-around, byte and `float32` bit-pattern types |
| `CoreTypes` | core/types.go | the request, result and statistics records |
| `VecId` | utils/vecid.go | vector-id packing and unpacking with 64-bit two's-complement shifts; the request-id counter |
| `Vecs` | utils/vecs.go | row flattening |
| `MetadataTable` | core/segment_metadata.go | the document table: a class over a sequence of slots (record or tombstone) |
| `Segments` | core/segment.go | the segment class: id assignment, batch insert, the seal and new-index flags, searchability, statistics |
| `Engine` | engine/go-scann/scann_index.go | the Go wrapper over the C engine: handle life cycle, guards, result unpacking, state mapping |
| `Files` | utils/file.go | path helpers, the in-place slice utilities used when reloading, and the segment-directory sort |
| `Collections` | core/collection.go | the collection class: segment rollover, monotone segment ids, fan-out of document operations, the search merge, statistics, the segment-id restore on load |
| `CollectionList` | core/collectionlist.go | the registry class that maps names to collections |
| `Core` | core/core.go, and `NewCollection` from core/collection.go | request validation, search-option defaults, create/drop, and service statistics |
| `Sdk` | python_sdk/vqlite_api.py | the client's value objects and their dictionaries, URL normalisation, the header merge, the retry bound, and the request each API method builds |

Code that changes state in place is modelled as classes whose methods have `modifies` clauses. Each such method is specified against a function of the old state, and lemmas prove the source's properties about those functions. Pure code is modelled as functions and lemmas. The C engine, the file system and the transport are parameters: their return codes, statistics and outcomes are passed in, and what the engine was given is kept as ghost state.

## Model

| member | source | states |
|---|---|---|
| Types.Wrap64 | utils/vecid.go:16 | Two's-complement truncation to `int64`: the result is an `int64`, congruent to the input modulo 2^64, and equal to it when it already fits. |
| VecId.EncodeVectorId | utils/vecid.go:11-17 | Fails exactly when the slot or the tag exceeds `MaxUint32`; otherwise the id is an `int64` congruent to `docId * 2^32 + extra` modulo 2^64. |
| VecId.DecodeVectorId | utils/vecid.go:19-22 | The high part is a signed 32-bit value and the low part an unsigned 32-bit value, and `high * 2^32 + low` is the id. |
| VecId.RoundTrip | utils/vecid.go:11-22 | For a slot below 2^31 and any 32-bit tag, encoding does not wrap, gives a non-negative id, and decoding gives back the slot and the tag. |
| VecId.EncodeDecode | utils/vecid.go:11-22 | Every `int64` id is the encoding of its own decoding. |
| VecId.EncodeInjective | utils/vecid.go:11-17 | Distinct (slot, tag) pairs in the round-trip domain get distinct ids. |
| VecId.EncodeWrapsAboveInt31 | utils/vecid.go:13-16 | A slot in [2^31, 2^32) passes the range check, but the shift wraps: the id is negative and decodes to a different slot. |
| VecId.NextReqId | utils/vecid.go:27 | The `uint64` successor: one more, except that the largest value wraps to 0. |
| VecId.ReqIdCounter.constructor | utils/vecid.go:24-25 | The counter starts at the given clock seed. |
| VecId.ReqIdCounter.Next | utils/vecid.go:26-28 | Each call bumps the counter by one (wrapping) and returns the new value. |
| VecId.IteratedReqId | utils/vecid.go:24-29 | The counter value after a number of calls stays a `uint64`. |
| VecId.ReqIdsIncrease | utils/vecid.go:24-29 | Without wrap-around, `n` calls move the counter from the seed to `seed + n`, so ids strictly increase. |
| Vecs.FlattenFloat32Slice | utils/vecs.go:16-28 | The result is the rows concatenated in order, and its length is the total row length. |
| Vecs.FlattenLength | utils/vecs.go:16-28 | The flattened length is the sum of the row lengths. |
| Vecs.FlattenConcat | utils/vecs.go:16-28 | Flattening distributes over concatenation of row lists. |
| Vecs.FlattenUniformIndex | utils/vecs.go:16-28 | With rows of length `d`, element `j` of row `i` lands at index `i * d + j`. |
| Vecs.FlattenUniformLength | utils/vecs.go:16-28 | With rows of length `d`, the flattened length is `rows * d`. |
| MetadataTable.FirstLive | core/segment_metadata.go:69-81 | The lowest slot holding a live record with the vqid: it matches, no earlier slot matches, and none means no slot matches. |
| MetadataTable.CountLive | core/segment_metadata.go:52-67 | The number of live matches is at most the number of slots. |
| MetadataTable.LiveMatches | core/segment_metadata.go:52-81 | The live records with the vqid in slot order: as many as `CountLive`, each carrying the vqid and each stored in the table. |
| MetadataTable.UpdateData | core/segment_metadata.go:52-67 | Same length and same tombstones; every live match carries the new data under its own vqid; every other slot is unchanged. |
| MetadataTable.DeleteFirst | core/segment_metadata.go:35-50 | Without a live match the table is unchanged; otherwise exactly the first live match becomes a tombstone. |
| MetadataTable.CountLivePositive | core/segment_metadata.go:52-81 | A live match exists exactly when the update count is positive. |
| MetadataTable.DeleteFirstCount | core/segment_metadata.go:35-50 | Deleting removes exactly one live match, and only when there is one. |
| MetadataTable.CountAfterTombstone | core/segment_metadata.go:44 | Making a live match a tombstone lowers the count by one. |
| MetadataTable.NoRevival | core/segment_metadata.go:40-42 | Neither delete nor update ever turns a tombstone back into a record. |
| MetadataTable.UpdateThenLookup | core/segment_metadata.go:52-81 | After an update, a lookup of the same vqid finds the same slot, now carrying the new data. |
| MetadataTable.FirstLiveSame | core/segment_metadata.go:69-81 | Two tables with the same live matches give the same lookup. |
| MetadataTable.DeleteThenLookup | core/segment_metadata.go:35-81 | After a delete, a lookup of the same vqid finds a strictly later slot, if any. |
| MetadataTable.LiveMatchesFirst | core/segment_metadata.go:52-81 | The live matches are non-empty exactly when a lookup succeeds, and the first of them is the record the lookup returns. |
| MetadataTable.SegmentMetadata.constructor | core/segment_metadata.go:13-17 | A new table is empty. |
| MetadataTable.SegmentMetadata.Add | core/segment_metadata.go:19-24 | The record takes the next slot and earlier slots are untouched. |
| MetadataTable.SegmentMetadata.GetByid | core/segment_metadata.go:26-33 | The slot at the index (possibly a tombstone), or nothing past the end. |
| MetadataTable.SegmentMetadata.Size | core/segment_metadata.go:83-87 | The number of slots, tombstones included. |
| MetadataTable.SegmentMetadata.DeleteByVqid | core/segment_metadata.go:35-50 | Reports whether a live match existed, and leaves the table with the first one tombstoned (`DeleteFirst`). |
| MetadataTable.SegmentMetadata.Update | core/segment_metadata.go:52-67 | Returns the number of live matches and leaves the table as `UpdateData` describes. |
| MetadataTable.SegmentMetadata.GetByVqid | core/segment_metadata.go:69-81 | The record in the first live matching slot, or nothing when there is none. |
| Segments.TagAt | core/segment.go:186-205 | Tag `i` is an `int64`: the document's own tag, or the position when it gives none. |
| Segments.VectorIds | core/segment.go:186-205 | At most one id per tag (ids whose encoding fails are skipped), each an `int64`. |
| Segments.VectorIdsDecode | core/segment.go:186-205 | With the slot below 2^31 and every tag within 32 bits, no id is skipped, and id `i` decodes to (slot, tag `i`). |
| Segments.Ids | core/segment.go:153 | One id per (id, vector) pair. |
| Segments.Vectors | core/segment.go:154 | One vector per (id, vector) pair. |
| Segments.Records | core/segment.go:137-145 | A batch appends one record per document, in input order, each carrying that document's vqid and metadata. |
| Segments.BatchPrefix | core/segment.go:137-138 | Every prefix of a well-formed batch is well formed. |
| Segments.PairsWithinConcat | core/segment.go:135-166 | Id ranges of consecutive slot ranges combine. |
| Segments.DecodeWithin | utils/vecid.go:19-22 | An id in the range of slots `[lo, hi)` decodes to one of those slots. |
| Segments.DocumentPairsWithin | core/segment.go:146-166 | The ids of one document lie in the range of its own slot. |
| Segments.IdsOfVectorPairs | core/segment.go:146-166 | The ids of a document's batch pairs are exactly the ids `AddDocument` would give it. |
| Segments.PairsConcat | core/segment.go:153-154 | Ids and vectors distribute over concatenation of pair lists. |
| Segments.BatchPairsWithin | core/segment.go:135-166 | In a batch whose slots and tags are in range, every id lies in the range of the batch's slots. |
| Segments.BatchPairsLast | core/segment.go:137-167 | A batch's pairs are those of all documents but the last, followed by the last document's pairs under the next slot. |
| Segments.BatchPairsDecode | core/segment.go:135-168 | Every id a batch sends to the index decodes to the slot of one of the batch's documents. |
| Segments.PairsSnoc | core/segment.go:153-154 | Appending a pair appends its id and its vector. |
| Segments.BatchStep | core/segment.go:137-138 | Each document of a well-formed batch is well formed under its own slot. |
| Segments.BatchPairsSnoc | core/segment.go:137-167 | One more document adds its pairs at the end. |
| Segments.RecordsSnoc | core/segment.go:141-144 | One more document adds its record at the end. |
| Segments.Segment.constructor | core/segment.go:112-124 | A new segment is unsealed, has no new index and an empty table. |
| Segments.Segment.NewSegment | core/segment.go:102-127 | Fails only when the dimension is positive and the engine cannot create the index; an index exists exactly for a positive dimension, live and empty; the configuration is as given and the table empty. |
| Segments.Segment.AddDocument | core/segment.go:172-208 | The document's record is appended to the table, and the index gains what the engine accepts of the document's vectors under the ids `DocumentVectorIds(Size(), doc)`; nothing else about the index changes. |
| Segments.Segment.EncodeIds | core/segment.go:184-205 | The id loop computes exactly `DocumentVectorIds`: one id per tag (per position without tags), skipping failed encodings. |
| Segments.Segment.BatchAddDocuments | core/segment.go:133-170 | The documents take consecutive slots in input order: their records are appended, and the index gains what the engine accepts of all their (id, vector) pairs, sent in one call. |
| Segments.Segment.AppendBatch | core/segment.go:135-167 | The batch loop appends `Records(docs)` and gathers exactly the ids and vectors of `BatchPairs`. |
| Segments.Segment.DocumentPairs | core/segment.go:146-166 | The loop over one document gathers the ids and the vectors of `VectorPairs`, each vector paired with its own tag's id. |
| Segments.Segment.DeleteDocument | core/segment.go:210-212 | Reports whether a live record existed, and tombstones the first one. |
| Segments.Segment.UpdateDocumentMetadata | core/segment.go:214-216 | Returns the number of live records with the vqid, and gives each of them the new metadata. |
| Segments.Segment.GetDocumentMetadata | core/segment.go:218-234 | With `checkDuplicate`, all live records with the vqid in slot order; without it, only the first one, or none. |
| Segments.Segment.SealIndex | core/segment.go:236-238 | The segment is sealed; its index and new-index flag are unchanged. |
| Segments.Segment.IsSearchable | core/segment.go:240-254 | True exactly when there is an index, it holds something, and its state is Ready, Add or Dump. |
| Segments.Segment.Statistics | core/segment.go:256-270 | An error exactly when there is no index; otherwise the segment's id, seal flag and dimension, the engine's statistics, its vector count, and the slot count as document count. |
| Segments.Segment.LoadIndex | core/segment.go:431-455 | Without an index, one is created if the engine can; with an index flagged as replaced, a new one replaces it, the old one is released and the flag is cleared; otherwise nothing changes. |
| Segments.Segment.SetHasNewIndex | core/segment.go:463-465 | Raises the new-index flag and changes nothing else. |
| Segments.Segment.SetNoNewIndex | core/segment.go:466-468 | Clears the new-index flag and changes nothing else. |
| Segments.Segment.HasNewIndex | core/segment.go:469-471 | Returns the new-index flag. |
| Engine.StateName | engine/go-scann/scann_index.go:57-65 | A known C state code maps to its name, and any other code to INDEX_STATE_UNKNOWN. |
| Engine.StateCode | engine/go-scann/scann_index.go:57-65 | The code of a known state name, or nothing for a name not in the map. |
| Engine.StateNameInverse | engine/go-scann/scann_index.go:239-244 | Only unknown codes get INDEX_STATE_UNKNOWN, and a known code can be read back from its name. |
| Engine.SearchableStates | engine/go-scann/scann_index.go:55 | A code names a searchable state exactly when it is READY, ADD or DUMP. |
| Engine.Statistics | engine/go-scann/scann_index.go:211-257 | The engine record's sizes are copied; the brute-force flag is true exactly when the engine says 1; the status is the mapped name, INDEX_STATE_UNKNOWN exactly for an unknown code. |
| Engine.FirstNegative | engine/go-scann/scann_index.go:171-175 | The number of leading slots with a non-negative score: every one before it is non-negative and the slot at it is negative. |
| Engine.Tag | engine/go-scann/scann_index.go:176 | Each slot becomes a hit with its vid and score and the index's id. |
| Engine.RowIsNonNegativePrefix | engine/go-scann/scann_index.go:170-180 | A query's hits are the longest non-negative-score prefix of its block, each tagged with the index id. |
| Engine.UnpackRows | engine/go-scann/scann_index.go:168-180 | One row per query. |
| Engine.UnpackRowsSnoc | engine/go-scann/scann_index.go:170-180 | Unpacking one more block appends its row. |
| Engine.UnpackRowsIndex | engine/go-scann/scann_index.go:170-180 | Row `i` comes from slots `i*k` to `i*k+k-1` alone. |
| Engine.UnpackRowsBounded | engine/go-scann/scann_index.go:170-180 | Every query gets at most `k` hits, all non-negative and all tagged with the index id. |
| Engine.Pairs | engine/go-scann/scann_index.go:189-197 | The engine reads one `dim`-length vector per vid, in order. |
| Engine.PairsOfUniformRows | engine/go-scann/scann_index.go:189-197 | With one row of `dim` elements per vid, the flattened buffer passes the length check and the engine pairs each vid with its own row. |
| Engine.Accepted | engine/go-scann/scann_index.go:185-209 | The engine takes in pairs only when the length check passes and the engine answers 0, and then one per vid. |
| Engine.ReadRow | engine/go-scann/scann_index.go:171-179 | The inner search loop reads exactly the row of one query's block. |
| Engine.ScaNNIndex.constructor | engine/go-scann/scann_index.go:114-119 | A live, empty wrapper with the given dimension, directory and id. |
| Engine.ScaNNIndex.NewScaNNIndex | engine/go-scann/scann_index.go:92-122 | Returns a wrapper exactly when the engine's initialisation returns a handle; the wrapper is live and empty. |
| Engine.ScaNNIndex.Destroy | engine/go-scann/scann_index.go:124-136 | The handle is dropped, the engine is released once if it was live and never twice, and the stored vectors are kept. |
| Engine.ScaNNIndex.Search | engine/go-scann/scann_index.go:138-183 | The three error cases with their messages (no handle, fewer than one query, engine failure); otherwise one row per query, each read from its own block of `k` slots. |
| Engine.ScaNNIndex.AddWithIDs | engine/go-scann/scann_index.go:185-209 | True exactly when the flattened length is `len(vids) * Dim` and the engine answers 0; the index gains exactly the accepted pairs and nothing else changes. |
| Engine.ScaNNIndex.Train | engine/go-scann/scann_index.go:259-287 | Refuses with the source's messages when the dataset is empty or fully indexed; otherwise the engine trains once; success exactly when the engine answers 0. |
| Files.TrimRightSlash | utils/file.go:78 | A prefix of the input, not ending in '/', with only '/' characters removed from the end. |
| Files.LastIndex | utils/file.go:93 | -1 exactly when the character does not occur; otherwise an index holding it with no later occurrence. |
| Files.ParsePath | utils/file.go:77-83 | The result starts with '/', ends with '/' only when it is "/", and is the trimmed input with '/' prepended when needed. |
| Files.ParsePathIdempotent | utils/file.go:77-83 | Parsing a parsed path changes nothing. |
| Files.RemoveLastSlash | utils/file.go:85-90 | Inputs of length at most one are unchanged; longer ones lose exactly one trailing '/', if any. |
| Files.Dir | utils/file.go:92-101 | The input without '/'; "/" when the last '/' is first; otherwise the prefix before the last '/'. |
| Files.Base | utils/file.go:103-109 | A suffix of the input without '/', preceded by a '/' in the input when there is one, and the whole input otherwise. |
| Files.DirBaseJoin | utils/file.go:92-109 | When the last '/' is not the first character, `Dir + "/" + Base` is the path. |
| Files.ExtScan | utils/file.go:124 | A found extension is a suffix without '.' or '/', directly preceded by '.'. |
| Files.Ext | utils/file.go:123-125 | The extension is a suffix of the name without '.' or '/'. |
| Files.ExtOfJoin | utils/file.go:123-125 | Any stem followed by `.ext` has extension `ext`. |
| Files.ExtScanAfterDot | utils/file.go:124 | Scanning back over a '.'-free, '/'-free suffix that follows a '.' yields that suffix. |
| Files.ExtWithoutDot | utils/file.go:123-125 | A final path element without '.' has no extension. |
| Files.DotOfExtInBase | utils/file.go:103-125 | The '.' that starts an extension lies in the final path element. |
| Files.ParseUint | utils/file.go:164-165 | A successful parse comes from a non-empty string of decimal digits, and its value fits 64 bits. |
| Files.DecimalString | utils/file.go:164-165 | A non-empty string of decimal digits. |
| Files.DecimalStringValue | utils/file.go:164-165 | The digits of a printed number have that number as their value. |
| Files.ParseDecimalString | utils/file.go:164-165 | Printing a `uint64` in decimal and parsing it back gives the number. |
| Files.CountCharConcat | utils/file.go:153 | Character counts add over concatenation. |
| Files.CountCharAbsent | utils/file.go:153 | An absent character has count zero. |
| Files.PartCountOfPair | utils/file.go:153-154 | `<word>_<word>` with no other '_' splits into exactly two parts. |
| Files.Shifted | utils/file.go:144-146 | Removal in the backing array keeps its length. |
| Files.RemoveIndex | utils/file.go:144-146 | Returns the slice without element `i`, one shorter, and leaves the backing array with the later elements moved down and the last one in place. |
| Files.FilterStep | utils/file.go:149-156 | One iteration keeps the slice's length. |
| Files.FilterAsWritten | utils/file.go:148-158 | The filter as written keeps the slice's length. |
| Files.FilterValidSegmentDirs | utils/file.go:148-158 | The in-place loop leaves the array as `FilterAsWritten` describes. |
| Files.FilterAsWrittenKeepsFile | utils/file.go:148-158 | A plain file after a segment directory survives the filter. |
| Files.FilterAsWrittenDuplicates | utils/file.go:148-158 | A plain file before a segment directory makes that directory appear twice. |
| Files.ValidSegmentDirs | utils/file.go:148-158 | The entries the filter means to keep: at most as many as given, all directories named `<word>_<word>`. |
| Files.ValidSegmentDirsCount | utils/file.go:148-158 | Each valid entry is kept as often as it occurs, and nothing else is kept. |
| Files.ValidSegmentDirsOfValid | utils/file.go:148-158 | A list of valid entries is kept whole. |
| Files.CompactValidSegmentDirs | utils/file.go:148-158 | The corrected filter compacts exactly the valid entries, in order, to the front and returns their number. |
| Files.ValidSegmentDirsSnoc | utils/file.go:148-158 | One more entry adds itself when valid, and nothing when not. |
| Files.SortFileNameAscend | utils/file.go:159-171 | The result is a permutation of the input; when every name ends in a number after its last '_', it is ascending by that number. |
| Files.InsertionSort | utils/file.go:161 | Permutes the array; when the comparator agrees with a key order, the result is sorted by that key. |
| Files.InsertLast | utils/file.go:161 | One insertion pass: permutes and extends the sorted prefix by one. |
| Files.InsertDown | utils/file.go:161 | A pass keeps the length. |
| Files.InsertDownKeeps | utils/file.go:161 | A pass preserves the multiset and the element set and extends the sorted prefix. |
| Files.InsertInvStep | utils/file.go:161 | One swap keeps the pass's invariant with the gap one lower. |
| Files.InsertInvDone | utils/file.go:161 | When the pass stops, the prefix is sorted. |
| Files.SwapMultiset | utils/file.go:161 | Swapping two elements keeps the multiset. |
| Collections.SegmentDirNameParses | core/collection.go:81 | The directory name `segment_<id>` a new segment gets passes the reload filter (a directory with two '_'-parts), and its number parses back to the id. |
| Collections.FindIndex | core/collection.go:263-269 | The linear search: a position holding the id, or none when no segment has it. |
| Collections.LookupAsWritten | core/collection.go:255-272 | The lookup as written: when the last id is `len + 1` it returns the id itself as a position; otherwise the linear search. |
| Collections.LookupAsWrittenWrongSegment | core/collection.go:259-260 | With ids 0, 2, 4 the fast path is taken and id 2 is looked up at position 2, whose segment has id 4, while the linear search finds position 1. |
| Collections.LookupCorrect | core/collection.go:255-272 | For increasing ids the corrected fast path (last id `len - 1`) agrees with the linear search. |
| Collections.IncreasingGap | core/collection.go:88-91 | Strictly increasing ids grow by at least one per position. |
| Collections.SegmentIds | core/collection.go:265 | One id per segment, in list order. |
| Collections.TablesOf | core/collection.go:280-281 | One document table per segment, in list order. |
| Collections.SealedOf | core/collection.go:125-133 | The sealed segments: at most as many as all, each one sealed and in the list, and every sealed segment included. |
| Collections.AllSealedSnoc | core/collection.go:114-116 | A segment appended after all others are sealed leaves all but the last sealed. |
| Collections.SealedOfAllButLast | core/collection.go:125-133 | When only the last segment may be unsealed, the sealed segments are all but the last, plus the last when it is sealed. |
| Collections.SealedOfAllSealed | core/collection.go:125-133 | When all segments are sealed, all are returned. |
| Collections.SearchableOf | core/collection.go:142-150 | The searchable segments: at most as many as all, each one in the list, and every searchable segment included. |
| Collections.DeletedCount | core/collection.go:278-287 | The delete count is at most the number of segments. |
| Collections.DeletedCountStep | core/collection.go:280-285 | Each segment adds one when it has a live match. |
| Collections.UpdatedCountStep | core/collection.go:295-298 | Each segment adds its own update count. |
| Collections.DeletedAtMostUpdated | core/collection.go:278-299 | The delete count is at most the update count, and both are zero together. |
| Collections.UpdatedCountFlatten | core/collection.go:293-300 | The update count is the count over all tables laid end to end. |
| Collections.CountLiveConcat | core/segment_metadata.go:52-67 | Live-match counts add over concatenated tables. |
| Collections.Labelled | core/collection.go:319-325 | Each record becomes a result with its vqid, its data and the segment's id. |
| Collections.GatheredAll | core/collection.go:310-332 | With `checkDuplicate`, one result per live match over all segments (as many as an update would count), each with the vqid. |
| Collections.GatheredFirst | core/collection.go:310-332 | Without `checkDuplicate`, at most one result, one exactly when some segment has a live match, and it has the vqid. |
| Collections.SegmentsStatistics | core/collection.go:374-384 | One statistics record per segment, in order, each built from the segment and its engine; the totals are the sums over them. |
| Collections.SumsSnoc | core/collection.go:381-383 | One more segment adds its figures to each total. |
| Collections.DocCountIsSlots | core/collection.go:383 | The document total is the number of table slots, tombstones included. |
| Collections.Column | core/collection.go:209-210 | Query `i`'s hit list from each segment's answer, in the order the segments' answers arrived. |
| Collections.Kept | core/collection.go:218-220 | A query keeps at most all its hits: `TopK` when `0 < TopK < len`, all otherwise. |
| Collections.TopKKeepsAll | core/collection.go:218-220 | Without truncation the merge keeps every hit. |
| Collections.TopOfSorted | core/collection.go:213-220 | The prefix of a best-first list holds its best entries. |
| Collections.SortedPrefixIsTopK | core/collection.go:212-220 | The first `Kept` hits of a best-first permutation of the hits are the top hits. |
| Collections.PrefixSubMultiset | core/collection.go:219 | A prefix holds a sub-multiset of the list. |
| Collections.SortByScoreDesc | core/collection.go:213-215 | Sorting permutes the hits and orders them by score, best first. |
| Collections.GatherColumn | core/collection.go:209-211 | The inner loop appends query `i`'s hits from every segment's answer, in the order the segments' answers arrived. |
| Collections.MergeRow | core/collection.go:208-221 | A query's merged row is the top `Kept` of all its hits: sorted best first, a sub-multiset, and no hit left out scores higher than one kept. |
| Collections.MergeRows | core/collection.go:207-221 | One row per query; the first `len(tempResults[0])` rows are merged top-K rows and the rest stay empty. |
| Collections.FlattenHitsValid | core/collection.go:209-211 | Hits gathered from valid lists are valid. |
| Collections.TopKHitsValid | core/collection.go:208-221 | The kept hits come from the segments' lists, so they are valid too. |
| Collections.ResolveHit | core/collection.go:227-249 | A hit gives a result exactly when its document slot is live and its metadata parses; the result carries the hit's score and the tag its id decodes to. |
| Collections.Resolve | core/collection.go:225-251 | A query gives at most one result per kept hit. |
| Collections.ResolveSorted | core/collection.go:225-251 | Dropping deleted documents keeps the order: results stay best first, within the first and last kept scores. |
| Collections.ResolveAllLive | core/collection.go:232-249 | When every hit's document is live and parses, each hit gives exactly its result, in order. |
| Collections.ResolveLast | core/collection.go:227-250 | The last hit's result, if any, comes after the others'. |
| Collections.ResolveNoneLive | core/collection.go:232-236 | When every hit's document is deleted, the query has no results. |
| Collections.ResolvePrefix | core/collection.go:227-250 | Resolving one more hit appends its result, if any. |
| Collections.ResolvedSnoc | core/collection.go:225-251 | One more query's results, resolved in order. |
| Collections.DeleteInAll | core/collection.go:278-287 | Every segment tombstones its first live match; the count is the number of segments that had one. |
| Collections.UpdateInAll | core/collection.go:293-300 | Every segment updates its live matches; the count is the sum of their counts. |
| Collections.Collection.constructor | core/collection.go:58-65 | A new collection: the given name, directory and dimension, no segments, next segment id 0, index type ScaNN. |
| Collections.Collection.AddNewSegment | core/collection.go:80-94 | When creation fails nothing changes; otherwise a fresh, unsealed segment with id `MaxSegmentId` in `segment_<id>` is appended and `MaxSegmentId` grows by one (`uint64`); ids stay increasing. |
| Collections.Collection.GetInsertableSegment | core/collection.go:104-119 | No segments: add one. Last segment without an index: nothing, unchanged. Last segment full: seal it and add a new one. Otherwise: the last segment, unchanged. All-but-last-sealed is preserved. |
| Collections.Collection.SealAndAdd | core/collection.go:114-117 | The last segment is sealed, a new one is added, and all-but-last-sealed is preserved. |
| Collections.Collection.GetSealedSegments | core/collection.go:125-133 | Exactly the sealed segments, in list order. |
| Collections.Collection.GetSearchableSegments | core/collection.go:142-150 | Exactly the searchable segments, in list order. |
| Collections.Collection.GetSegmentBySegmentId | core/collection.go:255-272 | The first segment with that id, or none (corrected fast path). |
| Collections.FindSegment | core/collection.go:263-269 | The linear scan finds the first segment with the id, or none. |
| Collections.FindIndexFirst | core/collection.go:264-266 | A position holding the id with no earlier one is what the linear search finds. |
| Collections.SearchableOfSnoc | core/collection.go:144-148 | One more segment adds itself when searchable. |
| Collections.Collection.DeleteDocument | core/collection.go:278-287 | Every segment's table loses its first live match; the count is `DeletedCount`. |
| Collections.Collection.UpdateDocumentMetadata | core/collection.go:293-300 | Every segment's table is updated; the count is `UpdatedCount`, the live matches over all segments. |
| Collections.Collection.GetDocumentMetadata | core/collection.go:310-332 | The segments' matches labelled with their ids, in segment order, stopping at the first segment with a match unless duplicates are asked for. |
| Collections.Collection.Statistics | core/collection.go:365-386 | Name, one record per segment in order (id, seal flag, dimension, the engine's figures, the slot count), segment count, and totals that are sums over the records. |
| Collections.Collection.RestoreMaxSegmentId | core/collection.go:506-509 | With segments loaded, the next id is one past the last segment's and the dimension is the first segment's; ordered segments give a consistent collection. Nothing changes when no segment was loaded. |
| Collections.Collection.MergeSearchResults | core/collection.go:203-252 | "index current unavailable" exactly when no segment is searchable or no answers came; otherwise one result list per query, each the kept top-K hits with deleted or unparsable documents dropped. Hits are resolved through the corrected segment lookup. |
| Collections.Collection.ResolveRows | core/collection.go:225-251 | One result list per query, each `Resolve` of its kept hits. |
| Collections.Collection.ResolveRow | core/collection.go:227-250 | A query's results are `Resolve` of its kept hits. |
| Collections.Collection.HitResult | core/collection.go:228-249 | One hit's result is `ResolveHit`. |
| Collections.Collection.HitDocument | core/collection.go:228-232 | The slot a hit points to in the segment the corrected lookup finds, and the tag its id decodes to. |
| Core.CheckSearchOpt | core/core.go:56-69 | Every option comes back non-zero: one left at zero takes its default (top-K 30, timeout 60, nprobe 128, reorder 128) and any other keeps the caller's value. |
| Core.CheckSearchOptIdempotent | core/core.go:56-69 | Filling in the defaults a second time changes nothing, and options without a zero field pass through unchanged. |
| Core.NewCollection | core/collection.go:41-69 | A registered name fails with "collection is exist" and a negative dimension with "NewCollection dim can not smaller than 0", leaving the registry as it was. Otherwise a fresh, empty collection with that name, dimension and working directory is registered under its name and nothing else in the registry changes. |
| Core.CreateCollection | core/core.go:71-87 | Succeeds exactly when the name is non-empty, the dimension positive and the name unregistered. The three refusals are checked in that order, with their own messages, and leave the registry unchanged. On success the new empty collection is registered under its name. |
| Core.DropCollection | core/core.go:89-99 | An unknown name gives "collection [name] not exists". A failure while removing the collection's files is returned and the registry keeps the name. Otherwise the name, and only that name, leaves the registry (the deletion is in core/collection.go:441-454). |
| Core.AddDocument | core/core.go:101-114 | Accepted exactly when the collection is registered, the vqid is non-empty and the document has vectors; the refusals come in that order with the source's messages. An accepted document goes to the registered collection. |
| Core.BatchAddDocuments | core/core.go:116-127 | Accepted exactly when the collection is registered and the batch is non-empty, otherwise refused with the source's message. An accepted batch goes to the registered collection. |
| Core.DeleteDocument | core/core.go:129-140 | An unknown collection or an empty vqid is refused with count 0 and nothing changes. Otherwise every segment tombstones its first live record with the vqid, and the count is the number of segments that had one. |
| Core.UpdateDocumentMetadata | core/core.go:142-152 | An unknown collection or an empty vqid is refused with count 0 and nothing changes. Otherwise every live record with the vqid gets the new metadata, and the count is the number of such records. |
| Core.GetDocumentMetadata | core/core.go:154-160 | Fails exactly for an unregistered name. Otherwise it returns the collection's matches for the vqid, segment by segment. |
| Core.TotalsSnoc | core/core.go:26-28 | Adding one collection's statistics adds its index size and document count to the running totals. |
| Core.Statistics | core/core.go:15-31 | One entry per registered collection, each under a distinct registered name. Each entry is exactly what `Collection.Statistics` reports for that collection: one record per segment with the engine's figures and the segment's slot count, and their sums. The collection count is the number of entries, and the totals are the sums of the entries' index sizes and document counts. |
| Core.CollectionsStatistics | core/core.go:23-29 | The loop: entry `i` is what `Collection.Statistics` reports for collection `i`, and the two totals are the sums over the entries. |
| Collections.StatsDocCount | core/collection.go:374-385 | A collection's reported document count is the number of slots of its segments' tables, tombstones included. |
| CollectionList.CollectionList.constructor | core/collectionlist.go:14-16 | The registry starts empty. |
| CollectionList.CollectionList.Add | core/collectionlist.go:18-22 | The collection is registered under its name, replacing any entry there. A known name keeps the count and a new name adds one; every collection stays under its own name. |
| CollectionList.CollectionList.Get | core/collectionlist.go:24-29 | `ok` holds exactly when the name is registered, and then the result is the registered collection; otherwise it is nil. |
| CollectionList.CollectionList.Delete | core/collectionlist.go:31-35 | Only the name is removed; an unknown name changes nothing, and a known one lowers the count by one. |
| CollectionList.CollectionList.Len | core/collectionlist.go:37-42 | The number of distinct registered names. |
| CollectionList.CollectionList.List | core/collectionlist.go:44-52 | Every registered collection exactly once, with as many entries as the registry has names, each one registered under its own name, in no fixed order. |
| Sdk.Get | python_sdk/vqlite_api.py:17-20 | `obj.get(k)` is `None` for a missing key. |
| Sdk.DocumentToDict | python_sdk/vqlite_api.py:23-29 | The dictionary has exactly the keys vqid, metadata, vectors and vectors_tag, in that order, with none repeated. |
| Sdk.DocumentRoundTrip | python_sdk/vqlite_api.py:15-29 | `Document.from_dict(d.to_dict())` gives back `d`. |
| Sdk.DocumentDictRoundTrip | python_sdk/vqlite_api.py:15-29 | `from_dict` followed by `to_dict` keeps the value of each document key, and a missing key comes back as `None`. |
| Sdk.UpdateDocumentToDict | python_sdk/vqlite_api.py:43-47 | The dictionary has exactly the keys vqid and metadata, in that order. |
| Sdk.UpdateDocumentRoundTrip | python_sdk/vqlite_api.py:37-47 | `UpdateDocument.from_dict(u.to_dict())` gives back `u`. |
| Sdk.NewClient | python_sdk/vqlite_api.py:51-54 | A URL ending in "/" loses that one character; any other URL is kept as given. |
| Sdk.NewClientStripsOne | python_sdk/vqlite_api.py:52-53 | Only one trailing slash goes: "u/" becomes "u" and "u//" becomes "u/". |
| Sdk.PutLookup | python_sdk/vqlite_api.py:60-63 | Python dictionary assignment builds no repeated key, maps the key to the new value and leaves every other key's value alone. |
| Sdk.UpdateLookup | python_sdk/vqlite_api.py:60-63 | In `{**d, **e}` each key of `e` has its value in `e`, every other key its value in `d`, the keys are those of `d` and `e`, and none repeats. |
| Sdk.MergeHeadersKeeps | python_sdk/vqlite_api.py:58-63 | Every caller header is sent with the caller's value. The default User-Agent is sent unless the caller gives one, and no other header is added. |
| Sdk.Request | python_sdk/vqlite_api.py:56-67 | The request is sent with the merged headers, at most three times. The first answer is returned whatever its status; earlier attempts all raised, and an error comes back only after three attempts that all raised. |
| Sdk.SearchOptions | python_sdk/vqlite_api.py:117-122 | The `opt` object has exactly the keys topk, nprobe, reorder and timeout. |
| Sdk.DocumentDicts | python_sdk/vqlite_api.py:135 | One dictionary per document, in input order. |
| Sdk.BatchReadsBack | python_sdk/vqlite_api.py:134-142 | The batch payload's `documents` list has one entry per document, in input order, and each entry reads back as its document. |
| Sdk.SearchOptionsDecode | python_sdk/vqlite_api.py:117-122 | The options object decodes into the server's query options as the four numbers it was built from. |
| Sdk.SearchOptionsReachServer | python_sdk/vqlite_api.py:114-126 | The options in a search request's body decode on the server side to exactly the arguments given. |
| Sdk.SearchDefaultsAgree | python_sdk/vqlite_api.py:114 | Once the server fills in its defaults (core/core.go:56-69), every option the caller set to zero has the client's default, and every other option keeps the caller's value. |
| Sdk.SearchDefaultsAreFixed | python_sdk/vqlite_api.py:114 | The client's default options have no zero field, so the server's defaulting leaves them unchanged. |
| Sdk.CallsUnderBase | python_sdk/vqlite_api.py:69-156 | Every call's URL starts with the client's base URL, and every call on a collection starts with that collection's URL. |
| Sdk.CollectionPayloadsReadBack | python_sdk/vqlite_api.py:96-112 | The bodies of create_collection and train_collection read back as the name and dimension, and the thread count and ignore_check flag, they were built from. |
| Sdk.DocumentPayloadsReadBack | python_sdk/vqlite_api.py:128-156 | The bodies of add_document, update_document and delete_document read back as the document, the update and the vqid given. |

## Left out

- Concurrency: the locks of `CollectionList`, `Collection` and `Segment`, the errgroup fan-out and timeout `select` of `Collection.Search` (core/collection.go:161-201), the parallel `LoadSegments` and the background load started by `SearchCollection` are not modelled. The sequential merge that follows the fan-out is modelled (`Collections.Collection.MergeSearchResults`), with the per-segment results given as input.
- The C ScaNN engine behind the wrapper is foreign code. Its return codes, statistics records and the result slots it fills are parameters (`engineCode`, `initOk`, `RawStats`, `slots`). What it was given is ghost state.
- File system, gob and processes are not modelled. This covers `Exists`, `IsDir`, `CreateDirPath`, `DeleteDir`, `IsEmpty`, `DirSize` and `CreatNestedFile`; `Segment.Train` re-running the executable, and `TrainSegmentByCmd`; the `Dump*` and `Load*` methods apart from the flag logic of `LoadIndex` and the segment-id restore of `Collection.Load`; the directory reading of `Collection.Load`; and `Collection.Train` with its memory and CPU checks.
- `Core.DropCollection`: the removal of the segments and the directory is one parameter, `dropError`, standing for its outcome.
- `Join` and `Split` wrap Go's `path` package. The collection and segment directories are joined with a plain "/" and not cleaned.
- `json.Marshal` and `json.Unmarshal` of metadata are not modelled. Metadata is opaque bytes, and `parses` stands for `Unmarshal` succeeding.
- `NormalizeVec` is floating point and is not modelled. Vector elements are `float32` bit patterns that are never computed on.
- `Segment.Search` is a one-line pass-through to the engine wrapper's `Search`. That is modelled as `Engine.ScaNNIndex.Search`.
- Collections.Collection.MergeSearchResults resolves hits through the corrected `GetSegmentBySegmentId` (see Findings), not the as-written one that core/collection.go:229 calls. With gapped segment ids the source reads the wrong segment's table or indexes out of range; the model does not capture that.
- Collections.Collection.HitDocument: finds the hit's segment with the corrected lookup, for the same reason.
- `Collection.AddDocument` and `Collection.BatchAddDocuments` are not composed into one method. They are the two modelled steps `Collections.Collection.GetInsertableSegment` and `Segments.Segment.AddDocument` / `BatchAddDocuments`.
- `Core.AddDocument`, `Core.BatchAddDocuments`: model the checks before the insert and return the collection the document goes to, instead of inserting into it.
- `Core.CheckSearchOpt` returns the filled-in options, where Go updates the caller's struct in place.
- `SearchCollection`, `DumpCollection*`, `TrainCollection`, `CheckCollection`, `LoadCollection` and `LoadAllCollections` in core/core.go are file and engine work and are not modelled. So are the handlers, the router, the command-line entry points and the configuration.
- `SegmentVectorMaxSize` is a parameter (`maxSize`) of the rollover. It is not the configured constant.
- Go panics are preconditions:
  - the nil dereference after a segment without an index fails its `Statistics` (core/collection.go:375-379; `Core.Reportable`);
  - `&flattenedVectors[0]` on an empty buffer in `AddWithIDs` when the length check passes with no vids or a zero dimension (engine/go-scann/scann_index.go:197; `Engine.AddSafe`);
  - the division by `Dim` and `&searchResult[0]` of `ScaNNIndex.Search`: `dim > 0` and `k > 0` (engine/go-scann/scann_index.go:146-157);
  - a nil index in `Segment.AddDocument` and `BatchAddDocuments`: `index != null`;
  - `document.Vectors[i]` out of range for a tag beyond the vectors whose encoding succeeds (core/segment.go:157-163; `Segments.TagsFit`);
  - a hit with a negative slot or from an unknown segment, whose nil segment is dereferenced (core/collection.go:228-232; `Collections.HitValid`);
  - the shapes of the per-segment results the merge indexes (core/collection.go:207-210; the requires of `Collections.Collection.MergeSearchResults`);
  - `c.Segments[len(c.Segments)-1]` on an empty segment list in `GetSegmentBySegmentId` (core/collection.go:258; `segments != []` on `Collections.Collection.GetSegmentBySegmentId`);
  - a negative index in `GetByid` (`id >= 0`) and an index out of range in `RemoveIndex`.
- `Collections.Collection.Statistics`: the sums are unbounded integers. Go's `int64` and `uint64` wrap on overflow is not modelled.
- `Core.Statistics`: the totals are unbounded integers. Go's `uint64` and `int64` wrap on overflow is not modelled.
- Go's map iteration order is unspecified. `CollectionList.List` picks each next key by choice, and its contract holds for every order.
- `sort.Slice` is an unspecified, unstable algorithm. An insertion sort stands for it, and the contracts state only order and permutation.
- `Engine.ScaNNIndex.Train`: an engine failure gives "train failed" without the formatted engine code.
- Python side: `json.dumps`/`json.loads`, `requests` and `tenacity` are not modelled. What each attempt of the transport does is a parameter (`outcomes`).
- Header and dictionary keys are compared exactly, as Python does. `requests`' case-insensitive header handling is not modelled.
- `Sdk.DecodeQueryOpt`: the server's decoding of the search options matches field names exactly, whereas Go's `encoding/json` also accepts other letter cases.
- `python_sdk/vqlite_test.py` is not part of this model.

## Findings

| source | as written | input that shows it | evidently intended | confidence | as-written member | corrected member |
|---|---|---|---|---|---|---|
| utils/file.go:148-158 | `FilterValidSegmentDirs` calls `RemoveIndex` but drops the result, so the caller's slice keeps its length and the entries are only shifted in place | [config (a file), segment_0 (a directory)] becomes [segment_0, segment_0]; [segment_0, config] keeps the file | keep exactly the directories named `<word>_<word>`, in order | not executed | Files.FilterAsWritten, Files.FilterAsWrittenDuplicates, Files.FilterAsWrittenKeepsFile | Files.CompactValidSegmentDirs |
| core/collection.go:259-260 | the fast path of `GetSegmentBySegmentId` is taken when the last segment id is `len(Segments) + 1`, and then indexes `Segments` by the id | segment ids [0, 2, 4]: looking up id 2 returns the segment at position 2, which has id 4 | index by id only when the ids are exactly 0 … len-1, that is the last id is `len - 1`; otherwise search | not executed | Collections.LookupAsWritten, Collections.LookupAsWrittenWrongSegment | Collections.Lookup, Collections.LookupCorrect, Collections.Collection.GetSegmentBySegmentId |
