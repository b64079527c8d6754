# RisingWave core, modelled in Dafny

This project models a selection of RisingWave's storage, streaming, frontend and connector logic,
and proves properties of it:

- **SSTable footer** (`SstableFormat`, `DeleteRange`): the encoding of block metas, monotonic
  delete events and the whole `SstableMeta` footer, with its checksum, version and magic
  number. Also modelled: the order of delete-range tombstones and the sweep that turns compaction
  delete events into monotonic delete events.
- **Managed LRU cache** (`ManagedLru`): an epoch-aware LRU with heap-size accounting, eviction
  by epoch and the mutable guard that re-measures an entry.
- **KV log store buffer** (`LogStoreBuffer`): the bounded queue of chunks, barriers and flushed
  ranges shared by the log-store writer and reader, with truncation.
- **State table and storage table** (`StateTable`, `StorageTable`): singleton detection,
  vnode-bitmap updates, watermarks and the delete ranges sealed with an epoch. Also the
  memcomparable prefix ranges, vnode computation and the collection of a row stream into a chunk.
- **Stream chunks** (`StreamChunks`): the `Op` codes, chunk construction, compaction,
  concatenation, pretty printing and parsing of op tokens, and row sorting.
- **Expression rewriting** (`ExprUtils`): conjunction and disjunction splitting and merging,
  boolean constant folding, NOT push-down, factorisation of common conjuncts, and watermark
  derivation.
- **Protobuf schema mapping** (`ProtobufParser`): the kind-to-type table, circular-reference
  detection on a trace, post-order column numbering, value conversion and the Confluent header.
- **MySQL CDC validation** (`MySqlValidator`): the binlog settings, the privilege reduction,
  and the column existence and type compatibility rules.

`Bytes` holds the shared little- and big-endian encodings and the byte-string order. `Sorting`
holds an insertion sort with its permutation and uniqueness lemmas. Neither needs a row below.

Hashes (`xxhash64`, `VirtualNode::compute_row`), the row encoding and other code this model
does not include are function parameters.

## Model

| member | source | states |
|---|---|---|
| SstableFormat.GetU32LEOfLE | src/storage/src/hummock/sstable/mod.rs:341-344 | `get_u32_le` reads back what `put_u32_le` wrote and leaves the rest of the buffer |
| SstableFormat.GetU64LEOfLE | src/storage/src/hummock/sstable/mod.rs:177-188 | `get_u64_le` reads back what `put_u64_le` wrote and leaves the rest of the buffer |
| SstableFormat.GetU32BEOfBE | src/storage/src/hummock/sstable/mod.rs:171-181 | the big-endian u32 of a length-prefixed user key reads back |
| SstableFormat.LengthPrefixed | src/storage/src/hummock/sstable/mod.rs:338 | a length-prefixed slice is 4 bytes longer than the slice |
| SstableFormat.LengthPrefixedRoundTrip | src/storage/src/hummock/sstable/mod.rs:338-345 | `get_length_prefixed_slice` returns the slice `put_length_prefixed_slice` wrote, and the rest of the buffer |
| SstableFormat.BlockMetaRoundTrip | src/storage/src/hummock/sstable/mod.rs:334-357 | `BlockMeta::decode` (`DecodeBlockMeta`) inverts `encode` for any key that fits a u32 length; the encoding is `encoded_size` bytes long |
| SstableFormat.EventRoundTrip | src/storage/src/hummock/sstable/mod.rs:170-199 | `MonotonicDeleteEvent::decode` (`DecodeEvent`) inverts `encode`; the encoding is `encoded_size` bytes long |
| SstableFormat.BadFlagRejected | src/storage/src/hummock/sstable/mod.rs:182-187 | an exclusion flag other than 0 or 1 makes decoding fail |
| SstableFormat.BlockMetasBytesSnoc | src/storage/src/hummock/sstable/mod.rs:415-417 | encoding one more block meta appends its encoding |
| SstableFormat.EventsBytesSnoc | src/storage/src/hummock/sstable/mod.rs:426-428 | encoding one more event appends its encoding |
| SstableFormat.BlockMetasRoundTrip | src/storage/src/hummock/sstable/mod.rs:456-460 | decoding `N` block metas returns the `N` that were encoded, and the rest of the buffer |
| SstableFormat.EventsRoundTrip | src/storage/src/hummock/sstable/mod.rs:466-471 | decoding `K` events returns the `K` that were encoded, and the rest of the buffer |
| SstableFormat.EncodeToBytes | src/storage/src/hummock/sstable/mod.rs:406-434 | the footer is the payload followed by a 24-byte trailer |
| SstableFormat.DecodeMeta | src/storage/src/hummock/sstable/mod.rs:436-486 | a wrong magic is reported with both values, and a wrong version after a right magic as `InvalidFormatVersion` with the version found. A result comes back only when the magic, the version and the checksum over the payload all match, and it carries `VERSION` |
| SstableFormat.PayloadRoundTrip | src/storage/src/hummock/sstable/mod.rs:412-486 | the field-by-field parse of the payload returns the footer that was encoded |
| SstableFormat.PayloadLeftNested | src/storage/src/hummock/sstable/mod.rs:412-429 | the payload is the fields in the order `encode_to` writes them |
| SstableFormat.TrailerFacts | src/storage/src/hummock/sstable/mod.rs:429-453 | the trailer reads back, from the end, as magic, version and checksum, and what lies before it is the payload |
| SstableFormat.DecodeWithTrailer | src/storage/src/hummock/sstable/mod.rs:436-454 | after a well-formed trailer, decoding succeeds exactly when the payload parses |
| SstableFormat.DecodeEncode | src/storage/src/hummock/sstable/mod.rs:406-486 | `decode(encode_to_bytes(m)) == m` for every encodable footer of the current version |
| SstableFormat.DecodeEncodeAnyVersion | src/storage/src/hummock/sstable/mod.rs:431-432 | a footer of any other version decodes as `VERSION`, because the version written is the constant and not the field |
| SstableFormat.CorruptPayloadRejected | src/storage/src/hummock/sstable/mod.rs:451-454 | a payload whose hash differs from the stored checksum is rejected with both checksums before it is parsed |
| SstableFormat.BlockMetasSize | src/storage/src/hummock/sstable/mod.rs:355-357 | the block metas take the sum of their `encoded_size`s |
| SstableFormat.EventsSize | src/storage/src/hummock/sstable/mod.rs:196-199 | the events take the sum of their `encoded_size`s |
| SstableFormat.EncodedSizeExact | src/storage/src/hummock/sstable/mod.rs:488-511 | `encoded_size` is exactly the length of the encoding |
| SstableFormat.EncodeBlockMetas | src/storage/src/hummock/sstable/mod.rs:415-417 | the block-meta loop appends the encodings of all block metas to the buffer |
| SstableFormat.EncodeEvents | src/storage/src/hummock/sstable/mod.rs:423-428 | the event loop appends the encodings of all events to the buffer |
| SstableFormat.EncodeTo | src/storage/src/hummock/sstable/mod.rs:412-434 | `encode_to` appends the footer to what the buffer held and writes `encoded_size` bytes |
| SstableFormat.EncodePayload | src/storage/src/hummock/sstable/mod.rs:414-429 | the field writes of `encode_to`, in order, produce exactly the payload the decoder reads back |
| SstableFormat.DecodeLoop | src/storage/src/hummock/sstable/mod.rs:455-471 | each count-bounded decoding loop (block metas, then delete events) yields exactly the entries the recursive decoder reads, and fails exactly when it does |
| SstableFormat.DecodeFields | src/storage/src/hummock/sstable/mod.rs:456-485 | the forward parse after the trailer checks computes the payload decoder |
| SstableFormat.Decode | src/storage/src/hummock/sstable/mod.rs:436-486 | `decode` with its backward cursor computes `DecodeMeta` |
| SstableFormat.BlockCount | src/storage/src/hummock/sstable/mod.rs:292-294 | the block count is the number of block metas |
| SstableFormat.CalculateBlockInfo | src/storage/src/hummock/sstable/mod.rs:263-272 | block `i` lies at its meta's offset with its length, and unpacks to its uncompressed size |
| SstableFormat.BlockInfoAfterReopen | src/storage/src/hummock/sstable/mod.rs:263-272 | a table reopened from its encoded footer finds every block where the writer put it |
| DeleteRange.CmpTombstone | src/storage/src/hummock/sstable/mod.rs:90-97 | of two tombstones with equal bounds, the one with the larger sequence sorts first |
| DeleteRange.CmpTombstoneFacts | src/storage/src/hummock/sstable/mod.rs:90-97 | the tombstone comparison is antisymmetric, and `Equal` only for equal tombstones |
| DeleteRange.CmpTombstoneTrans | src/storage/src/hummock/sstable/mod.rs:90-97 | the tombstone comparison is transitive |
| DeleteRange.TombstoneOrderIsTotal | src/storage/src/hummock/sstable/mod.rs:84-97 | `Ord for DeleteRangeTombstone` is a total order, as `sort` requires |
| DeleteRange.ApplyEvent | src/storage/src/hummock/sstable/mod.rs:207 | after an event, every epoch it enters is active and no epoch is active that was not active before or entered |
| DeleteRange.FirstOrMax | src/storage/src/hummock/sstable/mod.rs:210 | `epochs.first()` is the least active epoch, or `HummockEpoch::MAX` when none is active |
| DeleteRange.RawMonotonicEvents | src/storage/src/hummock/sstable/mod.rs:204-212 | the sweep yields one monotonic event per compaction event |
| DeleteRange.RawMonotonicEventAt | src/storage/src/hummock/sstable/mod.rs:206-212 | event `i` carries compaction event `i`'s key and the least epoch active after the first `i + 1` events |
| DeleteRange.Dedup | src/storage/src/hummock/sstable/mod.rs:213-216 | `dedup_by` keeps the first element and the run of the last one, never lengthens the sequence, and invents nothing |
| DeleteRange.DedupSubsequence | src/storage/src/hummock/sstable/mod.rs:213-216 | what `dedup_by` keeps sits at strictly increasing positions of the input, so it is a subsequence in the original order |
| DeleteRange.DedupStepInPlace | src/storage/src/hummock/sstable/mod.rs:213-216 | one comparison of the in-place `dedup_by`: the slot joins the run of the last kept event or is copied right after it, so the kept prefix is `Dedup` of one more event |
| DeleteRange.DedupByInPlace | src/storage/src/hummock/sstable/mod.rs:213-216 | the in-place `dedup_by` leaves the deduplicated events at the front of the vector |
| DeleteRange.DedupNoAdjacentSame | src/storage/src/hummock/sstable/mod.rs:213-216 | after `dedup_by`, no two neighbours have the same table id and epoch |
| DeleteRange.DedupKeepsNoAdjacentSame | src/storage/src/hummock/sstable/mod.rs:213-216 | a sequence without such neighbours is left as it is |
| DeleteRange.DedupIdempotent | src/storage/src/hummock/sstable/mod.rs:213-216 | deduplicating twice is deduplicating once |
| DeleteRange.DedupKeepsKeysIncreasing | src/storage/src/hummock/sstable/mod.rs:213-216 | dedup preserves increasing event keys |
| DeleteRange.CreateMonotonicEventsFromCompactionDeleteEvents | src/storage/src/hummock/sstable/mod.rs:201-218 | the sweep with its `BTreeSet` of epochs, followed by dedup, computes the monotonic events |
| DeleteRange.MonotonicEventsShape | src/storage/src/hummock/sstable/mod.rs:201-218 | the monotonic events (`MonotonicEvents`, the sweep followed by dedup) are no more than the input, start with the first raw event and have no neighbours in the same run |
| DeleteRange.DocumentedExample | src/storage/src/hummock/sstable/mod.rs:139-152 | the documented ranges `[0,5)` at e1, `[5,7)` at e2 and `[7,11)` at e3 give `<0,e1> <5,e2> <7,e3> <11,MAX>` |
| DeleteRange.SortTombstones | src/storage/src/hummock/sstable/mod.rs:224 | `sort` returns the tombstones sorted, as a permutation of the input |
| DeleteRange.SortTombstonesOrderIndependent | src/storage/src/hummock/sstable/mod.rs:224 | any two arrival orders of the same tombstones sort to the same sequence |
| DeleteRange.CreateMonotonicEvents | src/storage/src/hummock/sstable/mod.rs:221-227 | `create_monotonic_events` sorts, builds the events and runs the sweep |
| ManagedLru.SatAdd | src/stream/src/cache/managed_lru.rs:238 | `saturating_add` never decreases the size; the result is the sum, or `usize::MAX` |
| ManagedLru.SatSub | src/stream/src/cache/managed_lru.rs:243 | `saturating_sub` never increases the size; the result is the difference, or 0 |
| ManagedLru.SatSubTwice | src/stream/src/cache/managed_lru.rs:242-245 | two saturating decrements equal one by the sum |
| ManagedLru.Reported | src/stream/src/cache/managed_lru.rs:247-257 | the reported size is the heap size, or the previous report when that is within 4 MiB; a report is always within 4 MiB of the heap size |
| ManagedLru.Find | src/stream/src/cache/managed_lru.rs:152-160 | the lookup finds a value exactly when some entry has the key, and the value is that entry's |
| ManagedLru.Remove | src/stream/src/cache/managed_lru.rs:155 | removing a key drops exactly that key's entries and keeps keys distinct |
| ManagedLru.EvictCount | src/stream/src/cache/managed_lru.rs:131-134 | `pop_lru_by_epoch` pops the least recently used entries while their epoch is below the bound, and stops at the first that is not |
| ManagedLru.EvictCountMonotonic | src/stream/src/cache/managed_lru.rs:119-134 | a higher eviction bound evicts at least as many entries |
| ManagedLru.EvictSortedKeepsAtOrAbove | src/stream/src/cache/managed_lru.rs:119-134 | when epochs grow along the LRU order, exactly the entries below the bound are evicted |
| ManagedLru.DecAll | src/stream/src/cache/managed_lru.rs:131-134 | repeated `kv_heap_size_dec` never increases the size, and leaves the report within 4 MiB once anything was evicted |
| ManagedLru.DecAllSize | src/stream/src/cache/managed_lru.rs:131-134 | the evictions lower the heap size by the sum of the evicted sizes, saturating at 0 |
| ManagedLru.DecAllSnoc | src/stream/src/cache/managed_lru.rs:132-133 | one more eviction is one more saturating decrement and report |
| ManagedLru.Sizes | src/stream/src/cache/managed_lru.rs:133 | each evicted entry weighs its key's and its value's estimated size |
| ManagedLru.SetValue | src/stream/src/cache/managed_lru.rs:365-369 | writing through a guard replaces the value of the key's entry and nothing else |
| ManagedLru.ManagedLruCache.constructor | src/stream/src/cache/managed_lru.rs:83-117 | `new_inner` starts empty, with heap size, last report and gauge at 0 |
| ManagedLru.ManagedLruCache.ReportMemoryUsage | src/stream/src/cache/managed_lru.rs:247-257 | a report happens exactly when the heap size moved more than 4 MiB from the last report; the gauge and the last report then take the heap size |
| ManagedLru.ManagedLruCache.KvHeapSizeInc | src/stream/src/cache/managed_lru.rs:237-240 | the heap size grows by `size`, saturating, and is reported if it moved enough |
| ManagedLru.ManagedLruCache.KvHeapSizeDec | src/stream/src/cache/managed_lru.rs:242-245 | the heap size shrinks by `size`, saturating, and is reported if it moved enough |
| ManagedLru.ManagedLruCache.Put | src/stream/src/cache/managed_lru.rs:152-160 | `put` returns the old value, makes the entry the most recent at the current epoch, and charges the new size then refunds the old value's |
| ManagedLru.ManagedLruCache.Push | src/stream/src/cache/managed_lru.rs:206-215 | `push` returns the old pair, makes the entry the most recent, and charges the new size then refunds the old pair's |
| ManagedLru.ManagedLruCache.PopLru | src/stream/src/cache/managed_lru.rs:132 | popping takes the least recently used entry |
| ManagedLru.ManagedLruCache.EvictByEpoch | src/stream/src/cache/managed_lru.rs:131-136 | every entry older than the epoch is evicted from the LRU end, and each eviction is refunded in turn; the gauge holds the last report |
| ManagedLru.ManagedLruCache.EvictStep | src/stream/src/cache/managed_lru.rs:132-133 | one more evicted entry is one more refund |
| ManagedLru.ManagedLruCache.Evict | src/stream/src/cache/managed_lru.rs:119-122 | `evict` drops the entries below the watermark and refunds their total size; the heap size and the last report follow `DecAll` over the evicted entries' sizes (a report on every step at which the heap size is no longer more than 1 MiB above it), and the gauge holds the last report |
| ManagedLru.ManagedLruCache.EvictExceptCurEpoch | src/stream/src/cache/managed_lru.rs:124-128 | the bound is the smaller of the watermark and the current epoch, so entries touched in this epoch stay; the heap size and the last report follow `DecAll` over the sizes of the entries evicted below that bound, and the gauge holds the last report |
| ManagedLru.ManagedLruCache.UpdateEpoch | src/stream/src/cache/managed_lru.rs:138-140 | only the current epoch changes |
| ManagedLru.ManagedLruCache.Clear | src/stream/src/cache/managed_lru.rs:233-235 | `clear` empties the LRU but leaves the heap size and the report untouched |
| ManagedLru.MutGuard.constructor | src/stream/src/cache/managed_lru.rs:317-332 | the guard remembers the value's size when it was taken |
| ManagedLru.MutGuard.Set | src/stream/src/cache/managed_lru.rs:365-369 | a write through the guard changes the entry's value and nothing else yet |
| ManagedLru.MutGuard.Drop | src/stream/src/cache/managed_lru.rs:347-355 | on drop the heap size loses the original size and gains the current one, both saturating, and is reported if it moved enough |
| LogStoreBuffer.ChunkCount | src/stream/src/common/log_store/kv_log_store/buffer.rs:50-60 | at most every buffered item is a stream chunk |
| LogStoreBuffer.ChunkCountAppend | src/stream/src/common/log_store/kv_log_store/buffer.rs:324-338 | the chunk count of two queues together is the sum of their counts, so truncating the consumed queue subtracts exactly its chunks |
| LogStoreBuffer.BitOr | src/stream/src/common/log_store/kv_log_store/buffer.rs:149 | `vnode_bitmap \|= new_vnode_bitmap`: a vnode is set when it is set in either bitmap |
| LogStoreBuffer.Flush | src/stream/src/common/log_store/kv_log_store/buffer.rs:268-288 | the flush pass keeps the queue's length |
| LogStoreBuffer.FlushFacts | src/stream/src/common/log_store/kv_log_store/buffer.rs:268-288 | the flush function is only called on unflushed chunks of the queue. Each item stays as it was or is an unflushed chunk marked flushed, and the chunk count is unchanged. A pass that runs to the end leaves every chunk flushed |
| LogStoreBuffer.Buffer.constructor | src/stream/src/common/log_store/kv_log_store/buffer.rs:342-368 | `new_log_store_buffer` starts with empty queues, zero counts, no truncation and the given bound |
| LogStoreBuffer.Buffer.TryAddItem | src/stream/src/common/log_store/kv_log_store/buffer.rs:77-108 | a stream chunk is rejected, and handed back, exactly when the buffer already holds the maximum. Otherwise the item goes to the front of the unconsumed queue, and a chunk raises the count |
| LogStoreBuffer.Buffer.AddItem | src/stream/src/common/log_store/kv_log_store/buffer.rs:67-75 | any item other than a stream chunk is always accepted, at the front |
| LogStoreBuffer.Buffer.PopItem | src/stream/src/common/log_store/kv_log_store/buffer.rs:110-120 | the oldest unconsumed item moves to the front of the consumed queue, and a chunk raises the consumed count. Nothing is lost or reordered: unconsumed followed by consumed is unchanged |
| LogStoreBuffer.Buffer.AddFlushed | src/stream/src/common/log_store/kv_log_store/buffer.rs:122-160 | a flushed range following a flushed item at the front is merged into it (end id replaced, bitmaps OR-ed); otherwise it is pushed as a new item |
| LogStoreBuffer.Buffer.PopTruncation | src/stream/src/common/log_store/kv_log_store/buffer.rs:258-260 | `take` hands over the pending truncation offset and leaves none |
| LogStoreBuffer.Buffer.Truncate | src/stream/src/common/log_store/kv_log_store/buffer.rs:324-339 | after reading a barrier, truncation records its epoch, empties the consumed queue and releases exactly its chunks from the count; with nothing consumed it changes nothing |
| LogStoreBuffer.Buffer.FlushAllUnflushed | src/stream/src/common/log_store/kv_log_store/buffer.rs:262-290 | the unconsumed queue is flushed from the newest item, then the consumed queue unless the pass stopped or failed; an error ends the walk and is returned |
| LogStoreBuffer.GlueStep | src/stream/src/common/log_store/kv_log_store/buffer.rs:273-287 | one step of the walk: an unflushed chunk is flushed and marked, other items are passed over |
| LogStoreBuffer.FlushQueue | src/stream/src/common/log_store/kv_log_store/buffer.rs:268-288 | the loop over one queue computes the flush pass |
| StateTable.NormalizeValueIndices | src/stream/src/common/table/state_table.rs:242-256 | the value indices are dropped (`None`) exactly when they are all columns in order |
| StateTable.NormalizeKeepsValueIndices | src/stream/src/common/table/state_table.rs:242-256 | normalising never changes which columns are stored as the value: `None` reads back as all columns |
| StateTable.OwnedBelow | src/stream/src/common/table/state_table.rs:985 | `iter_vnodes` yields exactly the set vnodes, strictly increasing |
| StateTable.AscendingRangeOrdered | src/stream/src/common/table/state_table.rs:980-994 | for an ascending first key, each vnode's range (`VnodeRange`) starts at a prefix of its end, so no range is inverted |
| StateTable.DescendingRangeNonEmpty | src/stream/src/common/table/state_table.rs:995-1010 | for a descending first key, each vnode's range (`VnodeRange`) starts strictly before its end |
| StateTable.AscendingRangeCovers | src/stream/src/common/table/state_table.rs:980-994 | for an ascending first key, a key of a vnode is deleted exactly when its primary-key part is at least the watermark's first byte and below the serialized watermark, so null keys survive |
| StateTable.ShouldClean | src/stream/src/common/table/state_table.rs:946-966 | no watermark never cleans; without a synced cache a watermark always cleans; with one, only when the watermark reaches the lowest cached key, and never for an empty cache |
| StateTable.DeleteRanges | src/stream/src/common/table/state_table.rs:975-1011 | the `assert_ne!` panic happens exactly for a descending key whose serialized watermark starts with 0xff; ranges exist only when cleaning with a non-empty suffix; ascending gives one range per owned vnode; descending gives one per owned vnode unless `next_key` of the rest is empty |
| StateTable.BuildDeleteRanges | src/stream/src/common/table/state_table.rs:984-994 | the loop over owned vnodes builds exactly the ranges of `DeleteRanges`, in vnode order |
| StateTable.CacheMayStale | src/stream/src/common/table/state_table.rs:629 | the cache may be stale exactly when the new bitmap owns a vnode the old one did not |
| StateTable.StateTable.constructor | src/stream/src/common/table/state_table.rs:402-460 | the table gets the given vnodes or the fallback bitmap when none are given, no watermark, a clean buffer and an unsynced cache |
| StateTable.StateTable.UpdateVnodeBitmap | src/stream/src/common/table/state_table.rs:616-642 | only on a clean table, and a singleton keeps its bitmap; the previous bitmap is returned and the new one installed; when the cache may be stale the pending watermark is forgotten and the cache cleared; nothing else changes |
| StateTable.StateTable.ClearCache | src/stream/src/common/table/state_table.rs:1022-1024 | clearing the watermark cache empties it and marks it unsynced, nothing else changes |
| StateTable.StateTable.UpdateWatermark | src/stream/src/common/table/state_table.rs:847-852 | the watermark is kept for the next seal exactly when the buffer strategy applies or cleaning is eager; nothing else changes |
| StateTable.StateTable.SealCurrentEpoch | src/stream/src/common/table/state_table.rs:932-1029 | the pending watermark is taken; the seal panics exactly when a watermark is pending and the primary key is empty or the descending 0xff case hits; otherwise the delete ranges handed to `flush` are exactly `DeleteRanges`, the watermark becomes the previously cleaned one, and the cache is cleared exactly when ranges were flushed; a failed flush (`flushOk` false) is returned as `FlushFailed` with the epoch and the dirty flag unchanged, and a successful one advances the epoch |
| StateTable.StateTable.Commit | src/stream/src/common/table/state_table.rs:854-866 | commit from the table's own epoch seals into the new epoch with the same outcome as `SealCurrentEpoch`: the same panic condition, the same delete ranges and cleaned watermark, and on a failed flush the epoch stays `prev` |
| StateTable.SingletonUsesDefaultVnode | src/stream/src/common/table/state_table.rs:466-476 | a singleton table (`IsSingleton`: no vnode column and no distribution key) computes the default vnode for every row |
| StateTable.EndBoundOfPrefix | src/stream/src/common/table/state_table.rs:1270 | the upper bound of an included prefix is unbounded exactly when the prefix is all 0xff, else excludes `next_key` of the prefix |
| StateTable.StartBoundOfExcludedPrefix | src/stream/src/common/table/state_table.rs:1279 | the lower bound of an excluded prefix includes `next_key` of the prefix; the all-0xff prefix is the panic case |
| StateTable.ToMemcomparable | src/stream/src/common/table/state_table.rs:1256-1285 | `prefix_range_to_memcomparable` (`PrefixRangeToMemcomparable`) converts each end: unbounded stays unbounded; an included lower and an excluded upper bound keep the serialized prefix; an included upper and an excluded lower bound move past every key with the prefix |
| StateTable.IncludedUpperKeepsPrefix | src/stream/src/common/table/state_table.rs:1266-1272 | an included upper prefix bound admits every key that extends the prefix |
| StateTable.ExcludedLowerDropsPrefix | src/stream/src/common/table/state_table.rs:1275-1281 | an excluded lower prefix bound rejects every key that extends the prefix and admits the first key after them |
| StorageTable.FallbackVnodes | src/storage/src/table/mod.rs:63-72 | a bitmap over all vnodes in which only the default vnode is set |
| StorageTable.Fallback | src/storage/src/table/mod.rs:50-61 | the singleton distribution: no distribution key, and only the default vnode set |
| StorageTable.AllVnodes | src/storage/src/table/mod.rs:75-83 | the distribution keeps its key and owns every vnode |
| StorageTable.ComputeVnode | src/storage/src/table/mod.rs:162-174 | without a distribution key the default vnode; otherwise the row's vnode, which must be owned, else the `check_vnode_is_set` panic |
| StorageTable.ComputeVnodeOwned | src/storage/src/table/mod.rs:162-174 | every vnode handed out is owned by the table, or is the default vnode of a table without a distribution key |
| StorageTable.MapThrough | src/storage/src/table/mod.rs:186-189 | the distribution key's columns are `pk_indices[i]` for each index of the key |
| StorageTable.ComputeChunkVnode | src/storage/src/table/mod.rs:177-203 | one vnode per row; the default vnode for every row without a distribution key; otherwise the vnodes `compute_chunk` returns, and the panic happens exactly when it returns the wrong number of vnodes or a visible row's vnode is not owned |
| StorageTable.ChunkVnodeAgreesWithRow | src/storage/src/table/mod.rs:162-203 | when `compute_chunk` hashes each row as `compute_row` does (`ChunkHashesRows`), the chunk's vnodes agree with `compute_vnode` on every visible row |
| StorageTable.ChunkPanicsExactlyWhenRowDoes | src/storage/src/table/mod.rs:162-203 | under the same agreement, the chunk computation panics exactly when `compute_vnode` would panic on some visible row |
| StorageTable.LeadingRows | src/storage/src/table/mod.rs:92-113 | the rows read before the limit, the end or the first error |
| StorageTable.CollectFacts | src/storage/src/table/mod.rs:92-128 | `collect_data_chunk` (`Collect`) reads at most `chunk_size` rows; a chunk holds exactly the rows read, in order, and is returned only when non-empty; an error in the stream is passed on and ends the read |
| StorageTable.CollectDataChunk | src/storage/src/table/mod.rs:92-128 | the loop computes exactly `Collect` |
| StreamChunks.ToProtobuf | src/common/src/array/stream_chunk.rs:49-56 | every op maps to one of the four defined protobuf op numbers |
| StreamChunks.FromProtobuf | src/common/src/array/stream_chunk.rs:58-68 | exactly the four defined op numbers decode; the unspecified number is its own error (the source's `unreachable!`); every other number is "no such op type" |
| StreamChunks.OpProtobufRoundTrip | src/common/src/array/stream_chunk.rs:48-68 | decoding an encoded op gives the op back |
| StreamChunks.ProtobufOpRoundTrip | src/common/src/array/stream_chunk.rs:48-68 | encoding a decoded op number gives the number back, so the mapping is a bijection on the defined numbers |
| StreamChunks.OpsFromProtobuf | src/common/src/array/stream_chunk.rs:185-190 | the ops decode exactly when every op number does, one op per number in order; otherwise the error is that of the first number that fails |
| StreamChunks.New | src/common/src/array/stream_chunk.rs:94-110 | the chunk keeps the ops and columns; without a visibility bitmap every row is visible |
| StreamChunks.NewValid | src/common/src/array/stream_chunk.rs:94-110 | a new chunk is well formed (`Valid`: one visibility bit and one datum per column for each op) exactly when no bitmap is given or the bitmap has one bit per op |
| StreamChunks.FromParts | src/common/src/array/stream_chunk.rs:167-170 | the chunk keeps the ops and the data chunk's columns |
| StreamChunks.FromPartsIntoParts | src/common/src/array/stream_chunk.rs:163-170 | taking a well-formed chunk apart and putting it back together gives the same chunk |
| StreamChunks.FromDataChunk | src/common/src/array/stream_chunk.rs:279-283 | a data chunk becomes a well-formed stream chunk with the same data and one `Insert` per slot |
| StreamChunks.Assemble | src/common/src/array/stream_chunk.rs:114-133 | rows of the given width build a well-formed chunk with one op per row |
| StreamChunks.AssembleRoundTrip | src/common/src/array/stream_chunk.rs:114-133 | reading the rows back from the built chunk gives exactly the rows it was built from |
| StreamChunks.FromRows | src/common/src/array/stream_chunk.rs:114-133 | the loop over rows builds exactly `Assemble` |
| StreamChunks.CountVisible | src/common/src/array/stream_chunk.rs:149-151 | the `fold` counts exactly the visible slots |
| StreamChunks.GatherVisibleOps | src/common/src/array/stream_chunk.rs:156-159 | the `iter_ones` loop pushes exactly the ops of the visible slots, in order |
| StreamChunks.CompactChunk | src/common/src/array/stream_chunk.rs:141-161 | the loop computes exactly the compacted chunk `CompactSpec` |
| StreamChunks.CompactValid | src/common/src/array/stream_chunk.rs:141-161 | compacting gives a well-formed chunk with no bitmap, whose length is the old cardinality |
| StreamChunks.CompactIdempotent | src/common/src/array/stream_chunk.rs:141-145 | compacting twice is compacting once |
| StreamChunks.CompactKeepsVisibleRows | src/common/src/array/stream_chunk.rs:141-161 | the compacted chunk's rows are exactly the visible rows, each with its op, in order |
| StreamChunks.FilterOpRows | src/common/src/array/stream_chunk.rs:152-159 | filtering op-rows by a bitmap is filtering the ops and each column by the same bitmap |
| StreamChunks.OpsMut.constructor | src/common/src/array/stream_chunk.rs:324-328 | a new editor shares the chunk's op slice |
| StreamChunks.OpsMut.Set | src/common/src/array/stream_chunk.rs:330-341 | after `set` only slot `n` reads differently, and the editor owns its copy; the shared slice is never written |
| StreamChunks.OpsMut.IntoOps | src/common/src/array/stream_chunk.rs:344-351 | the ops come back as they read; untouched, they are the shared slice itself |
| StreamChunks.Concat | src/common/src/array/stream_chunk.rs:532-551 | the ops are the chunks' ops one after another; the data is the rechunk of the data chunks to their total capacity |
| StreamChunks.ConcatOpsAppend | src/common/src/array/stream_chunk.rs:532-551 | concatenating two runs of chunks concatenates their ops |
| StreamChunks.ConcatOpsLength | src/common/src/array/stream_chunk.rs:532-551 | for well-formed chunks the concatenated ops are exactly as many as the total capacity handed to `rechunk` |
| StreamChunks.SortRows | src/common/src/array/stream_chunk.rs:553-567 | sorting fails (the index panic) exactly when the chunk has at least two slots and some slot is not visible; a chunk of one slot never compares keys and sorts whatever its visibility |
| StreamChunks.SortRowsFacts | src/common/src/array/stream_chunk.rs:553-567 | the sorted chunk is well formed, holds the same op-rows as a multiset, is sorted by `(op, row)`, and its ops ascend in declaration order |
| StreamChunks.SortOneSlot | src/common/src/array/stream_chunk.rs:553-567 | a one-slot chunk sorts to itself: one visible row with the same op and row |
| StreamChunks.ToPrettyString | src/common/src/array/stream_chunk.rs:203-233 | a chunk without visible rows prints as `(empty)`; otherwise the table is rendered from the visible rows with their op tokens |
| StreamChunks.PrettyRowsParse | src/common/src/array/stream_chunk.rs:210-229 | the k-th printed row's op token parses back to the k-th visible op and carries the k-th visible row |
| StreamChunks.OpTokenRoundTrip | src/common/src/array/stream_chunk.rs:213-219 | each op has exactly one token (`+`, `-`, `U-`, `U+`) and parsing a token gives its op |
| StreamChunks.ParsePrettyLine | src/common/src/array/stream_chunk.rs:506-517 | a line of op token, blank and row parses to that op and row |
| StreamChunks.ParseBody | src/common/src/array/stream_chunk.rs:502-519 | parsing the body only panics on a line that has no operation or an invalid one |
| StreamChunks.PanicSticks | src/common/src/array/stream_chunk.rs:502-519 | once a line panics, the lines after it change nothing |
| StreamChunks.BlankLineIgnored | src/common/src/array/stream_chunk.rs:503-505 | a blank line anywhere in the body changes nothing |
| StreamChunks.ParsePrettyLines | src/common/src/array/stream_chunk.rs:502-519 | printed lines parse back to their ops and the concatenation of their rows |
| StreamChunks.SplitLines | src/common/src/array/stream_chunk.rs:502 | the inclusive split of a string concatenates back to it |
| StreamChunks.SplitTerminatedLines | src/common/src/array/stream_chunk.rs:502 | splitting newline-terminated lines after joining them gives the same lines |
| StreamChunks.HeaderSplit | src/common/src/array/stream_chunk.rs:489-498 | `split_once('\n')` on header, newline and body splits at the end of the header |
| StreamChunks.FromPretty | src/common/src/array/stream_chunk.rs:485-524 | the parse computes exactly `FromPrettySpec`, the specification of `from_pretty` |
| StreamChunks.ParseLines | src/common/src/array/stream_chunk.rs:502-519 | the loop over body lines computes exactly `ParseBody` |
| StreamChunks.PrettyRoundTrip | src/common/src/array/stream_chunk.rs:485-524 | a header followed by printed, newline-terminated lines parses back to the same ops |
| ExprUtils.ConcatAppend | src/frontend/src/expr/utils.rs:22-32 | flattening two runs of operand lists flattens each and concatenates |
| ExprUtils.ConcatMembers | src/frontend/src/expr/utils.rs:22-32 | an expression is in the flattened lists exactly when it is in one of them |
| ExprUtils.Split | src/frontend/src/expr/utils.rs:22-32 | an expression that is not a call of the operator splits into itself |
| ExprUtils.SplitExprBy | src/frontend/src/expr/utils.rs:22-32 | the recursion appends exactly the split of the expression to what was collected |
| ExprUtils.ToConjunctions | src/frontend/src/expr/utils.rs:51-55 | the conjunctions are the split by `AND` |
| ExprUtils.ToDisjunctions | src/frontend/src/expr/utils.rs:59-63 | the disjunctions are the split by `OR` |
| ExprUtils.SplitFlat | src/frontend/src/expr/utils.rs:22-32 | no part of a split is itself a call of the operator |
| ExprUtils.SplitWellFormed | src/frontend/src/expr/utils.rs:22-32 | splitting a well-formed expression by `AND` or `OR` gives at least one part, and every part is well formed |
| ExprUtils.Merge | src/frontend/src/expr/utils.rs:34-47 | one expression merges to itself, none to the identity |
| ExprUtils.MergeExprByBinary | src/frontend/src/expr/utils.rs:34-47 | the left fold over the expressions computes exactly `Merge` |
| ExprUtils.SplitMerge | src/frontend/src/expr/utils.rs:22-47 | splitting the merge of non-empty parts that are not calls of the operator gives the parts back |
| ExprUtils.MergeWellFormed | src/frontend/src/expr/utils.rs:34-47 | merging well-formed parts by `AND` or `OR` with a well-formed identity gives a well-formed expression |
| ExprUtils.TryGetBoolConstant | src/frontend/src/expr/utils.rs:176-183 | a value exactly for a non-null boolean literal, and that value is the literal's |
| ExprUtils.FoldCallSound | src/frontend/src/expr/utils.rs:81-170 | folding one call with folded inputs keeps its value under every assignment of the inputs |
| ExprUtils.FoldSound | src/frontend/src/expr/utils.rs:67-170 | `fold_boolean_constant` (`FoldBooleanConstant`, each call folded by `FoldCall` with the rules `FoldAnd` and `FoldOr`) keeps the value of every well-formed expression under every assignment |
| ExprUtils.FoldBinary | src/frontend/src/expr/utils.rs:81-87 | folding a binary call folds its inputs first, then the call |
| ExprUtils.FoldAndRules | src/frontend/src/expr/utils.rs:159-162 | `true AND a` and `a AND true` fold to the folded `a`; `false AND a` and `a AND false` fold to `false` |
| ExprUtils.FoldOrRules | src/frontend/src/expr/utils.rs:163-166 | `true OR a` and `a OR true` fold to `true`; `false OR a` and `a OR false` fold to the folded `a` |
| ExprUtils.FoldNestedExample | src/frontend/src/expr/utils.rs:675-710 | `(false AND true) AND (true OR 1 = 2)` folds to the literal `false` |
| ExprUtils.PushDownNot | src/frontend/src/expr/utils.rs:218-290 | pushing `NOT` down keeps an expression well formed |
| ExprUtils.PushDownKeepsHead | src/frontend/src/expr/utils.rs:221-227 | a leaf is left alone, and a call of anything but `NOT` keeps its function |
| ExprUtils.PushDownNotNormal | src/frontend/src/expr/utils.rs:218-290 | after the push down no `NOT` sits directly on a `NOT`, an `AND` or an `OR` |
| ExprUtils.NotLaws | src/frontend/src/expr/utils.rs:241-274 | under three-valued logic double negation cancels and De Morgan's laws hold |
| ExprUtils.PushDownNotSound | src/frontend/src/expr/utils.rs:218-290 | pushing `NOT` down keeps the value of every well-formed expression under every assignment |
| ExprUtils.PushDownNotExamples | src/frontend/src/expr/utils.rs:713-784 | `NOT NOT a` becomes `a`; `NOT (a AND NOT b)` becomes `NOT a OR b` |
| ExprUtils.CommonFactors | src/frontend/src/expr/utils.rs:307-311 | every common factor is a conjunct of the last disjunct and of every other disjunct |
| ExprUtils.NotCommon | src/frontend/src/expr/utils.rs:309-311 | every conjunct the drain leaves in the last disjunct is missing from some other disjunct |
| ExprUtils.Without | src/frontend/src/expr/utils.rs:312-315 | `retain` keeps exactly the conjuncts that are not common factors |
| ExprUtils.FactorsWellFormed | src/frontend/src/expr/utils.rs:292-335 | the common factors, every residual conjunct and every merged residual are well formed |
| ExprUtils.FactorizationExpr | src/frontend/src/expr/utils.rs:292-335 | the steps compute exactly the specification of `factorization_expr` |
| ExprUtils.ConjunctionsOf | src/frontend/src/expr/utils.rs:303-306 | each disjunct is split into its conjuncts, in order |
| ExprUtils.DrainFilter | src/frontend/src/expr/utils.rs:309-311 | the drain takes out exactly the common factors and keeps exactly the rest |
| ExprUtils.RetainAll | src/frontend/src/expr/utils.rs:312-315 | every other disjunct loses exactly the common factors |
| ExprUtils.TakeOutFactors | src/frontend/src/expr/utils.rs:307-315 | the common factors of the last disjunct leave it and every other disjunct, giving exactly the residual conjunctions |
| ExprUtils.EmitFactored | src/frontend/src/expr/utils.rs:317-334 | the folded factors come first, then one folded OR of the residual conjunctions |
| ExprUtils.MergeConjunctions | src/frontend/src/expr/utils.rs:317-324 | each residual conjunct list is merged by `AND` with identity `true` |
| ExprUtils.FoldAll | src/frontend/src/expr/utils.rs:330-334 | every result expression is constant-folded |
| ExprUtils.FactorizationOfNonDisjunction | src/frontend/src/expr/utils.rs:294-299 | an expression that is not an `OR` comes back as the only element |
| ExprUtils.FactorizationFacts | src/frontend/src/expr/utils.rs:292-335 | one result per common factor plus the remainder; every factor is a conjunct of every disjunct, and no residual still contains it |
| ExprUtils.Join | src/frontend/src/expr/utils.rs:34-47 | the left-nested `AND` (from true) or `OR` (from false) of booleans and NULLs is a boolean or NULL |
| ExprUtils.JoinAppend | src/frontend/src/expr/utils.rs:34-47 | joining two runs of values by `AND` or `OR` is the connective on the two joins |
| ExprUtils.AndJoinMembers | src/frontend/src/expr/utils.rs:34-47 | an `AND` of booleans and NULLs is false when a false occurs, else NULL when a NULL occurs, else true |
| ExprUtils.AndJoinCover | src/frontend/src/expr/utils.rs:312-333 | the `AND` of booleans and NULLs equals the `AND` of two runs that between them hold exactly its values |
| ExprUtils.OrOfCommonFactor | src/frontend/src/expr/utils.rs:331-333 | three-valued `OR` distributes over a common `AND` factor: `(g AND w1) OR ... OR (g AND wn)` is `g AND (w1 OR ... OR wn)` |
| ExprUtils.EvalMerge | src/frontend/src/expr/utils.rs:34-47 | a merge by `AND` from `true`, or by `OR` from `false`, evaluates to the join of its parts' values |
| ExprUtils.EvalCall | src/frontend/src/expr/utils.rs:22-32 | a binary `AND` or `OR` call evaluates to the connective on its two inputs' values |
| ExprUtils.SplitCall | src/frontend/src/expr/utils.rs:22-32 | a binary call of the operator splits into the split of its first input followed by the split of its second |
| ExprUtils.EvalSplit | src/frontend/src/expr/utils.rs:22-63 | a well-formed expression evaluates to the join of its conjunctions (by `AND`) or of its disjunctions (by `OR`) |
| ExprUtils.SplitSingle | src/frontend/src/expr/utils.rs:294-299 | a well-formed expression whose split has one part is that part |
| ExprUtils.DrainCovers | src/frontend/src/expr/utils.rs:307-311 | `drain_filter` either takes each conjunct of the last disjunct out as a common factor or leaves it there |
| ExprUtils.ResidualsPartition | src/frontend/src/expr/utils.rs:305-315 | every disjunct's conjuncts are exactly the common factors together with its residual conjuncts |
| ExprUtils.ConjunctionFactored | src/frontend/src/expr/utils.rs:305-333 | a conjunction of booleans and NULLs is the `AND` of the common factors and of the residuals that between them hold its conjuncts |
| ExprUtils.RemainderValue | src/frontend/src/expr/utils.rs:317-327 | the merged remainder evaluates to the `OR` of the `AND`s of the residual conjunct lists |
| ExprUtils.RemainderWellFormed | src/frontend/src/expr/utils.rs:317-327 | the merged remainder of well-formed residual conjuncts is well formed |
| ExprUtils.SpecShape | src/frontend/src/expr/utils.rs:300-335 | with several disjuncts the emitted list is the folded common factors followed by the folded remainder, all well formed |
| ExprUtils.FoldedFactorsValue | src/frontend/src/expr/utils.rs:328-334 | the folded factors and folded remainder, merged by `AND`, evaluate to the `AND` of the unfolded factors and remainder, despite `fold_boolean_constant` on each |
| ExprUtils.EmittedValue | src/frontend/src/expr/utils.rs:292-335 | the emitted list, merged by `AND`, evaluates to `FactoredValue`: the `AND` of the common factors and of the remainder |
| ExprUtils.DisjunctionFactored | src/frontend/src/expr/utils.rs:300-333 | the `OR` of the disjuncts equals the `AND` of the common factors and of the remainder when every conjunct is a boolean or NULL |
| ExprUtils.ExpressionValue | src/frontend/src/expr/utils.rs:292-333 | an expression with several disjuncts of booleans and NULLs evaluates to `FactoredValue` |
| ExprUtils.DisjunctValue | src/frontend/src/expr/utils.rs:300-315 | each disjunct evaluates to the `AND` of the common factors and of its residuals, a boolean or NULL |
| ExprUtils.FactorizationSound | src/frontend/src/expr/utils.rs:292-335 | the `AND` of the emitted list evaluates exactly as the input expression does, for every assignment under which each conjunct of each disjunct is a boolean or NULL (the predicate `ConjunctsBoolean`) |
| ExprUtils.DeriveAll | src/frontend/src/expr/utils.rs:462-486 | the inputs' derivations, one per input, when every input's is defined |
| ExprUtils.DeriveAllPair | src/frontend/src/expr/utils.rs:467-470 | a binary call's derivations are the pair of its inputs' derivations |
| ExprUtils.DeriveCallWatermarkFromInput | src/frontend/src/expr/utils.rs:488-591 | a call derives the watermark of a column only if one of its inputs derives it |
| ExprUtils.DerivationReadsInputs | src/frontend/src/expr/utils.rs:445-591 | `try_derive_watermark` (`DeriveWatermark`, with `DeriveCall` for function calls) derives the watermark of a column only if the expression reads that column |
| ExprUtils.ReadsThroughInputs | src/frontend/src/expr/utils.rs:445-460 | a call reads every column its inputs read |
| ExprUtils.WatermarkLeaves | src/frontend/src/expr/utils.rs:447-448 | a column reference derives its own watermark, a literal is constant, and `proctime()` is non-decreasing |
| ExprUtils.AddSymmetric | src/frontend/src/expr/utils.rs:492-497 | addition derives the same in either operand order |
| ExprUtils.SubtractKeepsLeftWatermark | src/frontend/src/expr/utils.rs:498-505 | a subtraction or `tumble_start` derives a column's watermark only from its left operand with a constant right operand |
| ExprUtils.ArithmeticOnlyConstant | src/frontend/src/expr/utils.rs:506-512 | multiplication, division and modulus are constant exactly when both operands are, and otherwise derive nothing |
| ExprUtils.NonStringZonePanics | src/frontend/src/expr/utils.rs:532-536 | a time-zone literal that is not a string is the `as_utf8` panic, before the interval is looked at |
| ExprUtils.NonLiteralIntervalNotDerivable | src/frontend/src/expr/utils.rs:532-540 | with a string or null time-zone literal, an interval that is not a literal derives nothing |
| ProtobufParser.BaseType | src/connector/src/parser/protobuf/parser.rs:298-318 | the column type of a scalar field kind, with `fixed32` widened to BIGINT and `fixed64` to DECIMAL so that the type holds the decoded values; every other kind maps as written; never a struct or a list |
| ProtobufParser.BaseTypeAsWritten | src/connector/src/parser/protobuf/parser.rs:298-318 | the kind table as written: never a struct or a list, with `fixed32` mapped to INT and `fixed64` to BIGINT |
| ProtobufParser.FieldsMapping | src/connector/src/parser/protobuf/parser.rs:308-315 | the types of a message's fields map exactly when every field maps, one type per field in order |
| ProtobufParser.FieldsPrefixErr | src/connector/src/parser/protobuf/parser.rs:309-312 | the first field that fails to map decides the error of the whole message |
| ProtobufParser.RevisitRejected | src/connector/src/parser/protobuf/parser.rs:212-221 | a field already on the parse trace is rejected as a circular reference, naming the trace and the field |
| ProtobufParser.TraceWeakening | src/connector/src/parser/protobuf/parser.rs:296-323 | a field that maps under a longer trace maps to the same type under any trace it contains |
| ProtobufParser.FieldsWeakening | src/connector/src/parser/protobuf/parser.rs:308-315 | the same for all fields of a message |
| ProtobufParser.SelfReferenceRejected | src/connector/src/parser/protobuf/parser.rs:470-498 | a message with a field of its own type is refused |
| ProtobufParser.MutualReferenceRejected | src/connector/src/parser/protobuf/parser.rs:470-498 | two messages that refer to each other are refused |
| ProtobufParser.DetectLoopAndPush | src/connector/src/parser/protobuf/parser.rs:212-224 | fails exactly when the field's `name(full_name)` identifier is already on the trace, leaving the trace alone; otherwise pushes it |
| ProtobufParser.ProtobufTypeMapping | src/connector/src/parser/protobuf/parser.rs:292-324 | the recursive mapping computes exactly `TypeMapping` for the given kind table; on success the trace is back as it was |
| ProtobufParser.MapFields | src/connector/src/parser/protobuf/parser.rs:309-312 | the loop over a message's fields computes exactly `FieldsMapping`; on success the trace is back as it was |
| ProtobufParser.PostOrderAllAppend | src/connector/src/parser/protobuf/parser.rs:187-193 | column ids of a run of columns followed by one more are those of the run followed by those of the column |
| ProtobufParser.PbFieldToColDesc | src/connector/src/parser/protobuf/parser.rs:176-209 | a column exactly when the field's type maps, with the mapping's error otherwise; the column has the field's name and mapped type, nested columns for a non-repeated message (one per field, same names) and none otherwise, the message name as type name, and ids numbered in post-order from `index + 1`, its own id last |
| ProtobufParser.NestedColumns | src/connector/src/parser/protobuf/parser.rs:187-189 | one column per nested field, with its name and mapped type, ids consecutive in post-order |
| ProtobufParser.MapToColumns | src/connector/src/parser/protobuf/parser.rs:161-174 | columns exactly when every top-level field maps, the first failure's error otherwise; one column per field with its name and type; all ids numbered `1, 2, ...` in post-order |
| ProtobufParser.EnumSymbol | src/connector/src/parser/protobuf/parser.rs:242-248 | the name of a value with that number, if the enum has one |
| ProtobufParser.FromProtobufValue | src/connector/src/parser/protobuf/parser.rs:226-289 | a converted value is never null |
| ProtobufParser.MessageValues | src/connector/src/parser/protobuf/parser.rs:251-270 | a message converts exactly when no required field is missing and every field converts, one datum per field in order |
| ProtobufParser.ListValues | src/connector/src/parser/protobuf/parser.rs:272-278 | a list converts exactly when every element does, one datum per element in order |
| ProtobufParser.EnumConversion | src/connector/src/parser/protobuf/parser.rs:236-250 | an enum number on a non-enum field is an error; an unknown number is an error naming it; a known number becomes the name of its value |
| ProtobufParser.MissingRequiredRejected | src/connector/src/parser/protobuf/parser.rs:256-265 | a required field missing from a message fails the whole conversion |
| ProtobufParser.FieldTypeIsMapping | src/connector/src/parser/protobuf/parser.rs:296-323 | a scalar field not on the trace maps to its field type |
| ProtobufParser.ScalarKindValueHasType | src/connector/src/parser/protobuf/parser.rs:226-250 | a converted scalar value has the type its field kind maps to |
| ProtobufParser.ConvertedValueHasColumnType | src/connector/src/parser/protobuf/parser.rs:226-323 | with the corrected kind table, every converted scalar or list value has the column type its field maps to |
| ProtobufParser.Fixed32MismatchAsWritten | src/connector/src/parser/protobuf/parser.rs:230-302 | `fixed32` 4294967295 converts to a BIGINT datum, which the mapped INT column type cannot hold |
| ProtobufParser.Fixed64MismatchAsWritten | src/connector/src/parser/protobuf/parser.rs:232-303 | `fixed64` 18446744073709551615 converts to a DECIMAL datum, which the mapped BIGINT column type cannot hold |
| ProtobufParser.TwoFieldsMapping | src/connector/src/parser/protobuf/parser.rs:308-315 | a message of two scalar fields maps to the pair of their field types |
| ProtobufParser.SchemaMismatchAsWritten | src/connector/src/parser/protobuf/parser.rs:226-315 | with the table as written, any message whose fields are a non-repeated `fixed32` and `fixed64` maps to INT and BIGINT columns, while the largest values of those fields convert to a BIGINT and a DECIMAL datum that neither column holds |
| ProtobufParser.SchemaMappingCorrected | src/connector/src/parser/protobuf/parser.rs:296-315 | with the corrected table the same message maps to BIGINT and DECIMAL columns |
| ProtobufParser.ExtractSchemaId | src/connector/src/parser/protobuf/parser.rs:330 | the schema-registry header is present exactly when the payload has at least five bytes starting with the magic byte; the rest follows it |
| ProtobufParser.ResolvePbHeader | src/connector/src/parser/protobuf/parser.rs:326-340 | the message bytes come back exactly when the header is present and the message index is `0`; an empty index is "payload is empty" and another index is refused with its value |
| ProtobufParser.FrameRoundTrip | src/connector/src/parser/protobuf/parser.rs:326-340 | a framed message with a 32-bit schema id resolves back to the message, and the header to the id |
| MySqlValidator.EqualsIgnoreCaseIsUpperEquality | java/connector-node/risingwave-connector-service/src/main/java/com/risingwave/connector/source/common/MySqlValidator.java:65-87 | `equalsIgnoreCase` is equality after upper-casing, and symmetric |
| MySqlValidator.IsDataTypeCompatible | java/connector-node/risingwave-connector-service/src/main/java/com/risingwave/connector/source/common/MySqlValidator.java:206-236 | agrees with the table of accepted RisingWave type numbers for each covered MySQL type, and accepts everything for an uncovered type |
| MySqlValidator.CompatibilityNarrows | java/connector-node/risingwave-connector-service/src/main/java/com/risingwave/connector/source/common/MySqlValidator.java:206-236 | wider MySQL integer and floating types accept fewer RisingWave types; `int` and `mediumint`, `float` and `real` accept the same; only `tinyint` accepts BOOLEAN |
| MySqlValidator.ScanSetting | java/connector-node/risingwave-connector-service/src/main/java/com/risingwave/connector/source/common/MySqlValidator.java:64-69 | the scan over the rows of a setting succeeds exactly when every value equals the expected one, ignoring case |
| MySqlValidator.ValidateBinlogConfig | java/connector-node/risingwave-connector-service/src/main/java/com/risingwave/connector/source/common/MySqlValidator.java:60-93 | valid exactly when `log_bin` is ON, `binlog_format` ROW and `binlog_row_image` FULL in every row; otherwise the first failing check's error, and every error is internal |
| MySqlValidator.BinlogExamples | java/connector-node/risingwave-connector-service/src/main/java/com/risingwave/connector/source/common/MySqlValidator.java:65-87 | the settings compare ignoring case; one row that differs fails; no rows pass |
| MySqlValidator.Revoke | java/connector-node/risingwave-connector-service/src/main/java/com/risingwave/connector/source/common/MySqlValidator.java:187 | `removeIf(granted::contains)`: exactly the privileges the grant does not mention remain |
| MySqlValidator.RemainingAsWritten | java/connector-node/risingwave-connector-service/src/main/java/com/risingwave/connector/source/common/MySqlValidator.java:176-191 | the loop never adds a privilege back |
| MySqlValidator.Remaining | java/connector-node/risingwave-connector-service/src/main/java/com/risingwave/connector/source/common/MySqlValidator.java:176-191 | with `ALL` read as granting everything, the corrected loop never adds a privilege back |
| MySqlValidator.FirstGrantAll | java/connector-node/risingwave-connector-service/src/main/java/com/risingwave/connector/source/common/MySqlValidator.java:182-184 | the position of the first grant that mentions `ALL` |
| MySqlValidator.ValidatePrivileges | java/connector-node/risingwave-connector-service/src/main/java/com/risingwave/connector/source/common/MySqlValidator.java:171-197 | valid exactly when the loop as written leaves no required privilege; otherwise the error lists what is left |
| MySqlValidator.RemainingAsWrittenExactly | java/connector-node/risingwave-connector-service/src/main/java/com/risingwave/connector/source/common/MySqlValidator.java:179-191 | as written, a privilege is missing exactly when it is required and no grant before the first `ALL` grant mentions it, so grants from the `ALL` grant on are ignored |
| MySqlValidator.RemainingExactly | java/connector-node/risingwave-connector-service/src/main/java/com/risingwave/connector/source/common/MySqlValidator.java:179-191 | corrected, a privilege is missing exactly when it is required, no grant mentions `ALL` and none mentions the privilege |
| MySqlValidator.AsWrittenAgreesWithoutAll | java/connector-node/risingwave-connector-service/src/main/java/com/risingwave/connector/source/common/MySqlValidator.java:179-191 | without an `ALL` grant the loop as written and the corrected loop agree |
| MySqlValidator.AllPrivilegesRejectedAsWritten | java/connector-node/risingwave-connector-service/src/main/java/com/risingwave/connector/source/common/MySqlValidator.java:180-195 | a user whose only grant is `GRANT ALL PRIVILEGES ON *.* TO rw` is left with every required privilege as written, and with none when corrected |
| MySqlValidator.BuildSchema | java/connector-node/risingwave-connector-service/src/main/java/com/risingwave/connector/source/common/MySqlValidator.java:134-146 | the loop over schema rows builds exactly the lower-cased name-to-type map and the primary-key set |
| MySqlValidator.SchemaOfLookup | java/connector-node/risingwave-connector-service/src/main/java/com/risingwave/connector/source/common/MySqlValidator.java:137-141 | a lower-cased name is in the schema exactly when some row has it, and its type is that of the last such row |
| MySqlValidator.PkFieldsExactly | java/connector-node/risingwave-connector-service/src/main/java/com/risingwave/connector/source/common/MySqlValidator.java:142-145 | a lower-cased name is a primary-key field exactly when some row with that name has key `PRI`, ignoring case |
| MySqlValidator.CheckColumns | java/connector-node/risingwave-connector-service/src/main/java/com/risingwave/connector/source/common/MySqlValidator.java:148-163 | valid exactly when every column is internal or found with a compatible type; otherwise the error of the first bad column |
| MySqlValidator.ValidateTableSchema | java/connector-node/risingwave-connector-service/src/main/java/com/risingwave/connector/source/common/MySqlValidator.java:113-164 | a zero table count is "table doesn't exist"; otherwise the primary-key set is collected and the outcome is the column check's: valid exactly when every declared column passes against the schema of the result rows, and otherwise the error of the first column that fails |
| MySqlValidator.ColumnMatchingExamples | java/connector-node/risingwave-connector-service/src/main/java/com/risingwave/connector/source/common/MySqlValidator.java:148-163 | column names match case-insensitively; a `bigint` column does not accept INT; internal columns are skipped |

## Left out

- Hashes and checksums (`xxhash64_checksum`/`xxhash64_verify`, the bloom-filter hashes, `VirtualNode::compute_row` and `VirtualNode::compute_chunk`) are function parameters. `compute_row` and `compute_chunk` are two separate parameters; the lemmas that relate the chunk computation to the row computation take their agreement (`ChunkHashesRows`) as an explicit hypothesis.
- Helpers whose code is not part of this model are modelled concretely by what they evidently do, and their names appear in the members that use them: `UserKey::encode_length_prefixed` (big-endian table id, big-endian length, key), `put_length_prefixed_slice`/`get_length_prefixed_slice` (little-endian length), `next_key`, `end_bound_of_prefix`, `start_bound_of_excluded_prefix`, `cache_may_stale` (the new bitmap owns a vnode the old one does not), `apply_event` (an exit removes an epoch, an entry inserts it) and `extract_schema_id` (Confluent framing: magic byte `0`, then a 4-byte big-endian schema id).
- DeleteRange.CreateMonotonicEvents: the event builder of the delete-range aggregator (`build_events`) is not part of this model and is a parameter.
- ManagedLru: the inner `lru` crate is a sequence of entries, least recently used first; its hashing, the Prometheus gauge labels, `report_evicted_watermark_time` and the unsafe `UnsafeMutGuard` are left out. The gauge is a field holding the last reported value.
- LogStoreBuffer: the shared mutex, `Notify` and the init channels are left out. The buffer is one object, and each method is one critical section. The flush function is a parameter.
- StateTable.StateTable.Commit: the watermark-cache refill after sealing reads from storage and is left out. The outcome of `local_store.flush` is the parameter `flushOk` of `SealCurrentEpoch` and `Commit`, and its error is `FlushFailed`. The watermark buffer strategy's tick is the parameter `strategyApplies` of `UpdateWatermark`.
- LogStoreBuffer.Buffer.AddItem: requires an item that is not a stream chunk, because the source hits `unreachable!` on a stream chunk; that panic is not modelled as an outcome.
- LogStoreBuffer.Buffer.AddFlushed: requires, when the front item is a flushed range, that it ends before `start`, has the same epoch and a bitmap of the same length, as the source's `assert!`, `assert_eq!` and bitmap `|=` demand; their panics are not modelled as outcomes.
- LogStoreBuffer.Buffer.Truncate: requires a non-empty consumed queue to start with a barrier, because the source hits `unreachable!` otherwise; that panic is not modelled as an outcome.
- StateTable.StateTable.UpdateVnodeBitmap: requires a clean table, the same bitmap for a singleton and a bitmap of the same length, as the source's `assert!` and two `assert_eq!`s demand; their panics are not modelled as outcomes.
- StreamChunks.New: requires every column to have one datum per op, as the source's `assert_eq!(col.len(), ops.len())` demands; that panic is not modelled as an outcome.
- StreamChunks.Concat: requires at least one chunk, because the source's `assert!(!chunks.is_empty())` panics otherwise; that panic is not modelled as an outcome.
- SstableFormat.Encodable: the footer's counts and lengths must fit a `u32`. The source writes the block-meta and event counts through `utils::checked_into_u32` (src/storage/src/hummock/sstable/mod.rs:414, 423), which is not part of this model, and the key and bloom-filter lengths through length-prefix helpers that are not part of it either; an encoding of a longer footer (a panic or a truncated length) is not modelled.
- StateTable: the memcomparable serialisation of a watermark (`OrderedRowSerde`) is a parameter. Vnode prefixes are 2 bytes, big-endian. Storage reads, iteration and `may_exist` are left out.
- StorageTable.CollectDataChunk: the array builders are left out. The chunk is the sequence of rows read, and an asynchronous stream is a finite sequence of rows, errors and an end.
- StreamChunks: the internals of `DataChunk` and arrays are sequences of datums of an abstract type. `DataChunk::rechunk`, the table layout of `to_pretty_string` and `DataChunk::from_pretty` are parameters or left uninterpreted. `StreamChunkMut`, `to_mut_rows`, `project` and the random `gen_stream_chunks` are left out.
- StreamChunks.SortRows: the row order (`DefaultOrdered` on a row) is a parameter, assumed total in the lemma about it. `DataChunk::reorder_rows` is not part of this model; it is taken to gather the chosen slots into a new chunk whose rows are all visible.
- ExprUtils: only the expression kinds the rewriters inspect have children here. The default `ExprRewriter` descent into lambda calls, subqueries, aggregate and window calls and user-defined functions is not part of this model, and the rewriters leave those kinds alone. Calls must have the arity the source asserts (`WellFormed`).
- ExprUtils.FoldSound: the values of calls other than the boolean connectives and the `IS` predicates come from a parameter, so folding is shown sound for every interpretation of them.
- ExprUtils: in watermark derivation, the type checks of `AT TIME ZONE` and the interval and time-zone literals are modelled. `as_utf8`/`as_interval` on a literal of the wrong type is a panic, modelled as `None` (distinct from `Some(NotDerivable)`, the source's `WatermarkDerivation::None`).
- ProtobufParser: decoding bytes into values (prost-reflect), schema loading from files, S3, HTTP or a registry, and the float arms of `from_protobuf_value` are left out. Float values carry their bits and are not interpreted.
- ProtobufParser.PbFieldToColDesc: the `i32` column-id counter is an unbounded integer, so its overflow past 2147483647 columns is not modelled.
- ProtobufParser: the type mapping chain (`TypeMapping` up to `MapToColumns`) takes the kind table as a parameter: `AsWritten` is the source's table and `Corrected` the intended one (see Findings). `ConvertedValueHasColumnType` holds for the corrected table only.
- MySqlValidator: the JDBC connection and the SQL queries are left out. Each query's result set is an input sequence of the columns the validator reads. `toUpperCase`, `toLowerCase` and `equalsIgnoreCase` are modelled on ASCII letters only.
- ManagedLru.ManagedLruCache.Put: `key_size + value_size` is a plain `usize` addition in the source (managed_lru.rs:154, 157), which wraps or panics on overflow; the model adds unbounded naturals before the saturating add or subtract.
- ManagedLru.ManagedLruCache.Push: the same plain `usize` sums (managed_lru.rs:207, 212) are unbounded naturals in the model.
- ManagedLru.ManagedLruCache.EvictByEpoch: the per-entry `key + value` size sum of the evict loop (managed_lru.rs:133) is an unbounded natural in the model (`Sizes`); `Evict` and `EvictExceptCurEpoch` inherit this.
- ManagedLru.MutGuard.Drop: has no unchecked sum; both of its steps saturate in the source (managed_lru.rs:349-352) and in the model, and the value's estimated size is an unbounded natural that the saturating add clamps.
- StreamChunks.OpsMut.Set: `requires n < |Ops()|` stands for the index panic of the source's slice write; the out-of-range call is not modelled.
- StorageTable.MapThrough: its index requires stands for the `pk_indices[i]` panic of the source; an index out of range is not modelled.
- ExprUtils.FactorizationSound: three-valued `AND` and `OR` are idempotent, commutative and distributive only on booleans and NULL, so soundness is proved under the hypothesis `ConjunctsBoolean` that every conjunct of every disjunct evaluates to a boolean or NULL, which type checking of a predicate guarantees.
- MySqlValidator.ValidateTableSchema: the primary-key match (`ValidatorUtils.isPrimaryKeyMatch`) is not part of this model, so the method returns the collected primary-key set instead of deciding the match. The internal-column prefix is a parameter. The declared columns are visited in the given sequence order, where the source iterates a map.

## Findings

| source | as written | input that shows it | evidently intended | confidence | as-written member | corrected member |
|---|---|---|---|---|---|---|
| java/connector-node/risingwave-connector-service/src/main/java/com/risingwave/connector/source/common/MySqlValidator.java:180-196 | a grant line containing `ALL` ends the scan without clearing the required set, so the emptiness check that follows still rejects the user | one grant row `GRANT ALL PRIVILEGES ON *.* TO rw`: every required privilege is reported missing | the comment at line 181 says validation passes: an `ALL` grant satisfies every required privilege | medium; not executed | MySqlValidator.AllPrivilegesRejectedAsWritten | MySqlValidator.RemainingExactly |
| src/connector/src/parser/protobuf/parser.rs:298-305 | `fixed32` maps to INT and `fixed64` to BIGINT, but their values decode as `U32` (a BIGINT datum) and `U64` (a DECIMAL datum) | a `fixed32` field holding 4294967295, or a `fixed64` field holding 18446744073709551615 | type `fixed32` like `uint32` (BIGINT) and `fixed64` like `uint64` (DECIMAL), so that every decoded value has its column's type | medium; not executed | ProtobufParser.SchemaMismatchAsWritten | ProtobufParser.ConvertedValueHasColumnType |
