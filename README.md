# BigQueue storage engine, modelled in Dafny

This project models the storage core of the BigQueue library
(`com.leansoft.bigqueue`). It has three components:

- `BigArrayImpl`: an append-only array of byte records addressed by `long`
  positions. Each position has a 32-byte index record, kept in index pages
  of 2^17 slots. The record locates the position's bytes in a data page and
  holds the append time. A 16-byte meta page persists the head and the tail.
- `BigQueueImpl`: a FIFO queue over one array. Its front cursor is persisted
  in a one-page factory of its own.
- `FanOutQueueImpl`: any number of named consumers over one array. Each has
  a `QueueFront` cursor, created on first use and persisted in its own
  directory.

A page factory is modelled as a value, `PageStore.Store`: a page size and a
map from page numbers to page bytes. A missing page reads as zeros. Reads,
writes and page deletions are functions on that value. The classes hold
their factories as fields and reassign them when the source writes a page.
`long`/`int` fields are Dafny integers with their Java ranges stated. Where
the source's arithmetic can wrap, the wrap is written out (`Java.WrapLong`,
`Java.WrapInt`, `Ring.Next`).

`BigArrayImpl` carries two ghost maps: the index record last written at
each position, and what each `append` was given. Its invariant `Valid()`
says that the index pages hold the records of positions [tail, head). It
also says that the data pages hold an image of [tail, head): each record
locates exactly the appended bytes, and records only move forward through
the data pages. From this the model proves that `get` returns what
`append` stored, that appends and truncations keep the image, and that a
reopened array whose meta page holds its tail continues where it stopped
(`removeBeforeIndex` leaves the old tail in the meta page; see Findings). The queues are specified by the
sequence of items between their cursor and the array's head
(`BigArray.Window`).

Files:

- `java.dfy`: Java ranges, wrap-around, `Math.abs`, the exception kinds.
- `ring.dfy`: cursor positions, `validateIndex`, the `size` distance.
- `page_store.dfy`: page factories.
- `big_endian.dfy`: `ByteBuffer` long and int encodings.
- `index_layout.dfy`: index slots and the meta page.
- `closest_search.dfy`: `findClosestIndex` and `closestBinarySearch`.
- `big_array.dfy`, `front_index.dfy`, `big_queue.dfy` and
  `fan_out_queue.dfy`: the array, the front page, and the two queues.

Where a branch of the source depends on the environment, the model takes
that value as a parameter:

- `append`'s clock reading is `now`.
- `getFirstPageIndexBefore(timestamp)` of the index page factory, which
  reads file modification times, is `firstIndexPageIndex`.
- `getBackFileSize()`, which adds up file sizes, is `backFileSize`.
- `FolderNameValidator.validate` is a function field, `folderNameValid`.
- The contents of each fan-out id's front directory at opening time are
  `frontDirectories`.

## Model

| member | source | states |
|---|---|---|
| Java.WrapLong | src/main/java/com/leansoft/bigqueue/BigArrayImpl.java:271 | the long a Java operation yields: in long range, congruent to the exact value mod 2^64, and equal to it when it fits |
| Java.WrapInt | src/main/java/com/leansoft/bigqueue/BigArrayImpl.java:312 | the int a Java operation yields: in int range, congruent mod 2^32, and exact when it fits |
| Java.SubLong | src/main/java/com/leansoft/bigqueue/BigArrayImpl.java:581 | long subtraction: exact when it fits, otherwise off by exactly 2^64 in the direction of the overflow |
| Java.AbsLong | src/main/java/com/leansoft/bigqueue/BigArrayImpl.java:581 | `Math.abs` on a long: the non-negative magnitude, except Long.MIN_VALUE, which is returned unchanged |
| Ring.Next | src/main/java/com/leansoft/bigqueue/BigQueueImpl.java:124-128 | advancing a cursor keeps it a position in [0, Long.MAX_VALUE] (Long.MAX_VALUE wraps to 0) |
| Ring.Distance | src/main/java/com/leansoft/bigqueue/BigQueueImpl.java:260-268 | the `size` formula is a count in [0, Long.MAX_VALUE], zero exactly when front equals rear |
| Ring.Walk | src/main/java/com/leansoft/bigqueue/BigQueueImpl.java:124-128 | repeated dequeue advances stay positions |
| Ring.DistanceNextFront | src/main/java/com/leansoft/bigqueue/BigQueueImpl.java:260-268 | advancing the front of a non-empty queue lowers its size by one |
| Ring.DistanceNextRear | src/main/java/com/leansoft/bigqueue/BigQueueImpl.java:260-268 | advancing the rear (an append) raises the size by one, unless it meets the front |
| Ring.WalkReachesRear | src/main/java/com/leansoft/bigqueue/BigQueueImpl.java:260-268 | `size` advances take the front to the rear |
| Ring.WalkBeforeRear | src/main/java/com/leansoft/bigqueue/BigQueueImpl.java:260-268 | and no fewer do, so `size` is exactly the number of items |
| Ring.ValidIndexByDistance | src/main/java/com/leansoft/bigqueue/BigArrayImpl.java:480-490 | on positions, `validateIndex` accepts exactly the first Distance(tail, head) positions walked from tail, wrapped ring included |
| PageStore.Store.Page | src/main/java/com/leansoft/bigqueue/page/IMappedPageFactory.java:26 | every page acquired has the factory's page size |
| PageStore.Store.Read | src/main/java/com/leansoft/bigqueue/page/IMappedPage.java:38 | `getLocal(off, len)` returns len bytes |
| PageStore.Store.Write | src/main/java/com/leansoft/bigqueue/BigArrayImpl.java:350-353 | after a put, the written range reads back the bytes put, and every other page is unchanged |
| PageStore.Store.DeletePagesBefore | src/main/java/com/leansoft/bigqueue/page/IMappedPageFactory.java:128 | no page below n survives, and every page from n up is kept |
| PageStore.Store.DeleteAllPages | src/main/java/com/leansoft/bigqueue/page/IMappedPageFactory.java:90 | the factory is left without pages |
| PageStore.ReadAfterWriteOther | src/main/java/com/leansoft/bigqueue/BigArrayImpl.java:350-353 | a put leaves every byte outside its range as it was |
| PageStore.Put | src/main/java/com/leansoft/bigqueue/BigArrayImpl.java:350-353 | the page write: written range reads back, all disjoint ranges unchanged |
| PageStore.ReadWithin | src/main/java/com/leansoft/bigqueue/BigArrayImpl.java:697-702 | reading a field at an offset within a slot is reading that slice of the slot |
| BigEndian.FromUnsignedZeros | src/main/java/com/leansoft/bigqueue/BigQueueImpl.java:95-98 | all-zero bytes, as on a page never written, decode to 0 |
| BigEndian.EncodeLong | src/main/java/com/leansoft/bigqueue/BigArrayImpl.java:363 | `putLong` writes 8 bytes |
| BigEndian.DecodeLong | src/main/java/com/leansoft/bigqueue/BigQueueImpl.java:98 | `getLong` yields a long |
| BigEndian.EncodeInt | src/main/java/com/leansoft/bigqueue/BigArrayImpl.java:364-365 | `putInt` writes 4 bytes |
| BigEndian.DecodeInt | src/main/java/com/leansoft/bigqueue/BigArrayImpl.java:698-702 | `getInt` yields an int |
| BigEndian.LongRoundTrip | src/main/java/com/leansoft/bigqueue/BigArrayImpl.java:363-367 | `getLong` returns the long `putLong` stored |
| BigEndian.LongBytesRoundTrip | src/main/java/com/leansoft/bigqueue/BigQueueImpl.java:95-98 | re-encoding the long read from 8 bytes gives those bytes back |
| BigEndian.IntRoundTrip | src/main/java/com/leansoft/bigqueue/BigArrayImpl.java:364-365 | `getInt` returns the int `putInt` stored |
| IndexLayout.IndexItemOffset | src/main/java/com/leansoft/bigqueue/BigArrayImpl.java:359 | a slot offset is a multiple of 32, and the whole slot fits in its index page |
| IndexLayout.SlotDecomposition | src/main/java/com/leansoft/bigqueue/BigArrayImpl.java:357-359 | the page index and the slot offset together determine the position |
| IndexLayout.SlotsDisjoint | src/main/java/com/leansoft/bigqueue/BigArrayImpl.java:357-359 | distinct positions own non-overlapping slots |
| IndexLayout.IndexPageMonotone | src/main/java/com/leansoft/bigqueue/BigArrayImpl.java:239-244 | later positions never live in earlier index pages |
| IndexLayout.EncodeIndexItem | src/main/java/com/leansoft/bigqueue/BigArrayImpl.java:362-367 | the four record puts fill the first 24 bytes of the slot |
| IndexLayout.DecodeIndexItem | src/main/java/com/leansoft/bigqueue/BigArrayImpl.java:429-436 | decoding a slot yields fields in their Java ranges |
| IndexLayout.IndexItemRoundTrip | src/main/java/com/leansoft/bigqueue/BigArrayImpl.java:362-367 | a slot whose first 24 bytes hold a record decodes to that record, whatever the padding holds |
| IndexLayout.IndexSlot | src/main/java/com/leansoft/bigqueue/BigArrayImpl.java:462-478 | `getIndexItemBuffer` yields a whole 32-byte slot |
| IndexLayout.ReadIndexItem | src/main/java/com/leansoft/bigqueue/BigArrayImpl.java:428-431 | the record read from position i's slot has a long data page, int offset, int length and long timestamp |
| IndexLayout.UnwrittenSlot | src/main/java/com/leansoft/bigqueue/BigArrayImpl.java:428-431 | a slot whose index page is not on disk reads as the all-zero record: page 0, offset 0, an empty item, timestamp 0 |
| IndexLayout.DataItemLengthAt | src/main/java/com/leansoft/bigqueue/BigArrayImpl.java:695-703 | the int at byte 12 is the record's length field |
| IndexLayout.TimestampAt | src/main/java/com/leansoft/bigqueue/BigArrayImpl.java:451-455 | the long at byte 16 is the record's timestamp field |
| IndexLayout.WriteIndexItem | src/main/java/com/leansoft/bigqueue/BigArrayImpl.java:357-368 | the record write keeps the factory an index page factory |
| IndexLayout.ReadAfterWriteIndexItem | src/main/java/com/leansoft/bigqueue/BigArrayImpl.java:357-368 | after the record write, position i reads the record, and every other position reads as before |
| IndexLayout.ReadIndexItemAfterDelete | src/main/java/com/leansoft/bigqueue/BigArrayImpl.java:243-244 | deleting index pages below n keeps every record stored in page n or later |
| IndexLayout.PutIndexItem | src/main/java/com/leansoft/bigqueue/BigArrayImpl.java:357-368 | the record write, as the array sees it: i reads the record, all else unchanged |
| IndexLayout.MetaHead | src/main/java/com/leansoft/bigqueue/BigArrayImpl.java:282-290 | `initArrayIndex` reads a long head from bytes 0-8 of meta page 0 |
| IndexLayout.MetaTail | src/main/java/com/leansoft/bigqueue/BigArrayImpl.java:282-290 | and a long tail from bytes 8-16 |
| IndexLayout.WriteMeta | src/main/java/com/leansoft/bigqueue/BigArrayImpl.java:374-378 | the meta write of `append` is read back as that head and tail |
| IndexLayout.PutMeta | src/main/java/com/leansoft/bigqueue/BigArrayImpl.java:374-378 | the same, as a page write |
| IndexLayout.EmptyMeta | src/main/java/com/leansoft/bigqueue/BigArrayImpl.java:282-290 | a fresh or cleared directory reads head 0 and tail 0 |
| ClosestSearch.TimestampOf | src/main/java/com/leansoft/bigqueue/BigArrayImpl.java:446-460 | `getTimestamp` throws IndexOutOfBounds exactly for indexes `validateIndex` rejects, and otherwise returns the record's timestamp |
| ClosestSearch.TimestampReader | src/main/java/com/leansoft/bigqueue/BigArrayImpl.java:602 | the reader the search calls is `getTimestamp` at every index |
| ClosestSearch.Midpoint | src/main/java/com/leansoft/bigqueue/BigArrayImpl.java:592-600 | the overflow-guarded midpoint is the exact floor midpoint, within [low, high] |
| ClosestSearch.ClosestBinarySearch | src/main/java/com/leansoft/bigqueue/BigArrayImpl.java:591-619 | any answer lies in [low, high], and the search succeeds when every timestamp read in range succeeds |
| ClosestSearch.ClosestBinarySearchError | src/main/java/com/leansoft/bigqueue/BigArrayImpl.java:591-619 | a failed search fails with the exception of some `getTimestamp` within [low, high] |
| ClosestSearch.ClosestBinarySearchFindsExact | src/main/java/com/leansoft/bigqueue/BigArrayImpl.java:591-619 | over sorted timestamps, a timestamp that occurs is found exactly |
| ClosestSearch.LastIndex | src/main/java/com/leansoft/bigqueue/BigArrayImpl.java:568-571 | head - 1, wrapped to Long.MAX_VALUE, is a position |
| ClosestSearch.SearchBothParts | src/main/java/com/leansoft/bigqueue/BigArrayImpl.java:574-583 | the two-part search of a wrapped ring returns a valid index, and succeeds when both parts are readable |
| ClosestSearch.ClosestIndexAsWritten | src/main/java/com/leansoft/bigqueue/BigArrayImpl.java:561-589 | as written: NOT_FOUND on an empty ring, and any other answer is a valid index |
| ClosestSearch.ClosestIndex | src/main/java/com/leansoft/bigqueue/BigArrayImpl.java:561-589 | corrected: NOT_FOUND on an empty ring, and always a valid index otherwise |
| ClosestSearch.ClosestIndexFindsExact | src/main/java/com/leansoft/bigqueue/BigArrayImpl.java:561-589 | over non-decreasing timestamps, the closest index of a timestamp that occurs holds that timestamp |
| ClosestSearch.ClosestIndexAsWrittenAgrees | src/main/java/com/leansoft/bigqueue/BigArrayImpl.java:572 | the corrected and the as-written test agree on every ring except one with a single item |
| ClosestSearch.ClosestIndexAsWrittenFailsOnSingleItem | src/main/java/com/leansoft/bigqueue/BigArrayImpl.java:572 | with a single item at tail, as written throws IndexOutOfBounds, corrected returns tail |
| BigArray.Window | src/main/java/com/leansoft/bigqueue/BigQueueImpl.java:192-206 | the items read from lo up to hi: hi - lo of them, the k-th being what was appended at lo + k |
| BigArray.WindowAdvance | src/main/java/com/leansoft/bigqueue/BigQueueImpl.java:117-144 | reading on from the next cursor is reading on without the first item |
| BigArray.ImageAt | src/main/java/com/leansoft/bigqueue/BigArrayImpl.java:421-444 | every position in range has a record that locates exactly its appended bytes and timestamp |
| BigArray.ImagePrefix | src/main/java/com/leansoft/bigqueue/BigArrayImpl.java:325-397 | every prefix of the appended range is itself consistent |
| BigArray.ImageSuffix | src/main/java/com/leansoft/bigqueue/BigArrayImpl.java:231-252 | every suffix of the range, as left by a truncation, is consistent |
| BigArray.EndsByPointer | src/main/java/com/leansoft/bigqueue/BigArrayImpl.java:339-355 | every record ends at or before the data write pointer |
| BigArray.PagesOrdered | src/main/java/com/leansoft/bigqueue/BigArrayImpl.java:339-342 | data pages never decrease from tail to head |
| BigArray.ImageTransfer | src/main/java/com/leansoft/bigqueue/BigArrayImpl.java:350-353 | the array stays consistent under a page change that keeps every record's bytes |
| BigArray.ImageUpdateAbove | src/main/java/com/leansoft/bigqueue/BigArrayImpl.java:347 | records at or above head do not affect the range |
| BigArray.PointerInPage | src/main/java/com/leansoft/bigqueue/BigArrayImpl.java:339-355 | the write pointer lies inside a data page no later than head |
| BigArray.InitDataPointerOfImage | src/main/java/com/leansoft/bigqueue/BigArrayImpl.java:293-319 | on reopening, `initDataPageIndex` recovers the write pointer the last append left |
| BigArray.Placement | src/main/java/com/leansoft/bigqueue/BigArrayImpl.java:339-345 | corrected rollover: an item is placed at the pointer when it fits, else at offset 0 of the next page, and it always fits its page |
| BigArray.PlacementAsWritten | src/main/java/com/leansoft/bigqueue/BigArrayImpl.java:339-342 | as written: the pointer stays or moves to offset 0 of the next page, and the decision is the corrected one whenever offset + length fits an int |
| BigArray.PlacementAsWrittenOverflows | src/main/java/com/leansoft/bigqueue/BigArrayImpl.java:339 | as written, the int sum wraps, and an item is placed at the pointer although it does not fit there (the `put` then throws BufferOverflowException); corrected, it goes to offset 0 of the next page |
| BigArray.PlacementAsWrittenAgrees | src/main/java/com/leansoft/bigqueue/BigArrayImpl.java:339 | as written and corrected agree whenever offset + length fits an int |
| BigArray.IndexHoldsAfterWrite | src/main/java/com/leansoft/bigqueue/BigArrayImpl.java:357-368 | writing head's record extends the held records to [tail, head + 1) |
| BigArray.AppendKeepsImage | src/main/java/com/leansoft/bigqueue/BigArrayImpl.java:325-397 | `append` keeps the array consistent, with one more position, and the write pointer at the new record's end |
| BigArray.RemoveBeforeKeepsImage | src/main/java/com/leansoft/bigqueue/BigArrayImpl.java:231-252 | deleting the index and data pages before position i leaves [i, head) readable, with the same write pointer |
| BigArray.TruncationPoint | src/main/java/com/leansoft/bigqueue/BigArrayImpl.java:661-674 | the truncation scan, with its running total wrapped as a long, stops within [tail, head] |
| BigArray.WriteRecord | src/main/java/com/leansoft/bigqueue/BigArrayImpl.java:350-378 | the page writes of `append`: data, index and meta pages then hold [tail, head + 1), and the meta page reads back head + 1 and tail |
| BigArray.DeleteBefore | src/main/java/com/leansoft/bigqueue/BigArrayImpl.java:239-249 | the page deletions of `removeBeforeIndex`, as `TruncatedBefore` states them: pages left hold [i, head) |
| BigArray.ScanForTruncation | src/main/java/com/leansoft/bigqueue/BigArrayImpl.java:661-674 | the scan loop stops where TruncationPoint says |
| BigArray.BigArrayImpl.EntriesCover | src/main/java/com/leansoft/bigqueue/BigArrayImpl.java:480-490 | tail <= head, both positions, and every position in range has its appended entry |
| BigArray.BigArrayImpl.ValidatePageSize | src/main/java/com/leansoft/bigqueue/BigArrayImpl.java:180-182 | IllegalArgument exactly for page sizes below MINIMUM_DATA_PAGE_SIZE |
| BigArray.BigArrayImpl.Open | src/main/java/com/leansoft/bigqueue/BigArrayImpl.java:165-213 | opening consistent page factories yields a valid array with the persisted head and tail, and the write pointer `initDataPageIndex` computes |
| BigArray.BigArrayImpl.InitArrayIndex | src/main/java/com/leansoft/bigqueue/BigArrayImpl.java:282-290 | head and tail are read from the meta page |
| BigArray.BigArrayImpl.InitDataPageIndex | src/main/java/com/leansoft/bigqueue/BigArrayImpl.java:293-319 | the write pointer is (0, 0) on an empty array, otherwise the end of the record at head - 1 |
| BigArray.InitDataPointer | src/main/java/com/leansoft/bigqueue/BigArrayImpl.java:293-319 | the recomputed pointer has a long page and an int offset (the offset sum wraps as an int); InitDataPointerOfImage shows it is the image's pointer |
| BigArray.BigArrayImpl.ValidateIndex | src/main/java/com/leansoft/bigqueue/BigArrayImpl.java:480-490 | no exception exactly for indexes in [tail, head), or outside [head, tail) once wrapped; otherwise IndexOutOfBounds |
| BigArray.BigArrayImpl.Size | src/main/java/com/leansoft/bigqueue/BigArrayImpl.java:492-499 | the number of valid indexes, which are exactly [tail, tail + size) |
| BigArray.BigArrayImpl.IsEmpty | src/main/java/com/leansoft/bigqueue/BigArrayImpl.java:520-527 | empty exactly when size is 0, and exactly when no index is valid |
| BigArray.BigArrayImpl.Get | src/main/java/com/leansoft/bigqueue/BigArrayImpl.java:421-444 | `get` succeeds exactly on valid indexes, returning the bytes appended there; otherwise IndexOutOfBounds |
| BigArray.BigArrayImpl.GetTimestamp | src/main/java/com/leansoft/bigqueue/BigArrayImpl.java:446-460 | succeeds exactly on valid indexes, returning the append's clock reading |
| BigArray.BigArrayImpl.GetItemLength | src/main/java/com/leansoft/bigqueue/BigArrayImpl.java:683-693 | succeeds exactly on valid indexes, returning the appended length |
| BigArray.BigArrayImpl.FindClosestIndex | src/main/java/com/leansoft/bigqueue/BigArrayImpl.java:561-589 | corrected behaviour (Findings, BigArrayImpl.java:572): NOT_FOUND on an empty array, otherwise a valid index |
| BigArray.BigArrayImpl.Append | src/main/java/com/leansoft/bigqueue/BigArrayImpl.java:325-397 | corrected placement (Findings, BigArrayImpl.java:339): returns the old head, and head moves up by one. The new position holds the data and the clock reading; all others are unchanged. The record is where Placement puts it, and the meta page persists head and tail. The array stays valid |
| BigArray.BigArrayImpl.RemoveBeforeIndex | src/main/java/com/leansoft/bigqueue/BigArrayImpl.java:231-252 | IndexOutOfBounds and no change for an invalid index. Otherwise tail moves to it, and the pages before its index page and its data page are deleted. The meta page is not rewritten. Every remaining position reads as before |
| BigArray.BigArrayImpl.PersistTail | src/main/java/com/leansoft/bigqueue/BigArrayImpl.java:373-377 | writes head and tail to the meta page, as `append` does, keeping the array valid |
| BigArray.BigArrayImpl.RemoveBeforeIndexPersisted | src/main/java/com/leansoft/bigqueue/BigArrayImpl.java:231-252 | corrected `removeBeforeIndex`: IndexOutOfBounds and no change exactly for an invalid index; otherwise tail moves to it, the index pages before its index page and the data pages before its data page are deleted, head, records and every appended item are kept, and the meta page holds the new head and tail |
| BigArray.BigArrayImpl.Reopenable | src/main/java/com/leansoft/bigqueue/BigArrayImpl.java:165-213 | an array whose meta page holds its tail meets what `Open` requires, and `initDataPageIndex` recomputes its write pointer |
| BigArray.ReopenAfterRemoveBeforeIndexAsWritten | src/main/java/com/leansoft/bigqueue/BigArrayImpl.java:250 | as written: once index page 0 is deleted while the meta tail is still 0, position 0 reads a zero-length record, so the pages no longer hold [meta tail, meta head) |
| BigArray.BigArrayImpl.RemoveBefore | src/main/java/com/leansoft/bigqueue/BigArrayImpl.java:260-279 | tail moves to the first slot of the page found (page index * 2^17 as a long), when that page index is non-negative and the slot is valid, and the index and data pages before that slot are deleted as `removeBeforeIndex` deletes them, with the meta page and records kept; otherwise nothing changes |
| BigArray.BigArrayImpl.RemoveAll | src/main/java/com/leansoft/bigqueue/BigArrayImpl.java:216-228 | all pages are deleted, head = tail = 0, and every `get` throws IndexOutOfBounds |
| BigArray.BigArrayImpl.LimitBackFileSize | src/main/java/com/leansoft/bigqueue/BigArrayImpl.java:634-680 | no change on an early return (the excess is a wrapping long difference). Otherwise tail moves to where the scan stops and the back files before it are deleted (the index pages before its index page, the data pages before its data page), with the meta page and records kept; a scan that reaches head throws IndexOutOfBounds and changes nothing |
| BigArray.BigArrayImpl.LimitIsNoOp | src/main/java/com/leansoft/bigqueue/BigArrayImpl.java:634-647 | the early returns: when none applies, the exact excess of the backing size over the limit is a long of at least one data page |
| FrontIndex.ReadFront | src/main/java/com/leansoft/bigqueue/BigQueueImpl.java:95-99 | the front read from page 0 is a long |
| FrontIndex.WriteFront | src/main/java/com/leansoft/bigqueue/BigQueueImpl.java:135-138 | persisting the front keeps an 8-byte front page factory |
| FrontIndex.FrontRoundTrip | src/main/java/com/leansoft/bigqueue/BigQueueImpl.java:135-138 | a persisted front is what the next read returns, and no other page changes |
| FrontIndex.PersistReadFront | src/main/java/com/leansoft/bigqueue/FanOutQueueImpl.java:428-431 | persisting the front just read leaves the page as it was |
| FrontIndex.FreshFront | src/main/java/com/leansoft/bigqueue/BigQueueImpl.java:92-99 | a directory without a front file reads front 0 |
| FrontIndex.PutFront | src/main/java/com/leansoft/bigqueue/FanOutQueueImpl.java:464-470 | the front page write reads back the front |
| BigQueue.BigQueueImpl.constructor | src/main/java/com/leansoft/bigqueue/BigQueueImpl.java:87-100 | the queue opens with the persisted front, and is valid |
| BigQueue.BigQueueImpl.IsEmpty | src/main/java/com/leansoft/bigqueue/BigQueueImpl.java:103-106 | empty exactly when no item is queued |
| BigQueue.BigQueueImpl.Size | src/main/java/com/leansoft/bigqueue/BigQueueImpl.java:260-268 | `size()` is the number of queued items |
| BigQueue.BigQueueImpl.Peek | src/main/java/com/leansoft/bigqueue/BigQueueImpl.java:170-176 | `null` exactly on an empty queue, otherwise the first queued item |
| BigQueue.BigQueueImpl.Enqueue | src/main/java/com/leansoft/bigqueue/BigQueueImpl.java:109-113 | the data joins the back of the queue, and the size grows by one |
| BigQueue.BigQueueImpl.Dequeue | src/main/java/com/leansoft/bigqueue/BigQueueImpl.java:117-144 | returns what `peek` would. An empty queue is unchanged. Otherwise the first item leaves, and the advanced front is persisted |
| BigQueue.BigQueueImpl.AdvanceFront | src/main/java/com/leansoft/bigqueue/BigQueueImpl.java:124-138 | the front advances with wrap-around and is persisted; the queue loses its first item |
| BigQueue.BigQueueImpl.RemoveAll | src/main/java/com/leansoft/bigqueue/BigQueueImpl.java:155-167 | the array is emptied, and the front is 0 and persisted as 0 |
| BigQueue.BigQueueImpl.Gc | src/main/java/com/leansoft/bigqueue/BigQueueImpl.java:233-245 | the tail moves up to front - 1 when that is past it, deleting the index and data pages before it as `removeBeforeIndex` does; otherwise the array is unchanged. The queue keeps every item |
| BigQueue.BigQueueImpl.ApplyForEach | src/main/java/com/leansoft/bigqueue/BigQueueImpl.java:192-206 | corrected: the iterator is handed exactly the queued items, in order, and nothing changes |
| BigQueue.BigQueueImpl.ApplyForEachAsWritten | src/main/java/com/leansoft/bigqueue/BigQueueImpl.java:192-206 | as written: the iterator gets a prefix of the queued items, whose length is ForEachCountAsWritten |
| BigQueue.ForEachCountAsWritten | src/main/java/com/leansoft/bigqueue/BigQueueImpl.java:200 | the as-written loop never visits more than the queued items |
| BigQueue.ApplyForEachAsWrittenMisses | src/main/java/com/leansoft/bigqueue/BigQueueImpl.java:200 | once the tail has left 0, the as-written loop misses items of a non-empty queue |
| FanOutQueue.AdjustedIndex | src/main/java/com/leansoft/bigqueue/FanOutQueueImpl.java:435-443 | the adjusted cursor is at head or valid. A cursor already there is kept; any other goes to tail |
| FanOutQueue.AdjustedIndexIdempotent | src/main/java/com/leansoft/bigqueue/FanOutQueueImpl.java:435-443 | adjusting twice is adjusting once |
| FanOutQueue.CursorInRangeAfterMoves | src/main/java/com/leansoft/bigqueue/FanOutQueueImpl.java:452-462 | a cursor in range stays in range after an append, and after advancing from a valid index |
| FanOutQueue.QueueFront.constructor | src/main/java/com/leansoft/bigqueue/FanOutQueueImpl.java:415-433 | the cursor is the persisted front, adjusted, and persisted |
| FanOutQueue.QueueFront.ValidateAndAdjustIndex | src/main/java/com/leansoft/bigqueue/FanOutQueueImpl.java:435-443 | the cursor becomes its adjusted value, persisted; the page is untouched when the cursor is kept |
| FanOutQueue.QueueFront.ResetIndex | src/main/java/com/leansoft/bigqueue/FanOutQueueImpl.java:446-450 | the cursor is tail, persisted |
| FanOutQueue.QueueFront.IncrementIndex | src/main/java/com/leansoft/bigqueue/FanOutQueueImpl.java:452-462 | the cursor advances with wrap-around, persisted |
| FanOutQueue.QueueFront.ReadAndAdvance | src/main/java/com/leansoft/bigqueue/FanOutQueueImpl.java:130-162 | nothing is returned at head. Otherwise the item at the cursor is returned and the cursor advances. A cursor out of range is retried from tail, and the retry throws on an empty array |
| FanOutQueue.QueueFront.PersistIndex | src/main/java/com/leansoft/bigqueue/FanOutQueueImpl.java:464-470 | the page then holds the cursor |
| FanOutQueue.FanOutQueueImpl.Cursor | src/main/java/com/leansoft/bigqueue/FanOutQueueImpl.java:92-104 | the cursor `getQueueFront` hands out is a position |
| FanOutQueue.FanOutQueueImpl.constructor | src/main/java/com/leansoft/bigqueue/FanOutQueueImpl.java:71-74 | the queue opens with no cursors |
| FanOutQueue.FanOutQueueImpl.GetQueueFront | src/main/java/com/leansoft/bigqueue/FanOutQueueImpl.java:92-104 | IllegalArgument exactly for an unknown id that is not a valid folder name. Otherwise it returns the cached cursor, or a fresh adjusted one that is cached. No other cursor changes |
| FanOutQueue.FanOutQueueImpl.IsEmptyFor | src/main/java/com/leansoft/bigqueue/FanOutQueueImpl.java:107-117 | true exactly when the id's cursor is at head; the cursor map changes at most at this id |
| FanOutQueue.FanOutQueueImpl.Enqueue | src/main/java/com/leansoft/bigqueue/FanOutQueueImpl.java:125-127 | appends, returning the position; every cursor stays in range |
| FanOutQueue.FanOutQueueImpl.Dequeue | src/main/java/com/leansoft/bigqueue/FanOutQueueImpl.java:130-162 | the id's item at its cursor, with that cursor advanced, the truncation retry included; only that id's cursor changes |
| FanOutQueue.FanOutQueueImpl.DequeueAt | src/main/java/com/leansoft/bigqueue/FanOutQueueImpl.java:138-160 | the same, once the cursor exists |
| FanOutQueue.FanOutQueueImpl.Peek | src/main/java/com/leansoft/bigqueue/FanOutQueueImpl.java:165-179 | `null` at head, otherwise the item at the cursor, or IndexOutOfBounds for a cursor out of range; no cursor moves, and the cursor map changes at most at this id (caching a new cursor) |
| FanOutQueue.FanOutQueueImpl.PeekLength | src/main/java/com/leansoft/bigqueue/FanOutQueueImpl.java:182-195 | -1 at head, otherwise the item's length, or IndexOutOfBounds; the cursor map changes at most at this id |
| FanOutQueue.FanOutQueueImpl.PeekTimestamp | src/main/java/com/leansoft/bigqueue/FanOutQueueImpl.java:198-211 | -1 at head, otherwise the item's append time, or IndexOutOfBounds; the cursor map changes at most at this id |
| FanOutQueue.FanOutQueueImpl.ResetQueueFrontIndex | src/main/java/com/leansoft/bigqueue/FanOutQueueImpl.java:293-316 | the cursor moves to index exactly when index is head or valid; otherwise IndexOutOfBounds and the cursor stays |
| FanOutQueue.FanOutQueueImpl.ResetAt | src/main/java/com/leansoft/bigqueue/FanOutQueueImpl.java:299-311 | the same, once the cursor exists |
| FanOutQueue.FanOutQueueImpl.SizeFor | src/main/java/com/leansoft/bigqueue/FanOutQueueImpl.java:319-335 | the ring distance from the id's cursor to head, which is head - cursor for a cursor in range; the cursor map changes at most at this id |
| FanOutQueue.FanOutQueueImpl.SizeAt | src/main/java/com/leansoft/bigqueue/FanOutQueueImpl.java:324-330 | the same, once the cursor exists |
| FanOutQueue.FanOutQueueImpl.GetFrontIndexFor | src/main/java/com/leansoft/bigqueue/FanOutQueueImpl.java:484-494 | the id's cursor; the cursor map changes at most at this id |
| FanOutQueue.FanOutQueueImpl.GetFrontIndex | src/main/java/com/leansoft/bigqueue/FanOutQueueImpl.java:474-476 | the array's tail: readable unless the array is empty, and exactly size below the rear |
| FanOutQueue.FanOutQueueImpl.GetRearIndex | src/main/java/com/leansoft/bigqueue/FanOutQueueImpl.java:479-481 | the array's head, where nothing is readable |
| FanOutQueue.FanOutQueueImpl.FindClosestIndex | src/main/java/com/leansoft/bigqueue/FanOutQueueImpl.java:275-290 | corrected behaviour (Findings, BigArrayImpl.java:572): rear for LATEST and front for EARLIEST. Otherwise the array's answer, which is NOT_FOUND only for an empty array; every answer is one `resetQueueFrontIndex` accepts |
| FanOutQueue.FanOutQueueImpl.RemoveBefore | src/main/java/com/leansoft/bigqueue/FanOutQueueImpl.java:230-246 | the array's `removeBefore` (tail moved and the pages before it deleted, or no change to the array), then every cursor adjusted; all cursors end in range |
| FanOutQueue.FanOutQueueImpl.LimitBackFileSize | src/main/java/com/leansoft/bigqueue/FanOutQueueImpl.java:249-267 | the array's `limitBackFileSize`: head and every item kept, no change on an early return, otherwise the tail moves to where the scan stops and the pages before it are deleted. Then every cursor is adjusted into range. When the array throws, neither the array nor any cursor changes |
| FanOutQueue.FanOutQueueImpl.AdjustCursors | src/main/java/com/leansoft/bigqueue/FanOutQueueImpl.java:235-242 | every cursor is adjusted against the array's tail and head, and ends in range |
| FanOutQueue.FanOutQueueImpl.AdjustAt | src/main/java/com/leansoft/bigqueue/FanOutQueueImpl.java:236-241 | one cursor adjusted, the others unchanged |
| FanOutQueue.FanOutQueueImpl.RemoveAll | src/main/java/com/leansoft/bigqueue/FanOutQueueImpl.java:378-396 | every cursor is 0 and persisted, and the array is empty |
| FanOutQueue.FanOutQueueImpl.ZeroCursors | src/main/java/com/leansoft/bigqueue/FanOutQueueImpl.java:382-390 | every cursor set to 0 and persisted |
| FanOutQueue.FanOutQueueImpl.ZeroAt | src/main/java/com/leansoft/bigqueue/FanOutQueueImpl.java:384-386 | one cursor set to 0, the others unchanged |

## Left out

- Locks, `AtomicLong`, futures (`dequeueAsync`, `peekAsync`, `completeFutures`) and the listeners: no concurrency is modelled.
- Memory mapping, page caching and release, `flush`, `close` and `getArrayDirectory` are not modelled. Neither are the paths of the page directories.
- `isFull()` is not modelled; it returns `false` unconditionally.
- `BigArray.BigArrayImpl.Append`: requires head < Long.MAX_VALUE. At Long.MAX_VALUE, `incrementAndGet` would take head to Long.MIN_VALUE, a state no other operation accepts; only the queue fronts wrap back to 0 (`Ring.Next`).
- `BigArray.BigArrayImpl.Append`: requires data to fit one data page (`|data| <= DATA_PAGE_SIZE`). The source does not check this: a larger item moves the data pointer to the next page, then the `put` throws BufferOverflowException before head moves, which the model does not follow.
- `BigArray.BigArrayImpl.Append`: models the corrected rollover of Findings row BigArrayImpl.java:339 (`Placement`). Where offset + length passes Integer.MAX_VALUE the source skips the rollover and the `put` throws BufferOverflowException, although the item fits a fresh page.
- `BigArray.BigArrayImpl.FindClosestIndex`: models the corrected test of Findings row BigArrayImpl.java:572 (`ClosestIndex`). On an array with a single item the source throws IndexOutOfBounds instead of returning that item's index.
- `FanOutQueue.FanOutQueueImpl.FindClosestIndex`: delegates to `BigArray.BigArrayImpl.FindClosestIndex`, so it models the same corrected test; on a single-item array the source throws IndexOutOfBounds.
- `BigArray.BigArrayImpl.Open`: takes page factories already opened, with the ghost records and entries they hold. The directory handling of the constructor is not modelled, and the page size check is the separate `ValidatePageSize`.
- `BigArray.BigArrayImpl.LimitBackFileSize`: reads the backing size once, as a parameter. The re-read under the write lock is not modelled.
- `BigArray.BigArrayImpl.RemoveBefore`: takes the answer of `getFirstPageIndexBefore` as a parameter, because that answer comes from file modification times.
- `getBackFileSize` and `_getBackFileSize` read file sizes, which are not modelled.
- `ClosestSearch.ClosestBinarySearch`: not modelled for low == high == Long.MAX_VALUE, where `mid + 1` overflows. That can only be reached on a wrapped ring whose tail is Long.MAX_VALUE, which the array model never produces.
- `ClosestSearch.SearchBothParts`: requires `tail < Long.MAX_VALUE`, for the same reason: the search of [tail, Long.MAX_VALUE] then never has low == high == Long.MAX_VALUE.
- `ClosestSearch.ClosestIndexAsWritten`: requires `tail < Long.MAX_VALUE` or an empty ring, for the same reason: the search of [tail, Long.MAX_VALUE] then never has low == high == Long.MAX_VALUE.
- `ClosestSearch.ClosestIndex`: requires `tail < Long.MAX_VALUE` or an empty ring, for the same reason: the search of [tail, Long.MAX_VALUE] then never has low == high == Long.MAX_VALUE.
- `ClosestSearch.ClosestIndexAsWrittenAgrees`: requires `tail < Long.MAX_VALUE` or an empty ring, for the same reason: the search of [tail, Long.MAX_VALUE] then never has low == high == Long.MAX_VALUE.
- `FanOutQueue.QueueFront.constructor`: the folder name check is made by `GetQueueFront` before the constructor is called, with the same IllegalArgument result.
- `FanOutQueue.FanOutQueueImpl.GetQueueFront`: `putIfAbsent` losing a race, and the release of the loser's pages, are not modelled.
- The delegations of `FanOutQueueImpl` are not modelled as members of their own: `get`, `getLength`, `getTimestamp`, `size()`, `isEmpty()` and `getBackFileSize`. They are `BigArray.BigArrayImpl.Get`, `GetItemLength`, `GetTimestamp`, `Size` and `IsEmpty` of `innerArray`.
- `BigQueue.BigQueueImpl.constructor`: requires the persisted front to lie between the array's tail and head, which the source assumes without checking.
- `BigQueue.BigQueueImpl.Gc`: follows the code, not the interface comment. It removes before front - 1, not before the front, so one consumed item is kept.
- `BigArray.BigArrayImpl.RemoveBeforeIndex`: follows the code. The new tail is not written to the meta page, so the meta tail may lag the tail (the invariant says only that it is at most the tail). `BigArray.BigArrayImpl.RemoveBeforeIndexPersisted` is the corrected operation (Findings, BigArrayImpl.java:250).
- `BigArray.BigArrayImpl.Open`: requires the index pages to hold the records of [meta tail, meta head). The state `removeBeforeIndex` leaves before the next `append` does not meet this when index pages were deleted (`BigArray.ReopenAfterRemoveBeforeIndexAsWritten`): the source reopens it and reads zeroed records as empty items, which the model does not follow. `BigArray.BigArrayImpl.Reopenable` shows that every array whose meta page holds its tail meets the requirement.
- `BigArray.BigArrayImpl.LimitBackFileSize`: follows the code. The exception of `removeBeforeIndex` when the scan reaches head is not caught, and it is the member's `Failed` outcome. The guard `INDEX_PAGE_SIZE + DATA_PAGE_SIZE` is an int sum and wraps as Java does.

## Findings

| source | as written | input that shows it | evidently intended | confidence | as-written member | corrected member |
|---|---|---|---|---|---|---|
| src/main/java/com/leansoft/bigqueue/BigArrayImpl.java:572 | `tailIndex < lastIndex` sends a ring with one item (head = tail + 1) to the two-part search for a wrapped ring, and one of those searches reads an invalid index | tail = 5, head = 6: `findClosestIndex(ts)` throws IndexOutOfBounds | `tailIndex <= lastIndex`: search [tail, head - 1] and return tail | not executed | ClosestSearch.ClosestIndexAsWrittenFailsOnSingleItem | ClosestSearch.ClosestIndex |
| src/main/java/com/leansoft/bigqueue/BigArrayImpl.java:339 | `headDataItemOffset + data.length` is an int sum; past Integer.MAX_VALUE it wraps negative and the rollover is skipped | data page size Integer.MAX_VALUE, offset 2^30, item of 2^30 bytes: the rollover is skipped, the `put` at offset 2^30 runs past the page's end and throws BufferOverflowException, and the append fails although the item fits a fresh page | compare as longs, so that the item moves to offset 0 of the next page and the append succeeds | not executed | BigArray.PlacementAsWrittenOverflows | BigArray.Placement |
| src/main/java/com/leansoft/bigqueue/BigArrayImpl.java:250 | `removeBeforeIndex` sets the tail in memory only; the meta page keeps the old tail until the next `append` | tail 0, 2^17 + 1 appends, `removeBeforeIndex(2^17)` (index page 0 deleted), reopen before any append: tail is 0 again and `get(0)` decodes a zeroed index record, an empty item | write head and tail to the meta page, as `append` does | not executed | BigArray.ReopenAfterRemoveBeforeIndexAsWritten | BigArray.BigArrayImpl.RemoveBeforeIndexPersisted |
| src/main/java/com/leansoft/bigqueue/BigQueueImpl.java:200 | `applyForEach` loops while `i < innerArray.size()`, that is head - tail, although i is a position | tail = front = 1, head = 3: one of the two queued items is visited | loop while `i < innerArray.getHeadIndex()` | not executed | BigQueue.BigQueueImpl.ApplyForEachAsWritten | BigQueue.BigQueueImpl.ApplyForEach |
