/** BigArrayImpl.java: an append-only ring of variable-length records over
    three page factories. Position i's 32-byte index record (IndexLayout)
    locates the record's bytes in a data page; the meta page persists head
    and tail. The ghost map `entries` remembers what each `append` was
    given, so that the object invariant can say that every position in
    range still reads back those bytes. */
module BigArray {
  import opened Java
  import opened Ring
  import opened PageStore
  import opened IndexLayout
  import opened ClosestSearch

  /** What one `append` was given: the bytes and the clock reading. */
  datatype Entry = Entry(data: Bytes, timestamp: int)

  /** A place in the data pages: a page index and a byte offset in it.
      The data write pointer (`headDataPageIndex`, `headDataItemOffset`) is one. */
  datatype DataPointer = DataPointer(page: int, offset: int)

  /** p is no later than q in the data pages. */
  predicate Precedes(p: DataPointer, q: DataPointer)
  {
    p.page < q.page || (p.page == q.page && p.offset <= q.offset)
  }

  /** Where a record's bytes start. */
  function Start(it: IndexItem): DataPointer
  {
    DataPointer(it.dataPageIndex, it.dataItemOffset)
  }

  /** Just past a record's bytes. */
  function End(it: IndexItem): DataPointer
  {
    DataPointer(it.dataPageIndex, it.dataItemOffset + it.dataItemLength)
  }

  /** `initDataPageIndex` on the index pages: on an empty array the pointer
      is (0, 0); otherwise it is the end of the record at head - 1, the
      offset summed as an int. */
  function InitDataPointer(index: Store, tail: int, head: int): (p: DataPointer)
    requires IndexStore(index)
    ensures IsLong(p.page) && IsInt(p.offset)
  {
    if tail == head then DataPointer(0, 0)
    else
      var it := ReadIndexItem(index, head - 1);
      DataPointer(it.dataPageIndex, WrapInt(it.dataItemOffset + it.dataItemLength))
  }

  /** The record `it` of position i locates entry e in the data pages; its
      data page is no later than i (each append moves to at most one new
      data page). */
  ghost predicate Located(data: Store, it: IndexItem, e: Entry, i: int)
    requires data.WellFormed()
  {
    0 <= it.dataPageIndex <= i && 0 <= it.dataItemOffset && it.dataItemLength == |e.data|
    && it.dataItemOffset + it.dataItemLength <= data.pageSize
    && data.Read(it.dataPageIndex, it.dataItemOffset, it.dataItemLength) == e.data
    && it.timestamp == e.timestamp
  }

  /** The index pages hold a record for every position in [tail, head):
      `records[i]` is in the slot of position i. */
  ghost predicate IndexHolds(index: Store, records: map<int, IndexItem>, tail: int, head: int)
  {
    IndexStore(index) && (forall i | tail <= i < head :: i in records)
    && forall i {:trigger ReadIndexItem(index, i)} | tail <= i < head :: ReadIndexItem(index, i) == records[i]
  }

  /** A consistent image of positions [tail, head), built one append at a
      time: [tail, tail) is one, and [tail, head) is one when [tail, head - 1)
      is one and position head - 1 has a record and an entry, the record
      locates the entry's bytes, and it starts at or after the end of the
      record before it (appends only move forward through the data pages). */
  ghost predicate Image(records: map<int, IndexItem>, data: Store, entries: map<int, Entry>, tail: int, head: int)
    requires data.WellFormed()
    decreases head - tail
  {
    tail == head
    || (tail < head && Image(records, data, entries, tail, head - 1)
        && head - 1 in records && head - 1 in entries
        && Located(data, records[head - 1], entries[head - 1], head - 1)
        && (tail < head - 1 ==> head - 2 in records && Precedes(End(records[head - 2]), Start(records[head - 1]))))
  }

  /** The write pointer of an image: the end of its last record, or (0, 0)
      when it is empty. */
  function PointerOf(records: map<int, IndexItem>, tail: int, head: int): DataPointer
    requires tail == head || head - 1 in records
  {
    if tail == head then DataPointer(0, 0) else End(records[head - 1])
  }

  /** The bytes appended at positions [lo, hi), oldest first: what a
      reader going from lo up to hi is handed. */
  ghost function Window(entries: map<int, Entry>, lo: int, hi: int): (w: seq<Bytes>)
    ensures |w| == if lo <= hi then hi - lo else 0
    ensures forall k | 0 <= k < |w| :: w[k] == DataAt(entries, lo + k)
    decreases hi - lo
  {
    if hi <= lo then [] else Window(entries, lo, hi - 1) + [DataAt(entries, hi - 1)]
  }

  /** What was appended at position i (nothing read back when there is no
      entry there). */
  ghost function DataAt(entries: map<int, Entry>, i: int): Bytes
  {
    if i in entries then entries[i].data else []
  }

  /** Reading on from lo + 1 is reading on from lo without the first item. */
  lemma WindowAdvance(entries: map<int, Entry>, lo: int, hi: int)
    requires lo < hi
    ensures Window(entries, lo + 1, hi) == Window(entries, lo, hi)[1..]
  {
  }

  /** Every position of an image has its record and entry, the record
      locates the entry, and it starts after the record before it. */
  lemma {:induction false} ImageAt(records: map<int, IndexItem>, data: Store, entries: map<int, Entry>,
                                   tail: int, head: int, i: int)
    requires data.WellFormed() && Image(records, data, entries, tail, head) && tail <= i < head
    ensures i in records && i in entries && Located(data, records[i], entries[i], i)
    ensures tail < i ==> i - 1 in records && Precedes(End(records[i - 1]), Start(records[i]))
    decreases head - i
  {
    if i < head - 1 {
      ImageAt(records, data, entries, tail, head - 1, i);
    }
  }

  /** A prefix [tail, h) of an image is an image. */
  lemma {:induction false} ImagePrefix(records: map<int, IndexItem>, data: Store, entries: map<int, Entry>,
                                       tail: int, head: int, h: int)
    requires data.WellFormed() && Image(records, data, entries, tail, head) && tail <= h <= head
    ensures Image(records, data, entries, tail, h)
    decreases head - h
  {
    if h < head {
      ImagePrefix(records, data, entries, tail, head - 1, h);
    }
  }

  /** A suffix [i, head) of an image is an image. */
  lemma {:induction false} ImageSuffix(records: map<int, IndexItem>, data: Store, entries: map<int, Entry>,
                                       tail: int, head: int, i: int)
    requires data.WellFormed() && Image(records, data, entries, tail, head) && tail <= i <= head
    ensures Image(records, data, entries, i, head)
    decreases head - i
  {
    if i < head {
      ImageSuffix(records, data, entries, tail, head - 1, i);
    }
  }

  /** Every record of an image ends by the write pointer. */
  lemma {:induction false} EndsByPointer(records: map<int, IndexItem>, data: Store, entries: map<int, Entry>,
                                         tail: int, head: int, i: int)
    requires data.WellFormed() && Image(records, data, entries, tail, head) && tail <= i < head
    ensures i in records && Precedes(End(records[i]), PointerOf(records, tail, head))
    decreases head - i
  {
    ImageAt(records, data, entries, tail, head, i);
    if i < head - 1 {
      EndsByPointer(records, data, entries, tail, head - 1, i);
      ImageAt(records, data, entries, tail, head, head - 1);
    }
  }

  /** Data pages never decrease along the positions of an image. */
  lemma PagesOrdered(records: map<int, IndexItem>, data: Store, entries: map<int, Entry>,
                     tail: int, head: int, i: int, j: int)
    requires data.WellFormed() && Image(records, data, entries, tail, head) && tail <= i <= j < head
    ensures i in records && j in records && records[i].dataPageIndex <= records[j].dataPageIndex
  {
    ImagePrefix(records, data, entries, tail, head, j + 1);
    EndsByPointer(records, data, entries, tail, j + 1, i);
  }

  /** An image stays one in data pages that read the same on the byte
      range of each of its records. */
  lemma {:induction false} ImageTransfer(records: map<int, IndexItem>, data: Store, data': Store,
                                         entries: map<int, Entry>, tail: int, head: int)
    requires data.WellFormed() && data'.WellFormed() && data'.pageSize == data.pageSize
    requires Image(records, data, entries, tail, head)
    requires forall i | tail <= i < head && i in records && i in entries && Located(data, records[i], entries[i], i) ::
      var r := records[i];
      data'.Read(r.dataPageIndex, r.dataItemOffset, r.dataItemLength) == data.Read(r.dataPageIndex, r.dataItemOffset, r.dataItemLength)
    ensures Image(records, data', entries, tail, head)
    decreases head - tail
  {
    if tail < head {
      ImageTransfer(records, data, data', entries, tail, head - 1);
    }
  }

  /** Records and entries of positions at or above h do not matter to an
      image of [tail, h). */
  lemma {:induction false} ImageUpdateAbove(records: map<int, IndexItem>, data: Store, entries: map<int, Entry>,
                                            tail: int, h: int, k: int, it: IndexItem, e: Entry)
    requires data.WellFormed() && Image(records, data, entries, tail, h) && h <= k
    ensures Image(records[k := it], data, entries[k := e], tail, h)
    decreases h - tail
  {
    if tail < h {
      ImageUpdateAbove(records, data, entries, tail, h - 1, k, it, e);
    }
  }

  /** The write pointer of an image lies within a data page no later than
      the last position. */
  lemma PointerInPage(records: map<int, IndexItem>, data: Store, entries: map<int, Entry>, tail: int, head: int)
    requires data.WellFormed() && Image(records, data, entries, tail, head) && 0 <= tail
    ensures var p := PointerOf(records, tail, head);
      0 <= p.page <= head && 0 <= p.offset <= data.pageSize && (tail < head ==> p.page < head)
  {
    if tail != head {
      ImageAt(records, data, entries, tail, head, head - 1);
    }
  }

  /** What `initDataPageIndex` reads back from index pages holding an image
      is the image's write pointer. */
  lemma InitDataPointerOfImage(index: Store, records: map<int, IndexItem>, data: Store, entries: map<int, Entry>,
                               tail: int, head: int)
    requires data.WellFormed() && IndexHolds(index, records, tail, head) && Image(records, data, entries, tail, head)
    requires data.pageSize <= INT_MAX
    ensures InitDataPointer(index, tail, head) == PointerOf(records, tail, head)
  {
    if tail != head {
      assert ReadIndexItem(index, head - 1) == records[head - 1];
      ImageAt(records, data, entries, tail, head, head - 1);
    }
  }

  /** Where `append` places an item of the given length: at the pointer when
      it fits in the current data page, else at the start of the next one.
      The item then always fits its page. */
  function Placement(p: DataPointer, length: int, pageSize: int): (q: DataPointer)
    requires 0 <= p.offset <= pageSize && 0 <= length <= pageSize
    ensures 0 <= q.offset && q.offset + length <= pageSize
    ensures q == p <==> p.offset + length <= pageSize
    ensures q != p ==> q == DataPointer(p.page + 1, 0)
  {
    if p.offset + length > pageSize then DataPointer(p.page + 1, 0) else p
  }

  /** The rollover test as written: `headDataItemOffset + data.length` is
      an int sum, which wraps to a negative value past Integer.MAX_VALUE. */
  function PlacementAsWritten(p: DataPointer, length: int, pageSize: int): (q: DataPointer)
    requires IsInt(p.offset) && IsInt(length)
    ensures q == p || q == DataPointer(p.page + 1, 0)
    ensures IsInt(p.offset + length) ==> (q == p <==> p.offset + length <= pageSize)
  {
    if WrapInt(p.offset + length) > pageSize then DataPointer(p.page + 1, 0) else p
  }

  /** With the largest allowed data page size, an item of 2^30 bytes at
      offset 2^30 is placed at the current pointer by the as-written test,
      although it does not fit there: `put` past the page's end throws
      BufferOverflowException, where a fresh page would have held it. */
  lemma PlacementAsWrittenOverflows()
    ensures var p := DataPointer(0, 0x4000_0000);
      var q := PlacementAsWritten(p, 0x4000_0000, INT_MAX);
      q == p && q.offset + 0x4000_0000 > INT_MAX
      && Placement(p, 0x4000_0000, INT_MAX) == DataPointer(1, 0)
  {
    assert WrapInt(0x8000_0000) == INT_MIN;
  }

  /** The two tests agree whenever the sum cannot overflow. */
  lemma PlacementAsWrittenAgrees(p: DataPointer, length: int, pageSize: int)
    requires 0 <= p.offset <= pageSize && 0 <= length <= pageSize
    requires p.offset + length <= INT_MAX
    ensures PlacementAsWritten(p, length, pageSize) == Placement(p, length, pageSize)
  {
  }

  /** Writing position head's record into the index pages extends what
      they hold by that record. */
  lemma IndexHoldsAfterWrite(index: Store, index': Store, records: map<int, IndexItem>, tail: int, head: int,
                             it: IndexItem)
    requires IndexHolds(index, records, tail, head) && IndexWritten(index, index', head, it)
    ensures IndexHolds(index', records[head := it], tail, head + 1)
  {
  }

  /** `append` on an image: with the bytes put where Placement puts them,
      at or after the write pointer, and their record added at head, the
      result is an image of [tail, head + 1) whose write pointer is the new
      record's end. */
  lemma AppendKeepsImage(records: map<int, IndexItem>, data: Store, entries: map<int, Entry>, tail: int, head: int,
                         bytes: Bytes, now: int, q: DataPointer, data': Store)
    requires data.WellFormed() && Image(records, data, entries, tail, head) && 0 <= tail
    requires |bytes| <= data.pageSize
    requires var p := PointerOf(records, tail, head);
      0 <= p.offset <= data.pageSize && q == Placement(p, |bytes|, data.pageSize)
    requires Written(data, data', q.page, q.offset, bytes)
    ensures var it := IndexItem(q.page, q.offset, |bytes|, now);
      Image(records[head := it], data', entries[head := Entry(bytes, now)], tail, head + 1)
      && PointerOf(records[head := it], tail, head + 1) == End(it)
  {
    var it := IndexItem(q.page, q.offset, |bytes|, now);
    PointerInPage(records, data, entries, tail, head);
    forall i | tail <= i < head && i in records && i in entries && Located(data, records[i], entries[i], i)
      ensures var r := records[i];
        data'.Read(r.dataPageIndex, r.dataItemOffset, r.dataItemLength) == data.Read(r.dataPageIndex, r.dataItemOffset, r.dataItemLength)
    {
      EndsByPointer(records, data, entries, tail, head, i);
    }
    ImageTransfer(records, data, data', entries, tail, head);
    ImageUpdateAbove(records, data', entries, tail, head, head, it, Entry(bytes, now));
  }

  /** `removeBeforeIndex(i)` on an image, for i in [tail, head): deleting
      the index pages before i's and the data pages before the one i's
      record uses leaves [i, head) held and consistent, with the same write
      pointer. */
  lemma RemoveBeforeKeepsImage(index: Store, records: map<int, IndexItem>, data: Store, entries: map<int, Entry>,
                               tail: int, head: int, i: int)
    requires data.WellFormed() && IndexHolds(index, records, tail, head) && Image(records, data, entries, tail, head)
    requires tail <= i < head
    ensures var index' := if IndexPageIndex(i) > 0 then index.DeletePagesBefore(IndexPageIndex(i)) else index;
      var d := records[i].dataPageIndex;
      var data' := if d > 0 then data.DeletePagesBefore(d) else data;
      IndexHolds(index', records, i, head) && Image(records, data', entries, i, head)
      && PointerOf(records, i, head) == PointerOf(records, tail, head)
  {
    var index' := if IndexPageIndex(i) > 0 then index.DeletePagesBefore(IndexPageIndex(i)) else index;
    var d := records[i].dataPageIndex;
    var data' := if d > 0 then data.DeletePagesBefore(d) else data;
    forall j | i <= j < head
      ensures ReadIndexItem(index', j) == records[j]
    {
      assert ReadIndexItem(index, j) == records[j];
      IndexPageMonotone(i, j);
      if IndexPageIndex(i) > 0 {
        ReadIndexItemAfterDelete(index, IndexPageIndex(i), j);
      }
    }
    ImageSuffix(records, data, entries, tail, head, i);
    forall j | i <= j < head && j in records && j in entries && Located(data, records[j], entries[j], j)
      ensures var r := records[j];
        data'.Read(r.dataPageIndex, r.dataItemOffset, r.dataItemLength) == data.Read(r.dataPageIndex, r.dataItemOffset, r.dataItemLength)
    {
      PagesOrdered(records, data, entries, tail, head, i, j);
    }
    ImageTransfer(records, data, data', entries, i, head);
  }

  /** The scan of `limitBackFileSize` over the records of [from, head):
      add up item lengths (and one index page each time the scan enters a
      new index page) and stop at the first position whose item takes the
      total past `toTruncate`, or at head. The total is a Java long, so the
      sums wrap. The result lies in [from, head]. */
  function TruncationPoint(records: map<int, IndexItem>, from: int, head: int, total: int, toTruncate: int): (t: int)
    requires from <= head && forall i | from <= i < head :: i in records
    ensures from <= t <= head
    decreases head - from
  {
    if from == head then head
    else
      var total' := WrapLong(total + records[from].dataItemLength);
      if total' > toTruncate then from
      else
        var next := from + 1;
        TruncationPoint(records, next, head,
                        if next % INDEX_ITEMS_PER_PAGE == 0 then WrapLong(total' + INDEX_PAGE_SIZE) else total', toTruncate)
  }

  /** The page writes of `append` at position head: the bytes go where
      Placement puts them, after the write pointer, and their record into
      head's index slot. The pages then hold an image of [tail, head + 1)
      whose write pointer is the new record's end. */
  method WriteRecord(index: Store, data: Store, meta: Store, ghost records: map<int, IndexItem>, ghost entries: map<int, Entry>,
                     tail: int, head: int, bytes: Bytes, now: int, q: DataPointer)
    returns (index': Store, data': Store, meta': Store)
    requires MetaStore(meta)
    requires data.WellFormed() && IndexHolds(index, records, tail, head) && Image(records, data, entries, tail, head)
    requires 0 <= tail && head < LONG_MAX && data.pageSize <= INT_MAX && |bytes| <= data.pageSize && IsLong(now)
    requires var p := PointerOf(records, tail, head);
      0 <= p.offset <= data.pageSize && q == Placement(p, |bytes|, data.pageSize)
    ensures var it := IndexItem(q.page, q.offset, |bytes|, now);
      var records', entries' := records[head := it], entries[head := Entry(bytes, now)];
      data'.WellFormed() && data'.pageSize == data.pageSize
      && IndexHolds(index', records', tail, head + 1) && Image(records', data', entries', tail, head + 1)
      && PointerOf(records', tail, head + 1) == End(it)
    ensures MetaStore(meta') && MetaHead(meta') == head + 1 && MetaTail(meta') == tail
  {
    PointerInPage(records, data, entries, tail, head);
    var item := IndexItem(q.page, q.offset, |bytes|, now);
    data' := Put(data, q.page, q.offset, bytes);
    index' := PutIndexItem(index, head, item);
    AppendKeepsImage(records, data, entries, tail, head, bytes, now, q, data');
    IndexHoldsAfterWrite(index, index', records, tail, head, item);
    meta' := PutMeta(meta, head + 1, tail);
  }

  /** The pages `removeBeforeIndex(i)` leaves behind: index' is index
      without the index pages before i's, and data' is data without the
      data pages before the one i's record uses (page 0 is never a
      boundary, so nothing goes when it is 0). */
  ghost predicate TruncatedBefore(index: Store, data: Store, records: map<int, IndexItem>, i: int, index': Store, data': Store)
    requires index.WellFormed() && data.WellFormed()
  {
    i in records
    && index' == (if IndexPageIndex(i) > 0 then index.DeletePagesBefore(IndexPageIndex(i)) else index)
    && data' == (var d := records[i].dataPageIndex; if d > 0 then data.DeletePagesBefore(d) else data)
  }

  /** The page deletions of `removeBeforeIndex(i)` for i in [tail, head):
      the index pages before i's and the data pages before the one i's
      record uses. The pages then hold an image of [i, head) with the same
      write pointer. */
  method DeleteBefore(index: Store, data: Store, ghost records: map<int, IndexItem>, ghost entries: map<int, Entry>,
                      tail: int, head: int, i: int)
    returns (index': Store, data': Store)
    requires data.WellFormed() && IndexHolds(index, records, tail, head) && Image(records, data, entries, tail, head)
    requires tail <= i < head
    ensures TruncatedBefore(index, data, records, i, index', data')
    ensures data'.WellFormed() && IndexHolds(index', records, i, head) && Image(records, data', entries, i, head)
    ensures PointerOf(records, i, head) == PointerOf(records, tail, head)
  {
    RemoveBeforeKeepsImage(index, records, data, entries, tail, head, i);
    var indexPageIndex := IndexPageIndex(i);
    var dataPageIndex := ReadIndexItem(index, i).dataPageIndex;
    assert ReadIndexItem(index, i) == records[i];
    index', data' := index, data;
    if indexPageIndex > 0 {
      index' := index.DeletePagesBefore(indexPageIndex);
    }
    if dataPageIndex > 0 {
      data' := data.DeletePagesBefore(dataPageIndex);
    }
  }

  /** `removeBeforeIndex` as written moves the tail but leaves the meta
      page as it was. Say the meta page still holds tail 0 and head > 0, and
      the removal deleted the index pages before a later one. Then the slot
      of position 0 reads as zeros (a record of length 0), so the pages no
      longer hold the records of [meta tail, meta head): the range a
      reopened array would accept again. */
  lemma ReopenAfterRemoveBeforeIndexAsWritten(index: Store, meta: Store, records: map<int, IndexItem>, i: int)
    requires IndexStore(index) && MetaStore(meta) && 0 < IndexPageIndex(i)
    requires MetaTail(meta) == 0 && 0 < MetaHead(meta)
    requires 0 in records && records[0].dataItemLength != 0
    ensures ReadIndexItem(index.DeletePagesBefore(IndexPageIndex(i)), 0).dataItemLength == 0
    ensures !IndexHolds(index.DeletePagesBefore(IndexPageIndex(i)), records, MetaTail(meta), MetaHead(meta))
  {
    var deleted := index.DeletePagesBefore(IndexPageIndex(i));
    UnwrittenSlot(deleted, 0);
  }

  class BigArrayImpl {
    /** `DATA_PAGE_SIZE` */
    const dataPageSize: DataPageSize
    /** The index, data and meta page factories. */
    var indexPages: Store
    var dataPages: Store
    var metaPages: Store
    /** `arrayHeadIndex`: the next position to append. */
    var arrayHeadIndex: int
    /** `arrayTailIndex`: the oldest position still readable. */
    var arrayTailIndex: int
    var headDataPageIndex: int
    var headDataItemOffset: int
    /** The index record of each position, as last written. */
    ghost var records: map<int, IndexItem>
    /** What was appended at each position. */
    ghost var entries: map<int, Entry>

    /** The object invariant. Head is only ever incremented and tail only
        ever moved to an index in range, so the ring never wraps here:
        tail <= head. The meta page holds the head; it holds the tail as of
        the last append, which `removeBeforeIndex` does not rewrite. */
    ghost predicate Valid()
      reads this
    {
      dataPages.pageSize == dataPageSize && dataPages.WellFormed() && MetaStore(metaPages) && 0 <= arrayTailIndex
      && IndexHolds(indexPages, records, arrayTailIndex, arrayHeadIndex)
      && Image(records, dataPages, entries, arrayTailIndex, arrayHeadIndex)
      && DataPointer(headDataPageIndex, headDataItemOffset) == PointerOf(records, arrayTailIndex, arrayHeadIndex)
      && MetaHead(metaPages) == arrayHeadIndex && MetaTail(metaPages) <= arrayTailIndex
    }

    /** Every position in range has its entry. */
    lemma EntriesCover()
      requires Valid()
      ensures 0 <= arrayTailIndex <= arrayHeadIndex <= LONG_MAX
      ensures forall i | arrayTailIndex <= i < arrayHeadIndex :: i in entries
    {
      forall i | arrayTailIndex <= i < arrayHeadIndex
        ensures i in entries
      {
        ImageAt(records, dataPages, entries, arrayTailIndex, arrayHeadIndex, i);
      }
    }

    /** The page size check of the constructor: IllegalArgumentException
        below MINIMUM_DATA_PAGE_SIZE. */
    static function ValidatePageSize(pageSize: int): (r: Outcome)
      requires IsInt(pageSize)
      ensures r == Done <==> MINIMUM_DATA_PAGE_SIZE <= pageSize
      ensures r.Failed? ==> r.error == IllegalArgument
    {
      if pageSize < MINIMUM_DATA_PAGE_SIZE then Failed(IllegalArgument) else Done
    }

    /** The constructor with `commonInit`, for a page size that passed
        ValidatePageSize: open the three page factories
        and read head, tail and the write pointer back from them. The
        factories must hold a consistent image of positions [tail, head)
        (a fresh directory, with no pages, is one). */
    constructor Open(dataPageSize: DataPageSize, indexPages: Store, dataPages: Store, metaPages: Store,
                     ghost records: map<int, IndexItem>, ghost entries: map<int, Entry>)
      requires dataPages.pageSize == dataPageSize && MetaStore(metaPages)
      requires 0 <= MetaTail(metaPages) && dataPages.WellFormed()
      requires IndexHolds(indexPages, records, MetaTail(metaPages), MetaHead(metaPages))
      requires Image(records, dataPages, entries, MetaTail(metaPages), MetaHead(metaPages))
      ensures Valid()
      ensures this.dataPageSize == dataPageSize && this.records == records && this.entries == entries
      ensures this.indexPages == indexPages && this.dataPages == dataPages && this.metaPages == metaPages
      ensures arrayHeadIndex == MetaHead(metaPages) && arrayTailIndex == MetaTail(metaPages)
      ensures DataPointer(headDataPageIndex, headDataItemOffset) == InitDataPointer(indexPages, arrayTailIndex, arrayHeadIndex)
    {
      this.dataPageSize := dataPageSize;
      this.indexPages := indexPages;
      this.dataPages := dataPages;
      this.metaPages := metaPages;
      this.records := records;
      this.entries := entries;
      new;
      InitArrayIndex();
      InitDataPageIndex();
      InitDataPointerOfImage(indexPages, records, dataPages, entries, arrayTailIndex, arrayHeadIndex);
    }

    /** `initArrayIndex`: head and tail are the two longs of meta page 0. */
    method InitArrayIndex()
      requires MetaStore(metaPages)
      modifies this`arrayHeadIndex, this`arrayTailIndex
      ensures arrayHeadIndex == MetaHead(metaPages) && arrayTailIndex == MetaTail(metaPages)
    {
      arrayHeadIndex := MetaHead(metaPages);
      arrayTailIndex := MetaTail(metaPages);
    }

    /** `initDataPageIndex`: the write pointer continues right after the
        record at head - 1, or starts at (0, 0) on an empty array. */
    method InitDataPageIndex()
      requires IndexStore(indexPages)
      modifies this`headDataPageIndex, this`headDataItemOffset
      ensures DataPointer(headDataPageIndex, headDataItemOffset) == InitDataPointer(indexPages, arrayTailIndex, arrayHeadIndex)
    {
      if arrayHeadIndex == arrayTailIndex {
        headDataPageIndex := 0;
        headDataItemOffset := 0;
      } else {
        var previous := ReadIndexItem(indexPages, arrayHeadIndex - 1);
        headDataPageIndex := previous.dataPageIndex;
        headDataItemOffset := WrapInt(previous.dataItemOffset + previous.dataItemLength);
      }
    }

    /** `validateIndex`: no exception exactly for the positions in range,
        [tail, head), or, once the ring has wrapped, outside [head, tail). */
    function ValidateIndex(index: int): (r: Outcome)
      reads this
      ensures arrayTailIndex <= arrayHeadIndex ==> (r == Done <==> arrayTailIndex <= index < arrayHeadIndex)
      ensures arrayHeadIndex < arrayTailIndex ==> (r == Done <==> !(arrayHeadIndex <= index < arrayTailIndex))
      ensures r.Failed? ==> r.error == IndexOutOfBounds
    {
      if ValidIndex(index, arrayTailIndex, arrayHeadIndex) then Done else Failed(IndexOutOfBounds)
    }

    /** `size()`: the number of positions in range. */
    function Size(): (n: int)
      reads this
      requires Valid()
      ensures 0 <= n <= LONG_MAX
      ensures forall i :: ValidIndex(i, arrayTailIndex, arrayHeadIndex) <==> arrayTailIndex <= i < arrayTailIndex + n
    {
      arrayHeadIndex - arrayTailIndex
    }

    /** `isEmpty()`. */
    function IsEmpty(): (b: bool)
      reads this
      requires Valid()
      ensures b <==> Size() == 0
      ensures b <==> forall i :: !ValidIndex(i, arrayTailIndex, arrayHeadIndex)
    {
      assert ValidIndex(arrayTailIndex, arrayTailIndex, arrayHeadIndex) <== arrayTailIndex != arrayHeadIndex;
      arrayHeadIndex == arrayTailIndex
    }

    /** `get(index)`: the bytes appended at a position in range. */
    function Get(index: int): (r: Result<Bytes>)
      reads this
      requires Valid()
      ensures r.Ok? <==> ValidIndex(index, arrayTailIndex, arrayHeadIndex)
      ensures r.Err? ==> r.error == IndexOutOfBounds
      ensures r.Ok? ==> index in entries && r.value == entries[index].data
    {
      if !ValidIndex(index, arrayTailIndex, arrayHeadIndex) then Err(IndexOutOfBounds)
      else
        var it := ReadIndexItem(indexPages, index);
        ImageAt(records, dataPages, entries, arrayTailIndex, arrayHeadIndex, index);
        assert it == records[index];
        Ok(dataPages.Read(it.dataPageIndex, it.dataItemOffset, it.dataItemLength))
    }

    /** `getTimestamp(index)`: the clock reading of the append. */
    function GetTimestamp(index: int): (r: Result<int>)
      reads this
      requires Valid()
      ensures r.Ok? <==> ValidIndex(index, arrayTailIndex, arrayHeadIndex)
      ensures r.Err? ==> r.error == IndexOutOfBounds
      ensures r.Ok? ==> index in entries && r.value == entries[index].timestamp
    {
      if ValidIndex(index, arrayTailIndex, arrayHeadIndex) then
        assert ReadIndexItem(indexPages, index) == records[index];
        ImageAt(records, dataPages, entries, arrayTailIndex, arrayHeadIndex, index);
        TimestampOf(indexPages, arrayTailIndex, arrayHeadIndex, index)
      else Err(IndexOutOfBounds)
    }

    /** `getItemLength(index)`: the length of the appended bytes, read from
        the length field of the record (`getDataItemLength`). */
    function GetItemLength(index: int): (r: Result<int>)
      reads this
      requires Valid()
      ensures r.Ok? <==> ValidIndex(index, arrayTailIndex, arrayHeadIndex)
      ensures r.Err? ==> r.error == IndexOutOfBounds
      ensures r.Ok? ==> index in entries && r.value == |entries[index].data|
    {
      if ValidIndex(index, arrayTailIndex, arrayHeadIndex) then
        assert ReadIndexItem(indexPages, index) == records[index];
        ImageAt(records, dataPages, entries, arrayTailIndex, arrayHeadIndex, index);
        Ok(DataItemLengthAt(indexPages, index))
      else Err(IndexOutOfBounds)
    }

    /** `findClosestIndex(timestamp)`, with the single binary search taken
        whenever tail <= head - 1 (see ClosestIndexAsWritten for the test as
        written). */
    function FindClosestIndex(timestamp: int): (r: Result<int>)
      reads this
      requires Valid() && IsLong(timestamp)
      ensures arrayTailIndex == arrayHeadIndex ==> r == Ok(NOT_FOUND)
      ensures arrayTailIndex != arrayHeadIndex ==> r.Ok? && ValidIndex(r.value, arrayTailIndex, arrayHeadIndex)
    {
      ClosestIndex(indexPages, arrayTailIndex, arrayHeadIndex, timestamp)
    }

    /** `append(data)` with `now` for `System.currentTimeMillis()`: place
        the bytes (on a new data page when they do not fit the current
        one), write the index record at head, advance head and persist
        (head, tail). Returns the position written. */
    method Append(data: Bytes, now: int) returns (index: int)
      requires Valid()
      requires |data| <= dataPageSize && IsLong(now)
      requires arrayHeadIndex < LONG_MAX
      modifies this
      ensures Valid()
      ensures index == old(arrayHeadIndex)
      ensures arrayHeadIndex == old(arrayHeadIndex) + 1 && arrayTailIndex == old(arrayTailIndex)
      ensures MetaHead(metaPages) == arrayHeadIndex && MetaTail(metaPages) == arrayTailIndex
      ensures entries == old(entries)[index := Entry(data, now)]
      ensures var placed := Placement(old(DataPointer(headDataPageIndex, headDataItemOffset)), |data|, dataPageSize);
        records == old(records)[index := IndexItem(placed.page, placed.offset, |data|, now)]
        && DataPointer(headDataPageIndex, headDataItemOffset) == End(records[index])
    {
      PointerInPage(records, dataPages, entries, arrayTailIndex, arrayHeadIndex);
      // roll over to a fresh data page when the item does not fit
      var placed := Placement(DataPointer(headDataPageIndex, headDataItemOffset), |data|, dataPageSize);
      var pageIndex, offset := placed.page, placed.offset;
      index := arrayHeadIndex;
      var item := IndexItem(pageIndex, offset, |data|, now);
      var newIndexPages, newDataPages, newMetaPages := WriteRecord(indexPages, dataPages, metaPages, records, entries,
                                                                   arrayTailIndex, arrayHeadIndex, data, now, placed);
      SetHeadState(newIndexPages, newDataPages, newMetaPages, index + 1, pageIndex, offset + |data|,
                   records[index := item], entries[index := Entry(data, now)]);
    }

    /** The field updates that end `append`: the three factories, head and
        the head data pointer (and the ghost abstraction); tail is kept. */
    method SetHeadState(index: Store, data: Store, meta: Store, head: int, page: int, offset: int,
                        ghost records': map<int, IndexItem>, ghost entries': map<int, Entry>)
      modifies this
      ensures indexPages == index && dataPages == data && metaPages == meta
      ensures arrayHeadIndex == head && arrayTailIndex == old(arrayTailIndex)
      ensures headDataPageIndex == page && headDataItemOffset == offset
      ensures records == records' && entries == entries'
    {
      indexPages, dataPages, metaPages := index, data, meta;
      arrayHeadIndex, headDataPageIndex, headDataItemOffset := head, page, offset;
      records, entries := records', entries';
    }

    /** `removeBeforeIndex(index)`: for a position in range, delete the index
        pages before its index page and the data pages before its data
        page, and move tail to it; otherwise throw and change nothing. The
        new tail is not written to the meta page. */
    method RemoveBeforeIndex(index: int) returns (r: Outcome)
      requires Valid()
      modifies this
      ensures Valid()
      ensures r == Done <==> ValidIndex(index, old(arrayTailIndex), old(arrayHeadIndex))
      ensures r.Failed? ==> r.error == IndexOutOfBounds && unchanged(this)
      ensures r == Done ==>
        arrayTailIndex == index && arrayHeadIndex == old(arrayHeadIndex)
        && TruncatedBefore(old(indexPages), old(dataPages), old(records), index, indexPages, dataPages)
        && metaPages == old(metaPages) && records == old(records) && entries == old(entries)
        && DataPointer(headDataPageIndex, headDataItemOffset) == old(DataPointer(headDataPageIndex, headDataItemOffset))
    {
      if !ValidIndex(index, arrayTailIndex, arrayHeadIndex) {
        return Failed(IndexOutOfBounds);
      }
      indexPages, dataPages := DeleteBefore(indexPages, dataPages, records, entries, arrayTailIndex, arrayHeadIndex, index);
      arrayTailIndex := index;
      return Done;
    }

    /** The meta write `removeBeforeIndex` leaves out: head and the new
        tail, as `append` writes them. */
    method PersistTail()
      requires Valid()
      modifies this`metaPages
      ensures Valid() && MetaHead(metaPages) == arrayHeadIndex && MetaTail(metaPages) == arrayTailIndex
    {
      EntriesCover();
      metaPages := PutMeta(metaPages, arrayHeadIndex, arrayTailIndex);
    }

    /** `removeBeforeIndex` with the new tail persisted in the meta page,
        as `append` persists it. */
    method RemoveBeforeIndexPersisted(index: int) returns (r: Outcome)
      requires Valid()
      modifies this
      ensures Valid()
      ensures r == Done <==> ValidIndex(index, old(arrayTailIndex), old(arrayHeadIndex))
      ensures r.Failed? ==> r.error == IndexOutOfBounds && unchanged(this)
      ensures r == Done ==> arrayTailIndex == index && arrayHeadIndex == old(arrayHeadIndex) && entries == old(entries)
      ensures r == Done ==> TruncatedBefore(old(indexPages), old(dataPages), old(records), index, indexPages, dataPages)
                            && records == old(records)
      ensures r == Done ==> MetaHead(metaPages) == arrayHeadIndex && MetaTail(metaPages) == arrayTailIndex
    {
      r := RemoveBeforeIndex(index);
      if r == Done {
        PersistTail();
      }
    }

    /** An array whose meta page holds its tail is one `Open` accepts, and
        the reopened array reads back the same head, tail and write
        pointer: it continues where it stopped. */
    lemma Reopenable()
      requires Valid() && MetaTail(metaPages) == arrayTailIndex
      ensures 0 <= MetaTail(metaPages)
      ensures IndexHolds(indexPages, records, MetaTail(metaPages), MetaHead(metaPages))
      ensures Image(records, dataPages, entries, MetaTail(metaPages), MetaHead(metaPages))
      ensures InitDataPointer(indexPages, MetaTail(metaPages), MetaHead(metaPages)) == DataPointer(headDataPageIndex, headDataItemOffset)
    {
      InitDataPointerOfImage(indexPages, records, dataPages, entries, arrayTailIndex, arrayHeadIndex);
    }

    /** `removeBefore(timestamp)`, given what the index page factory's
        `getFirstPageIndexBefore(timestamp)` answered (it reads file
        modification times): remove the positions before the first slot of
        that page; a negative answer or a position out of range is
        ignored. */
    method RemoveBefore(firstIndexPageIndex: int)
      requires Valid() && IsLong(firstIndexPageIndex)
      modifies this
      ensures Valid() && arrayHeadIndex == old(arrayHeadIndex) && entries == old(entries)
      ensures var target := WrapLong(firstIndexPageIndex * INDEX_ITEMS_PER_PAGE);
        if firstIndexPageIndex >= 0 && ValidIndex(target, old(arrayTailIndex), old(arrayHeadIndex))
        then arrayTailIndex == target
             && TruncatedBefore(old(indexPages), old(dataPages), old(records), target, indexPages, dataPages)
             && metaPages == old(metaPages) && records == old(records)
        else unchanged(this)
    {
      if firstIndexPageIndex >= 0 {
        var toRemoveBeforeIndex := WrapLong(firstIndexPageIndex * INDEX_ITEMS_PER_PAGE);
        var _ := RemoveBeforeIndex(toRemoveBeforeIndex);
      }
    }

    /** `removeAll()`: delete every page of the three factories, then
        `commonInit` reads back head = tail = 0 and pointer (0, 0). */
    method RemoveAll()
      requires Valid()
      modifies this
      ensures Valid()
      ensures arrayHeadIndex == 0 && arrayTailIndex == 0
      ensures headDataPageIndex == 0 && headDataItemOffset == 0
      ensures indexPages.pages == map[] && dataPages.pages == map[] && metaPages.pages == map[]
      ensures entries == map[]
      ensures forall i :: Get(i) == Err(IndexOutOfBounds)
    {
      indexPages := indexPages.DeleteAllPages();
      dataPages := dataPages.DeleteAllPages();
      metaPages := metaPages.DeleteAllPages();
      records := map[];
      entries := map[];
      EmptyMeta(metaPages);
      InitArrayIndex();
      InitDataPageIndex();
    }

    /** The early returns of `limitBackFileSize`: a limit below one index
        page plus one data page (that sum is an int sum, so it wraps for
        data pages within INDEX_PAGE_SIZE of Integer.MAX_VALUE), a backing
        size within the limit, or an excess of less than one data page (a
        long difference, which wraps negative past Long.MAX_VALUE). A
        truncation therefore only runs when the true excess is a long of at
        least one data page. */
    predicate LimitIsNoOp(sizeLimit: int, backFileSize: int): (noOp: bool)
      reads this
      requires IsLong(sizeLimit) && IsLong(backFileSize)
      ensures !noOp ==> dataPageSize <= backFileSize - sizeLimit <= LONG_MAX
    {
      sizeLimit < WrapInt(INDEX_PAGE_SIZE + dataPageSize) || backFileSize <= sizeLimit
      || SubLong(backFileSize, sizeLimit) < dataPageSize
    }

    /** `limitBackFileSize(sizeLimit)`, given the backing size the page
        factories report (`getBackFileSize`, from file sizes). Nothing
        happens when the limit is below one index page plus one data page,
        when the backing size is within the limit, or when the excess is
        less than one data page. Otherwise the scan picks the new tail; a
        scan that reaches head makes `removeBeforeIndex` throw, which is
        not caught. */
    method LimitBackFileSize(sizeLimit: int, backFileSize: int) returns (r: Outcome)
      requires Valid() && IsLong(sizeLimit) && IsLong(backFileSize)
      modifies this
      ensures Valid() && arrayHeadIndex == old(arrayHeadIndex) && entries == old(entries)
      ensures LimitIsNoOp(sizeLimit, backFileSize) ==> r == Done && unchanged(this)
      ensures !LimitIsNoOp(sizeLimit, backFileSize) ==>
        var t := TruncationPoint(old(records), old(arrayTailIndex), old(arrayHeadIndex), 0, SubLong(backFileSize, sizeLimit));
        (r == Done <==> t != old(arrayHeadIndex))
        && (r == Done ==> arrayTailIndex == t
                          && TruncatedBefore(old(indexPages), old(dataPages), old(records), t, indexPages, dataPages)
                          && metaPages == old(metaPages) && records == old(records))
      ensures r.Failed? ==> r.error == IndexOutOfBounds && unchanged(this)
    {
      if sizeLimit < WrapInt(INDEX_PAGE_SIZE + dataPageSize) {
        return Done;
      }
      if backFileSize <= sizeLimit {
        return Done;
      }
      var toTruncateSize := SubLong(backFileSize, sizeLimit);
      if toTruncateSize < dataPageSize {
        return Done;
      }
      var tailIndex := ScanForTruncation(indexPages, records, arrayTailIndex, arrayHeadIndex, toTruncateSize);
      r := RemoveBeforeIndex(tailIndex);
    }
  }

  /** The scan loop of `limitBackFileSize`: it stops where TruncationPoint
      says. */
  method ScanForTruncation(index: Store, ghost records: map<int, IndexItem>, tail: int, head: int, toTruncateSize: int)
    returns (tailIndex: int)
    requires tail <= head && IndexHolds(index, records, tail, head)
    ensures tailIndex == TruncationPoint(records, tail, head, 0, toTruncateSize)
  {
    tailIndex := tail;
    var totalLength := 0;
    while true
      invariant tail <= tailIndex <= head
      invariant TruncationPoint(records, tailIndex, head, totalLength, toTruncateSize)
             == TruncationPoint(records, tail, head, 0, toTruncateSize)
      decreases head - tailIndex
    {
      if tailIndex == head {
        break;
      }
      assert ReadIndexItem(index, tailIndex) == records[tailIndex];
      totalLength := WrapLong(totalLength + DataItemLengthAt(index, tailIndex));
      if totalLength > toTruncateSize {
        break;
      }
      tailIndex := tailIndex + 1;
      if tailIndex % INDEX_ITEMS_PER_PAGE == 0 {
        totalLength := WrapLong(totalLength + INDEX_PAGE_SIZE);
      }
    }
  }
}
