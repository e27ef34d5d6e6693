/** The on-disk layout of a big array (BigArrayImpl.java):
    - index pages of 2^17 slots of 32 bytes; the slot of position i is in
      page i >> 17 at byte (i mod 2^17) * 32 and holds the item's data page
      (long, byte 0), offset (int, byte 8), length (int, byte 12) and append
      time (long, byte 16); bytes 24..32 are never written;
    - one 16-byte meta page holding head then tail, as longs.
    `Calculator.div`, `mod` and `mul` by b bits are an arithmetic shift right,
    a mask and a shift left, i.e. floor division, Euclidean remainder and
    multiplication by 2^b. */
module IndexLayout {
  import opened Java
  import opened BigEndian
  import opened PageStore

  const INDEX_ITEMS_PER_PAGE_BITS: nat := 17
  const INDEX_ITEMS_PER_PAGE: int := 0x2_0000
  const INDEX_ITEM_LENGTH_BITS: nat := 5
  const INDEX_ITEM_LENGTH: int := 32
  const INDEX_PAGE_SIZE: int := INDEX_ITEM_LENGTH * INDEX_ITEMS_PER_PAGE
  const DEFAULT_DATA_PAGE_SIZE: int := 128 * 1024 * 1024
  const MINIMUM_DATA_PAGE_SIZE: int := 32 * 1024 * 1024
  /** The data page sizes the constructor accepts: an int of at least
      MINIMUM_DATA_PAGE_SIZE. */
  type DataPageSize = n: int | MINIMUM_DATA_PAGE_SIZE <= n <= INT_MAX witness MINIMUM_DATA_PAGE_SIZE
  const META_DATA_PAGE_SIZE: int := 16
  const META_DATA_PAGE_INDEX: int := 0
  const INDEX_ITEM_DATA_ITEM_LENGTH_OFFSET: int := 12
  const INDEX_ITEM_DATA_ITEM_TIMESTAMP_OFFSET: int := 16
  /** The bytes `append` writes into a slot. */
  const INDEX_ITEM_WRITTEN_LENGTH: int := 24

  /** `Calculator.div(i, INDEX_ITEMS_PER_PAGE_BITS)`: the index page holding i's slot. */
  function IndexPageIndex(i: int): int
  {
    i / INDEX_ITEMS_PER_PAGE
  }

  /** `(int) Calculator.mul(Calculator.mod(i, 17), 5)`: the byte offset of i's
      slot in its page; a whole slot always fits in the page. */
  function IndexItemOffset(i: int): (off: nat)
    ensures off % INDEX_ITEM_LENGTH == 0
    ensures off + INDEX_ITEM_LENGTH <= INDEX_PAGE_SIZE
  {
    (i % INDEX_ITEMS_PER_PAGE) * INDEX_ITEM_LENGTH
  }

  /** Page and offset determine the position. */
  lemma SlotDecomposition(i: int)
    ensures i == IndexPageIndex(i) * INDEX_ITEMS_PER_PAGE + IndexItemOffset(i) / INDEX_ITEM_LENGTH
  {
  }

  /** Distinct positions own disjoint slots. */
  lemma SlotsDisjoint(i: int, j: int)
    requires i != j
    ensures IndexPageIndex(i) != IndexPageIndex(j)
         || IndexItemOffset(i) + INDEX_ITEM_LENGTH <= IndexItemOffset(j)
         || IndexItemOffset(j) + INDEX_ITEM_LENGTH <= IndexItemOffset(i)
  {
    SlotDecomposition(i);
    SlotDecomposition(j);
  }

  /** Later positions never live in earlier index pages. */
  lemma IndexPageMonotone(i: int, j: int)
    requires i <= j
    ensures IndexPageIndex(i) <= IndexPageIndex(j)
  {
  }

  /** The contents of one index slot. */
  datatype IndexItem = IndexItem(dataPageIndex: int, dataItemOffset: int, dataItemLength: int, timestamp: int)

  /** Each field fits its Java type. */
  predicate Encodable(it: IndexItem)
  {
    IsLong(it.dataPageIndex) && IsInt(it.dataItemOffset) && IsInt(it.dataItemLength) && IsLong(it.timestamp)
  }

  /** The `putLong`, `putInt`, `putInt`, `putLong` of `append`. */
  function EncodeIndexItem(it: IndexItem): (s: Bytes)
    requires Encodable(it)
    ensures |s| == INDEX_ITEM_WRITTEN_LENGTH
  {
    EncodeLong(it.dataPageIndex) + EncodeInt(it.dataItemOffset) + EncodeInt(it.dataItemLength) + EncodeLong(it.timestamp)
  }

  /** The `getLong`, `getInt`, `getInt` of `get` (and the timestamp `getLong`) on a slot. */
  function DecodeIndexItem(slot: Bytes): (it: IndexItem)
    requires |slot| == INDEX_ITEM_LENGTH
    ensures Encodable(it)
  {
    IndexItem(DecodeLong(slot[0..8]), DecodeInt(slot[8..12]), DecodeInt(slot[12..16]), DecodeLong(slot[16..24]))
  }

  /** A slot that starts with an item's encoding decodes to that item,
      whatever its padding holds. */
  lemma IndexItemRoundTrip(it: IndexItem, slot: Bytes)
    requires Encodable(it) && |slot| == INDEX_ITEM_LENGTH
    requires slot[..INDEX_ITEM_WRITTEN_LENGTH] == EncodeIndexItem(it)
    ensures DecodeIndexItem(slot) == it
  {
    SplitFields(slot, EncodeLong(it.dataPageIndex), EncodeInt(it.dataItemOffset),
                EncodeInt(it.dataItemLength), EncodeLong(it.timestamp));
    LongRoundTrip(it.dataPageIndex);
    IntRoundTrip(it.dataItemOffset);
    IntRoundTrip(it.dataItemLength);
    LongRoundTrip(it.timestamp);
  }

  /** A slot whose first 24 bytes are a long, two ints and a long, laid
      end to end, holds each of them at its offset. */
  lemma SplitFields(slot: Bytes, a: Bytes, b: Bytes, c: Bytes, d: Bytes)
    requires |a| == 8 && |b| == 4 && |c| == 4 && |d| == 8 && |slot| == INDEX_ITEM_LENGTH
    requires slot[..INDEX_ITEM_WRITTEN_LENGTH] == a + b + c + d
    ensures slot[0..8] == a && slot[8..12] == b && slot[12..16] == c && slot[16..24] == d
  {
    var w := slot[..INDEX_ITEM_WRITTEN_LENGTH];
    assert slot[0..8] == w[0..8];
    assert slot[8..12] == w[8..12];
    assert slot[12..16] == w[12..16];
    assert slot[16..24] == w[16..24];
  }

  /** The index page factory: pages of INDEX_PAGE_SIZE bytes. */
  ghost predicate IndexStore(s: Store)
  {
    s.pageSize == INDEX_PAGE_SIZE && s.WellFormed()
  }

  /** `getIndexItemBuffer(i)`: the slot of position i. */
  function IndexSlot(index: Store, i: int): (slot: Bytes)
    requires IndexStore(index)
    ensures |slot| == INDEX_ITEM_LENGTH
  {
    index.Read(IndexPageIndex(i), IndexItemOffset(i), INDEX_ITEM_LENGTH)
  }

  /** The item recorded for position i: its fields decode in their Java
      ranges. */
  function ReadIndexItem(index: Store, i: int): (it: IndexItem)
    requires IndexStore(index)
    ensures Encodable(it)
  {
    DecodeIndexItem(IndexSlot(index, i))
  }

  /** A position whose index page is not on disk (never written, or
      deleted) reads as the all-zero record: data page 0, offset 0, an
      empty item, timestamp 0. */
  lemma UnwrittenSlot(index: Store, i: int)
    requires IndexStore(index) && IndexPageIndex(i) !in index.pages
    ensures ReadIndexItem(index, i) == IndexItem(0, 0, 0, 0)
  {
    var slot := IndexSlot(index, i);
    assert forall k | 0 <= k < |slot| :: slot[k] == 0;
    Pow256Values();
    FromUnsignedZeros(slot[0..8]);
    FromUnsignedZeros(slot[8..12]);
    FromUnsignedZeros(slot[12..16]);
    FromUnsignedZeros(slot[16..24]);
  }

  /** `getDataItemLength(i)`: the int at byte INDEX_ITEM_DATA_ITEM_LENGTH_OFFSET
      of i's slot, which is the record's length field. */
  function DataItemLengthAt(index: Store, i: int): (len: int)
    requires IndexStore(index)
    ensures len == ReadIndexItem(index, i).dataItemLength
  {
    ReadWithin(index, IndexPageIndex(i), IndexItemOffset(i), INDEX_ITEM_LENGTH, 12, 16);
    DecodeInt(index.Read(IndexPageIndex(i), IndexItemOffset(i) + INDEX_ITEM_DATA_ITEM_LENGTH_OFFSET, 4))
  }

  /** The long at byte INDEX_ITEM_DATA_ITEM_TIMESTAMP_OFFSET of i's slot,
      which is the record's timestamp field. */
  function TimestampAt(index: Store, i: int): (ts: int)
    requires IndexStore(index)
    ensures ts == ReadIndexItem(index, i).timestamp
  {
    ReadWithin(index, IndexPageIndex(i), IndexItemOffset(i), INDEX_ITEM_LENGTH, 16, 24);
    DecodeLong(index.Read(IndexPageIndex(i), IndexItemOffset(i) + INDEX_ITEM_DATA_ITEM_TIMESTAMP_OFFSET, 8))
  }

  /** The record puts of `append` into the slot of position i. */
  function WriteIndexItem(index: Store, i: int, it: IndexItem): (s: Store)
    requires IndexStore(index) && Encodable(it)
    ensures IndexStore(s)
  {
    index.Write(IndexPageIndex(i), IndexItemOffset(i), EncodeIndexItem(it))
  }

  /** Writing a record makes it readable at its position and leaves every
      other position's record as it was. */
  lemma ReadAfterWriteIndexItem(index: Store, i: int, it: IndexItem, j: int)
    requires IndexStore(index) && Encodable(it)
    ensures ReadIndexItem(WriteIndexItem(index, i, it), j) == if j == i then it else ReadIndexItem(index, j)
  {
    var s := WriteIndexItem(index, i, it);
    if j == i {
      ReadWithin(s, IndexPageIndex(i), IndexItemOffset(i), INDEX_ITEM_LENGTH, 0, INDEX_ITEM_WRITTEN_LENGTH);
      IndexItemRoundTrip(it, IndexSlot(s, i));
    } else {
      SlotsDisjoint(i, j);
      ReadAfterWriteOther(index, IndexPageIndex(i), IndexItemOffset(i), EncodeIndexItem(it),
                          IndexPageIndex(j), IndexItemOffset(j), INDEX_ITEM_LENGTH);
    }
  }

  /** Deleting the index pages below n keeps the record of every position
      whose slot lies in page n or later. */
  lemma ReadIndexItemAfterDelete(index: Store, n: int, j: int)
    requires IndexStore(index)
    requires n <= IndexPageIndex(j)
    ensures IndexStore(index.DeletePagesBefore(n))
    ensures ReadIndexItem(index.DeletePagesBefore(n), j) == ReadIndexItem(index, j)
  {
    assert IndexSlot(index.DeletePagesBefore(n), j) == IndexSlot(index, j);
  }

  /** index' is index with record `it` written at position i: that
      position reads `it`, every other position reads as before. */
  ghost predicate IndexWritten(index: Store, index': Store, i: int, it: IndexItem)
  {
    IndexStore(index) && IndexStore(index')
    && forall j :: ReadIndexItem(index', j) == if j == i then it else ReadIndexItem(index, j)
  }

  /** The record puts of `append`, as the caller sees them. */
  method PutIndexItem(index: Store, i: int, it: IndexItem) returns (index': Store)
    requires IndexStore(index) && Encodable(it)
    ensures IndexWritten(index, index', i, it)
  {
    index' := WriteIndexItem(index, i, it);
    forall j
      ensures ReadIndexItem(index', j) == if j == i then it else ReadIndexItem(index, j)
    {
      ReadAfterWriteIndexItem(index, i, it, j);
    }
  }

  /** The meta page factory: pages of META_DATA_PAGE_SIZE bytes. */
  ghost predicate MetaStore(s: Store)
  {
    s.pageSize == META_DATA_PAGE_SIZE && s.WellFormed()
  }

  /** The head `initArrayIndex` reads: the first long of meta page 0. */
  function MetaHead(meta: Store): (h: int)
    requires MetaStore(meta)
    ensures IsLong(h)
  {
    DecodeLong(meta.Read(META_DATA_PAGE_INDEX, 0, 8))
  }

  /** The tail `initArrayIndex` reads: the second long of meta page 0. */
  function MetaTail(meta: Store): (t: int)
    requires MetaStore(meta)
    ensures IsLong(t)
  {
    DecodeLong(meta.Read(META_DATA_PAGE_INDEX, 8, 8))
  }

  /** The meta update at the end of `append`: head then tail, which the
      next `initArrayIndex` reads back. */
  function WriteMeta(meta: Store, head: int, tail: int): (m: Store)
    requires MetaStore(meta) && IsLong(head) && IsLong(tail)
    ensures MetaStore(m)
    ensures MetaHead(m) == head && MetaTail(m) == tail
  {
    var m := meta.Write(META_DATA_PAGE_INDEX, 0, EncodeLong(head) + EncodeLong(tail));
    ReadWithin(m, META_DATA_PAGE_INDEX, 0, 16, 0, 8);
    ReadWithin(m, META_DATA_PAGE_INDEX, 0, 16, 8, 16);
    LongRoundTrip(head);
    LongRoundTrip(tail);
    m
  }

  /** The meta update of `append`, as the next `initArrayIndex` sees it. */
  method PutMeta(meta: Store, head: int, tail: int) returns (meta': Store)
    requires MetaStore(meta) && IsLong(head) && IsLong(tail)
    ensures MetaStore(meta') && MetaHead(meta') == head && MetaTail(meta') == tail
  {
    meta' := WriteMeta(meta, head, tail);
  }

  /** A meta factory without pages reads head 0 and tail 0. */
  lemma EmptyMeta(meta: Store)
    requires MetaStore(meta) && meta.pages == map[]
    ensures MetaHead(meta) == 0 && MetaTail(meta) == 0
  {
    Pow256Values();
    FromUnsignedZeros(meta.Read(META_DATA_PAGE_INDEX, 0, 8));
    FromUnsignedZeros(meta.Read(META_DATA_PAGE_INDEX, 8, 8));
  }
}
