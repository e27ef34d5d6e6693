/** The page a queue front is persisted in: page QUEUE_FRONT_PAGE_INDEX (0)
    of a factory whose pages are QUEUE_FRONT_INDEX_PAGE_SIZE = 1 << 3 = 8
    bytes, holding the front as one big-endian long at offset 0. The
    single-cursor queue has one such factory; every fan-out cursor has its
    own. */
module FrontIndex {
  import opened Java
  import opened BigEndian
  import opened PageStore

  const QUEUE_FRONT_INDEX_ITEM_LENGTH_BITS: nat := 3
  const QUEUE_FRONT_INDEX_PAGE_SIZE: nat := 8
  const QUEUE_FRONT_PAGE_INDEX: int := 0

  /** A factory of front pages. */
  ghost predicate FrontStore(s: Store)
  {
    s.pageSize == QUEUE_FRONT_INDEX_PAGE_SIZE && s.WellFormed()
  }

  /** `acquirePage(QUEUE_FRONT_PAGE_INDEX).getLocal(0).getLong()`. */
  function ReadFront(s: Store): (front: int)
    requires FrontStore(s)
    ensures IsLong(front)
  {
    DecodeLong(s.Read(QUEUE_FRONT_PAGE_INDEX, 0, 8))
  }

  /** `getLocal(0).putLong(front)` on the front page. */
  function WriteFront(s: Store, front: int): (t: Store)
    requires FrontStore(s) && IsLong(front)
    ensures FrontStore(t)
  {
    s.Write(QUEUE_FRONT_PAGE_INDEX, 0, EncodeLong(front))
  }

  /** A persisted front is what the next read of the page returns. */
  lemma FrontRoundTrip(s: Store, front: int)
    requires FrontStore(s) && IsLong(front)
    ensures ReadFront(WriteFront(s, front)) == front
    ensures forall n | n != QUEUE_FRONT_PAGE_INDEX :: WriteFront(s, front).Page(n) == s.Page(n)
  {
    LongRoundTrip(front);
  }

  /** Persisting the front that was read back leaves the page as it was. */
  lemma PersistReadFront(s: Store)
    requires FrontStore(s)
    ensures WriteFront(s, ReadFront(s)).Page(QUEUE_FRONT_PAGE_INDEX) == s.Page(QUEUE_FRONT_PAGE_INDEX)
  {
    var p := s.Page(QUEUE_FRONT_PAGE_INDEX);
    LongBytesRoundTrip(s.Read(QUEUE_FRONT_PAGE_INDEX, 0, 8));
    assert p[..8] == p;
  }

  /** A directory without a front file reads front 0. */
  lemma FreshFront(s: Store)
    requires FrontStore(s) && s.pages == map[]
    ensures ReadFront(s) == 0
  {
    FromUnsignedZeros(s.Read(QUEUE_FRONT_PAGE_INDEX, 0, 8));
  }

  /** `persistIndex`: the page write, as the owner of the page sees it. */
  method PutFront(s: Store, front: int) returns (t: Store)
    requires FrontStore(s) && IsLong(front)
    ensures t == WriteFront(s, front)
    ensures FrontStore(t) && ReadFront(t) == front
  {
    t := WriteFront(s, front);
    FrontRoundTrip(s, front);
  }
}
