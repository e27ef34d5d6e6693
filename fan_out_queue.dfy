/** FanOutQueueImpl.java: any number of named consumers read one BigArrayImpl
    independently. Each fan-out id has a cursor (QueueFront) holding the
    position of its next item; the cursor is created on first use from the
    front page persisted in the id's own directory, and every move of it is
    persisted there. */
module FanOutQueue {
  import opened Java
  import opened Ring
  import opened PageStore
  import opened FrontIndex
  import opened ClosestSearch
  import opened BigArray
  import opened IndexLayout

  /** `IFanOutQueue.EARLIEST` and `IFanOutQueue.LATEST`. */
  const EARLIEST: int := -1
  const LATEST: int := -2

  /** A front page factory as the directory of one fan-out id holds it. */
  type FrontPages = s: Store | FrontStore(s) witness Store(QUEUE_FRONT_INDEX_PAGE_SIZE, map[])

  /** Where a cursor may stand: at head (nothing left to read) or on a
      position `validateIndex` accepts. */
  predicate CursorInRange(index: int, tail: int, head: int)
  {
    index == head || ValidIndex(index, tail, head)
  }

  /** `validateAndAdjustIndex`: a cursor that is neither at head nor valid
      is moved back to tail. */
  function AdjustedIndex(index: int, tail: int, head: int): (r: int)
    ensures CursorInRange(r, tail, head)
    ensures CursorInRange(index, tail, head) ==> r == index
    ensures !CursorInRange(index, tail, head) ==> r == tail
  {
    if index != head && !ValidIndex(index, tail, head) then tail else index
  }

  /** Adjusting twice is adjusting once. */
  lemma AdjustedIndexIdempotent(index: int, tail: int, head: int)
    ensures AdjustedIndex(AdjustedIndex(index, tail, head), tail, head) == AdjustedIndex(index, tail, head)
  {
  }

  /** A cursor in range stays in range when head moves up by one
      (an append), and after it advances from a valid position. */
  lemma CursorInRangeAfterMoves(index: int, tail: int, head: int)
    requires 0 <= tail <= head < LONG_MAX && CursorInRange(index, tail, head)
    ensures CursorInRange(index, tail, head + 1)
    ensures ValidIndex(index, tail, head) ==> CursorInRange(Next(index), tail, head)
  {
  }

  /** `QueueFront`: one fan-out id's cursor and its front page factory. */
  class QueueFront {
    /** `fanoutId` */
    const fanoutId: string
    /** `index` */
    var index: int
    /** `indexPageFactory` */
    var indexPages: Store

    /** The front page holds the cursor. */
    ghost predicate Persisted()
      reads this
    {
      FrontStore(indexPages) && ReadFront(indexPages) == index
    }

    /** Persisted, and a position: the cursor is only ever set to head, to
        a valid index or to tail, or advanced with wrap-around. */
    ghost predicate Valid()
      reads this
    {
      Persisted() && IsPosition(index)
    }

    /** The constructor for an id that passed the folder name check: read
        the cursor from page 0 of the id's directory, then
        `validateAndAdjustIndex`. */
    constructor (fanoutId: string, pages: FrontPages, innerArray: BigArrayImpl)
      requires innerArray.Valid()
      ensures Valid() && this.fanoutId == fanoutId
      ensures index == AdjustedIndex(ReadFront(pages), innerArray.arrayTailIndex, innerArray.arrayHeadIndex)
    {
      this.fanoutId := fanoutId;
      indexPages := pages;
      index := ReadFront(pages);
      new;
      innerArray.EntriesCover();
      ValidateAndAdjustIndex(innerArray);
    }

    /** `validateAndAdjustIndex`: keep a cursor at head or at a valid index;
        otherwise reset it to tail and persist it. */
    method ValidateAndAdjustIndex(innerArray: BigArrayImpl)
      requires Persisted() && 0 <= innerArray.arrayTailIndex <= innerArray.arrayHeadIndex <= LONG_MAX
      modifies this
      ensures Valid()
      ensures index == AdjustedIndex(old(index), innerArray.arrayTailIndex, innerArray.arrayHeadIndex)
      ensures index == old(index) ==> indexPages == old(indexPages)
    {
      if index != innerArray.arrayHeadIndex {
        if innerArray.ValidateIndex(index).Failed? {
          ResetIndex(innerArray);
        }
      }
    }

    /** `resetIndex`: set the cursor to the array's tail and persist it. */
    method ResetIndex(innerArray: BigArrayImpl)
      requires FrontStore(indexPages) && IsPosition(innerArray.arrayTailIndex)
      modifies this
      ensures Valid() && index == innerArray.arrayTailIndex
    {
      index := innerArray.arrayTailIndex;
      PersistIndex();
    }

    /** `incrementIndex`: advance by one, Long.MAX_VALUE wrapping to 0, and
        persist. */
    method IncrementIndex()
      requires Valid()
      modifies this
      ensures Valid() && index == Next(old(index))
    {
      var nextIndex := Next(index);
      index := nextIndex;
      PersistIndex();
    }

    /** The body of `dequeue` once the cursor is known: nothing at head;
        otherwise read at the cursor, falling back to tail once when the
        read throws (the array was truncated under the cursor), and
        advance. */
    method ReadAndAdvance(innerArray: BigArrayImpl) returns (r: Result<Option<Bytes>>)
      requires Valid() && innerArray.Valid()
      modifies this
      ensures Valid()
      ensures var c, tail, head := old(index), innerArray.arrayTailIndex, innerArray.arrayHeadIndex;
        (c == head ==> r == Ok(None) && index == c)
        && (ValidIndex(c, tail, head) ==> r == Ok(Some(DataAt(innerArray.entries, c))) && index == Next(c))
        && (!CursorInRange(c, tail, head) && tail != head ==>
              r == Ok(Some(DataAt(innerArray.entries, tail))) && index == Next(tail))
        && (!CursorInRange(c, tail, head) && tail == head ==> r == Err(IndexOutOfBounds) && index == tail)
    {
      if index == innerArray.arrayHeadIndex {
        return Ok(None);
      }
      var data := innerArray.Get(index);
      if data.Err? {
        // a truncation left the cursor behind tail: restart from tail, once
        ResetIndex(innerArray);
        data := innerArray.Get(index);
        if data.Err? {
          return Err(data.error);
        }
      }
      IncrementIndex();
      return Ok(Some(data.value));
    }

    /** `persistIndex`: write the cursor to page 0 of its factory. */
    method PersistIndex()
      requires FrontStore(indexPages) && IsLong(index)
      modifies this
      ensures Persisted() && index == old(index)
      ensures indexPages == WriteFront(old(indexPages), index)
    {
      indexPages := PutFront(indexPages, index);
    }
  }

  /** `FanOutQueueImpl` over one array. `folderNameValid` stands for
      `FolderNameValidator.validate`, and `frontDirectories` for what the
      front page directories `front_index_<id>` hold when the queue is
      opened (an id without an entry has no files yet). */
  class FanOutQueueImpl {
    /** `innerArray` */
    const innerArray: BigArrayImpl
    /** `queueFrontMap` */
    var queueFrontMap: map<string, QueueFront>
    const folderNameValid: string -> bool
    const frontDirectories: map<string, FrontPages>

    /** The array is consistent, and every cursor is filed under its own id
        (so distinct ids have distinct cursors) and persisted. */
    ghost predicate Valid()
      reads this, innerArray, queueFrontMap.Values
    {
      innerArray.Valid() && CursorsValid()
    }

    ghost predicate CursorsValid()
      reads this, queueFrontMap.Values
    {
      forall id | id in queueFrontMap :: queueFrontMap[id].fanoutId == id && queueFrontMap[id].Valid()
    }

    /** Every cursor is at head or on a valid index. */
    ghost predicate CursorsInRange()
      reads this, innerArray, queueFrontMap.Values
    {
      forall id | id in queueFrontMap ::
        CursorInRange(queueFrontMap[id].index, innerArray.arrayTailIndex, innerArray.arrayHeadIndex)
    }

    /** The front pages a new cursor for `fanoutId` opens. */
    function OpenFrontPages(fanoutId: string): FrontPages
      reads this
    {
      if fanoutId in frontDirectories then frontDirectories[fanoutId]
      else Store(QUEUE_FRONT_INDEX_PAGE_SIZE, map[])
    }

    /** `getQueueFront(fanoutId)` succeeds: the cursor exists, or the id is a
        valid folder name. */
    predicate Known(fanoutId: string)
      reads this
    {
      fanoutId in queueFrontMap || folderNameValid(fanoutId)
    }

    /** The cursor `getQueueFront(fanoutId)` hands out: the cached one, or a
        new one read from the id's directory and adjusted. */
    ghost function Cursor(fanoutId: string): (c: int)
      reads this, innerArray, queueFrontMap.Values
      requires Valid()
      ensures IsPosition(c)
    {
      if fanoutId in queueFrontMap then queueFrontMap[fanoutId].index
      else AdjustedIndex(ReadFront(OpenFrontPages(fanoutId)), innerArray.arrayTailIndex, innerArray.arrayHeadIndex)
    }

    /** The constructor, given the array it opened. No cursor exists yet. */
    constructor (innerArray: BigArrayImpl, folderNameValid: string -> bool, frontDirectories: map<string, FrontPages>)
      requires innerArray.Valid()
      ensures Valid() && CursorsInRange()
      ensures this.innerArray == innerArray && queueFrontMap == map[]
      ensures this.folderNameValid == folderNameValid && this.frontDirectories == frontDirectories
    {
      this.innerArray := innerArray;
      queueFrontMap := map[];
      this.folderNameValid := folderNameValid;
      this.frontDirectories := frontDirectories;
    }

    /** `getQueueFront(fanoutId)`: the cached cursor, or a new one created
        once and cached; IllegalArgument for an id that is not a valid
        folder name. */
    method GetQueueFront(fanoutId: string) returns (r: Result<QueueFront>)
      requires Valid()
      modifies this
      ensures Valid()
      ensures r.Ok? <==> old(Known(fanoutId))
      ensures r.Err? ==> r.error == IllegalArgument && queueFrontMap == old(queueFrontMap)
      ensures r.Ok? ==> queueFrontMap == old(queueFrontMap)[fanoutId := r.value] && r.value.index == old(Cursor(fanoutId))
      ensures r.Ok? ==> r.value.Valid() && r.value.fanoutId == fanoutId
      ensures r.Ok? && fanoutId in old(queueFrontMap) ==> r.value == old(queueFrontMap[fanoutId])
      ensures r.Ok? && fanoutId !in old(queueFrontMap) ==> fresh(r.value)
      ensures old(CursorsInRange()) ==> CursorsInRange()
    {
      if fanoutId in queueFrontMap {
        return Ok(queueFrontMap[fanoutId]);
      }
      if !folderNameValid(fanoutId) {
        return Err(IllegalArgument);
      }
      var qf := new QueueFront(fanoutId, OpenFrontPages(fanoutId), innerArray);
      queueFrontMap := queueFrontMap[fanoutId := qf];
      return Ok(qf);
    }

    /** `isEmpty(fanoutId)`: the id's cursor is at head. */
    method IsEmptyFor(fanoutId: string) returns (r: Result<bool>)
      requires Valid()
      modifies this
      ensures Valid() && (old(CursorsInRange()) ==> CursorsInRange())
      ensures old(Known(fanoutId)) <==> fanoutId in queueFrontMap
      ensures !old(Known(fanoutId)) ==> queueFrontMap == old(queueFrontMap)
      ensures old(Known(fanoutId)) ==> queueFrontMap == old(queueFrontMap)[fanoutId := queueFrontMap[fanoutId]]
      ensures !old(Known(fanoutId)) ==> r == Err(IllegalArgument)
      ensures old(Known(fanoutId)) ==> r == Ok(Cursor(fanoutId) == innerArray.arrayHeadIndex)
      ensures Cursor(fanoutId) == old(Cursor(fanoutId))
    {
      var got := GetQueueFront(fanoutId);
      if got.Err? {
        return Err(got.error);
      }
      return Ok(got.value.index == innerArray.arrayHeadIndex);
    }

    /** `enqueue(data)`, with `now` for the append's clock reading. No
        cursor moves. */
    method Enqueue(data: Bytes, now: int) returns (index: int)
      requires Valid() && |data| <= innerArray.dataPageSize && IsLong(now)
      requires innerArray.arrayHeadIndex < LONG_MAX
      modifies innerArray
      ensures Valid() && (old(CursorsInRange()) ==> CursorsInRange())
      ensures index == old(innerArray.arrayHeadIndex) && innerArray.arrayHeadIndex == index + 1
      ensures innerArray.entries == old(innerArray.entries)[index := Entry(data, now)]
    {
      index := innerArray.Append(data, now);
      forall id | id in queueFrontMap && old(CursorsInRange())
        ensures CursorInRange(queueFrontMap[id].index, innerArray.arrayTailIndex, innerArray.arrayHeadIndex)
      {
        CursorInRangeAfterMoves(queueFrontMap[id].index, innerArray.arrayTailIndex, index);
      }
    }

    /** The one cursor `getQueueFront(fanoutId)` would hand out, when it
        already exists. */
    function CursorObject(fanoutId: string): set<QueueFront>
      reads this
    {
      if fanoutId in queueFrontMap then {queueFrontMap[fanoutId]} else {}
    }

    /** `dequeue(fanoutId)`: nothing when the cursor is at head; otherwise
        the item at the cursor, which then advances. A cursor out of range
        (the array was truncated under it) is first reset to tail and the
        read retried once; on an empty array that read throws. Only this
        id's cursor can change. */
    method Dequeue(fanoutId: string) returns (r: Result<Option<Bytes>>)
      requires Valid()
      modifies this, CursorObject(fanoutId)
      ensures Valid() && (old(CursorsInRange()) ==> CursorsInRange())
      ensures old(Known(fanoutId)) <==> fanoutId in queueFrontMap
      ensures !old(Known(fanoutId)) ==> r == Err(IllegalArgument) && queueFrontMap == old(queueFrontMap)
      ensures old(Known(fanoutId)) ==>
        var c, tail, head := old(Cursor(fanoutId)), innerArray.arrayTailIndex, innerArray.arrayHeadIndex;
        var index := queueFrontMap[fanoutId].index;
        queueFrontMap == old(queueFrontMap)[fanoutId := queueFrontMap[fanoutId]]
        && (c == head ==> r == Ok(None) && index == c)
        && (ValidIndex(c, tail, head) ==> r == Ok(Some(DataAt(innerArray.entries, c))) && index == Next(c))
        && (!CursorInRange(c, tail, head) && tail != head ==>
              r == Ok(Some(DataAt(innerArray.entries, tail))) && index == Next(tail))
        && (!CursorInRange(c, tail, head) && tail == head ==> r == Err(IndexOutOfBounds) && index == tail)
    {
      var got := GetQueueFront(fanoutId);
      if got.Err? {
        return Err(got.error);
      }
      r := DequeueAt(fanoutId);
    }

    /** `dequeue` once the cursor of `fanoutId` exists. */
    method DequeueAt(fanoutId: string) returns (r: Result<Option<Bytes>>)
      requires Valid() && fanoutId in queueFrontMap
      modifies queueFrontMap[fanoutId]
      ensures Valid() && (old(CursorsInRange()) ==> CursorsInRange())
      ensures var c, tail, head := old(queueFrontMap[fanoutId].index), innerArray.arrayTailIndex, innerArray.arrayHeadIndex;
        var index := queueFrontMap[fanoutId].index;
        (c == head ==> r == Ok(None) && index == c)
        && (ValidIndex(c, tail, head) ==> r == Ok(Some(DataAt(innerArray.entries, c))) && index == Next(c))
        && (!CursorInRange(c, tail, head) && tail != head ==>
              r == Ok(Some(DataAt(innerArray.entries, tail))) && index == Next(tail))
        && (!CursorInRange(c, tail, head) && tail == head ==> r == Err(IndexOutOfBounds) && index == tail)
    {
      r := queueFrontMap[fanoutId].ReadAndAdvance(innerArray);
    }

    /** `peek(fanoutId)`: nothing when the cursor is at head, otherwise the
        item at the cursor (IndexOutOfBounds for a cursor out of range).
        No cursor moves. */
    method Peek(fanoutId: string) returns (r: Result<Option<Bytes>>)
      requires Valid()
      modifies this
      ensures Valid() && (old(CursorsInRange()) ==> CursorsInRange())
      ensures old(Known(fanoutId)) <==> fanoutId in queueFrontMap
      ensures !old(Known(fanoutId)) ==> queueFrontMap == old(queueFrontMap)
      ensures old(Known(fanoutId)) ==> queueFrontMap == old(queueFrontMap)[fanoutId := queueFrontMap[fanoutId]]
      ensures !old(Known(fanoutId)) ==> r == Err(IllegalArgument)
      ensures old(Known(fanoutId)) ==>
        var c, tail, head := old(Cursor(fanoutId)), innerArray.arrayTailIndex, innerArray.arrayHeadIndex;
        queueFrontMap[fanoutId].index == c
        && (c == head ==> r == Ok(None))
        && (c != head ==> (r.Ok? <==> ValidIndex(c, tail, head)) && (r.Err? ==> r.error == IndexOutOfBounds)
                          && (r.Ok? ==> r == Ok(Some(DataAt(innerArray.entries, c)))))
    {
      var got := GetQueueFront(fanoutId);
      if got.Err? {
        return Err(got.error);
      }
      var qf := got.value;
      if qf.index == innerArray.arrayHeadIndex {
        return Ok(None);
      }
      var data := innerArray.Get(qf.index);
      if data.Err? {
        return Err(data.error);
      }
      return Ok(Some(data.value));
    }

    /** `peekLength(fanoutId)`: -1 when the cursor is at head, otherwise the
        length of the item at the cursor. No cursor moves. */
    method PeekLength(fanoutId: string) returns (r: Result<int>)
      requires Valid()
      modifies this
      ensures Valid() && (old(CursorsInRange()) ==> CursorsInRange())
      ensures old(Known(fanoutId)) <==> fanoutId in queueFrontMap
      ensures !old(Known(fanoutId)) ==> queueFrontMap == old(queueFrontMap)
      ensures old(Known(fanoutId)) ==> queueFrontMap == old(queueFrontMap)[fanoutId := queueFrontMap[fanoutId]]
      ensures !old(Known(fanoutId)) ==> r == Err(IllegalArgument)
      ensures old(Known(fanoutId)) ==>
        var c, tail, head := old(Cursor(fanoutId)), innerArray.arrayTailIndex, innerArray.arrayHeadIndex;
        queueFrontMap[fanoutId].index == c
        && (c == head ==> r == Ok(-1))
        && (c != head ==> (r.Ok? <==> ValidIndex(c, tail, head)) && (r.Err? ==> r.error == IndexOutOfBounds)
                          && (r.Ok? ==> r == Ok(|DataAt(innerArray.entries, c)|)))
    {
      var got := GetQueueFront(fanoutId);
      if got.Err? {
        return Err(got.error);
      }
      var qf := got.value;
      if qf.index == innerArray.arrayHeadIndex {
        return Ok(-1);
      }
      r := innerArray.GetItemLength(qf.index);
    }

    /** `peekTimestamp(fanoutId)`: -1 when the cursor is at head, otherwise
        the append timestamp of the item at the cursor. No cursor moves. */
    method PeekTimestamp(fanoutId: string) returns (r: Result<int>)
      requires Valid()
      modifies this
      ensures Valid() && (old(CursorsInRange()) ==> CursorsInRange())
      ensures old(Known(fanoutId)) <==> fanoutId in queueFrontMap
      ensures !old(Known(fanoutId)) ==> queueFrontMap == old(queueFrontMap)
      ensures old(Known(fanoutId)) ==> queueFrontMap == old(queueFrontMap)[fanoutId := queueFrontMap[fanoutId]]
      ensures !old(Known(fanoutId)) ==> r == Err(IllegalArgument)
      ensures old(Known(fanoutId)) ==>
        var c, tail, head := old(Cursor(fanoutId)), innerArray.arrayTailIndex, innerArray.arrayHeadIndex;
        queueFrontMap[fanoutId].index == c
        && (c == head ==> r == Ok(-1))
        && (c != head ==> (r.Ok? <==> ValidIndex(c, tail, head)) && (r.Err? ==> r.error == IndexOutOfBounds)
                          && (r.Ok? ==> c in innerArray.entries && r.value == innerArray.entries[c].timestamp))
    {
      var got := GetQueueFront(fanoutId);
      if got.Err? {
        return Err(got.error);
      }
      var qf := got.value;
      if qf.index == innerArray.arrayHeadIndex {
        return Ok(-1);
      }
      r := innerArray.GetTimestamp(qf.index);
    }

    /** `resetQueueFrontIndex(fanoutId, index)`: move the id's cursor to
        index and persist it, when index is head or valid; otherwise
        IndexOutOfBounds and the cursor stays. Only this id's cursor can
        change. */
    method ResetQueueFrontIndex(fanoutId: string, index: int) returns (r: Outcome)
      requires Valid() && IsLong(index)
      modifies this, CursorObject(fanoutId)
      ensures Valid() && (old(CursorsInRange()) ==> CursorsInRange())
      ensures old(Known(fanoutId)) <==> fanoutId in queueFrontMap
      ensures !old(Known(fanoutId)) ==> r == Failed(IllegalArgument) && queueFrontMap == old(queueFrontMap)
      ensures old(Known(fanoutId)) ==>
        queueFrontMap == old(queueFrontMap)[fanoutId := queueFrontMap[fanoutId]]
        && (r == Done <==> CursorInRange(index, innerArray.arrayTailIndex, innerArray.arrayHeadIndex))
        && (r == Done ==> queueFrontMap[fanoutId].index == index)
        && (r.Failed? ==> r.error == IndexOutOfBounds && queueFrontMap[fanoutId].index == old(Cursor(fanoutId)))
    {
      var got := GetQueueFront(fanoutId);
      if got.Err? {
        return Failed(got.error);
      }
      r := ResetAt(fanoutId, index);
    }

    /** `resetQueueFrontIndex` once the cursor of `fanoutId` exists. */
    method ResetAt(fanoutId: string, index: int) returns (r: Outcome)
      requires Valid() && fanoutId in queueFrontMap && IsLong(index)
      modifies queueFrontMap[fanoutId]
      ensures Valid() && (old(CursorsInRange()) ==> CursorsInRange())
      ensures r == Done <==> CursorInRange(index, innerArray.arrayTailIndex, innerArray.arrayHeadIndex)
      ensures r == Done ==> queueFrontMap[fanoutId].index == index
      ensures r.Failed? ==> r.error == IndexOutOfBounds && unchanged(queueFrontMap[fanoutId])
    {
      var qf := queueFrontMap[fanoutId];
      if index != innerArray.arrayHeadIndex {
        if innerArray.ValidateIndex(index).Failed? {
          return Failed(IndexOutOfBounds);
        }
      }
      qf.index := index;
      qf.PersistIndex();
      return Done;
    }

    /** `size(fanoutId)`: the distance from the cursor to head round the
        ring; for a cursor in range, the number of items left to it. */
    method SizeFor(fanoutId: string) returns (r: Result<int>)
      requires Valid()
      modifies this
      ensures Valid() && (old(CursorsInRange()) ==> CursorsInRange())
      ensures old(Known(fanoutId)) <==> fanoutId in queueFrontMap
      ensures !old(Known(fanoutId)) ==> queueFrontMap == old(queueFrontMap)
      ensures old(Known(fanoutId)) ==> queueFrontMap == old(queueFrontMap)[fanoutId := queueFrontMap[fanoutId]]
      ensures !old(Known(fanoutId)) ==> r == Err(IllegalArgument)
      ensures old(Known(fanoutId)) ==>
        var c, tail, head := queueFrontMap[fanoutId].index, innerArray.arrayTailIndex, innerArray.arrayHeadIndex;
        c == old(Cursor(fanoutId)) && r == Ok(Distance(c, head))
        && (CursorInRange(c, tail, head) ==> r == Ok(head - c))
    {
      var got := GetQueueFront(fanoutId);
      if got.Err? {
        return Err(got.error);
      }
      return Ok(SizeAt(fanoutId));
    }

    /** `size(fanoutId)` once the cursor of `fanoutId` exists: the
        distance from the cursor to head round the ring, which for a
        cursor in range is the number of items left to it. */
    function SizeAt(fanoutId: string): (size: int)
      reads this, innerArray, queueFrontMap.Values
      requires Valid() && fanoutId in queueFrontMap
      ensures var c, tail, head := queueFrontMap[fanoutId].index, innerArray.arrayTailIndex, innerArray.arrayHeadIndex;
        size == Distance(c, head) && (CursorInRange(c, tail, head) ==> size == head - c)
    {
      var qFront := queueFrontMap[fanoutId].index;
      var qRear := innerArray.arrayHeadIndex;
      if qFront <= qRear then qRear - qFront
      else LONG_MAX - qFront + 1 + qRear
    }

    /** `getFrontIndex(fanoutId)`: the id's cursor. */
    method GetFrontIndexFor(fanoutId: string) returns (r: Result<int>)
      requires Valid()
      modifies this
      ensures Valid() && (old(CursorsInRange()) ==> CursorsInRange())
      ensures old(Known(fanoutId)) <==> fanoutId in queueFrontMap
      ensures !old(Known(fanoutId)) ==> queueFrontMap == old(queueFrontMap)
      ensures old(Known(fanoutId)) ==> queueFrontMap == old(queueFrontMap)[fanoutId := queueFrontMap[fanoutId]]
      ensures !old(Known(fanoutId)) ==> r == Err(IllegalArgument)
      ensures old(Known(fanoutId)) ==> r == Ok(old(Cursor(fanoutId))) && queueFrontMap[fanoutId].index == old(Cursor(fanoutId))
    {
      var got := GetQueueFront(fanoutId);
      if got.Err? {
        return Err(got.error);
      }
      return Ok(got.value.index);
    }

    /** `getFrontIndex()`: the array's tail, the oldest position any cursor
        can read. */
    function GetFrontIndex(): (r: int)
      reads this, innerArray
      requires innerArray.Valid()
      ensures IsPosition(r)
      ensures innerArray.IsEmpty() || innerArray.Get(r).Ok?
      ensures GetRearIndex() - r == innerArray.Size()
    {
      innerArray.arrayTailIndex
    }

    /** `getRearIndex()`: the array's head, where the next item goes; no
        item is readable there. */
    function GetRearIndex(): (r: int)
      reads this, innerArray
      requires innerArray.Valid()
      ensures IsPosition(r) && innerArray.Get(r).Err?
    {
      innerArray.arrayHeadIndex
    }

    /** `findClosestIndex(timestamp)`: head for LATEST, tail for EARLIEST,
        otherwise the array's search. Any answer but NOT_FOUND (an empty
        array) is a position `resetQueueFrontIndex` accepts. */
    function FindClosestIndex(timestamp: int): (r: Result<int>)
      reads this, innerArray
      requires innerArray.Valid() && IsLong(timestamp)
      ensures timestamp == LATEST ==> r == Ok(GetRearIndex())
      ensures timestamp == EARLIEST ==> r == Ok(GetFrontIndex())
      ensures r.Ok? && (r.value == NOT_FOUND || CursorInRange(r.value, innerArray.arrayTailIndex, innerArray.arrayHeadIndex))
      ensures r == Ok(NOT_FOUND) ==> timestamp != LATEST && timestamp != EARLIEST && innerArray.IsEmpty()
    {
      if timestamp == LATEST then Ok(innerArray.arrayHeadIndex)
      else if timestamp == EARLIEST then Ok(innerArray.arrayTailIndex)
      else innerArray.FindClosestIndex(timestamp)
    }

    /** `removeBefore(timestamp)`, given the page index the index page
        factory answers for the timestamp: truncate the array (moving its
        tail and deleting the pages before it), then adjust every cursor.
        Afterwards every cursor is in range. */
    method RemoveBefore(firstIndexPageIndex: int)
      requires Valid() && IsLong(firstIndexPageIndex)
      modifies innerArray, queueFrontMap.Values
      ensures Valid() && CursorsInRange()
      ensures innerArray.arrayHeadIndex == old(innerArray.arrayHeadIndex) && innerArray.entries == old(innerArray.entries)
      ensures var target := WrapLong(firstIndexPageIndex * INDEX_ITEMS_PER_PAGE);
        if firstIndexPageIndex >= 0 && ValidIndex(target, old(innerArray.arrayTailIndex), old(innerArray.arrayHeadIndex))
        then innerArray.arrayTailIndex == target
             && TruncatedBefore(old(innerArray.indexPages), old(innerArray.dataPages), old(innerArray.records),
                                target, innerArray.indexPages, innerArray.dataPages)
             && innerArray.metaPages == old(innerArray.metaPages) && innerArray.records == old(innerArray.records)
        else unchanged(innerArray)
      ensures forall id | id in queueFrontMap ::
        queueFrontMap[id].index == AdjustedIndex(old(queueFrontMap[id].index), innerArray.arrayTailIndex, innerArray.arrayHeadIndex)
    {
      innerArray.RemoveBefore(firstIndexPageIndex);
      innerArray.EntriesCover();
      AdjustCursors();
    }

    /** `limitBackFileSize(sizeLimit)`, given the backing size the page
        factories report: truncate the array (moving its tail and deleting
        the back files before it), then adjust every cursor. A truncation
        that throws leaves the array and every cursor as they were. */
    method LimitBackFileSize(sizeLimit: int, backFileSize: int) returns (r: Outcome)
      requires Valid() && IsLong(sizeLimit) && IsLong(backFileSize)
      modifies innerArray, queueFrontMap.Values
      ensures Valid() && innerArray.arrayHeadIndex == old(innerArray.arrayHeadIndex) && innerArray.entries == old(innerArray.entries)
      ensures old(innerArray.LimitIsNoOp(sizeLimit, backFileSize)) ==>
        r == Done && unchanged(innerArray)
      ensures !old(innerArray.LimitIsNoOp(sizeLimit, backFileSize)) ==>
        var t := TruncationPoint(old(innerArray.records), old(innerArray.arrayTailIndex), old(innerArray.arrayHeadIndex),
                                 0, SubLong(backFileSize, sizeLimit));
        (r == Done <==> t != old(innerArray.arrayHeadIndex))
        && (r == Done ==> innerArray.arrayTailIndex == t
                          && TruncatedBefore(old(innerArray.indexPages), old(innerArray.dataPages), old(innerArray.records),
                                             t, innerArray.indexPages, innerArray.dataPages)
                          && innerArray.metaPages == old(innerArray.metaPages) && innerArray.records == old(innerArray.records))
      ensures r.Failed? ==> r.error == IndexOutOfBounds && unchanged(innerArray)
      ensures r.Failed? ==> forall id | id in queueFrontMap :: queueFrontMap[id].index == old(queueFrontMap[id].index)
      ensures r == Done ==> CursorsInRange()
      ensures r == Done ==> forall id | id in queueFrontMap ::
        queueFrontMap[id].index == AdjustedIndex(old(queueFrontMap[id].index), innerArray.arrayTailIndex, innerArray.arrayHeadIndex)
    {
      r := innerArray.LimitBackFileSize(sizeLimit, backFileSize);
      if r.Failed? {
        return;
      }
      innerArray.EntriesCover();
      AdjustCursors();
    }

    /** `validateAndAdjustIndex` on every cursor. */
    method AdjustCursors()
      requires CursorsValid() && 0 <= innerArray.arrayTailIndex <= innerArray.arrayHeadIndex <= LONG_MAX
      modifies queueFrontMap.Values
      ensures CursorsValid() && CursorsInRange()
      ensures forall id | id in queueFrontMap ::
        queueFrontMap[id].index == AdjustedIndex(old(queueFrontMap[id].index), innerArray.arrayTailIndex, innerArray.arrayHeadIndex)
    {
      var todo := queueFrontMap.Keys;
      ghost var tail, head := innerArray.arrayTailIndex, innerArray.arrayHeadIndex;
      while todo != {}
        invariant todo <= queueFrontMap.Keys && CursorsValid()
        invariant forall id | id in queueFrontMap && id !in todo ::
          queueFrontMap[id].index == AdjustedIndex(old(queueFrontMap[id].index), tail, head)
        invariant forall id | id in todo :: queueFrontMap[id].index == old(queueFrontMap[id].index)
        decreases todo
      {
        var id :| id in todo;
        AdjustAt(id);
        todo := todo - {id};
      }
    }

    /** `validateAndAdjustIndex` on the cursor of `fanoutId`. */
    method AdjustAt(fanoutId: string)
      requires CursorsValid() && fanoutId in queueFrontMap
      requires 0 <= innerArray.arrayTailIndex <= innerArray.arrayHeadIndex <= LONG_MAX
      modifies queueFrontMap[fanoutId]
      ensures CursorsValid()
      ensures queueFrontMap[fanoutId].index ==
        AdjustedIndex(old(queueFrontMap[fanoutId].index), innerArray.arrayTailIndex, innerArray.arrayHeadIndex)
      ensures forall id | id in queueFrontMap && id != fanoutId :: queueFrontMap[id].index == old(queueFrontMap[id].index)
    {
      queueFrontMap[fanoutId].ValidateAndAdjustIndex(innerArray);
    }

    /** `removeAll()`: set every cursor to 0 and persist it, then empty the
        array. */
    method RemoveAll()
      requires Valid()
      modifies innerArray, queueFrontMap.Values
      ensures Valid() && CursorsInRange()
      ensures innerArray.arrayHeadIndex == 0 && innerArray.arrayTailIndex == 0 && innerArray.entries == map[]
      ensures forall id | id in queueFrontMap :: queueFrontMap[id].index == 0
    {
      ZeroCursors();
      innerArray.RemoveAll();
    }

    /** The loop of `removeAll`: every cursor set to 0 and persisted. */
    method ZeroCursors()
      requires CursorsValid()
      modifies queueFrontMap.Values
      ensures CursorsValid()
      ensures forall id | id in queueFrontMap :: queueFrontMap[id].index == 0
    {
      var todo := queueFrontMap.Keys;
      while todo != {}
        invariant todo <= queueFrontMap.Keys && CursorsValid()
        invariant forall id | id in queueFrontMap && id !in todo :: queueFrontMap[id].index == 0
        decreases todo
      {
        var id :| id in todo;
        ZeroAt(id);
        todo := todo - {id};
      }
    }

    /** One step of `removeAll`'s loop: the cursor of `fanoutId` set to 0
        and persisted. */
    method ZeroAt(fanoutId: string)
      requires CursorsValid() && fanoutId in queueFrontMap
      modifies queueFrontMap[fanoutId]
      ensures CursorsValid()
      ensures queueFrontMap[fanoutId].index == 0
      ensures forall id | id in queueFrontMap && id != fanoutId :: queueFrontMap[id].index == old(queueFrontMap[id].index)
    {
      var qf := queueFrontMap[fanoutId];
      qf.index := 0;
      qf.PersistIndex();
    }
  }
}
