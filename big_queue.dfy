/** BigQueueImpl.java: a FIFO queue over one BigArrayImpl. The queue front
    (`queueFrontIndex`) is the position of the next item to dequeue and the
    array's head is the rear. The front is kept in memory and persisted in
    a one-page factory of its own (FrontIndex). */
module BigQueue {
  import opened Java
  import opened Ring
  import opened PageStore
  import opened FrontIndex
  import opened BigArray

  class BigQueueImpl {
    /** `innerArray` */
    const innerArray: BigArrayImpl
    /** `queueFrontIndexPageFactory` */
    var frontPages: Store
    /** `queueFrontIndex` */
    var queueFrontIndex: int

    /** The array is consistent, the front page holds the front, and the
        front lies between the array's tail and head: dequeue only moves it
        up to head, and gc only moves the tail up to front - 1. */
    ghost predicate Valid()
      reads this, innerArray
    {
      innerArray.Valid() && FrontStore(frontPages) && ReadFront(frontPages) == queueFrontIndex
      && innerArray.arrayTailIndex <= queueFrontIndex <= innerArray.arrayHeadIndex
    }

    /** The items in the queue, front first: what was enqueued at the
        positions from the front up to the head. */
    ghost function Items(): seq<Bytes>
      reads this, innerArray
    {
      Window(innerArray.entries, queueFrontIndex, innerArray.arrayHeadIndex)
    }

    /** The constructor, given the array it opened and the front page
        factory it opened: the front is read back from the page. The page
        must hold a front between the array's tail and head (a fresh
        directory, with no pages, holds 0). */
    constructor (innerArray: BigArrayImpl, frontPages: Store)
      requires innerArray.Valid() && FrontStore(frontPages)
      requires innerArray.arrayTailIndex <= ReadFront(frontPages) <= innerArray.arrayHeadIndex
      ensures Valid()
      ensures this.innerArray == innerArray && this.frontPages == frontPages
      ensures queueFrontIndex == ReadFront(frontPages)
    {
      this.innerArray := innerArray;
      this.frontPages := frontPages;
      queueFrontIndex := ReadFront(frontPages);
    }

    /** `isEmpty()`: the front has reached the head. */
    function IsEmpty(): (b: bool)
      reads this, innerArray
      requires Valid()
      ensures b <==> Items() == []
    {
      queueFrontIndex == innerArray.arrayHeadIndex
    }

    /** `size()`: the distance from the front to the head round the ring,
        which is the number of items in the queue. */
    function Size(): (n: int)
      reads this, innerArray
      requires Valid()
      ensures n == |Items()|
    {
      innerArray.EntriesCover();
      Distance(queueFrontIndex, innerArray.arrayHeadIndex)
    }

    /** `peek()`: `null` on an empty queue, otherwise the item at the front. */
    function Peek(): (r: Option<Bytes>)
      reads this, innerArray
      requires Valid()
      ensures r == None <==> Items() == []
      ensures r.Some? ==> r.value == Items()[0]
    {
      if IsEmpty() then None else Some(innerArray.Get(queueFrontIndex).value)
    }

    /** `enqueue(data)`, with `now` for the append's clock reading: append
        to the array. The item joins the back of the queue. */
    method Enqueue(data: Bytes, now: int)
      requires Valid() && |data| <= innerArray.dataPageSize && IsLong(now)
      requires innerArray.arrayHeadIndex < LONG_MAX
      modifies innerArray
      ensures Valid()
      ensures Items() == old(Items()) + [data]
      ensures Size() == old(Size()) + 1
      ensures queueFrontIndex == old(queueFrontIndex) && frontPages == old(frontPages)
    {
      var _ := innerArray.Append(data, now);
    }

    /** `dequeue()`: `null` and no change on an empty queue; otherwise the
        item at the front, with the front advanced by one (Long.MAX_VALUE
        wraps to 0) and persisted. */
    method Dequeue() returns (r: Option<Bytes>)
      requires Valid()
      modifies this
      ensures Valid()
      ensures r == old(Peek())
      ensures old(IsEmpty()) ==> unchanged(this)
      ensures !old(IsEmpty()) ==>
        queueFrontIndex == Next(old(queueFrontIndex)) && Items() == old(Items())[1..]
    {
      if IsEmpty() {
        return None;
      }
      var data := innerArray.Get(queueFrontIndex).value;
      AdvanceFront();
      return Some(data);
    }

    /** The non-empty half of `dequeue`: move the front past the item at
        it (Long.MAX_VALUE wraps to 0) and persist it. */
    method AdvanceFront()
      requires Valid() && !IsEmpty()
      modifies this
      ensures Valid()
      ensures queueFrontIndex == Next(old(queueFrontIndex)) && Items() == old(Items())[1..]
    {
      var front := queueFrontIndex;
      WindowAdvance(innerArray.entries, front, innerArray.arrayHeadIndex);
      innerArray.EntriesCover();
      var nextQueueFrontIndex := Next(front);
      assert nextQueueFrontIndex == front + 1;
      var persisted := WriteFront(frontPages, nextQueueFrontIndex);
      FrontRoundTrip(frontPages, nextQueueFrontIndex);
      SetFront(nextQueueFrontIndex, persisted);
    }

    /** Sets the in-memory front and its page together, to a front the
        page holds and that lies between the array's tail and head. */
    method SetFront(front: int, pages: Store)
      requires innerArray.Valid() && FrontStore(pages) && ReadFront(pages) == front
      requires innerArray.arrayTailIndex <= front <= innerArray.arrayHeadIndex
      modifies this
      ensures Valid() && queueFrontIndex == front && frontPages == pages
      ensures Items() == Window(innerArray.entries, front, innerArray.arrayHeadIndex)
    {
      queueFrontIndex, frontPages := front, pages;
    }

    /** `removeAll()`: empty the array, and set and persist the front to 0. */
    method RemoveAll()
      requires Valid()
      modifies this, innerArray
      ensures Valid()
      ensures Items() == []
      ensures queueFrontIndex == 0 && ReadFront(frontPages) == 0
      ensures innerArray.arrayHeadIndex == 0 && innerArray.arrayTailIndex == 0 && innerArray.entries == map[]
    {
      innerArray.RemoveAll();
      queueFrontIndex := 0;
      frontPages := PutFront(frontPages, 0);
    }

    /** `gc()`: remove the array positions before front - 1 (Long.MAX_VALUE
        when the front is 0), ignoring an out-of-range failure. The tail
        moves up to front - 1 when that is past it, deleting the index and
        data pages before it, and the queue keeps every item. */
    method Gc()
      requires Valid()
      modifies innerArray
      ensures Valid()
      ensures Items() == old(Items())
      ensures queueFrontIndex == old(queueFrontIndex) && innerArray.arrayHeadIndex == old(innerArray.arrayHeadIndex)
      ensures innerArray.arrayTailIndex ==
        if queueFrontIndex > old(innerArray.arrayTailIndex) then queueFrontIndex - 1 else old(innerArray.arrayTailIndex)
      ensures queueFrontIndex > old(innerArray.arrayTailIndex) ==>
        TruncatedBefore(old(innerArray.indexPages), old(innerArray.dataPages), old(innerArray.records),
                        queueFrontIndex - 1, innerArray.indexPages, innerArray.dataPages)
        && innerArray.metaPages == old(innerArray.metaPages) && innerArray.records == old(innerArray.records)
      ensures queueFrontIndex <= old(innerArray.arrayTailIndex) ==> unchanged(innerArray)
    {
      var beforeIndex := if queueFrontIndex == 0 then LONG_MAX else queueFrontIndex - 1;
      var _ := innerArray.RemoveBeforeIndex(beforeIndex);
    }

    /** `applyForEach(iterator)` with the loop running up to the head: the
        items handed to the iterator, in order. It changes nothing. */
    method ApplyForEach() returns (visited: seq<Bytes>)
      requires Valid()
      ensures visited == Items()
    {
      visited := [];
      if IsEmpty() {
        return;
      }
      var index := queueFrontIndex;
      var i := index;
      ghost var entries := innerArray.entries;
      while i < innerArray.arrayHeadIndex
        invariant index <= i <= innerArray.arrayHeadIndex
        invariant visited == Window(entries, index, i)
      {
        var data := innerArray.Get(i).value;
        assert data == DataAt(entries, i);
        assert Window(entries, index, i + 1) == Window(entries, index, i) + [DataAt(entries, i)];
        visited := visited + [data];
        i := i + 1;
      }
    }

    /** `applyForEach(iterator)` as written: the loop runs while
        i < innerArray.size(), that is head - tail, so once the tail has
        left 0 it stops short of the head. */
    method ApplyForEachAsWritten() returns (visited: seq<Bytes>)
      requires Valid()
      ensures visited == Items()[..ForEachCountAsWritten(queueFrontIndex, innerArray.arrayTailIndex, innerArray.arrayHeadIndex)]
    {
      visited := [];
      if IsEmpty() {
        return;
      }
      var index := queueFrontIndex;
      var i := index;
      ghost var entries := innerArray.entries;
      while i < innerArray.Size()
        invariant index <= i <= index + ForEachCountAsWritten(index, innerArray.arrayTailIndex, innerArray.arrayHeadIndex)
        invariant visited == Window(entries, index, i)
      {
        var data := innerArray.Get(i).value;
        assert data == DataAt(entries, i);
        assert Window(entries, index, i + 1) == Window(entries, index, i) + [DataAt(entries, i)];
        visited := visited + [data];
        i := i + 1;
      }
    }
  }

  /** How many items the as-written `applyForEach` visits: positions from
      the front while below head - tail. */
  function ForEachCountAsWritten(front: int, tail: int, head: int): (n: nat)
    requires 0 <= tail <= front <= head
    ensures n <= head - front
  {
    if front < head - tail then head - tail - front else 0
  }

  /** Whenever the tail is past 0 and the queue is not empty, the
      as-written loop misses the last item. With tail = front = 1 and
      head = 3 it visits one of the two items. */
  lemma ApplyForEachAsWrittenMisses(front: int, tail: int, head: int)
    requires 0 < tail <= front < head
    ensures ForEachCountAsWritten(front, tail, head) < head - front
    ensures ForEachCountAsWritten(1, 1, 3) == 1 && Distance(1, 3) == 2
  {
  }
}
