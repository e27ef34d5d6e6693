/** Ring positions. Array indexes and queue cursors are Java longs in
    [0, Long.MAX_VALUE]; a cursor that passes Long.MAX_VALUE continues at 0.
    The array's range check and the queues' size formula are defined here,
    once, for all three components. */
module Ring {
  import opened Java

  predicate IsPosition(p: int) { 0 <= p <= LONG_MAX }

  /** `validateIndex`: an index is in range when it lies in [tail, head), or,
      when the ring has wrapped (tail > head), when it is not in [head, tail).
      The check is on any long; negative values are not excluded in the
      wrapped case. */
  predicate ValidIndex(index: int, tail: int, head: int) {
    if tail <= head then tail <= index < head
    else !(index < tail && index >= head)
  }

  /** A cursor advanced by one, wrapping from Long.MAX_VALUE to 0. */
  function Next(p: int): (q: int)
    requires IsPosition(p)
    ensures IsPosition(q)
  {
    if p == LONG_MAX then 0 else p + 1
  }

  /** The queues' `size`: the number of positions from front up to (not
      including) rear, going round the ring. */
  function Distance(front: int, rear: int): (d: int)
    requires IsPosition(front) && IsPosition(rear)
    ensures 0 <= d <= LONG_MAX
    ensures d == 0 <==> front == rear
  {
    if front <= rear then rear - front else LONG_MAX - front + 1 + rear
  }

  /** The position reached from p after n advances. */
  function Walk(p: int, n: nat): (q: int)
    requires IsPosition(p)
    ensures IsPosition(q)
    decreases n
  {
    if n == 0 then p else Walk(Next(p), n - 1)
  }

  /** Advancing the front of a non-empty range shortens it by one. */
  lemma DistanceNextFront(front: int, rear: int)
    requires IsPosition(front) && IsPosition(rear)
    requires front != rear
    ensures Distance(Next(front), rear) == Distance(front, rear) - 1
  {
  }

  /** Advancing the rear lengthens the range by one, unless it meets the front. */
  lemma DistanceNextRear(front: int, rear: int)
    requires IsPosition(front) && IsPosition(rear)
    requires Next(rear) != front
    ensures Distance(front, Next(rear)) == Distance(front, rear) + 1
  {
  }

  /** Distance(front, rear) advances lead from front to rear ... */
  lemma {:induction false} WalkReachesRear(front: int, rear: int)
    requires IsPosition(front) && IsPosition(rear)
    ensures Walk(front, Distance(front, rear)) == rear
    decreases Distance(front, rear)
  {
    if front != rear {
      DistanceNextFront(front, rear);
      WalkReachesRear(Next(front), rear);
    }
  }

  /** ... and no fewer do. */
  lemma {:induction false} WalkBeforeRear(front: int, rear: int, k: nat)
    requires IsPosition(front) && IsPosition(rear)
    requires k < Distance(front, rear)
    ensures Walk(front, k) != rear
    decreases k
  {
    if k > 0 {
      DistanceNextFront(front, rear);
      WalkBeforeRear(Next(front), rear, k - 1);
    }
  }

  /** On positions, the valid indexes are exactly the first
      Distance(tail, head) positions of the ring walk from tail. */
  lemma ValidIndexByDistance(index: int, tail: int, head: int)
    requires IsPosition(index) && IsPosition(tail) && IsPosition(head)
    ensures ValidIndex(index, tail, head) <==> Distance(tail, index) < Distance(tail, head)
    ensures ValidIndex(index, tail, head) ==> Walk(tail, Distance(tail, index)) == index
  {
    WalkReachesRear(tail, index);
  }
}
