/** `findClosestIndex` and `closestBinarySearch` of BigArrayImpl.java: a
    binary search over the append timestamps of a position range, read
    through the range-checked `getTimestamp`. Both are read-only, so they
    are functions of the index pages and the (tail, head) range. */
module ClosestSearch {
  import opened Java
  import opened Ring
  import opened PageStore
  import opened IndexLayout

  /** `IBigArray.NOT_FOUND`. */
  const NOT_FOUND: int := -1

  /** `getTimestamp(i)`: IndexOutOfBounds for an index `validateIndex`
      rejects, otherwise the timestamp field of i's record. */
  function TimestampOf(index: Store, tail: int, head: int, i: int): (r: Result<int>)
    requires IndexStore(index)
    ensures r.Ok? <==> ValidIndex(i, tail, head)
    ensures r.Err? ==> r.error == IndexOutOfBounds
    ensures r.Ok? ==> r.value == ReadIndexItem(index, i).timestamp && IsLong(r.value)
  {
    if ValidIndex(i, tail, head) then Ok(TimestampAt(index, i)) else Err(IndexOutOfBounds)
  }

  /** `getTimestamp` of an array whose index pages are `index` and whose
      range is given by tail and head: the reader the search is run with. */
  function TimestampReader(index: Store, tail: int, head: int): (getTimestamp: int -> Result<int>)
    requires IndexStore(index)
    ensures forall i :: getTimestamp(i) == TimestampOf(index, tail, head, i)
  {
    i => TimestampOf(index, tail, head, i)
  }

  /** The midpoint of `closestBinarySearch`: when `low + high` overflows a
      long the sum is redone exactly (BigInteger) and shifted right by one.
      Either way it is the true midpoint. */
  function Midpoint(low: int, high: int): (mid: int)
    requires IsPosition(low) && IsPosition(high) && low <= high
    ensures mid == (low + high) / 2
    ensures low <= mid <= high
  {
    // the long sum of two positions: it wraps exactly when it passes Long.MAX_VALUE
    var sum := if low + high > LONG_MAX then low + high - LONG_MODULUS else low + high;
    if sum < 0 then (low + high) / 2 else sum / 2
  }

  /** `closestBinarySearch(low, high, ts)`, reading timestamps through the
      range-checked `getTimestamp`. When low < high the midpoint is below
      Long.MAX_VALUE, so `mid + 1` does not overflow; the search is not
      modelled for low == high == Long.MAX_VALUE, where it does. */
  function ClosestBinarySearch(getTimestamp: int -> Result<int>, low: int, high: int, ts: int): (r: Result<int>)
    requires IsPosition(low) && IsPosition(high) && low <= high
    requires low < high || high < LONG_MAX
    ensures r.Ok? ==> low <= r.value <= high
    ensures (forall i | low <= i <= high :: getTimestamp(i).Ok?) ==> r.Ok?
    decreases high - low
  {
    var mid := Midpoint(low, high);
    match getTimestamp(mid)
    case Err(e) => Err(e)
    case Ok(midTimestamp) =>
      if midTimestamp < ts then
        var nextLow := mid + 1;
        if nextLow >= high then Ok(high)
        else ClosestBinarySearch(getTimestamp, nextLow, high, ts)
      else if midTimestamp > ts then
        var nextHigh := mid - 1;
        if nextHigh <= low then Ok(low)
        else ClosestBinarySearch(getTimestamp, low, nextHigh, ts)
      else
        Ok(mid)
  }

  /** The search fails exactly with the failure of some `getTimestamp` it made
      within [low, high]. */
  lemma {:induction false} ClosestBinarySearchError(getTimestamp: int -> Result<int>, low: int, high: int, ts: int)
    requires IsPosition(low) && IsPosition(high) && low <= high
    requires low < high || high < LONG_MAX
    requires ClosestBinarySearch(getTimestamp, low, high, ts).Err?
    ensures exists i | low <= i <= high :: getTimestamp(i) == ClosestBinarySearch(getTimestamp, low, high, ts)
    decreases high - low
  {
    var mid := Midpoint(low, high);
    if getTimestamp(mid).Err? {
      assert getTimestamp(mid) == ClosestBinarySearch(getTimestamp, low, high, ts);
    } else if getTimestamp(mid).value < ts {
      ClosestBinarySearchError(getTimestamp, mid + 1, high, ts);
    } else {
      ClosestBinarySearchError(getTimestamp, low, mid - 1, ts);
    }
  }

  /** Over readable positions where ts occurs at k, with no larger timestamp
      before k and no smaller one after it (as in a non-decreasing run), the
      search finds a position holding ts. */
  lemma {:induction false} ClosestBinarySearchFindsExact(getTimestamp: int -> Result<int>, low: int, high: int, ts: int, k: int)
    requires IsPosition(low) && IsPosition(high) && low <= high
    requires low < high || high < LONG_MAX
    requires low <= k <= high && getTimestamp(k) == Ok(ts)
    requires forall i | low <= i <= high ::
               getTimestamp(i).Ok? && (i < k ==> getTimestamp(i).value <= ts) && (k < i ==> ts <= getTimestamp(i).value)
    ensures var r := ClosestBinarySearch(getTimestamp, low, high, ts);
      r.Ok? && getTimestamp(r.value) == Ok(ts)
    decreases high - low
  {
    var mid := Midpoint(low, high);
    var midTimestamp := getTimestamp(mid).value;
    var r := ClosestBinarySearch(getTimestamp, low, high, ts);
    if midTimestamp < ts {
      assert mid < k;
      if mid + 1 < high {
        ClosestBinarySearchFindsExact(getTimestamp, mid + 1, high, ts, k);
        assert r == ClosestBinarySearch(getTimestamp, mid + 1, high, ts);
      } else {
        assert k == high && r == Ok(high);
      }
    } else if midTimestamp > ts {
      assert k < mid;
      if low < mid - 1 {
        ClosestBinarySearchFindsExact(getTimestamp, low, mid - 1, ts, k);
        assert r == ClosestBinarySearch(getTimestamp, low, mid - 1, ts);
      } else {
        assert k == low && r == Ok(low);
      }
    } else {
      assert r == Ok(mid);
    }
  }

  /** `headIndex - 1`, or Long.MAX_VALUE when that is negative. */
  function LastIndex(head: int): (last: int)
    requires IsPosition(head)
    ensures IsPosition(last)
  {
    if head - 1 < 0 then LONG_MAX else head - 1
  }

  /** The `else` branch of `findClosestIndex`: search [0, lastIndex] and
      [tail, Long.MAX_VALUE], then keep the low result when its timestamp is
      strictly nearer to ts, nearness being `Math.abs` of a long difference. */
  function SearchBothParts(index: Store, tail: int, head: int, lastIndex: int, ts: int): (r: Result<int>)
    requires IndexStore(index) && IsPosition(tail) && IsPosition(lastIndex) && IsLong(ts)
    requires tail < LONG_MAX
    ensures r.Ok? ==> ValidIndex(r.value, tail, head)
    ensures ((forall i | 0 <= i <= lastIndex :: ValidIndex(i, tail, head))
             && (forall i | tail <= i <= LONG_MAX :: ValidIndex(i, tail, head))) ==> r.Ok?
  {
    var getTimestamp := TimestampReader(index, tail, head);
    match ClosestBinarySearch(getTimestamp, 0, lastIndex, ts)
    case Err(e) => Err(e)
    case Ok(lowPart) =>
      match ClosestBinarySearch(getTimestamp, tail, LONG_MAX, ts)
      case Err(e) => Err(e)
      case Ok(highPart) =>
        match TimestampOf(index, tail, head, lowPart)
        case Err(e) => Err(e)
        case Ok(lowTimestamp) =>
          match TimestampOf(index, tail, head, highPart)
          case Err(e) => Err(e)
          case Ok(highTimestamp) =>
            if AbsLong(SubLong(ts, lowTimestamp)) < AbsLong(SubLong(ts, highTimestamp)) then Ok(lowPart)
            else Ok(highPart)
  }

  /** `findClosestIndex(ts)` as written: the single search is taken only
      when `tail < lastIndex`. Not modelled for a wrapped ring whose tail is
      Long.MAX_VALUE (see SearchBothParts and ClosestBinarySearch). Whatever
      it returns is NOT_FOUND for an empty ring and a valid index otherwise. */
  function ClosestIndexAsWritten(index: Store, tail: int, head: int, ts: int): (r: Result<int>)
    requires IndexStore(index) && IsPosition(tail) && IsPosition(head) && IsLong(ts)
    requires tail < LONG_MAX || tail == head
    ensures tail == head ==> r == Ok(NOT_FOUND)
    ensures r.Ok? && tail != head ==> ValidIndex(r.value, tail, head)
  {
    if tail == head then Ok(NOT_FOUND)
    else
      var lastIndex := LastIndex(head);
      if tail < lastIndex then ClosestBinarySearch(TimestampReader(index, tail, head), tail, lastIndex, ts)
      else SearchBothParts(index, tail, head, lastIndex, ts)
  }

  /** `findClosestIndex(ts)` with the single search taken when
      `tail <= lastIndex`: on any non-empty ring it succeeds with a valid
      index. */
  function ClosestIndex(index: Store, tail: int, head: int, ts: int): (r: Result<int>)
    requires IndexStore(index) && IsPosition(tail) && IsPosition(head) && IsLong(ts)
    requires tail < LONG_MAX || tail == head
    ensures tail == head ==> r == Ok(NOT_FOUND)
    ensures tail != head ==> r.Ok? && ValidIndex(r.value, tail, head)
  {
    if tail == head then Ok(NOT_FOUND)
    else
      var lastIndex := LastIndex(head);
      if tail <= lastIndex then
        assert forall i | tail <= i <= lastIndex :: ValidIndex(i, tail, head);
        ClosestBinarySearch(TimestampReader(index, tail, head), tail, lastIndex, ts)
      else
        assert forall i | 0 <= i <= lastIndex :: ValidIndex(i, tail, head);
        assert forall i | tail <= i <= LONG_MAX :: ValidIndex(i, tail, head);
        SearchBothParts(index, tail, head, lastIndex, ts)
  }

  /** On an unwrapped ring whose timestamps never decrease from tail to
      head, the closest index of a timestamp that occurs holds it. */
  lemma ClosestIndexFindsExact(index: Store, tail: int, head: int, ts: int, k: int)
    requires IndexStore(index) && IsPosition(tail) && IsPosition(head) && IsLong(ts)
    requires tail < head
    requires forall i, j | tail <= i <= j < head :: ReadIndexItem(index, i).timestamp <= ReadIndexItem(index, j).timestamp
    requires tail <= k < head && ReadIndexItem(index, k).timestamp == ts
    ensures var r := ClosestIndex(index, tail, head, ts);
      r.Ok? && ReadIndexItem(index, r.value).timestamp == ts
  {
    var getTimestamp := TimestampReader(index, tail, head);
    SortedAround(index, tail, head, ts, k);
    ClosestBinarySearchFindsExact(getTimestamp, tail, head - 1, ts, k);
    assert ClosestIndex(index, tail, head, ts) == ClosestBinarySearch(getTimestamp, tail, head - 1, ts);
  }

  /** Over non-decreasing timestamps, every readable position before k
      holds at most ts = timestamp(k), and every one after k at least ts. */
  lemma SortedAround(index: Store, tail: int, head: int, ts: int, k: int)
    requires IndexStore(index) && tail < head
    requires forall i, j | tail <= i <= j < head :: ReadIndexItem(index, i).timestamp <= ReadIndexItem(index, j).timestamp
    requires tail <= k < head && ReadIndexItem(index, k).timestamp == ts
    ensures var getTimestamp := TimestampReader(index, tail, head);
      forall i | tail <= i <= head - 1 ::
        getTimestamp(i).Ok? && (i < k ==> getTimestamp(i).value <= ts) && (k < i ==> ts <= getTimestamp(i).value)
  {
    var getTimestamp := TimestampReader(index, tail, head);
    forall i | tail <= i <= head - 1
      ensures getTimestamp(i).Ok?
      ensures i < k ==> getTimestamp(i).value <= ts
      ensures k < i ==> ts <= getTimestamp(i).value
    {
      if i < k {
        assert ReadIndexItem(index, i).timestamp <= ReadIndexItem(index, k).timestamp;
      } else if k < i {
        assert ReadIndexItem(index, k).timestamp <= ReadIndexItem(index, i).timestamp;
      }
    }
  }

  /** The two agree except on a ring holding exactly one item at tail. */
  lemma ClosestIndexAsWrittenAgrees(index: Store, tail: int, head: int, ts: int)
    requires IndexStore(index) && IsPosition(tail) && IsPosition(head) && IsLong(ts)
    requires tail < LONG_MAX || tail == head
    requires head != tail + 1
    ensures ClosestIndexAsWritten(index, tail, head, ts) == ClosestIndex(index, tail, head, ts)
  {
  }

  /** With exactly one item, at position tail, the as-written search throws
      IndexOutOfBounds, because one of the ranges it searches has an invalid
      midpoint; the corrected search returns tail. */
  lemma ClosestIndexAsWrittenFailsOnSingleItem(index: Store, tail: int, ts: int)
    requires IndexStore(index) && 0 <= tail < LONG_MAX && IsLong(ts)
    ensures ClosestIndexAsWritten(index, tail, tail + 1, ts) == Err(IndexOutOfBounds)
    ensures ClosestIndex(index, tail, tail + 1, ts) == Ok(tail)
  {
    var head := tail + 1;
    var getTimestamp := TimestampReader(index, tail, head);
    assert Midpoint(0, LONG_MAX) == LONG_MAX / 2;
    if tail == 0 {
      assert ClosestBinarySearch(getTimestamp, 0, 0, ts) == Ok(0);
      assert getTimestamp(LONG_MAX / 2) == Err(IndexOutOfBounds);
      assert ClosestBinarySearch(getTimestamp, 0, LONG_MAX, ts) == Err(IndexOutOfBounds);
    } else {
      assert Midpoint(0, tail) == tail / 2 < tail;
      assert getTimestamp(tail / 2) == Err(IndexOutOfBounds);
      assert ClosestBinarySearch(getTimestamp, 0, tail, ts) == Err(IndexOutOfBounds);
    }
    assert ClosestBinarySearch(getTimestamp, tail, tail, ts) == Ok(tail);
  }
}
