/** The page layer, seen only through IMappedPageFactory / IMappedPage: a
    factory owns fixed-size pages addressed by a long page index. Here a
    factory's pages are a value: a map from page index to the page's bytes.
    Acquiring a page that has no backing file yields a zero-filled page of
    the factory's size, so a page absent from the map reads as zeros. */
module PageStore {
  import opened Java

  function Zeros(n: nat): (s: Bytes)
    ensures |s| == n
    ensures forall k | 0 <= k < n :: s[k] == 0
  {
    if n == 0 then [] else Zeros(n - 1) + [0]
  }

  /** p with w put at offset off, the rest untouched. */
  function Splice(p: Bytes, off: nat, w: Bytes): (q: Bytes)
    requires off + |w| <= |p|
    ensures |q| == |p|
    ensures q[off..off + |w|] == w
    ensures forall k | 0 <= k < |p| && (k < off || off + |w| <= k) :: q[k] == p[k]
  {
    p[..off] + w + p[off + |w|..]
  }

  datatype Store = Store(pageSize: nat, pages: map<int, Bytes>) {

    /** Every backing page has the factory's page size. */
    ghost predicate WellFormed() {
      forall n | n in pages :: |pages[n]| == pageSize
    }

    /** `acquirePage(n)`: the page's bytes, zeros for a page not yet on disk. */
    function Page(n: int): (p: Bytes)
      requires WellFormed()
      ensures |p| == pageSize
    {
      if n in pages then pages[n] else Zeros(pageSize)
    }

    /** `getLocal(off, len)` on page n. */
    function Read(n: int, off: nat, len: nat): (s: Bytes)
      requires WellFormed()
      requires off + len <= pageSize
      ensures |s| == len
    {
      Page(n)[off..off + len]
    }

    /** `getLocal(off).put(w)` on page n (creating the page if needed). */
    function Write(n: int, off: nat, w: Bytes): (s: Store)
      requires WellFormed()
      requires off + |w| <= pageSize
      ensures s.WellFormed() && s.pageSize == pageSize
      ensures s.Read(n, off, |w|) == w
      ensures forall m | m != n :: s.Page(m) == Page(m)
    {
      Store(pageSize, pages[n := Splice(Page(n), off, w)])
    }

    /** `deletePagesBeforePageIndex(n)`: every page below n is gone. */
    function DeletePagesBefore(n: int): (s: Store)
      requires WellFormed()
      ensures s.WellFormed() && s.pageSize == pageSize
      ensures forall m | m in s.pages :: n <= m
      ensures forall m | n <= m :: s.Page(m) == Page(m)
    {
      Store(pageSize, map m | m in pages && n <= m :: pages[m])
    }

    /** `deleteAllPages()`. */
    function DeleteAllPages(): (s: Store)
      ensures s.WellFormed() && s.pageSize == pageSize && s.pages == map[]
    {
      Store(pageSize, map[])
    }
  }

  /** A write leaves every byte outside the written range as it was. */
  lemma ReadAfterWriteOther(s: Store, n: int, off: nat, w: Bytes, m: int, off2: nat, len2: nat)
    requires s.WellFormed()
    requires off + |w| <= s.pageSize && off2 + len2 <= s.pageSize
    requires m != n || off2 + len2 <= off || off + |w| <= off2
    ensures s.Write(n, off, w).Read(m, off2, len2) == s.Read(m, off2, len2)
  {
    if m == n {
      var p, q := s.Page(n), s.Write(n, off, w).Page(n);
      assert q == Splice(p, off, w);
      assert forall k | off2 <= k < off2 + len2 :: q[k] == p[k];
    }
  }

  /** t is s with w put at offset off of page n: w reads back, and every
      range that does not overlap it reads as before. */
  ghost predicate Written(s: Store, t: Store, n: int, off: nat, w: Bytes)
  {
    s.WellFormed() && t.WellFormed() && t.pageSize == s.pageSize && off + |w| <= s.pageSize
    && t.Read(n, off, |w|) == w
    && forall m, off2: nat, len2: nat | off2 + len2 <= s.pageSize && (m != n || off2 + len2 <= off || off + |w| <= off2) ::
         t.Read(m, off2, len2) == s.Read(m, off2, len2)
  }

  /** `acquirePage(n).getLocal(off).put(w)`: the page write as the caller
      sees it. */
  method Put(s: Store, n: int, off: nat, w: Bytes) returns (t: Store)
    requires s.WellFormed() && off + |w| <= s.pageSize
    ensures Written(s, t, n, off, w)
  {
    t := s.Write(n, off, w);
    forall m, off2: nat, len2: nat | off2 + len2 <= s.pageSize && (m != n || off2 + len2 <= off || off + |w| <= off2)
      ensures t.Read(m, off2, len2) == s.Read(m, off2, len2)
    {
      ReadAfterWriteOther(s, n, off, w, m, off2, len2);
    }
  }

  /** Reading part of a read range is reading at the shifted offset. */
  lemma ReadWithin(s: Store, n: int, off: nat, len: nat, a: nat, b: nat)
    requires s.WellFormed()
    requires off + len <= s.pageSize && a <= b <= len
    ensures s.Read(n, off, len)[a..b] == s.Read(n, off + a, b - a)
  {
    var p := s.Page(n);
    assert s.Read(n, off, len) == p[off..off + len];
    assert s.Read(n, off + a, b - a) == p[off + a..off + b];
  }
}
