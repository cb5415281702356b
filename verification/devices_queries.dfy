/** The list query: optional equality filters on brand and state, newest
    first by creation time, then a one-indexed page. The table is the sequence
    of rows the store yields; `Skip` and `Take` follow LINQ, where a count at
    or below zero skips nothing and takes nothing. */
module DevicesQueries {
  import opened Wrappers
  import opened Devices

  function Min(a: int, b: int): int { if a <= b then a else b }
  function Max(a: int, b: int): int { if a >= b then a else b }

  // ---------------------------------------------------------------- filtering

  /** A `null` filter lets every device through; a present one demands equality.
      A device without a brand never equals a present brand filter. */
  predicate Matches(d: Device, brand: Option<string>, state: Option<StateType>)
  {
    && (brand.None? || d.brand == brand)
    && (state.None? || d.state == state.value)
  }

  /** The matching rows, each as often as it occurs in `rows`. */
  function Filter(rows: seq<Device>, brand: Option<string>, state: Option<StateType>): (r: seq<Device>)
    ensures forall d :: multiset(r)[d] == if Matches(d, brand, state) then multiset(rows)[d] else 0
    ensures forall i :: 0 <= i < |r| ==> Matches(r[i], brand, state)
  {
    if rows == [] then []
    else
      assert rows == [rows[0]] + rows[1..];
      var rest := Filter(rows[1..], brand, state);
      if Matches(rows[0], brand, state) then [rows[0]] + rest else rest
  }

  // ------------------------------------------------------------------ ordering

  /** Non-increasing creation time. The order among equal times is left open. */
  ghost predicate NewestFirst(s: seq<Device>)
  {
    forall i, j :: 0 <= i < j < |s| ==> s[i].creationTime >= s[j].creationTime
  }

  /** The head of a newest-first sequence is at least as new as every element. */
  lemma HeadIsNewest(s: seq<Device>)
    requires NewestFirst(s) && |s| > 0
    ensures forall x :: x in s ==> s[0].creationTime >= x.creationTime
  {
    forall x | x in s ensures s[0].creationTime >= x.creationTime {
      var j :| 0 <= j < |s| && s[j] == x;
      if j > 0 { assert s[0].creationTime >= s[j].creationTime; }
    }
  }

  /** Prepending an element at least as new as all others keeps the order. */
  lemma PrependNewestFirst(x: Device, s: seq<Device>)
    requires NewestFirst(s)
    requires forall y :: y in s ==> x.creationTime >= y.creationTime
    ensures NewestFirst([x] + s)
  {
    var t := [x] + s;
    forall i, j | 0 <= i < j < |t| ensures t[i].creationTime >= t[j].creationTime {
      assert t[j] == s[j - 1];
      if i > 0 { assert t[i] == s[i - 1]; } else { assert s[j - 1] in s; }
    }
  }

  /** Everything in `rest` is `d` or comes after the head of `s`, and `d` is
      older than that head: so the head may stay in front of `rest`. */
  lemma HeadStaysInFront(d: Device, s: seq<Device>, rest: seq<Device>)
    requires NewestFirst(s) && |s| > 0 && NewestFirst(rest)
    requires d.creationTime < s[0].creationTime
    requires forall x :: x in rest ==> x == d || x in s[1..]
    ensures NewestFirst([s[0]] + rest)
  {
    HeadIsNewest(s);
    forall x | x in rest ensures s[0].creationTime >= x.creationTime {
      if x != d { assert x in s; }
    }
    PrependNewestFirst(s[0], rest);
  }

  function Insert(d: Device, s: seq<Device>): (r: seq<Device>)
    requires NewestFirst(s)
    ensures NewestFirst(r)
    ensures multiset(r) == multiset(s) + multiset{d}
    ensures forall x :: x in r ==> x == d || x in s
  {
    if s == [] then [d]
    else if d.creationTime >= s[0].creationTime then
      InsertInFront(d, s);
      [d] + s
    else
      NewestFirstTail(s);
      var rest := Insert(d, s[1..]);
      InsertBehindHead(d, s, rest);
      [s[0]] + rest
  }

  lemma NewestFirstTail(s: seq<Device>)
    requires NewestFirst(s) && |s| > 0
    ensures NewestFirst(s[1..])
  {
    NewestFirstSlice(s, 1, |s|);
    assert s[1..|s|] == s[1..];
  }

  /** `d` is at least as new as the head, so it goes in front. */
  lemma InsertInFront(d: Device, s: seq<Device>)
    requires NewestFirst(s) && |s| > 0 && d.creationTime >= s[0].creationTime
    ensures NewestFirst([d] + s)
    ensures multiset([d] + s) == multiset(s) + multiset{d}
    ensures forall x :: x in [d] + s ==> x == d || x in s
  {
    HeadIsNewest(s);
    PrependNewestFirst(d, s);
  }

  /** `d` is older than the head, so the head stays in front of the rest with
      `d` inserted. */
  lemma InsertBehindHead(d: Device, s: seq<Device>, rest: seq<Device>)
    requires NewestFirst(s) && |s| > 0 && d.creationTime < s[0].creationTime
    requires NewestFirst(rest)
    requires multiset(rest) == multiset(s[1..]) + multiset{d}
    requires forall x :: x in rest ==> x == d || x in s[1..]
    ensures NewestFirst([s[0]] + rest)
    ensures multiset([s[0]] + rest) == multiset(s) + multiset{d}
    ensures forall x :: x in [s[0]] + rest ==> x == d || x in s
  {
    HeadStaysInFront(d, s, rest);
    assert s == [s[0]] + s[1..];
    forall x | x in [s[0]] + rest ensures x == d || x in s {
      if x != s[0] { assert x in rest; }
    }
  }

  /** `OrderByDescending(d => d.CreationTime)`. */
  function SortNewestFirst(s: seq<Device>): (r: seq<Device>)
    ensures NewestFirst(r)
    ensures multiset(r) == multiset(s)
  {
    if s == [] then []
    else
      assert s == [s[0]] + s[1..];
      Insert(s[0], SortNewestFirst(s[1..]))
  }

  /** A contiguous slice of a newest-first sequence is newest-first. */
  lemma NewestFirstSlice(s: seq<Device>, lo: int, hi: int)
    requires 0 <= lo <= hi <= |s|
    ensures NewestFirst(s) ==> NewestFirst(s[lo..hi])
  {
    if NewestFirst(s) {
      forall i, j | 0 <= i < j < hi - lo
        ensures s[lo..hi][i].creationTime >= s[lo..hi][j].creationTime
      {
        assert s[lo..hi][i] == s[lo + i] && s[lo..hi][j] == s[lo + j];
      }
    }
  }

  // ----------------------------------------------------------------- paging

  /** `Skip(n)`: everything after the first `n` elements. */
  function Skip(s: seq<Device>, n: int): (r: seq<Device>)
    ensures |r| == |s| - Min(Max(n, 0), |s|)
    ensures forall k :: 0 <= k < |r| ==> r[k] == s[k + Min(Max(n, 0), |s|)]
  {
    if n <= 0 then s else if n >= |s| then [] else s[n..]
  }

  /** `Take(n)`: the first `n` elements, or all of them if there are fewer. */
  function Take(s: seq<Device>, n: int): (r: seq<Device>)
    ensures |r| == Min(Max(n, 0), |s|)
    ensures forall k :: 0 <= k < |r| ==> r[k] == s[k]
  {
    if n <= 0 then [] else if n >= |s| then s else s[..n]
  }

  /** The number of rows skipped before page `page`, computed exactly. */
  function SkipCount(page: int, pageSize: int): int
  {
    (page - 1) * pageSize
  }

  /** `GetAllAsync`, with the skip count computed without overflow. */
  function GetAll(rows: seq<Device>, page: int, pageSize: int,
                  brand: Option<string>, state: Option<StateType>): (r: seq<Device>)
    ensures forall d :: d in r ==> d in rows && Matches(d, brand, state)
    ensures NewestFirst(r)
    ensures |r| <= Max(pageSize, 0)
  {
    var matches := Filter(rows, brand, state);
    var sorted := SortNewestFirst(matches);
    var r := Page(sorted, SkipCount(page, pageSize), pageSize);
    PageIsSubMultiset(sorted, SkipCount(page, pageSize), pageSize);
    PageIsNewestFirst(sorted, SkipCount(page, pageSize), pageSize);
    assert forall x :: x in r ==> x in rows && Matches(x, brand, state) by {
      forall x | x in r ensures x in rows && Matches(x, brand, state) {
        assert multiset(r)[x] > 0;
        assert multiset(sorted)[x] > 0;
        assert multiset(matches)[x] > 0;
      }
    }
    r
  }

  /** Skip then take, on an already filtered and ordered sequence: the elements
      from index `skip` on, at most `take` of them. */
  function Page(sorted: seq<Device>, skip: int, take: int): (r: seq<Device>)
    ensures |r| == Min(Max(take, 0), |sorted| - Min(Max(skip, 0), |sorted|))
    ensures forall k :: 0 <= k < |r| ==> r[k] == sorted[Min(Max(skip, 0), |sorted|) + k]
  {
    Take(Skip(sorted, skip), take)
  }

  /** A page is a contiguous slice of the ordered sequence. */
  lemma PageIsSubrange(sorted: seq<Device>, skip: int, take: int) returns (lo: int, hi: int)
    ensures 0 <= lo <= hi <= |sorted|
    ensures Page(sorted, skip, take) == sorted[lo..hi]
  {
    lo := Min(Max(skip, 0), |sorted|);
    hi := lo + Min(Max(take, 0), |sorted| - lo);
  }

  /** A page draws its elements from the ordered sequence... */
  lemma PageIsSubMultiset(sorted: seq<Device>, skip: int, take: int)
    ensures multiset(Page(sorted, skip, take)) <= multiset(sorted)
  {
    var lo, hi := PageIsSubrange(sorted, skip, take);
    SliceIsSubMultiset(sorted, lo, hi);
  }

  lemma SliceIsSubMultiset(s: seq<Device>, lo: int, hi: int)
    requires 0 <= lo <= hi <= |s|
    ensures multiset(s[lo..hi]) <= multiset(s)
  {
    assert s[lo..] == s[lo..hi] + s[hi..];
    assert multiset(s[lo..]) == multiset(s[lo..hi]) + multiset(s[hi..]);
    assert s == s[..lo] + s[lo..];
    assert multiset(s) == multiset(s[..lo]) + multiset(s[lo..]);
  }

  /** ...and keeps its order. */
  lemma PageIsNewestFirst(sorted: seq<Device>, skip: int, take: int)
    ensures NewestFirst(sorted) ==> NewestFirst(Page(sorted, skip, take))
  {
    var lo, hi := PageIsSubrange(sorted, skip, take);
    NewestFirstSlice(sorted, lo, hi);
  }

  // ------------------------------------------------- 32-bit skip computation

  const Int32Min: int := -0x8000_0000
  const Int32Max: int := 0x7fff_ffff

  predicate IsInt32(x: int) { Int32Min <= x <= Int32Max }

  /** C#'s unchecked `int` arithmetic: the result reduced into 32 bits. */
  function Wrap32(x: int): (r: int)
    ensures IsInt32(r)
    ensures (r - x) % 0x1_0000_0000 == 0
    ensures IsInt32(x) ==> r == x
  {
    (x + 0x8000_0000) % 0x1_0000_0000 - 0x8000_0000
  }

  /** `(page - 1) * pageSize` as the source evaluates it, on `int` operands. */
  function SkipCountAsWritten(page: int, pageSize: int): (r: int)
    requires IsInt32(page) && IsInt32(pageSize)
    ensures IsInt32(r)
    ensures (r - SkipCount(page, pageSize)) % 0x1_0000_0000 == 0
    ensures IsInt32(SkipCount(page, pageSize)) ==> r == SkipCount(page, pageSize)
  {
    var a := Wrap32(page - 1);
    var r := Wrap32(a * pageSize);
    WrapThenMultiply(page - 1, a, pageSize, r);
    r
  }

  /** Reducing a factor modulo 2^32 before multiplying, and the product after,
      leaves the product's residue unchanged. */
  lemma WrapThenMultiply(x: int, a: int, y: int, r: int)
    requires (a - x) % 0x1_0000_0000 == 0
    requires (r - a * y) % 0x1_0000_0000 == 0
    ensures (r - x * y) % 0x1_0000_0000 == 0
  {
    var m := 0x1_0000_0000;
    var k1 := (a - x) / m;
    var k2 := (r - a * y) / m;
    assert a - x == k1 * m;
    assert r - a * y == k2 * m;
    assert r - x * y == (r - a * y) + (a - x) * y;
    assert (a - x) * y == (k1 * y) * m;
    assert r - x * y == (k2 + k1 * y) * m;
  }

  /** `GetAllAsync` exactly as written, skip count overflow included. */
  function GetAllAsWritten(rows: seq<Device>, page: int, pageSize: int,
                           brand: Option<string>, state: Option<StateType>): (r: seq<Device>)
    requires IsInt32(page) && IsInt32(pageSize)
    ensures forall d :: d in r ==> d in rows && Matches(d, brand, state)
    ensures NewestFirst(r)
    ensures |r| <= Max(pageSize, 0)
    ensures IsInt32(SkipCount(page, pageSize)) ==> r == GetAll(rows, page, pageSize, brand, state)
  {
    var matches := Filter(rows, brand, state);
    var sorted := SortNewestFirst(matches);
    var skip := SkipCountAsWritten(page, pageSize);
    var r := Page(sorted, skip, pageSize);
    PageIsSubMultiset(sorted, skip, pageSize);
    PageIsNewestFirst(sorted, skip, pageSize);
    assert forall x :: x in r ==> x in rows && Matches(x, brand, state) by {
      forall x | x in r ensures x in rows && Matches(x, brand, state) {
        assert multiset(r)[x] > 0;
        assert multiset(sorted)[x] > 0;
        assert multiset(matches)[x] > 0;
      }
    }
    r
  }

  /** Page 65537 of size 65536 skips 2^32 rows, which wraps to zero: the query
      as written returns the first page again, where the intended page is empty. */
  lemma SkipCountOverflowShowsFirstPage(d: Device)
    ensures SkipCountAsWritten(65537, 65536) == 0
    ensures GetAllAsWritten([d], 65537, 65536, None, None) == [d]
    ensures GetAll([d], 65537, 65536, None, None) == []
  {
    assert Filter([d], None, None) == [d];
    assert SortNewestFirst([d]) == [d];
  }
}
