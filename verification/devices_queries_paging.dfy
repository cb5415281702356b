/** How a page of the list query relates to the whole ordered list of matches.
    These facts belong to the list query. They sit in a module of their own
    only to keep the solver's work per proof small: proved inside the query
    module, the same lemmas come close to the verifier's resource limit. */
module DevicesQueriesPaging {
  import opened Wrappers
  import opened Devices
  import opened DevicesQueries

  /** A page is the slice `[(page-1)*pageSize, (page-1)*pageSize + pageSize)`
      of the matching rows in newest-first order, cut off at their end. */
  lemma GetAllIsPageSlice(rows: seq<Device>, page: int, pageSize: int,
                          brand: Option<string>, state: Option<StateType>)
    returns (sorted: seq<Device>, skip: int)
    requires page >= 1 && pageSize >= 0
    ensures sorted == SortNewestFirst(Filter(rows, brand, state))
    ensures skip == SkipCount(page, pageSize) && skip >= 0
    ensures |GetAll(rows, page, pageSize, brand, state)| == Max(0, Min(pageSize, |sorted| - skip))
    ensures forall k :: 0 <= k < |GetAll(rows, page, pageSize, brand, state)| ==>
              && 0 <= skip + k < |sorted|
              && GetAll(rows, page, pageSize, brand, state)[k] == sorted[skip + k]
  {
    sorted := SortNewestFirst(Filter(rows, brand, state));
    skip := SkipCount(page, pageSize);
    SkipCountNonNegative(page, pageSize);
    GetAllIsPage(rows, page, pageSize, brand, state);
    PageIsSlice(sorted, skip, pageSize);
  }

  /** The query is the page cut out of the ordered matches. */
  lemma GetAllIsPage(rows: seq<Device>, page: int, pageSize: int,
                     brand: Option<string>, state: Option<StateType>)
    ensures GetAll(rows, page, pageSize, brand, state)
              == Page(SortNewestFirst(Filter(rows, brand, state)), SkipCount(page, pageSize), pageSize)
  {
  }

  lemma PageIsSlice(sorted: seq<Device>, skip: int, take: int)
    requires skip >= 0 && take >= 0
    ensures var r := Page(sorted, skip, take);
            && |r| == Max(0, Min(take, |sorted| - skip))
            && forall k :: 0 <= k < |r| ==> 0 <= skip + k < |sorted| && r[k] == sorted[skip + k]
  {
  }

  lemma SkipCountNonNegative(page: int, pageSize: int)
    requires page >= 1 && pageSize >= 0
    ensures SkipCount(page, pageSize) >= 0
  {
    var p := page - 1;
    assert p >= 0;
    assert p * pageSize >= 0;
  }

  /** With page 1 and a page size that covers every match, the page holds every
      matching row, as often as it occurs, and nothing else. */
  lemma FirstPageHoldsAllMatches(rows: seq<Device>, pageSize: int,
                                 brand: Option<string>, state: Option<StateType>)
    requires pageSize >= |Filter(rows, brand, state)|
    ensures forall d :: multiset(GetAll(rows, 1, pageSize, brand, state))[d]
                          == if Matches(d, brand, state) then multiset(rows)[d] else 0
  {
    var sorted := SortNewestFirst(Filter(rows, brand, state));
    assert Take(Skip(sorted, 0), pageSize) == sorted;
  }

  /** Row `i` of the ordered matches sits on page `i / pageSize + 1`. */
  lemma PageOfIndex(i: nat, pageSize: int) returns (page: int, skip: int)
    requires pageSize > 0
    ensures page >= 1 && skip == SkipCount(page, pageSize)
    ensures skip <= i < skip + pageSize
  {
    var q := i / pageSize;
    assert i == q * pageSize + i % pageSize;
    page, skip := q + 1, q * pageSize;
  }

  /** Every matching row has a place in the ordered matches. */
  lemma MatchIsOrdered(rows: seq<Device>, brand: Option<string>, state: Option<StateType>, d: Device)
    returns (i: nat)
    requires d in rows && Matches(d, brand, state)
    ensures i < |SortNewestFirst(Filter(rows, brand, state))|
    ensures SortNewestFirst(Filter(rows, brand, state))[i] == d
  {
    var sorted := SortNewestFirst(Filter(rows, brand, state));
    assert multiset(rows)[d] > 0;
    assert d in multiset(sorted);
    i :| 0 <= i < |sorted| && sorted[i] == d;
  }

  /** With a positive page size, every matching row is on some page. */
  lemma EveryMatchIsOnSomePage(rows: seq<Device>, pageSize: int,
                               brand: Option<string>, state: Option<StateType>, d: Device)
    requires pageSize > 0
    requires d in rows && Matches(d, brand, state)
    ensures exists page :: page >= 1 && d in GetAll(rows, page, pageSize, brand, state)
  {
    var i := MatchIsOrdered(rows, brand, state, d);
    var page, skip := PageOfIndex(i, pageSize);
    var _, _ := GetAllIsPageSlice(rows, page, pageSize, brand, state);
    var r := GetAll(rows, page, pageSize, brand, state);
    assert 0 <= i - skip < |r|;
    assert r[i - skip] == d;
  }
}
