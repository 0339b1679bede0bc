/** Client-side pagination of the merged vehicle list: the page window, the
    page count and the row of page buttons. */
module Paging {

  /** How `Array.prototype.slice` turns an argument into a position of a
      sequence of length `n`: negative arguments count from the end, and
      both ends are clamped to `[0, n]`. */
  function SliceIndex(k: int, n: nat): (r: nat)
    ensures r <= n
    ensures 0 <= k <= n ==> r == k
    ensures k > n ==> r == n
  {
    if k < 0 then (if n + k < 0 then 0 else n + k)
    else if k > n then n
    else k
  }

  /** `s.slice(start, end)`: the run of `s` from the clamped start up to the
      clamped end, empty when the end does not lie past the start. */
  function Slice<T>(s: seq<T>, start: int, end: int): (r: seq<T>)
    ensures var from := SliceIndex(start, |s|);
      from + |r| <= |s| && forall i :: 0 <= i < |r| ==> r[i] == s[from + i]
    ensures r == [] <==> SliceIndex(end, |s|) <= SliceIndex(start, |s|)
    ensures r != [] ==> SliceIndex(start, |s|) + |r| == SliceIndex(end, |s|)
  {
    var from, to := SliceIndex(start, |s|), SliceIndex(end, |s|);
    if to <= from then [] else s[from..to]
  }

  /** `allData.slice((page - 1) * limit, page * limit)`: for a page of at
      least 1, at most `limit` consecutive rows starting at row
      `(page - 1) * limit`. */
  function PageWindow<T>(all: seq<T>, page: int, limit: nat): (r: seq<T>)
    ensures page >= 1 ==> |r| <= limit
    ensures page >= 1 && r != [] ==> var start := (page - 1) * limit;
      0 <= start && start + |r| <= |all| && r == all[start..start + |r|]
  {
    var start := (page - 1) * limit;
    if page >= 1 then
      PageOffsets(page, limit);
      SliceRun(all, start, page * limit, limit);
      Slice(all, start, page * limit)
    else
      Slice(all, start, page * limit)
  }

  /** Page `page` starts at a non-negative row and ends `limit` rows later. */
  lemma PageOffsets(page: int, limit: nat)
    requires page >= 1
    ensures 0 <= (page - 1) * limit
    ensures page * limit == (page - 1) * limit + limit
  {
    MulMonotone(0, page - 1, limit);
  }

  /** A slice of `limit` positions from a non-negative start is at most
      `limit` rows of `s` starting there. */
  lemma SliceRun<T>(s: seq<T>, start: int, stop: int, limit: nat)
    requires start >= 0 && stop == start + limit
    ensures |Slice(s, start, stop)| <= limit
    ensures Slice(s, start, stop) != [] ==>
      start + |Slice(s, start, stop)| <= |s| && Slice(s, start, stop) == s[start..start + |Slice(s, start, stop)|]
  {
  }

  function Min(a: int, b: int): int
  {
    if a <= b then a else b
  }

  /** `Math.ceil(count / limit)`: the least number of pages of `limit` rows
      that holds `count` rows, 0 for an empty list. */
  function TotalPages(count: nat, limit: nat): (r: nat)
    requires limit > 0
    ensures count <= r * limit
    ensures r == 0 || (r - 1) * limit < count
    ensures r == 0 <==> count == 0
  {
    (count + limit - 1) / limit
  }

  /** The page buttons: none unless there is more than one page, otherwise
      `1, 2, ..., min(5, totalPages)`. */
  function PageButtons(totalPages: int): (r: seq<int>)
    ensures totalPages <= 1 ==> r == []
    ensures totalPages > 1 ==> |r| == Min(5, totalPages)
    ensures forall i :: 0 <= i < |r| ==> r[i] == i + 1
    ensures forall p :: p in r ==> 1 <= p <= totalPages
  {
    if totalPages > 1 then seq(Min(5, totalPages), i => i + 1) else []
  }

  lemma MulMonotone(a: int, b: int, limit: nat)
    requires a <= b
    ensures a * limit <= b * limit
  {
    assert b * limit - a * limit == (b - a) * limit;
  }

  /** For a page of at least 1 the window is the run of rows from
      `(page - 1) * limit`, cut at the end of the list: at most `limit` rows,
      and none once the page starts past the end. */
  lemma PageWindowRange<T>(all: seq<T>, page: int, limit: nat)
    requires page >= 1
    ensures var start := (page - 1) * limit;
      PageWindow(all, page, limit) ==
        if start >= |all| then [] else all[start..Min(start + limit, |all|)]
    ensures |PageWindow(all, page, limit)| <= limit
  {
    var start := (page - 1) * limit;
    MulMonotone(0, page - 1, limit);
    assert page * limit == start + limit;
  }

  /** The window of a page over a list is non-empty exactly when the page is
      one of the pages `totalPages` counts for that same list. */
  lemma PageWindowNonEmpty<T>(all: seq<T>, page: int, limit: nat)
    requires page >= 1 && limit > 0
    ensures PageWindow(all, page, limit) != [] <==> page <= TotalPages(|all|, limit)
  {
    PageWindowRange(all, page, limit);
    PageStartsWithin(|all|, page, limit);
  }

  /** Page `page` starts inside a list of `count` rows exactly when it is
      among the first `totalPages` pages. */
  lemma PageStartsWithin(count: nat, page: int, limit: nat)
    requires page >= 1 && limit > 0
    ensures (page - 1) * limit < count <==> page <= TotalPages(count, limit)
  {
    var t := TotalPages(count, limit);
    if page <= t {
      MulMonotone(page - 1, t - 1, limit);
    } else {
      MulMonotone(t, page - 1, limit);
    }
  }

  /** A button counted from a list opens a non-empty window of that same
      list. */
  lemma ButtonsOpenNonEmptyPages<T>(all: seq<T>, limit: nat, p: int)
    requires limit > 0
    requires p in PageButtons(TotalPages(|all|, limit))
    ensures PageWindow(all, p, limit) != []
  {
    PageWindowNonEmpty(all, p, limit);
  }

  /** With page buttons only up to 5, what a reachable page shows depends
      only on the first `5 * limit` rows: rows past them are never shown. */
  lemma OnlyFirstFivePagesShown<T>(all: seq<T>, page: int, limit: nat)
    requires 1 <= page <= 5
    ensures PageWindow(all, page, limit) == PageWindow(all[..Min(5 * limit, |all|)], page, limit)
  {
    var head := all[..Min(5 * limit, |all|)];
    PageOffsets(page, limit);
    MulMonotone(page, 5, limit);
    var start := (page - 1) * limit;
    PageWindowRange(all, page, limit);
    PageWindowRange(head, page, limit);
    WindowInPrefix(all, 5 * limit, start, start + limit);
  }

  /** A run of rows that ends within the first `n` rows reads the same from
      those `n` rows as from the whole list. */
  lemma WindowInPrefix<T>(all: seq<T>, n: nat, start: nat, stop: nat)
    requires start <= stop <= n
    ensures var head := all[..Min(n, |all|)];
      (if start >= |head| then [] else head[start..Min(stop, |head|)])
        == (if start >= |all| then [] else all[start..Min(stop, |all|)])
  {
  }

  /** Pages `1..k` laid end to end. */
  function Pages<T>(all: seq<T>, limit: nat, k: nat): seq<T>
  {
    if k == 0 then [] else Pages(all, limit, k - 1) + PageWindow(all, k, limit)
  }

  /** The windows of pages `1..totalPages` laid end to end give back the
      whole list: every row lies in exactly one page window, in order. Only
      windows 1 to 5 have buttons, so only those can be displayed. */
  lemma {:induction false} PagesCoverAll<T>(all: seq<T>, limit: nat)
    requires limit > 0
    ensures Pages(all, limit, TotalPages(|all|, limit)) == all
  {
    var t := TotalPages(|all|, limit);
    PagesPrefix(all, limit, t);
    assert all[..|all|] == all;
  }

  lemma {:induction false} PagesPrefix<T>(all: seq<T>, limit: nat, k: nat)
    ensures Pages(all, limit, k) == all[..Min(k * limit, |all|)]
  {
    if k > 0 {
      PagesPrefix(all, limit, k - 1);
      PageWindowRange(all, k, limit);
      PageOffsets(k, limit);
      PrefixExtend(all, (k - 1) * limit, k * limit, limit);
    }
  }

  /** The rows up to `start`, followed by the next (at most) `limit` rows,
      are the rows up to `stop`. */
  lemma PrefixExtend<T>(all: seq<T>, start: int, stop: int, limit: nat)
    requires 0 <= start && stop == start + limit
    ensures all[..Min(start, |all|)] + (if start >= |all| then [] else all[start..Min(start + limit, |all|)])
      == all[..Min(stop, |all|)]
  {
    if start < |all| {
      assert all[..start] + all[start..Min(stop, |all|)] == all[..Min(stop, |all|)];
    }
  }
}
