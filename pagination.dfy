/** The pagination arithmetic of the product list: page count, the window of
    one page over the filtered list, and the previous/next clamps. */
module Pagination {

  /** The page sizes the selector offers; the component starts at 5. */
  const PageSizes: set<int> := {5, 10, 20}
  const InitialPageSize := 5

  function Min(a: int, b: int): int { if a < b then a else b }

  /** `Math.ceil(n / perPage)` for a count `n` of filtered records. */
  function TotalPages(n: nat, perPage: int): nat
    requires perPage > 0
  {
    (n + perPage - 1) / perPage
  }

  /** The page count is the least number of pages of `perPage` records that
      hold `n` records: 0 pages for no record, and one page fewer would not do. */
  lemma TotalPagesIsCeiling(n: nat, perPage: int)
    requires perPage > 0
    ensures TotalPages(n, perPage) == 0 <==> n == 0
    ensures n <= TotalPages(n, perPage) * perPage
    ensures n > 0 ==> (TotalPages(n, perPage) - 1) * perPage < n
  {
    var t := TotalPages(n, perPage);
    var r := (n + perPage - 1) % perPage;
    assert n + perPage - 1 == t * perPage + r;
    assert (t - 1) * perPage == t * perPage - perPage;
  }

  /** How `Array.prototype.slice` resolves one bound: a negative bound counts
      from the end, and the result is clamped to `[0, len]`. */
  function SliceBound(len: nat, k: int): (b: nat)
    ensures b <= len
    ensures 0 <= k ==> b == Min(k, len)
  {
    if k < 0 then (if len + k < 0 then 0 else len + k)
    else if k > len then len
    else k
  }

  /** `s.slice(start, end)`. */
  function Slice<T>(s: seq<T>, start: int, end: int): seq<T> {
    var from := SliceBound(|s|, start);
    var to := SliceBound(|s|, end);
    if from < to then s[from..to] else []
  }

  /** A slice is never longer than the list; between non-negative bounds it is
      the stretch from `start` up to `end`, both clamped to the length, and
      empty when the clamped end does not lie past the clamped start. */
  lemma SliceIsClampedStretch<T>(s: seq<T>, start: int, end: int)
    ensures |Slice(s, start, end)| <= |s|
    ensures 0 <= start && 0 <= end ==>
      Slice(s, start, end) == (if Min(start, |s|) < Min(end, |s|) then s[Min(start, |s|)..Min(end, |s|)] else [])
  {
  }

  /** The records shown on `page`: `s.slice((page - 1) * perPage, (page - 1) * perPage + perPage)`. */
  function Window<T>(s: seq<T>, page: int, perPage: int): seq<T> {
    var start := (page - 1) * perPage;
    Slice(s, start, start + perPage)
  }

  /** A window never holds more than `perPage` records and is a contiguous
      stretch of the list, starting at position `lo`. */
  lemma WindowIsContiguous<T>(s: seq<T>, page: int, perPage: int) returns (lo: nat)
    requires perPage > 0
    ensures |Window(s, page, perPage)| <= perPage
    ensures lo + |Window(s, page, perPage)| <= |s|
    ensures Window(s, page, perPage) == s[lo..lo + |Window(s, page, perPage)|]
  {
    var start := (page - 1) * perPage;
    lo := SliceBound(|s|, start);
  }

  lemma MulMonotone(a: int, b: int, c: nat)
    requires a <= b
    ensures a * c <= b * c
  {
  }

  /** On a page from 1 on, the window is the part of `[(page - 1) * perPage,
      page * perPage)` that lies inside the list. It is non-empty exactly for
      the pages 1 to `TotalPages`, and full on every page but the last. */
  lemma {:induction false} WindowOfPage<T>(s: seq<T>, page: int, perPage: int)
    requires page >= 1 && perPage > 0
    ensures Window(s, page, perPage) == s[Min((page - 1) * perPage, |s|)..Min(page * perPage, |s|)]
    ensures Window(s, page, perPage) != [] <==> page <= TotalPages(|s|, perPage)
    ensures page < TotalPages(|s|, perPage) ==> |Window(s, page, perPage)| == perPage
  {
    var n := |s|;
    var start := (page - 1) * perPage;
    MulMonotone(0, page - 1, perPage);
    assert start + perPage == page * perPage;
    var t := TotalPages(n, perPage);
    TotalPagesIsCeiling(n, perPage);
    if page <= t {
      MulMonotone(page - 1, t - 1, perPage);
    } else {
      MulMonotone(t, page - 1, perPage);
    }
    if page < t {
      MulMonotone(page, t - 1, perPage);
    }
  }

  /** Pages 1 to `count` laid end to end. */
  function Pages<T>(s: seq<T>, perPage: int, count: nat): seq<T> {
    if count == 0 then [] else Pages(s, perPage, count - 1) + Window(s, count, perPage)
  }

  lemma {:induction false} PagesArePrefix<T>(s: seq<T>, perPage: int, count: nat)
    requires perPage > 0
    ensures Pages(s, perPage, count) == s[..Min(count * perPage, |s|)]
  {
    if count > 0 {
      PagesArePrefix(s, perPage, count - 1);
      WindowOfPage(s, count, perPage);
      var a := Min((count - 1) * perPage, |s|);
      var b := Min(count * perPage, |s|);
      MulMonotone(count - 1, count, perPage);
      assert s[..a] + s[a..b] == s[..b];
    }
  }

  /** Pages 1 to `TotalPages` laid end to end give back the whole list, with
      no record left out and none repeated. */
  lemma PagesReassemble<T>(s: seq<T>, perPage: int)
    requires perPage > 0
    ensures Pages(s, perPage, TotalPages(|s|, perPage)) == s
  {
    PagesArePrefix(s, perPage, TotalPages(|s|, perPage));
    TotalPagesIsCeiling(|s|, perPage);
    assert s[..|s|] == s;
  }

  /** The "previous" button: `Math.max(1, page - 1)`. */
  function PrevPage(page: int): (r: int)
    ensures r >= 1
    ensures page > 1 ==> r == page - 1
    ensures page <= 1 ==> r == 1
  {
    if page - 1 < 1 then 1 else page - 1
  }

  /** The "next" button: `Math.min(total, page + 1)`. */
  function NextPage(page: int, total: int): (r: int)
    ensures r <= total
    ensures page < total ==> r == page + 1
    ensures page >= total ==> r == total
  {
    if page + 1 < total then page + 1 else total
  }

  /** From a page in `[1, total]`, both buttons land in `[1, total]`; at the
      bound where a button is disabled, pressing it would change nothing. */
  lemma NavigationStaysInRange(page: int, total: int)
    requires 1 <= page <= total
    ensures 1 <= PrevPage(page) <= total
    ensures 1 <= NextPage(page, total) <= total
    ensures page == 1 ==> PrevPage(page) == page
    ensures page == total ==> NextPage(page, total) == page
  {
  }
}
