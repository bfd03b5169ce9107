/** The paginator shared by the activity-log and user screens: a page count that
    is at least one, a requested page clamped to it, the slice shown, and the
    previous/next buttons. Pages are numbered from 1. */
module Paging {

  function Min(a: int, b: int): int { if a <= b then a else b }
  function Max(a: int, b: int): int { if a >= b then a else b }

  /** `Math.max(1, Math.ceil(n / size))`: the fewest pages of `size` items that
      hold `n` items, and one (empty) page when there are none. */
  function TotalPages(n: nat, size: nat): (r: nat)
    requires size >= 1
    ensures r >= 1
    ensures n <= r * size
    ensures r == 1 || (r - 1) * size < n
  {
    if n == 0 then 1
    else
      var r := (n + size - 1) / size;
      var m := (n + size - 1) % size;
      assert n + size - 1 == r * size + m && 0 <= m < size;
      assert (r - 1) * size == r * size - size;
      r
  }

  /** `Math.min(page, totalPages)`: the page actually shown. */
  function CurrentPage(page: int, total: int): (r: int)
    requires page >= 1 && total >= 1
    ensures 1 <= r <= total
    ensures r == page || (page > total && r == total)
  {
    Min(page, total)
  }

  /** `Array.prototype.slice(start, end)` for non-negative bounds: both bounds are
      clamped to the length, and an end before the start gives nothing. */
  function Slice<T>(s: seq<T>, start: nat, end: nat): (r: seq<T>)
    ensures |r| <= Max(0, end - start)
    ensures start <= end <= |s| ==> r == s[start..end]
    ensures start <= |s| <= end ==> r == s[start..]
    ensures start >= |s| ==> r == []
  {
    var a := Min(start, |s|);
    var b := Min(end, |s|);
    if b <= a then [] else s[a..b]
  }

  /** The items on page `page` (counted from 1) of `size` items per page. */
  function PageItems<T>(s: seq<T>, page: int, size: nat): (r: seq<T>)
    requires page >= 1 && size >= 1
    ensures |r| <= size
  {
    var start := (page - 1) * size;
    Slice(s, start, start + size)
  }

  /** The items shown when page `page` is requested: the page is first clamped
      to the page count. */
  function VisibleItems<T>(s: seq<T>, page: int, size: nat): (r: seq<T>)
    requires page >= 1 && size >= 1
    ensures |r| <= size
    ensures |s| > 0 ==> |r| > 0
  {
    var total := TotalPages(|s|, size);
    var current := CurrentPage(page, total);
    MulMono(current - 1, total - 1, size);
    PageItems(s, current, size)
  }

  lemma MulMono(a: nat, b: nat, c: nat)
    requires a <= b
    ensures a * c <= b * c
  {
  }

  /** Pages 1 to `k`, one after the other. */
  function Pages<T>(s: seq<T>, size: nat, k: nat): seq<T>
    requires size >= 1
  {
    if k == 0 then [] else Pages(s, size, k - 1) + PageItems(s, k, size)
  }

  /** The first `k` pages are the first `k * size` items (or all of them). */
  lemma {:induction false} PagesArePrefix<T>(s: seq<T>, size: nat, k: nat)
    requires size >= 1
    ensures Pages(s, size, k) == s[..Min(k * size, |s|)]
  {
    if k > 0 {
      PagesArePrefix(s, size, k - 1);
      var start := (k - 1) * size;
      MulSucc(k - 1, size);
      PrefixThenSlice(s, start, start + size);
    }
  }

  lemma MulSucc(a: nat, b: nat)
    ensures a * b + b == (a + 1) * b
  {
  }

  /** The items before `start`, then the slice from `start` to `end`, are the
      items before `end`. */
  lemma PrefixThenSlice<T>(s: seq<T>, start: nat, end: nat)
    requires start <= end
    ensures s[..Min(start, |s|)] + Slice(s, start, end) == s[..Min(end, |s|)]
  {
    if start >= |s| {
    } else if end <= |s| {
      assert s[..end] == s[..start] + s[start..end];
    } else {
      assert s[..|s|] == s[..start] + s[start..];
    }
  }

  /** Reading pages 1 to the page count in order gives back the whole list,
      each item exactly once. */
  lemma PagesCoverList<T>(s: seq<T>, size: nat)
    requires size >= 1
    ensures Pages(s, size, TotalPages(|s|, size)) == s
  {
    PagesArePrefix(s, size, TotalPages(|s|, size));
  }

  // ---------------------------------------------------------------------------
  // Previous / next buttons
  // ---------------------------------------------------------------------------

  /** "Next" (`p => Math.min(totalPages, p + 1)`) never passes the last page, and
      moves the page shown forward by one unless it is already the last. */
  function Next(page: int, total: int): (r: int)
    requires page >= 1 && total >= 1
    ensures 1 <= r <= total
    ensures page < total ==> r == page + 1
    ensures CurrentPage(r, total) == Min(total, CurrentPage(page, total) + 1)
  {
    Min(total, page + 1)
  }

  /** "Previous" as the screens write it, `p => Math.max(1, p - 1)`: it steps back
      from the stored page, not from the page shown. */
  function PrevAsWritten(page: int): (r: int)
    requires page >= 1
    ensures r == if page > 1 then page - 1 else 1
  {
    Max(1, page - 1)
  }

  /** Whenever the stored page is beyond the page count (the list shrank on a
      refetch while a later page was open) and there are at least two pages,
      "Previous" is enabled because the last page is shown, yet pressing it
      shows the same page again instead of the one before. */
  lemma PrevAsWrittenStalls(page: int, total: int)
    requires page > total >= 2
    ensures CurrentPage(page, total) == total > 1
    ensures CurrentPage(PrevAsWritten(page), total) == CurrentPage(page, total)
    ensures CurrentPage(PrevAsWritten(page), total) != Max(1, CurrentPage(page, total) - 1)
  {
  }

  /** "Previous" stepping back from the page shown: it never goes below page 1
      and always shows the page before the one that was shown. */
  function Prev(page: int, total: int): (r: int)
    requires page >= 1 && total >= 1
    ensures 1 <= r <= total
    ensures CurrentPage(r, total) == Max(1, CurrentPage(page, total) - 1)
  {
    Max(1, CurrentPage(page, total) - 1)
  }
}
