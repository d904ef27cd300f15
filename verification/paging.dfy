/** In-memory pagination: `Collection::slice` (PHP `array_slice`) and the page
    metadata `LengthAwarePaginator` computes. */
module Paging {
  import opened Wrappers

  function Min(a: int, b: int): int { if a <= b then a else b }
  function Max(a: int, b: int): int { if a >= b then a else b }

  /** PHP `array_slice($s, $offset, $length)` by position: a negative offset
      counts from the end, a negative length stops that many before the end. */
  function ArraySlice<T>(s: seq<T>, offset: int, length: int): (r: seq<T>)
    ensures 0 <= offset && 0 <= length ==> r == s[Min(offset, |s|)..Min(offset + length, |s|)]
    ensures offset < 0 && 0 <= length ==>
              r == s[Max(0, |s| + offset)..Min(Max(0, |s| + offset) + length, |s|)]
    ensures length < 0 ==> |r| <= Max(0, |s| + length)
    ensures forall i :: 0 <= i < |r| ==> r[i] in s
  {
    var n := |s|;
    if offset > n then []
    else
      var start := if offset >= 0 then offset else Max(0, n + offset);
      var len := if length < 0 then n - start + length
                 else if start + length > n then n - start
                 else length;
      if len <= 0 then [] else s[start..start + len]
  }

  /** What `new LengthAwarePaginator($items, $total, $perPage, $page)` reports. */
  datatype Page<T> = Page(items: seq<T>, total: nat, perPage: int, currentPage: int, lastPage: int)

  /** `max((int) ceil($total / $perPage), 1)` for a non-zero page size. */
  function LastPage(total: nat, perPage: int): (r: int)
    requires perPage != 0
    ensures r >= 1
    ensures perPage > 0 ==> (r - 1) * perPage < Max(total, 1) <= r * perPage
  {
    if perPage < 0 then 1
    else if total == 0 then 1
    else (total + perPage - 1) / perPage
  }

  /** Where page `page` starts: at or after 0 for a positive page, before 0
      otherwise. */
  lemma PageOffset(page: int, perPage: int)
    ensures page * perPage == (page - 1) * perPage + perPage
    ensures perPage >= 1 && page >= 1 ==> (page - 1) * perPage >= 0
    ensures perPage >= 1 && page < 1 ==> (page - 1) * perPage <= -perPage
  {
    if perPage >= 1 && page < 1 {
      assert (page - 1) * perPage == -((1 - page) * perPage);
    }
  }

  /** `paginateCollection`: the slice starting at `(page - 1) * perPage` of
      length `perPage`, re-indexed, with the total count. A zero page size
      makes the paginator divide by zero (`None`). The reported current page
      is clamped to 1, but the slice is taken with the page as given. */
  function Paginate<T>(items: seq<T>, page: int, perPage: int): (r: Option<Page<T>>)
    ensures r.None? <==> perPage == 0
    ensures r.Some? ==> r.value.total == |items| && r.value.perPage == perPage
    ensures r.Some? ==> r.value.currentPage == (if page >= 1 then page else 1)
    ensures r.Some? ==> r.value.lastPage == LastPage(|items|, perPage)
    ensures r.Some? ==> r.value.items == ArraySlice(items, (page - 1) * perPage, perPage)
    ensures page < 1 && perPage >= 1 ==>
              var start := Max(0, |items| + (page - 1) * perPage);
              r.value.items == items[start..Min(start + perPage, |items|)]
    ensures page >= 1 && perPage >= 1 && (page - 1) * perPage <= |items| ==>
              r == Some(Page(items[(page - 1) * perPage..Min(page * perPage, |items|)], |items|, perPage, page,
                             LastPage(|items|, perPage)))
    ensures page >= 1 && perPage >= 1 && (page - 1) * perPage >= |items| ==> r.value.items == []
    ensures page >= 1 && perPage >= 1 ==> |r.value.items| == Max(0, Min(perPage, |items| - (page - 1) * perPage))
    ensures r.Some? ==> forall i :: 0 <= i < |r.value.items| ==> r.value.items[i] in items
  {
    if perPage == 0 then None
    else
      PageOffset(page, perPage);
      Some(Page(ArraySlice(items, (page - 1) * perPage, perPage), |items|, perPage,
                if page >= 1 then page else 1, LastPage(|items|, perPage)))
  }

  /** The items of pages 1 to `k`, concatenated. */
  function PagesUpTo<T>(items: seq<T>, perPage: int, k: nat): seq<T>
    requires perPage >= 1
  {
    if k == 0 then [] else PagesUpTo(items, perPage, k - 1) + Paginate(items, k, perPage).value.items
  }

  lemma PageItems<T>(items: seq<T>, k: int, perPage: int, lo: int)
    requires perPage >= 1 && k >= 1 && lo == (k - 1) * perPage
    ensures lo >= 0
    ensures lo <= |items| ==> Paginate(items, k, perPage).value.items == items[lo..Min(lo + perPage, |items|)]
    ensures lo > |items| ==> Paginate(items, k, perPage).value.items == []
  {
    assert k * perPage == lo + perPage;
  }

  /** The pages before `k` end where page `k` starts. */
  lemma PageBoundary(k: int, perPage: int, hi: int, lo: int)
    requires k >= 1 && perPage >= 1 && hi == k * perPage && lo == hi - perPage
    ensures lo == (k - 1) * perPage && lo >= 0
  {
  }

  /** A prefix followed by the window after it is the longer prefix. */
  lemma PrefixThenWindow<T>(s: seq<T>, lo: int, hi: int)
    requires 0 <= lo <= hi
    ensures lo <= |s| ==> s[..Min(lo, |s|)] + s[lo..Min(hi, |s|)] == s[..Min(hi, |s|)]
    ensures lo > |s| ==> s[..Min(lo, |s|)] == s[..Min(hi, |s|)]
  {
  }

  /** Pages 1 to `k` concatenated are the first `k * perPage` items. */
  lemma {:induction false} PagesUpToPrefix<T>(items: seq<T>, perPage: int, k: nat, hi: int)
    requires perPage >= 1 && hi == k * perPage
    ensures PagesUpTo(items, perPage, k) == items[..Min(hi, |items|)]
  {
    if k > 0 {
      var lo := hi - perPage;
      PageBoundary(k, perPage, hi, lo);
      PagesUpToPrefix(items, perPage, k - 1, lo);
      PageItems(items, k, perPage, lo);
      PrefixThenWindow(items, lo, hi);
    }
  }

  /** Concatenating pages 1 to the paginator's last page gives back the whole
      list: nothing lost, duplicated or reordered. */
  lemma Reconstruct<T>(items: seq<T>, perPage: int)
    requires perPage >= 1
    ensures PagesUpTo(items, perPage, Paginate(items, 1, perPage).value.lastPage) == items
  {
    var last := Paginate(items, 1, perPage).value.lastPage;
    PagesUpToPrefix(items, perPage, last, last * perPage);
  }

  /** Page 0 is reported as page 1, yet its items are the last `perPage`
      items: `array_slice` reads the offset `-perPage` from the end. */
  lemma PageZeroTakesTheTail<T>(items: seq<T>, perPage: int)
    requires 1 <= perPage <= |items|
    ensures Paginate(items, 0, perPage).value.currentPage == 1
    ensures Paginate(items, 0, perPage).value.items == items[|items| - perPage..]
  {
    var n := |items|;
    assert (0 - 1) * perPage == -perPage;
    assert Max(0, n + (0 - 1) * perPage) == n - perPage;
    assert Min(n - perPage + perPage, n) == n;
    assert items[n - perPage..n] == items[n - perPage..];
  }
}
