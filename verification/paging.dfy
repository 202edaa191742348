/**
 * Offset pagination shared by the game history and the user listing:
 * skip `(page - 1) * limit` items, return at most `limit`, and report
 * `totalPages = ceil(total / limit)`, `hasNext = page < totalPages`,
 * `hasPrev = page > 1`.
 */
module Paging {
  import opened Wrappers

  datatype Pagination = Pagination(
    currentPage: int,
    totalPages: nat,
    totalItems: nat,
    hasNext: bool,
    hasPrev: bool)

  /** `Math.ceil(n / d)`: the fewest pages of `d` items that hold `n` items. */
  function CeilDiv(n: nat, d: nat): (c: nat)
    requires d > 0
    ensures n <= c * d
    ensures c > 0 ==> (c - 1) * d < n
  {
    (n + d - 1) / d
  }

  lemma MulMonotone(a: int, b: int, d: nat)
    requires a <= b
    ensures a * d <= b * d
  {
  }

  /** A page lies before the last one exactly when items remain after it. */
  lemma BeforeLastPage(total: nat, page: int, limit: nat)
    requires limit > 0
    ensures page < CeilDiv(total, limit) <==> page * limit < total
  {
    var pages := CeilDiv(total, limit);
    if page < pages {
      MulMonotone(page, pages as int - 1, limit);
    } else {
      MulMonotone(pages, page, limit);
    }
  }

  function Paginate(total: nat, page: int, limit: nat): (p: Pagination)
    requires limit > 0
    ensures p.currentPage == page && p.totalItems == total
    ensures p.totalPages * limit >= total
    ensures p.totalPages > 0 ==> (p.totalPages - 1) * limit < total
    ensures p.hasNext <==> page * limit < total
    ensures p.hasPrev <==> page > 1
  {
    var pages := CeilDiv(total, limit);
    BeforeLastPage(total, page, limit);
    Pagination(page, pages, total, page < pages, page > 1)
  }

  /** The offset of page `page`: `(page - 1) * limit`, never negative for page 1 onwards. */
  function Skip(page: int, limit: nat): (skip: nat)
    requires page >= 1
  {
    (page - 1) * limit
  }

  /** Page 1 skips nothing, and each page starts `limit` items after the one before. */
  lemma SkipAdvancesByLimit(page: int, limit: nat)
    requires page >= 1
    ensures Skip(1, limit) == 0
    ensures Skip(page + 1, limit) == Skip(page, limit) + limit
  {
  }

  /** Every page up to the reported page count starts at an existing item. */
  lemma ReportedPageStartsInside(total: nat, limit: nat, page: int)
    requires limit > 0 && 1 <= page <= CeilDiv(total, limit)
    ensures Skip(page, limit) < total
  {
    MulMonotone(page - 1, CeilDiv(total, limit) - 1, limit);
  }

  /** At most `limit` items starting at position `skip`. */
  function Window<T>(s: seq<T>, skip: nat, limit: nat): (r: seq<T>)
    ensures |r| <= limit
    ensures |r| == Max(0, Min(limit, |s| - skip))
    ensures forall k :: 0 <= k < |r| ==> r[k] == s[skip + k]
  {
    if skip >= |s| then [] else s[skip..Min(skip + limit, |s|)]
  }

  /** Pages 1 to `n` of `s`, concatenated in page order. */
  function Pages<T>(s: seq<T>, limit: nat, n: nat): seq<T> {
    if n == 0 then [] else Pages(s, limit, n - 1) + Window(s, Skip(n, limit), limit)
  }

  /** Reading pages 1 to `n` yields the first `n * limit` items, and no item twice. */
  lemma {:induction false} PagesArePrefix<T>(s: seq<T>, limit: nat, n: nat)
    ensures Pages(s, limit, n) == s[..Min(n * limit, |s|)]
  {
    if n > 0 {
      PagesArePrefix(s, limit, n - 1);
      var skip := Skip(n, limit);
      assert n * limit == skip + limit;
      var w := Window(s, skip, limit);
      if skip < |s| {
        assert w == s[skip..Min(skip + limit, |s|)];
        assert s[..Min(skip, |s|)] == s[..skip];
      } else {
        assert w == [];
        MulMonotone(n - 1, n, limit);
      }
    }
  }

  /** Paging through all `totalPages` pages visits every item exactly once, in order. */
  lemma PagesCoverAll<T>(s: seq<T>, limit: nat)
    requires limit > 0
    ensures Pages(s, limit, CeilDiv(|s|, limit)) == s
  {
    PagesArePrefix(s, limit, CeilDiv(|s|, limit));
  }
}
