/**
 * Pagination of a listing: page `page` (counted from 1) shows the entries at
 * positions [(page-1)*5, min((page-1)*5 + 5, size)), and a page past the end
 * is refused with "No entries for page <page>".
 *
 * `Paginate` computes the bounds on unbounded integers. `PaginateAsWritten`
 * computes them as the Java code does, in 32-bit `int` arithmetic, where
 * `(page - 1) * 5` wraps around for large pages.
 */
module Pager {
  import opened Wrappers
  import opened JavaText

  const ENTRIES_PER_PAGE: int := 5

  function Min(a: int, b: int): int {
    if a <= b then a else b
  }

  function PageStart(page: int): int {
    (page - 1) * ENTRIES_PER_PAGE
  }

  function PageEnd(page: int, size: int): int {
    Min(PageStart(page) + ENTRIES_PER_PAGE, size)
  }

  /** The entries listed for `page`, in iteration order, or None for "No entries for page".
      A page below 1 lists nothing (the session rejects such pages before paginating). */
  function Paginate<T>(entries: seq<T>, page: int): (r: Option<seq<T>>)
    ensures r.None? <==> page >= 1 && PageStart(page) >= |entries|
    ensures r.Some? ==> |r.value| <= ENTRIES_PER_PAGE
    ensures r.Some? && page >= 1 ==>
      1 <= |r.value| && r.value == entries[PageStart(page)..PageEnd(page, |entries|)]
    ensures page < 1 ==> r == Some([])
  {
    var start := PageStart(page);
    var end := PageEnd(page, |entries|);
    if end <= start then None
    else if end <= 0 then Some([])
    else Some(entries[start..end])
  }

  /** The number of pages that list something. */
  function PageCount(size: nat): nat {
    (size + ENTRIES_PER_PAGE - 1) / ENTRIES_PER_PAGE
  }

  /** Pages 1 to PageCount list something; every later page is refused. */
  lemma PageExists<T>(entries: seq<T>, page: int)
    requires page >= 1
    ensures Paginate(entries, page).Some? <==> page <= PageCount(|entries|)
  {
  }

  /** Pages 1..k laid end to end. */
  function PagesUpTo<T>(entries: seq<T>, k: nat): seq<T> {
    if k == 0 then [] else PagesUpTo(entries, k - 1) + Paginate(entries, k).GetOr([])
  }

  /** Pages 1..k together list exactly the first min(5k, size) entries, in order. */
  lemma {:induction false} PagesUpToPrefix<T>(entries: seq<T>, k: nat)
    ensures PagesUpTo(entries, k) == entries[..Min(k * ENTRIES_PER_PAGE, |entries|)]
  {
    if k > 0 {
      PagesUpToPrefix(entries, k - 1);
      var lo := Min((k - 1) * ENTRIES_PER_PAGE, |entries|);
      var hi := Min(k * ENTRIES_PER_PAGE, |entries|);
      if PageStart(k) < |entries| {
        assert Paginate(entries, k).GetOr([]) == entries[lo..hi];
        assert entries[..lo] + entries[lo..hi] == entries[..hi];
      } else {
        assert lo == hi;
      }
    }
  }

  /** Every entry appears on exactly one page, in order: pages 1..PageCount list the
      whole collection. */
  lemma PagesCoverEntries<T>(entries: seq<T>)
    ensures PagesUpTo(entries, PageCount(|entries|)) == entries
  {
    PagesUpToPrefix(entries, PageCount(|entries|));
    assert Min(PageCount(|entries|) * ENTRIES_PER_PAGE, |entries|) == |entries|;
  }

  /** Twelve entries: pages 1, 2 and 3 list 5, 5 and 2 of them, page 4 is refused. */
  lemma TwelveEntries<T>(entries: seq<T>)
    requires |entries| == 12
    ensures Paginate(entries, 1) == Some(entries[0..5])
    ensures Paginate(entries, 2) == Some(entries[5..10])
    ensures Paginate(entries, 3) == Some(entries[10..12])
    ensures Paginate(entries, 4) == None
  {
  }

  // ---------------------------------------------------------------------------
  // The bounds as the Java code computes them, in `int` arithmetic.

  function PageStartAsWritten(page: int): int
    requires IsInt32(page)
  {
    Wrap32(Wrap32(page - 1) * ENTRIES_PER_PAGE)
  }

  function PageEndAsWritten(page: int, size: int): int
    requires IsInt32(page)
  {
    Min(Wrap32(PageStartAsWritten(page) + ENTRIES_PER_PAGE), size)
  }

  /** `printEntries` as written: refused when end <= start, otherwise the loop over
      i in [0, end) lists the entries with i >= start. */
  function PaginateAsWritten<T>(entries: seq<T>, page: int): (r: Option<seq<T>>)
    requires IsInt32(page) && |entries| <= INT_MAX
    ensures r.Some? ==> |r.value| <= |entries|
  {
    var start := PageStartAsWritten(page);
    var end := PageEndAsWritten(page, |entries|);
    if end <= start then None
    else if end <= 0 then Some([])
    else Some(entries[if start < 0 then 0 else start..end])
  }

  /** Up to page 429496729 the `int` computation never wraps and gives the intended pages. */
  lemma AsWrittenAgreesBelowOverflow<T>(entries: seq<T>, page: int)
    requires 1 <= page <= 429496729 && |entries| <= INT_MAX
    ensures PaginateAsWritten(entries, page) == Paginate(entries, page)
  {
    assert PageStartAsWritten(page) == PageStart(page);
    assert PageEndAsWritten(page, |entries|) == PageEnd(page, |entries|);
  }

  /** Page 429496731: (page - 1) * 5 = 2147483650 wraps to -2147483646, so start < end < 0.
      The code neither refuses the page nor lists anything: the client gets no reply at all,
      where "No entries for page 429496731" is due. */
  lemma HugePageListsNothing<T>(entries: seq<T>)
    requires |entries| <= INT_MAX
    ensures PageStartAsWritten(429496731) == -2147483646
    ensures PaginateAsWritten(entries, 429496731) == Some([])
    ensures Paginate(entries, 429496731) == None
  {
  }

  /** Page 858993460: (page - 1) * 5 = 4294967295 wraps to -1, so the code lists the first
      four entries (those of page 1, short of one) where the page should be refused. */
  lemma WrappedPageListsEarlyEntries<T>(entries: seq<T>)
    requires 4 <= |entries| <= INT_MAX
    ensures PageStartAsWritten(858993460) == -1
    ensures PaginateAsWritten(entries, 858993460) == Some(entries[..4])
    ensures Paginate(entries, 858993460) == None
  {
  }
}
