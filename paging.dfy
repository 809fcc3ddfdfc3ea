/**
 * Local paging of a URL list: the page slice, the number of pages (`lastPage`)
 * and the rules that enable the Prev and Next buttons. The page size is a
 * parameter here; the component fixes it to 48.
 */
module Paging {

  function Min(a: int, b: int): int { if a <= b then a else b }

  function Max(a: int, b: int): int { if a <= b then b else a }

  /**
   * `s.slice(page * size, (page + 1) * size)`. JavaScript clamps both ends to the
   * length, so a page past the end is empty and the last page may be short.
   */
  function PageSlice<T>(s: seq<T>, page: nat, size: nat): (r: seq<T>)
    ensures |r| == Min(size, Max(0, |s| - page * size))
    ensures forall i :: 0 <= i < |r| ==> r[i] == s[page * size + i]
  {
    assert (page + 1) * size == page * size + size;
    s[Min(page * size, |s|)..Min((page + 1) * size, |s|)]
  }

  /** `Math.ceil(count / size)`: the number of pages, so the last page index is one less. */
  function LastPage(count: nat, size: nat): (r: nat)
    requires size > 0
    ensures r * size >= count
    ensures r == 0 || (r - 1) * size < count
  {
    CeilDiv(count, size);
    (count + size - 1) / size
  }

  lemma CeilDiv(count: nat, size: nat)
    requires size > 0
    ensures var r := (count + size - 1) / size;
      r >= 0 && r * size >= count && (r == 0 || (r - 1) * size < count)
  {
    var n := count + size - 1;
    var r, m := n / size, n % size;
    assert n == r * size + m && 0 <= m < size;
    assert (r - 1) * size == r * size - size;
  }

  /** Pages `0 .. k - 1` of `s`, concatenated in order. */
  function Pages<T>(s: seq<T>, size: nat, k: nat): seq<T>
  {
    if k == 0 then [] else Pages(s, size, k - 1) + PageSlice(s, k - 1, size)
  }

  /** The first `k` pages are the first `k * size` elements (or all of them). */
  lemma {:induction false} PagesArePrefix<T>(s: seq<T>, size: nat, k: nat)
    ensures Pages(s, size, k) == s[..Min(k * size, |s|)]
  {
    if k > 0 {
      PagesArePrefix(s, size, k - 1);
      var start := (k - 1) * size;
      assert k * size == start + size;
      assert PageSlice(s, k - 1, size) == s[Min(start, |s|)..Min(start + size, |s|)];
      PrefixThenSlice(s, start, size);
    }
  }

  /** The prefix up to `start` followed by the slice from `start` is the longer prefix. */
  lemma PrefixThenSlice<T>(s: seq<T>, start: nat, size: nat)
    ensures s[..Min(start, |s|)] + s[Min(start, |s|)..Min(start + size, |s|)] == s[..Min(start + size, |s|)]
  {
  }

  /**
   * Concatenating pages `0 .. lastPage - 1` gives the list back exactly: every
   * element once, in order, nothing left out.
   */
  lemma PagesReassemble<T>(s: seq<T>, size: nat)
    requires size > 0
    ensures Pages(s, size, LastPage(|s|, size)) == s
  {
    PagesArePrefix(s, size, LastPage(|s|, size));
    assert s[..|s|] == s;
  }

  /** Exactly the pages before `lastPage` are non-empty. */
  lemma PageNonEmptyIff<T>(s: seq<T>, page: nat, size: nat)
    requires size > 0
    ensures |PageSlice(s, page, size)| > 0 <==> page < LastPage(|s|, size)
  {
    var last := LastPage(|s|, size);
    if page < last {
      assert page * size <= (last - 1) * size by {
        MulMonotone(page, last - 1, size);
      }
    } else {
      MulMonotone(last, page, size);
    }
  }

  lemma MulMonotone(a: nat, b: nat, size: nat)
    requires a <= b
    ensures a * size <= b * size
  {
    assert b * size == a * size + (b - a) * size;
  }

  /** Prev is disabled on the first page: `disabled={page === 0}`. */
  predicate PrevEnabled(page: nat) {
    page != 0
  }

  /** Next as written: `disabled={page + 1 === lastPage}`. */
  predicate NextEnabledAsWritten(page: nat, lastPage: nat) {
    page + 1 != lastPage
  }

  /** The corrected Next rule: enabled only while a later page exists. */
  predicate NextEnabled(page: nat, lastPage: nat) {
    page + 1 < lastPage
  }

  /** The page index is below `lastPage`, or is page 0 when `lastPage` is 0. */
  predicate OnAPage(page: nat, lastPage: nat) {
    page < lastPage || page == 0
  }

  /**
   * With `count` 0 `lastPage` is 0, and the written rule leaves Next enabled on
   * page 0, so a click moves to page 1, which is at or past `lastPage`.
   */
  lemma NextAsWrittenLeavesEmptyResult(size: nat)
    requires size > 0
    ensures var last := LastPage(0, size);
      OnAPage(0, last) && NextEnabledAsWritten(0, last) && !OnAPage(0 + 1, last)
  {
  }

  /**
   * Under the corrected rule Prev and Next never take the page to `lastPage` or
   * beyond, and the corrected rule differs from the written one only when
   * `lastPage` is 0.
   */
  lemma NavigationStaysOnAPage(page: nat, lastPage: nat)
    requires OnAPage(page, lastPage)
    ensures NextEnabled(page, lastPage) ==> OnAPage(page + 1, lastPage)
    ensures PrevEnabled(page) ==> OnAPage(page - 1, lastPage)
    ensures lastPage > 0 ==> (NextEnabled(page, lastPage) <==> NextEnabledAsWritten(page, lastPage))
  {
  }
}
