/** `paginate_resource`: page `page` of an ordered selection, computed with
    Python's slice `data[(page - 1) * 10 : (page - 1) * 10 + 10]`. The page
    number comes straight from the query string, so it may be zero or
    negative, and then Python's negative-index rules apply. */
module Pager {

  const QuestionsPerPage: nat := 10

  function Min(a: int, b: int): int { if a <= b then a else b }

  function Max(a: int, b: int): int { if a <= b then b else a }

  /** Python's normalisation of one slice bound against a sequence of length `n`:
      a negative bound counts from the end, and the result is clamped to `0..n`. */
  function SliceBound(i: int, n: nat): (k: nat)
    ensures k <= n
  {
    if i < 0 then Max(i + n, 0) else Min(i, n)
  }

  /** Python's `s[start:stop]`. */
  function Slice<T>(s: seq<T>, start: int, stop: int): (r: seq<T>)
    ensures |r| <= |s|
  {
    var lo := SliceBound(start, |s|);
    var hi := SliceBound(stop, |s|);
    if lo < hi then s[lo..hi] else []
  }

  /** Page `page` (1-based) of `items`. For a positive page it is the window
      of at most ten items starting at `(page - 1) * 10`, in input order. */
  function Paginate<T>(items: seq<T>, page: int): (r: seq<T>)
    ensures |r| <= QuestionsPerPage
    ensures page >= 1 ==>
      r == items[Min((page - 1) * QuestionsPerPage, |items|)..Min(page * QuestionsPerPage, |items|)]
    ensures page >= 1 ==> (r == [] <==> (page - 1) * QuestionsPerPage >= |items|)
  {
    var start := (page - 1) * QuestionsPerPage;
    Slice(items, start, start + QuestionsPerPage)
  }

  /** Number of non-empty pages of `items`. */
  function PageCount<T>(items: seq<T>): nat {
    (|items| + QuestionsPerPage - 1) / QuestionsPerPage
  }

  /** A positive page is non-empty exactly when it is one of the first
      `PageCount(items)` pages; any page past them (page 500, say) is empty. */
  lemma NonEmptyPages<T>(items: seq<T>, page: int)
    requires page >= 1
    ensures Paginate(items, page) != [] <==> page <= PageCount(items)
  {
  }

  /** Pages 1 to `n` laid end to end. */
  function FirstPages<T>(items: seq<T>, n: nat): seq<T> {
    if n == 0 then [] else FirstPages(items, n - 1) + Paginate(items, n)
  }

  /** Consecutive pages neither skip nor repeat an item: pages 1 to `n`
      together are exactly the first `n * 10` items. */
  lemma {:induction false} FirstPagesArePrefix<T>(items: seq<T>, n: nat)
    ensures FirstPages(items, n) == items[..Min(n * QuestionsPerPage, |items|)]
  {
    if n > 0 {
      FirstPagesArePrefix(items, n - 1);
      var a := Min((n - 1) * QuestionsPerPage, |items|);
      var b := Min(n * QuestionsPerPage, |items|);
      assert items[..a] + items[a..b] == items[..b];
    }
  }

  /** Every item appears on exactly one of the non-empty pages, in order. */
  lemma AllPagesCoverItems<T>(items: seq<T>)
    ensures FirstPages(items, PageCount(items)) == items
  {
    FirstPagesArePrefix(items, PageCount(items));
    assert PageCount(items) * QuestionsPerPage >= |items|;
  }

  /** Page 0 is always empty: its slice is `data[-10:0]`. */
  lemma ZeroPageIsEmpty<T>(items: seq<T>)
    ensures Paginate(items, 0) == []
  {
  }

  /** A negative page does not fail and need not be empty: both slice bounds
      count back from the end of the selection, so page -1 of 25 items is
      items 5 to 14. */
  lemma NegativePageCountsFromEnd<T>(items: seq<T>, page: int)
    requires page < 0
    ensures Paginate(items, page) ==
      items[Max(|items| + (page - 1) * QuestionsPerPage, 0)..Max(|items| + page * QuestionsPerPage, 0)]
  {
  }

  lemma NegativePageExample<T>(items: seq<T>)
    requires |items| == 25
    ensures Paginate(items, -1) == items[5..15]
  {
  }
}
