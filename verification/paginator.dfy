/** The page arithmetic of `renderBatch`, `renderProducts` and the
    "Carregar Mais" (load more) handler: pages of `ITEMS_PER_PAGE` products,
    numbered from 1, each rendered batch appended after the previous ones. */
module Paginator {

  import opened Seqs

  /** `ITEMS_PER_PAGE`. */
  const PageSize: nat := 6

  /** `s.slice(start, end)` for non-negative bounds: clamped to the length,
      empty when `start` is not below the clamped end. */
  function Slice<T>(s: seq<T>, start: nat, end: nat): (r: seq<T>)
    ensures |r| == if start < Min(end, |s|) then Min(end, |s|) - start else 0
    ensures forall k :: 0 <= k < |r| ==> r[k] == s[start + k]
  {
    var hi := Min(end, |s|);
    if start < hi then s[start..hi] else []
  }

  /** The products `renderBatch` appends for page `page`. */
  function Batch<T>(s: seq<T>, page: nat): seq<T>
    requires page >= 1
  {
    Slice(s, (page - 1) * PageSize, page * PageSize)
  }

  /** What is on screen after pages 1 to `page` were rendered, one batch after another. */
  function Rendered<T>(s: seq<T>, page: nat): seq<T> {
    if page == 0 then [] else Rendered(s, page - 1) + Batch(s, page)
  }

  /** The visible window: the first `page * PageSize` products, or all of them. */
  function Window<T>(s: seq<T>, page: nat): (r: seq<T>)
    ensures |r| == Min(page * PageSize, |s|)
  {
    s[..Min(page * PageSize, |s|)]
  }

  /** The condition `currentFilteredProducts.length > end` that shows the load-more button. */
  predicate HasMore<T>(s: seq<T>, page: nat) {
    |s| > page * PageSize
  }

  /** The number of pages: one for an empty list, otherwise enough to hold every product. */
  function PageCount(n: nat): (c: nat)
    ensures c >= 1
    ensures n == 0 ==> c == 1
    ensures n <= c * PageSize
    ensures n > 0 ==> n > (c - 1) * PageSize
  {
    if n == 0 then 1 else (n + PageSize - 1) / PageSize
  }

  /** Appending batches 1 to `page` yields exactly the visible window. */
  lemma {:induction false} RenderedIsWindow<T>(s: seq<T>, page: nat)
    ensures Rendered(s, page) == Window(s, page)
  {
    if page > 0 {
      RenderedIsWindow(s, page - 1);
      var lo := Min((page - 1) * PageSize, |s|);
      var hi := Min(page * PageSize, |s|);
      assert Batch(s, page) == s[lo..hi];
      assert s[..lo] + s[lo..hi] == s[..hi];
    }
  }

  /** Batches of different pages never share a position of the list: together
      they hold each product at most as often as the list does. */
  lemma BatchesDisjoint<T>(s: seq<T>, p: nat, q: nat)
    requires 1 <= p < q
    ensures multiset(Batch(s, p)) + multiset(Batch(s, q)) <= multiset(s)
  {
    var a := Min((p - 1) * PageSize, |s|);
    var b := Min(p * PageSize, |s|);
    var c := Min((q - 1) * PageSize, |s|);
    var d := Min(q * PageSize, |s|);
    assert b <= c;
    assert Batch(s, p) == s[a..b];
    assert Batch(s, q) == s[c..d];
    assert s == s[..a] + s[a..b] + s[b..c] + s[c..d] + s[d..];
  }

  /** The load-more button shows exactly when the next batch is non-empty. */
  lemma HasMoreIffNextBatch<T>(s: seq<T>, page: nat)
    requires page >= 1
    ensures HasMore(s, page) <==> Batch(s, page + 1) != []
  {
  }

  /** Once the button is hidden, every later batch is empty and the window
      already shows the whole list. */
  lemma ExhaustedStaysEmpty<T>(s: seq<T>, page: nat, later: nat)
    requires page >= 1 && !HasMore(s, page) && later > page
    ensures Batch(s, later) == []
    ensures Window(s, later) == Window(s, page) == s
  {
    assert (later - 1) * PageSize >= page * PageSize;
  }

  /** The button shows exactly on the pages before the last one, and the
      last page shows the whole list. */
  lemma HasMoreBeforeLastPage<T>(s: seq<T>, page: nat)
    requires page >= 1
    ensures HasMore(s, page) <==> page < PageCount(|s|)
    ensures Window(s, PageCount(|s|)) == s
  {
    var c := PageCount(|s|);
    if page >= c {
      assert page * PageSize >= c * PageSize;
    } else {
      assert page * PageSize <= (c - 1) * PageSize;
    }
  }
}
