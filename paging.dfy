/**
 * The client-side page window: `list.slice(page * size, page * size + size)`,
 * with JavaScript's clamping of slice bounds to the length of the list.
 */
module Paging {

  function Min(a: int, b: int): int {
    if a <= b then a else b
  }

  /** The window of `s` that page `page` shows when a page holds `size` items. */
  function Page<T>(s: seq<T>, page: nat, size: nat): (r: seq<T>)
    ensures |r| <= size
  {
    var start := page * size;
    s[Min(start, |s|)..Min(start + size, |s|)]
  }

  /** The page holds the items from `page * size` on, as many as fit and as there are. */
  lemma PageWindow<T>(s: seq<T>, page: nat, size: nat)
    ensures var r, start := Page(s, page, size), page * size;
      && |r| == (if start >= |s| then 0 else Min(size, |s| - start))
      && forall k | 0 <= k < |r| :: start + k < |s| && r[k] == s[start + k]
  {
  }

  /** A page holds nothing that is not in the list. */
  lemma PageWithin<T>(s: seq<T>, page: nat, size: nat)
    ensures forall x | x in Page(s, page, size) :: x in s
  {
    var start := page * size;
    var lo, hi := Min(start, |s|), Min(start + size, |s|);
    assert Page(s, page, size) == s[lo..hi];
    assert s == s[..lo] + s[lo..hi] + s[hi..];
  }

  /** Pages `0 .. count - 1` put one after another. */
  function PagesUpTo<T>(s: seq<T>, size: nat, count: nat): seq<T> {
    if count == 0 then [] else PagesUpTo(s, size, count - 1) + Page(s, count - 1, size)
  }

  /** The first `count` pages are the first `count * size` items, in order. */
  lemma {:induction false} PagesUpToPrefix<T>(s: seq<T>, size: nat, count: nat)
    ensures PagesUpTo(s, size, count) == s[..Min(count * size, |s|)]
  {
    if count > 0 {
      PagesUpToPrefix(s, size, count - 1);
      AppendPage(s, size, count - 1);
    }
  }

  /** The items before page `n` followed by page `n` are the items before page `n + 1`. */
  lemma AppendPage<T>(s: seq<T>, size: nat, n: nat)
    ensures s[..Min(n * size, |s|)] + Page(s, n, size) == s[..Min((n + 1) * size, |s|)]
  {
    var start := n * size;
    assert (n + 1) * size == start + size;
    var lo, hi := Min(start, |s|), Min(start + size, |s|);
    assert s[..lo] + s[lo..hi] == s[..hi];
  }

  /** Concatenating every page in order gives back the list, for any page size of at least one. */
  lemma AllPages<T>(s: seq<T>, size: nat)
    requires size >= 1
    ensures var count := (|s| + size - 1) / size;
      PagesUpTo(s, size, count) == s
  {
    var count := (|s| + size - 1) / size;
    PagesUpToPrefix(s, size, count);
    assert count * size >= |s| by {
      assert (|s| + size - 1) == count * size + (|s| + size - 1) % size;
    }
    assert s[..|s|] == s;
  }

  /** Item `pos` is on page `pos / size`, at offset `pos % size`. */
  lemma PageContaining<T>(s: seq<T>, pos: nat, size: nat)
    requires pos < |s| && size >= 1
    ensures pos % size < |Page(s, pos / size, size)|
    ensures Page(s, pos / size, size)[pos % size] == s[pos]
  {
    var page := pos / size;
    assert page * size + pos % size == pos;
    assert page * size <= pos;
  }
}
