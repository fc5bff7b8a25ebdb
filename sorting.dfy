/**
 * `Array.prototype.sort` with a comparator, as the components use it: a
 * stable sort (ECMAScript 2019 and later require stability) that orders the
 * elements by a "less than or equal" relation derived from the comparator.
 * The model is an insertion sort; only its result matters here.
 */
module Sorting {

  /** `le` orders the elements of `s`: any two are comparable, and it is transitive on them. */
  ghost predicate TotalPreorderOn<T>(le: (T, T) -> bool, s: seq<T>) {
    && (forall a, b | a in s && b in s :: le(a, b) || le(b, a))
    && (forall a, b, c | a in s && b in s && c in s :: le(a, b) && le(b, c) ==> le(a, c))
  }

  ghost predicate Sorted<T>(s: seq<T>, le: (T, T) -> bool) {
    forall i, j | 0 <= i < j < |s| :: le(s[i], s[j])
  }

  /** Two elements the comparator calls equal. */
  predicate Equivalent<T>(le: (T, T) -> bool, a: T, b: T) {
    le(a, b) && le(b, a)
  }

  /** The elements of `s` the comparator calls equal to `x`, in their order in `s`. */
  function Peers<T>(s: seq<T>, x: T, le: (T, T) -> bool): seq<T> {
    if |s| == 0 then []
    else (if Equivalent(le, s[0], x) then [s[0]] else []) + Peers(s[1..], x, le)
  }

  /** Puts `x` in front of the first element it is less than or equal to. */
  function Insert<T>(x: T, t: seq<T>, le: (T, T) -> bool): (r: seq<T>)
    ensures multiset(r) == multiset(t) + multiset{x}
  {
    if |t| == 0 then [x]
    else if le(x, t[0]) then [x] + t
    else
      assert t == [t[0]] + t[1..];
      [t[0]] + Insert(x, t[1..], le)
  }

  /** The sorted copy: a permutation of `s`. */
  function SortBy<T>(s: seq<T>, le: (T, T) -> bool): (r: seq<T>)
    ensures multiset(r) == multiset(s)
    ensures |r| == |s|
  {
    if |s| == 0 then []
    else
      assert s == [s[0]] + s[1..];
      Insert(s[0], SortBy(s[1..], le), le)
  }

  lemma {:induction false} InsertSorted<T>(x: T, t: seq<T>, le: (T, T) -> bool)
    requires Sorted(t, le)
    requires TotalPreorderOn(le, [x] + t)
    ensures Sorted(Insert(x, t, le), le)
  {
    if |t| > 0 {
      assert t[0] in [x] + t;
      if le(x, t[0]) {
        var r := [x] + t;
        forall i, j | 0 <= i < j < |r| ensures le(r[i], r[j]) {
          if i == 0 {
            assert r[j] in [x] + t && t[0] in [x] + t;
            if j > 1 {
              assert le(t[0], t[j - 1]);
            }
          }
        }
      } else {
        var tail := t[1..];
        assert TotalPreorderOn(le, [x] + tail) by {
          forall a | a in [x] + tail ensures a in [x] + t { }
        }
        InsertSorted(x, tail, le);
        var ins := Insert(x, tail, le);
        forall k | 0 <= k < |ins| ensures le(t[0], ins[k]) {
          assert ins[k] in multiset(ins);
          if ins[k] == x {
            assert x in [x] + t;
          } else {
            assert ins[k] in multiset(tail);
            var m :| 0 <= m < |tail| && tail[m] == ins[k];
            assert t[m + 1] == ins[k];
          }
        }
        var r := [t[0]] + ins;
        forall i, j | 0 <= i < j < |r| ensures le(r[i], r[j]) {
          if i > 0 {
            assert r[i] == ins[i - 1] && r[j] == ins[j - 1];
          } else {
            assert r[j] == ins[j - 1];
          }
        }
      }
    }
  }

  /** The result of the sort is ordered by `le`. */
  lemma {:induction false} SortBySorted<T>(s: seq<T>, le: (T, T) -> bool)
    requires TotalPreorderOn(le, s)
    ensures Sorted(SortBy(s, le), le)
  {
    if |s| > 0 {
      assert TotalPreorderOn(le, s[1..]) by {
        forall a | a in s[1..] ensures a in s { }
      }
      SortBySorted(s[1..], le);
      var t := SortBy(s[1..], le);
      assert TotalPreorderOn(le, [s[0]] + t) by {
        forall a | a in [s[0]] + t ensures a in s {
          if a != s[0] {
            assert a in multiset(t);
            assert a in multiset(s[1..]);
          }
        }
      }
      InsertSorted(s[0], t, le);
    }
  }

  lemma {:induction false} InsertPeers<T>(y: T, t: seq<T>, x: T, le: (T, T) -> bool)
    requires TotalPreorderOn(le, [x, y] + t)
    ensures Peers(Insert(y, t, le), x, le) == (if Equivalent(le, y, x) then [y] else []) + Peers(t, x, le)
  {
    var ys := if Equivalent(le, y, x) then [y] else [];
    if |t| == 0 {
      assert Insert(y, t, le) == [y];
      assert [y][1..] == [];
    } else if le(y, t[0]) {
      var r := [y] + t;
      assert Insert(y, t, le) == r;
      assert r[1..] == t;
    } else {
      assert TotalPreorderOn(le, [x, y] + t[1..]) by {
        forall a | a in [x, y] + t[1..] ensures a in [x, y] + t { }
      }
      InsertPeers(y, t[1..], x, le);
      var rest := Insert(y, t[1..], le);
      var r := [t[0]] + rest;
      assert Insert(y, t, le) == r;
      assert r[1..] == rest;
      var heads := if Equivalent(le, t[0], x) then [t[0]] else [];
      var tail := Peers(t[1..], x, le);
      assert Peers(r, x, le) == heads + Peers(rest, x, le);
      assert Peers(t, x, le) == heads + tail;
      assert heads == [] || ys == [] by {
        assert t[0] in [x, y] + t && x in [x, y] + t && y in [x, y] + t;
      }
      if heads == [] {
        assert heads + (ys + tail) == ys + tail;
      } else {
        assert ys == [];
        assert Peers(rest, x, le) == tail;
      }
    }
  }

  /** Stability: the elements the comparator calls equal to any `x` keep their relative order. */
  lemma {:induction false} SortByStable<T>(s: seq<T>, x: T, le: (T, T) -> bool)
    requires TotalPreorderOn(le, [x] + s)
    ensures Peers(SortBy(s, le), x, le) == Peers(s, x, le)
  {
    if |s| > 0 {
      assert TotalPreorderOn(le, [x] + s[1..]) by {
        forall a | a in [x] + s[1..] ensures a in [x] + s { }
      }
      SortByStable(s[1..], x, le);
      var t := SortBy(s[1..], le);
      assert TotalPreorderOn(le, [x, s[0]] + t) by {
        forall a | a in [x, s[0]] + t ensures a in [x] + s {
          if a != x && a != s[0] {
            assert a in multiset(t);
            assert a in multiset(s[1..]);
          }
        }
      }
      InsertPeers(s[0], t, x, le);
    }
  }
}
