/**
 * A stable sort by a descending two-level key, the model of JavaScript's
 * (stable) `Array.prototype.sort` with the comparators of the GitHub layer.
 */
module Sorting {
  import Seqs

  /** Lexicographic "ranks at least as high as" on (primary, secondary) keys. */
  predicate AtLeast(a: (int, int), b: (int, int)) {
    a.0 > b.0 || (a.0 == b.0 && a.1 >= b.1)
  }

  predicate SortedDesc<T>(s: seq<T>, key: T -> (int, int)) {
    forall i, j :: 0 <= i < j < |s| ==> AtLeast(key(s[i]), key(s[j]))
  }

  /**
   * Puts `x` in front of the first element it ranks at least as high as, so an
   * element from earlier in the input stays ahead of later equal-ranked ones.
   */
  function Insert<T>(x: T, s: seq<T>, key: T -> (int, int)): (r: seq<T>)
    ensures |r| == |s| + 1
    ensures multiset(r) == multiset(s) + multiset{x}
    ensures SortedDesc(s, key) ==> SortedDesc(r, key)
  {
    if s == [] then [x]
    else if AtLeast(key(x), key(s[0])) then [x] + s
    else
      var t := Insert(x, s[1..], key);
      var r := [s[0]] + t;
      assert s == [s[0]] + s[1..];
      if SortedDesc(s, key) then
        assert SortedDesc(r, key) by {
          forall j | 1 <= j < |r| ensures AtLeast(key(r[0]), key(r[j])) {
            assert r[j] in multiset(t);
            if r[j] != x {
              assert r[j] in multiset(s[1..]);
              var k :| 0 <= k < |s[1..]| && s[1..][k] == r[j];
              assert s[k + 1] == r[j];
            }
          }
        }
        r
      else
        r
  }

  /** The input, reordered so that keys never increase; ties keep their input order. */
  function SortBy<T>(s: seq<T>, key: T -> (int, int)): (r: seq<T>)
    ensures |r| == |s|
    ensures multiset(r) == multiset(s)
    ensures SortedDesc(r, key)
  {
    if s == [] then []
    else
      assert s == [s[0]] + s[1..];
      Insert(s[0], SortBy(s[1..], key), key)
  }

  /** The elements whose key is `c`. */
  function KeyIs<T>(key: T -> (int, int), c: (int, int)): T -> bool {
    x => key(x) == c
  }

  /**
   * Inserting `x` puts it ahead of every element with its key and leaves the
   * others of each key in their order: everything `Insert` passes over ranks
   * strictly higher than `x`.
   */
  lemma {:induction false} InsertStable<T>(x: T, s: seq<T>, key: T -> (int, int), c: (int, int))
    ensures Seqs.Filter(Insert(x, s, key), KeyIs(key, c)) ==
      (if key(x) == c then [x] else []) + Seqs.Filter(s, KeyIs(key, c))
    decreases |s|
  {
    var p := KeyIs(key, c);
    if s == [] {
    } else if AtLeast(key(x), key(s[0])) {
      assert ([x] + s)[1..] == s;
    } else {
      var t := Insert(x, s[1..], key);
      InsertStable(x, s[1..], key, c);
      assert ([s[0]] + t)[1..] == t;
      assert key(s[0]) != key(x);
    }
  }

  /** Stability: for every key, the elements with that key come out in their input order. */
  lemma {:induction false} SortByStable<T>(s: seq<T>, key: T -> (int, int), c: (int, int))
    ensures Seqs.Filter(SortBy(s, key), KeyIs(key, c)) == Seqs.Filter(s, KeyIs(key, c))
    decreases |s|
  {
    if s != [] {
      SortByStable(s[1..], key, c);
      InsertStable(s[0], SortBy(s[1..], key), key, c);
    }
  }
}
