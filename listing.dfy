/**
 * Ordered listings of table rows, as `query.order_by(<name column>).all()`
 * produces them.
 *
 * SQLite compares text under its default BINARY collation: byte by byte on
 * the UTF-8 encoding, a proper prefix first. UTF-8 preserves code-point
 * order, so on Dafny strings (sequences of Unicode scalar values) that is
 * the lexicographic order on characters, `NameLe` below.
 */
module Listing {

  /** `a` sorts no later than `b` under the BINARY collation. */
  predicate NameLe(a: string, b: string)
    decreases |a|
  {
    a == [] || (b != [] && (a[0] < b[0] || (a[0] == b[0] && NameLe(a[1..], b[1..]))))
  }

  lemma {:induction false} NameLeReflexive(a: string)
    ensures NameLe(a, a)
    decreases |a|
  {
    if a != [] {
      NameLeReflexive(a[1..]);
    }
  }

  lemma {:induction false} NameLeTotal(a: string, b: string)
    ensures NameLe(a, b) || NameLe(b, a)
    decreases |a|
  {
    if a != [] && b != [] && a[0] == b[0] {
      NameLeTotal(a[1..], b[1..]);
    }
  }

  lemma {:induction false} NameLeTransitive(a: string, b: string, c: string)
    requires NameLe(a, b) && NameLe(b, c)
    ensures NameLe(a, c)
    decreases |a|
  {
    if a != [] && a[0] == b[0] && b[0] == c[0] {
      NameLeTransitive(a[1..], b[1..], c[1..]);
    }
  }

  lemma {:induction false} NameLeAntisymmetric(a: string, b: string)
    requires NameLe(a, b) && NameLe(b, a)
    ensures a == b
    decreases |a|
  {
    if a != [] {
      NameLeAntisymmetric(a[1..], b[1..]);
      assert a == [a[0]] + a[1..] && b == [b[0]] + b[1..];
    }
  }

  /** Every earlier row's name sorts no later than every later row's. */
  predicate SortedBy<T>(s: seq<T>, name: T -> string)
  {
    forall i, j :: 0 <= i < j < |s| ==> NameLe(name(s[i]), name(s[j]))
  }

  /** Places `x` before the first row whose name does not sort before it. */
  function Insert<T>(x: T, s: seq<T>, name: T -> string): (r: seq<T>)
    ensures multiset(r) == multiset(s) + multiset{x}
  {
    if s == [] then [x]
    else if NameLe(name(x), name(s[0])) then [x] + s
    else
      assert s == [s[0]] + s[1..];
      [s[0]] + Insert(x, s[1..], name)
  }

  /** A row that sorts no later than every row of a sorted listing can go in front of it. */
  lemma ConsSorted<T>(y: T, s: seq<T>, name: T -> string)
    requires SortedBy(s, name)
    requires forall j :: 0 <= j < |s| ==> NameLe(name(y), name(s[j]))
    ensures SortedBy([y] + s, name)
  {
    var r := [y] + s;
    assert forall i, j :: 0 < i < j < |r| ==> r[i] == s[i - 1] && r[j] == s[j - 1];
  }

  /** A lower bound of `x` and of every row of `s` bounds every row after the insertion. */
  lemma {:induction false} InsertBounded<T>(x: T, s: seq<T>, name: T -> string, bound: string)
    requires NameLe(bound, name(x))
    requires forall j :: 0 <= j < |s| ==> NameLe(bound, name(s[j]))
    ensures forall j :: 0 <= j < |Insert(x, s, name)| ==> NameLe(bound, name(Insert(x, s, name)[j]))
    decreases |s|
  {
    if s != [] && !NameLe(name(x), name(s[0])) {
      InsertBounded(x, s[1..], name, bound);
      var rest := Insert(x, s[1..], name);
      assert forall j :: 0 < j < |rest| + 1 ==> ([s[0]] + rest)[j] == rest[j - 1];
    }
  }

  lemma {:induction false} InsertSorted<T>(x: T, s: seq<T>, name: T -> string)
    requires SortedBy(s, name)
    ensures SortedBy(Insert(x, s, name), name)
    decreases |s|
  {
    if s == [] {
    } else if NameLe(name(x), name(s[0])) {
      forall j | 0 <= j < |s| ensures NameLe(name(x), name(s[j])) {
        if j > 0 {
          NameLeTransitive(name(x), name(s[0]), name(s[j]));
        }
      }
      ConsSorted(x, s, name);
    } else {
      NameLeTotal(name(x), name(s[0]));
      InsertSorted(x, s[1..], name);
      InsertBounded(x, s[1..], name, name(s[0]));
      ConsSorted(s[0], Insert(x, s[1..], name), name);
    }
  }

  /** The rows of `s` in name order: a permutation of `s` that is sorted. */
  function SortByName<T>(s: seq<T>, name: T -> string): (r: seq<T>)
    ensures multiset(r) == multiset(s)
    ensures SortedBy(r, name)
  {
    if s == [] then []
    else
      var rest := SortByName(s[1..], name);
      InsertSorted(s[0], rest, name);
      assert s == [s[0]] + s[1..];
      Insert(s[0], rest, name)
  }

  /** Every row of `m` is stored under its own id. */
  predicate Keyed<T>(m: map<int, T>, key: T -> int)
  {
    forall k :: k in m ==> key(m[k]) == k
  }

  /**
   * The rows of `m` with an id in [lo, hi) that satisfy `keep`, in id order:
   * each such row exactly once and nothing else.
   */
  function Rows<T(!new)>(m: map<int, T>, lo: int, hi: int, key: T -> int, keep: T -> bool): (r: seq<T>)
    requires Keyed(m, key)
    ensures forall x ::
      multiset(r)[x] == (if lo <= key(x) < hi && key(x) in m && m[key(x)] == x && keep(x) then 1 else 0)
    decreases hi - lo
  {
    if hi <= lo then []
    else
      var rest := Rows(m, lo + 1, hi, key, keep);
      if lo in m && keep(m[lo]) then [m[lo]] + rest else rest
  }
}
