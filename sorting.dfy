/**
 * Ordering of result lists. `Array.prototype.sort` with a comparator and SQL
 * `ORDER BY col1 dir1, col2 dir2, …` are both modelled by one stable insertion
 * sort on a key of integers compared lexicographically; a descending column is
 * a negated key component.
 */
module Sorting {
  import opened Lists

  /** Lexicographic order on integer keys: the first differing component decides. */
  predicate LexLe(a: seq<int>, b: seq<int>)
    decreases |a|
  {
    a == [] || (b != [] && (a[0] < b[0] || (a[0] == b[0] && LexLe(a[1..], b[1..]))))
  }

  lemma {:induction false} LexLeReflexive(a: seq<int>)
    ensures LexLe(a, a)
    decreases |a|
  {
    if a != [] {
      LexLeReflexive(a[1..]);
    }
  }

  lemma {:induction false} LexLeTotal(a: seq<int>, b: seq<int>)
    ensures LexLe(a, b) || LexLe(b, a)
    decreases |a|
  {
    if a != [] && b != [] && a[0] == b[0] {
      LexLeTotal(a[1..], b[1..]);
    }
  }

  lemma {:induction false} LexLeTransitive(a: seq<int>, b: seq<int>, c: seq<int>)
    requires LexLe(a, b) && LexLe(b, c)
    ensures LexLe(a, c)
    decreases |a|
  {
    if a != [] && b != [] && c != [] && a[0] == b[0] == c[0] {
      LexLeTransitive(a[1..], b[1..], c[1..]);
    }
  }

  predicate SortedBy<T>(s: seq<T>, key: T -> seq<int>)
  {
    forall i, j :: 0 <= i < j < |s| ==> LexLe(key(s[i]), key(s[j]))
  }

  /** Puts `x` in front of the first element whose key is not below its own. */
  function Insert<T>(x: T, s: seq<T>, key: T -> seq<int>): (r: seq<T>)
    ensures |r| == |s| + 1
    ensures multiset(r) == multiset(s) + multiset{x}
    decreases |s|
  {
    if s == [] || LexLe(key(x), key(s[0])) then [x] + s
    else
      assert s == [s[0]] + s[1..];
      [s[0]] + Insert(x, s[1..], key)
  }

  lemma {:induction false} InsertSorted<T>(x: T, s: seq<T>, key: T -> seq<int>)
    requires SortedBy(s, key)
    ensures SortedBy(Insert(x, s, key), key)
    decreases |s|
  {
    var r := Insert(x, s, key);
    if s == [] {
    } else if LexLe(key(x), key(s[0])) {
      assert r == [x] + s;
      forall i, j | 0 <= i < j < |r| ensures LexLe(key(r[i]), key(r[j])) {
        if i == 0 && j > 1 {
          LexLeTransitive(key(x), key(s[0]), key(s[j - 1]));
        }
      }
    } else {
      LexLeTotal(key(x), key(s[0]));
      var t := s[1..];
      assert forall m :: 0 <= m < |t| ==> t[m] == s[m + 1];
      InsertSorted(x, t, key);
      var r' := Insert(x, t, key);
      assert r == [s[0]] + r';
      forall i, j | 0 <= i < j < |r| ensures LexLe(key(r[i]), key(r[j])) {
        if i == 0 {
          var y := r[j];
          assert y == r'[j - 1];
          assert y in multiset(r');
          if y != x {
            assert y in multiset(t);
            var m :| 0 <= m < |t| && t[m] == y;
            assert s[m + 1] == y;
          }
        }
      }
    }
  }

  /**
   * Stable sort, ascending by `key`: elements with equal keys keep their
   * relative order, as `Array.prototype.sort` guarantees.
   */
  function SortBy<T>(s: seq<T>, key: T -> seq<int>): (r: seq<T>)
    ensures |r| == |s|
    ensures multiset(r) == multiset(s)
    ensures SortedBy(r, key)
    decreases |s|
  {
    if s == [] then []
    else
      assert s == [s[0]] + s[1..];
      var rest := SortBy(s[1..], key);
      InsertSorted(s[0], rest, key);
      Insert(s[0], rest, key)
  }

  /**
   * When every element has the same key the comparator always answers 0 and
   * the sort leaves the sequence as it was.
   */
  lemma {:induction false} SortByConstantKey<T>(s: seq<T>, key: T -> seq<int>)
    requires forall i :: 0 <= i < |s| ==> key(s[i]) == key(s[0])
    ensures SortBy(s, key) == s
    decreases |s|
  {
    if s != [] {
      var t := s[1..];
      if t != [] {
        assert key(t[0]) == key(s[0]);
      }
      SortByConstantKey(t, key);
      LexLeReflexive(key(s[0]));
      assert [s[0]] + t == s;
    }
  }

  lemma {:induction false} InsertMap<A, B>(x: A, s: seq<A>, f: A -> B, key: B -> seq<int>)
    ensures Insert(f(x), MapSeq(s, f), key) == MapSeq(Insert(x, s, a => key(f(a))), f)
    decreases |s|
  {
    var k := a => key(f(a));
    if s == [] || LexLe(key(f(x)), key(f(s[0]))) {
      assert Insert(x, s, k) == [x] + s;
      assert ([x] + s)[1..] == s;
    } else {
      InsertMap(x, s[1..], f, key);
      var t := Insert(x, s[1..], k);
      assert Insert(x, s, k) == [s[0]] + t;
      assert ([s[0]] + t)[1..] == t;
    }
  }

  /** Mapping and then sorting on the mapped key equals sorting on the composed key and then mapping. */
  lemma {:induction false} SortByMap<A, B>(xs: seq<A>, f: A -> B, key: B -> seq<int>)
    ensures SortBy(MapSeq(xs, f), key) == MapSeq(SortBy(xs, a => key(f(a))), f)
    decreases |xs|
  {
    if xs != [] {
      SortByMap(xs[1..], f, key);
      InsertMap(xs[0], SortBy(xs[1..], a => key(f(a))), f, key);
    }
  }

  /** `rows.slice(0, n)` of an ordered list (SQL `LIMIT n`). */
  function Take<T>(s: seq<T>, n: nat): (r: seq<T>)
    ensures |r| <= n && |r| <= |s|
    ensures forall i :: 0 <= i < |r| ==> r[i] == s[i]
    ensures |s| <= n ==> r == s
  {
    if |s| <= n then s else s[..n]
  }
}
