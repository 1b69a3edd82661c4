/**
 * Orders Python uses implicitly: `str < str` and `list < list` (the
 * lexicographic comparison the heap applies to its `(cost, path)` entries),
 * and the stable sort by an integer key that `sorted(..., key=...)` and
 * `sort_values` perform.
 */
module Order {

  /** `a < b` for Python sequences, given the order `less` on their elements. */
  predicate LexLess<T(==)>(a: seq<T>, b: seq<T>, less: (T, T) -> bool)
    decreases |a|
  {
    |b| > 0 && (|a| == 0 || less(a[0], b[0]) || (a[0] == b[0] && LexLess(a[1..], b[1..], less)))
  }

  ghost predicate StrictTotalOrder<T(!new)>(less: (T, T) -> bool)
  {
    && (forall x :: !less(x, x))
    && (forall x, y, z :: less(x, y) && less(y, z) ==> less(x, z))
    && (forall x, y :: x != y ==> less(x, y) || less(y, x))
  }

  lemma {:induction false} LexIrreflexive<T(!new)>(a: seq<T>, less: (T, T) -> bool)
    requires StrictTotalOrder(less)
    ensures !LexLess(a, a, less)
  {
    if |a| > 0 {
      LexIrreflexive(a[1..], less);
    }
  }

  lemma {:induction false} LexTransitive<T(!new)>(a: seq<T>, b: seq<T>, c: seq<T>, less: (T, T) -> bool)
    requires StrictTotalOrder(less)
    requires LexLess(a, b, less) && LexLess(b, c, less)
    ensures LexLess(a, c, less)
    decreases |a|
  {
    if |a| > 0 && a[0] == b[0] && b[0] == c[0] {
      LexTransitive(a[1..], b[1..], c[1..], less);
    }
  }

  lemma {:induction false} LexTotal<T(!new)>(a: seq<T>, b: seq<T>, less: (T, T) -> bool)
    requires StrictTotalOrder(less)
    requires a != b
    ensures LexLess(a, b, less) || LexLess(b, a, less)
    decreases |a|
  {
    if |a| > 0 && |b| > 0 && a[0] == b[0] {
      assert a == [a[0]] + a[1..] && b == [b[0]] + b[1..];
      LexTotal(a[1..], b[1..], less);
    }
  }

  /** A proper prefix compares below the sequence it starts. */
  lemma {:induction false} PrefixLexLess<T>(a: seq<T>, b: seq<T>, less: (T, T) -> bool)
    requires |a| < |b| && a == b[..|a|]
    ensures LexLess(a, b, less)
    decreases |a|
  {
    if |a| > 0 {
      assert a[1..] == b[1..][..|a| - 1];
      PrefixLexLess(a[1..], b[1..], less);
    }
  }

  /** The lexicographic extension of a strict total order is a strict total order. */
  lemma LexOrder<T(!new)>(less: (T, T) -> bool)
    requires StrictTotalOrder(less)
    ensures forall a :: !LexLess(a, a, less)
    ensures forall a, b, c :: LexLess(a, b, less) && LexLess(b, c, less) ==> LexLess(a, c, less)
    ensures forall a, b :: a != b ==> LexLess(a, b, less) || LexLess(b, a, less)
  {
    forall a ensures !LexLess(a, a, less) {
      LexIrreflexive(a, less);
    }
    forall a, b, c | LexLess(a, b, less) && LexLess(b, c, less) ensures LexLess(a, c, less) {
      LexTransitive(a, b, c, less);
    }
    forall a, b | a != b ensures LexLess(a, b, less) || LexLess(b, a, less) {
      LexTotal(a, b, less);
    }
  }

  function CharLess(x: char, y: char): bool
  {
    x < y
  }

  /** Python's `str < str`: code point by code point. */
  predicate StrLess(a: string, b: string)
  {
    LexLess(a, b, CharLess)
  }

  /** Python's `list < list` on lists of strings. */
  predicate PathLess(p: seq<string>, q: seq<string>)
  {
    LexLess(p, q, StrLess)
  }

  lemma StrLessOrder()
    ensures StrictTotalOrder(StrLess)
  {
    assert StrictTotalOrder(CharLess);
    LexOrder(CharLess);
  }

  /** `PathLess` is a strict total order: the heap's tie-break is well defined. */
  lemma PathLessOrder()
    ensures forall p :: !PathLess(p, p)
    ensures forall p, q, r :: PathLess(p, q) && PathLess(q, r) ==> PathLess(p, r)
    ensures forall p, q :: p != q ==> PathLess(p, q) || PathLess(q, p)
  {
    StrLessOrder();
    LexOrder(StrLess);
  }

  ghost predicate SortedBy<T>(s: seq<T>, key: T -> int)
  {
    forall i, j :: 0 <= i < j < |s| ==> key(s[i]) <= key(s[j])
  }

  /** The elements of `s` whose key is `k`, in their order in `s`. */
  function WithKey<T>(s: seq<T>, key: T -> int, k: int): seq<T>
  {
    if s == [] then []
    else WithKey(s[..|s| - 1], key, k) + (if key(s[|s| - 1]) == k then [s[|s| - 1]] else [])
  }

  /** Inserts `x` after every element whose key is at most its own. */
  function InsertBy<T>(s: seq<T>, x: T, key: T -> int): (r: seq<T>)
    ensures |r| == |s| + 1
  {
    if s == [] || key(s[|s| - 1]) <= key(x) then s + [x]
    else InsertBy(s[..|s| - 1], x, key) + [s[|s| - 1]]
  }

  lemma {:induction false} InsertByMultiset<T>(s: seq<T>, x: T, key: T -> int)
    ensures multiset(InsertBy(s, x, key)) == multiset(s) + multiset{x}
  {
    if s != [] && key(s[|s| - 1]) > key(x) {
      InsertByMultiset(s[..|s| - 1], x, key);
      assert s == s[..|s| - 1] + [s[|s| - 1]];
    }
  }

  lemma {:induction false} InsertBySorted<T>(s: seq<T>, x: T, key: T -> int)
    requires SortedBy(s, key)
    ensures SortedBy(InsertBy(s, x, key), key)
  {
    if s != [] && key(s[|s| - 1]) > key(x) {
      var init, last := s[..|s| - 1], s[|s| - 1];
      InsertBySorted(init, x, key);
      InsertByMultiset(init, x, key);
      var r := InsertBy(init, x, key);
      forall y | y in r ensures key(y) <= key(last) {
        assert y in multiset(r);
        if y != x {
          assert y in multiset(init);
          var i :| 0 <= i < |init| && init[i] == y;
          assert s[i] == y;
        }
      }
      forall i, j | 0 <= i < j < |r| + 1 ensures key((r + [last])[i]) <= key((r + [last])[j]) {
        if j == |r| {
          assert (r + [last])[i] == r[i];
          assert r[i] in r;
        } else {
          assert (r + [last])[i] == r[i] && (r + [last])[j] == r[j];
        }
      }
    }
  }

  lemma {:induction false} InsertByWithKey<T>(s: seq<T>, x: T, key: T -> int, k: int)
    ensures WithKey(InsertBy(s, x, key), key, k) == WithKey(s, key, k) + (if key(x) == k then [x] else [])
  {
    var r := InsertBy(s, x, key);
    if s == [] || key(s[|s| - 1]) <= key(x) {
      assert r[..|r| - 1] == s;
    } else {
      var init, last := s[..|s| - 1], s[|s| - 1];
      InsertByWithKey(init, x, key, k);
      var r' := InsertBy(init, x, key);
      assert r == r' + [last];
      assert r[..|r| - 1] == r';
    }
  }

  /**
   * A stable sort by `key`: ascending keys, the same elements, and elements
   * with equal keys in their original order.
   */
  function SortBy<T>(s: seq<T>, key: T -> int): (r: seq<T>)
    ensures |r| == |s|
    ensures SortedBy(r, key)
    ensures multiset(r) == multiset(s)
    ensures forall k :: WithKey(r, key, k) == WithKey(s, key, k)
  {
    if s == [] then []
    else
      var init, last := s[..|s| - 1], s[|s| - 1];
      var sorted := SortBy(init, key);
      InsertBySorted(sorted, last, key);
      InsertByMultiset(sorted, last, key);
      assert s == init + [last];
      assert forall k :: WithKey(InsertBy(sorted, last, key), key, k) == WithKey(s, key, k) by {
        forall k ensures WithKey(InsertBy(sorted, last, key), key, k) == WithKey(s, key, k) {
          InsertByWithKey(sorted, last, key, k);
        }
      }
      InsertBy(sorted, last, key)
  }
}
