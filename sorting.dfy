/**
 * Python's built-in `sorted` as the program uses it: a stable sort of a list
 * by a key, and the code-point lexicographic order it applies to strings.
 * `sorted` compares keys with `<`; an element is placed after an earlier one
 * exactly when its key is not smaller, so the order is described here by the
 * non-strict relation `le(a, b)`, meaning "not b < a".
 */
module Sorting {

  /** `le` is total and transitive: every pair of keys is comparable. */
  ghost predicate TotalPreorder<K(!new)>(le: (K, K) -> bool)
  {
    && (forall a, b :: le(a, b) || le(b, a))
    && (forall a, b, c :: le(a, b) && le(b, c) ==> le(a, c))
  }

  /** Keys never decrease from left to right. */
  ghost predicate SortedBy<T, K>(s: seq<T>, key: T -> K, le: (K, K) -> bool)
  {
    forall i, j :: 0 <= i < j < |s| ==> le(key(s[i]), key(s[j]))
  }

  /** The elements of `s` that satisfy `p`, in their order in `s`. */
  function Filter<T>(s: seq<T>, p: T -> bool): seq<T>
  {
    if s == [] then [] else (if p(s[0]) then [s[0]] else []) + Filter(s[1..], p)
  }

  /** `Filter` keeps every element satisfying `p` as often as it occurs, and no other. */
  lemma {:induction false} FilterCount<T>(s: seq<T>, p: T -> bool, x: T)
    ensures multiset(Filter(s, p))[x] == if p(x) then multiset(s)[x] else 0
  {
    if s != [] {
      assert s == [s[0]] + s[1..];
      FilterCount(s[1..], p, x);
    }
  }

  /** `Filter` is empty exactly when no element satisfies `p`. */
  lemma {:induction false} FilterIsEmpty<T>(s: seq<T>, p: T -> bool)
    ensures Filter(s, p) == [] <==> forall i :: 0 <= i < |s| ==> !p(s[i])
  {
    if s != [] {
      FilterIsEmpty(s[1..], p);
      assert forall i :: 1 <= i < |s| ==> s[i] == s[1..][i - 1];
    }
  }

  /** Keeping some of the elements of a sorted sequence leaves it sorted. */
  lemma {:induction false} FilterSorted<T, K>(s: seq<T>, p: T -> bool, key: T -> K, le: (K, K) -> bool)
    requires SortedBy(s, key, le)
    ensures SortedBy(Filter(s, p), key, le)
  {
    if s != [] {
      var rest := s[1..];
      assert SortedBy(rest, key, le) by {
        forall i, j | 0 <= i < j < |rest|
          ensures le(key(rest[i]), key(rest[j]))
        {
          assert rest[i] == s[i + 1] && rest[j] == s[j + 1];
        }
      }
      FilterSorted(rest, p, key, le);
      var t := Filter(rest, p);
      if p(s[0]) {
        var r := [s[0]] + t;
        forall i, j | 0 <= i < j < |r|
          ensures le(key(r[i]), key(r[j]))
        {
          if i == 0 {
            FilterCount(rest, p, r[j]);
            assert r[j] in multiset(t);
            var k :| 0 <= k < |rest| && rest[k] == r[j];
            assert s[k + 1] == r[j];
          } else {
            assert r[i] == t[i - 1] && r[j] == t[j - 1];
          }
        }
      }
    }
  }

  /** The predicate "has key `k`". */
  function HasKey<T, K(==)>(key: T -> K, k: K): T -> bool
  {
    x => key(x) == k
  }

  /** Inserts `x` in front of the first element whose key is not smaller. */
  function InsertBy<T, K>(x: T, s: seq<T>, key: T -> K, le: (K, K) -> bool): (r: seq<T>)
    ensures multiset(r) == multiset([x] + s)
  {
    if s == [] || le(key(x), key(s[0])) then [x] + s
    else
      assert s == [s[0]] + s[1..];
      [s[0]] + InsertBy(x, s[1..], key, le)
  }

  /** `sorted(s, key=key)`: insertion sort, inserting earlier elements last. */
  function SortBy<T, K>(s: seq<T>, key: T -> K, le: (K, K) -> bool): (r: seq<T>)
    ensures multiset(r) == multiset(s)
  {
    if s == [] then []
    else
      assert s == [s[0]] + s[1..];
      InsertBy(s[0], SortBy(s[1..], key, le), key, le)
  }

  lemma {:induction false} FilterAppend<T>(a: seq<T>, b: seq<T>, p: T -> bool)
    ensures Filter(a + b, p) == Filter(a, p) + Filter(b, p)
  {
    if a == [] {
      assert a + b == b;
    } else {
      var head := if p(a[0]) then [a[0]] else [];
      assert (a + b)[0] == a[0];
      assert (a + b)[1..] == a[1..] + b;
      assert Filter(a + b, p) == head + Filter(a[1..] + b, p);
      FilterAppend(a[1..], b, p);
      assert head + (Filter(a[1..], p) + Filter(b, p)) == (head + Filter(a[1..], p)) + Filter(b, p);
    }
  }

  lemma {:induction false} FilterCons<T>(x: T, s: seq<T>, p: T -> bool)
    ensures Filter([x] + s, p) == (if p(x) then [x] else []) + Filter(s, p)
  {
    assert ([x] + s)[0] == x;
    assert ([x] + s)[1..] == s;
  }

  /** Two predicates that agree on the elements of `s` select the same elements. */
  lemma {:induction false} FilterCongruent<T>(s: seq<T>, p: T -> bool, q: T -> bool)
    requires forall x :: x in s ==> p(x) == q(x)
    ensures Filter(s, p) == Filter(s, q)
  {
    if s != [] {
      assert forall x :: x in s[1..] ==> x in s;
      FilterCongruent(s[1..], p, q);
    }
  }

  /** Filtering by `p` and then by a stronger `q` is filtering by `q`. */
  lemma {:induction false} FilterFilter<T>(s: seq<T>, p: T -> bool, q: T -> bool)
    requires forall x :: q(x) ==> p(x)
    ensures Filter(Filter(s, p), q) == Filter(s, q)
  {
    if s != [] {
      FilterFilter(s[1..], p, q);
      var head := if p(s[0]) then [s[0]] else [];
      FilterAppend(head, Filter(s[1..], p), q);
      if p(s[0]) {
        FilterCons(s[0], [], q);
        assert [s[0]] + [] == [s[0]];
      }
    }
  }

  lemma {:induction false} FilterNone<T>(s: seq<T>, p: T -> bool)
    requires forall x :: x in s ==> !p(x)
    ensures Filter(s, p) == []
  {
    if s != [] {
      assert s[0] in s;
      assert forall x :: x in s[1..] ==> x in s;
      FilterNone(s[1..], p);
    }
  }

  /** Every element of `InsertBy(x, s)` is `x` or an element of `s`. */
  lemma InsertByElements<T, K(!new)>(x: T, s: seq<T>, key: T -> K, le: (K, K) -> bool, y: T)
    requires y in InsertBy(x, s, key, le)
    ensures y == x || y in s
  {
    assert y in multiset(InsertBy(x, s, key, le));
    assert y in multiset([x] + s);
  }

  lemma {:induction false} InsertBySorted<T, K(!new)>(x: T, s: seq<T>, key: T -> K, le: (K, K) -> bool)
    requires TotalPreorder(le)
    requires SortedBy(s, key, le)
    ensures SortedBy(InsertBy(x, s, key, le), key, le)
  {
    if s == [] || le(key(x), key(s[0])) {
      var r := [x] + s;
      forall i, j | 0 <= i < j < |r|
        ensures le(key(r[i]), key(r[j]))
      {
        if i == 0 && j > 1 {
          assert le(key(s[0]), key(s[j - 1]));
        }
      }
    } else {
      var t := InsertBy(x, s[1..], key, le);
      assert SortedBy(s[1..], key, le) by {
        forall i, j | 0 <= i < j < |s[1..]|
          ensures le(key(s[1..][i]), key(s[1..][j]))
        {
          assert s[1..][i] == s[i + 1] && s[1..][j] == s[j + 1];
        }
      }
      InsertBySorted(x, s[1..], key, le);
      var r := [s[0]] + t;
      assert le(key(s[0]), key(x));
      forall i, j | 0 <= i < j < |r|
        ensures le(key(r[i]), key(r[j]))
      {
        if i == 0 {
          var y := r[j];
          assert y in t;
          InsertByElements(x, s[1..], key, le, y);
          if y != x {
            var k :| 0 <= k < |s[1..]| && s[1..][k] == y;
            assert s[k + 1] == y;
          }
        } else {
          assert r[i] == t[i - 1] && r[j] == t[j - 1];
        }
      }
    }
  }

  /** `SortBy` arranges the keys in order. */
  lemma {:induction false} SortBySorted<T, K(!new)>(s: seq<T>, key: T -> K, le: (K, K) -> bool)
    requires TotalPreorder(le)
    ensures SortedBy(SortBy(s, key, le), key, le)
  {
    if s != [] {
      SortBySorted(s[1..], key, le);
      InsertBySorted(s[0], SortBy(s[1..], key, le), key, le);
    }
  }

  lemma {:induction false} InsertByStable<T, K(!new)>(x: T, s: seq<T>, key: T -> K, le: (K, K) -> bool, k: K)
    requires forall a :: le(a, a)
    ensures Filter(InsertBy(x, s, key, le), HasKey(key, k)) == Filter([x] + s, HasKey(key, k))
  {
    var p := HasKey(key, k);
    if s != [] && !le(key(x), key(s[0])) {
      var rest := s[1..];
      assert le(key(x), key(x));
      var fx := if p(x) then [x] else [];
      var f0 := if p(s[0]) then [s[0]] else [];
      assert f0 + fx == fx + f0;
      calc {
        Filter(InsertBy(x, s, key, le), p);
        Filter([s[0]] + InsertBy(x, rest, key, le), p);
        { FilterCons(s[0], InsertBy(x, rest, key, le), p); }
        f0 + Filter(InsertBy(x, rest, key, le), p);
        { InsertByStable(x, rest, key, le, k); }
        f0 + Filter([x] + rest, p);
        { FilterCons(x, rest, p); }
        f0 + (fx + Filter(rest, p));
        fx + (f0 + Filter(rest, p));
        { assert s == [s[0]] + rest; FilterCons(s[0], rest, p); }
        fx + Filter(s, p);
        { FilterCons(x, s, p); }
        Filter([x] + s, p);
      }
    }
  }

  /**
   * `SortBy` is stable: the elements that share a key keep the order they had
   * in the input.
   */
  lemma {:induction false} SortByStable<T, K(!new)>(s: seq<T>, key: T -> K, le: (K, K) -> bool, k: K)
    requires forall a :: le(a, a)
    ensures Filter(SortBy(s, key, le), HasKey(key, k)) == Filter(s, HasKey(key, k))
  {
    if s != [] {
      SortByStable(s[1..], key, le, k);
      InsertByStable(s[0], SortBy(s[1..], key, le), key, le, k);
      FilterCons(s[0], SortBy(s[1..], key, le), HasKey(key, k));
      assert s == [s[0]] + s[1..];
      FilterCons(s[0], s[1..], HasKey(key, k));
    }
  }

  /** The order `<=` on integers, as a relation value. */
  function IntLe(): (int, int) -> bool
  {
    (a, b) => a <= b
  }

  /** The order `>=` on integers: sorting by it puts the largest key first. */
  function IntGe(): (int, int) -> bool
  {
    (a, b) => a >= b
  }

  lemma IntOrdersAreTotalPreorders()
    ensures TotalPreorder(IntLe()) && TotalPreorder(IntGe())
  {
  }

  /** Python's `a <= b` on strings: code-point lexicographic order. */
  predicate LexLe(a: string, b: string)
  {
    a == [] || (b != [] && (a[0] < b[0] || (a[0] == b[0] && LexLe(a[1..], b[1..]))))
  }

  lemma {:induction false} LexLeTotal(a: string, b: string)
    ensures LexLe(a, b) || LexLe(b, a)
  {
    if a != [] && b != [] && a[0] == b[0] {
      LexLeTotal(a[1..], b[1..]);
    }
  }

  lemma {:induction false} LexLeTransitive(a: string, b: string, c: string)
    requires LexLe(a, b) && LexLe(b, c)
    ensures LexLe(a, c)
  {
    if a != [] && b != [] && c != [] && a[0] == b[0] && b[0] == c[0] {
      LexLeTransitive(a[1..], b[1..], c[1..]);
    }
  }

  function LexOrder(): (string, string) -> bool
  {
    (a, b) => LexLe(a, b)
  }

  lemma LexOrderIsTotalPreorder()
    ensures TotalPreorder(LexOrder())
  {
    forall a, b
      ensures LexOrder()(a, b) || LexOrder()(b, a)
    {
      LexLeTotal(a, b);
    }
    forall a, b, c | LexOrder()(a, b) && LexOrder()(b, c)
      ensures LexOrder()(a, c)
    {
      LexLeTransitive(a, b, c);
    }
  }

  function Identity<T>(): T -> T
  {
    x => x
  }

  /** `sorted(paths)` on a list of strings. */
  function SortStrings(s: seq<string>): (r: seq<string>)
    ensures multiset(r) == multiset(s)
    ensures forall i, j :: 0 <= i < j < |r| ==> LexLe(r[i], r[j])
  {
    LexOrderIsTotalPreorder();
    SortBySorted(s, Identity(), LexOrder());
    SortBy(s, Identity(), LexOrder())
  }
}
