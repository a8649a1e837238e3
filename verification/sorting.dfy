/** A stable sort by a string key, standing in for lodash's `_.sortBy(list, iteratee)`
    where the iteratee returns a string. */
module Sorting {
  import opened Strings

  ghost predicate SortedBy<T>(s: seq<T>, key: T -> string) {
    forall i, j :: 0 <= i < j < |s| ==> StrLe(key(s[i]), key(s[j]))
  }

  /** Every key in `s` is at least `b`. */
  ghost predicate AllAtLeast<T>(b: string, s: seq<T>, key: T -> string) {
    forall j :: 0 <= j < |s| ==> StrLe(b, key(s[j]))
  }

  /** The elements of `s` whose key is `k`, in their order in `s`. */
  function WithKey<T>(s: seq<T>, key: T -> string, k: string): seq<T> {
    if |s| == 0 then []
    else (if key(s[0]) == k then [s[0]] else []) + WithKey(s[1..], key, k)
  }

  /** Places `x` after the leading elements whose key is not greater than its own. */
  function Insert<T>(x: T, s: seq<T>, key: T -> string): (r: seq<T>)
    ensures |r| == |s| + 1
    ensures multiset(r) == multiset(s) + multiset{x}
  {
    if |s| == 0 then [x]
    else if StrLe(key(s[0]), key(x)) then
      assert s == [s[0]] + s[1..];
      [s[0]] + Insert(x, s[1..], key)
    else [x] + s
  }

  function SortBy<T>(s: seq<T>, key: T -> string): (r: seq<T>)
    ensures SortedBy(r, key)
    ensures multiset(r) == multiset(s)
  {
    if |s| == 0 then []
    else
      assert s == s[..|s| - 1] + [s[|s| - 1]];
      var sorted := SortBy(s[..|s| - 1], key);
      InsertSorted(s[|s| - 1], sorted, key);
      Insert(s[|s| - 1], sorted, key)
  }

  lemma SortedCons<T>(h: T, t: seq<T>, key: T -> string)
    requires AllAtLeast(key(h), t, key) && SortedBy(t, key)
    ensures SortedBy([h] + t, key)
  {
    var s := [h] + t;
    forall i, j | 0 <= i < j < |s|
      ensures StrLe(key(s[i]), key(s[j]))
    {
      if i > 0 {
        assert s[i] == t[i - 1] && s[j] == t[j - 1];
      } else {
        assert s[j] == t[j - 1];
      }
    }
  }

  lemma {:induction false} InsertAtLeast<T>(b: string, x: T, s: seq<T>, key: T -> string)
    requires AllAtLeast(b, s, key) && StrLe(b, key(x))
    ensures AllAtLeast(b, Insert(x, s, key), key)
  {
    if |s| > 0 && StrLe(key(s[0]), key(x)) {
      var rest := Insert(x, s[1..], key);
      InsertAtLeast(b, x, s[1..], key);
      var r := [s[0]] + rest;
      assert forall j :: 0 < j < |r| ==> r[j] == rest[j - 1];
    }
  }

  lemma {:induction false} InsertSorted<T>(x: T, s: seq<T>, key: T -> string)
    requires SortedBy(s, key)
    ensures SortedBy(Insert(x, s, key), key)
  {
    if |s| == 0 {
    } else if StrLe(key(s[0]), key(x)) {
      InsertSorted(x, s[1..], key);
      assert AllAtLeast(key(s[0]), s[1..], key) by {
        forall j | 0 <= j < |s[1..]|
          ensures StrLe(key(s[0]), key(s[1..][j]))
        {
          assert s[1..][j] == s[j + 1];
        }
      }
      InsertAtLeast(key(s[0]), x, s[1..], key);
      SortedCons(s[0], Insert(x, s[1..], key), key);
    } else {
      StrLeTotal(key(s[0]), key(x));
      forall j | 0 <= j < |s|
        ensures StrLe(key(x), key(s[j]))
      {
        if j > 0 {
          StrLeTransitive(key(x), key(s[0]), key(s[j]));
        }
      }
      SortedCons(x, s, key);
    }
  }

  lemma {:induction false} WithKeyAppend<T>(a: seq<T>, b: seq<T>, key: T -> string, k: string)
    ensures WithKey(a + b, key, k) == WithKey(a, key, k) + WithKey(b, key, k)
  {
    if |a| == 0 {
      assert a + b == b;
    } else {
      var h := if key(a[0]) == k then [a[0]] else [];
      assert (a + b)[0] == a[0];
      assert (a + b)[1..] == a[1..] + b;
      assert WithKey(a + b, key, k) == h + WithKey(a[1..] + b, key, k);
      WithKeyAppend(a[1..], b, key, k);
      var wa, wb := WithKey(a[1..], key, k), WithKey(b, key, k);
      assert h + (wa + wb) == (h + wa) + wb;
    }
  }

  lemma {:induction false} WithKeyAbsent<T>(s: seq<T>, key: T -> string, k: string)
    requires forall j :: 0 <= j < |s| ==> key(s[j]) != k
    ensures WithKey(s, key, k) == []
  {
    if |s| > 0 {
      WithKeyAbsent(s[1..], key, k);
    }
  }

  lemma {:induction false} InsertStable<T>(x: T, s: seq<T>, key: T -> string, k: string)
    requires SortedBy(s, key)
    ensures WithKey(Insert(x, s, key), key, k)
         == WithKey(s, key, k) + (if key(x) == k then [x] else [])
  {
    if |s| == 0 {
      assert WithKey([x], key, k) == (if key(x) == k then [x] else []) + WithKey([], key, k);
    } else if StrLe(key(s[0]), key(x)) {
      var rest := Insert(x, s[1..], key);
      assert Insert(x, s, key) == [s[0]] + rest;
      InsertStable(x, s[1..], key, k);
      InsertBehindStable(x, s, rest, key, k);
    } else {
      assert Insert(x, s, key) == [x] + s;
      InsertFrontStable(x, s, key, k);
    }
  }

  /** Inserting behind the first element: that element keeps its place in front. */
  lemma InsertBehindStable<T>(x: T, s: seq<T>, rest: seq<T>, key: T -> string, k: string)
    requires |s| > 0
    requires WithKey(rest, key, k) == WithKey(s[1..], key, k) + (if key(x) == k then [x] else [])
    ensures WithKey([s[0]] + rest, key, k)
         == WithKey(s, key, k) + (if key(x) == k then [x] else [])
  {
    WithKeyAppend([s[0]], rest, key, k);
    WithKeyAppend([s[0]], s[1..], key, k);
    assert s == [s[0]] + s[1..];
  }

  /** Inserting in front of a sorted list whose first key is greater: no element
      behind has `x`'s key. */
  lemma InsertFrontStable<T>(x: T, s: seq<T>, key: T -> string, k: string)
    requires SortedBy(s, key) && |s| > 0 && !StrLe(key(s[0]), key(x))
    ensures WithKey([x] + s, key, k) == WithKey(s, key, k) + (if key(x) == k then [x] else [])
  {
    WithKeyAppend([x], s, key, k);
    assert WithKey([x], key, k) == (if key(x) == k then [x] else []) + WithKey([], key, k);
    if key(x) == k {
      forall j | 0 <= j < |s|
        ensures key(s[j]) != k
      {
        if j == 0 {
          StrLeReflexive(key(x));
        } else {
          assert StrLe(key(s[0]), key(s[j]));
        }
      }
      WithKeyAbsent(s, key, k);
    }
  }

  /** `SortBy` keeps the relative order of elements with equal keys. */
  lemma {:induction false} SortByStable<T>(s: seq<T>, key: T -> string, k: string)
    ensures WithKey(SortBy(s, key), key, k) == WithKey(s, key, k)
  {
    if |s| > 0 {
      var init := s[..|s| - 1];
      var last := s[|s| - 1];
      var sorted := SortBy(init, key);
      assert SortBy(s, key) == Insert(last, sorted, key);
      SortByStable(init, key, k);
      InsertStable(last, sorted, key, k);
      assert WithKey(SortBy(s, key), key, k) == WithKey(init, key, k) + (if key(last) == k then [last] else []);
      assert s == init + [last];
      WithKeyAppend(init, [last], key, k);
      assert WithKey([last], key, k) == (if key(last) == k then [last] else []);
    }
  }
}
