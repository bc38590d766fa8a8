/** Python's `sorted(xs, key=k, reverse=True)` and the slice `xs[:n]`, the
    two steps both rankings (top models, top organizations) are made of. */
module Ranking {

  /** `xs[:n]`, including a negative `n`, which counts from the end. */
  function Take<T>(xs: seq<T>, n: int): (r: seq<T>)
    ensures 0 <= n ==> |r| == (if n <= |xs| then n else |xs|)
    ensures n < 0 ==> |r| == (if |xs| + n >= 0 then |xs| + n else 0)
    ensures r == xs[..|r|]
  {
    if n >= 0 then (if n <= |xs| then xs[..n] else xs)
    else if |xs| + n >= 0 then xs[..|xs| + n]
    else []
  }

  /** Keys never increase from left to right. */
  predicate NonIncreasing<T>(xs: seq<T>, key: T -> int) {
    forall i, j :: 0 <= i < j < |xs| ==> key(xs[i]) >= key(xs[j])
  }

  /** Places `x` after every element whose key is at least `key(x)`. */
  function InsertDesc<T>(x: T, s: seq<T>, key: T -> int): (r: seq<T>)
    ensures |r| == |s| + 1
  {
    if |s| == 0 then [x]
    else if key(s[0]) < key(x) then [x] + s
    else [s[0]] + InsertDesc(x, s[1..], key)
  }

  /** `sorted(xs, key=key, reverse=True)`, as a stable insertion sort. */
  function SortDesc<T>(xs: seq<T>, key: T -> int): (r: seq<T>)
    ensures |r| == |xs|
  {
    if |xs| == 0 then []
    else InsertDesc(xs[|xs| - 1], SortDesc(xs[..|xs| - 1], key), key)
  }

  /** The elements with key `v`, in order. */
  function WithKey<T>(s: seq<T>, key: T -> int, v: int): (r: seq<T>)
    ensures |r| <= |s|
  {
    if |s| == 0 then []
    else (if key(s[0]) == v then [s[0]] else []) + WithKey(s[1..], key, v)
  }

  lemma {:induction false} WithKeyAppend<T>(a: seq<T>, b: seq<T>, key: T -> int, v: int)
    ensures WithKey(a + b, key, v) == WithKey(a, key, v) + WithKey(b, key, v)
  {
    if |a| > 0 {
      assert (a + b)[1..] == a[1..] + b;
      WithKeyAppend(a[1..], b, key, v);
    } else {
      assert a + b == b;
    }
  }

  lemma {:induction false} WithKeyNone<T>(s: seq<T>, key: T -> int, v: int)
    requires forall i :: 0 <= i < |s| ==> key(s[i]) < v
    ensures WithKey(s, key, v) == []
  {
    if |s| > 0 {
      WithKeyNone(s[1..], key, v);
    }
  }

  lemma {:induction false} InsertDescSorted<T>(x: T, s: seq<T>, key: T -> int)
    requires NonIncreasing(s, key)
    ensures NonIncreasing(InsertDesc(x, s, key), key)
    ensures forall i :: 0 <= i < |InsertDesc(x, s, key)| ==>
      InsertDesc(x, s, key)[i] == x || exists j :: 0 <= j < |s| && InsertDesc(x, s, key)[i] == s[j]
  {
    if |s| > 0 && key(s[0]) >= key(x) {
      var rest := InsertDesc(x, s[1..], key);
      InsertDescSorted(x, s[1..], key);
      forall i | 0 <= i < |rest| ensures key(s[0]) >= key(rest[i]) {
        if rest[i] != x {
          var j :| 0 <= j < |s[1..]| && rest[i] == s[1..][j];
          assert rest[i] == s[j + 1];
        }
      }
      forall i | 0 <= i < |rest| ensures rest[i] == x || exists j :: 0 <= j < |s| && rest[i] == s[j] {
        if rest[i] != x {
          var j :| 0 <= j < |s[1..]| && rest[i] == s[1..][j];
          assert rest[i] == s[j + 1];
        }
      }
    }
  }

  lemma {:induction false} InsertDescMultiset<T>(x: T, s: seq<T>, key: T -> int)
    ensures multiset(InsertDesc(x, s, key)) == multiset(s) + multiset{x}
  {
    if |s| > 0 && key(s[0]) >= key(x) {
      InsertDescMultiset(x, s[1..], key);
      assert s == [s[0]] + s[1..];
    }
  }

  /** Inserting adds `x` behind every element of its own key. */
  lemma {:induction false} InsertDescWithKey<T>(x: T, s: seq<T>, key: T -> int, v: int)
    requires NonIncreasing(s, key)
    ensures WithKey(InsertDesc(x, s, key), key, v) == WithKey(s, key, v) + (if key(x) == v then [x] else [])
  {
    if |s| == 0 {
    } else if key(s[0]) < key(x) {
      var r := [x] + s;
      assert r[1..] == s;
      assert WithKey(r, key, v) == (if key(x) == v then [x] else []) + WithKey(s, key, v);
      if key(x) == v {
        assert forall i :: 0 <= i < |s| ==> key(s[i]) <= key(s[0]);
        WithKeyNone(s, key, v);
      }
    } else {
      var rest := InsertDesc(x, s[1..], key);
      var r := [s[0]] + rest;
      assert r[1..] == rest;
      assert WithKey(r, key, v) == (if key(s[0]) == v then [s[0]] else []) + WithKey(rest, key, v);
      assert NonIncreasing(s[1..], key);
      InsertDescWithKey(x, s[1..], key, v);
    }
  }

  lemma {:induction false} SortDescSorted<T>(xs: seq<T>, key: T -> int)
    ensures NonIncreasing(SortDesc(xs, key), key)
  {
    if |xs| > 0 {
      var init := xs[..|xs| - 1];
      SortDescSorted(init, key);
      InsertDescSorted(xs[|xs| - 1], SortDesc(init, key), key);
    }
  }

  lemma {:induction false} SortDescMultiset<T>(xs: seq<T>, key: T -> int)
    ensures multiset(SortDesc(xs, key)) == multiset(xs)
  {
    if |xs| > 0 {
      var init := xs[..|xs| - 1];
      var x := xs[|xs| - 1];
      assert multiset(xs) == multiset(init) + multiset{x} by {
        assert xs == init + [x];
      }
      SortDescMultiset(init, key);
      InsertDescMultiset(x, SortDesc(init, key), key);
    }
  }

  lemma {:induction false} SortDescStable<T>(xs: seq<T>, key: T -> int, v: int)
    ensures WithKey(SortDesc(xs, key), key, v) == WithKey(xs, key, v)
  {
    if |xs| > 0 {
      var init := xs[..|xs| - 1];
      var x := xs[|xs| - 1];
      var sorted := SortDesc(init, key);
      assert SortDesc(xs, key) == InsertDesc(x, sorted, key);
      SortDescStable(init, key, v);
      SortDescSorted(init, key);
      InsertDescWithKey(x, sorted, key, v);
      assert WithKey(xs, key, v) == WithKey(init, key, v) + (if key(x) == v then [x] else []) by {
        assert xs == init + [x];
        WithKeyAppend(init, [x], key, v);
        assert WithKey([x], key, v) == (if key(x) == v then [x] else []) + WithKey([x][1..], key, v);
      }
    }
  }

  /** The sort puts keys in non-increasing order, keeps every element, and
      keeps elements of equal key in their original order; together these
      determine the result uniquely, as a stable sort's. */
  lemma SortDescCorrect<T>(xs: seq<T>, key: T -> int, v: int)
    ensures NonIncreasing(SortDesc(xs, key), key)
    ensures multiset(SortDesc(xs, key)) == multiset(xs)
    ensures WithKey(SortDesc(xs, key), key, v) == WithKey(xs, key, v)
  {
    SortDescSorted(xs, key);
    SortDescMultiset(xs, key);
    SortDescStable(xs, key, v);
  }

  /** Every element taken from a non-increasing list has a key at least as
      large as every element left out. */
  lemma TakeDominates<T>(s: seq<T>, key: T -> int, n: int)
    requires NonIncreasing(s, key)
    ensures NonIncreasing(Take(s, n), key)
    ensures forall i, j :: 0 <= i < |Take(s, n)| <= j < |s| ==> key(Take(s, n)[i]) >= key(s[j])
  {
  }
}
