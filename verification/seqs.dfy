/** Sequence helpers shared by the model: distinctness, counting, suffixes. */
module Seqs {

  import opened Results

  /** No element occurs twice. */
  predicate Distinct<T(==)>(s: seq<T>) {
    forall i, j :: 0 <= i < j < |s| ==> s[i] != s[j]
  }

  /** Number of occurrences of `x` in `s`. */
  function Count<T(==)>(s: seq<T>, x: T): (n: nat)
    ensures n <= |s|
    ensures n == 0 <==> x !in s
  {
    if |s| == 0 then 0
    else Count(s[..|s| - 1], x) + (if s[|s| - 1] == x then 1 else 0)
  }

  lemma {:induction false} CountAppend<T>(a: seq<T>, b: seq<T>, x: T)
    ensures Count(a + b, x) == Count(a, x) + Count(b, x)
  {
    if |b| == 0 {
      assert a + b == a;
    } else {
      assert (a + b)[..|a + b| - 1] == a + b[..|b| - 1];
      CountAppend(a, b[..|b| - 1], x);
    }
  }

  /** Position of the first occurrence of `x`. */
  function FirstIndex<T(==)>(s: seq<T>, x: T): (r: nat)
    requires x in s
    ensures r < |s| && s[r] == x && x !in s[..r]
  {
    if s[0] == x then 0
    else
      var r := FirstIndex(s[1..], x);
      assert s[1..][..r] == s[1..r + 1];
      assert s[..r + 1] == [s[0]] + s[1..r + 1];
      r + 1
  }

  /** Only one position is a first occurrence. */
  lemma FirstIndexUnique<T>(s: seq<T>, x: T, k: nat)
    requires k < |s| && s[k] == x && x !in s[..k]
    ensures FirstIndex(s, x) == k
  {
  }

  /** Appending does not move a first occurrence. */
  lemma FirstIndexExtend<T>(s: seq<T>, t: seq<T>, x: T)
    requires x in s
    ensures x in s + t && FirstIndex(s + t, x) == FirstIndex(s, x)
  {
    var r := FirstIndex(s, x);
    assert (s + t)[..r] == s[..r];
    FirstIndexUnique(s + t, x, r);
  }

  /** Python's "keep the first occurrence" de-duplication. */
  function DedupFirst<T(==)>(xs: seq<T>): seq<T>
  {
    if |xs| == 0 then []
    else if xs[|xs| - 1] in xs[..|xs| - 1] then DedupFirst(xs[..|xs| - 1])
    else DedupFirst(xs[..|xs| - 1]) + [xs[|xs| - 1]]
  }

  /** The de-duplicated list holds every element of `xs` exactly once, in the
      order of their first occurrences. */
  lemma {:induction false} DedupFirstCorrect<T>(xs: seq<T>)
    ensures Distinct(DedupFirst(xs))
    ensures forall x :: x in DedupFirst(xs) ==> x in xs
    ensures forall x :: x in xs ==> x in DedupFirst(xs)
    ensures forall i, j :: 0 <= i < j < |DedupFirst(xs)| ==>
      DedupFirst(xs)[i] in xs && DedupFirst(xs)[j] in xs &&
      FirstIndex(xs, DedupFirst(xs)[i]) < FirstIndex(xs, DedupFirst(xs)[j])
  {
    if |xs| > 0 {
      var init := xs[..|xs| - 1];
      var y := xs[|xs| - 1];
      assert xs == init + [y];
      DedupFirstCorrect(init);
      var d := DedupFirst(init);
      forall x | x in init ensures x in xs && FirstIndex(xs, x) == FirstIndex(init, x) {
        FirstIndexExtend(init, [y], x);
      }
      if y !in init {
        assert init == xs[..|xs| - 1];
        FirstIndexUnique(xs, y, |xs| - 1);
        var r := DedupFirst(xs);
        assert r == d + [y];
        forall i, j | 0 <= i < j < |r|
          ensures r[i] in xs && r[j] in xs && FirstIndex(xs, r[i]) < FirstIndex(xs, r[j])
        {
          var x := d[i];
          assert r[i] == x && x in d;
          assert x in init;
          FirstIndexExtend(init, [y], x);
          if j < |d| {
            assert r[j] == d[j];
          } else {
            assert r[j] == y;
          }
        }
      }
    }
  }

  /** `suffix` is a suffix of `s`. */
  predicate EndsWith(s: string, suffix: string) {
    |suffix| <= |s| && s[|s| - |suffix|..] == suffix
  }

  /** Two suffixes of one string: the shorter one is a suffix of the longer. */
  lemma SuffixOfSuffix(s: string, a: string, b: string)
    requires EndsWith(s, a) && EndsWith(s, b) && |a| <= |b|
    ensures EndsWith(b, a)
  {
    assert b[|b| - |a|..] == s[|s| - |a|..];
  }

  /** No entry, with a leading "-", is a suffix of another entry with a
      leading "-". Then the entry a "...-<entry>" string ends with is unique. */
  predicate DashSuffixFree(words: seq<string>) {
    forall i, j :: 0 <= i < |words| && 0 <= j < |words| && words[i] != words[j] ==>
      !EndsWith("-" + words[i], "-" + words[j])
  }

  /** `w` and `v` are equal, or neither "-" + w nor "-" + v ends the other. */
  predicate DashApart(w: string, v: string) {
    w == v || (!EndsWith("-" + w, "-" + v) && !EndsWith("-" + v, "-" + w))
  }

  /** Strings that differ at the k-th position from the end: neither ends
      the other. */
  lemma ApartFromEnd(a: string, b: string, k: nat)
    requires k < |a| && k < |b| && a[|a| - 1 - k] != b[|b| - 1 - k]
    ensures !EndsWith(a, b) && !EndsWith(b, a)
  {
  }

  /** `DashApart(w, v)` witnessed by the k-th character from the end of
      "-" + w and "-" + v. */
  lemma DashApartAt(w: string, v: string, k: nat)
    requires k <= |w| && k <= |v|
    requires (if k == |w| then '-' else w[|w| - 1 - k]) != (if k == |v| then '-' else v[|v| - 1 - k])
    ensures DashApart(w, v)
  {
    ApartFromEnd("-" + w, "-" + v, k);
  }

  lemma PairwiseDashApart(words: seq<string>)
    requires forall i, j :: 0 <= i < j < |words| ==> DashApart(words[i], words[j])
    ensures DashSuffixFree(words)
  {
    forall i, j | 0 <= i < |words| && 0 <= j < |words| && words[i] != words[j]
      ensures !EndsWith("-" + words[i], "-" + words[j])
    {
      if i < j {
        assert DashApart(words[i], words[j]);
      } else {
        assert DashApart(words[j], words[i]);
      }
    }
  }

  /** The first entry `w` of `words` such that `s` ends with "-" + w, together
      with the part of `s` before that "-". */
  function SplitDashSuffix(s: string, words: seq<string>): (r: Option<(string, string)>)
    ensures r.Some? ==> r.value.1 in words && s == r.value.0 + "-" + r.value.1
    ensures r.None? ==> forall w :: w in words ==> !EndsWith(s, "-" + w)
  {
    if |words| == 0 then None
    else if EndsWith(s, "-" + words[0]) then
      var p := s[..|s| - |words[0]| - 1];
      assert s == p + "-" + words[0] by {
        assert s == s[..|s| - |words[0]| - 1] + s[|s| - |words[0]| - 1..];
      }
      Some((p, words[0]))
    else SplitDashSuffix(s, words[1..])
  }

  /** Round trip: in a dash-suffix-free list, "p-w" splits back into (p, w). */
  lemma {:induction false} SplitDashSuffixJoin(p: string, w: string, words: seq<string>)
    requires w in words && DashSuffixFree(words)
    ensures SplitDashSuffix(p + "-" + w, words) == Some((p, w))
  {
    var s := p + "-" + w;
    assert EndsWith(s, "-" + w) by {
      assert s == p + ("-" + w);
    }
    if words[0] == w {
      var p' := s[..|s| - |w| - 1];
      assert p' == p;
    } else {
      assert !EndsWith(s, "-" + words[0]);
      assert DashSuffixFree(words[1..]) by {
        forall i, j | 0 <= i < |words[1..]| && 0 <= j < |words[1..]| && words[1..][i] != words[1..][j]
          ensures !EndsWith("-" + words[1..][i], "-" + words[1..][j])
        {
          assert words[1..][i] == words[i + 1] && words[1..][j] == words[j + 1];
        }
      }
      assert w in words[1..] by {
        var k :| 0 <= k < |words| && words[k] == w;
        assert k != 0;
        assert words[1..][k - 1] == w;
      }
      SplitDashSuffixJoin(p, w, words[1..]);
    }
  }

  /** The keys of an association list (a Python dict in insertion order). */
  function Keys<V>(table: seq<(string, V)>): (ks: seq<string>)
    ensures |ks| == |table|
    ensures forall i :: 0 <= i < |table| ==> ks[i] == table[i].0
  {
    seq(|table|, i requires 0 <= i < |table| => table[i].0)
  }

  /** `key in table`. */
  predicate HasKey<V>(table: seq<(string, V)>, key: string) {
    exists i :: 0 <= i < |table| && table[i].0 == key
  }

  /** `table[key]`; the first pair wins, which for a Python dict is the only one. */
  function Lookup<V>(table: seq<(string, V)>, key: string): (r: Option<V>)
    ensures r.Some? <==> HasKey(table, key)
    ensures r.Some? ==> (key, r.value) in table
  {
    if |table| == 0 then None
    else if table[0].0 == key then Some(table[0].1)
    else
      var r := Lookup(table[1..], key);
      assert HasKey(table, key) ==> HasKey(table[1..], key) by {
        if HasKey(table, key) {
          var i :| 0 <= i < |table| && table[i].0 == key;
          assert table[1..][i - 1].0 == key;
        }
      }
      assert HasKey(table[1..], key) ==> HasKey(table, key) by {
        if HasKey(table[1..], key) {
          var i :| 0 <= i < |table[1..]| && table[1..][i].0 == key;
          assert table[i + 1].0 == key;
        }
      }
      r
  }
}
