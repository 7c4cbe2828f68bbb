/** Stable sorting by a numeric key, as Array.prototype.sort does with a comparator that
    returns `key(a) - key(b)` (the ECMAScript sort has been stable since ES2019), and sums
    over a sequence, which such a sort leaves unchanged. */
module StableSort {

  /** Keys never decrease along `s`. */
  ghost predicate SortedBy<T>(s: seq<T>, key: T -> real) {
    forall i, j :: 0 <= i < j < |s| ==> key(s[i]) <= key(s[j])
  }

  /** The elements of `s` whose key is `k`, in their order in `s`. */
  function KeyFilter<T>(s: seq<T>, key: T -> real, k: real): (r: seq<T>)
    ensures |r| <= |s|
  {
    if s == [] then []
    else (if key(s[0]) == k then [s[0]] else []) + KeyFilter(s[1..], key, k)
  }

  /** The run of key k holds exactly the elements of `s` whose key is k. */
  lemma {:induction false} KeyFilterMembers<T>(s: seq<T>, key: T -> real, k: real, x: T)
    ensures x in KeyFilter(s, key, k) <==> x in s && key(x) == k
    decreases |s|
  {
    if s != [] {
      KeyFilterMembers(s[1..], key, k, x);
      assert s == [s[0]] + s[1..];
    }
  }

  /** `r` holds, for every key, the same elements as `s` in the same relative order:
      a stable rearrangement. */
  ghost predicate SameRuns<T>(r: seq<T>, s: seq<T>, key: T -> real) {
    forall k :: KeyFilter(r, key, k) == KeyFilter(s, key, k)
  }

  /** Places `x` in front of the first element whose key is at least its own. */
  function Insert<T>(x: T, s: seq<T>, key: T -> real): (r: seq<T>)
    ensures |r| == |s| + 1
    ensures multiset(r) == multiset(s) + multiset{x}
  {
    if s == [] || key(x) <= key(s[0]) then [x] + s
    else
      assert s == [s[0]] + s[1..];
      [s[0]] + Insert(x, s[1..], key)
  }

  /** Insertion sort, ascending by key. */
  function Sort<T>(s: seq<T>, key: T -> real): (r: seq<T>)
    ensures |r| == |s|
    ensures multiset(r) == multiset(s)
  {
    if s == [] then []
    else
      assert s == [s[0]] + s[1..];
      Insert(s[0], Sort(s[1..], key), key)
  }

  lemma {:induction false} InsertSorted<T>(x: T, s: seq<T>, key: T -> real)
    requires SortedBy(s, key)
    ensures SortedBy(Insert(x, s, key), key)
    decreases |s|
  {
    if s != [] && key(x) > key(s[0]) {
      var rest := Insert(x, s[1..], key);
      InsertSorted(x, s[1..], key);
      forall y | y in rest
        ensures key(s[0]) <= key(y)
      {
        assert y in multiset(rest);
        if y != x {
          assert y in s[1..];
        }
      }
      assert Insert(x, s, key) == [s[0]] + rest;
    }
  }

  /** Inserting `x` changes the run of `x`'s key only by putting `x` in front of it. */
  lemma {:induction false} InsertRuns<T>(x: T, s: seq<T>, key: T -> real, k: real)
    ensures KeyFilter(Insert(x, s, key), key, k) == KeyFilter([x] + s, key, k)
    decreases |s|
  {
    if s == [] || key(x) <= key(s[0]) {
    } else {
      InsertRuns(x, s[1..], key, k);
      var r := Insert(x, s, key);
      assert r[0] == s[0] && r[1..] == Insert(x, s[1..], key);
      assert ([x] + s)[1..] == s;
      assert ([x] + s[1..])[1..] == s[1..];
    }
  }

  /** The sort returns its input ascending by key, and elements with equal keys in their
      input order. */
  lemma {:induction false} SortCorrect<T>(s: seq<T>, key: T -> real)
    ensures SortedBy(Sort(s, key), key)
    ensures SameRuns(Sort(s, key), s, key)
    decreases |s|
  {
    if s != [] {
      var tail := Sort(s[1..], key);
      SortCorrect(s[1..], key);
      InsertSorted(s[0], tail, key);
      forall k
        ensures KeyFilter(Sort(s, key), key, k) == KeyFilter(s, key, k)
      {
        InsertRuns(s[0], tail, key, k);
        assert ([s[0]] + tail)[1..] == tail;
      }
    }
  }

  /** Only one arrangement is both ascending and a stable rearrangement of the input, so every
      stable ascending sort, whatever its algorithm, returns exactly what Sort returns. */
  lemma {:induction false} SortedRunsUnique<T>(a: seq<T>, b: seq<T>, key: T -> real)
    requires SortedBy(a, key) && SortedBy(b, key)
    requires SameRuns(a, b, key)
    ensures a == b
    decreases |a|
  {
    if a == [] {
      if b != [] {
        // b's first run is not empty, a's is
        assert false;
      }
    } else if b == [] {
      KeyFilterMembers(a, key, key(a[0]), a[0]);
      assert false;
    } else {
      var ka, kb := key(a[0]), key(b[0]);
      KeyFilterMembers(b, key, kb, b[0]);
      KeyFilterMembers(a, key, kb, b[0]);
      var i :| 0 <= i < |a| && a[i] == b[0];
      assert ka <= kb;
      KeyFilterMembers(a, key, ka, a[0]);
      KeyFilterMembers(b, key, ka, a[0]);
      var j :| 0 <= j < |b| && b[j] == a[0];
      assert kb <= ka;
      assert KeyFilter(a, key, ka) == [a[0]] + KeyFilter(a[1..], key, ka);
      assert KeyFilter(b, key, ka) == [b[0]] + KeyFilter(b[1..], key, ka);
      assert KeyFilter(a, key, ka) == KeyFilter(b, key, ka);
      assert a[0] == KeyFilter(a, key, ka)[0] == b[0];
      forall k
        ensures KeyFilter(a[1..], key, k) == KeyFilter(b[1..], key, k)
      {
        assert KeyFilter(a, key, k) == KeyFilter(b, key, k);
        if k == ka {
          assert KeyFilter(a[1..], key, k) == KeyFilter(a, key, k)[1..];
          assert KeyFilter(b[1..], key, k) == KeyFilter(b, key, k)[1..];
        } else {
          assert KeyFilter(a, key, k) == KeyFilter(a[1..], key, k);
          assert KeyFilter(b, key, k) == KeyFilter(b[1..], key, k);
        }
      }
      SortedRunsUnique(a[1..], b[1..], key);
      assert a == [a[0]] + a[1..];
      assert b == [b[0]] + b[1..];
    }
  }

  /** The sum of f over the elements of `s`, first to last. */
  function SumOf<T>(s: seq<T>, f: T -> real): real {
    if s == [] then 0.0 else f(s[0]) + SumOf(s[1..], f)
  }

  /** The number of elements of `s` that satisfy `p`. */
  function CountWhere<T>(s: seq<T>, p: T -> bool): (n: nat)
    ensures n <= |s|
  {
    if s == [] then 0 else (if p(s[0]) then 1 else 0) + CountWhere(s[1..], p)
  }

  lemma {:induction false} SumOfAppend<T>(s: seq<T>, x: T, f: T -> real)
    ensures SumOf(s + [x], f) == SumOf(s, f) + f(x)
    decreases |s|
  {
    if s != [] {
      assert (s + [x])[1..] == s[1..] + [x];
      SumOfAppend(s[1..], x, f);
    }
  }

  lemma {:induction false} CountWhereAppend<T>(s: seq<T>, x: T, p: T -> bool)
    ensures CountWhere(s + [x], p) == CountWhere(s, p) + (if p(x) then 1 else 0)
    decreases |s|
  {
    if s != [] {
      assert (s + [x])[1..] == s[1..] + [x];
      CountWhereAppend(s[1..], x, p);
    }
  }

  lemma {:induction false} SumOfBounds<T>(s: seq<T>, f: T -> real, lo: real, hi: real)
    requires forall x :: x in s ==> lo <= f(x) <= hi
    ensures |s| as real * lo <= SumOf(s, f) <= |s| as real * hi
    decreases |s|
  {
    if s != [] {
      SumOfBounds(s[1..], f, lo, hi);
      assert s[0] in s;
    }
  }

  lemma {:induction false} SumOfInsert<T>(x: T, s: seq<T>, key: T -> real, f: T -> real)
    ensures SumOf(Insert(x, s, key), f) == f(x) + SumOf(s, f)
    decreases |s|
  {
    if s != [] && key(x) > key(s[0]) {
      SumOfInsert(x, s[1..], key, f);
      assert Insert(x, s, key)[1..] == Insert(x, s[1..], key);
    } else {
      assert ([x] + s)[1..] == s;
    }
  }

  lemma {:induction false} CountWhereInsert<T>(x: T, s: seq<T>, key: T -> real, p: T -> bool)
    ensures CountWhere(Insert(x, s, key), p) == (if p(x) then 1 else 0) + CountWhere(s, p)
    decreases |s|
  {
    if s != [] && key(x) > key(s[0]) {
      CountWhereInsert(x, s[1..], key, p);
      assert Insert(x, s, key)[1..] == Insert(x, s[1..], key);
    } else {
      assert ([x] + s)[1..] == s;
    }
  }

  /** Sorting does not change a sum over the sequence. */
  lemma {:induction false} SumOfSort<T>(s: seq<T>, key: T -> real, f: T -> real)
    ensures SumOf(Sort(s, key), f) == SumOf(s, f)
    decreases |s|
  {
    if s != [] {
      SumOfSort(s[1..], key, f);
      SumOfInsert(s[0], Sort(s[1..], key), key, f);
    }
  }

  /** Sorting does not change a count over the sequence. */
  lemma {:induction false} CountWhereSort<T>(s: seq<T>, key: T -> real, p: T -> bool)
    ensures CountWhere(Sort(s, key), p) == CountWhere(s, p)
    decreases |s|
  {
    if s != [] {
      CountWhereSort(s[1..], key, p);
      CountWhereInsert(s[0], Sort(s[1..], key), key, p);
    }
  }
}
