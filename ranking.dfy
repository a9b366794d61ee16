/**
 * Descending, stable ordering by a real-valued key, as Python's
 * `sorted(xs, key=f, reverse=True)` and `xs.sort(key=f, reverse=True)` order
 * a list: larger keys first, and elements with equal keys keep their
 * original relative order.
 */
module Ranking {

  /** Keys never increase from left to right. */
  predicate NonIncreasing<T>(s: seq<T>, key: T -> real) {
    forall i, j :: 0 <= i < j < |s| ==> key(s[i]) >= key(s[j])
  }

  /** Places `x` in front of the first element of `t` whose key is at most `key(x)`. */
  function Insert<T>(x: T, t: seq<T>, key: T -> real): (r: seq<T>)
    ensures |r| == |t| + 1
  {
    if t == [] || key(x) >= key(t[0]) then [x] + t
    else [t[0]] + Insert(x, t[1..], key)
  }

  /** Insertion sort, inserting from the back so that earlier elements win ties. */
  function SortDesc<T>(s: seq<T>, key: T -> real): (r: seq<T>)
    ensures |r| == |s|
  {
    if s == [] then [] else Insert(s[0], SortDesc(s[1..], key), key)
  }

  /** The elements of `s` whose key is `v`, in order. */
  function KeyFilter<T>(s: seq<T>, key: T -> real, v: real): (r: seq<T>)
    ensures |r| <= |s|
    ensures forall i :: 0 <= i < |r| ==> key(r[i]) == v
  {
    if s == [] then []
    else if key(s[0]) == v then [s[0]] + KeyFilter(s[1..], key, v)
    else KeyFilter(s[1..], key, v)
  }

  lemma {:induction false} InsertNonIncreasing<T>(x: T, t: seq<T>, key: T -> real)
    requires NonIncreasing(t, key)
    ensures NonIncreasing(Insert(x, t, key), key)
    ensures Insert(x, t, key)[0] == x || (t != [] && Insert(x, t, key)[0] == t[0])
    decreases |t|
  {
    if t != [] && key(x) < key(t[0]) {
      InsertNonIncreasing(x, t[1..], key);
      var r := Insert(x, t[1..], key);
      assert key(r[0]) <= key(t[0]) by {
        if |t| > 1 { assert key(t[0]) >= key(t[1]); }
      }
    }
  }

  lemma {:induction false} InsertPermutes<T>(x: T, t: seq<T>, key: T -> real)
    ensures multiset(Insert(x, t, key)) == multiset(t) + multiset{x}
    decreases |t|
  {
    if t != [] && key(x) < key(t[0]) {
      InsertPermutes(x, t[1..], key);
      assert t == [t[0]] + t[1..];
    }
  }

  /** The result of `SortDesc` is in non-increasing key order. */
  lemma {:induction false} SortDescNonIncreasing<T>(s: seq<T>, key: T -> real)
    ensures NonIncreasing(SortDesc(s, key), key)
    decreases |s|
  {
    if s != [] {
      SortDescNonIncreasing(s[1..], key);
      InsertNonIncreasing(s[0], SortDesc(s[1..], key), key);
    }
  }

  /** `SortDesc` rearranges its input: same elements, same multiplicities. */
  lemma {:induction false} SortDescPermutes<T>(s: seq<T>, key: T -> real)
    ensures multiset(SortDesc(s, key)) == multiset(s)
    decreases |s|
  {
    if s != [] {
      SortDescPermutes(s[1..], key);
      InsertPermutes(s[0], SortDesc(s[1..], key), key);
      assert s == [s[0]] + s[1..];
    }
  }

  lemma {:induction false} InsertStable<T>(x: T, t: seq<T>, key: T -> real, v: real)
    ensures KeyFilter(Insert(x, t, key), key, v) == KeyFilter([x] + t, key, v)
    decreases |t|
  {
    if t != [] && key(x) < key(t[0]) {
      InsertStable(x, t[1..], key, v);
      assert ([x] + t)[1..] == t;
      assert ([x] + t[1..])[1..] == t[1..];
      assert ([t[0]] + Insert(x, t[1..], key))[1..] == Insert(x, t[1..], key);
    }
  }

  /**
   * Stability: the elements sharing any one key value appear in the result
   * in exactly the order they had in the input.
   */
  lemma {:induction false} SortDescStable<T>(s: seq<T>, key: T -> real, v: real)
    ensures KeyFilter(SortDesc(s, key), key, v) == KeyFilter(s, key, v)
    decreases |s|
  {
    if s != [] {
      SortDescStable(s[1..], key, v);
      InsertStable(s[0], SortDesc(s[1..], key), key, v);
      assert ([s[0]] + SortDesc(s[1..], key))[1..] == SortDesc(s[1..], key);
    }
  }

  /** A list already in non-increasing key order is left as it is. */
  lemma {:induction false} SortDescOfSorted<T>(s: seq<T>, key: T -> real)
    requires NonIncreasing(s, key)
    ensures SortDesc(s, key) == s
    decreases |s|
  {
    if s != [] {
      var t := s[1..];
      forall i, j | 0 <= i < j < |t| ensures key(t[i]) >= key(t[j]) {
        assert t[i] == s[i + 1] && t[j] == s[j + 1];
      }
      SortDescOfSorted(t, key);
      assert t == [] || key(s[0]) >= key(t[0]);
      assert s == [s[0]] + t;
    }
  }

  /** `a` is `b` with some elements left out, the rest in their order. */
  predicate Subseq<T(==)>(a: seq<T>, b: seq<T>)
    decreases |b|
  {
    if a == [] then true
    else if b == [] then false
    else (a[0] == b[0] && Subseq(a[1..], b[1..])) || Subseq(a, b[1..])
  }

  /** Leaving elements out of a list in non-increasing order keeps it in non-increasing order. */
  lemma {:induction false} SubseqNonIncreasing<T>(a: seq<T>, b: seq<T>, key: T -> real)
    requires Subseq(a, b) && NonIncreasing(b, key)
    ensures NonIncreasing(a, key)
    ensures forall x :: x in a ==> x in b
    decreases |b|
  {
    if a != [] {
      var b' := b[1..];
      assert NonIncreasing(b', key) by {
        forall i, j | 0 <= i < j < |b'| ensures key(b'[i]) >= key(b'[j]) {
          assert b'[i] == b[i + 1] && b'[j] == b[j + 1];
        }
      }
      if a[0] == b[0] && Subseq(a[1..], b') {
        SubseqNonIncreasing(a[1..], b', key);
        forall j | 0 < j < |a| ensures key(a[0]) >= key(a[j]) {
          assert a[j] == a[1..][j - 1];
          assert a[j] in b';
          var m :| 0 <= m < |b'| && b'[m] == a[j];
          assert b[m + 1] == a[j];
        }
        forall i, j | 0 <= i < j < |a| ensures key(a[i]) >= key(a[j]) {
          if i > 0 {
            assert a[i] == a[1..][i - 1] && a[j] == a[1..][j - 1];
          }
        }
        forall x | x in a ensures x in b {
          if x != a[0] {
            assert x in a[1..];
          }
        }
      } else {
        SubseqNonIncreasing(a, b', key);
      }
    }
  }

  /** A prefix is a sub-sequence. */
  lemma {:induction false} PrefixSubseq<T>(a: seq<T>, n: nat)
    requires n <= |a|
    ensures Subseq(a[..n], a)
    decreases n
  {
    if n > 0 {
      PrefixSubseq(a[1..], n - 1);
      assert a[..n][1..] == a[1..][..n - 1];
    }
  }

  /** Sub-sequences compose. */
  lemma {:induction false} SubseqTrans<T>(a: seq<T>, b: seq<T>, c: seq<T>)
    requires Subseq(a, b) && Subseq(b, c)
    ensures Subseq(a, c)
    decreases |c|
  {
    if a != [] && c != [] {
      if b[0] == c[0] && Subseq(b[1..], c[1..]) {
        if a[0] == b[0] && Subseq(a[1..], b[1..]) {
          SubseqTrans(a[1..], b[1..], c[1..]);
        } else {
          SubseqTrans(a, b[1..], c[1..]);
        }
      } else {
        SubseqTrans(a, b, c[1..]);
      }
    }
  }
}
