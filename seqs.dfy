/** Sequence helpers shared by every component: the order-preserving
    `Array.prototype.filter` and the stable `Array.prototype.sort` that the
    client applies to its lists. */
module Seqs {

  /** `s.filter(p)`: the elements of `s` that satisfy `p`, in their order. */
  function Filter<T(!new)>(s: seq<T>, p: T -> bool): (r: seq<T>)
    ensures |r| <= |s|
    ensures forall x :: x in r <==> x in s && p(x)
  {
    if s == [] then []
    else if p(s[0]) then
      assert s == [s[0]] + s[1..];
      [s[0]] + Filter(s[1..], p)
    else
      Filter(s[1..], p)
  }

  /** Filtering distributes over concatenation: the kept elements of a prefix
      come before the kept elements of the rest, so relative order is kept. */
  lemma {:induction false} FilterConcat<T(!new)>(a: seq<T>, b: seq<T>, p: T -> bool)
    ensures Filter(a + b, p) == Filter(a, p) + Filter(b, p)
  {
    if a == [] {
      assert a + b == b;
    } else {
      assert (a + b)[0] == a[0];
      assert (a + b)[1..] == a[1..] + b;
      FilterConcat(a[1..], b, p);
    }
  }

  /** Each value is kept as often as it occurs in `s` if it satisfies `p`,
      and not at all otherwise. */
  lemma {:induction false} FilterCount<T(!new)>(s: seq<T>, p: T -> bool, x: T)
    ensures multiset(Filter(s, p))[x] == if p(x) then multiset(s)[x] else 0
  {
    if s != [] {
      assert s == [s[0]] + s[1..];
      FilterCount(s[1..], p, x);
    }
  }

  /** Two predicates that agree on the elements of `s` select the same elements. */
  lemma {:induction false} FilterExt<T(!new)>(s: seq<T>, p: T -> bool, q: T -> bool)
    requires forall x :: x in s ==> p(x) == q(x)
    ensures Filter(s, p) == Filter(s, q)
  {
    if s != [] {
      FilterExt(s[1..], p, q);
    }
  }

  /** A filter that keeps everything is the identity. */
  lemma {:induction false} FilterAll<T(!new)>(s: seq<T>, p: T -> bool)
    requires forall x :: x in s ==> p(x)
    ensures Filter(s, p) == s
  {
    if s != [] {
      FilterAll(s[1..], p);
    }
  }

  /** Filtering twice is filtering once by the conjunction. */
  lemma {:induction false} FilterFilter<T(!new)>(s: seq<T>, p: T -> bool, q: T -> bool, both: T -> bool)
    requires forall x :: both(x) == (p(x) && q(x))
    ensures Filter(Filter(s, p), q) == Filter(s, both)
  {
    if s != [] {
      var t := s[1..];
      FilterFilter(t, p, q, both);
      if p(s[0]) {
        var f := Filter(t, p);
        assert Filter(s, p) == [s[0]] + f;
        assert ([s[0]] + f)[0] == s[0];
        assert ([s[0]] + f)[1..] == f;
      } else {
        assert Filter(s, p) == Filter(t, p);
      }
    }
  }

  /** No value occurs twice in `s`. */
  predicate Distinct<T(==)>(s: seq<T>) {
    forall i, j :: 0 <= i < j < |s| ==> s[i] != s[j]
  }

  /** A filtered sequence of distinct values still has distinct values. */
  lemma {:induction false} FilterDistinct<T(!new)>(s: seq<T>, p: T -> bool)
    requires Distinct(s)
    ensures Distinct(Filter(s, p))
  {
    var r := Filter(s, p);
    forall x | x in r ensures multiset(r)[x] == 1 {
      DistinctCount(s, x);
      FilterCount(s, p, x);
    }
    CountDistinct(r);
  }

  /** In a sequence of distinct values every member occurs exactly once. */
  lemma {:induction false} DistinctCount<T(!new)>(s: seq<T>, x: T)
    requires Distinct(s) && x in s
    ensures multiset(s)[x] == 1
  {
    assert s == [s[0]] + s[1..];
    if s[0] == x {
      assert x !in s[1..];
    } else {
      DistinctCount(s[1..], x);
    }
  }

  /** A sequence whose members occur once each has distinct values. */
  lemma {:induction false} CountDistinct<T(!new)>(s: seq<T>)
    requires forall x :: x in s ==> multiset(s)[x] == 1
    ensures Distinct(s)
  {
    forall i, j | 0 <= i < j < |s| ensures s[i] != s[j] {
      var x := s[i];
      assert x in s;
      assert s == s[..j] + s[j..];
      assert multiset(s) == multiset(s[..j]) + multiset(s[j..]);
      assert x in s[..j];
      assert multiset(s[j..])[x] == 0;
      assert s[j] in multiset(s[j..]);
    }
  }

  /** Stable insertion of `x` in front of the first element whose key is not
      smaller: `x` goes before every element with an equal key. */
  function Insert<T>(x: T, s: seq<T>, key: T -> int): (r: seq<T>)
    ensures multiset(r) == multiset(s) + multiset{x}
  {
    if s == [] || key(x) <= key(s[0]) then [x] + s
    else
      assert s == [s[0]] + s[1..];
      [s[0]] + Insert(x, s[1..], key)
  }

  /** `s.sort((a, b) => key(a) - key(b))` with the stable sort the language
      guarantees: an insertion sort that keeps equal keys in input order. */
  function SortByKey<T>(s: seq<T>, key: T -> int): (r: seq<T>)
    ensures multiset(r) == multiset(s)
    ensures |r| == |s|
  {
    if s == [] then []
    else
      assert s == [s[0]] + s[1..];
      Insert(s[0], SortByKey(s[1..], key), key)
  }

  /** Inserting past a block of strictly smaller keys lands in front of a block
      whose first key is not smaller. */
  lemma {:induction false} InsertAfter<T(!new)>(x: T, a: seq<T>, b: seq<T>, key: T -> int)
    requires forall y :: y in a ==> key(y) < key(x)
    requires b == [] || key(x) <= key(b[0])
    ensures Insert(x, a + b, key) == a + [x] + b
  {
    if a == [] {
      assert a + b == b;
    } else {
      assert (a + b)[0] == a[0];
      assert (a + b)[1..] == a[1..] + b;
      assert key(a[0]) < key(x);
      InsertAfter(x, a[1..], b, key);
      assert Insert(x, a + b, key) == [a[0]] + (a[1..] + [x] + b);
      assert [a[0]] + (a[1..] + [x] + b) == a + [x] + b;
    }
  }

  /** With keys 0 and 1 only, the stable sort puts the key-0 elements first and
      the key-1 elements after them, each group in input order. */
  lemma {:induction false} SortByBinaryKey<T(!new)>(s: seq<T>, key: T -> int, zero: T -> bool, one: T -> bool)
    requires forall x :: x in s ==> 0 <= key(x) <= 1
    requires forall x :: zero(x) == (key(x) == 0)
    requires forall x :: one(x) == (key(x) == 1)
    ensures SortByKey(s, key) == Filter(s, zero) + Filter(s, one)
  {
    if s != [] {
      var t := s[1..];
      assert s == [s[0]] + t;
      assert forall y :: y in t ==> y in s;
      SortByBinaryKey(t, key, zero, one);
      if key(s[0]) == 0 {
        SortStepZero(s[0], t, key, zero, one);
      } else {
        SortStepOne(s[0], t, key, zero, one);
      }
    }
  }

  lemma SortStepZero<T(!new)>(x: T, t: seq<T>, key: T -> int, zero: T -> bool, one: T -> bool)
    requires key(x) == 0
    requires forall y :: zero(y) == (key(y) == 0)
    requires forall y :: one(y) == (key(y) == 1)
    requires SortByKey(t, key) == Filter(t, zero) + Filter(t, one)
    ensures SortByKey([x] + t, key) == Filter([x] + t, zero) + Filter([x] + t, one)
  {
    var s := [x] + t;
    var a, b := Filter(t, zero), Filter(t, one);
    assert [x] + (a + b) == ([x] + a) + b;
    assert s[0] == x && s[1..] == t;
    assert SortByKey(s, key) == [x] + (a + b);
    assert Filter(s, zero) == [x] + a;
    assert Filter(s, one) == b;
  }

  lemma SortStepOne<T(!new)>(x: T, t: seq<T>, key: T -> int, zero: T -> bool, one: T -> bool)
    requires key(x) == 1
    requires forall y :: y in t ==> 0 <= key(y) <= 1
    requires forall y :: zero(y) == (key(y) == 0)
    requires forall y :: one(y) == (key(y) == 1)
    requires SortByKey(t, key) == Filter(t, zero) + Filter(t, one)
    ensures SortByKey([x] + t, key) == Filter([x] + t, zero) + Filter([x] + t, one)
  {
    var s := [x] + t;
    var a, b := Filter(t, zero), Filter(t, one);
    assert a + [x] + b == a + ([x] + b);
    assert s[0] == x && s[1..] == t;
    assert b == [] || key(b[0]) == 1 by {
      if b != [] { assert b[0] in b; }
    }
    InsertAfter(x, a, b, key);
    assert Filter(s, zero) == a;
    assert Filter(s, one) == [x] + b;
  }

  /** `0, 1, ..., n - 1`. */
  function Range(n: nat): (r: seq<nat>)
    ensures |r| == n
    ensures forall i :: 0 <= i < n ==> r[i] == i
  {
    if n == 0 then [] else Range(n - 1) + [n - 1]
  }

  /** `perm` lists every position below `n` exactly once. */
  predicate IsPermutation(perm: seq<nat>, n: nat) {
    multiset(perm) == multiset(Range(n))
  }

  /** `s` reordered by `perm`: position `i` receives `s[perm[i]]`. */
  function Permute<T>(s: seq<T>, perm: seq<nat>): (r: seq<T>)
    requires forall i :: 0 <= i < |perm| ==> perm[i] < |s|
    ensures |r| == |perm|
    ensures forall i :: 0 <= i < |perm| ==> r[i] == s[perm[i]]
  {
    seq(|perm|, i requires 0 <= i < |perm| => s[perm[i]])
  }

  /** Every entry of a permutation of `n` positions is below `n`. */
  lemma PermutationBounded(perm: seq<nat>, n: nat)
    requires IsPermutation(perm, n)
    ensures |perm| == n
    ensures forall i :: 0 <= i < |perm| ==> perm[i] < n
  {
    assert |perm| == |multiset(perm)| == |multiset(Range(n))| == n;
    forall i | 0 <= i < |perm| ensures perm[i] < n {
      assert perm[i] in multiset(perm);
      assert perm[i] in Range(n);
    }
  }

  /** Dropping the entry for the last position leaves a permutation of the others. */
  lemma DropLast(perm: seq<nat>, n: nat, k: nat)
    requires IsPermutation(perm, n) && n > 0
    requires k < |perm| && perm[k] == n - 1
    ensures IsPermutation(perm[..k] + perm[k + 1..], n - 1)
  {
    var rest := perm[..k] + perm[k + 1..];
    var last: nat := n - 1;
    assert Range(n) == Range(n - 1) + [last];
    assert perm == perm[..k] + [perm[k]] + perm[k + 1..];
    assert multiset(perm) == multiset(perm[..k]) + multiset{last} + multiset(perm[k + 1..]);
    assert multiset(rest) == multiset(perm[..k]) + multiset(perm[k + 1..]);
    assert multiset(Range(n)) == multiset(Range(n - 1)) + multiset{last};
    forall x ensures multiset(rest)[x] == multiset(Range(n - 1))[x] {
      assert multiset(perm)[x] == multiset(Range(n))[x];
    }
    assert multiset(rest) == multiset(Range(n - 1));
  }

  /** Reordering `s` is reordering its front and slotting its last element
      in where the permutation puts it. */
  lemma PermuteSplit<T>(s: seq<T>, perm: seq<nat>, k: nat, rest: seq<nat>)
    requires s != [] && k < |perm| && perm[k] == |s| - 1
    requires rest == perm[..k] + perm[k + 1..]
    requires forall i :: 0 <= i < |rest| ==> rest[i] < |s| - 1
    ensures forall i :: 0 <= i < |perm| ==> perm[i] < |s|
    ensures Permute(s, perm) ==
      Permute(s[..|s| - 1], rest)[..k] + [s[|s| - 1]] + Permute(s[..|s| - 1], rest)[k..]
  {
    assert forall i :: 0 <= i < |rest| ==> rest[i] == if i < k then perm[i] else perm[i + 1];
    forall i | 0 <= i < |perm| ensures perm[i] < |s| {
      if i < k { assert perm[i] == rest[i]; }
      else if i > k { assert perm[i] == rest[i - 1]; }
    }
    var q := Permute(s[..|s| - 1], rest);
    var r := q[..k] + [s[|s| - 1]] + q[k..];
    assert |r| == |perm|;
    forall i | 0 <= i < |perm| ensures r[i] == Permute(s, perm)[i] {
      if i < k {
        assert r[i] == q[i];
      } else if i > k {
        assert r[i] == q[i - 1];
      }
    }
  }

  lemma Splice<T>(q: seq<T>, k: nat, x: T)
    requires k <= |q|
    ensures multiset(q[..k] + [x] + q[k..]) == multiset(q) + multiset{x}
  {
    assert q == q[..k] + q[k..];
  }

  /** Slotting the last element of `s` into a reordering of its front gives
      a reordering of `s`. */
  lemma SpliceLast<T>(p: seq<T>, q: seq<T>, t: seq<T>, s: seq<T>, k: nat)
    requires s != [] && t == s[..|s| - 1]
    requires k <= |q| && p == q[..k] + [s[|s| - 1]] + q[k..]
    requires multiset(q) == multiset(t)
    ensures multiset(p) == multiset(s)
  {
    Splice(q, k, s[|s| - 1]);
    assert s == t + [s[|s| - 1]];
  }

  /** A permutation of `n > 0` positions places position `n - 1` somewhere. */
  lemma SlotOfLast(perm: seq<nat>, n: nat) returns (k: nat)
    requires IsPermutation(perm, n) && n > 0
    ensures k < |perm| && perm[k] == n - 1
  {
    assert Range(n)[n - 1] == n - 1;
    assert n - 1 in multiset(Range(n));
    k :| 0 <= k < |perm| && perm[k] == n - 1;
  }

  /** Reordering by a permutation keeps every element, as often as before. */
  lemma {:induction false} PermuteKeepsElements<T>(s: seq<T>, perm: seq<nat>)
    requires IsPermutation(perm, |s|)
    ensures forall i :: 0 <= i < |perm| ==> perm[i] < |s|
    ensures multiset(Permute(s, perm)) == multiset(s)
    decreases |s|
  {
    PermutationBounded(perm, |s|);
    if s != [] {
      var n := |s|;
      var t := s[..n - 1];
      var k := SlotOfLast(perm, n);
      var rest := perm[..k] + perm[k + 1..];
      DropLast(perm, n, k);
      PermuteKeepsElements(t, rest);
      PermuteSplit(s, perm, k, rest);
      SpliceLast(Permute(s, perm), Permute(t, rest), t, s, k);
    }
  }
}
