/** Sequence helpers shared by the whole model: the JavaScript array operations
    the application relies on (`filter`, `find`, a stable `sort`), each defined once. */
module Seqs {

  datatype Option<+T> = None | Some(value: T) {
    function GetOr(default: T): T {
      match this
      case Some(v) => v
      case None => default
    }
  }

  function Min(a: int, b: int): int { if a <= b then a else b }
  function Max(a: int, b: int): int { if a >= b then a else b }

  /** `Array.prototype.filter`: the elements of `s` that satisfy `p`, in their original order. */
  function Filter<T>(s: seq<T>, p: T -> bool): (r: seq<T>)
    ensures |r| <= |s|
    ensures forall i :: 0 <= i < |r| ==> r[i] in s && p(r[i])
  {
    if s == [] then []
    else Filter(s[..|s| - 1], p) + (if p(s[|s| - 1]) then [s[|s| - 1]] else [])
  }

  /** Every element that satisfies `p` is kept. */
  lemma {:induction false} FilterKeeps<T>(s: seq<T>, p: T -> bool, i: nat)
    requires i < |s| && p(s[i])
    ensures s[i] in Filter(s, p)
  {
    if i < |s| - 1 {
      FilterKeeps(s[..|s| - 1], p, i);
    }
  }

  /** Filtering distributes over concatenation, so the kept elements stay in their relative order. */
  lemma {:induction false} FilterAppend<T>(a: seq<T>, b: seq<T>, p: T -> bool)
    ensures Filter(a + b, p) == Filter(a, p) + Filter(b, p)
    decreases |b|
  {
    if b == [] {
      assert a + b == a;
    } else {
      var b' := b[..|b| - 1];
      assert (a + b)[..|a + b| - 1] == a + b';
      FilterAppend(a, b', p);
    }
  }

  /** Every element that satisfies `p` is kept. */
  lemma FilterComplete<T>(s: seq<T>, p: T -> bool)
    ensures forall i :: 0 <= i < |s| && p(s[i]) ==> s[i] in Filter(s, p)
  {
    forall i | 0 <= i < |s| && p(s[i])
      ensures s[i] in Filter(s, p)
    {
      FilterKeeps(s, p, i);
    }
  }

  lemma {:induction false} FilterKeepsAll<T>(s: seq<T>, p: T -> bool)
    requires forall i :: 0 <= i < |s| ==> p(s[i])
    ensures Filter(s, p) == s
  {
    if s != [] {
      FilterKeepsAll(s[..|s| - 1], p);
    }
  }

  /** Two predicates that agree on the elements of `s` select the same subsequence. */
  lemma {:induction false} FilterSameOn<T>(s: seq<T>, p: T -> bool, q: T -> bool)
    requires forall i :: 0 <= i < |s| ==> p(s[i]) == q(s[i])
    ensures Filter(s, p) == Filter(s, q)
  {
    if s != [] {
      FilterSameOn(s[..|s| - 1], p, q);
    }
  }

  /** The complement of a predicate. */
  function Not<T>(p: T -> bool): T -> bool {
    x => !p(x)
  }

  /** What a filter keeps and what its complement keeps together make up the input. */
  lemma {:induction false} FilterSplits<T>(s: seq<T>, p: T -> bool)
    ensures multiset(Filter(s, p)) + multiset(Filter(s, Not(p))) == multiset(s)
  {
    if s != [] {
      var init, last := s[..|s| - 1], s[|s| - 1];
      FilterSplits(init, p);
      assert s == init + [last];
      var a, b := Filter(init, p), Filter(init, Not(p));
      if p(last) {
        assert Filter(s, p) == a + [last];
        assert Filter(s, Not(p)) == b;
        assert multiset(a + [last]) == multiset(a) + multiset{last};
      } else {
        assert Filter(s, p) == a;
        assert Filter(s, Not(p)) == b + [last];
        assert multiset(b + [last]) == multiset(b) + multiset{last};
      }
    }
  }

  /** A filter keeps every copy of an element that satisfies `p` and no copy of any other. */
  lemma {:induction false} FilterMultiset<T>(s: seq<T>, p: T -> bool, x: T)
    ensures multiset(Filter(s, p))[x] == if p(x) then multiset(s)[x] else 0
  {
    if s != [] {
      var init, last := s[..|s| - 1], s[|s| - 1];
      FilterMultiset(init, p, x);
      assert s == init + [last];
      var kept := if p(last) then [last] else [];
      assert multiset(Filter(s, p)) == multiset(Filter(init, p)) + multiset(kept);
    }
  }

  /** Filtering two permutations of each other gives two permutations of each other. */
  lemma FilterPermutation<T>(a: seq<T>, b: seq<T>, p: T -> bool)
    requires multiset(a) == multiset(b)
    ensures multiset(Filter(a, p)) == multiset(Filter(b, p))
  {
    forall x
      ensures multiset(Filter(a, p))[x] == multiset(Filter(b, p))[x]
    {
      FilterMultiset(a, p, x);
      FilterMultiset(b, p, x);
    }
  }

  /** Two permutations of each other are matched position by position: `idx` says where each
      element of `a` sits in `b`, and `inv` undoes it, so the matching is one to one and onto. */
  lemma {:induction false} PermutationIndices<T>(a: seq<T>, b: seq<T>) returns (idx: seq<nat>, inv: seq<nat>)
    requires multiset(a) == multiset(b)
    ensures |idx| == |a| == |b| == |inv|
    ensures forall i :: 0 <= i < |a| ==> idx[i] < |b| && b[idx[i]] == a[i] && inv[idx[i]] == i
    ensures forall t :: 0 <= t < |b| ==> inv[t] < |a| && idx[inv[t]] == t
    decreases |a|
  {
    assert |a| == |multiset(a)| == |multiset(b)| == |b|;
    if a == [] {
      idx, inv := [], [];
    } else {
      var j := MatchLast(a, b);
      var idx', inv' := PermutationIndices(a[..|a| - 1], b[..j] + b[j + 1..]);
      idx, inv := Reinsert(a, b, j, idx', inv');
    }
  }

  /** A position of `b` holding the last element of `a`; the rest of `b` is a permutation of the
      rest of `a`. */
  lemma MatchLast<T>(a: seq<T>, b: seq<T>) returns (j: nat)
    requires multiset(a) == multiset(b) && a != []
    ensures j < |b| && b[j] == a[|a| - 1]
    ensures multiset(b[..j] + b[j + 1..]) == multiset(a[..|a| - 1])
  {
    var n := |a| - 1;
    var x := a[n];
    assert a == a[..n] + [x];
    assert x in multiset(b);
    j :| 0 <= j < |b| && b[j] == x;
    assert b == b[..j] + [x] + b[j + 1..];
    assert multiset(b) == multiset(b[..j]) + multiset{x} + multiset(b[j + 1..]);
    assert multiset(a) == multiset(a[..n]) + multiset{x};
    assert multiset(b[..j] + b[j + 1..]) == multiset(b[..j]) + multiset(b[j + 1..]);
    forall y
      ensures multiset(b[..j] + b[j + 1..])[y] == multiset(a[..n])[y]
    {
      assert multiset(b)[y] == multiset(b[..j])[y] + multiset{x}[y] + multiset(b[j + 1..])[y];
      assert multiset(a)[y] == multiset(a[..n])[y] + multiset{x}[y];
    }
  }

  /** Extends a matching of `a` minus its last element with `b` minus position `j` to the whole. */
  lemma Reinsert<T>(a: seq<T>, b: seq<T>, j: nat, idx': seq<nat>, inv': seq<nat>) returns (idx: seq<nat>, inv: seq<nat>)
    requires a != [] && j < |b| && b[j] == a[|a| - 1]
    requires |idx'| == |a| - 1 == |b| - 1 == |inv'|
    requires forall i :: 0 <= i < |a| - 1 ==>
      idx'[i] < |b| - 1 && (b[..j] + b[j + 1..])[idx'[i]] == a[i] && inv'[idx'[i]] == i
    requires forall t :: 0 <= t < |b| - 1 ==> inv'[t] < |a| - 1 && idx'[inv'[t]] == t
    ensures |idx| == |a| == |b| == |inv|
    ensures forall i :: 0 <= i < |a| ==> idx[i] < |b| && b[idx[i]] == a[i] && inv[idx[i]] == i
    ensures forall t :: 0 <= t < |b| ==> inv[t] < |a| && idx[inv[t]] == t
  {
    var n := |a| - 1;
    idx := seq(n, i requires 0 <= i < n => if idx'[i] < j then idx'[i] else idx'[i] + 1) + [j];
    inv := seq(|b|, t requires 0 <= t < |b| => if t < j then inv'[t] else if t == j then n else inv'[t - 1]);
    forall i | 0 <= i < n
      ensures idx[i] < |b| && b[idx[i]] == a[i] && inv[idx[i]] == i
    {
      assert (b[..j] + b[j + 1..])[idx'[i]] == a[i];
    }
    forall t | 0 <= t < |b|
      ensures inv[t] < |a| && idx[inv[t]] == t
    {
      if t < j {
        assert idx'[inv'[t]] == t;
      } else if t > j {
        assert idx'[inv'[t - 1]] == t - 1;
      }
    }
  }

  /** A sequence without repeats has as many distinct elements as positions. */
  lemma {:induction false} DistinctCard<T>(o: seq<T>)
    requires forall t, u :: 0 <= t < u < |o| ==> o[t] != o[u]
    ensures |set x | x in o| == |o|
  {
    if o != [] {
      var n := |o| - 1;
      DistinctCard(o[..n]);
      assert (set x | x in o) == (set x | x in o[..n]) + {o[n]};
      assert o[n] !in (set x | x in o[..n]);
    }
  }

  /** `Array.prototype.findIndex`: the first index whose element satisfies `p`. */
  function FindFirst<T>(s: seq<T>, p: T -> bool): (r: Option<nat>)
    ensures r.None? <==> forall i :: 0 <= i < |s| ==> !p(s[i])
    ensures r.Some? ==> r.value < |s| && p(s[r.value]) && forall i :: 0 <= i < r.value ==> !p(s[i])
  {
    if s == [] then None
    else if p(s[0]) then Some(0)
    else match FindFirst(s[1..], p)
      case None => None
      case Some(i) => Some(i + 1)
  }

  /** Appending an element leaves the filter of the front as it was and adds the element if it passes. */
  lemma FilterSnoc<T>(s: seq<T>, x: T, p: T -> bool)
    ensures Filter(s + [x], p) == Filter(s, p) + (if p(x) then [x] else [])
  {
    assert (s + [x])[..|s|] == s;
  }

  /** Nothing passes the filter when no element satisfies the predicate. */
  lemma FilterNone<T>(s: seq<T>, p: T -> bool)
    requires forall i :: 0 <= i < |s| ==> !p(s[i])
    ensures Filter(s, p) == []
  {
  }

  /** Appending an element only matters to `findIndex` when no earlier element satisfies `p`. */
  lemma {:induction false} FindFirstSnoc<T>(s: seq<T>, x: T, p: T -> bool)
    ensures FindFirst(s + [x], p) ==
      match FindFirst(s, p)
      case Some(f) => Some(f)
      case None => if p(x) then Some(|s|) else None
  {
    if s != [] {
      assert (s + [x])[1..] == s[1..] + [x];
      FindFirstSnoc(s[1..], x, p);
    }
  }

  // ---------------------------------------------------------------------
  // Stable sorting by an integer key (JavaScript's `sort` is stable).

  ghost predicate SortedBy<T>(s: seq<T>, key: T -> int) {
    forall i, j :: 0 <= i < j < |s| ==> key(s[i]) <= key(s[j])
  }

  /** Inserts `x` after every trailing element whose key exceeds its own, scanning from the right
      the way an insertion sort shifts elements. */
  function InsertBy<T>(s: seq<T>, x: T, key: T -> int): (r: seq<T>)
    ensures multiset(r) == multiset(s) + multiset{x}
    ensures |r| == |s| + 1
  {
    if s == [] then [x]
    else if key(s[|s| - 1]) <= key(x) then s + [x]
    else
      var init, last := s[..|s| - 1], s[|s| - 1];
      assert s == init + [last];
      InsertBy(init, x, key) + [last]
  }

  /** Inserting into a sorted sequence keeps it sorted. */
  lemma {:induction false} InsertBySorted<T>(s: seq<T>, x: T, key: T -> int)
    requires SortedBy(s, key)
    ensures SortedBy(InsertBy(s, x, key), key)
  {
    if s != [] && key(s[|s| - 1]) > key(x) {
      var init, last := s[..|s| - 1], s[|s| - 1];
      assert s == init + [last];
      InsertBySorted(init, x, key);
      var r' := InsertBy(init, x, key);
      forall i | 0 <= i < |r'|
        ensures key(r'[i]) <= key(last)
      {
        assert r'[i] in multiset(r');
        if r'[i] != x {
          assert r'[i] in multiset(init);
          var j :| 0 <= j < |init| && init[j] == r'[i];
          assert s[j] == init[j];
        }
      }
      var r := r' + [last];
      assert InsertBy(s, x, key) == r;
    }
  }

  /** Stable insertion sort: ascending keys, equal keys in their input order. */
  function SortBy<T>(s: seq<T>, key: T -> int): (r: seq<T>)
    ensures multiset(r) == multiset(s)
    ensures |r| == |s|
    ensures SortedBy(r, key)
  {
    if s == [] then []
    else
      var init, last := s[..|s| - 1], s[|s| - 1];
      assert s == init + [last];
      var sorted := SortBy(init, key);
      InsertBySorted(sorted, last, key);
      InsertBy(sorted, last, key)
  }

  /** The elements whose key is `k`. */
  function KeyIs<T>(key: T -> int, k: int): T -> bool {
    y => key(y) == k
  }

  /** Inserting appends `x` to the elements that share its key: the scan from the right stops at
      the first key not above `x`'s, so it never passes an element with the same key. */
  lemma {:induction false} InsertByStable<T>(s: seq<T>, x: T, key: T -> int, k: int)
    ensures Filter(InsertBy(s, x, key), KeyIs(key, k))
         == Filter(s, KeyIs(key, k)) + (if key(x) == k then [x] else [])
  {
    var p := KeyIs(key, k);
    if s == [] {
      assert Filter([x], p) == Filter([], p) + (if p(x) then [x] else []);
    } else if key(s[|s| - 1]) <= key(x) {
      FilterAppend(s, [x], p);
      assert Filter([x], p) == Filter([], p) + (if p(x) then [x] else []);
    } else {
      var init, last := s[..|s| - 1], s[|s| - 1];
      assert s == init + [last];
      InsertByStable(init, x, key, k);
      StableStep(init, last, x, key, k);
    }
  }

  /** The inductive step of `InsertByStable`: an element with a larger key than `x` stays last and
      is not among those with `x`'s key. */
  lemma {:induction false} StableStep<T>(init: seq<T>, last: T, x: T, key: T -> int, k: int)
    requires key(last) > key(x)
    requires Filter(InsertBy(init, x, key), KeyIs(key, k)) == Filter(init, KeyIs(key, k)) + (if key(x) == k then [x] else [])
    ensures Filter(InsertBy(init + [last], x, key), KeyIs(key, k))
         == Filter(init + [last], KeyIs(key, k)) + (if key(x) == k then [x] else [])
  {
    var p := KeyIs(key, k);
    var s := init + [last];
    assert s[..|s| - 1] == init && s[|s| - 1] == last;
    var r' := InsertBy(init, x, key);
    assert InsertBy(s, x, key) == r' + [last];
    FilterAppend(r', [last], p);
    FilterAppend(init, [last], p);
    var tail := Filter([last], p);
    assert tail == Filter([], p) + (if p(last) then [last] else []);
    if key(x) == k {
      assert tail == [];
    }
  }

  /** Stability: sorting keeps, for every key, the elements with that key in their input order. */
  lemma {:induction false} SortByStable<T>(s: seq<T>, key: T -> int, k: int)
    ensures Filter(SortBy(s, key), KeyIs(key, k)) == Filter(s, KeyIs(key, k))
  {
    if s != [] {
      var init, last := s[..|s| - 1], s[|s| - 1];
      SortByStable(init, key, k);
      InsertByStable(SortBy(init, key), last, key, k);
    }
  }
}
