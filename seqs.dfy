/** Sequence helpers shared by the model: an order-preserving filter (JavaScript's
    `Array.prototype.filter`) and a stable newest-first sort on an integer key
    (`Array.prototype.sort` with a `b - a` comparator). */
module Seqs {

  /** The elements of `s` that satisfy `p`, in their original order. */
  function Filter<T>(p: T -> bool, s: seq<T>): (r: seq<T>)
    ensures |r| <= |s|
    ensures forall i :: 0 <= i < |r| ==> p(r[i])
    ensures forall x :: x in r ==> x in s
  {
    if s == [] then [] else (if p(s[0]) then [s[0]] else []) + Filter(p, s[1..])
  }

  /** `Array.prototype.map`: `f` applied to every element, in order. */
  function Map<A, B>(f: A -> B, s: seq<A>): (r: seq<B>)
    ensures |r| == |s|
    ensures forall i :: 0 <= i < |s| ==> r[i] == f(s[i])
  {
    if s == [] then [] else [f(s[0])] + Map(f, s[1..])
  }

  lemma {:induction false} MapAppend<A, B>(f: A -> B, a: seq<A>, b: seq<A>)
    ensures Map(f, a + b) == Map(f, a) + Map(f, b)
  {
    if a == [] {
      assert a + b == b;
    } else {
      assert (a + b)[1..] == a[1..] + b;
      MapAppend(f, a[1..], b);
    }
  }

  /** Filtering distributes over concatenation, which is what "keeps the order" means. */
  lemma {:induction false} FilterAppend<T>(p: T -> bool, a: seq<T>, b: seq<T>)
    ensures Filter(p, a + b) == Filter(p, a) + Filter(p, b)
  {
    if a == [] {
      assert a + b == b;
    } else {
      assert (a + b)[1..] == a[1..] + b;
      FilterAppend(p, a[1..], b);
    }
  }

  /** An element survives the filter exactly when it is in the input and satisfies `p`. */
  lemma {:induction false} FilterMember<T>(p: T -> bool, s: seq<T>, x: T)
    ensures x in Filter(p, s) <==> x in s && p(x)
  {
    if s != [] {
      FilterMember(p, s[1..], x);
      assert s == [s[0]] + s[1..];
    }
  }

  /** Filtering with a predicate that every element satisfies changes nothing. */
  lemma {:induction false} FilterAllKept<T>(p: T -> bool, s: seq<T>)
    requires forall i :: 0 <= i < |s| ==> p(s[i])
    ensures Filter(p, s) == s
  {
    if s != [] {
      FilterAllKept(p, s[1..]);
    }
  }

  /** Filtering with a predicate that no element satisfies leaves nothing. */
  lemma {:induction false} FilterNoneKept<T>(p: T -> bool, s: seq<T>)
    requires forall i :: 0 <= i < |s| ==> !p(s[i])
    ensures Filter(p, s) == []
  {
    if s != [] {
      FilterNoneKept(p, s[1..]);
    }
  }

  /** The filtered multiset is the part of the input multiset that satisfies `p`. */
  lemma {:induction false} FilterMultiset<T>(p: T -> bool, s: seq<T>)
    ensures multiset(Filter(p, s)) <= multiset(s)
  {
    if s != [] {
      FilterMultiset(p, s[1..]);
      assert s == [s[0]] + s[1..];
    }
  }

  /** Filtering twice is filtering by the conjunction. */
  lemma {:induction false} FilterOfFilter<T>(p: T -> bool, q: T -> bool, r: T -> bool, s: seq<T>)
    requires forall x :: r(x) == (p(x) && q(x))
    ensures Filter(p, Filter(q, s)) == Filter(r, s)
  {
    if s != [] {
      FilterOfFilter(p, q, r, s[1..]);
      var t := Filter(q, s[1..]);
      if q(s[0]) {
        assert Filter(q, s) == [s[0]] + t;
        assert ([s[0]] + t)[1..] == t;
        assert Filter(p, [s[0]] + t) == (if p(s[0]) then [s[0]] else []) + Filter(p, t);
      } else {
        assert Filter(q, s) == t;
        assert !r(s[0]);
      }
    }
  }

  /** How often `x` survives the filter. */
  lemma {:induction false} FilterCount<T>(p: T -> bool, s: seq<T>, x: T)
    ensures multiset(Filter(p, s))[x] == if p(x) then multiset(s)[x] else 0
  {
    if s != [] {
      FilterCount(p, s[1..], x);
      assert s == [s[0]] + s[1..];
      var head := if p(s[0]) then [s[0]] else [];
      assert Filter(p, s) == head + Filter(p, s[1..]);
      assert multiset(Filter(p, s)) == multiset(head) + multiset(Filter(p, s[1..]));
      assert multiset(s) == multiset{s[0]} + multiset(s[1..]);
      if s[0] == x {
        assert multiset(head)[x] == if p(x) then 1 else 0;
      } else {
        assert multiset(head)[x] == 0;
      }
    }
  }

  /** The elements that satisfy `p` and the ones that do not make up the whole. */
  lemma FilterSplit<T>(p: T -> bool, q: T -> bool, s: seq<T>)
    requires forall x :: q(x) == !p(x)
    ensures multiset(Filter(p, s)) + multiset(Filter(q, s)) == multiset(s)
  {
    var whole := multiset(Filter(p, s)) + multiset(Filter(q, s));
    forall x ensures whole[x] == multiset(s)[x] {
      FilterCount(p, s, x);
      FilterCount(q, s, x);
    }
    MultisetExt(whole, multiset(s));
  }

  /** Filtering two permutations of each other gives permutations of each other. */
  lemma FilterPermutation<T>(p: T -> bool, s: seq<T>, t: seq<T>)
    requires multiset(s) == multiset(t)
    ensures multiset(Filter(p, s)) == multiset(Filter(p, t))
  {
    var a, b := multiset(Filter(p, s)), multiset(Filter(p, t));
    forall x ensures a[x] == b[x] {
      FilterCount(p, s, x);
      FilterCount(p, t, x);
      assert multiset(s)[x] == multiset(t)[x];
    }
    MultisetExt(a, b);
  }

  /** Multisets with the same multiplicities are equal. */
  lemma MultisetExt<T>(a: multiset<T>, b: multiset<T>)
    requires forall x :: a[x] == b[x]
    ensures a == b
  {
  }

  /** A sequence of at most one element is determined by its multiset. */
  lemma AtMostOne<T>(s: seq<T>, t: seq<T>)
    requires multiset(s) == multiset(t) && |t| <= 1
    ensures s == t
  {
    assert |s| == |multiset(s)| == |multiset(t)| == |t|;
    if |t| == 1 {
      assert s[0] in multiset(t);
      assert t == [t[0]];
    }
  }

  /** No two elements of `s` share a key. */
  predicate DistinctBy<T, K(==)>(s: seq<T>, key: T -> K)
  {
    forall i, j :: 0 <= i < j < |s| ==> key(s[i]) != key(s[j])
  }

  /** Filtering keeps keys distinct. */
  lemma {:induction false} FilterDistinct<T, K>(p: T -> bool, s: seq<T>, key: T -> K)
    requires DistinctBy(s, key)
    ensures DistinctBy(Filter(p, s), key)
  {
    if s != [] {
      var rest := Filter(p, s[1..]);
      FilterDistinct(p, s[1..], key);
      forall x | x in rest ensures key(x) != key(s[0]) {
        var j :| 0 <= j < |s[1..]| && s[1..][j] == x;
        assert s[j + 1] == x;
      }
    }
  }

  /** Non-increasing order of `key`: newest first when the key is a timestamp. */
  predicate SortedDesc<T>(s: seq<T>, key: T -> int)
  {
    forall i, j :: 0 <= i < j < |s| ==> key(s[i]) >= key(s[j])
  }

  /** Inserts `x` into `t` in front of the first element whose key is strictly smaller,
      that is, after every element whose key is at least `key(x)`. */
  function InsertDesc<T>(x: T, t: seq<T>, key: T -> int): (r: seq<T>)
    ensures |r| == |t| + 1
    ensures multiset(r) == multiset(t) + multiset{x}
  {
    if t == [] || key(x) > key(t[0]) then
      [x] + t
    else
      assert t == [t[0]] + t[1..];
      [t[0]] + InsertDesc(x, t[1..], key)
  }

  /** Insertion keeps a newest-first sequence newest first. */
  lemma {:induction false} InsertDescSorted<T>(x: T, t: seq<T>, key: T -> int)
    requires SortedDesc(t, key)
    ensures SortedDesc(InsertDesc(x, t, key), key)
  {
    if t != [] && key(x) <= key(t[0]) {
      var rest := InsertDesc(x, t[1..], key);
      InsertDescSorted(x, t[1..], key);
      forall i | 0 <= i < |rest| ensures key(t[0]) >= key(rest[i]) {
        assert rest[i] in multiset(rest);
        if rest[i] != x {
          assert rest[i] in multiset(t[1..]);
          var j :| 0 <= j < |t[1..]| && t[1..][j] == rest[i];
          assert t[j + 1] == rest[i];
        }
      }
    }
  }

  /** A stable sort, newest first: elements are inserted in their input order, each after
      every earlier element with an equal or larger key. */
  function SortDesc<T>(s: seq<T>, key: T -> int): (r: seq<T>)
    ensures |r| == |s|
    ensures multiset(r) == multiset(s)
  {
    if s == [] then []
    else
      assert s == s[..|s| - 1] + [s[|s| - 1]];
      InsertDesc(s[|s| - 1], SortDesc(s[..|s| - 1], key), key)
  }

  /** The sort's result is newest first. */
  lemma {:induction false} SortDescSorted<T>(s: seq<T>, key: T -> int)
    ensures SortedDesc(SortDesc(s, key), key)
  {
    if s != [] {
      SortDescSorted(s[..|s| - 1], key);
      InsertDescSorted(s[|s| - 1], SortDesc(s[..|s| - 1], key), key);
    }
  }

  /** Sorting an already sorted sequence changes nothing. */
  lemma {:induction false} SortDescOfSorted<T>(s: seq<T>, key: T -> int)
    requires SortedDesc(s, key)
    ensures SortDesc(s, key) == s
  {
    if s != [] {
      var init, last := s[..|s| - 1], s[|s| - 1];
      assert SortedDesc(init, key);
      SortDescOfSorted(init, key);
      InsertAfterAll(last, init, key);
      assert init + [last] == s;
    }
  }

  /** An element whose key is not larger than any key of `t` goes to the end. */
  lemma {:induction false} InsertAfterAll<T>(x: T, t: seq<T>, key: T -> int)
    requires forall i :: 0 <= i < |t| ==> key(t[i]) >= key(x)
    ensures InsertDesc(x, t, key) == t + [x]
  {
    if t != [] {
      InsertAfterAll(x, t[1..], key);
      assert [t[0]] + (t[1..] + [x]) == t + [x];
    }
  }

  /** Inserting an element whose id is new keeps ids distinct. */
  lemma {:induction false} InsertDescDistinct<T, K>(x: T, t: seq<T>, key: T -> int, id: T -> K)
    requires DistinctBy(t, id)
    requires forall k :: 0 <= k < |t| ==> id(t[k]) != id(x)
    ensures DistinctBy(InsertDesc(x, t, key), id)
  {
    if t != [] && key(x) <= key(t[0]) {
      var rest := InsertDesc(x, t[1..], key);
      assert DistinctBy(t[1..], id) by {
        forall i, j | 0 <= i < j < |t[1..]| ensures id(t[1..][i]) != id(t[1..][j]) {
          assert t[1..][i] == t[i + 1] && t[1..][j] == t[j + 1];
        }
      }
      InsertDescDistinct(x, t[1..], key, id);
      forall k | 0 <= k < |rest| ensures id(rest[k]) != id(t[0]) {
        assert rest[k] in multiset(rest);
        if rest[k] != x {
          assert rest[k] in multiset(t[1..]);
          var j :| 0 <= j < |t[1..]| && t[1..][j] == rest[k];
          assert t[j + 1] == rest[k];
        }
      }
    }
  }

  /** Sorting keeps ids distinct. */
  lemma {:induction false} SortDescDistinct<T, K>(s: seq<T>, key: T -> int, id: T -> K)
    requires DistinctBy(s, id)
    ensures DistinctBy(SortDesc(s, key), id)
  {
    if s != [] {
      var init, last := s[..|s| - 1], s[|s| - 1];
      var sorted := SortDesc(init, key);
      assert DistinctBy(init, id) by {
        forall i, j | 0 <= i < j < |init| ensures id(init[i]) != id(init[j]) {
          assert init[i] == s[i] && init[j] == s[j];
        }
      }
      SortDescDistinct(init, key, id);
      forall k | 0 <= k < |sorted| ensures id(sorted[k]) != id(last) {
        assert sorted[k] in multiset(init);
        var j :| 0 <= j < |init| && init[j] == sorted[k];
        assert s[j] == sorted[k];
      }
      InsertDescDistinct(last, sorted, key, id);
    }
  }

  /** The concatenation of a sequence of sequences. */
  function Concat<T>(ss: seq<seq<T>>): (r: seq<T>)
  {
    if ss == [] then [] else ss[0] + Concat(ss[1..])
  }

  lemma {:induction false} ConcatAppend<T>(a: seq<seq<T>>, b: seq<seq<T>>)
    ensures Concat(a + b) == Concat(a) + Concat(b)
  {
    if a == [] {
      assert a + b == b;
    } else {
      assert (a + b)[1..] == a[1..] + b;
      ConcatAppend(a[1..], b);
    }
  }

  /** `f(0) + f(1) + ... + f(n - 1)`. */
  function ConcatUpTo<T>(f: nat -> seq<T>, n: nat): seq<T>
  {
    if n == 0 then [] else ConcatUpTo(f, n - 1) + f(n - 1)
  }

  /** The first `n` elements, or all of them. */
  function Take<T>(s: seq<T>, n: nat): (r: seq<T>)
    ensures |s| <= n ==> r == s
    ensures n <= |s| ==> r == s[..n]
  {
    if n <= |s| then s[..n] else s
  }

  /** Taking one more element appends the next one, if there is one. */
  lemma TakeSnoc<T>(g: seq<T>, n: nat)
    requires n > 0
    ensures Take(g, n) == Take(g, n - 1) + (if n - 1 < |g| then [g[n - 1]] else [])
  {
    if n - 1 < |g| {
      assert g[..n] == g[..n - 1] + [g[n - 1]];
    }
  }

  /** When the part `f(i)` contributes to the elements satisfying `p` is exactly `g`'s element
      `i`, the parts together contribute `g`'s first elements, in order. */
  lemma {:induction false} FilterConcatUpTo<T>(p: T -> bool, f: nat -> seq<T>, g: seq<T>, n: nat)
    requires forall i: nat :: Filter(p, f(i)) == if i < |g| then [g[i]] else []
    ensures Filter(p, ConcatUpTo(f, n)) == Take(g, n)
    decreases n
  {
    if n > 0 {
      var m: nat := n - 1;
      var a, b := ConcatUpTo(f, m), f(m);
      var c, d := Take(g, m), if m < |g| then [g[m]] else [];
      assert ConcatUpTo(f, n) == a + b;
      FilterConcatUpTo(p, f, g, m);
      assert Filter(p, a) == c;
      assert Filter(p, b) == d;
      FilterAppend(p, a, b);
      TakeSnoc(g, n);
    } else {
      assert Take(g, 0) == [];
    }
  }
}
