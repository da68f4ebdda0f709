/**
 * Generic building blocks shared by every part of the model: the optional
 * value and error result that stand for JavaScript's `null`/`undefined` and
 * thrown errors, and the array operations the source uses everywhere
 * (`filter`, `find`, `Array.from(new Set(...))`, counting by `filter(...).length`).
 */
module Basics {

  datatype Option<T> = None | Some(value: T)

  datatype Result<T, E> = Success(value: T) | Failure(error: E)

  /** `Array.prototype.filter`: the elements satisfying `p`, in their original order. */
  function Filter<T>(p: T -> bool, s: seq<T>): (r: seq<T>)
    ensures |r| <= |s|
    ensures forall i :: 0 <= i < |r| ==> r[i] in s && p(r[i])
    ensures forall i :: 0 <= i < |s| && p(s[i]) ==> s[i] in r
  {
    if s == [] then [] else (if p(s[0]) then [s[0]] else []) + Filter(p, s[1..])
  }

  /** Filtering distributes over concatenation: no element is dropped or reordered. */
  lemma {:induction false} FilterAppend<T>(p: T -> bool, a: seq<T>, b: seq<T>)
    ensures Filter(p, a + b) == Filter(p, a) + Filter(p, b)
  {
    if a == [] {
      assert a + b == b;
    } else {
      var h := if p(a[0]) then [a[0]] else [];
      assert (a + b)[0] == a[0] && (a + b)[1..] == a[1..] + b;
      FilterAppend(p, a[1..], b);
      calc {
        Filter(p, a + b);
        h + Filter(p, a[1..] + b);
        h + (Filter(p, a[1..]) + Filter(p, b));
        (h + Filter(p, a[1..])) + Filter(p, b);
        Filter(p, a) + Filter(p, b);
      }
    }
  }

  /** Filtering a sequence with one more element at the end adds that element at the end when it passes. */
  lemma FilterSnoc<T>(p: T -> bool, a: seq<T>, x: T)
    ensures Filter(p, a + [x]) == Filter(p, a) + if p(x) then [x] else []
  {
    FilterAppend(p, a, [x]);
    assert [x][1..] == [];
  }

  /** A filter that every element passes is the identity. */
  lemma {:induction false} FilterKeepsAll<T>(p: T -> bool, s: seq<T>)
    requires forall i :: 0 <= i < |s| ==> p(s[i])
    ensures Filter(p, s) == s
  {
    if s != [] {
      FilterKeepsAll(p, s[1..]);
    }
  }

  /** Nothing passes a filter that no element satisfies. */
  lemma {:induction false} FilterNone<T>(p: T -> bool, s: seq<T>)
    requires forall i :: 0 <= i < |s| ==> !p(s[i])
    ensures Filter(p, s) == []
  {
    if s != [] {
      FilterNone(p, s[1..]);
    }
  }

  /** Filtering is a sub-multiset: each element keeps at most its multiplicity. */
  lemma {:induction false} FilterMultiset<T>(p: T -> bool, s: seq<T>)
    ensures multiset(Filter(p, s)) <= multiset(s)
    ensures forall x :: p(x) ==> multiset(Filter(p, s))[x] == multiset(s)[x]
  {
    if s != [] {
      FilterMultiset(p, s[1..]);
      FilterMultisetStep(p, s);
    }
  }

  lemma FilterMultisetStep<T>(p: T -> bool, s: seq<T>)
    requires s != []
    ensures multiset(Filter(p, s)) == multiset(if p(s[0]) then [s[0]] else []) + multiset(Filter(p, s[1..]))
    ensures multiset(s) == multiset([s[0]]) + multiset(s[1..])
  {
    assert s == [s[0]] + s[1..];
  }

  /** The index of the first element satisfying `p`, if any. */
  function FirstIndex<T>(p: T -> bool, s: seq<T>): (r: Option<nat>)
    ensures r.None? <==> forall i :: 0 <= i < |s| ==> !p(s[i])
    ensures r.Some? ==> r.value < |s| && p(s[r.value])
    ensures r.Some? ==> forall j :: 0 <= j < r.value ==> !p(s[j])
  {
    if s == [] then None
    else if p(s[0]) then Some(0)
    else match FirstIndex(p, s[1..]) {
      case None => None
      case Some(k) => Some(k + 1)
    }
  }

  /** `Array.prototype.find`: the first element satisfying `p`, or `undefined`. */
  function FindFirst<T>(p: T -> bool, s: seq<T>): (r: Option<T>)
    ensures r.None? <==> forall i :: 0 <= i < |s| ==> !p(s[i])
    ensures r.Some? ==> r.value in s && p(r.value)
  {
    if s == [] then None
    else if p(s[0]) then Some(s[0])
    else FindFirst(p, s[1..])
  }

  /** What `find` returns sits at the first position where `p` holds. */
  lemma {:induction false} FindFirstAtFirstIndex<T>(p: T -> bool, s: seq<T>)
    ensures FindFirst(p, s).Some? <==> FirstIndex(p, s).Some?
    ensures FindFirst(p, s).Some? ==> FindFirst(p, s).value == s[FirstIndex(p, s).value]
  {
    if s != [] && !p(s[0]) {
      FindFirstAtFirstIndex(p, s[1..]);
    }
  }

  /** `find` returns the head of what `filter` would return. */
  lemma {:induction false} FindFirstIsFilterHead<T>(p: T -> bool, s: seq<T>)
    ensures FindFirst(p, s) == if Filter(p, s) == [] then None else Some(Filter(p, s)[0])
  {
    if s != [] && !p(s[0]) {
      FindFirstIsFilterHead(p, s[1..]);
    }
  }

  /** Two sequences with the same multiset hold the same elements. */
  lemma SameElements<T>(a: seq<T>, b: seq<T>)
    requires multiset(a) == multiset(b)
    ensures forall i :: 0 <= i < |a| ==> a[i] in b
    ensures forall i :: 0 <= i < |b| ==> b[i] in a
  {
    assert forall i :: 0 <= i < |a| ==> a[i] in multiset(b);
    assert forall i :: 0 <= i < |b| ==> b[i] in multiset(a);
  }

  /** `find` on the result of `filter` is `find` with both conditions. */
  lemma {:induction false} FindFirstOfFilter<T>(p: T -> bool, q: T -> bool, s: seq<T>)
    ensures FindFirst(q, Filter(p, s)) == FindFirst((x: T) => p(x) && q(x), s)
  {
    if s != [] {
      FindFirstOfFilter(p, q, s[1..]);
      var rest := Filter(p, s[1..]);
      if p(s[0]) {
        assert Filter(p, s) == [s[0]] + rest;
        assert ([s[0]] + rest)[1..] == rest;
      } else {
        assert Filter(p, s) == rest;
      }
    }
  }

  /**
   * `find` on the result of `filter` returns the first element of `s` that
   * passes both tests, and finds one exactly when `s` has one.
   */
  lemma {:induction false} FindInFilter<T>(p: T -> bool, q: T -> bool, s: seq<T>)
    ensures FindFirst(q, Filter(p, s)).Some? <==> exists i :: 0 <= i < |s| && p(s[i]) && q(s[i])
    ensures FindFirst(q, Filter(p, s)).Some? ==>
              exists i :: 0 <= i < |s| && s[i] == FindFirst(q, Filter(p, s)).value && p(s[i]) && q(s[i])
                          && forall j :: 0 <= j < i ==> !(p(s[j]) && q(s[j]))
  {
    var f := Filter(p, s);
    if FindFirst(q, f).Some? {
      var i := FindInFilterAt(p, q, s);
    }
    if exists i :: 0 <= i < |s| && p(s[i]) && q(s[i]) {
      var i :| 0 <= i < |s| && p(s[i]) && q(s[i]);
      assert s[i] in f;
    }
  }

  /** The position in `s` of what `find` returns on the filtered sequence. */
  lemma {:induction false} FindInFilterAt<T>(p: T -> bool, q: T -> bool, s: seq<T>) returns (i: nat)
    requires FindFirst(q, Filter(p, s)).Some?
    ensures i < |s| && s[i] == FindFirst(q, Filter(p, s)).value && p(s[i]) && q(s[i])
    ensures forall j :: 0 <= j < i ==> !(p(s[j]) && q(s[j]))
  {
    if p(s[0]) && q(s[0]) {
      assert Filter(p, s) == [s[0]] + Filter(p, s[1..]);
      i := 0;
    } else {
      FindInFilterStep(p, q, s);
      var k := FindInFilterAt(p, q, s[1..]);
      NoneBeforeShift(p, q, s, k);
      i := k + 1;
    }
  }

  /** `find` on the filtered sequence skips a head that fails either test. */
  lemma FindInFilterStep<T>(p: T -> bool, q: T -> bool, s: seq<T>)
    requires s != [] && !(p(s[0]) && q(s[0]))
    ensures FindFirst(q, Filter(p, s)) == FindFirst(q, Filter(p, s[1..]))
  {
    var rest := Filter(p, s[1..]);
    if p(s[0]) {
      assert Filter(p, s) == [s[0]] + rest;
      assert ([s[0]] + rest)[1..] == rest;
    } else {
      assert Filter(p, s) == rest;
    }
  }

  lemma NoneBeforeShift<T>(p: T -> bool, q: T -> bool, s: seq<T>, k: nat)
    requires k < |s| - 1 && !(p(s[0]) && q(s[0]))
    requires forall j :: 0 <= j < k ==> !(p(s[1..][j]) && q(s[1..][j]))
    ensures forall j :: 0 <= j < k + 1 ==> !(p(s[j]) && q(s[j]))
  {
    forall j | 0 < j < k + 1
      ensures !(p(s[j]) && q(s[j]))
    {
      assert s[j] == s[1..][j - 1];
    }
  }

  /** The position of the first occurrence of `x` in `s`. */
  function IndexOf<T(==)>(s: seq<T>, x: T): (k: nat)
    requires x in s
    ensures k < |s| && s[k] == x && x !in s[..k]
  {
    if s[0] == x then 0 else 1 + IndexOf(s[1..], x)
  }

  /** Pairwise distinct elements. */
  predicate Distinct<T(==)>(s: seq<T>) {
    forall i, j :: 0 <= i < j < |s| ==> s[i] != s[j]
  }

  /**
   * `Array.from(new Set(s))`: each distinct element once, in order of first
   * occurrence (a JavaScript `Set` iterates in insertion order).
   */
  function Dedup<T(==)>(s: seq<T>): (r: seq<T>)
    ensures Distinct(r)
    ensures forall i :: 0 <= i < |r| ==> r[i] in s
    ensures forall i :: 0 <= i < |s| ==> s[i] in r
    ensures |r| <= |s|
  {
    if s == [] then []
    else
      var d := Dedup(s[..|s| - 1]);
      if s[|s| - 1] in d then d else d + [s[|s| - 1]]
  }

  /** Dedup lists the elements in the order in which they first occur in `s`. */
  lemma {:induction false} DedupFirstOccurrenceOrder<T>(s: seq<T>, i: nat, j: nat)
    requires i < j < |Dedup(s)|
    ensures IndexOf(s, Dedup(s)[i]) < IndexOf(s, Dedup(s)[j])
  {
    var n := |s| - 1;
    var d := Dedup(s[..n]);
    assert s[..n] + [s[n]] == s;
    if s[n] in d {
      DedupFirstOccurrenceOrder(s[..n], i, j);
      IndexOfPrefix(s[..n], s[n], Dedup(s)[i]);
      IndexOfPrefix(s[..n], s[n], Dedup(s)[j]);
    } else if j < |d| {
      DedupFirstOccurrenceOrder(s[..n], i, j);
      IndexOfPrefix(s[..n], s[n], Dedup(s)[i]);
      IndexOfPrefix(s[..n], s[n], Dedup(s)[j]);
    } else {
      // Dedup(s)[j] is s[n], which first occurs at the end of s
      assert Dedup(s)[j] == s[n] && s[n] !in s[..n];
      IndexOfPrefix(s[..n], s[n], Dedup(s)[i]);
      assert IndexOf(s, s[n]) == n;
    }
  }

  lemma {:induction false} IndexOfPrefix<T>(s: seq<T>, y: T, x: T)
    requires x in s
    ensures IndexOf(s + [y], x) == IndexOf(s, x)
  {
    if s[0] != x {
      assert (s + [y])[1..] == s[1..] + [y];
      IndexOfPrefix(s[1..], y, x);
    }
  }

  /** The number of occurrences of `x` in `s` (`s.filter(e => e === x).length`). */
  function Count<T(==)>(x: T, s: seq<T>): (n: nat)
    ensures n == multiset(s)[x]
    ensures n <= |s|
  {
    if s == [] then 0
    else
      assert s == s[..|s| - 1] + [s[|s| - 1]];
      Count(x, s[..|s| - 1]) + (if s[|s| - 1] == x then 1 else 0)
  }

  /** The sum of the occurrence counts in `s` of each element of `keys`. */
  function SumCounts<T(==)>(keys: seq<T>, s: seq<T>): nat {
    if keys == [] then 0 else Count(keys[0], s) + SumCounts(keys[1..], s)
  }

  /** Summing over a duplicate-free list of indicator values gives one hit exactly when `x` is listed. */
  lemma {:induction false} SumCountsSingleton<T>(keys: seq<T>, x: T)
    requires Distinct(keys)
    ensures SumCounts(keys, [x]) == if x in keys then 1 else 0
  {
    if keys != [] {
      SumCountsSingleton(keys[1..], x);
      if keys[0] == x {
        assert x !in keys[1..];
      }
    }
  }

  lemma {:induction false} SumCountsEmpty<T>(keys: seq<T>)
    ensures SumCounts(keys, []) == 0
  {
    if keys != [] {
      SumCountsEmpty(keys[1..]);
    }
  }

  lemma {:induction false} SumCountsAppend<T>(keys: seq<T>, a: seq<T>, b: seq<T>)
    ensures SumCounts(keys, a + b) == SumCounts(keys, a) + SumCounts(keys, b)
  {
    if keys != [] {
      SumCountsAppend(keys[1..], a, b);
      assert multiset(a + b) == multiset(a) + multiset(b);
    }
  }

  /**
   * Counting every distinct element of `s` once and adding the counts
   * gives back the length of `s`.
   */
  lemma {:induction false} SumCountsCoversAll<T>(keys: seq<T>, s: seq<T>)
    requires Distinct(keys)
    requires forall x :: x in s ==> x in keys
    ensures SumCounts(keys, s) == |s|
  {
    if s == [] {
      SumCountsEmpty(keys);
    } else {
      var n := |s| - 1;
      assert s == s[..n] + [s[n]];
      assert forall x :: x in s[..n] ==> x in s;
      SumCountsCoversAll(keys, s[..n]);
      SumCountsAppend(keys, s[..n], [s[n]]);
      SumCountsSingleton(keys, s[n]);
    }
  }
}
