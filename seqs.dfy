/** Generic sequence operations shared by the dashboard components:
    the stable filter behind `Array.prototype.filter`, the first-seen key
    order of a JavaScript object used as a dictionary, tallies of keys, and
    the stable descending sort behind `Array.prototype.sort` with a
    `(a, b) => key(b) - key(a)` comparator. */
module Seqs {

  /** `a` can be obtained from `b` by deleting elements (order is kept). */
  ghost predicate IsSubsequence<T>(a: seq<T>, b: seq<T>)
  {
    if a == [] then true
    else if b == [] then false
    else (a[0] == b[0] && IsSubsequence(a[1..], b[1..])) || IsSubsequence(a, b[1..])
  }

  /** `xs.filter(p)`. */
  function Filter<T(!new)>(xs: seq<T>, p: T -> bool): (r: seq<T>)
    ensures |r| <= |xs|
    ensures forall i :: 0 <= i < |r| ==> p(r[i])
  {
    if xs == [] then []
    else if p(xs[0]) then [xs[0]] + Filter(xs[1..], p)
    else Filter(xs[1..], p)
  }

  /** The filter keeps every occurrence of a value that satisfies the
      predicate and drops every other, in the original order. */
  lemma {:induction false} FilterContents<T(!new)>(xs: seq<T>, p: T -> bool)
    ensures forall x :: multiset(Filter(xs, p))[x] == if p(x) then multiset(xs)[x] else 0
    ensures IsSubsequence(Filter(xs, p), xs)
  {
    if xs != [] {
      assert xs == [xs[0]] + xs[1..];
      var rest := Filter(xs[1..], p);
      FilterContents(xs[1..], p);
      if p(xs[0]) {
        assert ([xs[0]] + rest)[1..] == rest;
      }
    }
  }

  lemma {:induction false} FilterAppend<T(!new)>(a: seq<T>, b: seq<T>, p: T -> bool)
    ensures Filter(a + b, p) == Filter(a, p) + Filter(b, p)
  {
    if a == [] {
      assert a + b == b;
    } else {
      assert (a + b)[1..] == a[1..] + b;
      FilterAppend(a[1..], b, p);
    }
  }

  lemma FilterSingleton<T(!new)>(x: T, p: T -> bool)
    ensures Filter([x], p) == if p(x) then [x] else []
  {
    assert [x][1..] == [];
  }

  lemma FilterCons<T(!new)>(x: T, xs: seq<T>, p: T -> bool)
    ensures Filter([x] + xs, p) == (if p(x) then [x] else []) + Filter(xs, p)
  {
    assert ([x] + xs)[1..] == xs;
  }

  /** Filtering twice with the same predicate is filtering once. */
  lemma {:induction false} FilterIdempotent<T(!new)>(xs: seq<T>, p: T -> bool)
    ensures Filter(Filter(xs, p), p) == Filter(xs, p)
  {
    if xs != [] {
      FilterIdempotent(xs[1..], p);
      if p(xs[0]) {
        var r := Filter(xs, p);
        assert r[0] == xs[0] && r[1..] == Filter(xs[1..], p);
      }
    }
  }

  /** Two complementary filters split the sequence between them. */
  lemma {:induction false} FilterComplement<T(!new)>(xs: seq<T>, p: T -> bool, q: T -> bool)
    requires forall x :: q(x) == !p(x)
    ensures |Filter(xs, p)| + |Filter(xs, q)| == |xs|
  {
    if xs != [] {
      FilterComplement(xs[1..], p, q);
    }
  }

  /** How many elements a filter keeps depends only on the multiset, not
      on the order. */
  lemma FilterSameMultiset<T(!new)>(xs: seq<T>, ys: seq<T>, p: T -> bool)
    requires multiset(xs) == multiset(ys)
    ensures |Filter(xs, p)| == |Filter(ys, p)|
  {
    FilterContents(xs, p);
    FilterContents(ys, p);
    assert multiset(Filter(xs, p)) == multiset(Filter(ys, p));
    assert |multiset(Filter(xs, p))| == |Filter(xs, p)|;
    assert |multiset(Filter(ys, p))| == |Filter(ys, p)|;
  }

  /** A predicate every element satisfies keeps the whole sequence. */
  lemma {:induction false} FilterKeepsAll<T(!new)>(xs: seq<T>, p: T -> bool)
    requires forall i :: 0 <= i < |xs| ==> p(xs[i])
    ensures Filter(xs, p) == xs
  {
    if xs != [] {
      FilterKeepsAll(xs[1..], p);
    }
  }

  /** A predicate no element satisfies keeps nothing. */
  lemma {:induction false} FilterKeepsNone<T(!new)>(xs: seq<T>, p: T -> bool)
    requires forall i :: 0 <= i < |xs| ==> !p(xs[i])
    ensures Filter(xs, p) == []
  {
    if xs != [] {
      FilterKeepsNone(xs[1..], p);
    }
  }

  /** `xs.map(f)`. */
  function Map<T, U>(xs: seq<T>, f: T -> U): (r: seq<U>)
    ensures |r| == |xs|
    ensures forall i :: 0 <= i < |xs| ==> r[i] == f(xs[i])
  {
    seq(|xs|, i requires 0 <= i < |xs| => f(xs[i]))
  }

  /** The distinct values of `xs` in the order in which each is first seen:
      the key order of a dictionary built by assigning `acc[x]` for each `x`. */
  function FirstSeen<T(==,!new)>(xs: seq<T>): (r: seq<T>)
    ensures forall i, j :: 0 <= i < j < |r| ==> r[i] != r[j]
    ensures forall x :: x in r <==> x in xs
    ensures |r| <= |xs|
  {
    if xs == [] then []
    else
      var p := FirstSeen(xs[..|xs| - 1]);
      assert xs == xs[..|xs| - 1] + [xs[|xs| - 1]];
      if xs[|xs| - 1] in p then p else p + [xs[|xs| - 1]]
  }

  lemma MapSnoc<T, U>(xs: seq<T>, x: T, f: T -> U)
    ensures Map(xs + [x], f) == Map(xs, f) + [f(x)]
  {
  }

  lemma MapCons<T, U>(xs: seq<T>, f: T -> U)
    requires xs != []
    ensures Map(xs, f) == [f(xs[0])] + Map(xs[1..], f)
  {
    assert Map(xs, f)[1..] == Map(xs[1..], f);
  }

  /** Appending a value adds it to the key order only when it is new. */
  lemma FirstSeenSnoc<T(!new)>(xs: seq<T>, x: T)
    ensures FirstSeen(xs + [x]) == if x in FirstSeen(xs) then FirstSeen(xs) else FirstSeen(xs) + [x]
  {
    assert (xs + [x])[..|xs|] == xs;
  }

  /** The pairs `(k, m[k])` for the keys `ks`, in the order of `ks`. */
  function Entries<T>(ks: seq<T>, m: multiset<T>): (r: seq<(T, nat)>)
    ensures |r| == |ks|
    ensures forall i :: 0 <= i < |ks| ==> r[i] == (ks[i], m[ks[i]])
  {
    if ks == [] then []
    else Entries(ks[..|ks| - 1], m) + [(ks[|ks| - 1], m[ks[|ks| - 1]])]
  }

  /** The dictionary `{x: number of occurrences of x}` built over `xs`, as its
      entries in key-insertion order. */
  function Tally<T(==,!new)>(xs: seq<T>): seq<(T, nat)>
  {
    Entries(FirstSeen(xs), multiset(xs))
  }

  /** Sum of the counts of a list of entries. */
  function SumCounts<T>(es: seq<(T, nat)>): nat
  {
    if es == [] then 0 else SumCounts(es[..|es| - 1]) + es[|es| - 1].1
  }

  lemma {:induction false} SumCountsAppend<T>(es: seq<(T, nat)>, e: (T, nat))
    ensures SumCounts(es + [e]) == SumCounts(es) + e.1
  {
    assert (es + [e])[..|es|] == es;
  }

  lemma {:induction false} SumCountsCons<T>(e: (T, nat), es: seq<(T, nat)>)
    ensures SumCounts([e] + es) == e.1 + SumCounts(es)
  {
    if es == [] {
      assert [e] + es == [e];
      assert [e][..0] == [];
    } else {
      var n := |es| - 1;
      SumCountsCons(e, es[..n]);
      assert ([e] + es)[..|es|] == [e] + es[..n];
    }
  }

  /** A sequence whose keys are the counts of some entries, position by
      position, has the same total. */
  lemma {:induction false} SumKeyMatches<T, U>(rs: seq<T>, key: T -> int, es: seq<(U, nat)>)
    requires |rs| == |es|
    requires forall i :: 0 <= i < |rs| ==> key(rs[i]) == es[i].1
    ensures SumKey(rs, key) == SumCounts(es)
  {
    if rs != [] {
      SumKeyMatches(rs[1..], key, es[1..]);
      SumCountsCons(es[0], es[1..]);
      assert es == [es[0]] + es[1..];
    }
  }

  /** In a sequence without repetitions every member occurs once. */
  lemma {:induction false} DistinctOccursOnce<T>(ks: seq<T>, v: T)
    requires forall i, j :: 0 <= i < j < |ks| ==> ks[i] != ks[j]
    ensures multiset(ks)[v] == if v in ks then 1 else 0
  {
    if ks != [] {
      assert ks == [ks[0]] + ks[1..];
      DistinctOccursOnce(ks[1..], v);
      if v == ks[0] {
        assert v !in ks[1..];
      }
    }
  }

  /** A value listed twice occurs at least twice. */
  lemma DuplicateCountsTwice<T>(xs: seq<T>, i: int, j: int)
    requires 0 <= i < j < |xs| && xs[i] == xs[j]
    ensures multiset(xs)[xs[i]] >= 2
  {
    assert xs == xs[..j] + [xs[j]] + xs[j + 1..];
    assert xs[..j][i] == xs[i];
  }

  /** Reordering a sequence without repetitions gives one without
      repetitions. */
  lemma PermutationKeepsDistinct<T>(xs: seq<T>, ys: seq<T>)
    requires multiset(xs) == multiset(ys)
    requires forall i, j :: 0 <= i < j < |xs| ==> xs[i] != xs[j]
    ensures forall i, j :: 0 <= i < j < |ys| ==> ys[i] != ys[j]
  {
    forall i, j | 0 <= i < j < |ys|
      ensures ys[i] != ys[j]
    {
      if ys[i] == ys[j] {
        DuplicateCountsTwice(ys, i, j);
        DistinctOccursOnce(xs, ys[i]);
        assert false;
      }
    }
  }

  /** Adding one occurrence of `v` raises the counts by the number of times
      `v` is listed among the keys. */
  lemma {:induction false} EntriesAddOne<T>(ks: seq<T>, m: multiset<T>, v: T)
    ensures SumCounts(Entries(ks, m + multiset{v})) == SumCounts(Entries(ks, m)) + multiset(ks)[v]
  {
    if ks != [] {
      var n := |ks| - 1;
      assert ks == ks[..n] + [ks[n]];
      EntriesAddOne(ks[..n], m, v);
      SumCountsAppend(Entries(ks[..n], m + multiset{v}), (ks[n], (m + multiset{v})[ks[n]]));
      SumCountsAppend(Entries(ks[..n], m), (ks[n], m[ks[n]]));
    }
  }

  /** The counts of a tally add up to the number of values tallied. */
  lemma {:induction false} TallyTotal<T(!new)>(xs: seq<T>)
    ensures SumCounts(Tally(xs)) == |xs|
  {
    if xs != [] {
      var n := |xs| - 1;
      var p, v := xs[..n], xs[n];
      assert xs == p + [v];
      TallyTotal(p);
      var fp := FirstSeen(p);
      EntriesAddOne(fp, multiset(p), v);
      DistinctOccursOnce(fp, v);
      if v !in fp {
        SumCountsAppend(Entries(fp, multiset(xs)), (v, multiset(xs)[v]));
      }
    }
  }

  /** Each value of `xs` has exactly one entry in its tally, with its number
      of occurrences; the tally has no other entries. */
  lemma TallyEntries<T(!new)>(xs: seq<T>)
    ensures forall i, j :: 0 <= i < j < |Tally(xs)| ==> Tally(xs)[i].0 != Tally(xs)[j].0
    ensures forall x :: x in xs <==> exists i :: 0 <= i < |Tally(xs)| && Tally(xs)[i].0 == x
    ensures forall i :: 0 <= i < |Tally(xs)| ==> Tally(xs)[i].1 == multiset(xs)[Tally(xs)[i].0] > 0
  {
    var ks := FirstSeen(xs);
    forall x | x in xs
      ensures exists i :: 0 <= i < |Tally(xs)| && Tally(xs)[i].0 == x
    {
      var i :| 0 <= i < |ks| && ks[i] == x;
      assert Tally(xs)[i].0 == x;
    }
    forall i | 0 <= i < |Tally(xs)| ensures multiset(xs)[Tally(xs)[i].0] > 0 {
      assert ks[i] in xs;
    }
  }

  /** Descending on `key`. */
  ghost predicate SortedDesc<T>(xs: seq<T>, key: T -> int)
  {
    forall i, j :: 0 <= i < j < |xs| ==> key(xs[i]) >= key(xs[j])
  }

  /** Places `x` after every element with a larger key and before every
      element with a key not larger; ties keep `x` in front. */
  function InsertDesc<T>(x: T, xs: seq<T>, key: T -> int): (r: seq<T>)
    ensures multiset(r) == multiset(xs) + multiset{x}
    ensures |r| == |xs| + 1
  {
    if xs == [] || key(xs[0]) <= key(x) then [x] + xs
    else
      assert xs == [xs[0]] + xs[1..];
      [xs[0]] + InsertDesc(x, xs[1..], key)
  }

  /** The stable descending sort by `key`: elements with equal keys keep
      their input order. */
  function SortDesc<T>(xs: seq<T>, key: T -> int): (r: seq<T>)
    ensures multiset(r) == multiset(xs)
    ensures |r| == |xs|
    ensures SortedDesc(r, key)
  {
    if xs == [] then []
    else
      assert xs == [xs[0]] + xs[1..];
      var rest := SortDesc(xs[1..], key);
      InsertSorted(xs[0], rest, key);
      InsertDesc(xs[0], rest, key)
  }

  lemma {:induction false} InsertSorted<T>(x: T, xs: seq<T>, key: T -> int)
    requires SortedDesc(xs, key)
    ensures SortedDesc(InsertDesc(x, xs, key), key)
    ensures InsertDesc(x, xs, key)[0] == x || InsertDesc(x, xs, key)[0] == xs[0]
  {
    if xs != [] && key(xs[0]) > key(x) {
      InsertSorted(x, xs[1..], key);
      var r := InsertDesc(x, xs, key);
      assert r == [xs[0]] + InsertDesc(x, xs[1..], key);
      forall j | 0 < j < |r| ensures key(r[0]) >= key(r[j]) {
        assert r[j] in multiset(xs[1..]) + multiset{x} by {
          assert r[j] in InsertDesc(x, xs[1..], key);
        }
        if r[j] != x {
          assert r[j] in xs[1..];
        }
      }
    }
  }

  /** The predicate "has key v", named so that two uses are the same value. */
  function KeyIs<T>(key: T -> int, v: int): T -> bool
  {
    y => key(y) == v
  }

  /** Stability: among the elements that share a key, the sort keeps their
      input order. */
  lemma {:induction false} SortStable<T(!new)>(xs: seq<T>, key: T -> int, v: int)
    ensures Filter(SortDesc(xs, key), KeyIs(key, v)) == Filter(xs, KeyIs(key, v))
  {
    if xs != [] {
      var p := KeyIs(key, v);
      SortStable(xs[1..], key, v);
      InsertStable(xs[0], SortDesc(xs[1..], key), key, v);
      assert xs == [xs[0]] + xs[1..];
      FilterAppend([xs[0]], xs[1..], p);
    }
  }

  lemma {:induction false} InsertStable<T(!new)>(x: T, xs: seq<T>, key: T -> int, v: int)
    ensures Filter(InsertDesc(x, xs, key), KeyIs(key, v))
         == Filter([x], KeyIs(key, v)) + Filter(xs, KeyIs(key, v))
  {
    var p := KeyIs(key, v);
    FilterSingleton(x, p);
    FilterCons(x, xs, p);
    if xs != [] && key(xs[0]) > key(x) {
      var y, ys := xs[0], xs[1..];
      var r := InsertDesc(x, ys, key);
      assert xs == [y] + ys;
      assert InsertDesc(x, xs, key) == [y] + r;
      InsertStable(x, ys, key, v);
      FilterCons(y, r, p);
      FilterCons(y, ys, p);
      assert !(p(x) && p(y));
    }
  }

  /** Sum of `key` over a sequence. */
  function SumKey<T>(xs: seq<T>, key: T -> int): int
  {
    if xs == [] then 0 else key(xs[0]) + SumKey(xs[1..], key)
  }

  /** Sorting does not change the sum of the sort key. */
  lemma {:induction false} SortKeepsSum<T>(xs: seq<T>, key: T -> int)
    ensures SumKey(SortDesc(xs, key), key) == SumKey(xs, key)
  {
    if xs != [] {
      SortKeepsSum(xs[1..], key);
      InsertKeepsSum(xs[0], SortDesc(xs[1..], key), key);
    }
  }

  lemma {:induction false} InsertKeepsSum<T>(x: T, xs: seq<T>, key: T -> int)
    ensures SumKey(InsertDesc(x, xs, key), key) == key(x) + SumKey(xs, key)
  {
    if xs != [] && key(xs[0]) > key(x) {
      InsertKeepsSum(x, xs[1..], key);
      var r := InsertDesc(x, xs, key);
      assert r[1..] == InsertDesc(x, xs[1..], key);
    }
  }
}
