/**
 * Python's `collections.Counter` as the analyzer uses it: `counter[k] += 1`,
 * `counter[k]` (0 for a missing key), `sum(counter.values())` and
 * `counter.most_common(n)`. A counter is its list of (key, count) entries in
 * first-insertion order, which is the order Python's dict keeps and the order
 * `most_common` falls back on for equal counts.
 */
module Counters {
  import opened Text

  /** `counter[k]`: the count of `k`, 0 when `k` was never added. */
  function Get<K(==)>(c: seq<(K, nat)>, k: K): nat {
    if c == [] then 0
    else if c[0].0 == k then c[0].1
    else Get(c[1..], k)
  }

  /** `counter[k] += 1`: bump the entry of `k`, or append a new entry (k, 1). */
  function Add<K(==)>(c: seq<(K, nat)>, k: K): seq<(K, nat)> {
    if c == [] then [(k, 1)]
    else if c[0].0 == k then [(k, c[0].1 + 1)] + c[1..]
    else [c[0]] + Add(c[1..], k)
  }

  /** `sum(counter.values())` */
  function Sum<K>(c: seq<(K, nat)>): nat {
    if c == [] then 0 else c[0].1 + Sum(c[1..])
  }

  function Keys<K>(c: seq<(K, nat)>): (ks: seq<K>)
    ensures |ks| == |c| && forall i :: 0 <= i < |c| ==> ks[i] == c[i].0
  {
    seq(|c|, i requires 0 <= i < |c| => c[i].0)
  }

  predicate Distinct<K(==)>(xs: seq<K>) {
    forall i, j :: 0 <= i < j < |xs| ==> xs[i] != xs[j]
  }

  /** The values of `xs` in the order of their first occurrence. */
  function FirstSeen<K(==)>(xs: seq<K>): seq<K> {
    if xs == [] then []
    else
      var init := xs[..|xs| - 1];
      FirstSeen(init) + if xs[|xs| - 1] in init then [] else [xs[|xs| - 1]]
  }

  /** The counter left by adding the elements of `xs` one after the other to an empty counter. */
  function CounterOf<K(==)>(xs: seq<K>): seq<(K, nat)> {
    if xs == [] then [] else Add(CounterOf(xs[..|xs| - 1]), xs[|xs| - 1])
  }

  lemma CounterOfSnoc<K>(xs: seq<K>, x: K)
    ensures CounterOf(xs + [x]) == Add(CounterOf(xs), x)
  {
    assert (xs + [x])[..|xs|] == xs;
  }

  lemma {:induction false} AddGet<K>(c: seq<(K, nat)>, k: K, j: K)
    ensures Get(Add(c, k), j) == Get(c, j) + if j == k then 1 else 0
  {
    if c != [] && c[0].0 != k {
      AddGet(c[1..], k, j);
      assert Add(c, k)[1..] == Add(c[1..], k);
    }
  }

  lemma {:induction false} AddSum<K>(c: seq<(K, nat)>, k: K)
    ensures Sum(Add(c, k)) == Sum(c) + 1
  {
    if c == [] {
    } else if c[0].0 == k {
      assert Add(c, k)[1..] == c[1..];
    } else {
      AddSum(c[1..], k);
      assert Add(c, k)[1..] == Add(c[1..], k);
    }
  }

  lemma {:induction false} AddKeys<K>(c: seq<(K, nat)>, k: K)
    ensures Keys(Add(c, k)) == if k in Keys(c) then Keys(c) else Keys(c) + [k]
  {
    if c == [] {
    } else if c[0].0 == k {
      assert Keys(Add(c, k)) == Keys(c);
    } else {
      AddKeys(c[1..], k);
      assert Keys(c) == [c[0].0] + Keys(c[1..]);
      assert Keys(Add(c, k)) == [c[0].0] + Keys(Add(c[1..], k));
    }
  }

  lemma {:induction false} AddPositive<K>(c: seq<(K, nat)>, k: K)
    requires forall i :: 0 <= i < |c| ==> c[i].1 > 0
    ensures forall i :: 0 <= i < |Add(c, k)| ==> Add(c, k)[i].1 > 0
  {
    if c != [] && c[0].0 != k {
      AddPositive(c[1..], k);
      assert Add(c, k) == [c[0]] + Add(c[1..], k);
    }
  }

  /** A counter built from `xs` holds, for every key, the number of occurrences of that key. */
  lemma {:induction false} CounterOfCounts<K>(xs: seq<K>, k: K)
    ensures Get(CounterOf(xs), k) == multiset(xs)[k]
  {
    if xs != [] {
      var init := xs[..|xs| - 1];
      CounterOfCounts(init, k);
      AddGet(CounterOf(init), xs[|xs| - 1], k);
      assert xs == init + [xs[|xs| - 1]];
    }
  }

  /** Its counts add up to the number of elements added. */
  lemma {:induction false} CounterOfTotal<K>(xs: seq<K>)
    ensures Sum(CounterOf(xs)) == |xs|
  {
    if xs != [] {
      CounterOfTotal(xs[..|xs| - 1]);
      AddSum(CounterOf(xs[..|xs| - 1]), xs[|xs| - 1]);
    }
  }

  /** Its keys are the distinct elements of `xs` in first-seen order. */
  lemma {:induction false} CounterOfKeys<K>(xs: seq<K>)
    ensures Keys(CounterOf(xs)) == FirstSeen(xs)
  {
    if xs != [] {
      var init := xs[..|xs| - 1];
      CounterOfKeys(init);
      FirstSeenElements(init);
      AddKeys(CounterOf(init), xs[|xs| - 1]);
    }
  }

  /** Every entry has a positive count: no key is present without having been added. */
  lemma {:induction false} CounterOfPositive<K>(xs: seq<K>)
    ensures forall i :: 0 <= i < |CounterOf(xs)| ==> CounterOf(xs)[i].1 > 0
  {
    if xs != [] {
      CounterOfPositive(xs[..|xs| - 1]);
      AddPositive(CounterOf(xs[..|xs| - 1]), xs[|xs| - 1]);
    }
  }

  /** No key counts more than the whole counter. */
  lemma {:induction false} GetAtMostSum<K>(c: seq<(K, nat)>, k: K)
    ensures Get(c, k) <= Sum(c)
  {
    if c != [] && c[0].0 != k {
      GetAtMostSum(c[1..], k);
    }
  }

  /** In a counter with distinct keys, looking an entry's key up gives that entry's count. */
  lemma {:induction false} GetEntry<K>(c: seq<(K, nat)>, i: nat)
    requires Distinct(Keys(c)) && i < |c|
    ensures Get(c, c[i].0) == c[i].1
  {
    if i > 0 {
      assert Keys(c)[0] != Keys(c)[i];
      assert Distinct(Keys(c[1..])) by {
        forall a, b | 0 <= a < b < |c| - 1
          ensures Keys(c[1..])[a] != Keys(c[1..])[b]
        {
          assert Keys(c)[a + 1] != Keys(c)[b + 1];
        }
      }
      GetEntry(c[1..], i - 1);
    }
  }

  /** Every entry of a counter built from `xs` holds the number of occurrences of its key. */
  lemma CounterOfEntry<K>(xs: seq<K>, i: nat)
    requires i < |CounterOf(xs)|
    ensures CounterOf(xs)[i].1 == multiset(xs)[CounterOf(xs)[i].0]
  {
    CounterOfKeys(xs);
    FirstSeenElements(xs);
    GetEntry(CounterOf(xs), i);
    CounterOfCounts(xs, CounterOf(xs)[i].0);
  }

  /** First-seen order lists every value of `xs` exactly once. */
  lemma FirstSeenSnoc<K>(xs: seq<K>, x: K)
    ensures FirstSeen(xs + [x]) == FirstSeen(xs) + if x in xs then [] else [x]
  {
    assert (xs + [x])[..|xs|] == xs;
  }

  lemma {:induction false} FirstSeenElements<K>(xs: seq<K>)
    ensures Distinct(FirstSeen(xs))
    ensures forall x :: x in FirstSeen(xs) <==> x in xs
  {
    if xs != [] {
      var init := xs[..|xs| - 1];
      FirstSeenElements(init);
      assert xs == init + [xs[|xs| - 1]];
    }
  }

  // ---- most_common ----

  predicate NonIncreasing<K>(s: seq<(K, nat)>) {
    forall i, j :: 0 <= i < j < |s| ==> s[i].1 >= s[j].1
  }

  /** Place `x` before the first entry whose count is not larger than its own. */
  function Insert<K>(x: (K, nat), s: seq<(K, nat)>): (r: seq<(K, nat)>)
    ensures |r| == |s| + 1
  {
    if s == [] || s[0].1 <= x.1 then [x] + s else [s[0]] + Insert(x, s[1..])
  }

  /** Python's `sorted(entries, key=count, reverse=True)`: a stable sort by descending count. */
  function SortByCount<K>(c: seq<(K, nat)>): (r: seq<(K, nat)>)
    ensures |r| == |c|
  {
    if c == [] then [] else Insert(c[0], SortByCount(c[1..]))
  }

  /** The entries whose count is `v`, in their order. */
  function WithCount<K>(s: seq<(K, nat)>, v: nat): seq<(K, nat)> {
    if s == [] then []
    else (if s[0].1 == v then [s[0]] else []) + WithCount(s[1..], v)
  }

  lemma {:induction false} InsertPermutes<K>(x: (K, nat), s: seq<(K, nat)>)
    ensures multiset(Insert(x, s)) == multiset(s) + multiset{x}
  {
    if s != [] && s[0].1 > x.1 {
      var t := Insert(x, s[1..]);
      InsertPermutes(x, s[1..]);
      assert Insert(x, s) == [s[0]] + t;
      assert multiset([s[0]] + t) == multiset{s[0]} + multiset(t);
      assert s == [s[0]] + s[1..];
      assert multiset(s) == multiset{s[0]} + multiset(s[1..]);
    }
  }

  lemma {:induction false} InsertSorted<K>(x: (K, nat), s: seq<(K, nat)>)
    requires NonIncreasing(s)
    ensures NonIncreasing(Insert(x, s))
  {
    if s != [] && s[0].1 > x.1 {
      var rest := s[1..];
      var t := Insert(x, rest);
      InsertSorted(x, rest);
      assert t[0] == x || t[0] == rest[0];
      assert t[0].1 <= s[0].1;
      var r := [s[0]] + t;
      assert Insert(x, s) == r;
      forall i, j | 0 <= i < j < |r|
        ensures r[i].1 >= r[j].1
      {
        if i == 0 {
          assert r[j] == t[j - 1];
          assert t[0].1 >= t[j - 1].1;
        } else {
          assert r[i] == t[i - 1] && r[j] == t[j - 1];
        }
      }
    }
  }

  /** Inserting `x` leaves the entries of every other count in place and puts `x` first among its equals. */
  lemma {:induction false} InsertWithCount<K>(x: (K, nat), s: seq<(K, nat)>, v: nat)
    ensures WithCount(Insert(x, s), v) == (if x.1 == v then [x] else []) + WithCount(s, v)
  {
    var own := if x.1 == v then [x] else [];
    if s == [] || s[0].1 <= x.1 {
      var r := [x] + s;
      assert r[0] == x && r[1..] == s;
      assert WithCount(r, v) == own + WithCount(s, v);
    } else {
      var t := Insert(x, s[1..]);
      var r := [s[0]] + t;
      var first := if s[0].1 == v then [s[0]] else [];
      InsertWithCount(x, s[1..], v);
      assert r[0] == s[0] && r[1..] == t;
      assert WithCount(r, v) == first + (own + WithCount(s[1..], v));
      assert WithCount(s, v) == first + WithCount(s[1..], v);
      if first == [] {
        assert WithCount(r, v) == own + WithCount(s[1..], v);
      } else {
        assert own == [];
        assert WithCount(r, v) == first + WithCount(s[1..], v);
      }
    }
  }

  /** The sort is a permutation of the counter's entries. */
  lemma {:induction false} SortPermutes<K>(c: seq<(K, nat)>)
    ensures multiset(SortByCount(c)) == multiset(c)
  {
    if c != [] {
      SortPermutes(c[1..]);
      InsertPermutes(c[0], SortByCount(c[1..]));
      assert c == [c[0]] + c[1..];
    }
  }

  /** The sort orders entries by descending count. */
  lemma {:induction false} SortSorted<K>(c: seq<(K, nat)>)
    ensures NonIncreasing(SortByCount(c))
  {
    if c != [] {
      SortSorted(c[1..]);
      InsertSorted(c[0], SortByCount(c[1..]));
    }
  }

  /** The sort is stable: entries of equal count keep their order in the counter. */
  lemma {:induction false} SortStable<K>(c: seq<(K, nat)>, v: nat)
    ensures WithCount(SortByCount(c), v) == WithCount(c, v)
  {
    if c != [] {
      SortStable(c[1..], v);
      InsertWithCount(c[0], SortByCount(c[1..]), v);
    }
  }

  lemma {:induction false} WithCountPrefix<K>(s: seq<(K, nat)>, n: nat, v: nat)
    requires n <= |s|
    ensures WithCount(s[..n], v) <= WithCount(s, v)
  {
    if n > 0 {
      WithCountPrefix(s[1..], n - 1, v);
      assert s[..n][1..] == s[1..][..n - 1];
    }
  }

  /** `counter.most_common(n)`: the first `n` entries of the stable descending sort. */
  function MostCommon<K>(c: seq<(K, nat)>, n: nat): seq<(K, nat)> {
    Take(SortByCount(c), n)
  }

  /** `most_common(n)` returns min(n, number of keys) entries of the counter, by descending count. */
  lemma MostCommonShape<K>(c: seq<(K, nat)>, n: nat)
    ensures |MostCommon(c, n)| == if n <= |c| then n else |c|
    ensures NonIncreasing(MostCommon(c, n))
    ensures multiset(MostCommon(c, n)) <= multiset(c)
  {
    var sorted := SortByCount(c);
    var r := MostCommon(c, n);
    SortPermutes(c);
    SortSorted(c);
    assert sorted == r + sorted[|r|..];
    assert multiset(sorted) == multiset(r) + multiset(sorted[|r|..]);
  }

  /** No entry left out of `most_common(n)` has a larger count than an entry in it. */
  lemma MostCommonTop<K>(c: seq<(K, nat)>, n: nat, e: (K, nat), x: (K, nat))
    requires e in c && e !in MostCommon(c, n) && x in MostCommon(c, n)
    ensures e.1 <= x.1
  {
    var sorted := SortByCount(c);
    var r := MostCommon(c, n);
    SortPermutes(c);
    SortSorted(c);
    assert e in multiset(sorted);
    var m :| 0 <= m < |sorted| && sorted[m] == e;
    var i :| 0 <= i < |r| && r[i] == x;
  }

  /** Among entries of equal count, `most_common(n)` keeps those that come first in the counter,
      in counter order: ties are broken by first insertion. */
  lemma MostCommonTies<K>(c: seq<(K, nat)>, n: nat, v: nat)
    ensures WithCount(MostCommon(c, n), v) <= WithCount(c, v)
  {
    var sorted := SortByCount(c);
    SortStable(c, v);
    WithCountPrefix(sorted, |MostCommon(c, n)|, v);
  }

  /** `Counter(xs).most_common(n)`: min(n, number of distinct values) entries, by descending count,
      each with the number of times its value occurs in `xs`. */
  lemma MostCommonCounts<K>(xs: seq<K>, n: nat)
    ensures |MostCommon(CounterOf(xs), n)| == if n <= |FirstSeen(xs)| then n else |FirstSeen(xs)|
    ensures NonIncreasing(MostCommon(CounterOf(xs), n))
    ensures forall i :: 0 <= i < |MostCommon(CounterOf(xs), n)| ==>
      MostCommon(CounterOf(xs), n)[i].1 == multiset(xs)[MostCommon(CounterOf(xs), n)[i].0]
  {
    var c := CounterOf(xs);
    var top := MostCommon(c, n);
    MostCommonShape(c, n);
    CounterOfKeys(xs);
    assert |Keys(c)| == |c|;
    forall i | 0 <= i < |top|
      ensures top[i].1 == multiset(xs)[top[i].0]
    {
      assert top[i] in multiset(c);
      var j :| 0 <= j < |c| && c[j] == top[i];
      CounterOfEntry(xs, j);
    }
  }
}
