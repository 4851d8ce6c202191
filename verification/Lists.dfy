/** Sums, stable sorting and permutations of sequences, and sums over the values of a map. */
module Lists {
  function Sum(s: seq<int>): int
    decreases |s|
  {
    if s == [] then 0 else Sum(s[..|s| - 1]) + s[|s| - 1]
  }

  function MapSeq<T, U>(f: T -> U, s: seq<T>): (r: seq<U>)
    ensures |r| == |s| && forall i {:trigger r[i]} | 0 <= i < |s| :: r[i] == f(s[i])
  {
    seq(|s|, i requires 0 <= i < |s| => f(s[i]))
  }

  function FilterSeq<T>(p: T -> bool, s: seq<T>): seq<T>
    decreases |s|
  {
    if s == [] then []
    else FilterSeq(p, s[..|s| - 1]) + (if p(s[|s| - 1]) then [s[|s| - 1]] else [])
  }

  lemma {:induction false} SumConcat(a: seq<int>, b: seq<int>)
    ensures Sum(a + b) == Sum(a) + Sum(b)
    decreases |b|
  {
    if b == [] {
      assert a + b == a;
    } else {
      assert (a + b)[..|a + b| - 1] == a + b[..|b| - 1];
      SumConcat(a, b[..|b| - 1]);
    }
  }

  lemma SumUpdate(s: seq<int>, i: nat, v: int)
    requires i < |s|
    ensures Sum(s[i := v]) == Sum(s) - s[i] + v
  {
    assert s[i := v] == s[..i] + [v] + s[i + 1..];
    assert s == s[..i] + [s[i]] + s[i + 1..];
    SumConcat(s[..i] + [v], s[i + 1..]);
    SumConcat(s[..i] + [s[i]], s[i + 1..]);
    SumConcat(s[..i], [v]);
    SumConcat(s[..i], [s[i]]);
    assert Sum([v]) == v && Sum([s[i]]) == s[i];
  }

  lemma MapConcat<T, U>(f: T -> U, a: seq<T>, b: seq<T>)
    ensures MapSeq(f, a + b) == MapSeq(f, a) + MapSeq(f, b)
  {
  }

  lemma MapMore<T, U>(f: T -> U, s: seq<T>, x: T)
    ensures MapSeq(f, s + [x]) == MapSeq(f, s) + [f(x)]
  {
  }

  lemma SameValues<T, U>(f: T -> U, g: T -> U, s: seq<T>)
    requires forall i | 0 <= i < |s| :: f(s[i]) == g(s[i])
    ensures MapSeq(f, s) == MapSeq(g, s)
  {
  }

  lemma SumMapAppend<T>(f: T -> int, s: seq<T>, x: T)
    ensures Sum(MapSeq(f, s + [x])) == Sum(MapSeq(f, s)) + f(x)
  {
    assert MapSeq(f, s + [x])[..|s|] == MapSeq(f, s);
  }

  lemma SumMapOne<T>(f: T -> int, x: T)
    ensures Sum(MapSeq(f, [x])) == f(x)
  {
    assert MapSeq(f, [x])[..0] == [];
  }

  lemma SumMapConcat<T>(f: T -> int, a: seq<T>, b: seq<T>)
    ensures Sum(MapSeq(f, a + b)) == Sum(MapSeq(f, a)) + Sum(MapSeq(f, b))
  {
    MapConcat(f, a, b);
    SumConcat(MapSeq(f, a), MapSeq(f, b));
  }

  lemma {:induction false} FilterConcat<T>(p: T -> bool, a: seq<T>, b: seq<T>)
    ensures FilterSeq(p, a + b) == FilterSeq(p, a) + FilterSeq(p, b)
    decreases |b|
  {
    if b == [] {
      assert a + b == a;
    } else {
      assert (a + b)[..|a + b| - 1] == a + b[..|b| - 1];
      FilterConcat(p, a, b[..|b| - 1]);
    }
  }

  lemma {:induction false} FilterMembers<T>(p: T -> bool, s: seq<T>, x: T)
    ensures x in FilterSeq(p, s) <==> x in s && p(x)
    decreases |s|
  {
    if s != [] {
      FilterMembers(p, s[..|s| - 1], x);
      assert s == s[..|s| - 1] + [s[|s| - 1]];
    }
  }

  // ----- Permutations -----

  /** An element of a permutation can be found and taken out. */
  lemma TakeOut<T>(a: seq<T>, b: seq<T>) returns (j: nat)
    requires multiset(a) == multiset(b) && a != []
    ensures j < |b| && b[j] == a[|a| - 1]
    ensures multiset(a[..|a| - 1]) == multiset(b[..j] + b[j + 1..])
  {
    var x := a[|a| - 1];
    assert a == a[..|a| - 1] + [x];
    assert x in multiset(a);
    j :| 0 <= j < |b| && b[j] == x;
    assert b == b[..j] + [x] + b[j + 1..];
    assert multiset(b) == multiset(b[..j]) + multiset{x} + multiset(b[j + 1..]);
    assert multiset(a) == multiset(a[..|a| - 1]) + multiset{x};
    assert multiset(a[..|a| - 1]) == multiset(a) - multiset{x};
    assert multiset(b[..j] + b[j + 1..]) == multiset(b) - multiset{x};
  }

  lemma {:induction false} SumPermutation(a: seq<int>, b: seq<int>)
    requires multiset(a) == multiset(b)
    ensures Sum(a) == Sum(b)
    decreases |a|
  {
    if a == [] {
      assert multiset(b) == multiset{};
      assert |b| == |multiset(b)|;
    } else {
      var j := TakeOut(a, b);
      SumPermutation(a[..|a| - 1], b[..j] + b[j + 1..]);
      assert b == b[..j] + [b[j]] + b[j + 1..];
      SumConcat(b[..j] + [b[j]], b[j + 1..]);
      SumConcat(b[..j], [b[j]]);
      SumConcat(b[..j], b[j + 1..]);
      assert Sum([b[j]]) == b[j];
    }
  }

  lemma {:induction false} MapPermutation<T, U>(f: T -> U, a: seq<T>, b: seq<T>)
    requires multiset(a) == multiset(b)
    ensures multiset(MapSeq(f, a)) == multiset(MapSeq(f, b))
    decreases |a|
  {
    if a == [] {
      assert |b| == |multiset(b)| == 0;
    } else {
      var n := |a| - 1;
      var j := TakeOut(a, b);
      MapPermutation(f, a[..n], b[..j] + b[j + 1..]);
      assert MapSeq(f, a) == MapSeq(f, a[..n]) + [f(a[n])];
      assert MapSeq(f, b) == MapSeq(f, b[..j]) + [f(b[j])] + MapSeq(f, b[j + 1..]);
      MapConcat(f, b[..j], b[j + 1..]);
    }
  }

  /** Sorting does not change a sum over the elements. */
  lemma SumMapPermutation<T>(f: T -> int, a: seq<T>, b: seq<T>)
    requires multiset(a) == multiset(b)
    ensures Sum(MapSeq(f, a)) == Sum(MapSeq(f, b))
  {
    MapPermutation(f, a, b);
    SumPermutation(MapSeq(f, a), MapSeq(f, b));
  }

  lemma FilterOne<T>(p: T -> bool, x: T)
    ensures FilterSeq(p, [x]) == if p(x) then [x] else []
  {
    assert [x][..0] == [];
  }

  /** Taking an element out takes out what the filter keeps of it. */
  lemma FilterWithout<T>(p: T -> bool, a: seq<T>, x: T, c: seq<T>)
    ensures multiset(FilterSeq(p, a + [x] + c)) == multiset(FilterSeq(p, a + c)) + multiset(FilterSeq(p, [x]))
  {
    FilterConcat(p, a, c);
    FilterConcat(p, a, [x]);
    FilterConcat(p, a + [x], c);
  }

  lemma FilterWithoutBoth<T>(p: T -> bool, a: seq<T>, x: T, l: seq<T>, r: seq<T>)
    requires multiset(FilterSeq(p, a)) == multiset(FilterSeq(p, l + r))
    ensures multiset(FilterSeq(p, a + [x])) == multiset(FilterSeq(p, l + [x] + r))
  {
    FilterWithout(p, l, x, r);
    FilterConcat(p, a, [x]);
  }

  lemma SplitAround<T>(a: seq<T>, b: seq<T>, j: nat)
    requires a != [] && j < |b| && b[j] == a[|a| - 1]
    ensures a == a[..|a| - 1] + [b[j]] && b == b[..j] + [b[j]] + b[j + 1..]
  {
  }

  lemma {:induction false} FilterPermutation<T>(p: T -> bool, a: seq<T>, b: seq<T>)
    requires multiset(a) == multiset(b)
    ensures multiset(FilterSeq(p, a)) == multiset(FilterSeq(p, b))
    decreases |a|
  {
    assert |a| == |multiset(a)| && |b| == |multiset(b)|;
    if |a| == 0 {
      assert a == b;
    } else {
      var n := |a| - 1;
      var j := TakeOut(a, b);
      FilterPermutation(p, a[..n], b[..j] + b[j + 1..]);
      FilterWithoutBoth(p, a[..n], b[j], b[..j], b[j + 1..]);
      SplitAround(a, b, j);
    }
  }

  // ----- Partitions -----

  /** The sum over the elements of one part. */
  function PartSum<T, K>(f: T -> int, part: K -> (T -> bool), s: seq<T>): K -> int {
    (k: K) => Sum(MapSeq(f, FilterSeq(part(k), s)))
  }

  /** The i-th part, and no other, contains x. */
  ghost predicate OnlyPart<T, K>(part: K -> (T -> bool), keys: seq<K>, x: T, i: nat) {
    i < |keys| && forall j | 0 <= j < |keys| :: part(keys[j])(x) <==> j == i
  }

  ghost predicate HasPart<T, K>(part: K -> (T -> bool), keys: seq<K>, x: T) {
    exists i: nat :: OnlyPart(part, keys, x, i)
  }

  /** Each element is in the part of exactly one key. */
  ghost predicate Parted<T, K>(part: K -> (T -> bool), s: seq<T>, keys: seq<K>) {
    forall x | x in s :: HasPart(part, keys, x)
  }

  lemma PartSumStep<T, K>(f: T -> int, part: K -> (T -> bool), s: seq<T>, x: T, k: K)
    ensures PartSum(f, part, s + [x])(k) == PartSum(f, part, s)(k) + if part(k)(x) then f(x) else 0
  {
    FilterConcat(part(k), s, [x]);
    FilterOne(part(k), x);
    if part(k)(x) {
      SumMapAppend(f, FilterSeq(part(k), s), x);
    } else {
      assert FilterSeq(part(k), s) + [] == FilterSeq(part(k), s);
    }
  }

  lemma {:induction false} SumOfNothing<T, K>(f: T -> int, part: K -> (T -> bool), keys: seq<K>)
    ensures Sum(MapSeq(PartSum(f, part, []), keys)) == 0
    decreases |keys|
  {
    if keys != [] {
      var n := |keys| - 1;
      assert keys == keys[..n] + [keys[n]];
      SumMapAppend(PartSum(f, part, []), keys[..n], keys[n]);
      SumOfNothing(f, part, keys[..n]);
    }
  }

  lemma OneMore<K>(g: K -> int, h: K -> int, keys: seq<K>, i: nat, extra: int)
    requires i < |keys|
    requires forall j | 0 <= j < |keys| :: h(keys[j]) == if j == i then g(keys[i]) + extra else g(keys[j])
    ensures Sum(MapSeq(h, keys)) == Sum(MapSeq(g, keys)) + extra
  {
    var before := MapSeq(g, keys);
    assert MapSeq(h, keys) == before[i := g(keys[i]) + extra];
    SumUpdate(before, i, g(keys[i]) + extra);
  }

  /** One more element adds to the sum of its part alone. */
  lemma PartSumsStep<T, K>(f: T -> int, part: K -> (T -> bool), s: seq<T>, x: T, keys: seq<K>, i: nat)
    requires OnlyPart(part, keys, x, i)
    ensures Sum(MapSeq(PartSum(f, part, s + [x]), keys)) == Sum(MapSeq(PartSum(f, part, s), keys)) + f(x)
  {
    var g, h := PartSum(f, part, s), PartSum(f, part, s + [x]);
    forall j | 0 <= j < |keys|
      ensures h(keys[j]) == if j == i then g(keys[i]) + f(x) else g(keys[j])
    {
      PartSumStep(f, part, s, x, keys[j]);
    }
    OneMore(g, h, keys, i, f(x));
  }

  /** Summing part by part is summing all. */
  lemma {:induction false} SumOfParts<T, K>(f: T -> int, part: K -> (T -> bool), s: seq<T>, keys: seq<K>)
    requires Parted(part, s, keys)
    ensures Sum(MapSeq(PartSum(f, part, s), keys)) == Sum(MapSeq(f, s))
    decreases |s|
  {
    if s == [] {
      SumOfNothing(f, part, keys);
    } else {
      var n := |s| - 1;
      assert HasPart(part, keys, s[n]);
      var i: nat :| OnlyPart(part, keys, s[n], i);
      SumOfParts(f, part, s[..n], keys);
      PartSumsStep(f, part, s[..n], s[n], keys, i);
      SumMapAppend(f, s[..n], s[n]);
      assert s == s[..n] + [s[n]];
    }
  }

  // ----- Grouping -----

  /** The map holds the content of every key, and no key has content outside it. */
  ghost predicate Grouped<K(!new), T>(content: K -> seq<T>, m: map<K, seq<T>>) {
    forall k :: content(k) == if k in m then m[k] else []
  }

  /** `setdefault(k, []).append(x)`. */
  function Appended<K, T>(m: map<K, seq<T>>, k: K, x: T): map<K, seq<T>> {
    m[k := (if k in m then m[k] else []) + [x]]
  }

  lemma GroupedStep<K(!new), T>(before: K -> seq<T>, after: K -> seq<T>, m: map<K, seq<T>>, k: K, x: T)
    requires Grouped(before, m) && forall j :: after(j) == before(j) + if j == k then [x] else []
    ensures Grouped(after, Appended(m, k, x))
  {
  }

  // ----- Stable sorting -----

  ghost predicate SortedBy<T>(key: T -> int, s: seq<T>) {
    forall i, j | 0 <= i < j < |s| :: key(s[i]) <= key(s[j])
  }

  /** Insert after every element whose key is not larger. */
  function Insert<T>(key: T -> int, s: seq<T>, x: T): seq<T>
    decreases |s|
  {
    if s == [] || key(s[|s| - 1]) <= key(x) then s + [x]
    else Insert(key, s[..|s| - 1], x) + [s[|s| - 1]]
  }

  /** `list.sort(key=...)`: sorted by key, elements of equal key in their old order. */
  function SortBy<T>(key: T -> int, s: seq<T>): seq<T>
    decreases |s|
  {
    if s == [] then [] else Insert(key, SortBy(key, s[..|s| - 1]), s[|s| - 1])
  }

  lemma {:induction false} InsertPermutes<T>(key: T -> int, s: seq<T>, x: T)
    ensures multiset(Insert(key, s, x)) == multiset(s) + multiset{x}
    decreases |s|
  {
    if s != [] && key(s[|s| - 1]) > key(x) {
      InsertPermutes(key, s[..|s| - 1], x);
      assert s == s[..|s| - 1] + [s[|s| - 1]];
    }
  }

  /** The last element, and so every element, of the result is the new one or was there before. */
  lemma InsertMembers<T>(key: T -> int, s: seq<T>, x: T, i: nat)
    requires i < |Insert(key, s, x)|
    ensures Insert(key, s, x)[i] == x || Insert(key, s, x)[i] in s
  {
    InsertPermutes(key, s, x);
    assert Insert(key, s, x)[i] in multiset(Insert(key, s, x));
  }

  lemma {:induction false} InsertSorts<T>(key: T -> int, s: seq<T>, x: T)
    requires SortedBy(key, s)
    ensures SortedBy(key, Insert(key, s, x))
    decreases |s|
  {
    if s != [] && key(s[|s| - 1]) > key(x) {
      var n := |s| - 1;
      InsertSorts(key, s[..n], x);
      var r := Insert(key, s[..n], x);
      forall i | 0 <= i < |r|
        ensures key(r[i]) <= key(s[n])
      {
        InsertMembers(key, s[..n], x, i);
      }
    }
  }

  lemma {:induction false} SortBySorts<T>(key: T -> int, s: seq<T>)
    ensures SortedBy(key, SortBy(key, s))
    ensures multiset(SortBy(key, s)) == multiset(s)
    decreases |s|
  {
    if s != [] {
      SortBySorts(key, s[..|s| - 1]);
      InsertSorts(key, SortBy(key, s[..|s| - 1]), s[|s| - 1]);
      InsertPermutes(key, SortBy(key, s[..|s| - 1]), s[|s| - 1]);
      assert s == s[..|s| - 1] + [s[|s| - 1]];
    }
  }

  /** Sorted by `major`, and by `minor` among elements of equal `major`: the order of the tuple of both. */
  ghost predicate SortedByBoth<T>(major: T -> int, minor: T -> int, s: seq<T>) {
    forall i, j | 0 <= i < j < |s| ::
      major(s[i]) < major(s[j]) || (major(s[i]) == major(s[j]) && minor(s[i]) <= minor(s[j]))
  }

  lemma {:induction false} InsertIsStable<T>(major: T -> int, minor: T -> int, s: seq<T>, x: T)
    requires SortedByBoth(major, minor, s) && forall y | y in s :: minor(y) <= minor(x)
    ensures SortedByBoth(major, minor, Insert(major, s, x))
    decreases |s|
  {
    if s != [] && major(s[|s| - 1]) > major(x) {
      var n := |s| - 1;
      InsertIsStable(major, minor, s[..n], x);
      var r := Insert(major, s[..n], x);
      forall i | 0 <= i < |r|
        ensures r[i] == x || r[i] in s[..n]
      {
        InsertMembers(major, s[..n], x, i);
      }
    }
  }

  /** Sorting is stable: what was sorted by `minor` is then sorted by both keys. */
  lemma {:induction false} SortByIsStable<T>(major: T -> int, minor: T -> int, s: seq<T>)
    requires SortedBy(minor, s)
    ensures SortedByBoth(major, minor, SortBy(major, s))
    decreases |s|
  {
    if s != [] {
      var n := |s| - 1;
      SortByIsStable(major, minor, s[..n]);
      SortBySorts(major, s[..n]);
      forall y | y in SortBy(major, s[..n])
        ensures minor(y) <= minor(s[n])
      {
        assert y in multiset(s[..n]);
      }
      InsertIsStable(major, minor, SortBy(major, s[..n]), s[n]);
    }
  }

  // ----- Sums over a map -----

  /** The sum of the values of some keys. */
  ghost function SumAt<K>(m: map<K, int>, ks: set<K>): int
    requires ks <= m.Keys
    decreases |ks|
  {
    if ks == {} then 0
    else
      var k :| k in ks;
      m[k] + SumAt(m, ks - {k})
  }

  ghost function SumMap<K>(m: map<K, int>): int {
    SumAt(m, m.Keys)
  }

  /** Any key may be taken out first. */
  lemma {:induction false} SumTake<K>(m: map<K, int>, ks: set<K>, k: K)
    requires ks <= m.Keys && k in ks
    ensures SumAt(m, ks) == m[k] + SumAt(m, ks - {k})
    decreases |ks|
  {
    var first :| first in ks && SumAt(m, ks) == m[first] + SumAt(m, ks - {first});
    if first != k {
      SumTake(m, ks - {first}, k);
      SumTake(m, ks - {k}, first);
      assert ks - {first} - {k} == ks - {k} - {first};
    }
  }

  lemma SumAdd<K>(m: map<K, int>, ks: set<K>, k: K)
    requires ks <= m.Keys && k in m && k !in ks
    ensures SumAt(m, ks + {k}) == SumAt(m, ks) + m[k]
  {
    SumTake(m, ks + {k}, k);
    assert ks + {k} - {k} == ks;
  }

  lemma {:induction false} SumUnion<K>(m: map<K, int>, a: set<K>, b: set<K>)
    requires a + b <= m.Keys && a !! b
    ensures SumAt(m, a + b) == SumAt(m, a) + SumAt(m, b)
    decreases |b|
  {
    if b == {} {
      assert a + b == a;
    } else {
      var k :| k in b;
      SumUnion(m, a, b - {k});
      SumTake(m, b, k);
      SumTake(m, a + b, k);
      assert a + b - {k} == a + (b - {k});
    }
  }

  /** Renaming the keys one to one, by f and back by g, does not change a sum. */
  lemma {:induction false} SumRename<K, J>(a: map<K, int>, b: map<J, int>, f: K -> J, g: J -> K, ks: set<K>, js: set<J>)
    requires ks <= a.Keys && js <= b.Keys
    requires forall k | k in ks :: f(k) in js && g(f(k)) == k && b[f(k)] == a[k]
    requires forall j | j in js :: g(j) in ks && f(g(j)) == j
    ensures SumAt(a, ks) == SumAt(b, js)
    decreases |ks|
  {
    if ks == {} {
      assert js == {};
    } else {
      var k :| k in ks;
      SumRename(a, b, f, g, ks - {k}, js - {f(k)});
      SumTake(a, ks, k);
      SumTake(b, js, f(k));
    }
  }

  lemma {:induction false} SumScale<K>(a: map<K, int>, b: map<K, int>, factor: int, ks: set<K>)
    requires ks <= a.Keys && ks <= b.Keys && forall k | k in ks :: a[k] == factor * b[k]
    ensures SumAt(a, ks) == factor * SumAt(b, ks)
    decreases |ks|
  {
    if ks != {} {
      var k :| k in ks;
      SumScale(a, b, factor, ks - {k});
      SumTake(a, ks, k);
      SumTake(b, ks, k);
      assert factor * (b[k] + SumAt(b, ks - {k})) == factor * b[k] + factor * SumAt(b, ks - {k});
    }
  }
}
