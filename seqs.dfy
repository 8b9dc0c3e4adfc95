/** Sequence operations the query layer is built from: filtering, mapping, first-match
    lookup on an index key, and the stable sort that `Array.prototype.sort` performs. */
module Seqs {
  import opened Wrappers

  /** The predicate "has key `k`", for filtering and looking up by a key function. */
  function HasKey<T, K(==)>(key: T -> K, k: K): T -> bool {
    x => key(x) == k
  }

  /** The elements of `s` that satisfy `p`, in their order in `s`. */
  function Filter<T(==,!new)>(s: seq<T>, p: T -> bool): (r: seq<T>)
    ensures |r| <= |s|
    ensures forall x :: x in r <==> x in s && p(x)
  {
    if s == [] then []
    else
      assert s == [s[0]] + s[1..];
      (if p(s[0]) then [s[0]] else []) + Filter(s[1..], p)
  }

  /** `f` applied to every element of `s`. */
  function Map<A, B>(s: seq<A>, f: A -> B): (r: seq<B>)
    ensures |r| == |s|
    ensures forall i :: 0 <= i < |s| ==> r[i] == f(s[i])
  {
    if s == [] then [] else [f(s[0])] + Map(s[1..], f)
  }

  /** The position of the first element of `s` whose key is `k`. */
  function LookupIndex<T, K(==)>(s: seq<T>, key: T -> K, k: K): (r: Option<nat>)
    ensures r.Some? ==> r.value < |s| && key(s[r.value]) == k
    ensures r.Some? ==> forall j :: 0 <= j < r.value ==> key(s[j]) != k
    ensures r.None? <==> forall j :: 0 <= j < |s| ==> key(s[j]) != k
  {
    if s == [] then None
    else if key(s[0]) == k then Some(0)
    else match LookupIndex(s[1..], key, k)
      case Some(i) => Some(i + 1)
      case None => None
  }

  /** The first element of `s` whose key is `k`: an index query ended by `.unique()`,
      which under `UniqueBy(s, key)` is the only such element (see `LookupUnique`). */
  function Lookup<T, K(==)>(s: seq<T>, key: T -> K, k: K): (r: Option<T>)
    ensures r.Some? ==> key(r.value) == k
    ensures r.None? <==> forall j :: 0 <= j < |s| ==> key(s[j]) != k
  {
    match LookupIndex(s, key, k)
    case Some(i) => Some(s[i])
    case None => None
  }

  /** Every element's id is below `n`: `n` is fresh for `s`. */
  predicate IdsBelow<T>(s: seq<T>, id: T -> int, n: int) {
    forall i :: 0 <= i < |s| ==> id(s[i]) < n
  }

  /** No two elements of `s` share a key. */
  predicate UniqueBy<T, K(==)>(s: seq<T>, key: T -> K) {
    forall i, j :: 0 <= i < j < |s| ==> key(s[i]) != key(s[j])
  }

  /** `s` is in non-decreasing order of `key`. */
  predicate SortedBy<T>(s: seq<T>, key: T -> int) {
    forall i, j :: 0 <= i < j < |s| ==> key(s[i]) <= key(s[j])
  }

  /** Inserts `x` before the first element whose key is not smaller than its own. */
  function Insert<T>(x: T, s: seq<T>, key: T -> int): (r: seq<T>)
    ensures |r| == |s| + 1
  {
    if s == [] || key(x) <= key(s[0]) then [x] + s
    else
      assert s == [s[0]] + s[1..];
      [s[0]] + Insert(x, s[1..], key)
  }

  /** A stable sort of `s` into non-decreasing order of `key` (insertion sort). */
  function SortByKey<T>(s: seq<T>, key: T -> int): (r: seq<T>)
    ensures |r| == |s|
  {
    if s == [] then [] else Insert(s[0], SortByKey(s[1..], key), key)
  }

  /** Insertion adds exactly `x` and keeps a sorted sequence sorted. */
  lemma {:induction false} InsertSorted<T(!new)>(x: T, s: seq<T>, key: T -> int)
    ensures multiset(Insert(x, s, key)) == multiset(s) + multiset{x}
    ensures SortedBy(s, key) ==> SortedBy(Insert(x, s, key), key)
  {
    if !(s == [] || key(x) <= key(s[0])) {
      var t := Insert(x, s[1..], key);
      InsertSorted(x, s[1..], key);
      assert s == [s[0]] + s[1..];
      if SortedBy(s, key) {
        forall y | y in t ensures key(s[0]) <= key(y) {
          assert y in multiset(t);
          if y != x {
            assert y in multiset(s[1..]);
          }
        }
      }
    }
  }

  /** The sort returns a permutation of its input in non-decreasing order of `key`. */
  lemma {:induction false} SortSorted<T(!new)>(s: seq<T>, key: T -> int)
    ensures multiset(SortByKey(s, key)) == multiset(s)
    ensures SortedBy(SortByKey(s, key), key)
  {
    if s != [] {
      SortSorted(s[1..], key);
      InsertSorted(s[0], SortByKey(s[1..], key), key);
      assert s == [s[0]] + s[1..];
    }
  }

  lemma {:induction false} FilterAppend<T(!new)>(a: seq<T>, b: seq<T>, p: T -> bool)
    ensures Filter(a + b, p) == Filter(a, p) + Filter(b, p)
  {
    if a == [] {
      assert a + b == b;
    } else {
      assert (a + b)[1..] == a[1..] + b;
      FilterAppend(a[1..], b, p);
    }
  }

  lemma FilterCons<T(!new)>(y: T, t: seq<T>, p: T -> bool)
    ensures Filter([y] + t, p) == (if p(y) then [y] else []) + Filter(t, p)
  {
    assert ([y] + t)[1..] == t;
  }

  /** Filtering keeps every copy of an element that passes and no copy of one that fails. */
  lemma {:induction false} FilterMultiset<T(!new)>(s: seq<T>, p: T -> bool)
    ensures forall x :: multiset(Filter(s, p))[x] == if p(x) then multiset(s)[x] else 0
  {
    if s != [] {
      FilterMultiset(s[1..], p);
      assert s == [s[0]] + s[1..];
    }
  }

  /** Every element the filter keeps satisfies the predicate, by position. */
  lemma FilterHolds<T(!new)>(s: seq<T>, p: T -> bool)
    ensures forall i :: 0 <= i < |Filter(s, p)| ==> p(Filter(s, p)[i])
  {
    var r := Filter(s, p);
    assert forall i :: 0 <= i < |r| ==> r[i] in r;
  }

  /** Filtering on a weaker predicate keeps at least as many elements. */
  lemma {:induction false} FilterWeaker<T(!new)>(s: seq<T>, p: T -> bool, q: T -> bool)
    requires forall x :: x in s && p(x) ==> q(x)
    ensures |Filter(s, p)| <= |Filter(s, q)|
  {
    if s != [] {
      FilterWeaker(s[1..], p, q);
    }
  }

  /** Every element is kept by exactly one of `p` and its negation. */
  lemma {:induction false} FilterSplit<T(!new)>(s: seq<T>, p: T -> bool, q: T -> bool)
    requires forall x :: x in s ==> (q(x) <==> !p(x))
    ensures |Filter(s, p)| + |Filter(s, q)| == |s|
  {
    if s != [] {
      FilterSplit(s[1..], p, q);
    }
  }

  /** The positions of `s` whose element satisfies `p`. */
  function Positions<T>(s: seq<T>, p: T -> bool): set<nat> {
    set i: nat | i < |s| && p(s[i])
  }

  /** The length of a filter is the number of positions whose element passes it. */
  lemma {:induction false} FilterCount<T(!new)>(s: seq<T>, p: T -> bool)
    ensures |Filter(s, p)| == |Positions(s, p)|
  {
    var after := Positions(s, p);
    if s == [] {
      assert forall i :: i !in after;
      assert after == {};
    } else {
      var t, x := s[..|s| - 1], s[|s| - 1];
      assert s == t + [x];
      FilterAppend(t, [x], p);
      FilterCons(x, [], p);
      FilterCount(t, p);
      var before := Positions(t, p);
      var last := if p(x) then {|t|} else {};
      forall i ensures i in after <==> i in before + last {
        if 0 <= i < |t| {
          assert s[i] == t[i];
        }
      }
      assert after == before + last;
      assert |before + last| == |before| + |last|;
    }
  }

  /** Filtering keeps keys unique. */
  lemma {:induction false} FilterKeepsUnique<T(!new), K>(s: seq<T>, p: T -> bool, key: T -> K)
    requires UniqueBy(s, key)
    ensures UniqueBy(Filter(s, p), key)
  {
    if s != [] {
      FilterKeepsUnique(s[1..], p, key);
      var rest := Filter(s[1..], p);
      forall y | y in rest ensures key(y) != key(s[0]) {
        var j :| 0 <= j < |s[1..]| && s[1..][j] == y;
        assert s[j + 1] == y;
      }
    }
  }

  /** Under unique keys, an element with key `k` is the one that lookup on `k` finds. */
  lemma LookupUnique<T(!new), K>(s: seq<T>, key: T -> K, x: T)
    requires UniqueBy(s, key) && x in s
    ensures Lookup(s, key, key(x)) == Some(x)
  {
    var j :| 0 <= j < |s| && s[j] == x;
    var i := LookupIndex(s, key, key(x)).value;
    assert !(i < j) && !(j < i);
  }

  /** Under unique keys, an element present with key `k` is the only one:
      exactly one element passes the filter on that key. */
  lemma {:induction false} UniqueKeyCount<T(!new), K>(s: seq<T>, key: T -> K, k: K)
    requires UniqueBy(s, key)
    ensures |Filter(s, HasKey(key, k))| == if Lookup(s, key, k).Some? then 1 else 0
  {
    if s != [] {
      UniqueKeyCount(s[1..], key, k);
      if key(s[0]) == k {
        assert forall j :: 0 <= j < |s[1..]| ==> key(s[1..][j]) != k by {
          forall j | 0 <= j < |s[1..]| ensures key(s[1..][j]) != k {
            assert s[1..][j] == s[j + 1];
          }
        }
      } else {
        assert LookupIndex(s, key, k).Some? <==> LookupIndex(s[1..], key, k).Some?;
      }
    }
  }

  /** Appending leaves earlier matches in place and may supply the first one. */
  lemma LookupAppend<T, K>(s: seq<T>, x: T, key: T -> K, k: K)
    ensures Lookup(s + [x], key, k)
         == if Lookup(s, key, k).Some? then Lookup(s, key, k)
            else if key(x) == k then Some(x) else None
  {
    var i := LookupIndex(s + [x], key, k);
    var i' := LookupIndex(s, key, k);
    if i'.Some? {
      assert (s + [x])[i'.value] == s[i'.value];
      assert i.Some? && !(i.value < i'.value) && !(i'.value < i.value);
    } else if key(x) == k {
      assert (s + [x])[|s|] == x;
      assert i.Some? && i.value == |s|;
    } else {
      assert forall j :: 0 <= j < |s + [x]| ==> key((s + [x])[j]) != k by {
        forall j | 0 <= j < |s + [x]| ensures key((s + [x])[j]) != k {
          if j < |s| { assert (s + [x])[j] == s[j]; }
        }
      }
    }
  }

  /** Replacing an element with one of the same key: lookups on other keys are
      unaffected and lookups on that key find the replacement when they found the original. */
  lemma LookupUpdate<T, K>(s: seq<T>, i: nat, y: T, key: T -> K, k: K)
    requires i < |s| && key(y) == key(s[i])
    ensures Lookup(s[i := y], key, k)
         == if LookupIndex(s, key, k) == Some(i) then Some(y) else Lookup(s, key, k)
  {
    var r := LookupIndex(s[i := y], key, k);
    var r' := LookupIndex(s, key, k);
    assert forall j :: 0 <= j < |s| ==> (key(s[i := y][j]) == k <==> key(s[j]) == k);
    if r'.Some? {
      assert r.Some? && !(r.value < r'.value) && !(r'.value < r.value);
    } else {
      assert r.None?;
    }
  }

  /** Removing an element whose key is not `k` leaves the lookup on `k` as it was;
      under unique keys, removing the element with key `k` leaves none. */
  lemma LookupRemove<T, K>(s: seq<T>, i: nat, key: T -> K, k: K)
    requires i < |s| && UniqueBy(s, key)
    ensures Lookup(s[..i] + s[i + 1..], key, k)
         == if key(s[i]) == k then None else Lookup(s, key, k)
  {
    var t := s[..i] + s[i + 1..];
    assert forall j :: 0 <= j < i ==> t[j] == s[j];
    assert forall j :: i <= j < |t| ==> t[j] == s[j + 1];
    var r := LookupIndex(t, key, k);
    var r' := LookupIndex(s, key, k);
    if key(s[i]) == k {
      assert forall j :: 0 <= j < |t| ==> key(t[j]) != k by {
        forall j | 0 <= j < |t| ensures key(t[j]) != k {
          if j < i { assert t[j] == s[j]; } else { assert t[j] == s[j + 1]; }
        }
      }
    } else if r'.Some? {
      var n := r'.value;
      if n < i {
        assert r.Some? && !(r.value < n) && !(n < r.value);
      } else {
        assert t[n - 1] == s[n];
        assert r.Some? && !(r.value < n - 1) && !(n - 1 < r.value);
      }
    } else {
      assert r.None?;
    }
  }

  lemma IdsBelowUpdate<T>(s: seq<T>, i: nat, y: T, id: T -> int, n: int)
    requires i < |s| && IdsBelow(s, id, n) && id(y) < n
    ensures IdsBelow(s[i := y], id, n)
  {
  }

  /** Appending an element with the fresh id `n` keeps every id below `n + 1`. */
  lemma IdsBelowAppend<T>(s: seq<T>, x: T, id: T -> int, n: int)
    requires IdsBelow(s, id, n) && id(x) == n
    ensures IdsBelow(s + [x], id, n + 1)
  {
  }

  lemma IdsBelowRaise<T>(s: seq<T>, id: T -> int, n: int)
    requires IdsBelow(s, id, n)
    ensures IdsBelow(s, id, n + 1)
  {
  }

  lemma IdsBelowRemove<T>(s: seq<T>, i: nat, id: T -> int, n: int)
    requires i < |s| && IdsBelow(s, id, n)
    ensures IdsBelow(s[..i] + s[i + 1..], id, n)
  {
    var t := s[..i] + s[i + 1..];
    forall j | 0 <= j < |t| ensures id(t[j]) < n {
      if j < i { assert t[j] == s[j]; } else { assert t[j] == s[j + 1]; }
    }
  }

  /** Replacing an element with one of the same key keeps keys unique. */
  lemma UpdateKeepsUnique<T, K>(s: seq<T>, i: nat, y: T, key: T -> K)
    requires i < |s| && key(y) == key(s[i]) && UniqueBy(s, key)
    ensures UniqueBy(s[i := y], key)
  {
    assert forall j :: 0 <= j < |s| ==> key(s[i := y][j]) == key(s[j]);
  }

  /** Appending an element whose key is absent keeps keys unique. */
  lemma AppendKeepsUnique<T, K>(s: seq<T>, x: T, key: T -> K)
    requires UniqueBy(s, key) && Lookup(s, key, key(x)).None?
    ensures UniqueBy(s + [x], key)
  {
    assert forall j :: 0 <= j < |s| ==> (s + [x])[j] == s[j];
  }

  /** Removing an element keeps keys unique. */
  lemma RemoveKeepsUnique<T, K>(s: seq<T>, i: nat, key: T -> K)
    requires i < |s| && UniqueBy(s, key)
    ensures UniqueBy(s[..i] + s[i + 1..], key)
  {
    var t := s[..i] + s[i + 1..];
    forall a, b | 0 <= a < b < |t| ensures key(t[a]) != key(t[b]) {
      var a' := if a < i then a else a + 1;
      var b' := if b < i then b else b + 1;
      assert t[a] == s[a'] && t[b] == s[b'];
    }
  }

  /** Sorting moves elements of one key past elements of other keys only:
      the elements with key `k` keep their relative order. */
  lemma {:induction false} InsertStable<T(!new)>(x: T, s: seq<T>, key: T -> int, k: int)
    ensures Filter(Insert(x, s, key), HasKey(key, k)) == Filter([x] + s, HasKey(key, k))
  {
    var p := HasKey(key, k);
    if !(s == [] || key(x) <= key(s[0])) {
      var t := Insert(x, s[1..], key);
      InsertStable(x, s[1..], key, k);
      assert s == [s[0]] + s[1..];
      FilterCons(s[0], t, p);
      FilterCons(x, s[1..], p);
      FilterCons(s[0], s[1..], p);
      FilterCons(x, s, p);
    }
  }

  lemma {:induction false} SortStable<T(!new)>(s: seq<T>, key: T -> int, k: int)
    ensures Filter(SortByKey(s, key), HasKey(key, k)) == Filter(s, HasKey(key, k))
  {
    if s != [] {
      var p := HasKey(key, k);
      var rest := SortByKey(s[1..], key);
      SortStable(s[1..], key, k);
      InsertStable(s[0], rest, key, k);
      FilterAppend([s[0]], rest, p);
      FilterAppend([s[0]], s[1..], p);
      assert s == [s[0]] + s[1..];
    }
  }

  /** Mapping distributes over appending one element. */
  lemma MapAppend<A, B>(s: seq<A>, x: A, f: A -> B)
    ensures Map(s + [x], f) == Map(s, f) + [f(x)]
  {
    assert forall i :: 0 <= i < |s| ==> (s + [x])[i] == s[i];
  }

  /** An element no smaller than the sequence's last key goes to the end. */
  lemma {:induction false} InsertBeforeLast<T>(y: T, t: seq<T>, x: T, key: T -> int)
    requires key(y) <= key(x)
    ensures Insert(y, t + [x], key) == Insert(y, t, key) + [x]
  {
    if t != [] {
      assert (t + [x])[0] == t[0] && (t + [x])[1..] == t[1..] + [x];
      if key(y) > key(t[0]) {
        InsertBeforeLast(y, t[1..], x, key);
      }
    }
  }

  /** Sorting a sequence whose last element has the largest key leaves it last. */
  lemma {:induction false} SortAppendLargest<T(!new)>(s: seq<T>, x: T, key: T -> int)
    requires forall y :: y in s ==> key(y) <= key(x)
    ensures SortByKey(s + [x], key) == SortByKey(s, key) + [x]
  {
    if s == [] {
      assert [] + [x] == [x];
    } else {
      assert (s + [x])[0] == s[0] && (s + [x])[1..] == s[1..] + [x];
      SortAppendLargest(s[1..], x, key);
      InsertBeforeLast(s[0], SortByKey(s[1..], key), x, key);
    }
  }

  lemma {:induction false} InsertMap<A(!new), B(!new)>(x: A, s: seq<A>, f: A -> B, k1: A -> int, k2: B -> int)
    requires forall y :: k2(f(y)) == k1(y)
    ensures Map(Insert(x, s, k1), f) == Insert(f(x), Map(s, f), k2)
  {
    assert ([x] + s)[1..] == s;
    if s != [] {
      assert s == [s[0]] + s[1..];
      assert Map(s, f) == [f(s[0])] + Map(s[1..], f);
      if k1(x) > k1(s[0]) {
        InsertMap(x, s[1..], f, k1, k2);
        assert ([s[0]] + Insert(x, s[1..], k1))[1..] == Insert(x, s[1..], k1);
      }
    }
  }

  /** Sorting then mapping equals mapping then sorting, when the map keeps the key. */
  lemma {:induction false} SortMap<A(!new), B(!new)>(s: seq<A>, f: A -> B, k1: A -> int, k2: B -> int)
    requires forall y :: k2(f(y)) == k1(y)
    ensures Map(SortByKey(s, k1), f) == SortByKey(Map(s, f), k2)
  {
    if s != [] {
      SortMap(s[1..], f, k1, k2);
      InsertMap(s[0], SortByKey(s[1..], k1), f, k1, k2);
      assert Map(s, f)[1..] == Map(s[1..], f);
    }
  }
}
