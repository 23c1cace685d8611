/**
  The collection steps of a Java stream pipeline over records keyed by a
  string: keeping the records with a given key (the list `groupingBy` builds
  for that key, in encounter order), the distinct keys, and the stable sort
  `Stream.sorted(Comparator.comparing(key))` performs.
 */
module Grouping {
  import opened Strings
  import opened Wrappers

  /** The records whose key is `k`, in their original order. */
  function WithKey<T(!new)>(s: seq<T>, key: T -> string, k: string): (r: seq<T>)
    ensures |r| <= |s|
    ensures forall x :: x in r <==> x in s && key(x) == k
  {
    if s == [] then []
    else (if key(s[0]) == k then [s[0]] else []) + WithKey(s[1..], key, k)
  }

  lemma {:induction false} WithKeyAppend<T(!new)>(a: seq<T>, b: seq<T>, key: T -> string, k: string)
    ensures WithKey(a + b, key, k) == WithKey(a, key, k) + WithKey(b, key, k)
  {
    if a == [] {
      assert a + b == b;
    } else {
      assert (a + b)[1..] == a[1..] + b;
      WithKeyAppend(a[1..], b, key, k);
    }
  }

  /**
    `f` applied to each key in order, or None when any application gives
    None: the values a stream `map` collects when an application may throw.
   */
  function CollectAll<K, V>(ks: seq<K>, f: K -> Option<V>): (r: Option<seq<V>>)
    ensures r.Some? <==> forall i :: 0 <= i < |ks| ==> f(ks[i]).Some?
    ensures r.Some? ==> |r.value| == |ks| && forall i :: 0 <= i < |ks| ==> f(ks[i]) == Some(r.value[i])
  {
    if ks == [] then Some([])
    else
      var first, rest := f(ks[0]), CollectAll(ks[1..], f);
      assert forall i :: 1 <= i < |ks| ==> ks[i] == ks[1..][i - 1];
      if first.Some? && rest.Some? then Some([first.value] + rest.value) else None
  }

  /** The distinct keys of `s`, in the order in which they are first seen. */
  function DistinctKeys<T(!new)>(s: seq<T>, key: T -> string): (r: seq<string>)
    ensures forall i, j :: 0 <= i < j < |r| ==> r[i] != r[j]
    ensures forall k :: k in r <==> exists x :: x in s && key(x) == k
  {
    if s == [] then []
    else
      var prev := DistinctKeys(s[..|s| - 1], key);
      var last := s[|s| - 1];
      assert s == s[..|s| - 1] + [last];
      if key(last) in prev then prev else prev + [key(last)]
  }

  /** Appending a record adds its key to the distinct keys unless the key was already seen. */
  lemma DistinctKeysSnoc<T(!new)>(s: seq<T>, x: T, key: T -> string)
    ensures DistinctKeys(s + [x], key) ==
      if key(x) in DistinctKeys(s, key) then DistinctKeys(s, key) else DistinctKeys(s, key) + [key(x)]
  {
    assert (s + [x])[..|s + [x]| - 1] == s;
  }

  /**
    The distinct keys of two records: one key when they agree, two otherwise.
    Listing the keys first-seen first is the model's choice; a `HashMap`
    promises only which keys there are, not their order.
   */
  lemma DistinctKeysOfTwo<T(!new)>(x: T, y: T, key: T -> string)
    ensures DistinctKeys([x, y], key) == if key(x) == key(y) then [key(x)] else [key(x), key(y)]
  {
    DistinctKeysSnoc([], x, key);
    DistinctKeysSnoc([x], y, key);
    assert [] + [x] == [x];
    assert [x] + [y] == [x, y];
  }

  /** Keys never decrease along `s`: each key is at most every later one. */
  predicate SortedByKey<T>(s: seq<T>, key: T -> string) {
    forall i, j :: 0 <= i < j < |s| ==> !LexLess(key(s[j]), key(s[i]))
  }

  /** Keys strictly increase along `s`. */
  predicate StrictlyAscending<T>(s: seq<T>, key: T -> string) {
    forall i, j :: 0 <= i < j < |s| ==> LexLess(key(s[i]), key(s[j]))
  }

  /** Puts `x` after every element of the sorted `s` whose key is not greater than its own. */
  function Insert<T>(x: T, s: seq<T>, key: T -> string): seq<T> {
    if s == [] then [x]
    else if LexLess(key(x), key(s[0])) then [x] + s
    else [s[0]] + Insert(x, s[1..], key)
  }

  /** A stable sort by key: insertion of each element, in order, into the sorted prefix. */
  function SortByKey<T(==,!new)>(s: seq<T>, key: T -> string): (r: seq<T>)
    ensures multiset(r) == multiset(s)
    ensures SortedByKey(r, key)
  {
    if s == [] then []
    else
      var prev := SortByKey(s[..|s| - 1], key);
      InsertPermutes(s[|s| - 1], prev, key);
      InsertSorted(s[|s| - 1], prev, key);
      assert s == s[..|s| - 1] + [s[|s| - 1]];
      Insert(s[|s| - 1], prev, key)
  }

  lemma {:induction false} InsertPermutes<T(!new)>(x: T, s: seq<T>, key: T -> string)
    ensures multiset(Insert(x, s, key)) == multiset(s) + multiset{x}
  {
    if s != [] && !LexLess(key(x), key(s[0])) {
      InsertPermutes(x, s[1..], key);
      assert s == [s[0]] + s[1..];
    }
  }

  /** Every key of a sorted sequence is at least its first key. */
  lemma SortedFirstIsLeast<T>(s: seq<T>, key: T -> string, j: int)
    requires SortedByKey(s, key) && 0 <= j < |s|
    ensures key(s[j]) == key(s[0]) || LexLess(key(s[0]), key(s[j]))
  {
    if j > 0 {
      LexLessTotal(key(s[0]), key(s[j]));
    }
  }

  lemma {:induction false} InsertSorted<T(!new)>(x: T, s: seq<T>, key: T -> string)
    requires SortedByKey(s, key)
    ensures SortedByKey(Insert(x, s, key), key)
  {
    if s == [] {
    } else if LexLess(key(x), key(s[0])) {
      var r := [x] + s;
      forall i, j | 0 <= i < j < |r| ensures !LexLess(key(r[j]), key(r[i])) {
        if i == 0 {
          SortedFirstIsLeast(s, key, j - 1);
          if key(s[j - 1]) != key(s[0]) {
            LexLessTransitive(key(x), key(s[0]), key(s[j - 1]));
          }
          LexLessAsymmetric(key(x), key(s[j - 1]));
        }
      }
    } else {
      var tail := Insert(x, s[1..], key);
      InsertSorted(x, s[1..], key);
      InsertPermutes(x, s[1..], key);
      var r := [s[0]] + tail;
      forall i, j | 0 <= i < j < |r| ensures !LexLess(key(r[j]), key(r[i])) {
        if i == 0 {
          var e := tail[j - 1];
          assert e in multiset(tail);
          assert e == x || e in s[1..];
          if e != x {
            var m :| 0 <= m < |s[1..]| && s[1..][m] == e;
            assert s[m + 1] == e;
          }
        }
      }
    }
  }

  lemma WithKeyNone<T(!new)>(s: seq<T>, key: T -> string, k: string)
    requires forall i :: 0 <= i < |s| ==> key(s[i]) != k
    ensures WithKey(s, key, k) == []
  {
  }

  /** When every record has key `k`, the records with key `k` are all of them. */
  lemma {:induction false} WithKeyAll<T(!new)>(s: seq<T>, key: T -> string, k: string)
    requires forall i :: 0 <= i < |s| ==> key(s[i]) == k
    ensures WithKey(s, key, k) == s
  {
    if s != [] {
      WithKeyAll(s[1..], key, k);
    }
  }

  /** A sequence whose only distinct key is `k` has `k` as every record's key. */
  lemma SingleDistinctKey<T(!new)>(s: seq<T>, key: T -> string, k: string)
    requires DistinctKeys(s, key) == [k]
    ensures forall i :: 0 <= i < |s| ==> key(s[i]) == k
  {
    forall i | 0 <= i < |s| ensures key(s[i]) == k {
      assert key(s[i]) in DistinctKeys(s, key);
    }
  }

  /** A key below the first key of a sorted sequence occurs nowhere in it. */
  lemma BelowSortedIsAbsent<T(!new)>(s: seq<T>, key: T -> string, k: string)
    requires SortedByKey(s, key) && s != [] && LexLess(k, key(s[0]))
    ensures WithKey(s, key, k) == []
  {
    forall i | 0 <= i < |s| ensures key(s[i]) != k {
      SortedFirstIsLeast(s, key, i);
      if key(s[i]) != key(s[0]) {
        LexLessTransitive(k, key(s[0]), key(s[i]));
      }
      LexLessIrreflexive(k);
    }
    WithKeyNone(s, key, k);
  }

  lemma {:induction false} InsertStable<T(!new)>(x: T, s: seq<T>, key: T -> string, k: string)
    requires SortedByKey(s, key)
    ensures WithKey(Insert(x, s, key), key, k) == WithKey(s, key, k) + WithKey([x], key, k)
  {
    if s == [] {
    } else if LexLess(key(x), key(s[0])) {
      WithKeyAppend([x], s, key, k);
      if key(x) == k {
        BelowSortedIsAbsent(s, key, k);
      }
    } else {
      assert SortedByKey(s[1..], key);
      InsertStable(x, s[1..], key, k);
      InsertStableStep(x, s, key, k);
    }
  }

  /** Inserting past the first record keeps that record's entry ahead of the rest. */
  lemma InsertStableStep<T(!new)>(x: T, s: seq<T>, key: T -> string, k: string)
    requires s != [] && !LexLess(key(x), key(s[0]))
    requires WithKey(Insert(x, s[1..], key), key, k) == WithKey(s[1..], key, k) + WithKey([x], key, k)
    ensures WithKey(Insert(x, s, key), key, k) == WithKey(s, key, k) + WithKey([x], key, k)
  {
    var t, head := s[1..], [s[0]];
    var rest := Insert(x, t, key);
    assert Insert(x, s, key) == head + rest;
    assert s == head + t;
    WithKeyAppend(head, rest, key, k);
    WithKeyAppend(head, t, key, k);
    var a, b, c := WithKey(head, key, k), WithKey(t, key, k), WithKey([x], key, k);
    calc {
      WithKey(Insert(x, s, key), key, k);
      WithKey(head + rest, key, k);
      a + WithKey(rest, key, k);
      a + (b + c);
      { ConcatAssociative(a, b, c); }
      (a + b) + c;
      WithKey(s, key, k) + c;
    }
  }

  /**
    Stability: the records sharing any one key keep their input order, so the
    sort moves a record only past records with other keys.
   */
  lemma {:induction false} SortByKeyStable<T(!new)>(s: seq<T>, key: T -> string, k: string)
    ensures WithKey(SortByKey(s, key), key, k) == WithKey(s, key, k)
  {
    if s != [] {
      var init, last := s[..|s| - 1], s[|s| - 1];
      SortByKeyStable(init, key, k);
      InsertStable(last, SortByKey(init, key), key, k);
      assert s == init + [last];
      WithKeyAppend(init, [last], key, k);
    }
  }

  /** Sorting two records swaps them exactly when the second key is smaller. */
  lemma SortByKeyOfTwo<T(!new)>(x: T, y: T, key: T -> string)
    ensures SortByKey([x, y], key) == if LexLess(key(y), key(x)) then [y, x] else [x, y]
  {
    assert [x, y][..1] == [x];
    assert [x][..0] == [];
  }

  /** Two records with the same key give that key at least two entries. */
  lemma {:induction false} WithKeyTwo<T(!new)>(s: seq<T>, key: T -> string, i: int, j: int)
    requires 0 <= i < j < |s| && key(s[i]) == key(s[j])
    ensures |WithKey(s, key, key(s[i]))| >= 2
  {
    var k := key(s[i]);
    if i == 0 {
      assert s[j] in s[1..];
      assert s[j] in WithKey(s[1..], key, k);
    } else {
      WithKeyTwo(s[1..], key, i - 1, j - 1);
    }
  }

  /** Distinct keys give every key at most one entry. */
  lemma {:induction false} WithKeyAtMostOne<T(!new)>(s: seq<T>, key: T -> string, k: string)
    requires forall i, j :: 0 <= i < j < |s| ==> key(s[i]) != key(s[j])
    ensures |WithKey(s, key, k)| <= 1
  {
    if s != [] {
      WithKeyAtMostOne(s[1..], key, k);
      if key(s[0]) == k {
        forall i | 0 <= i < |s[1..]| ensures key(s[1..][i]) != k {
          assert s[1..][i] == s[i + 1];
        }
        WithKeyNone(s[1..], key, k);
      }
    }
  }

  /** Sorting records with distinct keys orders them strictly. */
  lemma SortByKeyStrict<T(!new)>(s: seq<T>, key: T -> string)
    requires forall i, j :: 0 <= i < j < |s| ==> key(s[i]) != key(s[j])
    ensures StrictlyAscending(SortByKey(s, key), key)
  {
    var r := SortByKey(s, key);
    forall i, j | 0 <= i < j < |r| ensures LexLess(key(r[i]), key(r[j])) {
      if key(r[i]) == key(r[j]) {
        WithKeyTwo(r, key, i, j);
        SortByKeyStable(s, key, key(r[i]));
        WithKeyAtMostOne(s, key, key(r[i]));
      }
      LexLessTotal(key(r[i]), key(r[j]));
    }
  }

  /** How many records the groups of `keys` hold together. */
  function GroupSizes<T(!new)>(keys: seq<string>, s: seq<T>, key: T -> string): nat {
    if keys == [] then 0 else |WithKey(s, key, keys[0])| + GroupSizes(keys[1..], s, key)
  }

  /** How often `k` occurs in `keys`. */
  function Occurrences(keys: seq<string>, k: string): (n: nat)
    ensures n <= |keys|
    ensures n == 0 <==> k !in keys
  {
    if keys == [] then 0 else (if keys[0] == k then 1 else 0) + Occurrences(keys[1..], k)
  }

  lemma {:induction false} OccurrencesOfDistinct(keys: seq<string>, k: string)
    requires forall i, j :: 0 <= i < j < |keys| ==> keys[i] != keys[j]
    requires k in keys
    ensures Occurrences(keys, k) == 1
  {
    if keys[0] != k {
      OccurrencesOfDistinct(keys[1..], k);
    }
  }

  lemma {:induction false} GroupSizesEmpty<T(!new)>(keys: seq<string>, key: T -> string)
    ensures GroupSizes(keys, [], key) == 0
  {
    if keys != [] {
      GroupSizesEmpty(keys[1..], key);
    }
  }

  lemma {:induction false} GroupSizesCons<T(!new)>(keys: seq<string>, x: T, t: seq<T>, key: T -> string)
    ensures GroupSizes(keys, [x] + t, key) == GroupSizes(keys, t, key) + Occurrences(keys, key(x))
  {
    if keys != [] {
      GroupSizesCons(keys[1..], x, t, key);
      assert ([x] + t)[1..] == t;
    }
  }

  /**
    Grouping loses and duplicates nothing: when every record's key occurs
    exactly once among `keys`, the groups of `keys` hold all the records
    between them.
   */
  lemma {:induction false} GroupSizesPartition<T(!new)>(keys: seq<string>, s: seq<T>, key: T -> string)
    requires forall i, j :: 0 <= i < j < |keys| ==> keys[i] != keys[j]
    requires forall x :: x in s ==> key(x) in keys
    ensures GroupSizes(keys, s, key) == |s|
  {
    if s == [] {
      GroupSizesEmpty(keys, key);
    } else {
      var x, t := s[0], s[1..];
      assert s == [x] + t;
      GroupSizesPartition(keys, t, key);
      GroupSizesCons(keys, x, t, key);
      OccurrencesOfDistinct(keys, key(x));
    }
  }
}
