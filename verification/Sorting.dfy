/** Python's sort of a list by a string key: stable, ascending. */
module Sorting {
  import opened Lexicographic

  /** `x` put behind every element whose key is not larger. */
  function Insert<T>(x: T, s: seq<T>, key: T -> string): seq<T> {
    if s == [] then [x]
    else if Lt(key(x), key(s[0])) then [x] + s
    else [s[0]] + Insert(x, s[1..], key)
  }

  function StableSort<T>(s: seq<T>, key: T -> string): seq<T> {
    if s == [] then [] else Insert(s[|s| - 1], StableSort(s[..|s| - 1], key), key)
  }

  ghost predicate Sorted<T>(s: seq<T>, key: T -> string) {
    forall i, j :: 0 <= i < j < |s| ==> Le(key(s[i]), key(s[j]))
  }

  lemma {:induction false} InsertContents<T>(x: T, s: seq<T>, key: T -> string)
    ensures multiset(Insert(x, s, key)) == multiset(s) + multiset{x}
  {
    if s != [] {
      assert s == [s[0]] + s[1..];
      InsertContents(x, s[1..], key);
    }
  }

  lemma {:induction false} InsertSorted<T>(x: T, s: seq<T>, key: T -> string)
    requires Sorted(s, key)
    ensures Sorted(Insert(x, s, key), key)
  {
    if s == [] {
    } else if Lt(key(x), key(s[0])) {
      forall j | 0 <= j < |s| ensures Le(key(x), key(s[j])) {
        LeTransitive(key(x), key(s[0]), key(s[j]));
      }
    } else {
      var rest := Insert(x, s[1..], key);
      InsertSorted(x, s[1..], key);
      InsertContents(x, s[1..], key);
      forall j | 0 <= j < |rest| ensures Le(key(s[0]), key(rest[j])) {
        assert rest[j] in multiset(rest);
        if rest[j] == x {
          LtTrichotomy(key(s[0]), key(x));
        } else {
          assert rest[j] in s[1..];
        }
      }
    }
  }

  lemma {:induction false} StableSortCorrect<T>(s: seq<T>, key: T -> string)
    ensures Sorted(StableSort(s, key), key)
    ensures multiset(StableSort(s, key)) == multiset(s)
  {
    if s != [] {
      var init, last := s[..|s| - 1], s[|s| - 1];
      StableSortCorrect(init, key);
      InsertSorted(last, StableSort(init, key), key);
      InsertContents(last, StableSort(init, key), key);
      assert s == init + [last];
    }
  }

  /** The elements with one key, in order. */
  function WithKey<T>(s: seq<T>, key: T -> string, k: string): seq<T> {
    if s == [] then [] else WithKey(s[..|s| - 1], key, k) + (if key(s[|s| - 1]) == k then [s[|s| - 1]] else [])
  }

  lemma {:induction false} WithKeyConcat<T>(a: seq<T>, b: seq<T>, key: T -> string, k: string)
    ensures WithKey(a + b, key, k) == WithKey(a, key, k) + WithKey(b, key, k)
  {
    if b == [] {
      assert a + b == a;
    } else {
      var n := |b| - 1;
      assert (a + b)[..|a + b| - 1] == a + b[..n];
      WithKeyConcat(a, b[..n], key, k);
    }
  }

  lemma {:induction false} NoneWithKey<T>(s: seq<T>, key: T -> string, k: string)
    requires forall i :: 0 <= i < |s| ==> key(s[i]) != k
    ensures WithKey(s, key, k) == []
  {
    if s != [] {
      NoneWithKey(s[..|s| - 1], key, k);
    }
  }

  lemma WithKeyCons<T>(x: T, s: seq<T>, key: T -> string, k: string)
    ensures WithKey([x] + s, key, k) == (if key(x) == k then [x] else []) + WithKey(s, key, k)
  {
    assert [x][..0] == [];
    WithKeyConcat([x], s, key, k);
  }

  lemma NoneBehind<T>(s: seq<T>, key: T -> string, k: string)
    requires Sorted(s, key) && s != [] && Lt(k, key(s[0]))
    ensures WithKey(s, key, k) == []
  {
    LtTrichotomy(k, key(s[0]));
    forall i | 0 <= i < |s| ensures key(s[i]) != k {
      if i > 0 {
        assert Le(key(s[0]), key(s[i]));
      }
    }
    NoneWithKey(s, key, k);
  }

  lemma {:induction false} InsertStable<T>(x: T, s: seq<T>, key: T -> string, k: string)
    requires Sorted(s, key)
    ensures WithKey(Insert(x, s, key), key, k) == WithKey(s, key, k) + (if key(x) == k then [x] else [])
  {
    if s == [] {
      WithKeyCons(x, [], key, k);
      assert [x] + [] == [x];
    } else if Lt(key(x), key(s[0])) {
      WithKeyCons(x, s, key, k);
      if key(x) == k {
        NoneBehind(s, key, k);
      }
    } else {
      var rest := s[1..];
      InsertStable(x, rest, key, k);
      WithKeyCons(s[0], Insert(x, rest, key), key, k);
      WithKeyCons(s[0], rest, key, k);
      assert s == [s[0]] + rest;
      ConcatAssociates(if key(s[0]) == k then [s[0]] else [], WithKey(rest, key, k), if key(x) == k then [x] else []);
    }
  }

  lemma ConcatAssociates<T>(a: seq<T>, b: seq<T>, c: seq<T>)
    ensures a + (b + c) == a + b + c
  {
  }

  /** Elements with equal keys stay in the order in which they came. */
  lemma {:induction false} SortIsStable<T>(s: seq<T>, key: T -> string, k: string)
    ensures WithKey(StableSort(s, key), key, k) == WithKey(s, key, k)
  {
    if s != [] {
      SortIsStable(s[..|s| - 1], key, k);
      StableSortCorrect(s[..|s| - 1], key);
      InsertStable(s[|s| - 1], StableSort(s[..|s| - 1], key), key, k);
    }
  }

  /** A key that tells the elements apart leaves one sorted arrangement of them. */
  lemma {:induction false} SortedUnique<T>(a: seq<T>, b: seq<T>, key: T -> string)
    requires Sorted(a, key) && Sorted(b, key)
    requires multiset(a) == multiset(b)
    requires forall x, y :: x in multiset(a) && y in multiset(a) && key(x) == key(y) ==> x == y
    ensures a == b
  {
    assert |multiset(a)| == |a| && |multiset(b)| == |b|;
    if a != [] {
      SameHead(a, b, key);
      WithoutHead(a);
      WithoutHead(b);
      SortedUnique(a[1..], b[1..], key);
    }
  }

  lemma WithoutHead<T>(s: seq<T>)
    requires s != []
    ensures s == [s[0]] + s[1..] && multiset(s[1..]) == multiset(s) - multiset{s[0]}
  {
    assert s == [s[0]] + s[1..];
  }

  lemma SameHead<T>(a: seq<T>, b: seq<T>, key: T -> string)
    requires Sorted(a, key) && Sorted(b, key)
    requires multiset(a) == multiset(b) && a != [] && b != []
    requires forall x, y :: x in multiset(a) && y in multiset(a) && key(x) == key(y) ==> x == y
    ensures a[0] == b[0]
  {
    assert a[0] in multiset(b) && b[0] in multiset(a);
    var i :| 0 <= i < |a| && a[i] == b[0];
    var j :| 0 <= j < |b| && b[j] == a[0];
    LtTrichotomy(key(a[0]), key(b[0]));
  }

  /******* Rearranged lists *******/

  function Map<T, U>(f: T -> U, s: seq<T>): (r: seq<U>)
    ensures |r| == |s| && forall i :: 0 <= i < |s| ==> r[i] == f(s[i])
  {
    if s == [] then [] else [f(s[0])] + Map(f, s[1..])
  }

  lemma {:induction false} MapConcat<T, U>(f: T -> U, a: seq<T>, b: seq<T>)
    ensures Map(f, a + b) == Map(f, a) + Map(f, b)
  {
    if a == [] {
      assert a + b == b;
    } else {
      assert (a + b)[1..] == a[1..] + b;
      MapConcat(f, a[1..], b);
    }
  }

  lemma WithoutOne<T>(a: seq<T>, b: seq<T>, k: nat)
    requires multiset(a) == multiset(b) && a != [] && k < |b| && b[k] == a[0]
    ensures multiset(a[1..]) == multiset(b[..k] + b[k + 1..])
  {
    assert a == [a[0]] + a[1..];
    assert b == b[..k] + [b[k]] + b[k + 1..];
    assert multiset(b[..k] + b[k + 1..]) == multiset(b[..k]) + multiset(b[k + 1..]);
    assert multiset(a[1..]) == multiset(a) - multiset{a[0]};
  }

  lemma {:induction false} MapPermuted<T, U>(f: T -> U, a: seq<T>, b: seq<T>)
    requires multiset(a) == multiset(b)
    ensures multiset(Map(f, a)) == multiset(Map(f, b))
  {
    if a == [] {
      assert |multiset(b)| == 0;
    } else {
      assert a[0] in multiset(b);
      var k :| 0 <= k < |b| && b[k] == a[0];
      WithoutOne(a, b, k);
      MapPermuted(f, a[1..], b[..k] + b[k + 1..]);
      MapConcat(f, b[..k], b[k + 1..]);
      MapConcat(f, b[..k], b[k..]);
      assert b == b[..k] + b[k..];
    }
  }

  ghost predicate Distinct<T>(s: seq<T>) {
    forall i, j :: 0 <= i < j < |s| ==> s[i] != s[j]
  }

  lemma {:induction false} DistinctCount<T>(s: seq<T>, x: T)
    requires Distinct(s)
    ensures multiset(s)[x] == if x in s then 1 else 0
  {
    if s != [] {
      assert s == [s[0]] + s[1..];
      DistinctCount(s[1..], x);
    }
  }

  /** Two listings of the same things, without repetition, are rearrangements of each other. */
  lemma DistinctListings<T>(a: seq<T>, b: seq<T>)
    requires Distinct(a) && Distinct(b) && forall x :: x in a <==> x in b
    ensures multiset(a) == multiset(b)
  {
    forall x ensures multiset(a)[x] == multiset(b)[x] {
      DistinctCount(a, x);
      DistinctCount(b, x);
    }
  }
}
