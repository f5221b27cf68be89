/** Nested lists, and the order in which nested loops visit what they hold. */
module Flattening {

  function Concat<T>(ss: seq<seq<T>>): seq<T> {
    if ss == [] then [] else ss[0] + Concat(ss[1..])
  }

  /** How many elements the first `n` lists have together. */
  function Offset<T>(ss: seq<seq<T>>, n: nat): nat
    requires n <= |ss|
  {
    if n == 0 then 0 else Offset(ss, n - 1) + |ss[n - 1]|
  }

  lemma {:induction false} OffsetOfRest<T>(ss: seq<seq<T>>, n: nat)
    requires 0 < n <= |ss|
    ensures Offset(ss, n) == |ss[0]| + Offset(ss[1..], n - 1)
  {
    if n > 1 {
      OffsetOfRest(ss, n - 1);
    }
  }

  lemma {:induction false} OffsetGrows<T>(ss: seq<seq<T>>, m: nat, n: nat)
    requires m <= n <= |ss|
    ensures Offset(ss, m) <= Offset(ss, n)
    ensures m < n ==> Offset(ss, m) + |ss[m]| <= Offset(ss, n)
    decreases n
  {
    if m < n {
      OffsetGrows(ss, m, n - 1);
    }
  }

  lemma {:induction false} ElementAt<T>(ss: seq<seq<T>>, i: nat, k: nat)
    requires i < |ss| && k < |ss[i]|
    ensures Offset(ss, i) + k < |Concat(ss)| && Concat(ss)[Offset(ss, i) + k] == ss[i][k]
  {
    if i > 0 {
      OffsetOfRest(ss, i);
      ElementAt(ss[1..], i - 1, k);
    }
  }

  lemma {:induction false} Locate<T>(ss: seq<seq<T>>, n: nat) returns (i: nat, k: nat)
    requires n < |Concat(ss)|
    ensures i < |ss| && k < |ss[i]| && n == Offset(ss, i) + k
  {
    if n < |ss[0]| {
      i, k := 0, n;
    } else {
      i, k := Locate(ss[1..], n - |ss[0]|);
      i := i + 1;
      OffsetOfRest(ss, i);
    }
  }

  lemma {:induction false} ConcatConcat<T>(a: seq<seq<T>>, b: seq<seq<T>>)
    ensures Concat(a + b) == Concat(a) + Concat(b)
  {
    if a == [] {
      assert a + b == b;
    } else {
      assert (a + b)[1..] == a[1..] + b;
      ConcatConcat(a[1..], b);
    }
  }

  lemma ConcatSnoc<T>(ss: seq<seq<T>>, s: seq<T>)
    ensures Concat(ss + [s]) == Concat(ss) + s
  {
    ConcatConcat(ss, [s]);
    assert s + [] == s;
  }

  lemma ConcatSnoc2<T>(ss: seq<seq<seq<T>>>, s: seq<seq<T>>)
    ensures Concat(Concat(ss + [s])) == Concat(Concat(ss)) + Concat(s)
  {
    ConcatSnoc(ss, s);
    ConcatConcat(Concat(ss), s);
  }

  /******* Four levels *******/

  type Nested<T> = seq<seq<seq<seq<T>>>>

  function Flat<T>(n: Nested<T>): seq<T> {
    Concat(Concat(Concat(n)))
  }

  lemma FlatSnoc<T>(n: Nested<T>, x: seq<seq<seq<T>>>)
    ensures Flat(n + [x]) == Flat(n) + Concat(Concat(x))
  {
    ConcatSnoc2(n, x);
    ConcatConcat(Concat(Concat(n)), Concat(x));
  }

  predicate Inside<T>(n: Nested<T>, a: nat, b: nat, c: nat, d: nat) {
    a < |n| && b < |n[a]| && c < |n[a][b]| && d < |n[a][b][c]|
  }

  /** Lexicographic order of the positions. */
  predicate Before(a: nat, b: nat, c: nat, d: nat, a': nat, b': nat, c': nat, d': nat) {
    a < a' || (a == a' && (b < b' || (b == b' && (c < c' || (c == c' && d < d')))))
  }

  function Place<T>(n: Nested<T>, a: nat, b: nat, c: nat, d: nat): nat
    requires Inside(n, a, b, c, d)
  {
    ElementAt(n, a, b);
    var second := Offset(n, a) + b;
    ElementAt(Concat(n), second, c);
    var third := Offset(Concat(n), second) + c;
    Offset(Concat(Concat(n)), third) + d
  }

  lemma FlatAt<T>(n: Nested<T>, a: nat, b: nat, c: nat, d: nat)
    requires Inside(n, a, b, c, d)
    ensures Place(n, a, b, c, d) < |Flat(n)| && Flat(n)[Place(n, a, b, c, d)] == n[a][b][c][d]
  {
    ElementAt(n, a, b);
    ElementAt(Concat(n), Offset(n, a) + b, c);
    ElementAt(Concat(Concat(n)), Offset(Concat(n), Offset(n, a) + b) + c, d);
  }

  lemma FlatFrom<T>(n: Nested<T>, i: nat) returns (a: nat, b: nat, c: nat, d: nat)
    requires i < |Flat(n)|
    ensures Inside(n, a, b, c, d) && Place(n, a, b, c, d) == i
  {
    var third, second;
    third, d := Locate(Concat(Concat(n)), i);
    second, c := Locate(Concat(n), third);
    a, b := Locate(n, second);
    ElementAt(n, a, b);
    ElementAt(Concat(n), second, c);
  }

  lemma OffsetsOrdered<T>(ss: seq<seq<T>>, i: nat, k: nat, i': nat, k': nat)
    requires i < |ss| && k < |ss[i]| && i' < |ss| && k' < |ss[i']|
    requires i < i' || (i == i' && k < k')
    ensures Offset(ss, i) + k < Offset(ss, i') + k'
  {
    OffsetGrows(ss, i, i');
  }

  lemma PlacesOrdered<T>(n: Nested<T>, a: nat, b: nat, c: nat, d: nat, a': nat, b': nat, c': nat, d': nat)
    requires Inside(n, a, b, c, d) && Inside(n, a', b', c', d') && Before(a, b, c, d, a', b', c', d')
    ensures Place(n, a, b, c, d) < Place(n, a', b', c', d')
  {
    ElementAt(n, a, b);
    ElementAt(n, a', b');
    var second, second' := Offset(n, a) + b, Offset(n, a') + b';
    ElementAt(Concat(n), second, c);
    ElementAt(Concat(n), second', c');
    var third, third' := Offset(Concat(n), second) + c, Offset(Concat(n), second') + c';
    if a < a' || b < b' {
      OffsetsOrdered(n, a, b, a', b');
    }
    if a < a' || b < b' || c < c' {
      OffsetsOrdered(Concat(n), second, c, second', c');
    }
    OffsetsOrdered(Concat(Concat(n)), third, d, third', d');
  }
}
