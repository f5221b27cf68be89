/** The order Python uses on strings: code point by code point, a proper prefix first. */
module Lexicographic {

  predicate Lt(a: string, b: string) {
    if b == "" then false
    else if a == "" then true
    else a[0] < b[0] || (a[0] == b[0] && Lt(a[1..], b[1..]))
  }

  predicate Le(a: string, b: string) {
    a == b || Lt(a, b)
  }

  /** `a` is a proper prefix of `b`, or smaller at the first position where they differ. */
  lemma {:induction false} LtIff(a: string, b: string)
    ensures Lt(a, b) <==> a < b || exists k: nat :: DiffersAt(a, b, k) && a[k] < b[k]
  {
    if a != "" && b != "" {
      LtIff(a[1..], b[1..]);
      if a[0] == b[0] {
        forall k: nat ensures DiffersAt(a, b, k + 1) <==> DiffersAt(a[1..], b[1..], k) {
          assert k < |a| && k < |b| ==> a[..k + 1] == [a[0]] + a[1..][..k] && b[..k + 1] == [b[0]] + b[1..][..k];
        }
        if k: nat :| DiffersAt(a[1..], b[1..], k) && a[1..][k] < b[1..][k] {
          assert DiffersAt(a, b, k + 1);
        }
        if k: nat :| DiffersAt(a, b, k) && a[k] < b[k] {
          assert DiffersAt(a, b, k - 1 + 1);
        }
      } else {
        assert DiffersAt(a, b, 0);
      }
    }
  }

  /** The strings are equal up to the position, and differ there. */
  predicate DiffersAt(a: string, b: string, k: nat) {
    k < |a| && k < |b| && a[..k] == b[..k] && a[k] != b[k]
  }

  lemma {:induction false} LtTransitive(a: string, b: string, c: string)
    requires Lt(a, b) && Lt(b, c)
    ensures Lt(a, c)
  {
    if a != "" && a[0] == b[0] == c[0] {
      LtTransitive(a[1..], b[1..], c[1..]);
    }
  }

  /** Of two strings, exactly one of "smaller", "equal" and "larger" holds. */
  lemma {:induction false} LtTrichotomy(a: string, b: string)
    ensures Lt(a, b) || a == b || Lt(b, a)
    ensures !(Lt(a, b) && Lt(b, a))
    ensures !Lt(a, a)
  {
    if a != "" && b != "" {
      LtTrichotomy(a[1..], b[1..]);
      if a[0] == b[0] && a[1..] == b[1..] {
        assert a == [a[0]] + a[1..];
        assert b == [b[0]] + b[1..];
      }
    } 
    LtIrreflexive(a);
  }

  lemma {:induction false} LtIrreflexive(a: string)
    ensures !Lt(a, a)
  {
    if a != "" {
      LtIrreflexive(a[1..]);
    }
  }

  lemma LeTransitive(a: string, b: string, c: string)
    requires Le(a, b) && Le(b, c)
    ensures Le(a, c)
  {
    if Lt(a, b) && Lt(b, c) {
      LtTransitive(a, b, c);
    }
  }

  /** A shared prefix does not change the order. */
  lemma {:induction false} CommonPrefix(p: string, a: string, b: string)
    ensures Lt(p + a, p + b) <==> Lt(a, b)
  {
    if p == "" {
      assert p + a == a && p + b == b;
    } else {
      assert (p + a)[1..] == p[1..] + a;
      assert (p + b)[1..] == p[1..] + b;
      CommonPrefix(p[1..], a, b);
    }
  }

  /** Two strings that first differ at position `k` are ordered by the characters there. */
  lemma {:induction false} FirstDifference(a: string, b: string, k: nat)
    requires k < |a| && k < |b| && a[..k] == b[..k] && a[k] < b[k]
    ensures Lt(a, b)
  {
    if k > 0 {
      assert a[0] == a[..k][0] && b[0] == b[..k][0];
      assert a[1..][..k - 1] == a[..k][1..] && b[1..][..k - 1] == b[..k][1..];
      FirstDifference(a[1..], b[1..], k - 1);
    }
  }
}
