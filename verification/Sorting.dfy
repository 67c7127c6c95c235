/** Stable sorting by a total preorder, and the order of strings by code point. */
module Sorting {
  ghost predicate TotalPreorder<T(!new)>(leq: (T, T) -> bool) {
    && (forall a, b :: leq(a, b) || leq(b, a))
    && (forall a, b, c :: leq(a, b) && leq(b, c) ==> leq(a, c))
  }

  predicate Sorted<T>(s: seq<T>, leq: (T, T) -> bool) {
    forall i, j :: 0 <= i < j < |s| ==> leq(s[i], s[j])
  }

  function Insert<T>(x: T, s: seq<T>, leq: (T, T) -> bool): (r: seq<T>)
    ensures |r| == |s| + 1
    ensures multiset(r) == multiset(s) + multiset{x}
  {
    if s == [] || leq(x, s[0]) then
      assert multiset([x] + s) == multiset{x} + multiset(s);
      [x] + s
    else
      var rest := Insert(x, s[1..], leq);
      assert s == [s[0]] + s[1..];
      [s[0]] + rest
  }

  /** `sorted(s, key=...)` where `leq` compares keys. */
  function Sort<T>(s: seq<T>, leq: (T, T) -> bool): (r: seq<T>)
    ensures |r| == |s|
    ensures multiset(r) == multiset(s)
  {
    if s == [] then []
    else
      assert s == [s[0]] + s[1..];
      Insert(s[0], Sort(s[1..], leq), leq)
  }

  lemma {:induction false} InsertSorted<T(!new)>(x: T, s: seq<T>, leq: (T, T) -> bool)
    requires TotalPreorder(leq) && Sorted(s, leq)
    ensures Sorted(Insert(x, s, leq), leq)
  {
    if s != [] && !leq(x, s[0]) {
      InsertSorted(x, s[1..], leq);
      var rest := Insert(x, s[1..], leq);
      forall y | y in rest ensures leq(s[0], y) {
        assert y in multiset(rest);
        if y != x {
          assert y in multiset(s[1..]);
          assert y in s[1..];
        }
      }
    }
  }

  lemma {:induction false} SortSorted<T(!new)>(s: seq<T>, leq: (T, T) -> bool)
    requires TotalPreorder(leq)
    ensures Sorted(Sort(s, leq), leq)
  {
    if s != [] {
      SortSorted(s[1..], leq);
      InsertSorted(s[0], Sort(s[1..], leq), leq);
    }
  }

  /** Sorting what is sorted changes nothing. */
  lemma {:induction false} SortOfSorted<T>(s: seq<T>, leq: (T, T) -> bool)
    requires Sorted(s, leq)
    ensures Sort(s, leq) == s
  {
    if s != [] {
      SortOfSorted(s[1..], leq);
      assert s == [s[0]] + s[1..];
    }
  }

  lemma SortMembers<T(!new)>(s: seq<T>, leq: (T, T) -> bool)
    ensures forall x :: x in Sort(s, leq) <==> x in s
  {
    forall x ensures x in Sort(s, leq) <==> x in s {
      assert x in multiset(Sort(s, leq)) <==> x in multiset(s);
    }
  }

  // ---------------------------------------------------------------- elements apart

  /** No two elements share a key. */
  predicate Apart<T>(s: seq<T>, same: (T, T) -> bool) {
    forall i, j :: 0 <= i < j < |s| ==> !same(s[i], s[j])
  }

  /** Elements apart stay apart in any order. */
  lemma ApartReordered<T(!new)>(s: seq<T>, t: seq<T>, same: (T, T) -> bool)
    requires forall x, y :: same(x, y) ==> same(x, x) && same(y, x)
    requires Apart(s, same) && multiset(s) == multiset(t)
    ensures Apart(t, same)
  {
    forall i, j | 0 <= i < j < |t| ensures !same(t[i], t[j]) {
      if same(t[i], t[j]) {
        assert t[i] in multiset(s) && t[j] in multiset(s);
        var p :| 0 <= p < |s| && s[p] == t[i];
        var q :| 0 <= q < |s| && s[q] == t[j];
        assert p == q;
        Twice(t, i, j);
        ApartOnce(s, same, t[i]);
      }
    }
  }

  lemma Twice<T>(s: seq<T>, i: nat, j: nat)
    requires i < j < |s| && s[i] == s[j]
    ensures multiset(s)[s[i]] >= 2
  {
    assert s == s[..j] + [s[j]] + s[j + 1..];
    assert s[..j] == s[..i] + [s[i]] + s[i + 1..j];
  }

  lemma {:induction false} ApartOnce<T>(s: seq<T>, same: (T, T) -> bool, x: T)
    requires Apart(s, same) && same(x, x)
    ensures multiset(s)[x] <= 1
  {
    if s != [] {
      assert s == [s[0]] + s[1..];
      ApartOnce(s[1..], same, x);
      if x == s[0] {
        assert x !in s[1..];
      }
    }
  }

  /** In an order that tells elements apart, a set has one sorted sequence. */
  lemma {:induction false} SortedSame<T(!new)>(s: seq<T>, t: seq<T>, leq: (T, T) -> bool)
    requires forall x, y :: x in s && y in s && leq(x, y) && leq(y, x) ==> x == y
    requires Sorted(s, leq) && Sorted(t, leq)
    requires (forall i, j :: 0 <= i < j < |s| ==> s[i] != s[j]) && (forall i, j :: 0 <= i < j < |t| ==> t[i] != t[j])
    requires forall x :: x in s <==> x in t
    ensures s == t
    decreases |s|
  {
    if s == [] {
      assert forall i :: 0 <= i < |t| ==> t[i] in t;
    } else {
      assert s[0] in s && s[0] in t;
      assert t[0] in t && t[0] in s;
      var j :| 0 <= j < |t| && t[j] == s[0];
      var i :| 0 <= i < |s| && s[i] == t[0];
      assert s[0] == t[0];
      forall x ensures x in s[1..] <==> x in t[1..] {
        assert x in s[1..] <==> x in s && x != s[0] by {
          assert s == [s[0]] + s[1..];
        }
        assert x in t[1..] <==> x in t && x != t[0] by {
          assert t == [t[0]] + t[1..];
        }
      }
      SortedSame(s[1..], t[1..], leq);
      assert s == [s[0]] + s[1..] && t == [t[0]] + t[1..];
    }
  }

  // ---------------------------------------------------------------- strings

  /** Strings in code point order. */
  predicate StringLeq(a: string, b: string) {
    a == "" || (b != "" && (a[0] < b[0] || (a[0] == b[0] && StringLeq(a[1..], b[1..]))))
  }

  lemma {:induction false} StringTotal(a: string, b: string)
    ensures StringLeq(a, b) || StringLeq(b, a)
    ensures StringLeq(a, b) && StringLeq(b, a) ==> a == b
    ensures StringLeq(a, a)
    decreases |a| + |b|
  {
    if a != "" {
      StringReflexive(a);
      if b != "" && a[0] == b[0] {
        StringTotal(a[1..], b[1..]);
        assert a == [a[0]] + a[1..] && b == [b[0]] + b[1..];
      }
    }
  }

  lemma {:induction false} StringReflexive(a: string)
    ensures StringLeq(a, a)
  {
    if a != "" {
      StringReflexive(a[1..]);
    }
  }

  /** A string comes before its extensions, and before those that have a larger character where they first differ. */
  lemma {:induction false} StringLeqExact(a: string, b: string)
    ensures StringLeq(a, b) <==>
              a <= b || exists k :: 0 <= k < |a| && k < |b| && a[..k] == b[..k] && a[k] < b[k]
  {
    if a != "" && b != "" && a[0] == b[0] {
      StringLeqExact(a[1..], b[1..]);
      assert a == [a[0]] + a[1..] && b == [b[0]] + b[1..];
      if k :| 0 <= k < |a[1..]| && k < |b[1..]| && a[1..][..k] == b[1..][..k] && a[1..][k] < b[1..][k] {
        assert a[..k + 1] == [a[0]] + a[1..][..k] && b[..k + 1] == [b[0]] + b[1..][..k];
        assert a[k + 1] < b[k + 1];
      }
      if k :| 0 <= k < |a| && k < |b| && a[..k] == b[..k] && a[k] < b[k] {
        assert a[1..][..k - 1] == a[..k][1..] && b[1..][..k - 1] == b[..k][1..];
        assert a[1..][k - 1] < b[1..][k - 1];
      }
    } else if a != "" && b != "" {
      assert a[..0] == b[..0];
      if k :| 0 <= k < |a| && k < |b| && a[..k] == b[..k] && a[k] < b[k] {
        assert k > 0 ==> a[..k][0] == b[..k][0];
      }
    }
  }

  lemma {:induction false} StringTransitive(a: string, b: string, c: string)
    requires StringLeq(a, b) && StringLeq(b, c)
    ensures StringLeq(a, c)
  {
    if a != "" && a[0] == b[0] == c[0] {
      StringTransitive(a[1..], b[1..], c[1..]);
    }
  }

  /** What lies between equal strings equals them. */
  lemma StringsBetween(a: string, b: string, c: string)
    requires StringLeq(a, b) && StringLeq(b, c)
    ensures StringLeq(a, c)
    ensures a == c ==> a == b
  {
    StringTransitive(a, b, c);
    StringTotal(a, b);
  }

  // ---------------------------------------------------------------- the order of paths

  /** (case-folded path, path), compared in turn. */
  predicate PathLeq(fold: string -> string, a: string, b: string) {
    if fold(a) != fold(b) then StringLeq(fold(a), fold(b)) else StringLeq(a, b)
  }

  function PathOrder(fold: string -> string): (string, string) -> bool {
    (a, b) => PathLeq(fold, a, b)
  }

  lemma PathsTotal(fold: string -> string)
    ensures TotalPreorder(PathOrder(fold))
  {
    hide StringLeq;
    var leq := PathOrder(fold);
    forall a, b ensures leq(a, b) || leq(b, a) {
      StringTotal(fold(a), fold(b));
      StringTotal(a, b);
    }
    forall a, b, c | leq(a, b) && leq(b, c) ensures leq(a, c) {
      StringTotal(fold(a), fold(b));
      StringTotal(fold(b), fold(c));
      StringsBetween(fold(a), fold(b), fold(c));
      if fold(a) == fold(b) == fold(c) {
        StringTransitive(a, b, c);
      }
    }
  }

  lemma PathsAntisymmetric(fold: string -> string, x: string, y: string)
    requires PathLeq(fold, x, y) && PathLeq(fold, y, x)
    ensures x == y
  {
    StringTotal(fold(x), fold(y));
    StringTotal(x, y);
  }
}
