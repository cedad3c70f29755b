/** Facts about sequences that several components need: repetition, permutations, places. */
module Sequences {
  ghost predicate Distinct<T>(s: seq<T>) {
    forall i, j :: 0 <= i < j < |s| ==> s[i] != s[j]
  }

  lemma Twice<T>(s: seq<T>, i: nat, j: nat)
    requires i < j < |s| && s[i] == s[j]
    ensures multiset(s)[s[i]] >= 2
  {
    assert s == s[..j] + s[j..];
    assert s[i] == s[..j][i] && s[j] == s[j..][0];
  }

  lemma {:induction false} AtMostOnce<T>(s: seq<T>, x: T)
    requires Distinct(s)
    ensures multiset(s)[x] <= 1
  {
    if s != [] {
      AtMostOnce(s[1..], x);
      assert s == [s[0]] + s[1..];
      assert forall j :: 0 <= j < |s[1..]| ==> s[1..][j] == s[j + 1];
    }
  }

  /** A permutation repeats an element only if the original does, and has every one of them. */
  lemma PermutationOfDistinct<T>(s: seq<T>, t: seq<T>)
    requires Distinct(s) && multiset(t) == multiset(s)
    ensures Distinct(t)
    ensures forall i :: 0 <= i < |s| ==> s[i] in t
    ensures forall i :: 0 <= i < |t| ==> t[i] in s
  {
    forall i, j | 0 <= i < j < |t| ensures t[i] != t[j] {
      AtMostOnce(s, t[i]);
      if t[i] == t[j] { Twice(t, i, j); }
    }
    forall i | 0 <= i < |s| ensures s[i] in t { assert s[i] in multiset(s); }
    forall i | 0 <= i < |t| ensures t[i] in s { assert t[i] in multiset(t); }
  }

  /** The first place of an element. */
  function IndexIn<T(==)>(s: seq<T>, x: T): (i: nat)
    ensures i <= |s| && (x in s ==> i < |s| && s[i] == x)
  {
    if s == [] || s[0] == x then 0 else 1 + IndexIn(s[1..], x)
  }

  lemma IndexInDistinct<T>(s: seq<T>, i: nat)
    requires Distinct(s) && i < |s|
    ensures IndexIn(s, s[i]) == i
  {
    var j := IndexIn(s, s[i]);
    assert s[i] in s && s[j] == s[i];
  }

  /** Distinct elements of another sequence are no more than that has. */
  lemma {:induction false} NoMoreThan<T>(a: seq<T>, b: seq<T>)
    requires Distinct(a) && forall x :: x in a ==> x in b
    ensures |a| <= |b|
  {
    if a != [] {
      assert a[0] in a;
      var j :| 0 <= j < |b| && b[j] == a[0];
      var rest := b[..j] + b[j + 1..];
      forall y | y in a[1..] ensures y in rest {
        var i :| 0 <= i < |a[1..]| && a[1..][i] == y;
        assert a[i + 1] == y && y in b;
        var k :| 0 <= k < |b| && b[k] == y;
        assert k != j;
        assert rest[if k < j then k else k - 1] == y;
      }
      NoMoreThan(a[1..], rest);
    }
  }

  /** Two sequences of distinct elements with the same members are permutations of each other. */
  lemma SameMembers<T>(a: seq<T>, b: seq<T>)
    requires Distinct(a) && Distinct(b) && forall x :: x in a <==> x in b
    ensures multiset(a) == multiset(b)
  {
    forall x ensures multiset(a)[x] == multiset(b)[x] {
      AtMostOnce(a, x);
      AtMostOnce(b, x);
      assert x in multiset(a) <==> x in a;
      assert x in multiset(b) <==> x in b;
    }
  }

  lemma TakeOut<T>(a: seq<T>, b: seq<T>) returns (j: nat)
    requires multiset(a) == multiset(b) && a != []
    ensures j < |b| && b[j] == a[0] && multiset(a[1..]) == multiset(b[..j] + b[j + 1..])
  {
    assert a == [a[0]] + a[1..] && a[0] in multiset(b);
    j :| j < |b| && b[j] == a[0];
    assert b == b[..j] + ([b[j]] + b[j + 1..]);
    assert multiset(b) == multiset(b[..j]) + (multiset{b[j]} + multiset(b[j + 1..]));
    assert multiset(a) - multiset{a[0]} == multiset(a[1..]);
  }

  lemma MiddleOut<T>(a: seq<T>, b: seq<T>, c: seq<T>)
    ensures multiset(a + (b + c)) == multiset(b) + multiset(a + c)
  {
  }
}
