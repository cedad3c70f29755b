/** `std::sort` with a comparison of string keys: the creator sorts its MIME types and its titles. */
module Sorting {
  import opened Bytes

  ghost predicate SortedBy<T>(s: seq<T>, key: T -> Str) {
    forall i, j :: 0 <= i < j < |s| ==> Leq(key(s[i]), key(s[j]))
  }

  function Insert<T>(x: T, s: seq<T>, key: T -> Str): seq<T> {
    if s == [] || Leq(key(x), key(s[0])) then [x] + s else [s[0]] + Insert(x, s[1..], key)
  }

  function Sort<T>(s: seq<T>, key: T -> Str): seq<T> {
    if s == [] then [] else Insert(s[0], Sort(s[1..], key), key)
  }

  lemma {:induction false} InsertSorts<T>(x: T, s: seq<T>, key: T -> Str)
    requires SortedBy(s, key)
    ensures SortedBy(Insert(x, s, key), key) && multiset(Insert(x, s, key)) == multiset(s) + multiset{x}
  {
    var r := Insert(x, s, key);
    if s == [] || Leq(key(x), key(s[0])) {
      forall j | 0 < j < |r| ensures Leq(key(x), key(r[j])) {
        if j > 1 { LeqTrans(key(x), key(s[0]), key(s[j - 1])); }
      }
    } else {
      var rest := Insert(x, s[1..], key);
      InsertSorts(x, s[1..], key);
      LeqTotal(key(x), key(s[0]));
      assert s == [s[0]] + s[1..];
      forall j | 0 < j < |r| ensures Leq(key(s[0]), key(r[j])) {
        assert r[j] == rest[j - 1];
        assert r[j] in multiset(rest);
        if r[j] != x { assert r[j] in s[1..]; }
      }
    }
  }

  /** The result is a permutation of the input, in ascending order of the keys. */
  lemma {:induction false} SortSorts<T>(s: seq<T>, key: T -> Str)
    ensures SortedBy(Sort(s, key), key) && multiset(Sort(s, key)) == multiset(s)
    ensures |Sort(s, key)| == |s|
  {
    if s != [] {
      SortSorts(s[1..], key);
      InsertSorts(s[0], Sort(s[1..], key), key);
      assert s == [s[0]] + s[1..];
    }
    assert |multiset(Sort(s, key))| == |multiset(s)|;
  }
}
