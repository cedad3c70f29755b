/** Prefix ranges in path order: `Archive::findByPath` (src/archive.cpp). */
module FindByPath {
  import opened Bytes
  import opened DirentLookup
  import ND = NarrowDown

  const SLASH: byte := 47
  const CONTENT_NS: byte := 67 // 'C'

  datatype LongPath = LongPath(ns: byte, path: Str) | CannotParse

  /** `parseLongPath` (src/tools.cpp): an optional '/', the namespace, then '/' and the path. */
  function ParseLongPath(longPath: Str): LongPath {
    var i := if longPath != [] && longPath[0] == SLASH then 1 else 0;
    if i + 1 > |longPath| || longPath[i] == SLASH || (i + 1 < |longPath| && longPath[i + 1] != SLASH)
    then CannotParse
    else LongPath(longPath[i], if i + 2 <= |longPath| then longPath[i + 2..] else [])
  }

  /** A '/' or none, the namespace, and nothing or a '/' and the url. */
  predicate Spelling(path: Str, ns: byte, url: Str) {
    ns != SLASH && (path == [ns, SLASH] + url || path == [SLASH, ns, SLASH] + url
                    || (url == [] && (path == [ns] || path == [SLASH, ns])))
  }

  /** A long path is a namespace that is no '/', with or without a '/' before it, and then nothing or
      a '/' and the url; every other string is refused. */
  lemma ParsesIff(longPath: Str, ns: byte, url: Str)
    ensures ParseLongPath(longPath) == LongPath(ns, url) <==> Spelling(longPath, ns, url)
  {
    if ParseLongPath(longPath) == LongPath(ns, url) {
      var i := if longPath[0] == SLASH then 1 else 0;
      if i + 1 < |longPath| {
        assert longPath == longPath[..i + 2] + url;
        assert longPath[..i + 2] == if i == 0 then [ns, SLASH] else [SLASH, ns, SLASH];
      } else {
        assert longPath == if i == 0 then [ns] else [SLASH, ns];
      }
    }
    if longPath == [ns, SLASH] + url { assert longPath[2..] == url; }
    if longPath == [SLASH, ns, SLASH] + url { assert longPath[3..] == url; }
  }

  // ---------------------------------------------------------------- strings with a given prefix

  /** `p.back()++` on a char: the last byte wraps from 0xff to 0. */
  function BumpLast(p: Str): (r: Str)
    requires p != []
    ensures |r| == |p|
  {
    var last: int := p[|p| - 1];
    p[..|p| - 1] + [(last + 1) % 256]
  }

  /** When the last byte does not wrap, the strings with prefix `p` are exactly those from `p` up
      to, but not including, `p` with its last byte bumped. */
  lemma {:induction false} PrefixInterval(p: Str, s: Str)
    requires p != [] && p[|p| - 1] != 255
    ensures p <= s <==> Leq(p, s) && Lt(s, BumpLast(p))
  {
    var b := BumpLast(p);
    if |p| == 1 {
      assert p == [p[0]] && b == [b[0]] && p[1..] == [] && b[1..] == [];
      if s != [] {
        assert Leq([], s[1..]);
        assert s[0] == p[0] ==> p <= s by { assert s[..1] == [s[0]]; }
        assert Leq(p, s) <==> p[0] <= s[0];
        LtSingleton(s, b[0]);
      }
    } else if s != [] && s[0] == p[0] {
      PrefixInterval(p[1..], s[1..]);
      assert BumpLast(p)[1..] == BumpLast(p[1..]);
      assert p <= s <==> p[1..] <= s[1..] by {
        assert p == [p[0]] + p[1..] && s == [s[0]] + s[1..];
        if p[1..] <= s[1..] { assert s[1..][..|p| - 1] == s[..|p|][1..]; }
        if p <= s { assert s[..|p|][1..] == s[1..][..|p| - 1]; }
      }
    }
  }

  /** When it wraps, the bumped prefix is below the prefix itself. */
  lemma {:induction false} WrapIsBelow(p: Str)
    requires p != [] && p[|p| - 1] == 255
    ensures Lt(BumpLast(p), p)
  {
    if |p| == 1 {
      assert BumpLast(p) == [0];
      assert p[0] == 255;
    } else {
      WrapIsBelow(p[1..]);
      assert BumpLast(p)[1..] == BumpLast(p[1..]) && BumpLast(p)[0] == p[0];
    }
  }

  // ---------------------------------------------------------------- the promised range

  /** The namespace and url prefix that a path stands for, or nothing. */
  datatype Query = WholeArchive | Prefix(ns: byte, url: Str) | NoQuery

  function QueryOf(path: Str, newNamespaceScheme: bool): Query {
    if path == [] || path == [SLASH] then
      if newNamespaceScheme then Prefix(CONTENT_NS, []) else WholeArchive
    else if newNamespaceScheme then Prefix(CONTENT_NS, path)
    else match ParseLongPath(path)
      case LongPath(ns, url) => Prefix(ns, url)
      case CannotParse => NoQuery
  }

  /** The entries that a search is for: in the new scheme those of namespace 'C' whose url begins with
      the path, "" and "/" standing for all of them; in the old one those whose namespace and a prefix of
      whose url the long path spells, "" and "/" standing for the whole archive. */
  lemma QueryMeans(path: Str, d: DirentKey)
    ensures Matches(d, QueryOf(path, true)) <==> d.ns == 67 && (path == [SLASH] || path <= d.url)
    ensures Matches(d, QueryOf(path, false)) <==> path == [] || path == [SLASH] || Spells(path, d)
  {
    if Matches(d, QueryOf(path, false)) && path != [] && path != [SLASH] {
      var url := ParseLongPath(path).path;
      ParsesIff(path, d.ns, url);
      assert d.url[..|url|] == url;
      assert Spelling(path, d.ns, d.url[..|url|]);
    }
    if Spells(path, d) && path != [] && path != [SLASH] {
      var n :| 0 <= n <= |d.url| && Spelling(path, d.ns, d.url[..n]);
      ParsesIff(path, d.ns, d.url[..n]);
    }
  }

  predicate Spells(path: Str, d: DirentKey) {
    exists n :: 0 <= n <= |d.url| && Spelling(path, d.ns, d.url[..n])
  }

  predicate Matches(d: DirentKey, q: Query) {
    match q
    case WholeArchive => true
    case Prefix(ns, url) => d.ns == ns && url <= d.url
    case NoQuery => false
  }

  /** The range holds exactly the entries that match. */
  ghost predicate ExactRange(table: seq<DirentKey>, q: Query, begin: nat, end: nat) {
    && begin <= end <= |table|
    && forall i :: 0 <= i < |table| ==> (begin <= i < end <==> Matches(table[i], q))
  }

  /** Where the two lookups of `findByPath` land: at `ns + url`, and at that key with its last byte
      bumped (the namespace itself when the url is empty). */
  function PrefixRange(table: seq<DirentKey>, ns: byte, url: Str): (int, int) {
    var keys, p := LongKeys(table), LongKey(DirentKey(ns, url));
    (CountBelow(keys, p), CountBelow(keys, BumpLast(p)))
  }

  lemma BumpLongKey(ns: byte, url: Str)
    requires ns < 127
    ensures BumpLast(LongKey(DirentKey(ns, url))) ==
            LongKey(if url == [] then DirentKey(ns + 1, []) else DirentKey(ns, BumpLast(url)))
  {
    if url != [] {
      assert ([ns] + url)[..|url|] == [ns] + url[..|url| - 1];
    } else {
      assert ([ns] + url)[..0] == [];
    }
  }

  lemma LongKeyPrefix(d: DirentKey, ns: byte, url: Str)
    ensures LongKey(DirentKey(ns, url)) <= LongKey(d) <==> d.ns == ns && url <= d.url
  {
    var p, k := LongKey(DirentKey(ns, url)), LongKey(d);
    if p <= k {
      assert p[0] == k[..|p|][0] && url == p[1..] == k[..|p|][1..] == d.url[..|url|];
    }
    if d.ns == ns && url <= d.url {
      assert p == k[..|p|];
    }
  }

  lemma PrefixRangeIsExact(table: seq<DirentKey>, ns: byte, url: Str)
    requires GoodTable(table) && ns < 127 && (url != [] ==> url[|url| - 1] != 255)
    ensures var (b, e) := PrefixRange(table, ns, url); ExactRange(table, Prefix(ns, url), b, e)
  {
    var keys, p := LongKeys(table), LongKey(DirentKey(ns, url));
    var (b, e) := PrefixRange(table, ns, url);
    CountBelowSplits(keys, p);
    CountBelowSplits(keys, BumpLast(p));
    forall i | 0 <= i < |table| ensures b <= i < e <==> Matches(table[i], Prefix(ns, url)) {
      PrefixInterval(p, keys[i]);
      LongKeyPrefix(table[i], ns, url);
    }
    BumpIsAbove(p);
    CountBelowMonotone(keys, p, BumpLast(p));
  }

  lemma BumpIsAbove(p: Str)
    requires p != [] && p[|p| - 1] != 255
    ensures Leq(p, BumpLast(p))
  {
    PrefixInterval(p, p);
    LtIsLeq(p, BumpLast(p));
  }

  lemma {:induction false} CountBelowMonotone(keys: seq<Str>, p: Str, q: Str)
    requires Leq(p, q)
    ensures CountBelow(keys, p) <= CountBelow(keys, q)
  {
    if keys != [] && Lt(keys[0], p) {
      LtLeqTrans(keys[0], p, q);
      CountBelowMonotone(keys[1..], p, q);
    }
  }

  /** An url that ends in 0xff: an archive that holds just that entry is answered wrongly. */
  lemma WrappedPrefixMisses(ns: byte, url: Str)
    requires 1 <= ns < 127 && url != [] && url[|url| - 1] == 255 && NoNul(url)
    ensures var table := [DirentKey(ns, url)];
            var (b, e) := PrefixRange(table, ns, url);
            StrictTable(table) && Matches(table[0], Prefix(ns, url)) && !(b <= 0 < e)
  {
    var table := [DirentKey(ns, url)];
    var p := LongKey(table[0]);
    LeqRefl(p);
    assert LongKeys(table) == [p];
    WrapIsBelow(p);
    LtIsLeq(BumpLast(p), p);
  }

  /** `findByPath` answers a prefix exactly in every archive if and only if the url does not end in
      byte 0xff, the one that `back()++` wraps. */
  lemma PrefixRangeExactIff(ns: byte, url: Str)
    requires 1 <= ns < 127 && NoNul(url)
    ensures (forall table: seq<DirentKey> :: StrictTable(table) ==>
               var (b, e) := PrefixRange(table, ns, url); ExactRange(table, Prefix(ns, url), b, e))
            <==> (url == [] || url[|url| - 1] != 255)
  {
    if url == [] || url[|url| - 1] != 255 {
      forall table: seq<DirentKey> | StrictTable(table)
        ensures var (b, e) := PrefixRange(table, ns, url); ExactRange(table, Prefix(ns, url), b, e)
      {
        PrefixRangeIsExact(table, ns, url);
      }
    } else {
      WrappedPrefixMisses(ns, url);
      var table := [DirentKey(ns, url)];
      assert StrictTable(table);
      var (b, e) := PrefixRange(table, ns, url);
      assert !ExactRange(table, Prefix(ns, url), b, e);
    }
  }

  // ---------------------------------------------------------------- the method

  method FindPrefix(lookup: DirentLookup, ns: byte, path: Str) returns (begin: nat, end: nat)
    requires lookup.Valid() && ns < 127
    ensures StrictTable(lookup.impl) ==> (begin as int, end as int) == PrefixRange(lookup.impl, ns, path)
  {
    var found;
    found, begin := lookup.Find(ns, path);
    BumpLongKey(ns, path);
    if path == [] {
      found, end := lookup.Find(ns + 1, path);
    } else {
      var bumped := BumpLast(path);
      found, end := lookup.Find(ns, bumped);
    }
  }

  /** The whole of `findByPath`, with `[startUserEntry, endUserEntry)` as the archive computed it when
      it was opened. */
  method FindByPath(lookup: DirentLookup, path: Str, newNamespaceScheme: bool, startUserEntry: nat, endUserEntry: nat)
    returns (begin: nat, end: nat)
    requires lookup.Valid() && StrictTable(lookup.impl)
    requires if newNamespaceScheme
             then startUserEntry == CountBelow(LongKeys(lookup.impl), [CONTENT_NS]) &&
                  endUserEntry == CountBelow(LongKeys(lookup.impl), [CONTENT_NS + 1])
             else startUserEntry == 0 && endUserEntry == |lookup.impl|
    requires !newNamespaceScheme && ParseLongPath(path).LongPath? ==> ParseLongPath(path).ns < 127
    ensures match QueryOf(path, newNamespaceScheme)
            case WholeArchive => begin == 0 && end == |lookup.impl|
            case NoQuery => begin == 0 && end == 0
            case Prefix(ns, url) => (begin as int, end as int) == PrefixRange(lookup.impl, ns, url)
    ensures (path == [] || path[|path| - 1] != 255) ==>
            ExactRange(lookup.impl, QueryOf(path, newNamespaceScheme), begin, end)
  {
    if path == [] || path == [SLASH] {
      begin, end := startUserEntry, endUserEntry;
      assert LongKey(DirentKey(CONTENT_NS, [])) == [CONTENT_NS];
      BumpLongKey(CONTENT_NS, []);
      assert LongKey(DirentKey(CONTENT_NS + 1, [])) == [CONTENT_NS + 1];
      PrefixRangeIsExact(lookup.impl, CONTENT_NS, []);
    } else if newNamespaceScheme {
      begin, end := FindPrefix(lookup, CONTENT_NS, path);
      if path[|path| - 1] != 255 { PrefixRangeIsExact(lookup.impl, CONTENT_NS, path); }
    } else {
      match ParseLongPath(path) {
        case CannotParse => begin, end := 0, 0;
        case LongPath(ns, url) =>
          begin, end := FindPrefix(lookup, ns, url);
          if path[|path| - 1] != 255 { PrefixRangeIsExact(lookup.impl, ns, url); }
      }
    }
  }
}
