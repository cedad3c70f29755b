/** The title listing: every entry's number, in the order of namespace and title
    (src/writer/titleListingHandler.cpp), and the search in it (src/fileimpl.cpp). */
module TitleListing {
  import opened Bytes
  import opened ClusterFormat
  import opened DirentLookup
  import opened Sequences
  import opened Sorting
  import ND = NarrowDown
  import PP = PostProcessing

  /** `compareTitle` orders by this string, with ASCII namespaces. */
  function TitleKey(d: PP.Dirent): Str {
    [d.key.ns] + d.GetTitle()
  }

  function Alive(ds: seq<PP.Dirent>): seq<PP.Dirent>
    reads ds
  {
    if ds == [] then [] else (if ds[0].removed then [] else [ds[0]]) + Alive(ds[1..])
  }

  /** What `std::sort` may leave of these dirents: the same ones, in the order of namespace and title;
      those with equal titles may stand in any order. */
  ghost predicate IsListing(listing: seq<PP.Dirent>, ds: seq<PP.Dirent>) {
    multiset(listing) == multiset(ds) && SortedBy(listing, TitleKey)
  }

  class TitleListingHandler {
    var dirents: seq<PP.Dirent>

    constructor ()
      ensures dirents == []
    {
      dirents := [];
    }

    method Handle(dirent: PP.Dirent)
      modifies this
      ensures dirents == old(dirents) + [dirent]
    {
      dirents := dirents + [dirent];
    }

    /** Drops the removed dirents and sorts the others. */
    method Stop()
      modifies this
      ensures IsListing(dirents, Alive(old(dirents)))
    {
      ghost var all := dirents;
      var kept := [];
      for i := 0 to |dirents|
        invariant dirents == all
        invariant kept + Alive(all[i..]) == Alive(all)
      {
        AliveNext(all, i, kept);
        hide Alive;
        if !dirents[i].removed { kept := kept + [dirents[i]]; }
      }
      assert kept + Alive(all[|all|..]) == kept;
      SortSorts(kept, TitleKey);
      dirents := Sort(kept, TitleKey);
    }
  }

  lemma AliveNext(ds: seq<PP.Dirent>, i: nat, kept: seq<PP.Dirent>)
    requires i < |ds|
    ensures kept + Alive(ds[i..]) == (if ds[i].removed then kept else kept + [ds[i]]) + Alive(ds[i + 1..])
  {
    assert ds[i..][1..] == ds[i + 1..];
    assert kept + ([ds[i]] + Alive(ds[i + 1..])) == (kept + [ds[i]]) + Alive(ds[i + 1..]);
  }

  lemma {:induction false} AliveAppend(a: seq<PP.Dirent>, b: seq<PP.Dirent>)
    ensures Alive(a + b) == Alive(a) + Alive(b)
  {
    if a == [] {
      assert a + b == b;
    } else {
      AliveAppend(a[1..], b);
      assert (a + b)[1..] == a[1..] + b && (a + b)[0] == a[0];
      var x, y, z := if a[0].removed then [] else [a[0]], Alive(a[1..]), Alive(b);
      assert x + (y + z) == (x + y) + z;
    }
  }

  lemma {:induction false} AliveAreKept(all: seq<PP.Dirent>, n: nat)
    requires n <= |all| && forall i :: 0 <= i < n ==> all[i].removed == PP.Dead(all, i)
    ensures Alive(all[..n]) == PP.Kept(all, n)
  {
    if n > 0 {
      AliveAreKept(all, n - 1);
      assert all[..n] == all[..n - 1] + [all[n - 1]];
      AliveAppend(all[..n - 1], [all[n - 1]]);
      assert [all[n - 1]][1..] == [];
    }
  }

  /** Once the redirects are resolved, whatever listing the sort leaves is one of the final entries: a
      permutation of them in the order of namespace and title, whatever the order in which the
      dirents were handed to the handler. */
  lemma ListingIsSortedTable(handled: seq<PP.Dirent>, all: seq<PP.Dirent>, listing: seq<PP.Dirent>)
    requires multiset(handled) == multiset(all)
    requires PP.HalfResolved(all, |all|) && IsListing(listing, Alive(handled))
    ensures IsListing(listing, PP.Kept(all, |all|))
  {
    AliveAreKept(all, |all|);
    assert all[..|all|] == all;
    SameAlive(handled, all);
  }

  lemma AliveTakeOut(b: seq<PP.Dirent>, j: nat)
    requires j < |b|
    ensures multiset(Alive(b)) == multiset(Alive([b[j]])) + multiset(Alive(b[..j] + b[j + 1..]))
  {
    hide *;
    var front, back := b[..j], b[j + 1..];
    assert b == front + ([b[j]] + back);
    AliveAppend(front, [b[j]] + back);
    AliveAppend([b[j]], back);
    AliveAppend(front, back);
    MiddleOut(Alive(front), Alive([b[j]]), Alive(back));
  }

  lemma {:induction false} SameAlive(a: seq<PP.Dirent>, b: seq<PP.Dirent>)
    requires multiset(a) == multiset(b)
    ensures multiset(Alive(a)) == multiset(Alive(b))
    decreases |a|
  {
    if a == [] {
      assert |multiset(b)| == 0;
    } else {
      var j := TakeOut(a, b);
      AliveTakeOut(b, j);
      AliveTakeOut(a, 0);
      assert a[..0] + a[1..] == a[1..];
      hide *;
      SameAlive(a[1..], b[..j] + b[j + 1..]);
    }
  }

  lemma {:induction false} AliveHas(ds: seq<PP.Dirent>, d: PP.Dirent)
    requires d in ds && !d.removed
    ensures d in Alive(ds)
  {
    if ds[0] != d { AliveHas(ds[1..], d); }
  }

  /** Paths must be distinct: a dirent that the table refused was handed over all the same, nobody
      marks it removed, and the listing holds it though no final entry is it. */
  lemma RefusedDirentIsListed(handled: seq<PP.Dirent>, all: seq<PP.Dirent>, refused: PP.Dirent, listing: seq<PP.Dirent>)
    requires PP.Ordered(all) && PP.Has(all, refused.key) && refused !in all && PP.Added(all, refused) == all
    requires refused in handled && !refused.removed && IsListing(listing, Alive(handled))
    ensures refused in listing && refused !in PP.Kept(all, |all|)
  {
    AliveHas(handled, refused);
    assert refused in multiset(listing);
    PP.KeptFrom(all, |all|);
  }

  // ---------------------------------------------------------------- its bytes

  function Numbers(ds: seq<PP.Dirent>): (ns: seq<nat>)
    reads ds
    ensures |ns| == |ds| && forall i :: 0 <= i < |ns| ==> ns[i] == ds[i].idx
  {
    if ds == [] then [] else [ds[0].idx] + Numbers(ds[1..])
  }

  class ListingProvider {
    const dirents: seq<PP.Dirent>
    var it: nat

    constructor (dirents: seq<PP.Dirent>)
      ensures this.dirents == dirents && it == 0
    {
      this.dirents, it := dirents, 0;
    }

    method GetSize() returns (size: nat)
      ensures size == |EncodeOffsets(Numbers(dirents), 4)|
    {
      size := 4 * |dirents|;
      EncodeOffsetsSize(Numbers(dirents), 4);
    }

    method Feed() returns (blob: Str)
      requires it <= |dirents|
      modifies this
      ensures it <= |dirents|
      ensures old(it) == |dirents| ==> blob == [] && it == old(it)
      ensures old(it) < |dirents| ==> blob == ToLE(dirents[old(it)].idx, 4) && it == old(it) + 1
    {
      if it == |dirents| { return []; }
      blob := ToLE(dirents[it].idx, 4);
      it := it + 1;
    }

    /** Fed to the end, the provider gives 4 bytes for each entry's number, in the listing's order. */
    method FeedAll() returns (out: Str)
      requires it == 0
      modifies this
      ensures out == EncodeOffsets(Numbers(dirents), 4)
    {
      ghost var numbers := Numbers(dirents);
      out := [];
      while it < |dirents|
        invariant it <= |dirents| && out + EncodeOffsets(numbers[it..], 4) == EncodeOffsets(numbers, 4)
        decreases |dirents| - it
      {
        NextBytes(numbers, it, out);
        var blob := Feed();
        out := out + blob;
      }
      assert numbers[it..] == [];
      assert out + EncodeOffsets([], 4) == out;
    }
  }

  lemma NextBytes(numbers: seq<nat>, i: nat, out: Str)
    requires i < |numbers|
    ensures out + EncodeOffsets(numbers[i..], 4) == (out + ToLE(numbers[i], 4)) + EncodeOffsets(numbers[i + 1..], 4)
  {
    assert numbers[i..][1..] == numbers[i + 1..];
    assert out + (ToLE(numbers[i], 4) + EncodeOffsets(numbers[i + 1..], 4)) == (out + ToLE(numbers[i], 4)) + EncodeOffsets(numbers[i + 1..], 4);
  }

  /** The reader's `getDirectIndex`: the four bytes at 4 * i are the number of the listing's entry i. */
  lemma NumberAt(ds: seq<PP.Dirent>, i: nat)
    requires i < |ds| && ds[i].idx < TWO32
    ensures var index := EncodeOffsets(Numbers(ds), 4);
            |index| == 4 * |ds| && FromLE(index[4 * i..4 * i + 4]) == ds[i].idx
  {
    EncodeOffsetsSize(Numbers(ds), 4);
    Pow256Values();
    EncodedAt(Numbers(ds), 4, i);
    hide *;
  }

  /** The header's title position, which adds the cluster's offset, its data offset and the blob's
      offset, is where the bytes of that blob of an uncompressed cluster are. */
  lemma TitlePosition(before: Str, isExtended: bool, blobs: seq<Str>, encode: Str -> Str, after: Str, n: nat)
    requires n < |blobs|
    ensures var w := Width(isExtended);
            var file := before + ClusterImage(None, isExtended, blobs, encode) + after;
            var position := |before| + (1 + Delta(|blobs|, w)) + BlobStart(blobs, n);
            position + |blobs[n]| <= |file| && file[position..position + |blobs[n]|] == blobs[n]
  {
    var w := Width(isExtended);
    var table, data := EncodeOffsets(TrueOffsets(blobs, w), w), Concat(blobs);
    EncodeOffsetsSize(TrueOffsets(blobs, w), w);
    BlobStartsAscend(blobs, n);
    BlobStartBound(blobs, n + 1);
    var info, a := [InfoByte(None, isExtended)], BlobStart(blobs, n);
    assert ClusterImage(None, isExtended, blobs, encode) == info + (table + data);
    assert |table| == Delta(|blobs|, w) && data[a..a + |blobs[n]|] == blobs[n] && a + |blobs[n]| <= |data|;
    hide *;
    DataInFile(before, info, table, data, after, a, a + |blobs[n]|);
  }

  lemma DataInFile(before: Str, info: Str, table: Str, data: Str, after: Str, a: nat, b: nat)
    requires a <= b <= |data|
    ensures var file, start := before + (info + (table + data)) + after, |before| + |info| + |table|;
            start + b <= |file| && file[start + a..start + b] == data[a..b]
  {
    var front := before + info + table;
    assert before + (info + (table + data)) + after == front + (data + after);
    SliceRight(front, data + after, |front| + a, |front| + b);
    SliceLeft(data, after, a, b);
  }

  // ---------------------------------------------------------------- findxByTitle

  datatype Titled = Titled(ns: byte, title: Str)

  function KeyOf(d: Titled): Str {
    [d.ns] + d.title
  }

  function KeysOf(table: seq<Titled>): (ks: seq<Str>)
    ensures |ks| == |table| && forall i :: 0 <= i < |ks| ==> ks[i] == KeyOf(table[i])
  {
    seq(|table|, i requires 0 <= i < |table| => KeyOf(table[i]))
  }

  /** `direntCompareTitle`, with `std::string::compare`. */
  function CompareTitle(q: Titled, d: Titled): int {
    if SignedChar(q.ns) < SignedChar(d.ns) then -1
    else if SignedChar(q.ns) > SignedChar(d.ns) then 1
    else if Lt(q.title, d.title) then -1
    else if Lt(d.title, q.title) then 1
    else 0
  }

  lemma CompareTitleIsOrder(q: Titled, d: Titled)
    requires q.ns < 128 && d.ns < 128
    ensures CompareTitle(q, d) < 0 <==> Lt(KeyOf(q), KeyOf(d))
    ensures CompareTitle(q, d) > 0 <==> Lt(KeyOf(d), KeyOf(q))
    ensures CompareTitle(q, d) == 0 <==> q == d
  {
    assert KeyOf(q)[1..] == q.title && KeyOf(d)[1..] == d.title;
    LtIsLeq(q.title, d.title);
    LtIsLeq(d.title, q.title);
    LeqTotal(q.title, d.title);
  }

  /** The search finds an entry if and only if there is one; otherwise it gives the insertion point. */
  ghost predicate FoundByTitle(table: seq<Titled>, q: Titled, found: bool, at: nat) {
    && (found ==> at < |table| && table[at] == q)
    && (!found ==> q !in table && at == CountBelow(KeysOf(table), KeyOf(q)))
  }

  ghost predicate GoodTitles(table: seq<Titled>) {
    ND.Sorted(KeysOf(table)) && forall i :: 0 <= i < |table| ==> table[i].ns < 128
  }

  lemma NotThere(table: seq<Titled>, q: Titled, at: nat)
    requires GoodTitles(table) && at <= |table|
    requires at > 0 ==> Lt(KeyOf(table[at - 1]), KeyOf(q))
    requires at < |table| ==> Lt(KeyOf(q), KeyOf(table[at]))
    ensures FoundByTitle(table, q, false, at)
  {
    var keys, key := KeysOf(table), KeyOf(q);
    if at < |table| { LtIsLeq(key, keys[at]); }
    CountBelowUnique(keys, key, at);
    CountBelowSplits(keys, key);
    LtIrrefl(key);
    forall i | 0 <= i < |table| ensures table[i] != q {
      assert i < at <==> Lt(keys[i], key);
      if i >= at { LtLeqTrans(key, keys[at], keys[i]); }
    }
  }

  method FindxByTitle(table: seq<Titled>, ns: byte, title: Str) returns (found: bool, at: nat)
    requires GoodTitles(table) && ns < 128
    ensures FoundByTitle(table, Titled(ns, title), found, at)
  {
    var q := Titled(ns, title);
    var l, u := 0, |table|;
    if l == u {
      NotThere(table, q, 0);
      return false, 0;
    }
    hide KeyOf, KeysOf, Lt, CompareTitle, CountBelow;
    while u - l > 1
      invariant 0 <= l < u <= |table|
      invariant l > 0 ==> Lt(KeyOf(table[l]), KeyOf(q))
      invariant u < |table| ==> Lt(KeyOf(q), KeyOf(table[u]))
      decreases u - l
    {
      var p := l + (u - l) / 2;
      CompareTitleIsOrder(q, table[p]);
      var c := CompareTitle(q, table[p]);
      if c < 0 {
        u := p;
      } else if c > 0 {
        l := p;
      } else {
        return true, p;
      }
    }
    CompareTitleIsOrder(q, table[l]);
    var c := CompareTitle(q, table[l]);
    if c == 0 { return true, l; }
    found, at := false, if c < 0 then l else u;
    BelowFirst(table, q, l);
    NotThere(table, q, at);
  }

  lemma BelowFirst(table: seq<Titled>, q: Titled, l: nat)
    requires l < |table| && (l > 0 ==> Lt(KeyOf(table[l]), KeyOf(q)))
    ensures Lt(KeyOf(q), KeyOf(table[l])) ==> l == 0
  {
    LtIsLeq(KeyOf(table[l]), KeyOf(q));
  }
}
