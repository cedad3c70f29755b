/** Searching the finished archive by title (src/fileimpl.cpp: getTitleAccessor, findxByTitle,
    checkTitleIndex). Every archive of this creator holds a listing of its front articles, which is
    what the search reads; the header points at another one, of all entries, which the integrity
    check walks as well. */
module TitleSearch {
  import opened Bytes
  import opened Sequences
  import opened Sorting
  import opened ClusterFormat
  import opened ArchiveFormat
  import opened Additions
  import AR = ArchiveReader
  import DA = DirentAccessor
  import DF = DirentFormat
  import DL = DirentLookup
  import H = Header
  import PP = PostProcessing
  import RC = ReaderCluster
  import TL = TitleListing
  import W = WriterCluster
  import WA = WholeArchive

  /** "listing/titleOrdered/v1" in the namespace X. */
  const FRONT_KEY: DL.DirentKey :=
    DL.DirentKey(88, [108, 105, 115, 116, 105, 110, 103, 47, 116, 105, 116, 108, 101, 79, 114, 100, 101, 114, 101, 100, 47, 118, 49])

  // ---------------------------------------------------------------- the reader

  /** An index of 4-byte entry numbers. `Broken`: reading the cluster throws. */
  datatype Index = Index(bytes: Str) | NoIndex | Broken

  /** The blob of the cluster at this offset as a section of the file, unless the cluster is compressed. */
  function BlobSection(file: Str, offset: nat, blob: nat): Index {
    if offset >= |file| then Broken
    else match ReadInfo(file[offset])
      case Refused => Broken
      case Info(compression, isExtended) =>
        if IsCompressed(compression) then NoIndex
        else match HeaderOf(file[offset + 1..], Width(isExtended))
          case Malformed => Broken
          case Offsets(o) =>
            if blob + 1 < |o| && o[blob] <= o[blob + 1]
            then Index(AR.Section(file, offset + (1 + o[blob]), o[blob + 1] - o[blob]))
            else Broken
  }

  /** `getTitleAccessor(path)`: the uncompressed blob of the entry at that path, if there is one. */
  function AccessorAt(file: Str, h: H.Fileheader, key: DL.DirentKey): Index {
    var table := AR.Table(file, h);
    var idx := DL.CountBelow(DL.LongKeys(table), DL.LongKey(key));
    if idx >= |table| || table[idx] != key then NoIndex
    else match DA.Direct(file, AR.UrlPtrs(file, h), idx)
      case Success(d) => BlobSection(file, AR.PtrAt(AR.ClusterPtrs(file, h), d.clusterNumber), d.blobNumber)
      case _ => Broken
  }

  /** The index that the header points at: a number for each entry. */
  function FullIndex(file: Str, h: H.Fileheader): Str {
    AR.Section(file, h.titleIdxPos, 4 * h.articleCount)
  }

  /** The index that searching uses: the listing of front articles, and only without it the other. */
  function SearchIndex(file: Str, h: H.Fileheader): Index {
    match AccessorAt(file, h, FRONT_KEY)
    case NoIndex => Index(FullIndex(file, h))
    case index => index
  }

  function NumberAt(index: Str, i: nat): nat {
    if 4 * i + 4 <= |index| then FromLE(index[4 * i..4 * i + 4]) else 0
  }

  /** Namespace and title of an entry, as they are read. */
  function TitledAt(file: Str, h: H.Fileheader, n: nat): TL.Titled {
    match DA.Direct(file, AR.UrlPtrs(file, h), n)
    case Success(d) => TL.Titled(d.ns, d.GetTitle())
    case _ => TL.Titled(0, [])
  }

  /** The titles in the order of an index. */
  function TitlesBy(file: Str, h: H.Fileheader, index: Str): (t: seq<TL.Titled>)
    ensures |t| == |index| / 4
    ensures forall i :: 0 <= i < |t| ==> t[i] == TitledAt(file, h, NumberAt(index, i))
  {
    seq(|index| / 4, i requires 0 <= i < |index| / 4 => TitledAt(file, h, NumberAt(index, i)))
  }

  // ---------------------------------------------------------------- the integrity check

  /** `pseudoTitle`, with its slash. */
  function PseudoTitle(t: TL.Titled): Str {
    [t.ns, 47] + t.title
  }

  /** Every number is that of an entry, and no title is above the next. */
  predicate InTitleOrder(file: Str, h: H.Fileheader, index: Str) {
    && (forall i :: 0 <= i < |index| / 4 ==> NumberAt(index, i) < h.articleCount)
    && (forall i :: 0 < i < |index| / 4 ==> InOrderAt(TitlesBy(file, h, index), i))
  }

  predicate InOrderAt(t: seq<TL.Titled>, i: nat)
    requires 0 < i < |t|
  {
    Leq(PseudoTitle(t[i - 1]), PseudoTitle(t[i]))
  }

  /** Comparing pseudo-titles is comparing namespaces and, in the same one, titles. */
  lemma PseudoTitleIsOrder(a: TL.Titled, b: TL.Titled)
    ensures Leq(PseudoTitle(a), PseudoTitle(b)) <==> a.ns < b.ns || (a.ns == b.ns && Leq(a.title, b.title))
  {
    assert PseudoTitle(a)[1..] == [47] + a.title && PseudoTitle(b)[1..] == [47] + b.title;
    assert ([47] + a.title)[1..] == a.title && ([47] + b.title)[1..] == b.title;
  }

  lemma InTitleOrderIs(file: Str, h: H.Fileheader, index: Str)
    ensures InTitleOrder(file, h, index) <==>
              && (forall i :: 0 <= i < |index| / 4 ==> NumberAt(index, i) < h.articleCount)
              && (forall i :: 0 < i < |index| / 4 ==>
                    var a, b := TitlesBy(file, h, index)[i - 1], TitlesBy(file, h, index)[i];
                    a.ns < b.ns || (a.ns == b.ns && Leq(a.title, b.title)))
  {
    var t := TitlesBy(file, h, index);
    hide Leq, PseudoTitle, NumberAt, TitlesBy, TitledAt;
    forall i | 0 < i < |t|
      ensures InOrderAt(t, i) <==> t[i - 1].ns < t[i].ns || (t[i - 1].ns == t[i].ns && Leq(t[i - 1].title, t[i].title))
    {
      PseudoTitleIsOrder(t[i - 1], t[i]);
    }
  }

  /** `checkTitleListing`: the loop over neighbours. It accepts a listing when and only when its numbers
      are those of entries and no entry comes before one of a smaller namespace or, in the same
      namespace, of a smaller title. */
  method CheckTitleListing(file: Str, h: H.Fileheader, index: Str) returns (ok: bool)
    ensures ok <==> InTitleOrder(file, h, index)
    ensures ok <==>
              && (forall i :: 0 <= i < |index| / 4 ==> NumberAt(index, i) < h.articleCount)
              && (forall i :: 0 < i < |index| / 4 ==>
                    var a, b := TitlesBy(file, h, index)[i - 1], TitlesBy(file, h, index)[i];
                    a.ns < b.ns || (a.ns == b.ns && Leq(a.title, b.title)))
  {
    InTitleOrderIs(file, h, index);
    hide TitledAt, NumberAt, PseudoTitle, Leq;
    ghost var t := TitlesBy(file, h, index);
    var i, prev := 0, TL.Titled(0, []);
    while i < |index| / 4
      invariant 0 <= i <= |index| / 4 && (i > 0 ==> prev == t[i - 1])
      invariant forall j :: 0 <= j < i ==> NumberAt(index, j) < h.articleCount
      invariant forall j :: 0 < j < i ==> InOrderAt(t, j)
    {
      if NumberAt(index, i) >= h.articleCount { return false; }
      var d := TitledAt(file, h, NumberAt(index, i));
      if i > 0 && !Leq(PseudoTitle(prev), PseudoTitle(d)) {
        assert !InOrderAt(t, i);
        return false;
      }
      prev, i := d, i + 1;
    }
    ok := true;
  }

  /** `checkTitleIndex`: the full index, and the listing of front articles if there is one. */
  method CheckTitleIndex(file: Str, h: H.Fileheader) returns (ok: bool)
    ensures var front := AccessorAt(file, h, FRONT_KEY);
            ok <==> InTitleOrder(file, h, FullIndex(file, h)) && (front.Index? ==> InTitleOrder(file, h, front.bytes))
  {
    hide *;
    ok := CheckTitleListing(file, h, FullIndex(file, h));
    var front := AccessorAt(file, h, FRONT_KEY);
    if front.Index? {
      var frontOk := CheckTitleListing(file, h, front.bytes);
      ok := ok && frontOk;
    }
  }

  // ---------------------------------------------------------------- the listings

  /** Everything handed over is in the table: nothing of it was refused or replaced. */
  ghost predicate Admitted(c: Creation, handled: seq<PP.Dirent>) {
    forall d :: d in handled ==> d in Table(c) && d in Dirents(c.adds)
  }

  /** Every addition with the hint is the one that its path keeps. */
  ghost predicate FrontsKept(c: Creation) {
    forall k :: 0 <= k < |c.adds| && c.adds[k].front ==> WA.FirstItem(c, k) || WA.FirstRedirect(c, k)
  }

  lemma FrontsAdmitted(c: Creation)
    requires GoodCreation(c) && FrontsKept(c)
    ensures Admitted(c, Fronts(c.adds))
  {
    hide Table, Dirents, GoodCreation, Fronts;
    forall d | d in Fronts(c.adds) ensures d in Table(c) && d in Dirents(c.adds) {
      var k := FrontOf(c.adds, d);
      WA.FirstIsThere(c, k);
      assert Dirents(c.adds)[k] == d;
    }
  }

  lemma {:induction false} FrontOf(adds: seq<Add>, d: PP.Dirent) returns (k: nat)
    requires d in Fronts(adds)
    ensures k < |adds| && adds[k].front && adds[k].d == d
  {
    var n := |adds| - 1;
    if d in Fronts(adds[..n]) { k := FrontOf(adds[..n], d); } else { k := n; }
  }

  lemma {:induction false} FrontIsThere(adds: seq<Add>, k: nat)
    requires k < |adds| && adds[k].front
    ensures adds[k].d in Fronts(adds)
  {
    if k < |adds| - 1 { FrontIsThere(adds[..|adds| - 1], k); }
  }

  /** No path twice: then the table has everything that was added. */
  ghost predicate PathsApart(c: Creation) {
    forall j, k :: 0 <= j < k < |c.adds| ==> c.adds[j].d.key != c.adds[k].d.key
  }

  lemma EverythingAdmitted(c: Creation)
    requires PathsApart(c) && GoodCreation(c)
    ensures Admitted(c, Dirents(c.adds))
  {
    hide Table, Dirents, GoodCreation;
    forall d | d in Dirents(c.adds) ensures d in Table(c) {
      var k := AddOf(c, d);
      PlaceOfAdd(c, k);
      assert WA.FirstItem(c, k) || WA.FirstRedirect(c, k);
      WA.FirstIsThere(c, k);
    }
  }

  lemma {:induction false} SurvivorsOf(c: Creation, ds: seq<PP.Dirent>)
    ensures forall d :: d in Survivors(c, ds) <==> d in ds && !Removed(c, d)
    ensures Distinct(ds) ==> Distinct(Survivors(c, ds))
  {
    if ds != [] {
      assert forall i :: 0 <= i < |ds[1..]| ==> ds[1..][i] == ds[i + 1];
      SurvivorsOf(c, ds[1..]);
      hide Removed;
      var rest := Survivors(c, ds[1..]);
      assert Distinct(ds) ==> ds[0] !in ds[1..];
      assert forall i :: 0 <= i < |rest| ==> rest[i] in rest;
    }
  }

  /** A listing holds exactly the entries among what was handed over, in order. */
  lemma ListingIsEntries(c: Creation, handled: seq<PP.Dirent>, listing: seq<PP.Dirent>)
    requires Admitted(c, handled) && IsListing(c, handled, listing)
    ensures forall d :: d in listing <==> d in handled && d in Final(c)
    ensures SortedBy(listing, TL.TitleKey)
  {
    SurvivorsOf(c, handled);
    var s := Survivors(c, handled);
    hide Final, Table, Survivors, Dirents, SortedBy;
    forall d ensures d in listing <==> d in s {
      assert d in multiset(listing) <==> d in multiset(s);
    }
  }

  /** A listing of everything is a permutation of the entries. */
  lemma FullListing(c: Creation, listing: seq<PP.Dirent>)
    requires PathsApart(c) && GoodCreation(c) && IsListing(c, Dirents(c.adds), listing)
    ensures multiset(listing) == multiset(Final(c)) && |listing| == |Final(c)|
  {
    var ds := Dirents(c.adds);
    var s := Survivors(c, ds);
    WA.TitleIsItem(c);
    SurvivorsOf(c, ds);
    EverythingAdmitted(c);
    FinalIs(c);
    PP.DistinctDirents(Final(c));
    hide Final, Table, Survivors, Sort, GoodCreation, PathsApart, Dirents, PP.Ordered, SortedBy;
    SameMembers(s, Final(c));
    assert |multiset(listing)| == |multiset(Final(c))|;
  }

  // ---------------------------------------------------------------- what an index says

  lemma BytesSize(c: Creation, listing: seq<PP.Dirent>)
    ensures |ListingBytes(c, listing)| == 4 * |listing|
  {
    hide EncodeOffsets, NumbersOf;
    EncodeOffsetsSize(NumbersOf(c, listing), 4);
  }

  lemma NumberEncoded(c: Creation, listing: seq<PP.Dirent>, i: nat)
    requires GoodCreation(c) && i < |listing|
    ensures NumberAt(ListingBytes(c, listing), i) == NumberOf(c, listing[i])
  {
    WA.NumberIsSmall(c, listing[i]);
    Pow256Values();
    EncodedAt(NumbersOf(c, listing), 4, i);
    hide EncodeOffsets, Pow256, FromLE, NumberOf, GoodCreation;
  }

  function TitledOf(d: PP.Dirent): TL.Titled {
    TL.Titled(d.key.ns, d.GetTitle())
  }

  /** The number at place i is that of the listing's i-th dirent, and reading that entry gives its title. */
  lemma TitleIsRead(c: Creation, encode: Str -> Str, listing: seq<PP.Dirent>, i: nat)
    requires GoodCreation(c) && WA.Fits(PlanOf(c), encode) && i < |listing| && listing[i] in Final(c)
    ensures var n := NumberAt(ListingBytes(c, listing), i);
            && n < |Final(c)| && Final(c)[n] == listing[i]
            && TitledAt(Archive(PlanOf(c), encode), HeaderOfPlan(PlanOf(c), encode), n) == TitledOf(listing[i])
  {
    hide *;
    var p, d := PlanOf(c), listing[i];
    NumberEncoded(c, listing, i);
    WA.NumberIs(c, d);
    var n := NumberOf(c, d);
    WA.FitsParts(c, encode);
    WA.PlanWellFormed(c, encode);
    WA.PlanFields(c);
    WA.SettledAt(c, n);
    WA.DirentReadsBack(c, encode, n);
    AR.DirentIsRead(p, encode, n);
    TitledFrom(c, encode, n, d);
  }

  lemma TitledFrom(c: Creation, encode: Str -> Str, n: nat, d: PP.Dirent)
    requires n < |PlanOf(c).dirents| && PlanOf(c).dirents[n] == Settled(c, d)
    requires DA.Direct(Archive(PlanOf(c), encode), AR.UrlPtrs(Archive(PlanOf(c), encode), HeaderOfPlan(PlanOf(c), encode)), n)
             == DA.Success(DF.View(PlanOf(c).dirents[n]))
    ensures TitledAt(Archive(PlanOf(c), encode), HeaderOfPlan(PlanOf(c), encode), n) == TitledOf(d)
  {
    AR.ViewKey(PlanOf(c).dirents[n]);
    hide Archive, HeaderOfPlan, PlanOf, DA.Direct, AR.UrlPtrs, DF.View, ItemTarget, NumberOf, Table, PP.At;
  }

  /** Read by the numbers of any listing, the archive's titles are those of the listing, in an order
      that the search accepts and the check finds right. */
  lemma TitlesRead(c: Creation, encode: Str -> Str, handled: seq<PP.Dirent>, listing: seq<PP.Dirent>)
    requires GoodCreation(c) && WA.Fits(PlanOf(c), encode) && Admitted(c, handled) && IsListing(c, handled, listing)
    ensures var file, h, index := Archive(PlanOf(c), encode), HeaderOfPlan(PlanOf(c), encode), ListingBytes(c, listing);
            var t := TitlesBy(file, h, index);
            && |t| == |listing| && (forall i :: 0 <= i < |t| ==> t[i] == TitledOf(listing[i]))
            && TL.GoodTitles(t) && InTitleOrder(file, h, index)
  {
    hide *;
    var file, h, index := Archive(PlanOf(c), encode), HeaderOfPlan(PlanOf(c), encode), ListingBytes(c, listing);
    var t := TitlesBy(file, h, index);
    ListingIsEntries(c, handled, listing);
    BytesSize(c, listing);
    WA.FitsParts(c, encode);
    WA.PlanWellFormed(c, encode);
    AR.HeaderFields(PlanOf(c), encode);
    WA.PlanFields(c);
    FinalIs(c);
    forall i | 0 <= i < |t|
      ensures t[i] == TitledOf(listing[i]) && listing[i].key.ns < 128 && NumberAt(index, i) < h.articleCount
    {
      assert listing[i] in listing;
      TitleIsRead(c, encode, listing, i);
      var k := AddOf(c, listing[i]);
      PlaceOfAdd(c, k);
      AsciiNs(c.adds[k]);
    }
    TitlesAreGood(t, listing);
    OrderIs(file, h, index);
  }

  lemma AsciiNs(a: Add)
    requires GoodAdd(a)
    ensures a.d.key.ns < 128
  {
    hide NoNul;
  }

  lemma TitlesAreGood(t: seq<TL.Titled>, ds: seq<PP.Dirent>)
    requires |t| == |ds| && SortedBy(ds, TL.TitleKey)
    requires forall i :: 0 <= i < |t| ==> t[i] == TitledOf(ds[i]) && ds[i].key.ns < 128
    ensures TL.GoodTitles(t)
  {
    var keys := TL.KeysOf(t);
    hide Leq;
    forall i, j | 0 <= i <= j < |keys| ensures Leq(keys[i], keys[j]) {
      assert keys[i] == TL.TitleKey(ds[i]) && keys[j] == TL.TitleKey(ds[j]);
      if i == j { LeqRefl(keys[i]); }
    }
  }

  lemma OrderIs(file: Str, h: H.Fileheader, index: Str)
    requires TL.GoodTitles(TitlesBy(file, h, index))
    requires forall i :: 0 <= i < |index| / 4 ==> NumberAt(index, i) < h.articleCount
    ensures InTitleOrder(file, h, index)
  {
    var t := TitlesBy(file, h, index);
    hide TitlesBy, NumberAt;
    forall i | 0 < i < |t| ensures InOrderAt(t, i) {
      assert Leq(TL.KeysOf(t)[i - 1], TL.KeysOf(t)[i]);
      SlashKeepsOrder(t[i - 1], t[i]);
    }
  }

  /** The slash of `pseudoTitle` changes nothing. */
  lemma SlashKeepsOrder(a: TL.Titled, b: TL.Titled)
    requires Leq(TL.KeyOf(a), TL.KeyOf(b))
    ensures Leq(PseudoTitle(a), PseudoTitle(b))
  {
    assert TL.KeyOf(a)[1..] == a.title && TL.KeyOf(b)[1..] == b.title;
    PseudoTitleIsOrder(a, b);
  }

  // ---------------------------------------------------------------- the full index

  /** The header's title position is where the bytes of the full listing are. */
  lemma FullIndexIsListing(c: Creation, encode: Str -> Str, listing: seq<PP.Dirent>)
    requires GoodCreation(c) && WA.Fits(PlanOf(c), encode) && PathsApart(c)
    requires IsListing(c, Dirents(c.adds), listing) && c.adds[c.titleAdd].content == ListingBytes(c, listing)
    ensures FullIndex(Archive(PlanOf(c), encode), HeaderOfPlan(PlanOf(c), encode)) == ListingBytes(c, listing)
    ensures multiset(listing) == multiset(Final(c))
  {
    hide *;
    var p := PlanOf(c);
    WA.FitsParts(c, encode);
    WA.PlanWellFormed(c, encode);
    WA.PlanFields(c);
    WA.TitleIsItem(c);
    WA.ItemPlaced(c, c.titleAdd);
    AR.TitleListingIsThere(p, encode);
    AR.HeaderFields(p, encode);
    FullListing(c, listing);
    BytesSize(c, listing);
    IndexIs(Archive(p, encode), HeaderOfPlan(p, encode), ListingBytes(c, listing));
  }

  lemma IndexIs(file: Str, h: H.Fileheader, bytes: Str)
    requires |bytes| == 4 * h.articleCount && h.titleIdxPos + |bytes| <= |file|
    requires file[h.titleIdxPos..h.titleIdxPos + |bytes|] == bytes
    ensures FullIndex(file, h) == bytes
  {
  }

  // ---------------------------------------------------------------- the listing of front articles

  /** The creator's own item for the listing of front articles, at its path alone, not compressed. */
  ghost predicate FrontListed(c: Creation) {
    && c.frontAdd < |c.adds| && c.adds[c.frontAdd].ItemAdd? && !c.adds[c.frontAdd].compress
    && c.adds[c.frontAdd].d.key == FRONT_KEY
    && forall j :: 0 <= j < |c.adds| && c.adds[j].d.key == FRONT_KEY ==> j == c.frontAdd
  }

  /** The bytes of a blob of an uncompressed cluster lie where the reader's offsets say. */
  lemma SectionOfBlob(before: Str, blobs: seq<Str>, encode: Str -> Str, tail: Str, n: nat)
    requires n < |blobs| && OffsetsFit(blobs, Width(W.NeedsExtension(blobs)))
    ensures var file := before + ClusterImage(None, W.NeedsExtension(blobs), blobs, encode) + tail;
            BlobSection(file, |before|, n) == Index(blobs[n])
  {
    hide *;
    var ext := W.NeedsExtension(blobs);
    var content, info := ClusterBytes(blobs, Width(ext)), InfoByte(None, ext);
    var file := before + ClusterImage(None, ext, blobs, encode) + tail;
    InfoRoundTrip(None, ext);
    NeverZero(ext);
    RC.ClusterRoundTrip(blobs, Width(ext), tail, n);
    PlainIs(ext, blobs, encode);
    AR.InfoThen(before, info, content, tail);
    var o := HeaderOf(content + tail, Width(ext)).offsets;
    OffsetsOf(o, content + tail, n);
    StreamSection(file, |before|, content + tail, o[n], o[n + 1]);
    SectionFrom(file, |before|, ext, o, n);
  }

  lemma NeverZero(ext: bool)
    ensures Width(ext) > 0
  {
  }

  lemma PlainIs(ext: bool, blobs: seq<Str>, encode: Str -> Str)
    ensures ClusterImage(None, ext, blobs, encode) == [InfoByte(None, ext)] + ClusterBytes(blobs, Width(ext))
  {
    hide ClusterBytes, InfoByte, Width;
  }

  lemma OffsetsOf(o: seq<nat>, plain: Str, n: nat)
    requires RC.GoodOffsets(o, plain) && n + 1 < |o|
    ensures o[n] <= o[n + 1] <= |plain| && RC.BlobAt(o, plain, n) == plain[o[n]..o[n + 1]]
  {
  }

  lemma SectionFrom(file: Str, offset: nat, ext: bool, o: seq<nat>, n: nat)
    requires offset < |file| && ReadInfo(file[offset]) == Info(None, ext)
    requires Width(ext) > 0 && HeaderOf(file[offset + 1..], Width(ext)) == Offsets(o)
    requires n + 1 < |o| && o[n] <= o[n + 1]
    ensures BlobSection(file, offset, n) == Index(AR.Section(file, offset + (1 + o[n]), o[n + 1] - o[n]))
  {
    hide HeaderOf, ReadInfo, Width, AR.Section;
  }

  lemma StreamSection(file: Str, offset: nat, stream: Str, a: nat, b: nat)
    requires offset < |file| && file[offset + 1..] == stream && a <= b <= |stream|
    ensures AR.Section(file, offset + (1 + a), b - a) == stream[a..b]
  {
    var start := offset + (1 + a);
    assert file[offset + 1..][a..b] == file[start..start + (b - a)];
  }

  /** Blob b of cluster n of the archive, by its offset in the file. */
  lemma SectionInArchive(p: Plan, encode: Str -> Str, n: nat, b: nat)
    requires WellFormed(p, encode) && n < |p.clusters| && b < |p.clusters[n].blobs|
    requires p.clusters[n].compression == None && AR.ClusterReads(p.clusters[n])
    ensures var file := Archive(p, encode);
            BlobSection(file, AR.PtrAt(AR.ClusterPtrs(file, HeaderOfPlan(p, encode)), n), b) == Index(p.clusters[n].blobs[b])
  {
    hide *;
    var file := Archive(p, encode);
    AR.ClusterPtrReads(p, encode, n);
    AR.ClusterPart(p, encode, n);
    PlainImage(p.clusters[n], encode);
    var offset, image := ClusterOffsets(p, encode)[n], ImageOf(p.clusters[n], encode);
    assert file == file[..offset] + image + file[offset + |image|..];
    SectionOfBlob(file[..offset], p.clusters[n].blobs, encode, file[offset + |image|..], b);
  }

  lemma PlainImage(cluster: ClusterData, encode: Str -> Str)
    requires cluster.compression == None && AR.ClusterReads(cluster)
    ensures ImageOf(cluster, encode) == ClusterImage(None, W.NeedsExtension(cluster.blobs), cluster.blobs, encode)
    ensures OffsetsFit(cluster.blobs, Width(W.NeedsExtension(cluster.blobs)))
  {
    hide ClusterImage, W.NeedsExtension, OffsetsFit, Width;
  }

  /** `getTitleAccessor` finds the front listing's item and gives its bytes, so the search never falls
      back on the other index. */
  lemma FrontIndexIsListing(c: Creation, encode: Str -> Str)
    requires GoodCreation(c) && WA.Fits(PlanOf(c), encode) && FrontListed(c)
    ensures var file, h := Archive(PlanOf(c), encode), HeaderOfPlan(PlanOf(c), encode);
            AccessorAt(file, h, FRONT_KEY) == SearchIndex(file, h) == Index(c.adds[c.frontAdd].content)
  {
    hide *;
    var p := PlanOf(c);
    var file, h := Archive(p, encode), HeaderOfPlan(p, encode);
    FrontIsFirst(c);
    WA.ItemStays(c, c.frontAdd);
    var d := c.adds[c.frontAdd].d;
    var i := IndexIn(Final(c), d);
    WA.FitsParts(c, encode);
    WA.PlanWellFormed(c, encode);
    WA.PlanIsReadable(c, encode);
    WA.PlanFields(c);
    WA.SettledAt(c, i);
    WA.SettledItem(c, c.frontAdd);
    WA.ItemPlaced(c, c.frontAdd);
    WA.ClustersRead(c, encode);
    WA.DirentReadsBack(c, encode, i);
    AR.TableReads(p, encode);
    AR.DirentIsRead(p, encode, i);
    AR.ReadableParts(p, encode);
    AR.KeyIsThere(AR.KeysOf(p.dirents), FRONT_KEY, i);
    var n, b := ClusterNo(Placed(c), ItemNo(c.adds, c.frontAdd)), BlobNo(Placed(c), ItemNo(c.adds, c.frontAdd));
    TargetIs(c, c.frontAdd);
    SectionInArchive(p, encode, n, b);
    AR.ViewKey(p.dirents[i]);
    AccessorFrom(file, h, FRONT_KEY, i, DF.View(p.dirents[i]));
    SearchIs(file, h);
  }

  lemma FrontIsFirst(c: Creation)
    requires FrontListed(c)
    ensures c.frontAdd < |c.adds| && WA.FirstItem(c, c.frontAdd) && c.adds[c.frontAdd].ItemAdd?
    ensures !c.adds[c.frontAdd].compress && c.adds[c.frontAdd].d.key == FRONT_KEY
  {
  }

  lemma TargetIs(c: Creation, k: nat)
    requires k < |c.adds| && c.adds[k].ItemAdd?
    ensures ItemTarget(c, k).Item? && ItemTarget(c, k).cluster == ClusterNo(Placed(c), ItemNo(c.adds, k))
    ensures ItemTarget(c, k).blob == BlobNo(Placed(c), ItemNo(c.adds, k))
  {
    hide ClusterNo, BlobNo, Placed, ItemNo, Mimes;
  }

  lemma AccessorFrom(file: Str, h: H.Fileheader, key: DL.DirentKey, i: nat, d: DF.Dirent)
    requires i < |AR.Table(file, h)| && AR.Table(file, h)[i] == key
    requires DL.CountBelow(DL.LongKeys(AR.Table(file, h)), DL.LongKey(key)) == i
    requires DA.Direct(file, AR.UrlPtrs(file, h), i) == DA.Success(d)
    ensures AccessorAt(file, h, key) == BlobSection(file, AR.PtrAt(AR.ClusterPtrs(file, h), d.clusterNumber), d.blobNumber)
  {
    hide AR.Table, DL.CountBelow, DA.Direct, BlobSection, AR.PtrAt, AR.ClusterPtrs, AR.UrlPtrs;
  }

  lemma SearchIs(file: Str, h: H.Fileheader)
    ensures AccessorAt(file, h, FRONT_KEY).Index? ==> SearchIndex(file, h) == AccessorAt(file, h, FRONT_KEY)
  {
    hide AccessorAt;
  }

  // ---------------------------------------------------------------- the search

  ghost predicate HasTitle(d: PP.Dirent, ns: byte, title: Str) {
    d.key.ns == ns && d.GetTitle() == title
  }

  /** An entry of the archive that was added with the hint. */
  ghost predicate FrontEntry(c: Creation, d: PP.Dirent) {
    d in Fronts(c.adds) && d in Final(c)
  }

  /** Searching the finished archive for a title: found exactly when a front article of that namespace
      has it, and then the number at the place in the index is that of such an entry. `listing` is
      whatever order the sort left in the stored listing. */
  method FindTitle(ghost c: Creation, ghost encode: Str -> Str, ghost listing: seq<PP.Dirent>,
                   file: Str, h: H.Fileheader, ns: byte, title: Str)
    returns (found: bool, at: nat)
    requires GoodCreation(c) && WA.Fits(PlanOf(c), encode) && FrontListed(c) && FrontsKept(c)
    requires IsListing(c, Fronts(c.adds), listing) && c.adds[c.frontAdd].content == ListingBytes(c, listing)
    requires file == Archive(PlanOf(c), encode) && H.ReadHeader(file) == H.Ok(h) && ns < 128
    ensures found <==> exists d :: FrontEntry(c, d) && HasTitle(d, ns, title)
    ensures SearchIndex(file, h) == Index(ListingBytes(c, listing))
    ensures found ==> var n := NumberAt(ListingBytes(c, listing), at);
                      n < |Final(c)| && FrontEntry(c, Final(c)[n]) && HasTitle(Final(c)[n], ns, title)
  {
    hide *;
    FrontsAdmitted(c);
    FrontIndexIsListing(c, encode);
    TitlesRead(c, encode, Fronts(c.adds), listing);
    HeaderIs(c, encode);
    found, at := TL.FindxByTitle(TitlesBy(file, h, SearchIndex(file, h).bytes), ns, title);
    TitleAnswers(c, encode, listing, ns, title, found, at);
  }

  lemma HeaderIs(c: Creation, encode: Str -> Str)
    requires GoodCreation(c) && WA.Fits(PlanOf(c), encode)
    ensures H.ReadHeader(Archive(PlanOf(c), encode)) == H.Ok(HeaderOfPlan(PlanOf(c), encode))
  {
    hide *;
    WA.FitsParts(c, encode);
    WA.PlanWellFormed(c, encode);
    AR.HeaderFields(PlanOf(c), encode);
    AR.OpensIff(PlanOf(c), encode);
  }

  lemma TitleAnswers(c: Creation, encode: Str -> Str, listing: seq<PP.Dirent>, ns: byte, title: Str, found: bool, at: nat)
    requires GoodCreation(c) && WA.Fits(PlanOf(c), encode) && FrontsKept(c) && IsListing(c, Fronts(c.adds), listing)
    requires TL.FoundByTitle(TitlesBy(Archive(PlanOf(c), encode), HeaderOfPlan(PlanOf(c), encode), ListingBytes(c, listing)),
                             TL.Titled(ns, title), found, at)
    ensures found <==> exists d :: FrontEntry(c, d) && HasTitle(d, ns, title)
    ensures found ==> var n := NumberAt(ListingBytes(c, listing), at);
                      n < |Final(c)| && FrontEntry(c, Final(c)[n]) && HasTitle(Final(c)[n], ns, title)
  {
    hide *;
    FrontsAdmitted(c);
    TitlesRead(c, encode, Fronts(c.adds), listing);
    ListingIsEntries(c, Fronts(c.adds), listing);
    forall d ensures d in listing <==> FrontEntry(c, d) { FrontEntryIs(c, d); }
    Answers(c, TitlesBy(Archive(PlanOf(c), encode), HeaderOfPlan(PlanOf(c), encode), ListingBytes(c, listing)), listing, ns, title, found, at);
    if found { TitleIsRead(c, encode, listing, at); }
  }

  lemma FrontEntryIs(c: Creation, d: PP.Dirent)
    ensures FrontEntry(c, d) <==> d in Fronts(c.adds) && d in Final(c)
  {
    hide Fronts, Final;
  }

  lemma Answers(c: Creation, t: seq<TL.Titled>, listing: seq<PP.Dirent>, ns: byte, title: Str, found: bool, at: nat)
    requires |t| == |listing| && forall i :: 0 <= i < |t| ==> t[i] == TitledOf(listing[i])
    requires forall d :: d in listing <==> FrontEntry(c, d)
    requires TL.FoundByTitle(t, TL.Titled(ns, title), found, at)
    ensures found <==> exists d :: FrontEntry(c, d) && HasTitle(d, ns, title)
    ensures found ==> at < |listing| && listing[at] in listing && FrontEntry(c, listing[at]) && HasTitle(listing[at], ns, title)
  {
    hide DL.CountBelow, TL.KeysOf, TL.KeyOf, FrontEntry;
    if found {
      assert listing[at] in listing;
    } else {
      forall d | FrontEntry(c, d) ensures !HasTitle(d, ns, title) {
        assert d in listing;
        var i :| 0 <= i < |listing| && listing[i] == d;
        assert t[i] == TitledOf(d);
      }
    }
  }

  /** Why a front article must be the one its path keeps: one that was refused or replaced stays in the
      listing, and its place there says entry 0, whatever that is. */
  lemma RefusedFrontNamesFirst(c: Creation, listing: seq<PP.Dirent>, d: PP.Dirent) returns (i: nat)
    requires GoodCreation(c) && IsListing(c, Fronts(c.adds), listing) && d in Fronts(c.adds) && d !in Table(c)
    ensures i < |listing| && listing[i] == d && NumberAt(ListingBytes(c, listing), i) == 0
  {
    SurvivorsOf(c, Fronts(c.adds));
    var s := Survivors(c, Fronts(c.adds));
    hide Table, Final, Survivors, Fronts, GoodCreation, SortedBy;
    assert d in s;
    assert d in multiset(listing);
    i :| i < |listing| && listing[i] == d;
    FinalIs(c);
    NumberEncoded(c, listing, i);
  }

  /** The integrity check accepts the finished archive, whatever order the sort left in both listings. */
  method CheckAccepts(ghost c: Creation, ghost encode: Str -> Str, ghost full: seq<PP.Dirent>, ghost front: seq<PP.Dirent>,
                      file: Str, h: H.Fileheader)
    returns (ok: bool)
    requires GoodCreation(c) && WA.Fits(PlanOf(c), encode) && FrontListed(c) && FrontsKept(c) && PathsApart(c)
    requires IsListing(c, Dirents(c.adds), full) && c.adds[c.titleAdd].content == ListingBytes(c, full)
    requires IsListing(c, Fronts(c.adds), front) && c.adds[c.frontAdd].content == ListingBytes(c, front)
    requires file == Archive(PlanOf(c), encode) && H.ReadHeader(file) == H.Ok(h)
    ensures ok
  {
    hide *;
    HeaderIs(c, encode);
    EverythingAdmitted(c);
    FrontsAdmitted(c);
    FullIndexIsListing(c, encode, full);
    FrontIndexIsListing(c, encode);
    TitlesRead(c, encode, Dirents(c.adds), full);
    TitlesRead(c, encode, Fronts(c.adds), front);
    ok := CheckTitleIndex(file, h);
  }
}
