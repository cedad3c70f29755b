/** From the calls on the creator to what the reader finds: every item that was added comes out of
    the finished archive, whatever the redirects are, and every redirect that stays leads to its
    target if that stays. */
module WholeArchive {
  import opened Bytes
  import opened Sequences
  import opened Sorting
  import opened ClusterFormat
  import opened ArchiveFormat
  import opened Additions
  import AR = ArchiveReader
  import AW = ArchiveWriter
  import DF = DirentFormat
  import DL = DirentLookup
  import Header
  import IP = ItemPlacement
  import M = MimeTypes
  import P = Pipeline
  import PP = PostProcessing
  import W = WriterCluster

  /** What the finished file must fit into: the space before byte 1024, 64-bit positions, no more
      clusters than entries, the width of each cluster's offsets, and the read steps of the reader. */
  ghost predicate Fits(p: Plan, encode: Str -> Str) {
    && Header.SIZE + |M.MimeListBytes(p.mimes)| < CLUSTER_BASE_OFFSET
    && ChecksumPos(p, encode) + CHECKSUM_SIZE < TWO64
    && |p.clusters| <= |p.dirents|
    && (forall i :: 0 <= i < |p.clusters| ==> OffsetsFit(p.clusters[i].blobs, Width(W.NeedsExtension(p.clusters[i].blobs))))
    && (forall i :: 0 <= i < |p.dirents| && i < |DirentOffsets(p, encode)| && DirentOffsets(p, encode)[i] <= |Archive(p, encode)| ==>
          DF.StepsFit(|Archive(p, encode)| - DirentOffsets(p, encode)[i], |DF.Encode(p.dirents[i])|))
  }

  // ---------------------------------------------------------------- the plan can be read

  lemma PlanFields(c: Creation)
    ensures var p := PlanOf(c);
            && p.uuid == c.uuid && p.mimes == Mimes(c) && p.mainPage == MainPage(c)
            && p.clusters == ListedClusters(Placed(c), c.compression) && p.dirents == AllSettled(c)
            && |p.dirents| == |Final(c)|
    ensures c.titleAdd <= |c.adds| ==>
              && PlanOf(c).titleCluster == ClusterNo(Placed(c), ItemNo(c.adds, c.titleAdd))
              && PlanOf(c).titleBlob == BlobNo(Placed(c), ItemNo(c.adds, c.titleAdd))
  {
    hide AllSettled, Placed, Mimes, MainPage, ListedClusters, ClusterNo, BlobNo, ItemNo, Final;
  }

  lemma SettledAt(c: Creation, i: nat)
    requires i < |PlanOf(c).dirents|
    ensures i < |Final(c)| && PlanOf(c).dirents[i] == Settled(c, Final(c)[i])
    ensures AR.KeyOf(PlanOf(c).dirents[i]) == Final(c)[i].key
  {
    hide Final, Placed, Table, Mimes, MainPage, ItemTarget, NumberOf;
  }

  lemma SettledItem(c: Creation, k: nat)
    requires GoodCreation(c) && k < |c.adds| && c.adds[k].ItemAdd?
    ensures var d := c.adds[k].d; Settled(c, d) == DF.WriterDirent(d.key.ns, d.key.url, d.title, ItemTarget(c, k))
  {
    PlaceOfAdd(c, k);
    hide ItemTarget, GoodCreation;
  }

  lemma SettledRedirect(c: Creation, k: nat)
    requires GoodCreation(c) && k < |c.adds| && c.adds[k].RedirectAdd?
    ensures var d := c.adds[k].d;
            Settled(c, d) == DF.WriterDirent(d.key.ns, d.key.url, d.title, DF.Redirect(NumberOf(c, PP.At(Table(c), d.target))))
  {
    PlaceOfAdd(c, k);
    hide GoodCreation, NumberOf, Table, PP.At;
  }

  /** The entries' keys ascend strictly, as the reader's search needs. */
  lemma KeysAscend(c: Creation)
    requires GoodCreation(c)
    ensures DL.StrictTable(AR.KeysOf(PlanOf(c).dirents))
  {
    var t, keys := Final(c), AR.KeysOf(PlanOf(c).dirents);
    FinalIs(c);
    PlanFields(c);
    hide Final, PlanOf, GoodCreation, Lt, NoNul;
    forall i | 0 <= i < |t| ensures keys[i] == t[i].key && 1 <= keys[i].ns < 128 && NoNul(keys[i].url) {
      SettledAt(c, i);
      var k := AddOf(c, t[i]);
      PlaceOfAdd(c, k);
    }
    StrictKeys(keys, t);
  }

  lemma StrictKeys(keys: seq<DL.DirentKey>, t: seq<PP.Dirent>)
    requires PP.Ordered(t) && |keys| == |t| && forall i :: 0 <= i < |t| ==> keys[i] == t[i].key
    requires forall i :: 0 <= i < |t| ==> 1 <= keys[i].ns < 128 && NoNul(keys[i].url)
    ensures DL.StrictTable(keys)
  {
    hide NoNul, Lt;
    forall i, j | 0 <= i < j < |keys| ensures Leq(DL.LongKeys(keys)[i], DL.LongKeys(keys)[j]) && keys[i] != keys[j] {
      LtIsLeq(DL.LongKey(t[i].key), DL.LongKey(t[j].key));
      LtIrrefl(DL.LongKey(t[i].key));
    }
    forall i | 0 <= i < |keys| ensures Leq(DL.LongKeys(keys)[i], DL.LongKeys(keys)[i]) { LeqRefl(DL.LongKeys(keys)[i]); }
  }

  /** The sorted list: as many names as were given a code, every item's among them, all of them good. */
  lemma MimesAreGood(c: Creation)
    requires GoodCreation(c)
    ensures M.GoodNames(Mimes(c)) && |Mimes(c)| == |MimeNames(c.adds)| < DF.DELETED_MIME
    ensures forall k :: 0 <= k < |c.adds| && c.adds[k].ItemAdd? ==> c.adds[k].mime in Mimes(c)
  {
    var names := MimeNames(c.adds);
    SortSorts(names, M.Itself);
    forall m ensures m in Mimes(c) <==> m in names {
      assert m in multiset(Mimes(c)) <==> m in multiset(names);
    }
    hide MimeNames, Sort, Mimes, M.GoodName;
    forall m | m in names ensures M.GoodName(m) {
      var k := NameFrom(c.adds, m);
      PlaceOfAdd(c, k);
    }
    forall k | 0 <= k < |c.adds| && c.adds[k].ItemAdd? ensures c.adds[k].mime in names { NameOf(c.adds, k); }
  }

  lemma {:induction false} NameOf(adds: seq<Add>, k: nat)
    requires k < |adds| && adds[k].ItemAdd?
    ensures adds[k].mime in MimeNames(adds)
  {
    if k < |adds| - 1 { NameOf(adds[..|adds| - 1], k); }
  }

  lemma {:induction false} NameFrom(adds: seq<Add>, m: Str) returns (k: nat)
    requires m in MimeNames(adds)
    ensures k < |adds| && adds[k].ItemAdd? && adds[k].mime == m
  {
    var n := |adds| - 1;
    if m in MimeNames(adds[..n]) { k := NameFrom(adds[..n], m); } else { k := n; }
  }

  /** Item k: listed, in its own kind of cluster, and its numbers name its content. */
  lemma ItemPlaced(c: Creation, k: nat)
    requires k < |c.adds| && c.adds[k].ItemAdd?
    ensures var p, v, n := PlanOf(c), Placed(c), ItemNo(c.adds, k);
            var i, b := ClusterNo(v, n), BlobNo(v, n);
            && i < |p.clusters| && b < |p.clusters[i].blobs| <= |c.adds| && p.clusters[i].blobs[b] == c.adds[k].content
            && p.clusters[i].compression == if c.adds[k].compress then c.compression else None
    ensures |PlanOf(c).clusters| <= |Contents(c.adds)| <= |c.adds|
  {
    var n, contents := ItemNo(c.adds, k), Contents(c.adds);
    ContentOf(c.adds, k);
    IP.EveryItemIsPlaced(contents, c.limit);
    PlanFields(c);
    hide IP.FinishView, IP.Run, IP.BlobCount, IP.BelowLimit, PlanOf, Contents, ItemNo;
    var v := Placed(c);
    assert IP.NamesItsContent(v, v.items[n]);
    OneOfCount(v.listed, ClusterNo(v, n));
  }

  /** The archive's major version is 6 when and only when some item is larger than 32 bits can say. */
  lemma LargeItemExtends(c: Creation, encode: Str -> Str)
    ensures HeaderOfPlan(PlanOf(c), encode).majorVersion ==
            if exists k :: 0 <= k < |c.adds| && c.adds[k].ItemAdd? && |c.adds[k].content| > 0xffff_ffff then 6 else 5
  {
    var p := PlanOf(c);
    PlanFields(c);
    hide PlanOf, IP.FinishView, IP.Run, UrlPtrPos, TitleIdxPos, ClusterPtrPos, ChecksumPos;
    if k :| 0 <= k < |c.adds| && c.adds[k].ItemAdd? && |c.adds[k].content| > 0xffff_ffff {
      ItemPlaced(c, k);
      var n := ItemNo(c.adds, k);
      assert W.NeedsExtension(p.clusters[ClusterNo(Placed(c), n)].blobs);
    }
    if AnyExtended(p.clusters) {
      var i :| 0 <= i < |p.clusters| && W.NeedsExtension(p.clusters[i].blobs);
      var b :| 0 <= b < |p.clusters[i].blobs| && |p.clusters[i].blobs[b]| > UINT32_MAX;
      IP.EveryBlobIsAnItem(Contents(c.adds), c.limit, i, b);
      var n :| 0 <= n < |Contents(c.adds)| && Placed(c).listed[i][b] == Contents(c.adds)[n].0;
      var k := ContentFrom(c.adds, n);
    }
  }

  lemma {:induction false} OneOfCount(listed: seq<seq<Str>>, i: nat)
    requires i < |listed|
    ensures |listed[i]| <= IP.BlobCount(listed)
  {
    if i < |listed| - 1 { OneOfCount(listed[..|listed| - 1], i); }
  }

  /** Each settled dirent fits its fields, and an item's numbers are those of a name and of a blob. */
  lemma DirentIsGood(c: Creation, d: PP.Dirent)
    requires GoodCreation(c) && d in Dirents(c.adds)
    ensures var w, p := Settled(c, d), PlanOf(c);
            && w.Valid()
            && match w.target
               case Redirect(_) => true
               case Item(m, i, b) => m < |p.mimes| && i < |p.clusters| && b < |p.clusters[i].blobs|
  {
    var k := AddOf(c, d);
    PlaceOfAdd(c, k);
    PlanFields(c);
    assert |c.adds| < TWO32;
    if c.adds[k].ItemAdd? {
      SettledItem(c, k);
      ItemPlaced(c, k);
      MimesAreGood(c);
      hide Placed, Settled, PlanOf, Mimes, GoodCreation, ClusterNo, BlobNo, ItemNo, NoNul, MimeNames, M.GoodNames, Contents;
    } else {
      SettledRedirect(c, k);
      NumberIsSmall(c, PP.At(Table(c), d.target));
      hide Placed, Settled, PlanOf, GoodCreation, NumberOf, NoNul, Table, PP.At;
    }
  }

  lemma NumberIsSmall(c: Creation, d: PP.Dirent?)
    requires GoodCreation(c)
    ensures NumberOf(c, d) < TWO32 && MainPage(c) < TWO32
  {
    FinalIs(c);
    assert |c.adds| < TWO32;
    hide Final, Table, GoodCreation;
  }

  lemma PlanWellFormed(c: Creation, encode: Str -> Str)
    requires GoodCreation(c)
    requires Header.SIZE + |M.MimeListBytes(Mimes(c))| < CLUSTER_BASE_OFFSET
    requires ChecksumPos(PlanOf(c), encode) + CHECKSUM_SIZE < TWO64
    requires |PlanOf(c).clusters| <= |PlanOf(c).dirents|
    ensures WellFormed(PlanOf(c), encode)
  {
    PlanFields(c);
    FinalIs(c);
    ItemPlaced(c, c.titleAdd);
    NumberIsSmall(c, null);
    hide PlanOf, Final, Table, Placed, ClusterNo, BlobNo, ItemNo, Mimes, MimeNames, MainPage, NumberOf, ChecksumPos, M.MimeListBytes,
         Distinct, GoodAdd, ListedClusters, AllSettled, Contents;
  }

  lemma FitsParts(c: Creation, encode: Str -> Str)
    requires Fits(PlanOf(c), encode)
    ensures Header.SIZE + |M.MimeListBytes(Mimes(c))| < CLUSTER_BASE_OFFSET
    ensures ChecksumPos(PlanOf(c), encode) + CHECKSUM_SIZE < TWO64
    ensures |PlanOf(c).clusters| <= |PlanOf(c).dirents|
  {
    PlanFields(c);
    hide PlanOf, Archive, DirentOffsets, DF.StepsFit, DF.Encode, OffsetsFit, ChecksumPos, M.MimeListBytes;
  }

  lemma ReadableFrom(p: Plan, encode: Str -> Str)
    requires WellFormed(p, encode) && M.GoodNames(p.mimes) && DL.StrictTable(AR.KeysOf(p.dirents))
    requires forall i :: 0 <= i < |p.dirents| ==> AR.DirentReads(p, encode, i)
    requires forall i :: 0 <= i < |p.clusters| ==> AR.ClusterReads(p.clusters[i])
    ensures AR.Readable(p, encode)
  {
    hide WellFormed, M.GoodNames, DL.StrictTable, AR.KeysOf, AR.DirentReads, AR.ClusterReads;
  }

  /** What the creator makes of good additions can be read, if it fits. */
  lemma PlanIsReadable(c: Creation, encode: Str -> Str)
    requires GoodCreation(c) && Fits(PlanOf(c), encode)
    ensures AR.Readable(PlanOf(c), encode)
  {
    hide *;
    KeysAscend(c);
    FitsParts(c, encode);
    PlanWellFormed(c, encode);
    MimesAreGood(c);
    PlanFields(c);
    ClustersRead(c, encode);
    forall i: nat | i < |PlanOf(c).dirents| ensures AR.DirentReads(PlanOf(c), encode, i) {
      DirentReadsBack(c, encode, i);
    }
    ReadableFrom(PlanOf(c), encode);
  }

  lemma ClustersRead(c: Creation, encode: Str -> Str)
    requires GoodCreation(c) && Fits(PlanOf(c), encode)
    ensures forall i :: 0 <= i < |PlanOf(c).clusters| ==> AR.ClusterReads(PlanOf(c).clusters[i])
  {
    PlanFields(c);
    hide PlanOf, AllSettled, Placed, OffsetsFit, DirentOffsets, ChecksumPos, Archive, M.MimeListBytes, MimeNames,
         GoodAdd, Distinct, W.NeedsExtension;
  }

  lemma DirentReadsBack(c: Creation, encode: Str -> Str, i: nat)
    requires GoodCreation(c) && Fits(PlanOf(c), encode) && WellFormed(PlanOf(c), encode) && i < |PlanOf(c).dirents|
    ensures AR.DirentReads(PlanOf(c), encode, i)
  {
    hide *;
    FinalIs(c);
    SettledAt(c, i);
    var p, d := PlanOf(c), Final(c)[i];
    assert d in Dirents(c.adds);
    DirentIsGood(c, d);
    AR.DirentStored(p, encode, i);
    AR.StoredInside(Archive(p, encode), DirentOffsets(p, encode)[i], p.dirents[i]);
    FitsSteps(p, encode, i);
    DirentReadsFrom(p, encode, i);
  }

  lemma FitsSteps(p: Plan, encode: Str -> Str, i: nat)
    requires Fits(p, encode) && i < |p.dirents| && i < |DirentOffsets(p, encode)|
    requires DirentOffsets(p, encode)[i] <= |Archive(p, encode)|
    ensures DF.StepsFit(|Archive(p, encode)| - DirentOffsets(p, encode)[i], |DF.Encode(p.dirents[i])|)
  {
    hide Archive, DirentOffsets, DF.StepsFit, DF.Encode, OffsetsFit, ChecksumPos, M.MimeListBytes;
  }

  lemma DirentReadsFrom(p: Plan, encode: Str -> Str, i: nat)
    requires i < |p.dirents| && i < |DirentOffsets(p, encode)| && p.dirents[i].Valid()
    requires DirentOffsets(p, encode)[i] <= |Archive(p, encode)|
    requires DF.StepsFit(|Archive(p, encode)| - DirentOffsets(p, encode)[i], |DF.Encode(p.dirents[i])|)
    requires match p.dirents[i].target
             case Redirect(_) => true
             case Item(m, c, b) => m < |p.mimes| && c < |p.clusters| && b < |p.clusters[c].blobs|
    ensures AR.DirentReads(p, encode, i)
  {
    hide Archive, DirentOffsets, DF.StepsFit, DF.Encode, NoNul;
  }

  // ---------------------------------------------------------------- when it fits

  /** Sizes a caller can look at before adding: a cluster limit below 4 GiB, and no item whose size is
      one of the last eight below 4 GiB, which are too large for a 4-byte offset table and not large
      enough for an 8-byte one. */
  predicate GoodSizes(c: Creation) {
    && c.limit <= TWO32 - 4
    && forall k :: 0 <= k < |c.adds| && c.adds[k].ItemAdd? ==> GoodSize(|c.adds[k].content|)
  }

  predicate GoodSize(size: nat) {
    size < TWO32 - 8 || TWO32 <= size < TWO64 - 16
  }

  /** A cluster filled under the limit reads back, unless its only blob has one of those eight sizes. */
  lemma ClusterFits(blobs: seq<Str>, limit: nat)
    requires blobs != [] && IP.BelowLimit(blobs, limit) && limit <= TWO32 - 4
    requires |blobs| == 1 ==> GoodSize(|blobs[0]|)
    ensures OffsetsFit(blobs, Width(W.NeedsExtension(blobs)))
  {
    Pow256Values();
    if |blobs| == 1 {
      assert blobs == [] + [blobs[0]];
      ConcatSnoc([], blobs[0]);
      ConcatEmpty();
      assert W.NeedsExtension(blobs) == (|blobs[0]| > UINT32_MAX);
    } else if W.NeedsExtension(blobs) {
      var i :| 0 <= i < |blobs| && |blobs[i]| > UINT32_MAX;
      ConcatPart(blobs, i);
    }
  }

  /** A listed blob is the content of some item. */
  lemma OnlyItems(c: Creation, i: nat)
    requires GoodSizes(c) && i < |PlanOf(c).clusters|
    ensures OffsetsFit(PlanOf(c).clusters[i].blobs, Width(W.NeedsExtension(PlanOf(c).clusters[i].blobs)))
  {
    hide *;
    var v := Placed(c);
    ClusterOf(c, i);
    IP.EveryBlobIsAnItem(Contents(c.adds), c.limit, i, 0);
    var n :| 0 <= n < |Contents(c.adds)| && v.listed[i][0] == Contents(c.adds)[n].0;
    var k := ContentFrom(c.adds, n);
    SizeIsGood(c, k);
    ClusterFits(v.listed[i], c.limit);
  }

  lemma ClusterOf(c: Creation, i: nat)
    requires i < |PlanOf(c).clusters|
    ensures Placed(c) == IP.FinishView(IP.Run(Contents(c.adds), c.limit))
    ensures var v := Placed(c);
            i < |v.listed| && PlanOf(c).clusters[i].blobs == v.listed[i] && v.listed[i] != [] && IP.BelowLimit(v.listed[i], c.limit)
  {
    IP.EveryItemIsPlaced(Contents(c.adds), c.limit);
    PlanFields(c);
    hide PlanOf, Contents, IP.FinishView, IP.Run, IP.BlobCount, IP.BelowLimit, AllSettled;
  }

  lemma SizeIsGood(c: Creation, k: nat)
    requires GoodSizes(c) && k < |c.adds| && c.adds[k].ItemAdd?
    ensures c.limit <= TWO32 - 4 && GoodSize(|c.adds[k].content|)
  {
    hide GoodSize;
  }

  /** Names short enough for the reader's first buffer. */
  predicate ShortNames(c: Creation) {
    forall k :: 0 <= k < |c.adds| ==> |c.adds[k].d.key.url| + |c.adds[k].d.title| <= 238
  }

  lemma ShortName(c: Creation, d: PP.Dirent)
    requires ShortNames(c) && d in Dirents(c.adds)
    ensures |d.key.url| + |d.title| <= 238
    ensures Settled(c, d).path == d.key.url && Settled(c, d).title == d.title
  {
    var k := AddOf(c, d);
    hide ItemTarget, NumberOf, Table;
  }

  /** No two items at one path, so that the table refuses none. */
  ghost predicate ItemsApart(c: Creation) {
    forall j, k :: 0 <= j < k < |c.adds| && c.adds[j].ItemAdd? && c.adds[k].ItemAdd? ==> c.adds[j].d.key != c.adds[k].d.key
  }

  /** The items' dirents. */
  function ItemDirents(adds: seq<Add>): seq<PP.Dirent> {
    if adds == [] then []
    else ItemDirents(adds[..|adds| - 1]) + (if adds[|adds| - 1].ItemAdd? then [adds[|adds| - 1].d] else [])
  }

  lemma {:induction false} ItemDirentsOf(adds: seq<Add>)
    requires Distinct(Dirents(adds))
    ensures |ItemDirents(adds)| == |Contents(adds)| && Distinct(ItemDirents(adds))
    ensures forall d :: d in ItemDirents(adds) ==> exists k :: 0 <= k < |adds| && adds[k].ItemAdd? && adds[k].d == d
  {
    if adds != [] {
      var n := |adds| - 1;
      assert forall i :: 0 <= i < n ==> Dirents(adds[..n])[i] == Dirents(adds)[i];
      ItemDirentsOf(adds[..n]);
      assert ItemDirents(adds) == ItemDirents(adds[..n]) + (if adds[n].ItemAdd? then [adds[n].d] else []);
      assert |Contents(adds)| == |Contents(adds[..n])| + (if adds[n].ItemAdd? then 1 else 0);
      hide ItemDirents, Contents;
      var front := ItemDirents(adds[..n]);
      forall d | d in front ensures d != adds[n].d && exists k :: 0 <= k < |adds| && adds[k].ItemAdd? && adds[k].d == d {
        var k :| 0 <= k < n && adds[..n][k].ItemAdd? && adds[..n][k].d == d;
        assert adds[k].d == d && Dirents(adds)[k] != Dirents(adds)[n];
      }
      assert forall i :: 0 <= i < |front| ==> front[i] in front;
    }
  }

  /** Without refused items there are no more clusters than entries. */
  lemma ClustersFew(c: Creation)
    requires GoodCreation(c) && ItemsApart(c)
    ensures |PlanOf(c).clusters| <= |PlanOf(c).dirents|
  {
    hide *;
    TitleIsItem(c);
    ItemPlaced(c, c.titleAdd);
    PlanFields(c);
    var items := ItemDirents(c.adds);
    ItemDirentsOf(c.adds);
    forall d | d in items ensures d in Final(c) {
      var k :| 0 <= k < |c.adds| && c.adds[k].ItemAdd? && c.adds[k].d == d;
      ApartIsFirst(c, k);
      ItemStays(c, k);
    }
    NoMoreThan(items, Final(c));
  }

  lemma TitleIsItem(c: Creation)
    requires GoodCreation(c)
    ensures c.titleAdd < |c.adds| && c.adds[c.titleAdd].ItemAdd? && Distinct(Dirents(c.adds))
  {
    hide Distinct, GoodAdd, MimeNames;
  }

  lemma StoredLeft(p: Plan, encode: Str -> Str, i: nat)
    requires i < |p.dirents| && i < |DirentOffsets(p, encode)|
    requires DF.StoredAt(Archive(p, encode), DirentOffsets(p, encode)[i], p.dirents[i])
    ensures DirentOffsets(p, encode)[i] + |DF.Encode(p.dirents[i])| <= |Archive(p, encode)|
  {
    hide Archive, DirentOffsets, DF.Encode;
  }

  lemma FitsFrom(p: Plan, encode: Str -> Str)
    requires Header.SIZE + |M.MimeListBytes(p.mimes)| < CLUSTER_BASE_OFFSET
    requires ChecksumPos(p, encode) + CHECKSUM_SIZE < TWO64
    requires |p.clusters| <= |p.dirents|
    requires forall i :: 0 <= i < |p.clusters| ==> OffsetsFit(p.clusters[i].blobs, Width(W.NeedsExtension(p.clusters[i].blobs)))
    requires forall i :: 0 <= i < |p.dirents| && i < |DirentOffsets(p, encode)| && DirentOffsets(p, encode)[i] <= |Archive(p, encode)| ==>
               DF.StepsFit(|Archive(p, encode)| - DirentOffsets(p, encode)[i], |DF.Encode(p.dirents[i])|)
    ensures Fits(p, encode)
  {
    hide Archive, DirentOffsets, DF.StepsFit, DF.Encode, OffsetsFit, ChecksumPos, M.MimeListBytes, W.NeedsExtension, Width;
  }

  lemma ShortDirentSteps(d: DF.WriterDirent, left: nat)
    requires |d.path| + |d.title| <= 238 && |DF.Encode(d)| <= left
    ensures DF.StepsFit(left, |DF.Encode(d)|)
  {
    DF.HeadParts(d);
    hide DF.Head, DF.RoundUp;
  }

  /** Good sizes, short names, no two items at one path, a MIME list before byte 1024 and a file below
      2^64 bytes are enough. */
  lemma SmallCreationFits(c: Creation, encode: Str -> Str)
    requires GoodCreation(c) && GoodSizes(c) && ShortNames(c) && ItemsApart(c)
    requires Header.SIZE + |M.MimeListBytes(Mimes(c))| < CLUSTER_BASE_OFFSET
    requires ChecksumPos(PlanOf(c), encode) + CHECKSUM_SIZE < TWO64
    ensures Fits(PlanOf(c), encode)
  {
    hide *;
    var p := PlanOf(c);
    FinalIs(c);
    ClustersFew(c);
    PlanFields(c);
    PlanWellFormed(c, encode);
    forall i: nat | i < |p.clusters| ensures OffsetsFit(p.clusters[i].blobs, Width(W.NeedsExtension(p.clusters[i].blobs))) {
      OnlyItems(c, i);
    }
    forall i: nat | i < |p.dirents| && i < |DirentOffsets(p, encode)| && DirentOffsets(p, encode)[i] <= |Archive(p, encode)|
      ensures DF.StepsFit(|Archive(p, encode)| - DirentOffsets(p, encode)[i], |DF.Encode(p.dirents[i])|)
    {
      SettledAt(c, i);
      ShortName(c, Final(c)[i]);
      AR.DirentStored(p, encode, i);
      StoredLeft(p, encode, i);
      ShortDirentSteps(p.dirents[i], |Archive(p, encode)| - DirentOffsets(p, encode)[i]);
    }
    FitsFrom(p, encode);
  }

  // ---------------------------------------------------------------- which additions stay

  /** The first item of its path. */
  predicate FirstItem(c: Creation, k: nat)
    requires k < |c.adds|
  {
    c.adds[k].ItemAdd? && forall j :: 0 <= j < k && c.adds[j].d.key == c.adds[k].d.key ==> c.adds[j].RedirectAdd?
  }

  /** The first addition of its path, which no item has. */
  predicate FirstRedirect(c: Creation, k: nat)
    requires k < |c.adds|
  {
    && c.adds[k].RedirectAdd?
    && (forall j :: 0 <= j < k ==> c.adds[j].d.key != c.adds[k].d.key)
    && (forall j :: 0 <= j < |c.adds| && c.adds[j].d.key == c.adds[k].d.key ==> c.adds[j].RedirectAdd?)
  }

  lemma ApartIsFirst(c: Creation, k: nat)
    requires ItemsApart(c) && k < |c.adds| && c.adds[k].ItemAdd?
    ensures FirstItem(c, k)
  {
  }

  /** Every path that anything was added at has one of the two. */
  lemma FirstOfPath(c: Creation, key: DL.DirentKey) returns (k: nat)
    requires GoodCreation(c) && exists j :: 0 <= j < |c.adds| && c.adds[j].d.key == key
    ensures k < |c.adds| && c.adds[k].d.key == key && (FirstItem(c, k) || FirstRedirect(c, k))
  {
    var ds := Dirents(c.adds);
    PP.WinnerIsFirst(ds, key);
    var j :| 0 <= j < |c.adds| && c.adds[j].d.key == key;
    assert ds[j].key == key;
    k := PP.Winner(ds, key);
    hide Dirents, GoodCreation;
    forall i | 0 <= i < |c.adds| ensures c.adds[i].d.isRedirect <==> c.adds[i].RedirectAdd? { PlaceOfAdd(c, i); }
    assert forall i :: 0 <= i < |c.adds| ==> ds[i] == c.adds[i].d;
  }

  /** It is what the table holds at its path. */
  lemma FirstIsThere(c: Creation, k: nat)
    requires GoodCreation(c) && k < |c.adds| && (FirstItem(c, k) || FirstRedirect(c, k))
    ensures c.adds[k].d in Table(c) && PP.At(Table(c), c.adds[k].d.key) == c.adds[k].d
  {
    var ds, key := Dirents(c.adds), c.adds[k].d.key;
    PP.WinnerIsFirst(ds, key);
    PP.FirstItemWins(ds, key);
    hide PP.Winner, PP.AddAll, Dirents, GoodCreation;
    forall i | 0 <= i < |c.adds| ensures ds[i] == c.adds[i].d && (ds[i].isRedirect <==> c.adds[i].RedirectAdd?) { PlaceOfAdd(c, i); }
    assert PP.Winner(ds, key) == k;
  }

  /** No redirect can remove an item. */
  lemma ItemStays(c: Creation, k: nat)
    requires GoodCreation(c) && k < |c.adds| && FirstItem(c, k)
    ensures c.adds[k].d in Final(c)
  {
    FirstIsThere(c, k);
    PlaceOfAdd(c, k);
    var t := Table(c);
    var i :| 0 <= i < |t| && t[i] == c.adds[k].d;
    PP.AliveIsKept(t, i);
    hide Table, PP.Kept, GoodCreation;
  }

  /** An entry holds the first of its path. */
  lemma OnlyEntry(c: Creation, k: nat, d: PP.Dirent)
    requires GoodCreation(c) && k < |c.adds| && (FirstItem(c, k) || FirstRedirect(c, k))
    requires d in Final(c) && d.key == c.adds[k].d.key
    ensures d == c.adds[k].d
  {
    FinalIs(c);
    TableIs(c);
    FirstIsThere(c, k);
    hide Table, Final, GoodCreation, FirstItem, FirstRedirect, PP.At;
    var i :| 0 <= i < |Table(c)| && Table(c)[i] == d;
    PP.AtIndex(Table(c), d.key, i);
  }

  // ---------------------------------------------------------------- the theorem

  /** What the reader says of the finished archive. */
  function Ask(c: Creation, encode: Str -> Str, decode: Str -> Str, key: DL.DirentKey): AR.Result {
    AR.LookUp(Archive(PlanOf(c), encode), key.ns, key.url, decode)
  }

  lemma AskIs(c: Creation, encode: Str -> Str, decode: Str -> Str, key: DL.DirentKey)
    ensures Ask(c, encode, decode, key) == AR.LookUp(Archive(PlanOf(c), encode), key.ns, key.url, decode)
    ensures DL.DirentKey(key.ns, key.url) == key
  {
    hide AR.LookUp, Archive, PlanOf;
  }

  function TitleOr(title: Str, path: Str): Str {
    if title == [] then path else title
  }

  lemma EntryIsFound(c: Creation, encode: Str -> Str, decode: Str -> Str, d: PP.Dirent) returns (i: nat)
    requires GoodCreation(c) && Fits(PlanOf(c), encode) && AR.Inverse(encode, decode) && d in Final(c)
    ensures i < |PlanOf(c).dirents| && PlanOf(c).dirents[i] == Settled(c, d)
    ensures AR.Readable(PlanOf(c), encode) && AR.DirentReads(PlanOf(c), encode, i)
    ensures Ask(c, encode, decode, d.key) == AR.Expected(PlanOf(c), i)
  {
    hide *;
    var p := PlanOf(c);
    PlanIsReadable(c, encode);
    AR.ReadableParts(p, encode);
    i := IndexIn(Final(c), d);
    PlanFields(c);
    SettledAt(c, i);
    AskIs(c, encode, decode, d.key);
    AR.LookUpFinds(p, encode, decode, d.key.ns, d.key.url);
    AR.EntryIsRead(p, encode, decode, i);
  }

  /** Every item that is the first of its path is found under that path, with its title (the path, if it
      had none), its MIME type and exactly its content, whatever redirects were added. */
  lemma ItemsComeBack(c: Creation, encode: Str -> Str, decode: Str -> Str, k: nat)
    requires GoodCreation(c) && Fits(PlanOf(c), encode) && AR.Inverse(encode, decode) && k < |c.adds| && FirstItem(c, k)
    ensures var a := c.adds[k];
            Ask(c, encode, decode, a.d.key) == AR.Result.Found(TitleOr(a.d.title, a.d.key.url), a.mime, a.content)
  {
    hide *;
    IsItem(c, k);
    ItemStays(c, k);
    var i := EntryIsFound(c, encode, decode, c.adds[k].d);
    SettledItem(c, k);
    ItemPlaced(c, k);
    ItemCode(c, k);
    ItemExpected(c, k, i);
  }

  lemma IsItem(c: Creation, k: nat)
    requires k < |c.adds| && FirstItem(c, k)
    ensures c.adds[k].ItemAdd?
  {
  }

  lemma ItemCode(c: Creation, k: nat)
    requires GoodCreation(c) && k < |c.adds| && c.adds[k].ItemAdd?
    ensures var m := IndexIn(Mimes(c), c.adds[k].mime); m < |PlanOf(c).mimes| && PlanOf(c).mimes[m] == c.adds[k].mime
  {
    PlanFields(c);
    MimesAreGood(c);
    hide PlanOf, Mimes, GoodCreation;
  }

  lemma ItemExpected(c: Creation, k: nat, i: nat)
    requires GoodCreation(c) && k < |c.adds| && c.adds[k].ItemAdd? && i < |PlanOf(c).dirents|
    requires var d := c.adds[k].d; PlanOf(c).dirents[i] == DF.WriterDirent(d.key.ns, d.key.url, d.title, ItemTarget(c, k))
    requires var n, b := ClusterNo(Placed(c), ItemNo(c.adds, k)), BlobNo(Placed(c), ItemNo(c.adds, k));
             && n < |PlanOf(c).clusters| && b < |PlanOf(c).clusters[n].blobs|
             && PlanOf(c).clusters[n].blobs[b] == c.adds[k].content
    requires IndexIn(Mimes(c), c.adds[k].mime) < |PlanOf(c).mimes|
    ensures var a := c.adds[k];
            AR.Expected(PlanOf(c), i) == AR.Result.Found(TitleOr(a.d.title, a.d.key.url), a.mime, a.content)
  {
    ItemCode(c, k);
    hide PlanOf, Placed, Mimes, IndexIn, ClusterNo, BlobNo, ItemNo, GoodCreation, MimeNames, M.GoodNames;
  }

  /** A path that has no entry is not found. */
  lemma NoEntryIsFound(c: Creation, encode: Str -> Str, decode: Str -> Str, key: DL.DirentKey)
    requires GoodCreation(c) && Fits(PlanOf(c), encode) && AR.Inverse(encode, decode)
    requires forall d :: d in Final(c) ==> d.key != key
    ensures Ask(c, encode, decode, key) == AR.NotFound
  {
    hide *;
    var p := PlanOf(c);
    PlanIsReadable(c, encode);
    AskIs(c, encode, decode, key);
    forall i | 0 <= i < |p.dirents| ensures AR.KeyOf(p.dirents[i]) != key {
      SettledAt(c, i);
      assert Final(c)[i] in Final(c);
    }
    AR.LookUpFinds(p, encode, decode, key.ns, key.url);
  }

  /** A redirect whose path has no item, the first of it. If a chain of redirects leads down from it to
      a path where nothing was added, it was removed and is not found; otherwise it is found, and it
      leads to the entry at its target exactly when no such chain leads down from the target. */
  lemma RedirectsComeBack(c: Creation, encode: Str -> Str, decode: Str -> Str, k: nat)
    requires GoodCreation(c) && Fits(PlanOf(c), encode) && AR.Inverse(encode, decode) && k < |c.adds| && FirstRedirect(c, k)
    ensures var d := c.adds[k].d;
            var r := Ask(c, encode, decode, d.key);
            if Dangles(c, d.key) then r == AR.NotFound
            else && r.RedirectTo? && r.title == TitleOr(d.title, d.key.url)
                 && (LeadsTo(c, r.index, d.target) <==> !Dangles(c, d.target))
  {
    hide *;
    var d := c.adds[k].d;
    FirstIsThere(c, k);
    GoneIffDangles(c, d);
    if Dangles(c, d.key) {
      forall e | e in Final(c) ensures e.key != d.key {
        if e.key == d.key { OnlyEntry(c, k, e); }
      }
      NoEntryIsFound(c, encode, decode, d.key);
    } else {
      var i := EntryIsFound(c, encode, decode, d);
      RedirectIs(c, k);
      SettledRedirect(c, k);
      RedirectExpected(c, d, i);
      NumberLeads(c, d);
    }
  }

  lemma RedirectIs(c: Creation, k: nat)
    requires GoodCreation(c) && k < |c.adds| && FirstRedirect(c, k)
    ensures c.adds[k].RedirectAdd? && c.adds[k].d.isRedirect
  {
    PlaceOfAdd(c, k);
    hide GoodCreation;
  }

  /** The number is that of the entry at this path. */
  predicate LeadsTo(c: Creation, index: nat, key: DL.DirentKey) {
    index < |PlanOf(c).dirents| && AR.KeyOf(PlanOf(c).dirents[index]) == key
  }

  lemma RedirectExpected(c: Creation, d: PP.Dirent, i: nat)
    requires i < |PlanOf(c).dirents|
    requires PlanOf(c).dirents[i] == DF.WriterDirent(d.key.ns, d.key.url, d.title, DF.Redirect(NumberOf(c, PP.At(Table(c), d.target))))
    ensures AR.Expected(PlanOf(c), i) == AR.RedirectTo(TitleOr(d.title, d.key.url), NumberOf(c, PP.At(Table(c), d.target)))
  {
    hide PlanOf, NumberOf, Table, PP.At;
  }

  /** The number written for a redirect that stayed. */
  lemma NumberLeads(c: Creation, d: PP.Dirent)
    requires d in Final(c) && d.isRedirect
    ensures LeadsTo(c, NumberOf(c, PP.At(Table(c), d.target)), d.target) <==> !Dangles(c, d.target)
  {
    hide *;
    FinalIs(c);
    PlanFields(c);
    var t := TargetOf(c, d);
    GoneIffDangles(c, t);
    NumberIs(c, t);
    var n := NumberOf(c, t);
    if n < |PlanOf(c).dirents| { SettledAt(c, n); }
    LeadsIs(c, n, d.target);
    if t !in Final(c) && n < |Final(c)| && Final(c)[n].key == d.target {
      SameKey(c, Final(c)[n], t);
    }
  }

  lemma LeadsIs(c: Creation, n: nat, key: DL.DirentKey)
    ensures LeadsTo(c, n, key) <==> n < |PlanOf(c).dirents| && AR.KeyOf(PlanOf(c).dirents[n]) == key
  {
    hide PlanOf;
  }

  lemma NumberIs(c: Creation, t: PP.Dirent)
    ensures t in Final(c) ==> NumberOf(c, t) < |Final(c)| && Final(c)[NumberOf(c, t)] == t
  {
    hide Final;
  }

  lemma SameKey(c: Creation, d: PP.Dirent, t: PP.Dirent)
    requires d in Table(c) && t in Table(c) && d.key == t.key
    ensures d == t
  {
    TableIs(c);
    hide Table;
    var i :| 0 <= i < |Table(c)| && Table(c)[i] == d;
    var j :| 0 <= j < |Table(c)| && Table(c)[j] == t;
    PP.AtIndex(Table(c), d.key, i);
    PP.AtIndex(Table(c), d.key, j);
  }

  /** The dirent at the target of a redirect that stayed. */
  lemma TargetOf(c: Creation, d: PP.Dirent) returns (t: PP.Dirent)
    requires d in Final(c) && d.isRedirect
    ensures PP.At(Table(c), d.target) == t && t in Table(c) && t.key == d.target
  {
    var s := Table(c);
    TableIs(c);
    var j :| 0 <= j < |Final(c)| && Final(c)[j] == d;
    var i := PP.KeptIndex(s, |s|, j);
    assert PP.Has(s, d.target);
    hide Table, PP.Dead, PP.Kept, PP.Place;
    t := s[PP.Place(s, d.target)];
  }

  /** A path that nobody added is not found. */
  lemma NothingElseIsFound(c: Creation, encode: Str -> Str, decode: Str -> Str, key: DL.DirentKey)
    requires GoodCreation(c) && Fits(PlanOf(c), encode) && AR.Inverse(encode, decode)
    requires forall k :: 0 <= k < |c.adds| ==> c.adds[k].d.key != key
    ensures Ask(c, encode, decode, key) == AR.NotFound
  {
    hide *;
    FinalIs(c);
    forall d | d in Final(c) ensures d.key != key {
      var k := AddOf(c, d);
    }
    NoEntryIsFound(c, encode, decode, key);
  }

  // ---------------------------------------------------------------- items that are refused

  // ---------------------------------------------------------------- the main page

  /** What the header says of the main page: nothing if there is none or if it was removed, as a redirect
      from which a chain leads down to nothing; the entry at its path if it is the one its path keeps;
      and entry 0, whatever that is, if it was refused. */
  lemma MainPageIs(c: Creation, encode: Str -> Str, k: nat)
    requires GoodCreation(c) && Fits(PlanOf(c), encode)
    requires c.main != null ==> k < |c.adds| && c.main == c.adds[k].d
    ensures var h := HeaderOfPlan(PlanOf(c), encode);
            && Header.ReadHeader(Archive(PlanOf(c), encode)) == Header.Ok(h)
            && if c.main == null then h.mainPage == 0xffff_ffff
               else if !FirstItem(c, k) && !FirstRedirect(c, k) then h.mainPage == 0
               else if Dangles(c, c.main.key) then h.mainPage == 0xffff_ffff
               else LeadsTo(c, h.mainPage, c.main.key)
  {
    hide *;
    var p := PlanOf(c);
    PlanIsReadable(c, encode);
    AR.ReadableParts(p, encode);
    AR.ArchiveOpens(p, encode);
    PlanFields(c);
    HeaderMainPage(p, encode);
    MainPageCases(c);
    if c.main != null {
      if FirstItem(c, k) || FirstRedirect(c, k) {
        FirstIsThere(c, k);
        GoneIffDangles(c, c.main);
        NumberIs(c, c.main);
        var n := NumberOf(c, c.main);
        if n < |p.dirents| { SettledAt(c, n); }
        LeadsIs(c, n, c.main.key);
      } else {
        RefusedIsOut(c, k);
      }
    }
  }

  lemma HeaderMainPage(p: Plan, encode: Str -> Str)
    ensures HeaderOfPlan(p, encode).mainPage == p.mainPage
  {
    hide AnyExtended, UrlPtrPos, TitleIdxPos, ClusterPtrPos, ChecksumPos;
  }

  lemma MainPageCases(c: Creation)
    ensures c.main == null ==> MainPage(c) == 0xffff_ffff
    ensures c.main != null && c.main in Table(c) && c.main !in Final(c) ==> MainPage(c) == 0xffff_ffff
    ensures c.main != null && c.main in Final(c) ==> MainPage(c) == NumberOf(c, c.main)
    ensures c.main != null && c.main !in Table(c) && c.main !in Final(c) ==> MainPage(c) == 0
  {
    hide Table, Final;
  }

  /** An addition that is neither is not in the table. */
  lemma RefusedIsOut(c: Creation, k: nat)
    requires GoodCreation(c) && k < |c.adds| && !FirstItem(c, k) && !FirstRedirect(c, k)
    ensures c.adds[k].d !in Table(c) && c.adds[k].d !in Final(c)
  {
    hide *;
    var d := c.adds[k].d;
    var w := FirstOfPath(c, d.key);
    FirstIsThere(c, w);
    TableIs(c);
    FinalIs(c);
    if d in Table(c) {
      var i :| 0 <= i < |Table(c)| && Table(c)[i] == d;
      PP.AtIndex(Table(c), d.key, i);
      PlaceOfAdd(c, k);
      PlaceOfAdd(c, w);
      assert false;
    }
  }

  lemma {:induction false} OneBlobEach(listed: seq<seq<Str>>)
    requires forall i :: 0 <= i < |listed| ==> |listed[i]| == 1
    ensures IP.BlobCount(listed) == |listed|
  {
    if listed != [] { OneBlobEach(listed[..|listed| - 1]); }
  }

  /** With a cluster limit of zero every item has a cluster of its own. */
  lemma ClusterEach(c: Creation)
    requires c.limit == 0
    ensures |PlanOf(c).clusters| == |Contents(c.adds)|
  {
    PlanFields(c);
    IP.EveryItemIsPlaced(Contents(c.adds), c.limit);
    hide PlanOf, IP.FinishView, IP.Run, IP.BlobCount, Contents;
    var listed := Placed(c).listed;
    forall i | 0 <= i < |listed| ensures |listed[i]| == 1 { assert IP.BelowLimit(listed[i], 0); }
    OneBlobEach(listed);
  }

  lemma {:induction false} OnlyItemsCount(adds: seq<Add>)
    requires forall k :: 0 <= k < |adds| ==> adds[k].ItemAdd?
    ensures |Contents(adds)| == |adds|
  {
    if adds != [] { OnlyItemsCount(adds[..|adds| - 1]); }
  }

  /** The second item at a path has no entry. */
  lemma SecondHasNone(c: Creation, j: nat, k: nat)
    requires GoodCreation(c) && j < k < |c.adds| && c.adds[j].ItemAdd? && c.adds[k].ItemAdd?
    requires c.adds[j].d.key == c.adds[k].d.key
    ensures c.adds[k].d !in Final(c) && |Final(c)| < |c.adds|
  {
    hide *;
    var d := c.adds[k].d;
    var w := FirstOfPath(c, d.key);
    FirstIsNot(c, j, k, w);
    if d in Final(c) { OnlyEntry(c, w, d); }
    FinalIs(c);
    PP.DistinctDirents(Final(c));
    AreDistinct(Final(c));
    OneLess(Final(c), Dirents(c.adds), k);
  }

  lemma FirstIsNot(c: Creation, j: nat, k: nat, w: nat)
    requires GoodCreation(c) && j < k < |c.adds| && c.adds[j].ItemAdd? && c.adds[k].ItemAdd? && w < |c.adds|
    requires c.adds[j].d.key == c.adds[k].d.key == c.adds[w].d.key && (FirstItem(c, w) || FirstRedirect(c, w))
    ensures c.adds[k].d == Dirents(c.adds)[k] && c.adds[w].d != c.adds[k].d
  {
    PlaceOfAdd(c, k);
    PlaceOfAdd(c, w);
    hide GoodCreation, IndexIn;
  }

  lemma AreDistinct<T>(s: seq<T>)
    requires forall i, j :: 0 <= i < j < |s| ==> s[i] != s[j]
    ensures Distinct(s)
  {
  }

  lemma OneLess<T>(a: seq<T>, b: seq<T>, k: nat)
    requires Distinct(a) && k < |b| && b[k] !in a && forall x :: x in a ==> x in b
    ensures |a| < |b|
  {
    var others := b[..k] + b[k + 1..];
    forall x | x in a ensures x in others {
      var i :| 0 <= i < |b| && b[i] == x;
      assert others[if i < k then i else i - 1] == x;
    }
    NoMoreThan(a, others);
  }

  /** Why no two items may share a path: the data of a refused item is stored all the same, and if that
      makes more clusters than entries the reader refuses the archive. With a cluster limit of zero
      it does so for every list of items in which a path repeats. */
  lemma RefusedItemClosesArchive(c: Creation, encode: Str -> Str, j: nat, k: nat)
    requires GoodCreation(c) && c.limit == 0 && Writable(PlanOf(c), encode)
    requires forall i :: 0 <= i < |c.adds| ==> c.adds[i].ItemAdd?
    requires j < k < |c.adds| && c.adds[j].d.key == c.adds[k].d.key
    ensures Header.ReadHeader(Archive(PlanOf(c), encode)) == Header.Insane
  {
    hide *;
    ClusterEach(c);
    OnlyItemsCount(c.adds);
    SecondHasNone(c, j, k);
    PlanFields(c);
    AR.OpensIff(PlanOf(c), encode);
  }

  // ---------------------------------------------------------------- from the threads to the file

  /** The pipeline as it runs for these clusters: cluster c's image is what its closed cluster writes. */
  function ImageFor(clusters: seq<ClusterData>, encode: Str -> Str): nat -> Str {
    (c: nat) => if c < |clusters| then ImageOf(clusters[c], encode) else []
  }

  lemma {:induction false} ImagesAgree(clusters: seq<ClusterData>, encode: Str -> Str, n: nat)
    requires n <= |clusters|
    ensures P.Images(ImageFor(clusters, encode), n) == Concat(Images(clusters, encode)[..n])
  {
    var images := Images(clusters, encode);
    if n > 0 {
      ImagesAgree(clusters, encode, n - 1);
      AW.Snoc(images, n - 1);
    } else {
      ConcatEmpty();
      assert images[..0] == [];
    }
  }

  /** When the writer thread has been joined, in whatever order the threads ran, the file and the
      recorded offsets are what the rest of `finishZimCreation` starts from. */
  lemma PipelineFillsFile(p: Plan, encode: Str -> Str, cfg: P.Config, run: seq<P.Actor>)
    requires cfg.image == ImageFor(p.clusters, encode) && P.Closes(cfg.plan, |cfg.plan|) == |p.clusters|
    requires P.Run(cfg, P.Init(cfg), run) && P.After(cfg, P.Init(cfg), run).main.Finished?
    ensures var s := P.After(cfg, P.Init(cfg), run);
            && s.file == Concat(Images(p.clusters, encode))
            && |ClusterOffsets(p, encode)| == |p.clusters|
            && forall c: nat :: c < |p.clusters| ==> c in s.offsets && s.offsets[c] == ClusterOffsets(p, encode)[c]
  {
    hide *;
    P.FinishedIsComplete(cfg, run);
    var s := P.After(cfg, P.Init(cfg), run);
    AllImages(p, encode);
    forall c: nat | c < |p.clusters| ensures c in s.offsets && s.offsets[c] == ClusterOffsets(p, encode)[c] {
      PlaceOf(cfg, s, c);
      OffsetAgrees(p, encode, c);
    }
  }

  lemma PlaceOf(cfg: P.Config, s: P.State, c: nat)
    requires P.InPlace(cfg, s, c)
    ensures c in s.offsets && s.offsets[c] == CLUSTER_BASE_OFFSET + |P.Images(cfg.image, c)|
  {
    hide P.Images;
  }

  lemma AllImages(p: Plan, encode: Str -> Str)
    ensures P.Images(ImageFor(p.clusters, encode), |p.clusters|) == Concat(Images(p.clusters, encode))
    ensures |ClusterOffsets(p, encode)| == |p.clusters|
  {
    var images := Images(p.clusters, encode);
    ImagesAgree(p.clusters, encode, |p.clusters|);
    PointerCounts(p, encode);
    assert images[..|images|] == images;
    hide P.Images, Images, ImageOf, Concat;
  }

  lemma OffsetAgrees(p: Plan, encode: Str -> Str, c: nat)
    requires c < |p.clusters|
    ensures c < |ClusterOffsets(p, encode)|
    ensures ClusterOffsets(p, encode)[c] == CLUSTER_BASE_OFFSET + |P.Images(ImageFor(p.clusters, encode), c)|
  {
    ImagesAgree(p.clusters, encode, c);
    hide P.Images, Images, ImageOf, Concat, ImageFor;
  }
}
