/** What is added to an archive, and what the creator makes of it: the final entries, their numbers,
    MIME codes and places in the clusters (src/writer/creator.cpp: createDirent, createRedirectDirent,
    addItemData, finishZimCreation). `CreatorRun` shows that the creator's objects hold just this. */
module Additions {
  import opened Bytes
  import opened Sequences
  import opened Sorting
  import opened ClusterFormat
  import opened ArchiveFormat
  import DF = DirentFormat
  import DL = DirentLookup
  import IP = ItemPlacement
  import M = MimeTypes
  import PP = PostProcessing
  import TL = TitleListing

  /** An item or a redirect, with the dirent made for it. The MIME type is the one given a code;
      `front` says whether the hint FRONT_ARTICLE was given. */
  datatype Add =
    | ItemAdd(d: PP.Dirent, mime: Str, content: Str, compress: bool, front: bool)
    | RedirectAdd(d: PP.Dirent, front: bool)

  /** The additions in the order of their dirents, which is that of the items' data too; the main page
      and the handlers' items come last. `titleAdd` is the item of the full title listing, `frontAdd`
      that of the listing of front articles. */
  datatype Creation = Creation(
    adds: seq<Add>,
    titleAdd: nat,
    frontAdd: nat,
    main: PP.Dirent?,
    compression: Compression,
    limit: nat,
    uuid: Str)

  const NO_PAGE: nat := 0xffff_ffff

  function Dirents(adds: seq<Add>): (ds: seq<PP.Dirent>)
    ensures |ds| == |adds| && forall k :: 0 <= k < |ds| ==> ds[k] == adds[k].d
  {
    seq(|adds|, k requires 0 <= k < |adds| => adds[k].d)
  }

  // ---------------------------------------------------------------- the items' data

  /** What goes to the clusters: the content of every item, refused by the table or not. */
  function Contents(adds: seq<Add>): seq<(Str, bool)> {
    if adds == [] then []
    else
      var a := adds[|adds| - 1];
      Contents(adds[..|adds| - 1]) + (if a.ItemAdd? then [(a.content, a.compress)] else [])
  }

  /** The number of items before addition k. */
  function ItemNo(adds: seq<Add>, k: nat): nat
    requires k <= |adds|
  {
    |Contents(adds[..k])|
  }

  lemma {:induction false} ContentOf(adds: seq<Add>, k: nat)
    requires k < |adds| && adds[k].ItemAdd?
    ensures ItemNo(adds, k) < |Contents(adds)| <= |adds|
    ensures Contents(adds)[ItemNo(adds, k)] == (adds[k].content, adds[k].compress)
  {
    ContentsSize(adds);
    var n := |adds| - 1;
    if k < n {
      assert adds[..n][..k] == adds[..k];
      ContentOf(adds[..n], k);
    }
  }

  lemma {:induction false} ContentsSize(adds: seq<Add>)
    ensures |Contents(adds)| <= |adds|
  {
    if adds != [] { ContentsSize(adds[..|adds| - 1]); }
  }

  /** Every content is that of some item. */
  lemma {:induction false} ContentFrom(adds: seq<Add>, n: nat) returns (k: nat)
    requires n < |Contents(adds)|
    ensures k < |adds| && adds[k].ItemAdd? && ItemNo(adds, k) == n
    ensures Contents(adds)[n] == (adds[k].content, adds[k].compress)
  {
    var last := |adds| - 1;
    if n < |Contents(adds[..last])| {
      k := ContentFrom(adds[..last], n);
      assert adds[..last][..k] == adds[..k];
    } else {
      k := last;
    }
  }

  function Placed(c: Creation): IP.View {
    IP.FinishView(IP.Run(Contents(c.adds), c.limit))
  }

  function ClusterNo(v: IP.View, n: nat): nat {
    if n < |v.items| && v.items[n].where.Listed? then v.items[n].where.i else 0
  }

  function BlobNo(v: IP.View, n: nat): nat {
    if n < |v.items| then v.items[n].blob else 0
  }

  function ListedClusters(v: IP.View, compression: Compression): (cs: seq<ClusterData>)
    ensures |cs| == |v.listed|
    ensures forall i :: 0 <= i < |cs| ==> cs[i] == ClusterData(if i < |v.kinds| && v.kinds[i] then compression else None, v.listed[i])
  {
    seq(|v.listed|, i requires 0 <= i < |v.listed| =>
      ClusterData(if i < |v.kinds| && v.kinds[i] then compression else None, v.listed[i]))
  }

  // ---------------------------------------------------------------- the tables

  /** The MIME types in the order in which they first come. */
  function MimeNames(adds: seq<Add>): seq<Str> {
    if adds == [] then []
    else
      var names, a := MimeNames(adds[..|adds| - 1]), adds[|adds| - 1];
      if a.ItemAdd? && a.mime !in names then names + [a.mime] else names
  }

  function Mimes(c: Creation): seq<Str> {
    Sort(MimeNames(c.adds), M.Itself)
  }

  /** The table of dirents when everything has been added. */
  function Table(c: Creation): seq<PP.Dirent> {
    PP.AddAll(Dirents(c.adds))
  }

  /** The entries of the archive: without the redirects that were removed. */
  function Final(c: Creation): seq<PP.Dirent> {
    PP.Kept(Table(c), |Table(c)|)
  }

  /** The dirent's rank among the entries; one that is no entry was given no number and holds 0. */
  function NumberOf(c: Creation, d: PP.Dirent?): nat {
    if d != null && d in Final(c) then IndexIn(Final(c), d) else 0
  }

  function MainPage(c: Creation): nat {
    if c.main == null || (c.main in Table(c) && c.main !in Final(c)) then NO_PAGE else NumberOf(c, c.main)
  }

  /** The dirent as it is written: an item with its MIME code, cluster and blob, a redirect with the
      number of the dirent that was at its target. */
  function Settled(c: Creation, d: PP.Dirent): DF.WriterDirent {
    var k := IndexIn(Dirents(c.adds), d);
    DF.WriterDirent(d.key.ns, d.key.url, d.title,
                    if k < |c.adds| && c.adds[k].ItemAdd? then ItemTarget(c, k) else DF.Redirect(NumberOf(c, PP.At(Table(c), d.target))))
  }

  function ItemTarget(c: Creation, k: nat): DF.Target
    requires k < |c.adds| && c.adds[k].ItemAdd?
  {
    var n := ItemNo(c.adds, k);
    DF.Item(IndexIn(Mimes(c), c.adds[k].mime), ClusterNo(Placed(c), n), BlobNo(Placed(c), n))
  }

  function AllSettled(c: Creation): (ds: seq<DF.WriterDirent>)
    ensures |ds| == |Final(c)| && forall i :: 0 <= i < |ds| ==> ds[i] == Settled(c, Final(c)[i])
  {
    seq(|Final(c)|, i requires 0 <= i < |Final(c)| => Settled(c, Final(c)[i]))
  }

  function PlanOf(c: Creation): Plan {
    var v, n := Placed(c), if c.titleAdd <= |c.adds| then ItemNo(c.adds, c.titleAdd) else 0;
    Plan(c.uuid, Mimes(c), ListedClusters(v, c.compression), AllSettled(c), MainPage(c), ClusterNo(v, n), BlobNo(v, n))
  }

  // ---------------------------------------------------------------- the title listings

  /** Marked as removed: a redirect that was in the table and is no entry. */
  predicate Removed(c: Creation, d: PP.Dirent) {
    d in Table(c) && d !in Final(c)
  }

  function Survivors(c: Creation, ds: seq<PP.Dirent>): seq<PP.Dirent> {
    if ds == [] then [] else (if Removed(c, ds[0]) then [] else [ds[0]]) + Survivors(c, ds[1..])
  }

  /** The dirents that the listing of front articles is given. */
  function Fronts(adds: seq<Add>): seq<PP.Dirent> {
    if adds == [] then []
    else Fronts(adds[..|adds| - 1]) + (if adds[|adds| - 1].front then [adds[|adds| - 1].d] else [])
  }

  /** A listing of those that were handed over and not removed. */
  ghost predicate IsListing(c: Creation, handled: seq<PP.Dirent>, listing: seq<PP.Dirent>) {
    TL.IsListing(listing, Survivors(c, handled))
  }

  function NumbersOf(c: Creation, ds: seq<PP.Dirent>): (ns: seq<nat>)
    ensures |ns| == |ds| && forall i :: 0 <= i < |ns| ==> ns[i] == NumberOf(c, ds[i])
  {
    seq(|ds|, i requires 0 <= i < |ds| => NumberOf(c, ds[i]))
  }

  /** The bytes that its provider feeds. */
  function ListingBytes(c: Creation, listing: seq<PP.Dirent>): Str {
    EncodeOffsets(NumbersOf(c, listing), 4)
  }

  // ---------------------------------------------------------------- what is asked of the callers

  predicate GoodKey(k: DL.DirentKey) {
    1 <= k.ns < 128 && NoNul(k.url)
  }

  predicate GoodAdd(a: Add) {
    && GoodKey(a.d.key) && NoNul(a.d.title)
    && (a.d.isRedirect <==> a.RedirectAdd?)
    && (a.ItemAdd? ==> M.GoodName(a.mime))
  }

  /** A dirent of its own for each addition, paths in ASCII namespaces and nothing with a NUL in it, not
      too many MIME types, and the title listing not compressed. Paths may repeat, and redirects may
      lead anywhere. */
  ghost predicate GoodCreation(c: Creation) {
    && Distinct(Dirents(c.adds))
    && (forall k :: 0 <= k < |c.adds| ==> GoodAdd(c.adds[k]))
    && |MimeNames(c.adds)| < DF.DELETED_MIME
    && c.titleAdd < |c.adds| && c.adds[c.titleAdd].ItemAdd? && !c.adds[c.titleAdd].compress
    && (c.main == null || c.main in Dirents(c.adds))
    && c.compression != Zip && c.compression != Bzip2
    && |c.adds| < TWO32 && |c.uuid| == 16
  }

  /** A chain of redirects leads down from this path to one where nothing was added. */
  ghost predicate Dangles(c: Creation, key: DL.DirentKey) {
    exists chain :: PP.DeadChain(Table(c), chain) && Table(c)[chain[0]].key == key
  }

  // ---------------------------------------------------------------- the entries

  lemma TableIs(c: Creation)
    ensures PP.Ordered(Table(c)) && |Table(c)| <= |c.adds|
    ensures forall d :: d in Table(c) ==> d in Dirents(c.adds)
  {
    PP.FirstItemWins(Dirents(c.adds), DL.DirentKey(0, []));
    PP.AddAllFrom(Dirents(c.adds));
    hide PP.AddAll, PP.Ordered;
  }

  /** The entries are dirents that were added, in the order of their paths. */
  lemma FinalIs(c: Creation)
    ensures PP.Ordered(Final(c)) && |Final(c)| <= |Table(c)| <= |c.adds|
    ensures forall d :: d in Final(c) ==> d in Table(c) && d in Dirents(c.adds)
  {
    TableIs(c);
    PP.FinalOrdered(Table(c));
    hide Table, PP.Ordered, PP.Dead;
    forall d | d in Final(c) ensures d in Table(c) {
      var j :| 0 <= j < |Final(c)| && Final(c)[j] == d;
      var i := PP.KeptIndex(Table(c), |Table(c)|, j);
    }
  }

  /** Which addition a dirent is of. */
  lemma AddOf(c: Creation, d: PP.Dirent) returns (k: nat)
    requires d in Dirents(c.adds)
    ensures k < |c.adds| && c.adds[k].d == d && k == IndexIn(Dirents(c.adds), d)
  {
    k := IndexIn(Dirents(c.adds), d);
  }

  lemma PlaceOfAdd(c: Creation, k: nat)
    requires GoodCreation(c) && k < |c.adds|
    ensures IndexIn(Dirents(c.adds), c.adds[k].d) == k && GoodAdd(c.adds[k])
  {
    var ds := Dirents(c.adds);
    assert ds[k] in ds;
    hide Dirents, IndexIn, MimeNames, M.GoodName, GoodAdd;
  }

  /** A dirent of the table is not an entry exactly when its path dangles. */
  lemma GoneIffDangles(c: Creation, d: PP.Dirent)
    requires d in Table(c)
    ensures d !in Final(c) <==> Dangles(c, d.key)
  {
    TableIs(c);
    var t := Table(c);
    var i :| 0 <= i < |t| && t[i] == d;
    PP.KeptFrom(t, |t|);
    PP.DeadIffChain(t, i);
    hide Table, PP.Dead, PP.Kept;
    PP.OnlyOne(t, i);
    hide PP.Ordered;
    forall chain | PP.DeadChain(t, chain) && t[chain[0]].key == d.key ensures chain[0] == i {
      PP.AtIndex(t, d.key, i);
      PP.AtIndex(t, d.key, chain[0]);
    }
  }
}
