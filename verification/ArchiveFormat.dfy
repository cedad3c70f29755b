/** The bytes of a whole archive (src/writer/creator.cpp: fillHeader, write): header, MIME list,
    clusters from byte 1024, dirents, the two pointer tables, and the checksum of all that. */
module ArchiveFormat {
  import opened Bytes
  import opened ClusterFormat
  import opened DirentFormat
  import opened Header
  import M = MimeTypes
  import Md5
  import W = WriterCluster

  const CHECKSUM_SIZE: nat := 16

  datatype ClusterData = ClusterData(compression: Compression, blobs: seq<Str>)

  /** What the creator holds when it writes: the clusters it listed, its dirents in order. The title
      listing is blob `titleBlob` of cluster `titleCluster`. */
  datatype Plan = Plan(
    uuid: Str,
    mimes: seq<Str>,
    clusters: seq<ClusterData>,
    dirents: seq<WriterDirent>,
    mainPage: nat,
    titleCluster: nat,
    titleBlob: nat)

  /** The image of a listed cluster; it is extended if one of its blobs needs it. */
  function ImageOf(c: ClusterData, encode: Str -> Str): Str {
    ClusterImage(c.compression, W.NeedsExtension(c.blobs), c.blobs, encode)
  }

  function Images(clusters: seq<ClusterData>, encode: Str -> Str): (images: seq<Str>)
    ensures |images| == |clusters| && forall i :: 0 <= i < |images| ==> images[i] == ImageOf(clusters[i], encode)
  {
    if clusters == [] then [] else [ImageOf(clusters[0], encode)] + Images(clusters[1..], encode)
  }

  function Encodings(dirents: seq<WriterDirent>): (encodings: seq<Str>)
    ensures |encodings| == |dirents| && forall i :: 0 <= i < |encodings| ==> encodings[i] == Encode(dirents[i])
  {
    if dirents == [] then [] else [Encode(dirents[0])] + Encodings(dirents[1..])
  }

  /** Where each part begins, the parts lying end to end from `start`. */
  function Starts(parts: seq<Str>, start: nat): (offsets: seq<nat>)
    ensures |offsets| == |parts|
    ensures forall i :: 0 <= i < |offsets| ==> offsets[i] == start + |Concat(parts[..i])|
  {
    if parts == [] then []
    else
      var rest := Starts(parts[1..], start + |parts[0]|);
      assert forall i :: 0 < i < |parts| ==> parts[..i] == [parts[0]] + parts[1..][..i - 1];
      [start] + rest
  }

  function DirentStart(p: Plan, encode: Str -> Str): nat {
    CLUSTER_BASE_OFFSET + |Concat(Images(p.clusters, encode))|
  }

  function ClusterOffsets(p: Plan, encode: Str -> Str): seq<nat> {
    Starts(Images(p.clusters, encode), CLUSTER_BASE_OFFSET)
  }

  function DirentOffsets(p: Plan, encode: Str -> Str): seq<nat> {
    Starts(Encodings(p.dirents), DirentStart(p, encode))
  }

  /** `fillHeader`, and the positions `write` sets. */
  function TitleIdxPos(p: Plan, encode: Str -> Str): nat {
    if p.titleCluster >= |p.clusters| || p.titleBlob > |p.clusters[p.titleCluster].blobs| then 0
    else
      var blobs := p.clusters[p.titleCluster].blobs;
      ClusterOffsets(p, encode)[p.titleCluster] + (1 + Delta(|blobs|, Width(W.NeedsExtension(blobs)))) + BlobStart(blobs, p.titleBlob)
  }

  function UrlPtrPos(p: Plan, encode: Str -> Str): nat {
    DirentStart(p, encode) + |Concat(Encodings(p.dirents))|
  }

  function ClusterPtrPos(p: Plan, encode: Str -> Str): nat {
    UrlPtrPos(p, encode) + 8 * |p.dirents|
  }

  function ChecksumPos(p: Plan, encode: Str -> Str): nat {
    ClusterPtrPos(p, encode) + 8 * |p.clusters|
  }

  predicate AnyExtended(clusters: seq<ClusterData>) {
    exists i :: 0 <= i < |clusters| && W.NeedsExtension(clusters[i].blobs)
  }

  function HeaderOfPlan(p: Plan, encode: Str -> Str): Fileheader {
    Fileheader(if AnyExtended(p.clusters) then EXTENDED_MAJOR else CLASSIC_MAJOR, 1, p.uuid,
               |p.dirents|, |p.clusters|,
               UrlPtrPos(p, encode), TitleIdxPos(p, encode), ClusterPtrPos(p, encode), SIZE,
               p.mainPage, 0xffff_ffff, ChecksumPos(p, encode))
  }

  function Gap(p: Plan): Str {
    var end := SIZE + |M.MimeListBytes(p.mimes)|;
    Zeros(if end < CLUSTER_BASE_OFFSET then CLUSTER_BASE_OFFSET - end else 0)
  }

  /** Everything before the checksum, in parts. */
  function Parts(p: Plan, encode: Str -> Str): seq<Str> {
    [HeaderBytes(HeaderOfPlan(p, encode)),
     M.MimeListBytes(p.mimes),
     Gap(p),
     Concat(Images(p.clusters, encode)),
     Concat(Encodings(p.dirents)),
     EncodeOffsets(DirentOffsets(p, encode), 8),
     EncodeOffsets(ClusterOffsets(p, encode), 8)]
  }

  function Body(p: Plan, encode: Str -> Str): Str {
    Concat(Parts(p, encode))
  }

  function Archive(p: Plan, encode: Str -> Str): Str {
    Body(p, encode) + Md5.Digest(Body(p, encode))
  }

  lemma ArchiveIs(p: Plan, encode: Str -> Str)
    ensures Archive(p, encode) == Body(p, encode) + Md5.Digest(Body(p, encode)) && CHECKSUM_SIZE == 16
  {
    hide Body, Md5.Digest;
  }

  /** What the creator relies on: the MIME list ends before the clusters (it asserts that), the
      numbers fit their fields, and the title listing is a blob of an uncompressed cluster. */
  ghost predicate Writable(p: Plan, encode: Str -> Str) {
    && |p.uuid| == 16
    && SIZE + |M.MimeListBytes(p.mimes)| < CLUSTER_BASE_OFFSET
    && 0 < |p.clusters| < TWO32 && 0 < |p.dirents| < TWO32 && p.mainPage < TWO32
    && p.titleCluster < |p.clusters| && p.titleBlob < |p.clusters[p.titleCluster].blobs|
    && p.clusters[p.titleCluster].compression == None
    && ChecksumPos(p, encode) + CHECKSUM_SIZE < TWO64
  }

  /** The reader asks for one thing more: no more clusters than entries. */
  ghost predicate WellFormed(p: Plan, encode: Str -> Str) {
    Writable(p, encode) && |p.clusters| <= |p.dirents|
  }

  // ---------------------------------------------------------------- where the parts are

  /** The part of the archive at index i, and where it begins. */
  lemma {:induction false} PartsBegin(p: Plan, encode: Str -> Str)
    requires Writable(p, encode)
    ensures var parts := Parts(p, encode);
            && |Concat(parts[..1])| == SIZE
            && |Concat(parts[..2])| == SIZE + |M.MimeListBytes(p.mimes)|
            && |Concat(parts[..3])| == CLUSTER_BASE_OFFSET
            && |Concat(parts[..4])| == DirentStart(p, encode)
            && |Concat(parts[..5])| == UrlPtrPos(p, encode)
            && |Concat(parts[..6])| == ClusterPtrPos(p, encode)
            && |Body(p, encode)| == ChecksumPos(p, encode)
  {
    HeaderIsSane(p, encode);
    ParseWritten(HeaderOfPlan(p, encode), []);
    EncodeOffsetsSize(DirentOffsets(p, encode), 8);
    EncodeOffsetsSize(ClusterOffsets(p, encode), 8);
    hide *;
    PointerCounts(p, encode);
    PartLengths(p, encode);
    SevenStarts(Parts(p, encode));
  }

  lemma PointerCounts(p: Plan, encode: Str -> Str)
    ensures |DirentOffsets(p, encode)| == |p.dirents| && |ClusterOffsets(p, encode)| == |p.clusters|
  {
  }

  lemma SevenStarts(parts: seq<Str>)
    requires |parts| == 7
    ensures |Concat(parts[..1])| == |parts[0]|
    ensures |Concat(parts[..2])| == |parts[0]| + |parts[1]|
    ensures |Concat(parts[..3])| == |parts[0]| + |parts[1]| + |parts[2]|
    ensures |Concat(parts[..4])| == |parts[0]| + |parts[1]| + |parts[2]| + |parts[3]|
    ensures |Concat(parts[..5])| == |parts[0]| + |parts[1]| + |parts[2]| + |parts[3]| + |parts[4]|
    ensures |Concat(parts[..6])| == |parts[0]| + |parts[1]| + |parts[2]| + |parts[3]| + |parts[4]| + |parts[5]|
    ensures |Concat(parts)| == |parts[0]| + |parts[1]| + |parts[2]| + |parts[3]| + |parts[4]| + |parts[5]| + |parts[6]|
  {
    hide *;
    assert parts[..7] == parts && parts[..0] == [];
    ConcatEmpty();
    ConcatPart(parts, 0);
    ConcatPart(parts, 1);
    ConcatPart(parts, 2);
    ConcatPart(parts, 3);
    ConcatPart(parts, 4);
    ConcatPart(parts, 5);
    ConcatPart(parts, 6);
  }

  lemma PartLengths(p: Plan, encode: Str -> Str)
    requires Writable(p, encode) && |HeaderBytes(HeaderOfPlan(p, encode))| == SIZE
    requires |EncodeOffsets(DirentOffsets(p, encode), 8)| == 8 * |p.dirents|
    requires |EncodeOffsets(ClusterOffsets(p, encode), 8)| == 8 * |p.clusters|
    ensures var parts := Parts(p, encode);
            && |parts| == 7 && SIZE == 80 && CLUSTER_BASE_OFFSET == 1024
            && |parts[0]| == SIZE && |parts[1]| == |M.MimeListBytes(p.mimes)| && |parts[2]| == CLUSTER_BASE_OFFSET - SIZE - |parts[1]|
            && CLUSTER_BASE_OFFSET + |parts[3]| == DirentStart(p, encode)
            && DirentStart(p, encode) + |parts[4]| == UrlPtrPos(p, encode)
            && UrlPtrPos(p, encode) + |parts[5]| == ClusterPtrPos(p, encode)
            && ClusterPtrPos(p, encode) + |parts[6]| == ChecksumPos(p, encode)
            && Body(p, encode) == Concat(parts)
  {
    hide Concat, Images, Encodings, HeaderBytes, EncodeOffsets, DirentOffsets, ClusterOffsets, HeaderOfPlan, M.MimeListBytes;
  }

  lemma HeaderIsSane(p: Plan, encode: Str -> Str)
    requires Writable(p, encode)
    ensures HeaderOfPlan(p, encode).Valid()
    ensures HeaderOfPlan(p, encode).Sane() <==> |p.clusters| <= |p.dirents|
  {
    TitleInCluster(p, encode);
    hide Concat, Images, Encodings, ClusterOffsets, M.MimeListBytes, TitleIdxPos, AnyExtended;
  }

  lemma TitleInCluster(p: Plan, encode: Str -> Str)
    requires Writable(p, encode)
    ensures CLUSTER_BASE_OFFSET <= TitleIdxPos(p, encode) <= DirentStart(p, encode)
  {
    var c := p.titleCluster;
    var images, blobs := Images(p.clusters, encode), p.clusters[c].blobs;
    ConcatPart(images, c);
    BlobStartBound(blobs, p.titleBlob);
    EncodeOffsetsSize(TrueOffsets(blobs, Width(W.NeedsExtension(blobs))), Width(W.NeedsExtension(blobs)));
    assert |images[c]| == 1 + Delta(|blobs|, Width(W.NeedsExtension(blobs))) + |Concat(blobs)|;
    hide Concat, Images, EncodeOffsets, BlobStart, Delta, Width, W.NeedsExtension;
  }

  /** A part of the archive, as a slice of it. */
  lemma PartAt(p: Plan, encode: Str -> Str, i: nat)
    requires Writable(p, encode) && i < 7
    ensures var parts := Parts(p, encode);
            var start := |Concat(parts[..i])|;
            && |parts| == 7 && start + |parts[i]| <= |Body(p, encode)| <= |Archive(p, encode)|
            && Archive(p, encode)[start..start + |parts[i]|] == parts[i]
  {
    hide *;
    ArchiveParts(p, encode);
    PartOf(Parts(p, encode), Md5.Digest(Body(p, encode)), i);
  }

  lemma ArchiveParts(p: Plan, encode: Str -> Str)
    ensures var parts := Parts(p, encode);
            && |parts| == 7 && Body(p, encode) == Concat(parts)
            && Archive(p, encode) == Concat(parts) + Md5.Digest(Body(p, encode))
  {
    hide Concat, Images, Encodings, HeaderBytes, EncodeOffsets, DirentOffsets, ClusterOffsets, HeaderOfPlan, M.MimeListBytes, Md5.Digest;
  }

  lemma PartOf(parts: seq<Str>, tail: Str, i: nat)
    requires i < |parts|
    ensures var start, file := |Concat(parts[..i])|, Concat(parts) + tail;
            start + |parts[i]| <= |Concat(parts)| && file[start..start + |parts[i]|] == parts[i]
  {
    ConcatPart(parts, i);
    var start := |Concat(parts[..i])|;
    hide Concat;
    SliceLeft(Concat(parts), tail, start, start + |parts[i]|);
  }

  lemma PartIs(p: Plan, encode: Str -> Str)
    requires Writable(p, encode)
    ensures var parts := Parts(p, encode);
            && |parts| == 7
            && parts[1] == M.MimeListBytes(p.mimes) && parts[2] == Gap(p)
            && parts[3] == Concat(Images(p.clusters, encode)) && parts[4] == Concat(Encodings(p.dirents))
            && parts[5] == EncodeOffsets(DirentOffsets(p, encode), 8) && parts[6] == EncodeOffsets(ClusterOffsets(p, encode), 8)
  {
    hide HeaderBytes, HeaderOfPlan, Images, Encodings, EncodeOffsets, DirentOffsets, ClusterOffsets, Concat, Gap, M.MimeListBytes;
  }

  /** The archive holds this part at this place. */
  predicate Holds(p: Plan, encode: Str -> Str, start: nat, part: Str) {
    var file := Archive(p, encode);
    start + |part| <= |file| && file[start..start + |part|] == part
  }

  lemma PartHolds(p: Plan, encode: Str -> Str, i: nat, start: nat, part: Str)
    requires Writable(p, encode) && i < |Parts(p, encode)|
    requires |Concat(Parts(p, encode)[..i])| == start && Parts(p, encode)[i] == part
    ensures Holds(p, encode, start, part)
  {
    hide *;
    ArchiveParts(p, encode);
    PartAt(p, encode, i);
    HoldsIs(p, encode, start, part);
  }

  lemma HoldsIs(p: Plan, encode: Str -> Str, start: nat, part: Str)
    requires start + |part| <= |Archive(p, encode)| && Archive(p, encode)[start..start + |part|] == part
    ensures Holds(p, encode, start, part)
  {
    hide Archive;
  }

  lemma MimesAt(p: Plan, encode: Str -> Str)
    requires Writable(p, encode)
    ensures Holds(p, encode, SIZE, M.MimeListBytes(p.mimes))
  {
    hide *;
    PartsBegin(p, encode);
    PartIs(p, encode);
    PartHolds(p, encode, 1, SIZE, M.MimeListBytes(p.mimes));
  }

  lemma GapAt(p: Plan, encode: Str -> Str)
    requires Writable(p, encode)
    ensures Holds(p, encode, SIZE + |M.MimeListBytes(p.mimes)|, Gap(p))
    ensures SIZE + |M.MimeListBytes(p.mimes)| + |Gap(p)| == CLUSTER_BASE_OFFSET
  {
    assert SIZE + |M.MimeListBytes(p.mimes)| + |Gap(p)| == CLUSTER_BASE_OFFSET by { hide M.MimeListBytes, ChecksumPos; }
    hide *;
    PartsBegin(p, encode);
    PartIs(p, encode);
    PartHolds(p, encode, 2, SIZE + |M.MimeListBytes(p.mimes)|, Gap(p));
  }

  lemma ClustersAt(p: Plan, encode: Str -> Str)
    requires Writable(p, encode)
    ensures Holds(p, encode, CLUSTER_BASE_OFFSET, Concat(Images(p.clusters, encode)))
  {
    hide *;
    PartsBegin(p, encode);
    PartIs(p, encode);
    PartHolds(p, encode, 3, CLUSTER_BASE_OFFSET, Concat(Images(p.clusters, encode)));
  }

  lemma DirentsAt(p: Plan, encode: Str -> Str)
    requires Writable(p, encode)
    ensures Holds(p, encode, DirentStart(p, encode), Concat(Encodings(p.dirents)))
  {
    hide *;
    PartsBegin(p, encode);
    PartIs(p, encode);
    PartHolds(p, encode, 4, DirentStart(p, encode), Concat(Encodings(p.dirents)));
  }

  lemma UrlTableAt(p: Plan, encode: Str -> Str)
    requires Writable(p, encode)
    ensures Holds(p, encode, UrlPtrPos(p, encode), EncodeOffsets(DirentOffsets(p, encode), 8))
    ensures |EncodeOffsets(DirentOffsets(p, encode), 8)| == 8 * |p.dirents|
  {
    EncodeOffsetsSize(DirentOffsets(p, encode), 8);
    PointerCounts(p, encode);
    hide *;
    PartsBegin(p, encode);
    PartIs(p, encode);
    PartHolds(p, encode, 5, UrlPtrPos(p, encode), EncodeOffsets(DirentOffsets(p, encode), 8));
  }

  lemma ClusterTableAt(p: Plan, encode: Str -> Str)
    requires Writable(p, encode)
    ensures Holds(p, encode, ClusterPtrPos(p, encode), EncodeOffsets(ClusterOffsets(p, encode), 8))
    ensures |EncodeOffsets(ClusterOffsets(p, encode), 8)| == 8 * |p.clusters|
  {
    EncodeOffsetsSize(ClusterOffsets(p, encode), 8);
    PointerCounts(p, encode);
    hide *;
    PartsBegin(p, encode);
    PartIs(p, encode);
    PartHolds(p, encode, 6, ClusterPtrPos(p, encode), EncodeOffsets(ClusterOffsets(p, encode), 8));
  }
}
