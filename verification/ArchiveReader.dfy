/** Opening a finished archive and looking entries up in it (src/fileimpl.cpp): what the creator put
    in comes out. */
module ArchiveReader {
  import opened Bytes
  import opened ClusterFormat
  import opened DirentFormat
  import opened Header
  import opened ArchiveFormat
  import DA = DirentAccessor
  import DL = DirentLookup
  import M = MimeTypes
  import Md5
  import RC = ReaderCluster
  import TL = TitleListing
  import W = WriterCluster

  // ---------------------------------------------------------------- the reader

  /** `sectionSubReader` over a pointer table. */
  function Section(file: Str, pos: nat, size: nat): Str {
    if pos + size <= |file| then file[pos..pos + size] else []
  }

  function UrlPtrs(file: Str, h: Fileheader): Str {
    Section(file, h.urlPtrPos, 8 * h.articleCount)
  }

  function ClusterPtrs(file: Str, h: Fileheader): Str {
    Section(file, h.clusterPtrPos, 8 * h.clusterCount)
  }

  /** An offset in a pointer table. */
  function PtrAt(table: Str, i: nat): nat {
    if 8 * i + 8 <= |table| then FromLE(table[8 * i..8 * i + 8]) else 0
  }

  /** `quickCheckForCorruptFile`. */
  predicate QuickCheck(file: Str, h: Fileheader) {
    && (h.clusterCount > 0 ==> PtrAt(ClusterPtrs(file, h), h.clusterCount - 1) <= |file|)
    && (h.HasChecksum() ==> h.checksumPos + 16 == |file|)
  }

  function Min(a: nat, b: nat): nat {
    if a < b then a else b
  }

  /** `getMimeListEndUpperLimit`. */
  function MimeListEnd(file: Str, h: Fileheader): nat {
    var end := Min(Min(h.urlPtrPos, h.titleIdxPos), h.clusterPtrPos);
    if h.articleCount == 0 then end
    else Min(Min(end, PtrAt(UrlPtrs(file, h), 0)), PtrAt(ClusterPtrs(file, h), 0))
  }

  /** `readMimeTypes`. */
  function MimeList(file: Str, h: Fileheader): M.Mimes {
    var end := MimeListEnd(file, h);
    if end <= h.mimeListPos || end > |file| then M.Refused else M.ReadMimeList(file[h.mimeListPos..end])
  }

  /** The namespace and url of each entry, as the lookup reads them. */
  function Table(file: Str, h: Fileheader): (t: seq<DL.DirentKey>)
    ensures |t| == h.articleCount
  {
    seq(h.articleCount, i requires 0 <= i < h.articleCount => KeyAt(file, h, i))
  }

  function KeyAt(file: Str, h: Fileheader, i: nat): DL.DirentKey {
    match DA.Direct(file, UrlPtrs(file, h), i)
    case Success(d) => DL.DirentKey(d.ns, d.url)
    case _ => DL.DirentKey(0, [])
  }

  datatype Content = Content(bytes: Str) | Unreadable

  /** The stream of a cluster: decoded if it is compressed, else the file itself. */
  function StreamAt(file: Str, offset: nat, decode: Str -> Str): Str
    requires offset < |file|
  {
    match ReadInfo(file[offset])
    case Info(c, _) => if IsCompressed(c) then decode(file[offset + 1..]) else file[offset + 1..]
    case Refused => []
  }

  /** By the numbers in the info byte: 0 and 1 leave the file as it is, 4 and 5 are decoded, and with
      every other number the cluster cannot be read. */
  lemma StreamByCode(file: Str, offset: nat, decode: Str -> Str)
    requires offset < |file|
    ensures var code, rest := file[offset] % 16, file[offset + 1..];
            && (code == 0 || code == 1 ==> StreamAt(file, offset, decode) == rest)
            && (code == 4 || code == 5 ==> StreamAt(file, offset, decode) == decode(rest))
            && (code == 2 || code == 3 || code > 5 ==> forall blob :: BlobIn(file, offset, decode, blob) == Unreadable)
  {
    hide HeaderOf;
  }

  /** A blob of the cluster whose image begins at this offset. */
  function BlobIn(file: Str, offset: nat, decode: Str -> Str, blob: nat): Content {
    if offset >= |file| then Unreadable
    else match ReadInfo(file[offset])
      case Refused => Unreadable
      case Info(_, isExtended) =>
        var stream := StreamAt(file, offset, decode);
        match HeaderOf(stream, Width(isExtended))
        case Malformed => Unreadable
        case Offsets(o) =>
          if blob + 1 < |o| && o[blob] <= o[blob + 1] <= |stream| then Content(RC.BlobAt(o, stream, blob)) else Unreadable
  }

  datatype Result =
    | Found(title: Str, mimeType: Str, content: Str)
    | RedirectTo(title: Str, index: nat)
    | NotFound
    | Corrupt

  /** Opens the archive and looks a path up. The place in the table is the one `DirentLookup.Find`
      gives for a strictly sorted table. */
  function LookUp(file: Str, ns: byte, path: Str, decode: Str -> Str): Result {
    match ReadHeader(file)
    case Ok(h) =>
      if !QuickCheck(file, h) then Corrupt
      else
        var key := DL.DirentKey(ns, path);
        var table := Table(file, h);
        var idx := DL.CountBelow(DL.LongKeys(table), DL.LongKey(key));
        if idx >= |table| || table[idx] != key then NotFound else EntryAt(file, h, idx, decode)
    case _ => Corrupt
  }

  function EntryAt(file: Str, h: Fileheader, idx: nat, decode: Str -> Str): Result {
    match DA.Direct(file, UrlPtrs(file, h), idx)
    case Success(d) =>
      if d.IsRedirect() then RedirectTo(d.GetTitle(), d.redirectIndex)
      else (match MimeList(file, h)
            case Refused => Corrupt
            case Mimes(mimes) =>
              match BlobIn(file, PtrAt(ClusterPtrs(file, h), d.clusterNumber), decode, d.blobNumber)
              case Unreadable => Corrupt
              case Content(bytes) => if d.mimeType < |mimes| then Result.Found(d.GetTitle(), mimes[d.mimeType], bytes) else Corrupt)
    case _ => Corrupt
  }

  // ---------------------------------------------------------------- what the archive must promise

  function KeyOf(d: WriterDirent): DL.DirentKey {
    DL.DirentKey(d.ns, d.path)
  }

  function KeysOf(dirents: seq<WriterDirent>): (keys: seq<DL.DirentKey>)
    ensures |keys| == |dirents| && forall i :: 0 <= i < |keys| ==> keys[i] == KeyOf(dirents[i])
  {
    seq(|dirents|, i requires 0 <= i < |dirents| => KeyOf(dirents[i]))
  }

  /** The decoder gives back what was encoded, whatever follows it in the file. */
  ghost predicate Inverse(encode: Str -> Str, decode: Str -> Str) {
    forall x, tail :: decode(encode(x) + tail) == x
  }

  /** A code that ends itself: every byte behind a 1, and a 0 at the end. */
  function Escape(x: Str): Str {
    if x == [] then [0] else [1, x[0]] + Escape(x[1..])
  }

  function Unescape(y: Str): Str {
    if |y| < 2 || y[0] != 1 then [] else [y[1]] + Unescape(y[2..])
  }

  lemma {:induction false} UnescapeEscaped(x: Str, tail: Str)
    ensures Unescape(Escape(x) + tail) == x
  {
    if x != [] {
      UnescapeEscaped(x[1..], tail);
      var rest := Escape(x[1..]) + tail;
      assert Escape(x) + tail == [1, x[0]] + rest;
      assert ([1, x[0]] + rest)[2..] == rest;
    }
  }

  /** There are coders as the archive needs them. */
  lemma EscapeIsInverse()
    ensures Inverse(Escape, Unescape)
  {
    forall x, tail ensures Unescape(Escape(x) + tail) == x {
      UnescapeEscaped(x, tail);
    }
  }

  /** Each dirent fits its fields, its read steps stay inside the file, and an item's numbers are
      those of a name and of a blob. */
  ghost predicate DirentReads(p: Plan, encode: Str -> Str, i: nat)
    requires i < |p.dirents|
  {
    var d := p.dirents[i];
    var offset := DirentOffsets(p, encode)[i];
    && d.Valid()
    && offset <= |Archive(p, encode)| && StepsFit(|Archive(p, encode)| - offset, |Encode(d)|)
    && match d.target
       case Redirect(_) => true
       case Item(m, c, b) => m < |p.mimes| && c < |p.clusters| && b < |p.clusters[c].blobs|
  }

  /** The reader takes the cluster: its compression is one it knows, and its offsets fit their width. */
  predicate ClusterReads(c: ClusterData) {
    && c.compression != Zip && c.compression != Bzip2
    && OffsetsFit(c.blobs, Width(W.NeedsExtension(c.blobs)))
  }

  ghost predicate Readable(p: Plan, encode: Str -> Str) {
    && WellFormed(p, encode)
    && M.GoodNames(p.mimes)
    && DL.StrictTable(KeysOf(p.dirents))
    && (forall i :: 0 <= i < |p.dirents| ==> DirentReads(p, encode, i))
    && (forall c :: 0 <= c < |p.clusters| ==> ClusterReads(p.clusters[c]))
  }

  // ---------------------------------------------------------------- the header and the checks

  /** The fields of the header that the creator writes. */
  lemma HeaderFields(p: Plan, encode: Str -> Str)
    requires WellFormed(p, encode)
    ensures var h := HeaderOfPlan(p, encode);
            && h.articleCount == |p.dirents| && h.clusterCount == |p.clusters| && h.mimeListPos == SIZE == 80
            && h.urlPtrPos == UrlPtrPos(p, encode) && h.clusterPtrPos == ClusterPtrPos(p, encode)
            && h.titleIdxPos == TitleIdxPos(p, encode) && h.checksumPos == ChecksumPos(p, encode)
            && h.HasChecksum() && (h.majorVersion == CLASSIC_MAJOR || h.majorVersion == EXTENDED_MAJOR)
            && 0 < |p.clusters| <= |p.dirents|
    ensures Writable(p, encode)
  {
    hide UrlPtrPos, ClusterPtrPos, TitleIdxPos, ChecksumPos, AnyExtended, M.MimeListBytes;
  }

  lemma Lengths(p: Plan, encode: Str -> Str)
    requires WellFormed(p, encode)
    ensures var file, body := Archive(p, encode), Body(p, encode);
            && |body| == ChecksumPos(p, encode) && |file| == |body| + CHECKSUM_SIZE && CHECKSUM_SIZE == 16
            && file[..|body|] == body && file[|body|..] == Md5.Digest(body)
  {
    ArchiveIs(p, encode);
    hide *;
    HeaderFields(p, encode);
    PartsBegin(p, encode);
    DigestSize(Body(p, encode));
  }

  /** The order of the parts. */
  lemma Positions(p: Plan, encode: Str -> Str)
    requires WellFormed(p, encode)
    ensures CLUSTER_BASE_OFFSET == 1024 && SIZE == 80
    ensures CLUSTER_BASE_OFFSET <= DirentStart(p, encode) <= UrlPtrPos(p, encode)
    ensures ClusterPtrPos(p, encode) == UrlPtrPos(p, encode) + 8 * |p.dirents|
    ensures ChecksumPos(p, encode) == ClusterPtrPos(p, encode) + 8 * |p.clusters|
    ensures ChecksumPos(p, encode) + CHECKSUM_SIZE < TWO64
  {
    hide Concat, Images, Encodings, M.MimeListBytes;
  }

  lemma DigestSize(m: Str)
    ensures |Md5.Digest(m)| == 16
  {
    hide Md5.ProcessBlocks, Md5.Padded;
  }

  lemma FirstPart(parts: seq<Str>, tail: Str)
    requires parts != []
    ensures Concat(parts) + tail == parts[0] + (Concat(parts[1..]) + tail)
  {
  }

  lemma HeaderIsFirst(p: Plan, encode: Str -> Str)
    ensures |Parts(p, encode)| == 7 && Parts(p, encode)[0] == HeaderBytes(HeaderOfPlan(p, encode))
  {
    hide HeaderBytes, HeaderOfPlan, Images, Encodings, EncodeOffsets, DirentOffsets, ClusterOffsets, Concat, Gap, M.MimeListBytes;
  }

  /** Whatever the creator writes, the reader accepts its header if and only if there are no more
      clusters than entries. */
  lemma OpensIff(p: Plan, encode: Str -> Str)
    requires Writable(p, encode)
    ensures ReadHeader(Archive(p, encode)) == if |p.clusters| <= |p.dirents| then Ok(HeaderOfPlan(p, encode)) else Insane
  {
    HeaderIsSane(p, encode);
    VersionOfPlan(p, encode);
    ArchiveParts(p, encode);
    HeaderIsFirst(p, encode);
    hide *;
    var parts, digest := Parts(p, encode), Md5.Digest(Body(p, encode));
    FirstPart(parts, digest);
    ReadWritten(HeaderOfPlan(p, encode), Concat(parts[1..]) + digest);
  }

  lemma VersionOfPlan(p: Plan, encode: Str -> Str)
    ensures var h := HeaderOfPlan(p, encode); h.majorVersion == CLASSIC_MAJOR || h.majorVersion == EXTENDED_MAJOR
  {
    hide AnyExtended, UrlPtrPos, ClusterPtrPos, TitleIdxPos, ChecksumPos;
  }

  lemma HeldSection(p: Plan, encode: Str -> Str, pos: nat, part: Str)
    requires Holds(p, encode, pos, part)
    ensures Section(Archive(p, encode), pos, |part|) == part
  {
    hide Archive;
  }

  /** Both pointer tables are where the header says, and hold the offsets of the dirents and clusters. */
  lemma TablesRead(p: Plan, encode: Str -> Str)
    requires WellFormed(p, encode)
    ensures var file, h := Archive(p, encode), HeaderOfPlan(p, encode);
            && UrlPtrs(file, h) == EncodeOffsets(DirentOffsets(p, encode), 8)
            && ClusterPtrs(file, h) == EncodeOffsets(ClusterOffsets(p, encode), 8)
  {
    hide *;
    var file, h := Archive(p, encode), HeaderOfPlan(p, encode);
    TablesAre(file, h);
    HeaderFields(p, encode);
    UrlTableAt(p, encode);
    ClusterTableAt(p, encode);
    HeldSection(p, encode, UrlPtrPos(p, encode), EncodeOffsets(DirentOffsets(p, encode), 8));
    HeldSection(p, encode, ClusterPtrPos(p, encode), EncodeOffsets(ClusterOffsets(p, encode), 8));
  }

  lemma TablesAre(file: Str, h: Fileheader)
    ensures UrlPtrs(file, h) == Section(file, h.urlPtrPos, 8 * h.articleCount)
    ensures ClusterPtrs(file, h) == Section(file, h.clusterPtrPos, 8 * h.clusterCount)
  {
    hide Section;
  }

  lemma EncodedPtr(offsets: seq<nat>, i: nat)
    requires i < |offsets| && offsets[i] < TWO64
    ensures var table := EncodeOffsets(offsets, 8);
            8 * i + 8 <= |table| && PtrAt(table, i) == offsets[i] && FromLE(table[8 * i..8 * i + 8]) == offsets[i]
  {
    Pow256Values();
    EncodedAt(offsets, 8, i);
    hide EncodeOffsets, Pow256, FromLE;
  }

  lemma UrlPtrReads(p: Plan, encode: Str -> Str, i: nat)
    requires WellFormed(p, encode) && i < |p.dirents|
    ensures var table, offsets := UrlPtrs(Archive(p, encode), HeaderOfPlan(p, encode)), DirentOffsets(p, encode);
            && i < |offsets| && 8 * i + 8 <= |table| && PtrAt(table, i) == offsets[i] == FromLE(table[8 * i..8 * i + 8])
            && DirentStart(p, encode) <= offsets[i] && offsets[i] + |Encode(p.dirents[i])| <= UrlPtrPos(p, encode)
  {
    hide *;
    TablesRead(p, encode);
    PointerCounts(p, encode);
    DirentBound(p, encode, i);
    Positions(p, encode);
    EncodedPtr(DirentOffsets(p, encode), i);
  }

  lemma DirentBound(p: Plan, encode: Str -> Str, i: nat)
    requires i < |p.dirents|
    ensures i < |DirentOffsets(p, encode)| && i < |Encodings(p.dirents)|
    ensures DirentOffsets(p, encode)[i] == DirentStart(p, encode) + |Concat(Encodings(p.dirents)[..i])|
    ensures DirentOffsets(p, encode)[i] + |Encode(p.dirents[i])| <= UrlPtrPos(p, encode)
  {
    DirentOffsetsAre(p, encode);
    hide *;
    ConcatPart(Encodings(p.dirents), i);
  }

  lemma DirentOffsetsAre(p: Plan, encode: Str -> Str)
    ensures DirentOffsets(p, encode) == Starts(Encodings(p.dirents), DirentStart(p, encode))
    ensures UrlPtrPos(p, encode) == DirentStart(p, encode) + |Concat(Encodings(p.dirents))|
  {
    hide Concat, Starts, Encodings, DirentStart;
  }

  lemma ClusterPtrReads(p: Plan, encode: Str -> Str, c: nat)
    requires WellFormed(p, encode) && c < |p.clusters|
    ensures var table, offsets := ClusterPtrs(Archive(p, encode), HeaderOfPlan(p, encode)), ClusterOffsets(p, encode);
            && c < |offsets| && PtrAt(table, c) == offsets[c]
            && CLUSTER_BASE_OFFSET <= offsets[c] && offsets[c] + |ImageOf(p.clusters[c], encode)| <= DirentStart(p, encode)
  {
    hide *;
    TablesRead(p, encode);
    PointerCounts(p, encode);
    ClusterBound(p, encode, c);
    Positions(p, encode);
    EncodedPtr(ClusterOffsets(p, encode), c);
  }

  lemma ClusterBound(p: Plan, encode: Str -> Str, c: nat)
    requires c < |p.clusters|
    ensures c < |ClusterOffsets(p, encode)| && c < |Images(p.clusters, encode)|
    ensures ClusterOffsets(p, encode)[c] == CLUSTER_BASE_OFFSET + |Concat(Images(p.clusters, encode)[..c])|
    ensures ClusterOffsets(p, encode)[c] + |ImageOf(p.clusters[c], encode)| <= DirentStart(p, encode)
  {
    ClusterOffsetsAre(p, encode);
    hide *;
    ConcatPart(Images(p.clusters, encode), c);
  }

  lemma ClusterOffsetsAre(p: Plan, encode: Str -> Str)
    ensures ClusterOffsets(p, encode) == Starts(Images(p.clusters, encode), CLUSTER_BASE_OFFSET)
    ensures DirentStart(p, encode) == CLUSTER_BASE_OFFSET + |Concat(Images(p.clusters, encode))|
  {
    hide Concat, Starts, Images;
  }

  /** The header is read back and sane, the quick check passes, and the stored checksum is that of
      everything before it. */
  lemma ArchiveOpens(p: Plan, encode: Str -> Str)
    requires WellFormed(p, encode)
    ensures var file, h := Archive(p, encode), HeaderOfPlan(p, encode);
            && ReadHeader(file) == Ok(h) && QuickCheck(file, h)
            && h.checksumPos <= |file| && file[h.checksumPos..] == Md5.Digest(file[..h.checksumPos])
  {
    OpensIff(p, encode);
    HeaderFields(p, encode);
    Lengths(p, encode);
    Positions(p, encode);
    ClusterPtrReads(p, encode, |p.clusters| - 1);
    hide Archive, Body, Md5.Digest, ReadHeader, HeaderOfPlan, DirentStart, UrlPtrPos, ClusterPtrPos, ChecksumPos,
         ClusterOffsets, ClusterPtrs, PtrAt, ImageOf, WellFormed;
  }

  /** A file with the archive's header and another length is refused. */
  lemma OtherLengthIsRefused(p: Plan, encode: Str -> Str, decode: Str -> Str, file: Str, ns: byte, path: Str)
    requires WellFormed(p, encode) && |file| != |Archive(p, encode)|
    requires |file| >= SIZE && |Archive(p, encode)| >= SIZE && file[..SIZE] == Archive(p, encode)[..SIZE]
    ensures LookUp(file, ns, path, decode) == Corrupt
  {
    ArchiveOpens(p, encode);
    Header.ReadFront(file);
    Header.ReadFront(Archive(p, encode));
    HeaderFields(p, encode);
    hide Archive, ReadHeader, HeaderOfPlan, WellFormed, Table, EntryAt, ClusterPtrs, PtrAt, Md5.Digest;
  }

  /** A truncated archive is refused, wherever it ends. */
  lemma TruncatedIsRefused(p: Plan, encode: Str -> Str, decode: Str -> Str, n: nat, ns: byte, path: Str)
    requires WellFormed(p, encode) && n < |Archive(p, encode)|
    ensures LookUp(Archive(p, encode)[..n], ns, path, decode) == Corrupt
  {
    hide WellFormed, Archive, QuickCheck, Table, EntryAt;
    var file := Archive(p, encode);
    if n >= SIZE {
      assert file[..n][..SIZE] == file[..SIZE];
      OtherLengthIsRefused(p, encode, decode, file[..n], ns, path);
    }
  }

  /** A file whose last cluster begins behind its end is refused. */
  lemma ClusterBehindTheEndIsRefused(file: Str, h: Fileheader, decode: Str -> Str, ns: byte, path: Str)
    requires ReadHeader(file) == Ok(h) && h.clusterCount > 0
    requires h.clusterPtrPos + 8 * h.clusterCount <= |file|
    requires var at := h.clusterPtrPos + 8 * (h.clusterCount - 1); FromLE(file[at..at + 8]) > |file|
    ensures LookUp(file, ns, path, decode) == Corrupt
  {
    hide ReadHeader, Table, EntryAt, FromLE;
    var at, last := h.clusterPtrPos + 8 * (h.clusterCount - 1), 8 * (h.clusterCount - 1);
    assert ClusterPtrs(file, h)[last..last + 8] == file[at..at + 8];
  }

  /** The MIME list is read from where the header says to the first cluster, and is the creator's. */
  lemma MimesRead(p: Plan, encode: Str -> Str)
    requires WellFormed(p, encode) && M.GoodNames(p.mimes)
    ensures MimeListEnd(Archive(p, encode), HeaderOfPlan(p, encode)) == CLUSTER_BASE_OFFSET
    ensures MimeList(Archive(p, encode), HeaderOfPlan(p, encode)) == M.Mimes(p.mimes)
  {
    hide *;
    var file, h := Archive(p, encode), HeaderOfPlan(p, encode);
    var bytes, gap := M.MimeListBytes(p.mimes), Gap(p);
    MimeEnd(p, encode);
    MimeListIs(file, h);
    Positions(p, encode);
    HeaderFields(p, encode);
    MimesAt(p, encode);
    GapAt(p, encode);
    HeldTogether(p, encode, SIZE, bytes, gap);
    M.ReadWrittenIff(p.mimes, gap);
  }

  lemma MimeListIs(file: Str, h: Fileheader)
    ensures var end := MimeListEnd(file, h);
            MimeList(file, h) ==
            if end <= h.mimeListPos || end > |file| then M.Refused else M.ReadMimeList(file[h.mimeListPos..end])
  {
    hide MimeListEnd, M.ReadMimeList;
  }

  lemma HeldTogether(p: Plan, encode: Str -> Str, start: nat, a: Str, b: Str)
    requires Holds(p, encode, start, a) && Holds(p, encode, start + |a|, b)
    ensures var file, end := Archive(p, encode), start + |a| + |b|;
            end <= |file| && file[start..end] == a + b
  {
    hide Archive;
  }

  lemma MimeEnd(p: Plan, encode: Str -> Str)
    requires WellFormed(p, encode)
    ensures MimeListEnd(Archive(p, encode), HeaderOfPlan(p, encode)) == CLUSTER_BASE_OFFSET
  {
    hide *;
    var file, h := Archive(p, encode), HeaderOfPlan(p, encode);
    HeaderFields(p, encode);
    Positions(p, encode);
    TitleInCluster(p, encode);
    UrlPtrReads(p, encode, 0);
    ClusterPtrReads(p, encode, 0);
    FirstCluster(p, encode);
    LeastIsClusters(file, h, CLUSTER_BASE_OFFSET);
  }

  lemma LeastIsClusters(file: Str, h: Fileheader, base: nat)
    requires h.articleCount > 0 && base == PtrAt(ClusterPtrs(file, h), 0) && base <= PtrAt(UrlPtrs(file, h), 0)
    requires base <= h.urlPtrPos && base <= h.titleIdxPos && base <= h.clusterPtrPos
    ensures MimeListEnd(file, h) == base
  {
    hide PtrAt, ClusterPtrs, UrlPtrs;
  }

  lemma FirstCluster(p: Plan, encode: Str -> Str)
    requires |p.clusters| > 0
    ensures ClusterOffsets(p, encode)[0] == CLUSTER_BASE_OFFSET
  {
    assert Images(p.clusters, encode)[..0] == [];
    ConcatEmpty();
    hide Images;
  }

  // ---------------------------------------------------------------- the dirents

  lemma HeldInside(p: Plan, encode: Str -> Str, start: nat, whole: Str, a: nat, b: nat)
    requires Holds(p, encode, start, whole) && a <= b <= |whole|
    ensures start + b <= |Archive(p, encode)| && Archive(p, encode)[start + a..start + b] == whole[a..b]
  {
    hide Archive;
    SliceOfSlice(Archive(p, encode), start, start + |whole|, a, b);
  }

  /** Each dirent is in the file where the pointer table says. */
  lemma DirentStored(p: Plan, encode: Str -> Str, i: nat)
    requires WellFormed(p, encode) && i < |p.dirents|
    ensures i < |DirentOffsets(p, encode)|
    ensures StoredAt(Archive(p, encode), DirentOffsets(p, encode)[i], p.dirents[i])
  {
    DirentPart(p, encode, i);
    hide Archive, DirentOffsets, Encode, WellFormed;
  }

  lemma DirentPart(p: Plan, encode: Str -> Str, i: nat)
    requires WellFormed(p, encode) && i < |p.dirents|
    ensures i < |DirentOffsets(p, encode)|
    ensures var offset, file := DirentOffsets(p, encode)[i], Archive(p, encode);
            offset + |Encode(p.dirents[i])| <= |file| && file[offset..offset + |Encode(p.dirents[i])|] == Encode(p.dirents[i])
  {
    hide *;
    var encodings, start := Encodings(p.dirents), DirentStart(p, encode);
    DirentBound(p, encode, i);
    HeaderFields(p, encode);
    DirentsAt(p, encode);
    ConcatPart(encodings, i);
    var a := |Concat(encodings[..i])|;
    HeldInside(p, encode, start, Concat(encodings), a, a + |Encode(p.dirents[i])|);
  }

  /** Reading entry i through the pointer table gives the dirent that was written. */
  lemma DirentIsRead(p: Plan, encode: Str -> Str, i: nat)
    requires WellFormed(p, encode) && i < |p.dirents| && DirentReads(p, encode, i)
    ensures DA.Direct(Archive(p, encode), UrlPtrs(Archive(p, encode), HeaderOfPlan(p, encode)), i)
            == DA.Success(View(p.dirents[i]))
  {
    hide *;
    UrlPtrReads(p, encode, i);
    DirentStored(p, encode, i);
    DirentReadsIs(p, encode, i);
    var file, table, offset := Archive(p, encode), UrlPtrs(Archive(p, encode), HeaderOfPlan(p, encode)), DirentOffsets(p, encode)[i];
    StoredInside(file, offset, p.dirents[i]);
    ReadDirentIff(file, offset, p.dirents[i]);
    DirectFound(file, table, i, offset, View(p.dirents[i]));
  }

  lemma DirentReadsIs(p: Plan, encode: Str -> Str, i: nat)
    requires i < |p.dirents| && i < |DirentOffsets(p, encode)| && DirentReads(p, encode, i)
    ensures p.dirents[i].Valid() && DirentOffsets(p, encode)[i] <= |Archive(p, encode)|
    ensures StepsFit(|Archive(p, encode)| - DirentOffsets(p, encode)[i], |Encode(p.dirents[i])|)
  {
    hide Archive, DirentOffsets, StepsFit, Encode, NoNul;
  }

  lemma DirectFound(file: Str, table: Str, i: nat, offset: nat, d: Dirent)
    requires 8 * i + 8 <= |table| && FromLE(table[8 * i..8 * i + 8]) == offset && ReadDirent(file, offset) == Read.Found(d)
    ensures DA.Direct(file, table, i) == DA.Success(d)
  {
    hide ReadDirent, FromLE;
  }

  lemma StoredInside(file: Str, offset: nat, d: WriterDirent)
    requires StoredAt(file, offset, d)
    ensures offset <= |file|
  {
    hide Encode;
  }

  /** The keys that the lookup sees are those of the creator's dirents, in order. */
  lemma TableReads(p: Plan, encode: Str -> Str)
    requires Readable(p, encode)
    ensures Table(Archive(p, encode), HeaderOfPlan(p, encode)) == KeysOf(p.dirents)
  {
    hide Archive, HeaderOfPlan, UrlPtrs, WellFormed, DirentReads, ClusterReads, DL.StrictTable, View, M.GoodNames, DA.Direct,
         KeyAt, KeyOf;
    var file, h := Archive(p, encode), HeaderOfPlan(p, encode);
    HeaderFields(p, encode);
    forall i: nat | i < |p.dirents| ensures KeyAt(file, h, i) == KeyOf(p.dirents[i]) {
      DirentIsRead(p, encode, i);
      DirectKey(file, h, i, p.dirents[i]);
    }
  }

  lemma DirectKey(file: Str, h: Fileheader, i: nat, d: WriterDirent)
    requires DA.Direct(file, UrlPtrs(file, h), i) == DA.Success(View(d))
    ensures KeyAt(file, h, i) == KeyOf(d)
  {
    ViewKey(d);
    hide DA.Direct, UrlPtrs, View;
  }

  lemma ViewKey(d: WriterDirent)
    ensures View(d).ns == d.ns && View(d).url == d.path && View(d).GetTitle() == d.GetTitle()
    ensures match d.target
            case Item(m, c, b) => View(d).mimeType == m && View(d).clusterNumber == c && View(d).blobNumber == b
            case Redirect(i) => View(d).IsRedirect() && View(d).redirectIndex == i
  {
  }

  // ---------------------------------------------------------------- the clusters

  /** The stream of a cluster's image, whatever follows it in the file, begins with its content. */
  lemma ImageStream(c: ClusterData, encode: Str -> Str, decode: Str -> Str, before: Str, tail: Str)
    requires Inverse(encode, decode) && ClusterReads(c)
    ensures var file, ext := before + ImageOf(c, encode) + tail, W.NeedsExtension(c.blobs);
            && |before| < |file| && ReadInfo(file[|before|]) == Info(c.compression, ext)
            && exists rest :: StreamAt(file, |before|, decode) == ClusterBytes(c.blobs, Width(ext)) + rest
  {
    var ext := W.NeedsExtension(c.blobs);
    var content := ClusterBytes(c.blobs, Width(ext));
    var stored := if IsCompressed(c.compression) then encode(content) else content;
    var file := before + ImageOf(c, encode) + tail;
    InfoRoundTrip(c.compression, ext);
    assert ImageOf(c, encode) == [InfoByte(c.compression, ext)] + stored;
    hide ClusterBytes, InfoByte, ReadInfo, ImageOf, W.NeedsExtension, OffsetsFit;
    InfoThen(before, InfoByte(c.compression, ext), stored, tail);
    assert file[|before| + 1..] == stored + tail;
    var stream := StreamAt(file, |before|, decode);
    if IsCompressed(c.compression) {
      assert stream == content;
      assert stream == content + [];
    } else {
      assert stream == content + tail;
    }
  }

  lemma InfoThen(before: Str, info: byte, stored: Str, tail: Str)
    ensures var file := before + ([info] + stored) + tail;
            && |before| < |file| && file[|before|] == info && file[|before| + 1..] == stored + tail
  {
    var file := before + ([info] + stored) + tail;
    assert file == before + [info] + (stored + tail);
  }

  /** Every blob of a listed cluster is read back from the cluster's image. */
  lemma BlobIsRead(c: ClusterData, encode: Str -> Str, decode: Str -> Str, before: Str, tail: Str, blob: nat)
    requires Inverse(encode, decode) && ClusterReads(c) && blob < |c.blobs|
    ensures BlobIn(before + ImageOf(c, encode) + tail, |before|, decode, blob) == Content(c.blobs[blob])
  {
    var ext := W.NeedsExtension(c.blobs);
    var w := Width(ext);
    ImageStream(c, encode, decode, before, tail);
    var file := before + ImageOf(c, encode) + tail;
    var rest :| StreamAt(file, |before|, decode) == ClusterBytes(c.blobs, w) + rest;
    hide ImageOf, StreamAt, ReadInfo, W.NeedsExtension, ClusterBytes, HeaderOf, OffsetsFit;
    assert OffsetsFit(c.blobs, w);
    RC.ClusterRoundTrip(c.blobs, w, rest, blob);
  }

  lemma ClusterIsRead(p: Plan, encode: Str -> Str, decode: Str -> Str, c: nat, blob: nat)
    requires Inverse(encode, decode) && WellFormed(p, encode) && c < |p.clusters|
    requires ClusterReads(p.clusters[c]) && blob < |p.clusters[c].blobs|
    ensures BlobIn(Archive(p, encode), PtrAt(ClusterPtrs(Archive(p, encode), HeaderOfPlan(p, encode)), c), decode, blob)
            == Content(p.clusters[c].blobs[blob])
  {
    hide *;
    var file := Archive(p, encode);
    ClusterPtrReads(p, encode, c);
    ClusterPart(p, encode, c);
    var offset, image := ClusterOffsets(p, encode)[c], ImageOf(p.clusters[c], encode);
    assert file == file[..offset] + image + file[offset + |image|..];
    BlobIsRead(p.clusters[c], encode, decode, file[..offset], file[offset + |image|..], blob);
  }

  lemma ClusterPart(p: Plan, encode: Str -> Str, c: nat)
    requires WellFormed(p, encode) && c < |p.clusters|
    ensures c < |ClusterOffsets(p, encode)|
    ensures var offset, file, image := ClusterOffsets(p, encode)[c], Archive(p, encode), ImageOf(p.clusters[c], encode);
            offset + |image| <= |file| && file[offset..offset + |image|] == image
  {
    hide *;
    var images := Images(p.clusters, encode);
    ClusterBound(p, encode, c);
    HeaderFields(p, encode);
    ClustersAt(p, encode);
    ConcatPart(images, c);
    var a := |Concat(images[..c])|;
    HeldInside(p, encode, CLUSTER_BASE_OFFSET, Concat(images), a, a + |images[c]|);
  }

  /** The header's title position points at exactly the bytes of the title listing. */
  lemma TitleListingIsThere(p: Plan, encode: Str -> Str)
    requires WellFormed(p, encode)
    ensures p.titleCluster < |p.clusters| && p.titleBlob < |p.clusters[p.titleCluster].blobs|
    ensures var file, listing := Archive(p, encode), p.clusters[p.titleCluster].blobs[p.titleBlob];
            var pos := HeaderOfPlan(p, encode).titleIdxPos;
            pos + |listing| <= |file| && file[pos..pos + |listing|] == listing
  {
    hide *;
    TitleInRange(p, encode);
    HeaderFields(p, encode);
    ClusterPart(p, encode, p.titleCluster);
    TitleImage(p, encode);
    TitleBytes(Archive(p, encode), ClusterOffsets(p, encode)[p.titleCluster], p.clusters[p.titleCluster].blobs, encode, p.titleBlob);
  }

  lemma TitleInRange(p: Plan, encode: Str -> Str)
    requires WellFormed(p, encode)
    ensures p.titleCluster < |p.clusters| && p.titleBlob < |p.clusters[p.titleCluster].blobs|
  {
    hide ChecksumPos, M.MimeListBytes;
  }

  lemma TitleBytes(file: Str, offset: nat, blobs: seq<Str>, encode: Str -> Str, n: nat)
    requires n < |blobs|
    requires var image := ClusterImage(None, W.NeedsExtension(blobs), blobs, encode);
             offset + |image| <= |file| && file[offset..offset + |image|] == image
    ensures var pos := offset + (1 + Delta(|blobs|, Width(W.NeedsExtension(blobs)))) + BlobStart(blobs, n);
            pos + |blobs[n]| <= |file| && file[pos..pos + |blobs[n]|] == blobs[n]
  {
    hide *;
    var image := ClusterImage(None, W.NeedsExtension(blobs), blobs, encode);
    assert file == file[..offset] + image + file[offset + |image|..];
    TL.TitlePosition(file[..offset], W.NeedsExtension(blobs), blobs, encode, file[offset + |image|..], n);
  }

  lemma TitleImage(p: Plan, encode: Str -> Str)
    requires WellFormed(p, encode)
    requires p.titleCluster < |p.clusters| && p.titleBlob < |p.clusters[p.titleCluster].blobs|
    requires p.titleCluster < |ClusterOffsets(p, encode)|
    ensures var blobs := p.clusters[p.titleCluster].blobs;
            && ImageOf(p.clusters[p.titleCluster], encode) == ClusterImage(None, W.NeedsExtension(blobs), blobs, encode)
            && TitleIdxPos(p, encode) ==
               ClusterOffsets(p, encode)[p.titleCluster] + (1 + Delta(|blobs|, Width(W.NeedsExtension(blobs))))
               + BlobStart(blobs, p.titleBlob)
  {
    hide ClusterOffsets, BlobStart, Delta, W.NeedsExtension, ClusterImage, ChecksumPos, M.MimeListBytes;
  }

  // ---------------------------------------------------------------- the whole round trip

  /** What looking an entry of the creator up must give. */
  function Expected(p: Plan, i: nat): Result
    requires i < |p.dirents|
    requires p.dirents[i].target.Item? ==>
               var t := p.dirents[i].target;
               t.mimeType < |p.mimes| && t.cluster < |p.clusters| && t.blob < |p.clusters[t.cluster].blobs|
  {
    var d := p.dirents[i];
    match d.target
    case Redirect(index) => RedirectTo(d.GetTitle(), index)
    case Item(m, c, b) => Result.Found(d.GetTitle(), p.mimes[m], p.clusters[c].blobs[b])
  }

  lemma EntryIsRead(p: Plan, encode: Str -> Str, decode: Str -> Str, i: nat)
    requires Readable(p, encode) && Inverse(encode, decode) && i < |p.dirents|
    ensures DirentReads(p, encode, i)
    ensures EntryAt(Archive(p, encode), HeaderOfPlan(p, encode), i, decode) == Expected(p, i)
  {
    assert DirentReads(p, encode, i) && WellFormed(p, encode);
    hide *;
    DirentIsRead(p, encode, i);
    ReadableParts(p, encode);
    ItemReads(p, encode, i);
    if p.dirents[i].target.Item? {
      MimesRead(p, encode);
      ClusterIsRead(p, encode, decode, p.dirents[i].target.cluster, p.dirents[i].target.blob);
    }
    EntryFrom(Archive(p, encode), HeaderOfPlan(p, encode), p, i, decode);
  }

  lemma ItemReads(p: Plan, encode: Str -> Str, i: nat)
    requires Readable(p, encode) && i < |p.dirents|
    ensures p.dirents[i].Valid()
    ensures match p.dirents[i].target
            case Redirect(_) => true
            case Item(m, c, b) => m < |p.mimes| && c < |p.clusters| && b < |p.clusters[c].blobs| && ClusterReads(p.clusters[c])
  {
    assert DirentReads(p, encode, i);
    hide WellFormed, Archive, DirentOffsets, StepsFit, Encode, M.GoodNames, DL.StrictTable, ClusterReads, NoNul;
  }

  /** What reading an entry gives, once its dirent, the names and its blob have been read. */
  lemma EntryFrom(file: Str, h: Fileheader, p: Plan, i: nat, decode: Str -> Str)
    requires i < |p.dirents| && p.dirents[i].Valid()
    requires DA.Direct(file, UrlPtrs(file, h), i) == DA.Success(View(p.dirents[i]))
    requires match p.dirents[i].target
             case Redirect(_) => true
             case Item(m, c, b) =>
               && m < |p.mimes| && c < |p.clusters| && b < |p.clusters[c].blobs|
               && MimeList(file, h) == M.Mimes(p.mimes)
               && BlobIn(file, PtrAt(ClusterPtrs(file, h), c), decode, b) == Content(p.clusters[c].blobs[b])
    ensures EntryAt(file, h, i, decode) == Expected(p, i)
  {
    ViewKey(p.dirents[i]);
    hide DA.Direct, UrlPtrs, View, MimeList, BlobIn, PtrAt, ClusterPtrs, NoNul;
  }

  lemma ReadableParts(p: Plan, encode: Str -> Str)
    requires Readable(p, encode)
    ensures WellFormed(p, encode) && M.GoodNames(p.mimes) && DL.StrictTable(KeysOf(p.dirents))
  {
    hide WellFormed, M.GoodNames, DL.StrictTable;
  }

  /** Looking any path up in the finished archive gives the title, the MIME type and the content that
      the entry was written with, or the number it redirects to; a path that no entry has is not found. */
  lemma LookUpFinds(p: Plan, encode: Str -> Str, decode: Str -> Str, ns: byte, path: Str)
    requires Readable(p, encode) && Inverse(encode, decode)
    ensures var r, key := LookUp(Archive(p, encode), ns, path, decode), DL.DirentKey(ns, path);
            && (forall i :: 0 <= i < |p.dirents| && KeyOf(p.dirents[i]) == key ==> DirentReads(p, encode, i) && r == Expected(p, i))
            && ((forall i :: 0 <= i < |p.dirents| ==> KeyOf(p.dirents[i]) != key) ==> r == NotFound)
  {
    hide LookUp, Readable, WellFormed, Archive, HeaderOfPlan, Inverse, QuickCheck, ReadHeader, EntryAt, Table, Expected, OffsetsFit,
         DL.StrictTable, DL.CountBelow, DL.LongKey, DL.LongKeys, M.GoodNames, StepsFit, Encode, DirentOffsets, Md5.Digest, NoNul;
    ReadableParts(p, encode);
    ArchiveOpens(p, encode);
    TableReads(p, encode);
    var file, h, key := Archive(p, encode), HeaderOfPlan(p, encode), DL.DirentKey(ns, path);
    var table := KeysOf(p.dirents);
    LookUpIs(file, h, ns, path, decode, table);
    forall i: nat | i < |p.dirents| && KeyOf(p.dirents[i]) == key
      ensures DirentReads(p, encode, i) && LookUp(file, ns, path, decode) == Expected(p, i)
    {
      KeyIsThere(table, key, i);
      EntryIsRead(p, encode, decode, i);
    }
  }

  lemma LookUpIs(file: Str, h: Fileheader, ns: byte, path: Str, decode: Str -> Str, table: seq<DL.DirentKey>)
    requires ReadHeader(file) == Ok(h) && QuickCheck(file, h) && Table(file, h) == table
    ensures var key := DL.DirentKey(ns, path);
            var idx := DL.CountBelow(DL.LongKeys(table), DL.LongKey(key));
            LookUp(file, ns, path, decode) == if idx >= |table| || table[idx] != key then NotFound else EntryAt(file, h, idx, decode)
  {
    hide ReadHeader, QuickCheck, Table, DL.CountBelow, DL.LongKeys, DL.LongKey, EntryAt;
  }

  lemma KeyIsThere(table: seq<DL.DirentKey>, key: DL.DirentKey, i: nat)
    requires DL.StrictTable(table) && i < |table| && table[i] == key
    ensures DL.CountBelow(DL.LongKeys(table), DL.LongKey(key)) == i
  {
    DL.FoundIsScan(table, key, i);
  }
}
