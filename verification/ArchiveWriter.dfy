/** `Creator::write` (src/writer/creator.cpp): the file is written out of order, with seeks; what
    comes out is the archive. */
module ArchiveWriter {
  import opened Bytes
  import opened ClusterFormat
  import opened DirentFormat
  import opened Header
  import opened ArchiveFormat
  import M = MimeTypes
  import Md5
  import W = WriterCluster

  /** What a file holds after writing at a position; a gap reads as zeros. */
  function WriteAt(bytes: Str, pos: nat, b: Str): Str {
    if pos > |bytes| then bytes + Zeros(pos - |bytes|) + b
    else bytes[..pos] + b + (if pos + |b| < |bytes| then bytes[pos + |b|..] else [])
  }

  class OutFile {
    var bytes: Str
    var pos: nat

    /** A new file, positioned where the first cluster goes. */
    constructor ()
      ensures bytes == [] && pos == CLUSTER_BASE_OFFSET
    {
      bytes, pos := [], CLUSTER_BASE_OFFSET;
    }

    method Seek(to: nat)
      modifies this
      ensures bytes == old(bytes) && pos == to
    {
      pos := to;
    }

    method SeekEnd()
      modifies this
      ensures bytes == old(bytes) && pos == |bytes|
    {
      pos := |bytes|;
    }

    method Write(b: Str)
      modifies this
      ensures bytes == WriteAt(old(bytes), old(pos), b) && pos == old(pos) + |b|
    {
      bytes := WriteAt(bytes, pos, b);
      pos := pos + |b|;
    }

    /** A write at the end. */
    method Append(b: Str)
      requires pos == |bytes|
      modifies this
      ensures bytes == old(bytes) + b && pos == |bytes|
    {
      Write(b);
      assert bytes == old(bytes)[..old(pos)] + b + [];
    }
  }

  lemma Overwrite(a: Str, b: Str, c: Str, x: Str)
    requires |x| == |b|
    ensures WriteAt(a + b + c, |a|, x) == a + x + c
  {
    var s := a + b + c;
    assert s[..|a|] == a;
    assert |a| + |x| < |s| ==> s[|a| + |x|..] == c;
    assert |a| + |x| == |s| ==> c == [];
  }

  /** The file while the MIME list is written: header space, the list so far, zeros, the clusters. */
  function WithMimes(done: Str, clusters: Str): Str {
    Zeros(SIZE) + done + Zeros(if SIZE + |done| < CLUSTER_BASE_OFFSET then CLUSTER_BASE_OFFSET - SIZE - |done| else 0) + clusters
  }

  lemma MimesStart(clusters: Str)
    ensures WithMimes([], clusters) == Zeros(CLUSTER_BASE_OFFSET) + clusters
  {
    assert Zeros(SIZE) + [] + Zeros(CLUSTER_BASE_OFFSET - SIZE) == Zeros(CLUSTER_BASE_OFFSET);
  }

  lemma MimesNext(done: Str, x: Str, clusters: Str)
    requires SIZE + |done| + |x| <= CLUSTER_BASE_OFFSET
    ensures WriteAt(WithMimes(done, clusters), SIZE + |done|, x) == WithMimes(done + x, clusters)
  {
    var n := CLUSTER_BASE_OFFSET - SIZE - |done|;
    var a, rest := Zeros(SIZE) + done, Zeros(n - |x|);
    assert Zeros(n) == Zeros(|x|) + rest;
    assert WithMimes(done, clusters) == a + Zeros(|x|) + (rest + clusters);
    Overwrite(a, Zeros(|x|), rest + clusters, x);
    assert a + x + (rest + clusters) == Zeros(SIZE) + (done + x) + rest + clusters;
  }

  /** The list of MIME types, at byte 80. */
  method WriteMimes(mimes: seq<Str>, out: OutFile, ghost clusters: Str)
    requires SIZE + |M.MimeListBytes(mimes)| < CLUSTER_BASE_OFFSET
    requires out.bytes == WithMimes([], clusters) && out.pos == SIZE
    modifies out
    ensures out.bytes == WithMimes(M.MimeListBytes(mimes), clusters)
    ensures out.pos == SIZE + |M.MimeListBytes(mimes)|
  {
    ghost var done: Str := [];
    var whole := M.MimeListBytes(mimes);
    for i := 0 to |mimes|
      invariant done + M.MimeListBytes(mimes[i..]) == whole
      invariant out.bytes == WithMimes(done, clusters) && out.pos == SIZE + |done|
    {
      NextMime(mimes, i, done);
      MimesNext(done, mimes[i] + [0], clusters);
      out.Write(mimes[i] + [0]);
      done := done + (mimes[i] + [0]);
    }
    assert mimes[|mimes|..] == [] && whole == done + [0];
    MimesNext(done, [0], clusters);
    out.Write([0]);
  }

  lemma NextMime(mimes: seq<Str>, i: nat, done: Str)
    requires i < |mimes|
    ensures done + M.MimeListBytes(mimes[i..]) == done + (mimes[i] + [0]) + M.MimeListBytes(mimes[i + 1..])
  {
    assert mimes[i..][1..] == mimes[i + 1..];
    assert done + (mimes[i] + [0] + M.MimeListBytes(mimes[i + 1..])) == done + (mimes[i] + [0]) + M.MimeListBytes(mimes[i + 1..]);
  }

  /** The first i dirents, and the offset of each. */
  function Written(dirents: seq<WriterDirent>, i: nat): Str
    requires i <= |dirents|
  {
    Concat(Encodings(dirents)[..i])
  }

  function OffsetsFrom(dirents: seq<WriterDirent>, start: nat, i: nat): seq<nat>
    requires i <= |dirents|
  {
    Starts(Encodings(dirents), start)[..i]
  }

  /** The dirents, each at the offset it is given. */
  method WriteDirents(dirents: seq<WriterDirent>, out: OutFile) returns (offsets: seq<nat>)
    requires out.pos == |out.bytes|
    modifies out
    ensures out.bytes == old(out.bytes) + Concat(Encodings(dirents)) && out.pos == |out.bytes|
    ensures offsets == Starts(Encodings(dirents), |old(out.bytes)|)
  {
    hide *;
    ghost var before := out.bytes;
    offsets := [];
    NoneWritten(before, dirents);
    for i := 0 to |dirents|
      invariant out.bytes == before + Written(dirents, i) && out.pos == |out.bytes|
      invariant offsets == OffsetsFrom(dirents, |before|, i)
    {
      OneWritten(before, dirents, i);
      offsets := offsets + [out.pos];
      var bytes := DirentFormat.Write(dirents[i]);
      out.Append(bytes);
    }
    AllWritten(dirents, |before|);
  }

  lemma NoneWritten(before: Str, dirents: seq<WriterDirent>)
    ensures before + Written(dirents, 0) == before && OffsetsFrom(dirents, |before|, 0) == []
  {
    ConcatEmpty();
    assert Encodings(dirents)[..0] == [];
  }

  lemma OneWritten(before: Str, dirents: seq<WriterDirent>, i: nat)
    requires i < |dirents|
    ensures before + Written(dirents, i) + Encode(dirents[i]) == before + Written(dirents, i + 1)
    ensures OffsetsFrom(dirents, |before|, i) + [|before + Written(dirents, i)|] == OffsetsFrom(dirents, |before|, i + 1)
  {
    var parts := Encodings(dirents);
    hide Concat, Encode, Encodings, Starts;
    Snoc(parts, i);
    assert before + Concat(parts[..i]) + parts[i] == before + (Concat(parts[..i]) + parts[i]);
  }

  lemma AllWritten(dirents: seq<WriterDirent>, start: nat)
    ensures Written(dirents, |dirents|) == Concat(Encodings(dirents))
    ensures OffsetsFrom(dirents, start, |dirents|) == Starts(Encodings(dirents), start)
  {
    hide Concat, Encodings, Starts;
    assert Encodings(dirents)[..|dirents|] == Encodings(dirents);
  }

  /** A table of 8-byte offsets. */
  method WritePointers(offsets: seq<nat>, out: OutFile)
    requires out.pos == |out.bytes|
    modifies out
    ensures out.bytes == old(out.bytes) + EncodeOffsets(offsets, 8) && out.pos == |out.bytes|
  {
    hide *;
    ghost var before := out.bytes;
    NoPointers(before, offsets);
    for i := 0 to |offsets|
      invariant out.bytes == WithPointers(before, offsets, i) && out.pos == |out.bytes|
    {
      OnePointer(before, offsets, i);
      out.Append(ToLE(offsets[i], 8));
    }
    AllPointers(before, offsets);
  }

  function WithPointers(before: Str, offsets: seq<nat>, i: nat): Str
    requires i <= |offsets|
  {
    before + EncodeOffsets(offsets[..i], 8)
  }

  lemma NoPointers(before: Str, offsets: seq<nat>)
    ensures WithPointers(before, offsets, 0) == before
  {
    assert offsets[..0] == [];
  }

  lemma OnePointer(before: Str, offsets: seq<nat>, i: nat)
    requires i < |offsets|
    ensures WithPointers(before, offsets, i) + ToLE(offsets[i], 8) == WithPointers(before, offsets, i + 1)
  {
    assert offsets[..i + 1] == offsets[..i] + [offsets[i]];
    W.EncodeSnoc(offsets[..i], offsets[i], 8);
    hide EncodeOffsets, ToLE;
  }

  lemma AllPointers(before: Str, offsets: seq<nat>)
    ensures WithPointers(before, offsets, |offsets|) == before + EncodeOffsets(offsets, 8)
  {
    assert offsets[..|offsets|] == offsets;
  }

  /** The file before the header is written: its space is zeros. */
  function Unheaded(p: Plan, encode: Str -> Str): Str {
    WithMimes(M.MimeListBytes(p.mimes), Concat(Images(p.clusters, encode)))
    + Concat(Encodings(p.dirents)) + EncodeOffsets(DirentOffsets(p, encode), 8) + EncodeOffsets(ClusterOffsets(p, encode), 8)
  }

  lemma HeaderCompletes(p: Plan, encode: Str -> Str)
    requires Writable(p, encode)
    ensures WriteAt(Unheaded(p, encode), 0, HeaderBytes(HeaderOfPlan(p, encode))) == Body(p, encode)
  {
    hide *;
    var h := HeaderBytes(HeaderOfPlan(p, encode));
    FitsBase(p, encode);
    HeaderIsSane(p, encode);
    ParseWritten(HeaderOfPlan(p, encode), []);
    var m, g, a := M.MimeListBytes(p.mimes), Gap(p), Concat(Images(p.clusters, encode));
    var d, u, c := Concat(Encodings(p.dirents)), EncodeOffsets(DirentOffsets(p, encode), 8), EncodeOffsets(ClusterOffsets(p, encode), 8);
    UnheadedParts(p, encode);
    BodyParts(p, encode);
    var rest := m + g + a + d + u + c;
    SevenTogether(h, m, g, a, d, u, c);
    SevenTogether(Zeros(SIZE), m, g, a, d, u, c);
    assert [] + Zeros(SIZE) + rest == Zeros(SIZE) + rest;
    Overwrite([], Zeros(SIZE), rest, h);
    assert [] + h + rest == h + rest;
  }

  lemma UnheadedParts(p: Plan, encode: Str -> Str)
    requires SIZE + |M.MimeListBytes(p.mimes)| < CLUSTER_BASE_OFFSET
    ensures Unheaded(p, encode) ==
            Zeros(SIZE) + M.MimeListBytes(p.mimes) + Gap(p) + Concat(Images(p.clusters, encode))
            + Concat(Encodings(p.dirents)) + EncodeOffsets(DirentOffsets(p, encode), 8) + EncodeOffsets(ClusterOffsets(p, encode), 8)
  {
    hide Concat, Images, Encodings, EncodeOffsets, DirentOffsets, ClusterOffsets, M.MimeListBytes;
  }

  lemma BodyParts(p: Plan, encode: Str -> Str)
    requires Writable(p, encode)
    ensures Body(p, encode) ==
            HeaderBytes(HeaderOfPlan(p, encode)) + M.MimeListBytes(p.mimes) + Gap(p) + Concat(Images(p.clusters, encode))
            + Concat(Encodings(p.dirents)) + EncodeOffsets(DirentOffsets(p, encode), 8) + EncodeOffsets(ClusterOffsets(p, encode), 8)
  {
    ArchiveParts(p, encode);
    PartIs(p, encode);
    FirstIs(p, encode);
    hide *;
    ConcatSeven(Parts(p, encode));
  }

  lemma FirstIs(p: Plan, encode: Str -> Str)
    ensures |Parts(p, encode)| == 7 && Parts(p, encode)[0] == HeaderBytes(HeaderOfPlan(p, encode))
  {
    hide HeaderBytes, HeaderOfPlan, Images, Encodings, EncodeOffsets, DirentOffsets, ClusterOffsets, Concat, Gap, M.MimeListBytes;
  }

  lemma ConcatSeven(s: seq<Str>)
    requires |s| == 7
    ensures Concat(s) == s[0] + s[1] + s[2] + s[3] + s[4] + s[5] + s[6]
  {
    assert s[..0] == [] && s[..7] == s;
    ConcatEmpty();
    hide *;
    Snoc(s, 0);
    Snoc(s, 1);
    Snoc(s, 2);
    Snoc(s, 3);
    Snoc(s, 4);
    Snoc(s, 5);
    Snoc(s, 6);
    assert [] + s[0] == s[0];
  }

  lemma Snoc(s: seq<Str>, i: nat)
    requires i < |s|
    ensures Concat(s[..i + 1]) == Concat(s[..i]) + s[i]
  {
    assert s[..i + 1] == s[..i] + [s[i]];
    ConcatSnoc(s[..i], s[i]);
  }

  lemma SevenTogether(h: Str, m: Str, g: Str, a: Str, d: Str, u: Str, c: Str)
    ensures h + m + g + a + d + u + c == h + (m + g + a + d + u + c)
  {
  }

  /** What the creator knows when everything but the header is written. */
  datatype Marks = Marks(titleIdxPos: nat, urlPtrPos: nat, clusterPtrPos: nat, checksumPos: nat)

  /** `write`, up to the header: the MIME list in front, then dirents and pointers behind the clusters. */
  method WriteParts(p: Plan, ghost encode: Str -> Str, out: OutFile, clusterOffsets: seq<nat>) returns (m: Marks)
    requires Writable(p, encode)
    requires out.bytes == Zeros(CLUSTER_BASE_OFFSET) + Concat(Images(p.clusters, encode))
    requires clusterOffsets == ClusterOffsets(p, encode)
    modifies out
    ensures out.bytes == Unheaded(p, encode)
    ensures m == Marks(TitleIdxPos(p, encode), UrlPtrPos(p, encode), ClusterPtrPos(p, encode), ChecksumPos(p, encode))
  {
    hide *;
    PointerCounts(p, encode);
    FitsBase(p, encode);
    ghost var clusters := Concat(Images(p.clusters, encode));
    MimesStart(clusters);
    var titleIdxPos := TitlePos(p, encode, clusterOffsets);
    out.Seek(SIZE);
    WriteMimes(p.mimes, out, clusters);
    out.SeekEnd();
    StartOfDirents(p, encode);
    var direntOffsets := WriteDirents(p.dirents, out);
    var urlPtrPos := out.pos;
    WritePointers(direntOffsets, out);
    var clusterPtrPos := out.pos;
    WritePointers(clusterOffsets, out);
    UnheadedIs(p, encode);
    UrlPtrPosIs(p, encode);
    ClusterPtrPosIs(p, encode);
    ChecksumPosIs(p, encode);
    m := Marks(titleIdxPos, urlPtrPos, clusterPtrPos, out.pos);
  }

  /** `write`: given the file with its clusters, the finished archive. */
  method WriteArchive(p: Plan, ghost encode: Str -> Str, out: OutFile, clusterOffsets: seq<nat>, isExtended: bool)
    requires Writable(p, encode)
    requires out.bytes == Zeros(CLUSTER_BASE_OFFSET) + Concat(Images(p.clusters, encode))
    requires clusterOffsets == ClusterOffsets(p, encode) && isExtended == AnyExtended(p.clusters)
    modifies out
    ensures out.bytes == Archive(p, encode)
  {
    hide *;
    FitsBase(p, encode);
    var m := WriteParts(p, encode, out, clusterOffsets);
    var header := Fileheader(if isExtended then EXTENDED_MAJOR else CLASSIC_MAJOR, 1, p.uuid, |p.dirents|, |p.clusters|,
                             m.urlPtrPos, m.titleIdxPos, m.clusterPtrPos, SIZE, p.mainPage, 0xffff_ffff, m.checksumPos);
    HeaderIs(p, encode);
    HeaderCompletes(p, encode);
    var bytes := Header.Write(header);
    out.Seek(0);
    out.Write(bytes);
    var digest := Md5.WriterChecksum(out.bytes);
    out.SeekEnd();
    out.Append(digest);
    ArchiveIs(p, encode);
  }

  lemma FitsBase(p: Plan, encode: Str -> Str)
    requires Writable(p, encode)
    ensures SIZE + |M.MimeListBytes(p.mimes)| < CLUSTER_BASE_OFFSET && |p.uuid| == 16
    ensures p.titleCluster < |p.clusters| && p.titleBlob < |p.clusters[p.titleCluster].blobs|
    ensures Writable(p, encode)
  {
    hide ChecksumPos, M.MimeListBytes;
  }

  /** Where the dirents begin: behind the clusters. */
  lemma StartOfDirents(p: Plan, encode: Str -> Str)
    requires SIZE + |M.MimeListBytes(p.mimes)| < CLUSTER_BASE_OFFSET
    ensures |WithMimes(M.MimeListBytes(p.mimes), Concat(Images(p.clusters, encode)))| == DirentStart(p, encode)
    ensures DirentOffsets(p, encode) == Starts(Encodings(p.dirents), DirentStart(p, encode))
  {
    hide Concat, Images, Encodings, Starts, M.MimeListBytes;
  }

  lemma UnheadedIs(p: Plan, encode: Str -> Str)
    ensures Unheaded(p, encode) ==
            WithMimes(M.MimeListBytes(p.mimes), Concat(Images(p.clusters, encode)))
            + Concat(Encodings(p.dirents)) + EncodeOffsets(DirentOffsets(p, encode), 8) + EncodeOffsets(ClusterOffsets(p, encode), 8)
  {
    hide Concat, Images, Encodings, M.MimeListBytes, EncodeOffsets, DirentOffsets, ClusterOffsets, WithMimes;
  }

  lemma UrlPtrPosIs(p: Plan, encode: Str -> Str)
    ensures UrlPtrPos(p, encode) == DirentStart(p, encode) + |Concat(Encodings(p.dirents))|
  {
    hide Concat, Encodings, DirentStart;
  }

  lemma ClusterPtrPosIs(p: Plan, encode: Str -> Str)
    requires |DirentOffsets(p, encode)| == |p.dirents|
    ensures ClusterPtrPos(p, encode) == UrlPtrPos(p, encode) + |EncodeOffsets(DirentOffsets(p, encode), 8)|
  {
    EncodeOffsetsSize(DirentOffsets(p, encode), 8);
    hide UrlPtrPos, EncodeOffsets, DirentOffsets;
  }

  lemma ChecksumPosIs(p: Plan, encode: Str -> Str)
    requires |ClusterOffsets(p, encode)| == |p.clusters|
    ensures ChecksumPos(p, encode) == ClusterPtrPos(p, encode) + |EncodeOffsets(ClusterOffsets(p, encode), 8)|
  {
    EncodeOffsetsSize(ClusterOffsets(p, encode), 8);
    hide ClusterPtrPos, EncodeOffsets, ClusterOffsets;
  }

  lemma HeaderIs(p: Plan, encode: Str -> Str)
    ensures HeaderOfPlan(p, encode) ==
            Fileheader(if AnyExtended(p.clusters) then EXTENDED_MAJOR else CLASSIC_MAJOR, 1, p.uuid, |p.dirents|, |p.clusters|,
                       UrlPtrPos(p, encode), TitleIdxPos(p, encode), ClusterPtrPos(p, encode), SIZE, p.mainPage, 0xffff_ffff,
                       ChecksumPos(p, encode))
  {
    hide UrlPtrPos, TitleIdxPos, ClusterPtrPos, ChecksumPos, AnyExtended;
  }

  /** `fillHeader`: the cluster's offset, its data offset and the blob's offset in the data. */
  method TitlePos(p: Plan, ghost encode: Str -> Str, clusterOffsets: seq<nat>) returns (pos: nat)
    requires p.titleCluster < |p.clusters| && p.titleBlob < |p.clusters[p.titleCluster].blobs|
    requires clusterOffsets == ClusterOffsets(p, encode) && |clusterOffsets| == |p.clusters|
    ensures pos == TitleIdxPos(p, encode)
  {
    hide ClusterOffsets, W.NeedsExtension, Concat;
    var blobs := p.clusters[p.titleCluster].blobs;
    pos := clusterOffsets[p.titleCluster] + (1 + (|blobs| + 1) * Width(W.NeedsExtension(blobs))) + |Concat(blobs[..p.titleBlob])|;
  }
}
