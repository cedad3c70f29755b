/** The reader's objects at work on a finished archive: the sampled lookup, the cached dirent accessor,
    the lazy cluster and its sequential streams answer as `ArchiveReader.LookUp` says
    (src/fileimpl.cpp, src/item.cpp). */
module ReaderRun {
  import opened Bytes
  import opened ClusterFormat
  import opened ArchiveFormat
  import AR = ArchiveReader
  import DA = DirentAccessor
  import DF = DirentFormat
  import DL = DirentLookup
  import H = Header
  import M = MimeTypes
  import RC = ReaderCluster
  import SR = StreamReader
  import W = WriterCluster

  /** The codec decodes every stream as `decode` does; `at(enc)` is its relation for that stream. */
  ghost predicate DecodesAs<S(!new)>(codec: SR.Codec<S>, decode: Str -> Str, at: Str -> ((S, nat, nat) -> bool)) {
    forall enc :: SR.Decodes(codec, enc, decode(enc), at(enc))
  }

  // ---------------------------------------------------------------- a blob

  /** The cluster at this offset has a header, all its offsets lie in its stream, and it has that blob. */
  ghost predicate Opens(file: Str, offset: nat, decode: Str -> Str, blob: nat) {
    && offset < |file| && ReadInfo(file[offset]).Info?
    && var stream, w := AR.StreamAt(file, offset, decode), Width(ReadInfo(file[offset]).isExtended);
       HeaderOf(stream, w).Offsets? && RC.GoodOffsets(HeaderOf(stream, w).offsets, stream) && blob + 1 < |HeaderOf(stream, w).offsets|
  }

  lemma InfoByCode(b: byte)
    requires ReadInfo(b).Info?
    ensures b % 16 == 0 || b % 16 == 1 ==> !IsCompressed(ReadInfo(b).compression)
    ensures b % 16 == 4 || b % 16 == 5 ==> IsCompressed(ReadInfo(b).compression)
  {
  }

  /** `getClusterReader`: raw behind the info byte, or through a decoder. */
  method GetClusterReader<S(!new)>(file: Str, offset: nat, codec: SR.Codec<S>, ghost decode: Str -> Str,
                                   ghost at: Str -> ((S, nat, nat) -> bool))
    returns (reader: RC.IStreamReader<S>)
    requires DecodesAs(codec, decode, at) && offset < |file| && ReadInfo(file[offset]).Info?
    ensures fresh(reader.Repr()) && reader.Valid() && reader.Pos() == 0
    ensures reader.Plain() == AR.StreamAt(file, offset, decode)
    ensures file[offset] % 16 == 0 || file[offset] % 16 == 1 ==> reader.Raw? && reader.Plain() == file[offset + 1..]
    ensures file[offset] % 16 == 4 || file[offset] % 16 == 5 ==> reader.Decoding? && reader.Plain() == decode(file[offset + 1..])
  {
    AR.StreamByCode(file, offset, decode);
    InfoByCode(file[offset]);
    hide ReadInfo, SR.Decodes;
    var encoded := file[offset + 1..];
    if IsCompressed(ReadInfo(file[offset]).compression) {
      var decoder := new SR.DecoderStreamReader(encoded, codec, decode(encoded), at(encoded));
      reader := RC.Decoding(decoder);
    } else {
      var raw := new SR.RawStreamReader(encoded);
      reader := RC.Raw(raw);
    }
  }

  /** `Cluster::read` and `getBlob`. */
  method ReadBlob<S(!new)>(file: Str, offset: nat, codec: SR.Codec<S>, ghost decode: Str -> Str,
                           ghost at: Str -> ((S, nat, nat) -> bool), blob: nat)
    returns (bytes: Str)
    requires DecodesAs(codec, decode, at) && Opens(file, offset, decode, blob)
    ensures AR.BlobIn(file, offset, decode, blob) == AR.Content(bytes)
  {
    OpensIs(file, offset, decode, blob);
    hide *;
    var isExtended := ReadInfo(file[offset]).isExtended;
    var reader := GetClusterReader(file, offset, codec, decode, at);
    var cluster := new RC.Cluster(reader, isExtended);
    var ok := cluster.ReadHeader();
    bytes := cluster.GetBlob(blob);
  }

  lemma OpensIs(file: Str, offset: nat, decode: Str -> Str, blob: nat)
    requires Opens(file, offset, decode, blob)
    ensures offset < |file| && ReadInfo(file[offset]).Info?
    ensures var stream, w := AR.StreamAt(file, offset, decode), Width(ReadInfo(file[offset]).isExtended);
            && w > 0 && w <= |stream| && FromLE(stream[..w]) <= |stream|
            && HeaderOf(stream, w).Offsets?
            && var o := HeaderOf(stream, w).offsets;
               && |o| > 0 && o[|o| - 1] <= |stream| && blob + 1 < |o|
               && o[blob] <= o[blob + 1] <= |stream|
               && AR.BlobIn(file, offset, decode, blob) == AR.Content(RC.BlobAt(o, stream, blob))
  {
    hide ReadInfo, AR.StreamAt, FromLE, DecodeOffsets;
  }

  // ---------------------------------------------------------------- an entry

  /** Every blob of a listed cluster of the archive can be asked for. */
  lemma ClusterOpens(p: Plan, encode: Str -> Str, decode: Str -> Str, n: nat, blob: nat)
    requires AR.Inverse(encode, decode) && WellFormed(p, encode) && n < |p.clusters|
    requires AR.ClusterReads(p.clusters[n]) && blob < |p.clusters[n].blobs|
    ensures var file := Archive(p, encode);
            Opens(file, AR.PtrAt(AR.ClusterPtrs(file, HeaderOfPlan(p, encode)), n), decode, blob)
  {
    hide *;
    var file := Archive(p, encode);
    AR.ClusterPtrReads(p, encode, n);
    AR.ClusterPart(p, encode, n);
    var offset, image := ClusterOffsets(p, encode)[n], ImageOf(p.clusters[n], encode);
    assert file == file[..offset] + image + file[offset + |image|..];
    ImageOpens(p.clusters[n], encode, decode, file[..offset], file[offset + |image|..], blob);
  }

  lemma ImageOpens(c: ClusterData, encode: Str -> Str, decode: Str -> Str, before: Str, tail: Str, blob: nat)
    requires AR.Inverse(encode, decode) && AR.ClusterReads(c) && blob < |c.blobs|
    ensures Opens(before + ImageOf(c, encode) + tail, |before|, decode, blob)
  {
    var ext := W.NeedsExtension(c.blobs);
    AR.ImageStream(c, encode, decode, before, tail);
    var file := before + ImageOf(c, encode) + tail;
    var rest :| AR.StreamAt(file, |before|, decode) == ClusterBytes(c.blobs, Width(ext)) + rest;
    hide ImageOf, AR.StreamAt, ReadInfo, W.NeedsExtension, ClusterBytes, HeaderOf, OffsetsFit, RC.GoodOffsets;
    assert OffsetsFit(c.blobs, Width(ext));
    RC.ClusterRoundTrip(c.blobs, Width(ext), rest, blob);
  }

  /** Reading an entry that was found: a redirect's number, or an item's name and content. */
  method ReadEntry<S(!new)>(ghost p: Plan, ghost encode: Str -> Str, ghost decode: Str -> Str, file: Str, h: H.Fileheader,
                            idx: nat, d: DF.Dirent, codec: SR.Codec<S>, ghost at: Str -> ((S, nat, nat) -> bool))
    returns (r: AR.Result)
    requires AR.Readable(p, encode) && AR.Inverse(encode, decode) && DecodesAs(codec, decode, at)
    requires file == Archive(p, encode) && h == HeaderOfPlan(p, encode) && idx < |p.dirents|
    requires DA.Direct(file, AR.UrlPtrs(file, h), idx) == DA.Success(d)
    ensures r == AR.EntryAt(file, h, idx, decode)
  {
    hide *;
    EntryParts(p, encode, decode, idx, d);
    if d.mimeType == DF.REDIRECT_MIME {
      EntryIs(file, h, idx, decode, d);
      return AR.RedirectTo(d.GetTitle(), d.redirectIndex);
    }
    var end := AR.MimeListEnd(file, h);
    var mimes := M.ReadMimeTypes(file[h.mimeListPos..end]);
    var bytes := ReadBlob(file, AR.PtrAt(AR.ClusterPtrs(file, h), d.clusterNumber), codec, decode, at, d.blobNumber);
    EntryIs(file, h, idx, decode, d);
    r := AR.Result.Found(d.GetTitle(), mimes.list[d.mimeType], bytes);
  }

  lemma EntryIs(file: Str, h: H.Fileheader, idx: nat, decode: Str -> Str, d: DF.Dirent)
    requires DA.Direct(file, AR.UrlPtrs(file, h), idx) == DA.Success(d)
    ensures d.mimeType == DF.REDIRECT_MIME ==> AR.EntryAt(file, h, idx, decode) == AR.RedirectTo(d.GetTitle(), d.redirectIndex)
    ensures var mimes, blob := AR.MimeList(file, h), AR.BlobIn(file, AR.PtrAt(AR.ClusterPtrs(file, h), d.clusterNumber), decode, d.blobNumber);
            d.mimeType != DF.REDIRECT_MIME && mimes.Mimes? && blob.Content? && d.mimeType < |mimes.list| ==>
              AR.EntryAt(file, h, idx, decode) == AR.Result.Found(d.GetTitle(), mimes.list[d.mimeType], blob.bytes)
  {
    hide DA.Direct, AR.UrlPtrs, AR.MimeList, AR.BlobIn, AR.PtrAt, AR.ClusterPtrs;
  }

  /** What reading the entry relies on: the names are there, and the blob's cluster opens. */
  lemma EntryParts(p: Plan, encode: Str -> Str, decode: Str -> Str, idx: nat, d: DF.Dirent)
    requires AR.Readable(p, encode) && AR.Inverse(encode, decode) && idx < |p.dirents|
    requires DA.Direct(Archive(p, encode), AR.UrlPtrs(Archive(p, encode), HeaderOfPlan(p, encode)), idx) == DA.Success(d)
    ensures d.mimeType != DF.REDIRECT_MIME ==>
              var file, h := Archive(p, encode), HeaderOfPlan(p, encode);
              && Opens(file, AR.PtrAt(AR.ClusterPtrs(file, h), d.clusterNumber), decode, d.blobNumber)
              && h.mimeListPos <= AR.MimeListEnd(file, h) <= |file|
              && AR.MimeList(file, h) == M.Mimes(p.mimes) == M.ReadMimeList(file[h.mimeListPos..AR.MimeListEnd(file, h)])
              && d.mimeType < |p.mimes|
  {
    hide *;
    var file, h := Archive(p, encode), HeaderOfPlan(p, encode);
    AR.ReadableParts(p, encode);
    AR.EntryIsRead(p, encode, decode, idx);
    AR.DirentIsRead(p, encode, idx);
    AR.ItemReads(p, encode, idx);
    AR.ViewKey(p.dirents[idx]);
    RedirectMime(p.dirents[idx]);
    if d.mimeType != DF.REDIRECT_MIME {
      var t := p.dirents[idx].target;
      ClusterOpens(p, encode, decode, t.cluster, t.blob);
      AR.MimesRead(p, encode);
      AR.MimeListIs(file, h);
    }
  }

  lemma RedirectMime(d: DF.WriterDirent)
    requires d.Valid()
    ensures DF.View(d).mimeType == DF.REDIRECT_MIME <==> d.target.Redirect?
  {
    hide NoNul;
  }

  // ---------------------------------------------------------------- a lookup

  /** Opening the finished archive and looking a path up with the reader's own objects, whatever the
      sizes of their caches: the answer is that of `ArchiveReader.LookUp`. The sample of the keys must
      fit its 32-bit offsets. */
  method LookUpRun<S(!new)>(ghost p: Plan, ghost encode: Str -> Str, ghost decode: Str -> Str, file: Str, ns: byte, path: Str,
                            codec: SR.Codec<S>, ghost at: Str -> ((S, nat, nat) -> bool), lookupCache: nat, direntCache: nat)
    returns (r: AR.Result)
    requires AR.Readable(p, encode) && AR.Inverse(encode, decode) && DecodesAs(codec, decode, at)
    requires file == Archive(p, encode) && ns < 128
    requires lookupCache > 0 && |p.dirents| + DL.Step(|p.dirents|, lookupCache) <= TWO32
    requires DL.AreaFits(DL.LongKeys(AR.KeysOf(p.dirents)), DL.Step(|p.dirents|, lookupCache))
    ensures r == AR.LookUp(file, ns, path, decode)
  {
    hide *;
    ArchiveIsOpen(p, encode);
    var h := H.ReadHeader(file).header;
    var table := AR.Table(file, h);
    var lookup := new DL.DirentLookup(table, lookupCache);
    var accessor := new DA.DirectDirentAccessor(file, AR.UrlPtrs(file, h), h.articleCount, direntCache);
    AR.LookUpIs(file, h, ns, path, decode, table);
    var found, idx := lookup.Find(ns, path);
    if !found {
      NotThere(table, DL.DirentKey(ns, path), idx);
      return AR.NotFound;
    }
    var answer := accessor.GetDirent(idx);
    AR.DirentIsRead(p, encode, idx);
    r := ReadEntry(p, encode, decode, file, h, idx, answer.dirent, codec, at);
  }

  /** The header is accepted and the checks pass, and the keys read are the creator's. */
  lemma ArchiveIsOpen(p: Plan, encode: Str -> Str)
    requires AR.Readable(p, encode)
    ensures var file, h := Archive(p, encode), HeaderOfPlan(p, encode);
            && H.ReadHeader(file) == H.Ok(h) && AR.QuickCheck(file, h)
            && AR.Table(file, h) == AR.KeysOf(p.dirents) && h.articleCount == |p.dirents| == |AR.KeysOf(p.dirents)|
            && |AR.UrlPtrs(file, h)| == 8 * h.articleCount
    ensures WellFormed(p, encode) && DL.StrictTable(AR.KeysOf(p.dirents)) && DL.GoodTable(AR.KeysOf(p.dirents))
    ensures forall i :: 0 <= i < |p.dirents| ==> AR.DirentReads(p, encode, i)
  {
    hide *;
    AR.ReadableParts(p, encode);
    AR.ArchiveOpens(p, encode);
    AR.TableReads(p, encode);
    AR.HeaderFields(p, encode);
    AR.TablesRead(p, encode);
    UrlTableAt(p, encode);
    StrictIsGood(AR.KeysOf(p.dirents));
    DirentsRead(p, encode);
  }

  lemma StrictIsGood(table: seq<DL.DirentKey>)
    requires DL.StrictTable(table)
    ensures DL.GoodTable(table)
  {
    hide DL.GoodTable;
  }

  lemma DirentsRead(p: Plan, encode: Str -> Str)
    requires AR.Readable(p, encode)
    ensures forall i :: 0 <= i < |p.dirents| ==> AR.DirentReads(p, encode, i)
  {
    hide WellFormed, AR.DirentReads, AR.ClusterReads, DL.StrictTable, M.GoodNames;
  }

  lemma NotThere(table: seq<DL.DirentKey>, key: DL.DirentKey, idx: nat)
    requires key !in table
    ensures idx < |table| ==> table[idx] != key
  {
  }

  // ---------------------------------------------------------------- such a codec exists

  /** Before a mark, before a byte, behind the end mark. */
  datatype Phase = Mark | Byte | End

  /** A decoder for `ArchiveReader.Escape` that takes one byte a call. */
  function EscapeCodec(): SR.Codec<Phase> {
    SR.Codec(Mark, EscapeStep)
  }

  function EscapeStep(s: Phase, chunk: Str, room: nat): SR.Run<Phase> {
    if chunk == [] || room == 0 || s.End? then SR.Run(s, 0, [])
    else if s.Mark? then SR.Run(if chunk[0] == 1 then Byte else End, 1, [])
    else SR.Run(Mark, 1, [chunk[0]])
  }

  /** The first o bytes all have their marks. */
  predicate Marked(enc: Str, o: nat) {
    2 * o <= |enc| && forall k :: 0 <= k < o ==> enc[2 * k] == 1
  }

  predicate EscapePlace(enc: Str, s: Phase, i: nat, o: nat) {
    && Marked(enc, o)
    && match s
       case Mark => i == 2 * o
       case Byte => i == 2 * o + 1 <= |enc| && enc[2 * o] == 1
       case End => o == |AR.Unescape(enc)|
  }

  function EscapeAt(enc: Str): (Phase, nat, nat) -> bool {
    (s: Phase, i: nat, o: nat) => EscapePlace(enc, s, i, o)
  }

  /** What the decoding holds behind o marked bytes. */
  lemma {:induction false} UnescapeFrom(enc: Str, o: nat)
    requires Marked(enc, o)
    ensures |AR.Unescape(enc)| >= o
    ensures AR.Unescape(enc)[o..] == AR.Unescape(enc[2 * o..])
  {
    if o == 0 {
      assert enc[0..] == enc;
    } else {
      assert enc[2 * 0] == 1;
      forall k | 0 <= k < o - 1 ensures enc[2..][2 * k] == 1 { assert enc[2 * (k + 1)] == 1; }
      UnescapeFrom(enc[2..], o - 1);
      assert enc[2..][2 * (o - 1)..] == enc[2 * o..];
    }
  }

  /** How many bytes come out, told from the place behind o marked ones. */
  lemma ComesOut(enc: Str, o: nat)
    requires Marked(enc, o)
    ensures var plain := AR.Unescape(enc);
            if |enc| < 2 * o + 2 || enc[2 * o] != 1 then |plain| == o else |plain| > o && plain[o] == enc[2 * o + 1]
  {
    UnescapeFrom(enc, o);
    UnescapeStep(enc[2 * o..]);
    hide AR.Unescape, Marked;
    var plain, rest := AR.Unescape(enc), enc[2 * o..];
    if |plain| > o { assert plain[o] == plain[o..][0]; }
  }

  lemma EscapeStepIsGood(enc: Str, s: Phase, i: nat, o: nat, chunk: Str, room: nat)
    requires EscapePlace(enc, s, i, o) && room > 0 && i + |chunk| <= |enc| && enc[i..i + |chunk|] == chunk && o <= |AR.Unescape(enc)|
    ensures SR.GoodRun(EscapeStep(s, chunk, room), enc, AR.Unescape(enc), EscapeAt(enc), i, o, |chunk|, room)
  {
    hide *;
    PlaceIs(enc, s, i, o);
    ComesOut(enc, o);
    if chunk == [] || s.End? {
      StandsStill(enc, s, i, o, chunk, room);
    } else {
      assert chunk[0] == enc[i];
      NextPlace(enc, s, i, o);
      if s.Mark? { MarkRead(enc, i, o, chunk, room); } else { ByteRead(enc, i, o, chunk, room); }
    }
  }

  lemma StandsStill(enc: Str, s: Phase, i: nat, o: nat, chunk: Str, room: nat)
    requires EscapePlace(enc, s, i, o) && room > 0 && o <= |AR.Unescape(enc)| && (chunk == [] || s.End?)
    requires o == |AR.Unescape(enc)| || (chunk == [] && i < |enc|)
    ensures SR.GoodRun(EscapeStep(s, chunk, room), enc, AR.Unescape(enc), EscapeAt(enc), i, o, |chunk|, room)
  {
    hide AR.Unescape, EscapePlace;
  }

  lemma MarkRead(enc: Str, i: nat, o: nat, chunk: Str, room: nat)
    requires room > 0 && chunk != [] && o <= |AR.Unescape(enc)|
    requires EscapePlace(enc, if chunk[0] == 1 then Byte else End, i + 1, o)
    ensures SR.GoodRun(EscapeStep(Mark, chunk, room), enc, AR.Unescape(enc), EscapeAt(enc), i, o, |chunk|, room)
  {
    hide AR.Unescape, EscapePlace;
  }

  lemma ByteRead(enc: Str, i: nat, o: nat, chunk: Str, room: nat)
    requires room > 0 && chunk != [] && o < |AR.Unescape(enc)| && AR.Unescape(enc)[o] == chunk[0]
    requires EscapePlace(enc, Mark, i + 1, o + 1)
    ensures SR.GoodRun(EscapeStep(Byte, chunk, room), enc, AR.Unescape(enc), EscapeAt(enc), i, o, |chunk|, room)
  {
    hide AR.Unescape, EscapePlace;
  }

  lemma PlaceIs(enc: Str, s: Phase, i: nat, o: nat)
    requires EscapePlace(enc, s, i, o)
    ensures Marked(enc, o)
    ensures s.Mark? ==> i == 2 * o
    ensures s.Byte? ==> i == 2 * o + 1 <= |enc| && enc[2 * o] == 1
    ensures s.End? ==> o == |AR.Unescape(enc)|
  {
    hide AR.Unescape, Marked;
  }

  lemma NextPlace(enc: Str, s: Phase, i: nat, o: nat)
    requires EscapePlace(enc, s, i, o) && i < |enc|
    requires s.Mark? && enc[i] != 1 ==> |AR.Unescape(enc)| == o
    ensures s.Mark? ==> EscapePlace(enc, if enc[i] == 1 then Byte else End, i + 1, o)
    ensures s.Byte? ==> EscapePlace(enc, Mark, i + 1, o + 1)
  {
    hide AR.Unescape;
  }

  lemma UnescapeStep(y: Str)
    ensures if |y| < 2 || y[0] != 1 then AR.Unescape(y) == [] else |AR.Unescape(y)| > 0 && AR.Unescape(y)[0] == y[1]
  {
  }

  /** The assumptions of `LookUpRun` on coder, decoder and codec can be met together. */
  lemma EscapeDecodes()
    ensures AR.Inverse(AR.Escape, AR.Unescape) && DecodesAs(EscapeCodec(), AR.Unescape, EscapeAt)
  {
    AR.EscapeIsInverse();
    forall enc ensures SR.Decodes(EscapeCodec(), enc, AR.Unescape(enc), EscapeAt(enc)) {
      EscapeDecodesOne(enc);
    }
  }

  lemma EscapeDecodesOne(enc: Str)
    ensures SR.Decodes(EscapeCodec(), enc, AR.Unescape(enc), EscapeAt(enc))
  {
    hide EscapeStep, AR.Unescape, SR.GoodRun;
    forall s: Phase, i: nat, o: nat, chunk: Str, room: nat
      | EscapeAt(enc)(s, i, o) && room > 0 && i + |chunk| <= |enc| && enc[i..i + |chunk|] == chunk && o <= |AR.Unescape(enc)|
      ensures SR.GoodRun(EscapeCodec().run(s, chunk, room), enc, AR.Unescape(enc), EscapeAt(enc), i, o, |chunk|, room)
    {
      EscapeStepIsGood(enc, s, i, o, chunk, room);
    }
  }
}
