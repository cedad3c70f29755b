/** The cluster being filled by the writer (src/writer/cluster.cpp, src/writer/cluster.h). */
module WriterCluster {
  import opened Bytes
  import opened ClusterFormat

  /** A content provider: the non-empty pieces it feeds, one after the other. */
  datatype Provider = Provider(pieces: seq<Str>) {
    ghost predicate Valid() { forall i :: 0 <= i < |pieces| ==> pieces[i] != [] }
    function Content(): Str { Concat(pieces) }
    function GetSize(): nat { |Content()| }
  }

  function Contents(providers: seq<Provider>): (c: seq<Str>)
    ensures |c| == |providers|
  {
    seq(|providers|, i requires 0 <= i < |providers| => providers[i].Content())
  }

  /** The blobs that have bytes: the others' providers are dropped. */
  function NonEmptyOnes(blobs: seq<Str>): seq<Str> {
    if blobs == [] then []
    else
      var n := |blobs| - 1;
      if blobs[n] == [] then NonEmptyOnes(blobs[..n]) else NonEmptyOnes(blobs[..n]) + [blobs[n]]
  }

  lemma {:induction false} DroppingEmptyOnesKeepsTheData(blobs: seq<Str>)
    ensures Concat(NonEmptyOnes(blobs)) == Concat(blobs)
  {
    if blobs != [] {
      var n := |blobs| - 1;
      DroppingEmptyOnesKeepsTheData(blobs[..n]);
      assert blobs == blobs[..n] + [blobs[n]];
      ConcatSnoc(blobs[..n], blobs[n]);
      ConcatSnoc(NonEmptyOnes(blobs[..n]), blobs[n]);
    }
  }

  /** Some blob alone is larger than 32 bits can say. */
  predicate NeedsExtension(blobs: seq<Str>) {
    exists i :: 0 <= i < |blobs| && |blobs[i]| > UINT32_MAX
  }

  lemma NeedsExtensionSnoc(blobs: seq<Str>, b: Str)
    ensures NeedsExtension(blobs + [b]) <==> NeedsExtension(blobs) || |b| > UINT32_MAX
  {
    if NeedsExtension(blobs) {
      var i :| 0 <= i < |blobs| && |blobs[i]| > UINT32_MAX;
      assert (blobs + [b])[i] == blobs[i];
    }
    if |b| > UINT32_MAX { assert (blobs + [b])[|blobs|] == b; }
  }

  class Cluster {
    const compression: Compression
    var isExtended: bool
    var blobOffsets: seq<nat>
    var size: nat
    var providers: seq<Provider>
    var closed: bool
    var count: nat
    var compressedData: Str
    ghost var blobs: seq<Str>

    /** What the fields say about the blobs added so far. The offsets and providers are dropped when
        a compressed cluster is closed. */
    ghost predicate Valid()
      reads this
    {
      && count == |blobs|
      && size == |Concat(blobs)|
      && isExtended == NeedsExtension(blobs)
      && (!closed || !IsCompressed(compression) ==>
            && |blobOffsets| == |blobs| + 1
            && (forall i :: 0 <= i <= |blobs| ==> blobOffsets[i] == BlobStart(blobs, i))
            && (forall i :: 0 <= i < |providers| ==> providers[i].Valid())
            && Contents(providers) == NonEmptyOnes(blobs))
    }

    constructor (compression: Compression)
      ensures Valid() && blobs == [] && !closed && this.compression == compression
    {
      this.compression := compression;
      isExtended, blobOffsets, size, providers, closed, count := false, [0], 0, [], false, 0;
      compressedData, blobs := [], [];
    }

    method AddContent(provider: Provider)
      requires Valid() && !closed && provider.Valid()
      modifies this
      ensures Valid() && !closed
      ensures blobs == old(blobs) + [provider.Content()]
      ensures count == old(count) + 1 && size == old(size) + provider.GetSize()
    {
      var n := provider.GetSize();
      ghost var b := provider.Content();
      OffsetsSnoc(blobs, b);
      NeedsExtensionSnoc(blobs, b);
      assert (blobs + [b])[..|blobs|] == blobs;
      size := size + n;
      blobOffsets := blobOffsets + [size];
      count := count + 1;
      isExtended := isExtended || n > UINT32_MAX;
      blobs := blobs + [b];
      if n == 0 { return; }
      ghost var before := providers;
      providers := providers + [provider];
      assert Contents(providers) == Contents(before) + [b];
    }

    /** `size()`: the offset table, at the width in use, and the data. A closed cluster has no size. */
    method Size() returns (s: nat)
      requires Valid() && !closed
      ensures s == Delta(|blobs|, Width(isExtended)) + |Concat(blobs)|
    {
      s := |blobOffsets| * Width(isExtended) + size;
    }

    /** `write_offsets`: each offset moved by the size of the table and cast to the width. */
    method WriteOffsets(w: nat) returns (out: Str)
      requires Valid() && (!closed || !IsCompressed(compression))
      ensures out == EncodeOffsets(TrueOffsets(blobs, w), w)
    {
      var delta := |blobOffsets| * w;
      ghost var offsets := TrueOffsets(blobs, w);
      out := [];
      for i := 0 to |blobOffsets|
        invariant out == EncodeOffsets(offsets[..i], w)
      {
        assert offsets[..i + 1] == offsets[..i] + [offsets[i]];
        EncodeSnoc(offsets[..i], offsets[i], w);
        out := out + ToLE(blobOffsets[i] + delta, w);
      }
      assert offsets[..|offsets|] == offsets;
    }

    /** `write_data`: drains each provider in turn. */
    method WriteData() returns (out: Str)
      requires Valid() && (!closed || !IsCompressed(compression))
      ensures out == Concat(blobs)
    {
      out := [];
      ghost var contents := Contents(providers);
      DroppingEmptyOnesKeepsTheData(blobs);
      hide NeedsExtension, NonEmptyOnes, Provider.Valid, BlobStart, Concat;
      assert Concat(contents[..0]) == [] by { EmptyConcat(contents); }
      for i := 0 to |providers|
        invariant out == Concat(contents[..i])
      {
        assert contents[..i + 1] == contents[..i] + [contents[i]];
        ConcatSnoc(contents[..i], contents[i]);
        var data := Drain(providers[i]);
        out := out + data;
      }
      assert contents[..|providers|] == contents;
    }

    /** The inner loop of `write_data`: feeds until an empty piece comes. */
    static method Drain(provider: Provider) returns (out: Str)
      ensures out == provider.Content()
    {
      out := [];
      var pieces := provider.pieces;
      var fed := 0;
      while fed < |pieces|
        invariant 0 <= fed <= |pieces| && out == Concat(pieces[..fed])
      {
        assert pieces[..fed + 1] == pieces[..fed] + [pieces[fed]];
        ConcatSnoc(pieces[..fed], pieces[fed]);
        out := out + pieces[fed];
        fed := fed + 1;
      }
      assert pieces[..fed] == pieces;
    }

    method WriteContent() returns (out: Str)
      requires Valid() && (!closed || !IsCompressed(compression))
      ensures out == ClusterBytes(blobs, Width(isExtended))
    {
      var table := WriteOffsets(Width(isExtended));
      var data := WriteData();
      out := table + data;
    }

    /** `close` and `compress`: a cluster for lzma or zstd is encoded and its raw data dropped, one for
        none or the default is closed as it is. The other two compressions are not enabled: closing
        throws, and the cluster stays as it was. */
    method Close(encode: Str -> Str) returns (ok: bool)
      requires Valid() && !closed
      modifies this
      ensures Valid() && closed == ok
      ensures blobs == old(blobs) && isExtended == old(isExtended)
      ensures ok <==> compression.Default? || compression.None? || compression.Lzma? || compression.Zstd?
      ensures compression.Lzma? || compression.Zstd? ==>
                compressedData == encode(ClusterBytes(blobs, Width(isExtended))) && blobOffsets == [] && providers == []
      ensures !(compression.Lzma? || compression.Zstd?) ==>
                compressedData == old(compressedData) && blobOffsets == old(blobOffsets) && providers == old(providers)
    {
      if IsCompressed(compression) {
        if compression.Zip? || compression.Bzip2? { return false; }
        var content := WriteContent();
        compressedData := encode(content);
        blobOffsets, providers := [], [];
      }
      closed := true;
      ok := true;
    }

    /** `write`: the info byte, then the content itself for none and the default, and the compressed
        data for the other four. */
    method Write(ghost encode: Str -> Str) returns (out: Str)
      requires Valid() && closed
      requires compression.Zip? || compression.Bzip2? || compression.Lzma? || compression.Zstd? ==>
                 compressedData == encode(ClusterBytes(blobs, Width(isExtended)))
      ensures compression.Default? || compression.None? ==>
                out == [InfoByte(compression, isExtended)] + ClusterBytes(blobs, Width(isExtended))
      ensures compression.Zip? || compression.Bzip2? || compression.Lzma? || compression.Zstd? ==>
                out == [InfoByte(compression, isExtended)] + encode(ClusterBytes(blobs, Width(isExtended)))
      ensures out == ClusterImage(compression, isExtended, blobs, encode)
    {
      var clusterInfo := [InfoByte(compression, isExtended)];
      match compression {
        case Default | None =>
          var content := WriteContent();
          out := clusterInfo + content;
        case Zip | Bzip2 | Lzma | Zstd =>
          out := clusterInfo + compressedData;
      }
    }

    /** Where the data starts in the cluster's file image; asked only of a closed cluster. */
    method GetDataOffset() returns (o: nat)
      requires Valid() && closed
      ensures o == 1 + Delta(|blobs|, Width(isExtended))
    {
      o := 1 + (count + 1) * Width(isExtended);
    }

    method GetBlobOffset(n: nat) returns (o: nat)
      requires Valid() && !closed && n <= |blobs|
      ensures o == BlobStart(blobs, n)
    {
      o := blobOffsets[n];
    }
  }

  lemma EmptyConcat(parts: seq<Str>)
    ensures Concat(parts[..0]) == []
  {
  }

  lemma OffsetsSnoc(blobs: seq<Str>, b: Str)
    ensures forall i :: 0 <= i <= |blobs| ==> BlobStart(blobs + [b], i) == BlobStart(blobs, i)
    ensures BlobStart(blobs + [b], |blobs| + 1) == |Concat(blobs)| + |b| == |Concat(blobs + [b])|
  {
    forall i | 0 <= i <= |blobs| ensures BlobStart(blobs + [b], i) == BlobStart(blobs, i) {
      assert (blobs + [b])[..i] == blobs[..i];
    }
    assert (blobs + [b])[..|blobs| + 1] == blobs + [b];
    ConcatSnoc(blobs, b);
  }

  lemma {:induction false} EncodeSnoc(offsets: seq<nat>, o: nat, w: nat)
    ensures EncodeOffsets(offsets + [o], w) == EncodeOffsets(offsets, w) + ToLE(o, w)
  {
    if offsets == [] {
      assert [] + [o] == [o] && [o][1..] == [];
      assert EncodeOffsets([o], w) == ToLE(o, w) + EncodeOffsets([], w);
    } else {
      EncodeSnoc(offsets[1..], o, w);
      assert (offsets + [o])[1..] == offsets[1..] + [o] && (offsets + [o])[0] == offsets[0];
      var a, b, c := ToLE(offsets[0], w), EncodeOffsets(offsets[1..], w), ToLE(o, w);
      assert a + (b + c) == (a + b) + c;
    }
  }

  /** The writer's data offset plus its blob offset is the reader's offset of that blob, both counted
      from the cluster's info byte. */
  lemma OffsetsAgree(blobs: seq<Str>, w: nat, tail: Str, n: nat)
    requires w > 0 && OffsetsFit(blobs, w) && n <= |blobs|
    ensures var h := HeaderOf(ClusterBytes(blobs, w) + tail, w);
            h.Offsets? && n < |h.offsets| && 1 + h.offsets[n] == (1 + Delta(|blobs|, w)) + BlobStart(blobs, n)
  {
    HeaderRoundTrip(blobs, w, tail);
  }
}
