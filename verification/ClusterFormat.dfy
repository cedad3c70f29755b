/** The bytes of a cluster: an offset table of n + 1 little-endian integers, 4 or 8 bytes wide, then
    the blobs (src/writer/cluster.cpp, src/cluster.cpp). */
module ClusterFormat {
  import opened Bytes

  const UINT32_MAX: nat := 0xffff_ffff

  /** Where the first cluster is written. */
  const CLUSTER_BASE_OFFSET: nat := 1024

  function Width(isExtended: bool): nat {
    if isExtended then 8 else 4
  }

  /** The table's own size, which every stored offset includes. */
  function Delta(count: nat, w: nat): nat {
    (count + 1) * w
  }

  /** Where blob i starts in the cluster's data. */
  function BlobStart(blobs: seq<Str>, i: nat): nat
    requires i <= |blobs|
  {
    |Concat(blobs[..i])|
  }

  function TrueOffsets(blobs: seq<Str>, w: nat): (o: seq<nat>)
    ensures |o| == |blobs| + 1
  {
    seq(|blobs| + 1, i requires 0 <= i <= |blobs| => Delta(|blobs|, w) + BlobStart(blobs, i))
  }

  function EncodeOffsets(offsets: seq<nat>, w: nat): Str {
    if offsets == [] then [] else ToLE(offsets[0], w) + EncodeOffsets(offsets[1..], w)
  }

  function ClusterBytes(blobs: seq<Str>, w: nat): Str {
    EncodeOffsets(TrueOffsets(blobs, w), w) + Concat(blobs)
  }

  // ---------------------------------------------------------------- reading the table

  datatype Header = Offsets(offsets: seq<nat>) | Malformed {
    function Prepend(before: seq<nat>): Header {
      match this
      case Offsets(o) => Offsets(before + o)
      case Malformed => Malformed
    }
  }

  /** k more offsets from the front of `s`, each not below the one before. */
  function DecodeOffsets(s: Str, w: nat, k: nat, prev: nat): Header
    decreases k
  {
    if k == 0 then Offsets([])
    else if |s| < w then Malformed
    else
      var o := FromLE(s[..w]);
      if o < prev then Malformed else DecodeOffsets(s[w..], w, k - 1, o).Prepend([o])
  }

  /** What `read_header` finds at the front of a stream: the first offset tells how many there are.
      A first offset below one width, or beyond the stream, cannot be read on from. */
  function HeaderOf(stream: Str, w: nat): Header
    requires w > 0
  {
    if |stream| < w then Malformed
    else
      var first := FromLE(stream[..w]);
      if first < w || first > |stream| then Malformed
      else DecodeOffsets(stream[w..first], w, first / w - 1, first).Prepend([first])
  }

  lemma {:induction false} EncodeOffsetsSize(offsets: seq<nat>, w: nat)
    ensures |EncodeOffsets(offsets, w)| == |offsets| * w
  {
    if offsets != [] {
      EncodeOffsetsSize(offsets[1..], w);
      assert |offsets| * w == w + (|offsets| - 1) * w;
    }
  }

  /** The i-th number of a table of `w`-byte integers. */
  lemma {:induction false} EncodedAt(offsets: seq<nat>, w: nat, i: nat)
    requires i < |offsets| && offsets[i] < Pow256(w)
    ensures w * i + w <= |EncodeOffsets(offsets, w)|
    ensures FromLE(EncodeOffsets(offsets, w)[w * i..w * i + w]) == offsets[i]
  {
    hide *;
    var first, rest := ToLE(offsets[0], w), EncodeOffsets(offsets[1..], w);
    EncodeFront(offsets, w);
    TimesPred(w, i);
    if i == 0 {
      RoundTripLE(offsets[0], w);
      assert (first + rest)[0..w] == first;
    } else {
      EncodedAt(offsets[1..], w, i - 1);
      SliceRight(first, rest, w * i, w * i + w);
    }
  }

  lemma EncodeFront(offsets: seq<nat>, w: nat)
    requires offsets != []
    ensures EncodeOffsets(offsets, w) == ToLE(offsets[0], w) + EncodeOffsets(offsets[1..], w)
  {
    hide ToLE;
  }

  lemma TimesPred(w: nat, i: nat)
    ensures w * i == if i == 0 then 0 else w + w * (i - 1)
    ensures w * i >= 0 && (i > 0 ==> w * (i - 1) >= 0)
  {
  }

  ghost predicate Ascending(offsets: seq<nat>) {
    forall i :: 0 <= i < |offsets| - 1 ==> offsets[i] <= offsets[i + 1]
  }

  lemma {:induction false} DecodeEncoded(offsets: seq<nat>, w: nat, prev: nat)
    requires Ascending([prev] + offsets) && forall i :: 0 <= i < |offsets| ==> offsets[i] < Pow256(w)
    ensures DecodeOffsets(EncodeOffsets(offsets, w), w, |offsets|, prev) == Offsets(offsets)
    decreases |offsets|
  {
    if offsets != [] {
      var s := EncodeOffsets(offsets, w);
      assert s[..w] == ToLE(offsets[0], w) && s[w..] == EncodeOffsets(offsets[1..], w);
      RoundTripLE(offsets[0], w);
      assert ([prev] + offsets)[0] == prev && ([prev] + offsets)[1] == offsets[0];
      forall i | 0 <= i < |offsets| - 1 ensures offsets[i] <= offsets[i + 1] {
        assert ([prev] + offsets)[i + 1] <= ([prev] + offsets)[i + 2];
      }
      assert [offsets[0]] + offsets[1..] == offsets;
      DecodeEncoded(offsets[1..], w, offsets[0]);
    }
  }

  lemma {:induction false} DecodedFit(s: Str, w: nat, k: nat, prev: nat)
    ensures match DecodeOffsets(s, w, k, prev)
            case Offsets(o) => |o| == k && Ascending([prev] + o) && forall i :: 0 <= i < |o| ==> o[i] < Pow256(w)
            case Malformed => true
    decreases k
  {
    if k > 0 && |s| >= w {
      FromLEBound(s[..w]);
      var o := FromLE(s[..w]);
      DecodedFit(s[w..], w, k - 1, o);
      match DecodeOffsets(s[w..], w, k - 1, o) {
        case Offsets(rest) =>
          if o >= prev {
            forall i | 0 <= i < |rest| + 1 ensures ([prev] + ([o] + rest))[i] <= ([prev] + ([o] + rest))[i + 1] {
              if i > 0 { assert ([o] + rest)[i - 1] <= ([o] + rest)[i]; }
            }
          }
        case Malformed =>
      }
    }
  }

  lemma BlobStartsAscend(blobs: seq<Str>, i: nat)
    requires i < |blobs|
    ensures BlobStart(blobs, i + 1) == BlobStart(blobs, i) + |blobs[i]| <= |Concat(blobs)|
    ensures Concat(blobs)[BlobStart(blobs, i)..BlobStart(blobs, i + 1)] == blobs[i]
  {
    ConcatPart(blobs, i);
  }

  lemma {:induction false} BlobStartBound(blobs: seq<Str>, i: nat)
    requires i <= |blobs|
    ensures BlobStart(blobs, i) <= |Concat(blobs)| == BlobStart(blobs, |blobs|)
  {
    assert blobs[..|blobs|] == blobs;
    if i < |blobs| { ConcatPart(blobs, i); }
  }

  /** The cluster is readable back exactly when its last offset fits the width of its table. */
  predicate OffsetsFit(blobs: seq<Str>, w: nat) {
    Delta(|blobs|, w) + |Concat(blobs)| < Pow256(w)
  }

  lemma DeltaDivides(count: nat, w: nat)
    requires w > 0
    ensures Delta(count, w) / w == count + 1 && Delta(count, w) >= w
  {
    ModUnique(Delta(count, w), w, count + 1, 0);
    assert (count + 1) * w == count * w + w;
  }

  /** Reading the header of a written cluster, whatever follows it in the stream. */
  lemma HeaderRoundTrip(blobs: seq<Str>, w: nat, tail: Str)
    requires w > 0 && OffsetsFit(blobs, w)
    ensures HeaderOf(ClusterBytes(blobs, w) + tail, w) == Offsets(TrueOffsets(blobs, w))
  {
    var offsets, table := TrueOffsets(blobs, w), EncodeOffsets(TrueOffsets(blobs, w), w);
    var stream := ClusterBytes(blobs, w) + tail;
    EncodeOffsetsSize(offsets, w);
    DeltaDivides(|blobs|, w);
    assert stream == table + (Concat(blobs) + tail);
    forall i | 0 <= i < |offsets| ensures offsets[i] < Pow256(w) { BlobStartBound(blobs, i); }
    forall i | 0 <= i < |offsets| - 1 ensures offsets[i] <= offsets[i + 1] { BlobStartsAscend(blobs, i); }
    assert blobs[..0] == [];
    var first := offsets[0];
    assert first == |table|;
    assert [first] + offsets[1..] == offsets;
    RoundTripLE(first, w);
    assert stream[..w] == ToLE(first, w);
    assert stream[w..first] == EncodeOffsets(offsets[1..], w);
    DecodeEncoded(offsets[1..], w, first);
  }

  lemma HeaderFits(stream: Str, w: nat)
    requires w > 0
    ensures match HeaderOf(stream, w)
            case Offsets(o) => |o| > 0 && o[0] <= |stream| && Ascending(o) && forall i :: 0 <= i < |o| ==> o[i] < Pow256(w)
            case Malformed => true
  {
    if |stream| >= w {
      FromLEBound(stream[..w]);
      var first := FromLE(stream[..w]);
      if w <= first <= |stream| { DecodedFit(stream[w..first], w, first / w - 1, first); }
    }
  }

  /** Whether a written cluster reads back: its header is the true offset table if and only if the
      last offset fits. `isExtended` is decided by single blobs only, so a cluster of small blobs, or
      one blob just below 4 GiB, may not fit. */
  lemma HeaderRoundTripIff(blobs: seq<Str>, w: nat, tail: Str)
    requires w > 0
    ensures HeaderOf(ClusterBytes(blobs, w) + tail, w) == Offsets(TrueOffsets(blobs, w)) <==> OffsetsFit(blobs, w)
  {
    if OffsetsFit(blobs, w) {
      HeaderRoundTrip(blobs, w, tail);
    } else {
      HeaderFits(ClusterBytes(blobs, w) + tail, w);
      BlobStartBound(blobs, |blobs|);
      assert TrueOffsets(blobs, w)[|blobs|] == Delta(|blobs|, w) + |Concat(blobs)|;
    }
  }

  /** One blob of 4 GiB - 1 bytes is not extended, and its cluster does not read back. */
  lemma OneBlobTooLarge(blob: Str, tail: Str)
    requires |blob| == UINT32_MAX
    ensures !(|blob| > UINT32_MAX) && HeaderOf(ClusterBytes([blob], 4) + tail, 4) != Offsets(TrueOffsets([blob], 4))
  {
    Pow256Values();
    assert [blob][1..] == [];
    assert Concat([blob]) == blob + Concat([]);
    HeaderRoundTripIff([blob], 4, tail);
  }

  /** Blob n of a written cluster is exactly what its offsets delimit. */
  lemma BlobRoundTrip(blobs: seq<Str>, w: nat, tail: Str, n: nat)
    requires w > 0 && OffsetsFit(blobs, w) && n < |blobs|
    ensures var o, stream := TrueOffsets(blobs, w), ClusterBytes(blobs, w) + tail;
            o[n] <= o[n + 1] <= |stream| && stream[o[n]..o[n + 1]] == blobs[n] && o[n + 1] - o[n] == |blobs[n]|
  {
    var o, table := TrueOffsets(blobs, w), EncodeOffsets(TrueOffsets(blobs, w), w);
    EncodeOffsetsSize(o, w);
    BlobStartsAscend(blobs, n);
    BlobStartBound(blobs, n + 1);
    assert ClusterBytes(blobs, w) + tail == table + (Concat(blobs) + tail);
    SliceRight(table, Concat(blobs) + tail, o[n], o[n + 1]);
    SliceLeft(Concat(blobs), tail, BlobStart(blobs, n), BlobStart(blobs, n + 1));
  }

  // ---------------------------------------------------------------- the info byte

  datatype Compression = Default | None | Zip | Bzip2 | Lzma | Zstd

  function Code(c: Compression): nat {
    match c
    case Default => 0
    case None => 1
    case Zip => 2
    case Bzip2 => 3
    case Lzma => 4
    case Zstd => 5
  }

  predicate IsCompressed(c: Compression) {
    c != Default && c != None
  }

  function InfoByte(c: Compression, isExtended: bool): byte {
    (if isExtended then 16 else 0) + Code(c)
  }

  /** The file image of a cluster. */
  function ClusterImage(c: Compression, isExtended: bool, blobs: seq<Str>, encode: Str -> Str): Str {
    var content := ClusterBytes(blobs, Width(isExtended));
    [InfoByte(c, isExtended)] + (if IsCompressed(c) then encode(content) else content)
  }

  /** The image by the names of the compressions: the content itself for the first two, its encoding
      for the other four, behind the compression's number and, for offsets of eight bytes, 16. */
  lemma ImageByName(isExtended: bool, blobs: seq<Str>, encode: Str -> Str)
    ensures var flag, content := if isExtended then 16 else 0, ClusterBytes(blobs, if isExtended then 8 else 4);
            && ClusterImage(Default, isExtended, blobs, encode) == [flag] + content
            && ClusterImage(None, isExtended, blobs, encode) == [flag + 1] + content
            && ClusterImage(Zip, isExtended, blobs, encode) == [flag + 2] + encode(content)
            && ClusterImage(Bzip2, isExtended, blobs, encode) == [flag + 3] + encode(content)
            && ClusterImage(Lzma, isExtended, blobs, encode) == [flag + 4] + encode(content)
            && ClusterImage(Zstd, isExtended, blobs, encode) == [flag + 5] + encode(content)
  {
    hide ClusterBytes;
  }

  datatype Info = Info(compression: Compression, isExtended: bool) | Refused

  /** The reader's view of the info byte: `& 0x0f` and `& 0x10`. Zip and bzip2 are refused. */
  function ReadInfo(b: byte): Info {
    var ext := (b / 16) % 2 == 1;
    match b % 16
    case 0 => Info(Default, ext)
    case 1 => Info(None, ext)
    case 4 => Info(Lzma, ext)
    case 5 => Info(Zstd, ext)
    case _ => Refused
  }

  lemma InfoRoundTrip(c: Compression, isExtended: bool)
    ensures ReadInfo(InfoByte(c, isExtended)) == if c == Zip || c == Bzip2 then Refused else Info(c, isExtended)
  {
    match c {
      case _ =>
    }
  }
}
