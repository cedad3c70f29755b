/** The cluster as the reader sees it: an offset table, and blob readers made lazily from a
    sequential stream (src/cluster.cpp). */
module ReaderCluster {
  import opened Bytes
  import opened ClusterFormat
  import opened StreamReader

  /** `IStreamReader`: one of its two implementations. */
  datatype IStreamReader<!S(!new)> = Raw(raw: RawStreamReader) | Decoding(decoder: DecoderStreamReader<S>) {

    ghost function Repr(): set<object> {
      match this
      case Raw(r) => {r}
      case Decoding(d) => {d}
    }

    ghost predicate Valid()
      reads Repr()
    {
      match this
      case Raw(r) => r.readerPos <= |r.reader|
      case Decoding(d) => d.Valid()
    }

    /** The whole decoded stream. */
    ghost function Plain(): Str {
      match this
      case Raw(r) => r.reader
      case Decoding(d) => d.plain
    }

    ghost function Pos(): nat
      reads Repr()
    {
      match this
      case Raw(r) => r.readerPos
      case Decoding(d) => d.produced
    }

    /** `sub_reader(size)`: the next bytes of the stream, as a reader of their own. */
    method SubReader(nbytes: nat) returns (buf: Str)
      requires Valid() && Pos() + nbytes <= |Plain()|
      modifies Repr()
      ensures Valid() && Pos() == old(Pos()) + nbytes
      ensures buf == Plain()[old(Pos())..old(Pos()) + nbytes]
    {
      match this {
        case Raw(r) => buf := r.ReadImpl(nbytes);
        case Decoding(d) => buf := d.ReadImpl(nbytes);
      }
    }
  }

  /** A table of offsets into a stream: it starts where the table ends and stays in the stream. */
  ghost predicate GoodOffsets(offsets: seq<nat>, plain: Str) {
    && |offsets| > 0
    && (forall i, j :: 0 <= i <= j < |offsets| ==> offsets[i] <= offsets[j])
    && offsets[|offsets| - 1] <= |plain|
  }

  /** Blob n of a stream, by its offsets alone. */
  function BlobAt(offsets: seq<nat>, plain: Str, n: nat): Str
    requires n + 1 < |offsets| && offsets[n] <= offsets[n + 1] <= |plain|
  {
    plain[offsets[n]..offsets[n + 1]]
  }

  /** The first n blobs have their readers, and the stream stands at the start of the next. */
  ghost predicate ReadUpTo(readers: seq<Str>, offsets: seq<nat>, plain: Str, pos: nat)
    requires GoodOffsets(offsets, plain)
  {
    && |readers| < |offsets|
    && pos == offsets[|readers|]
    && forall i :: 0 <= i < |readers| ==> readers[i] == BlobAt(offsets, plain, i)
  }

  lemma {:induction false} AscendingIsMonotone(o: seq<nat>, i: nat, j: nat)
    requires Ascending(o) && i <= j < |o|
    ensures o[i] <= o[j]
    decreases j
  {
    if i < j { AscendingIsMonotone(o, i, j - 1); }
  }

  class Cluster<S(!new)> {
    const reader: IStreamReader<S>
    const isExtended: bool
    var blobOffsets: seq<nat>
    var blobReaders: seq<Str>

    ghost predicate Valid()
      reads this, reader.Repr()
    {
      && this !in reader.Repr()
      && reader.Valid()
      && GoodOffsets(blobOffsets, reader.Plain())
      && ReadUpTo(blobReaders, blobOffsets, reader.Plain(), reader.Pos())
    }

    constructor (reader: IStreamReader<S>, isExtended: bool)
      requires reader.Valid() && reader.Pos() == 0
      ensures this.reader == reader && this.isExtended == isExtended && reader.Valid() && reader.Pos() == 0
      ensures blobReaders == [] && this !in reader.Repr()
    {
      this.reader, this.isExtended := reader, isExtended;
      blobOffsets, blobReaders := [], [];
    }

    /** `read_header`: fills the offsets from the front of the stream, and leaves the stream at the
        first blob. The stream holds the table that its first offset announces; a first offset below
        one width, or an offset below its predecessor, is refused. */
    method ReadHeader() returns (ok: bool)
      requires reader.Valid() && reader.Pos() == 0 && this !in reader.Repr() && blobReaders == []
      requires var w := Width(isExtended); w <= |reader.Plain()| && FromLE(reader.Plain()[..w]) <= |reader.Plain()|
      modifies this`blobOffsets, reader.Repr()
      ensures reader.Valid() && blobReaders == []
      ensures ok == HeaderOf(reader.Plain(), Width(isExtended)).Offsets?
      ensures ok ==> blobOffsets == HeaderOf(reader.Plain(), Width(isExtended)).offsets
      ensures ok && blobOffsets[|blobOffsets| - 1] <= |reader.Plain()| ==> Valid()
    {
      hide GoodOffsets, ReadUpTo, HeaderOf, DecodeOffsets, Header.Prepend, Ascending, FromLE;
      var w := Width(isExtended);
      ghost var plain := reader.Plain();
      var firstBytes := reader.SubReader(w);
      var first := FromLittleEndian(firstBytes);
      blobOffsets := [first];
      assert firstBytes == plain[..w];
      if first < w {
        HeaderTooShort(plain, w);
        return false;
      }
      var buffer := reader.SubReader(first - w);
      TableSize(first, w);
      var rest;
      ok, rest := ReadOffsets(buffer, w, first / w - 1, first);
      blobOffsets := blobOffsets + rest;
      HeaderFromTable(plain, w, ok, rest);
    }

    /** `getBlobSize`, which throws for an index beyond the last blob. */
    method GetBlobSize(n: nat) returns (size: Option)
      requires Valid()
      ensures size == if n + 1 < |blobOffsets| then Some(blobOffsets[n + 1] - blobOffsets[n]) else OutOfRange
    {
      if n + 1 >= |blobOffsets| { return OutOfRange; }
      size := Some(blobOffsets[n + 1] - blobOffsets[n]);
    }

    /** `getReader`: makes the readers up to blob n, in order, from where the stream stands. */
    method GetReader(n: nat) returns (r: Str)
      requires Valid() && n + 1 < |blobOffsets|
      modifies this`blobReaders, reader.Repr()
      ensures Valid()
      ensures r == BlobAt(blobOffsets, reader.Plain(), n)
    {
      while |blobReaders| <= n
        invariant Valid()
        decreases n + 1 - |blobReaders|
      {
        var current := |blobReaders|;
        ghost var before := blobReaders;
        assert blobOffsets[current] <= blobOffsets[current + 1] <= |reader.Plain()|;
        var blob := reader.SubReader(blobOffsets[current + 1] - blobOffsets[current]);
        blobReaders := blobReaders + [blob];
      }
      r := blobReaders[n];
    }

    /** Blob n, whatever was asked before: its bytes of the decoded stream, or nothing beyond the end. */
    method GetBlob(n: nat) returns (blob: Str)
      requires Valid()
      modifies this`blobReaders, reader.Repr()
      ensures Valid()
      ensures blob == if n + 1 < |blobOffsets| then BlobAt(blobOffsets, reader.Plain(), n) else []
    {
      if n + 1 < |blobOffsets| { blob := GetReader(n); } else { blob := []; }
    }

    /** Part of blob n: from `offset` on, the bytes of the decoded stream, as many as asked for or as
        are left; nothing when it starts beyond the blob's end. */
    method GetBlobPart(n: nat, offset: nat, size: nat) returns (blob: Str)
      requires Valid()
      modifies this`blobReaders, reader.Repr()
      ensures Valid()
      ensures n + 1 >= |blobOffsets| || offset > blobOffsets[n + 1] - blobOffsets[n] ==> blob == []
      ensures n + 1 < |blobOffsets| && offset <= blobOffsets[n + 1] - blobOffsets[n] ==>
                var left := blobOffsets[n + 1] - blobOffsets[n] - offset;
                && |blob| == (if size < left then size else left)
                && forall k :: 0 <= k < |blob| ==> blob[k] == reader.Plain()[blobOffsets[n] + offset + k]
    {
      if n + 1 >= |blobOffsets| { return []; }
      var blobSize := blobOffsets[n + 1] - blobOffsets[n];
      var r := GetReader(n);
      if offset > blobSize { return []; }
      var size' := if size < blobSize - offset then size else blobSize - offset;
      blob := r[offset..offset + size'];
    }
  }

  datatype Option = Some(value: nat) | OutOfRange

  lemma TableSize(first: nat, w: nat)
    requires w > 0 && first >= w
    ensures first / w >= 1 && (first / w - 1) * w <= first - w
  {
    var q := first / w;
    assert first == q * w + first % w;
    assert (q - 1) * w == q * w - w;
  }

  lemma AscendingTable(offsets: seq<nat>, plain: Str)
    requires Ascending(offsets) && |offsets| > 0
    ensures offsets[|offsets| - 1] <= |plain| ==> GoodOffsets(offsets, plain)
  {
    forall i, j | 0 <= i <= j < |offsets| ensures offsets[i] <= offsets[j] { AscendingIsMonotone(offsets, i, j); }
  }

  lemma HeaderTooShort(plain: Str, w: nat)
    requires 0 < w <= |plain| && FromLE(plain[..w]) < w
    ensures HeaderOf(plain, w) == Malformed
  {
  }

  /** What the decoded rest of the table says about the whole header. */
  lemma HeaderFromTable(plain: Str, w: nat, ok: bool, rest: seq<nat>)
    requires 0 < w <= |plain| && w <= FromLE(plain[..w]) <= |plain|
    requires var first := FromLE(plain[..w]);
             DecodeOffsets(plain[w..first], w, first / w - 1, first) == if ok then Offsets(rest) else Malformed
    ensures var offsets := [FromLE(plain[..w])] + rest;
            HeaderOf(plain, w) == (if ok then Offsets(offsets) else Malformed) &&
            (ok && offsets[|offsets| - 1] <= |plain| ==> GoodOffsets(offsets, plain) && ReadUpTo([], offsets, plain, offsets[0]))
  {
    HeaderFits(plain, w);
    if ok { AscendingTable([FromLE(plain[..w])] + rest, plain); }
  }

  lemma DecodeStep(buffer: Str, w: nat, k: nat, prev: nat, pos: nat)
    requires k > 0 && pos + w <= |buffer|
    ensures var o := FromLE(buffer[pos..pos + w]);
            DecodeOffsets(buffer[pos..], w, k, prev) ==
            if o < prev then Malformed else DecodeOffsets(buffer[pos + w..], w, k - 1, o).Prepend([o])
  {
    assert buffer[pos..][..w] == buffer[pos..pos + w] && buffer[pos..][w..] == buffer[pos + w..];
  }

  lemma PrependTwice(h: Header, a: seq<nat>, o: nat)
    ensures h.Prepend([o]).Prepend(a) == h.Prepend(a + [o])
  {
    if h.Offsets? { assert a + ([o] + h.offsets) == (a + [o]) + h.offsets; }
  }

  /** The loop of `read_header` over the buffered table. */
  method ReadOffsets(buffer: Str, w: nat, n: nat, first: nat) returns (ok: bool, offsets: seq<nat>)
    requires w > 0 && n * w <= |buffer|
    ensures DecodeOffsets(buffer, w, n, first) == if ok then Offsets(offsets) else Malformed
  {
    hide *;
    var pos: nat, k: nat, prev: nat := 0, n, first;
    offsets := [];
    PrependNothing(DecodeOffsets(buffer, w, n, first));
    assert buffer[0..] == buffer;
    while k > 0
      invariant pos <= |buffer| && pos + k * w <= |buffer|
      invariant DecodeOffsets(buffer, w, n, first) == DecodeOffsets(buffer[pos..], w, k, prev).Prepend(offsets)
    {
      MulStep(k, w);
      DecodeStep(buffer, w, k, prev, pos);
      var o := FromLittleEndian(buffer[pos..pos + w]);
      if o < prev {
        MalformedStays(offsets);
        return false, offsets;
      }
      PrependTwice(DecodeOffsets(buffer[pos + w..], w, k - 1, o), offsets, o);
      offsets := offsets + [o];
      pos, k, prev := pos + w, k - 1, o;
    }
    NothingLeft(buffer[pos..], w, prev, offsets);
    ok := true;
  }

  lemma MulStep(k: nat, w: nat)
    requires k > 0
    ensures k * w == w + (k - 1) * w && (k - 1) * w >= 0
  {
  }

  lemma MalformedStays(offsets: seq<nat>)
    ensures Malformed.Prepend(offsets) == Malformed
  {
  }

  lemma NothingLeft(s: Str, w: nat, prev: nat, offsets: seq<nat>)
    ensures DecodeOffsets(s, w, 0, prev).Prepend(offsets) == Offsets(offsets)
  {
    assert offsets + [] == offsets;
  }

  lemma PrependNothing(h: Header)
    ensures h.Prepend([]) == h
  {
    if h.Offsets? { assert [] + h.offsets == h.offsets; }
  }

  /** Reading back a written cluster, at any position of the stream after it: the count, and every
      blob through its offsets. */
  lemma ClusterRoundTrip(blobs: seq<Str>, w: nat, tail: Str, n: nat)
    requires w > 0 && OffsetsFit(blobs, w)
    ensures var plain := ClusterBytes(blobs, w) + tail;
            var h := HeaderOf(plain, w);
            h.Offsets? && |h.offsets| == |blobs| + 1 && GoodOffsets(h.offsets, plain) &&
            (n < |blobs| ==> BlobAt(h.offsets, plain, n) == blobs[n])
  {
    var plain := ClusterBytes(blobs, w) + tail;
    HeaderRoundTrip(blobs, w, tail);
    HeaderFits(plain, w);
    EncodeOffsetsSize(TrueOffsets(blobs, w), w);
    BlobStartBound(blobs, |blobs|);
    AscendingTable(TrueOffsets(blobs, w), plain);
    if n < |blobs| { BlobRoundTrip(blobs, w, tail, n); }
  }
}
