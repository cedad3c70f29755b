/** The 80 bytes at the front of an archive (src/fileheader.cpp, src/fileheader.h). */
module Header {
  import opened Bytes

  const MAGIC: nat := 0x044d495a
  const CLASSIC_MAJOR: nat := 5
  const EXTENDED_MAJOR: nat := 6
  const SIZE: nat := 80

  datatype Fileheader = Fileheader(
    majorVersion: nat,
    minorVersion: nat,
    uuid: Str,
    articleCount: nat,
    clusterCount: nat,
    urlPtrPos: nat,
    titleIdxPos: nat,
    clusterPtrPos: nat,
    mimeListPos: nat,
    mainPage: nat,
    layoutPage: nat,
    checksumPos: nat)
  {
    /** Each field is in the range of its C++ type. */
    predicate Valid() {
      && majorVersion < 0x1_0000 && minorVersion < 0x1_0000 && |uuid| == 16
      && articleCount < TWO32 && clusterCount < TWO32 && mainPage < TWO32 && layoutPage < TWO32
      && urlPtrPos < TWO64 && titleIdxPos < TWO64 && clusterPtrPos < TWO64 && mimeListPos < TWO64 && checksumPos < TWO64
    }

    /** `sanity_check`. */
    predicate Sane() {
      && (articleCount == 0 <==> clusterCount == 0)
      && (mimeListPos == SIZE || mimeListPos == 72)
      && urlPtrPos >= mimeListPos && titleIdxPos >= mimeListPos && clusterPtrPos >= mimeListPos
      && clusterCount <= articleCount
      && (checksumPos == 0 || checksumPos >= mimeListPos)
    }

    predicate HasChecksum() { mimeListPos >= SIZE }
  }

  function HeaderBytes(h: Fileheader): Str {
    Front(h) + Counts(h) + Positions(h) + Pages(h)
  }

  function Front(h: Fileheader): Str {
    ToLE(MAGIC, 4) + ToLE(h.majorVersion, 2) + ToLE(h.minorVersion, 2) + h.uuid
  }

  function Counts(h: Fileheader): Str {
    ToLE(h.articleCount, 4) + ToLE(h.clusterCount, 4) + ToLE(h.urlPtrPos, 8) + ToLE(h.titleIdxPos, 8)
  }

  function Positions(h: Fileheader): Str {
    ToLE(h.clusterPtrPos, 8) + ToLE(h.mimeListPos, 8)
  }

  function Pages(h: Fileheader): Str {
    ToLE(h.mainPage, 4) + ToLE(h.layoutPage, 4) + ToLE(h.checksumPos, 8)
  }

  /** `write`: each field goes to its own place in the buffer. */
  method Write(h: Fileheader) returns (out: Str)
    requires |h.uuid| == 16
    ensures out == HeaderBytes(h)
  {
    var header := new byte[SIZE](_ => 0);
    assert header.Length == 80;
    hide *;
    ghost var s: Str := [];
    s := Put(header, 0, ToLE(MAGIC, 4), s);
    s := Put(header, 4, ToLE(h.majorVersion, 2), s);
    s := Put(header, 6, ToLE(h.minorVersion, 2), s);
    s := Put(header, 8, h.uuid, s);
    s := Put(header, 24, ToLE(h.articleCount, 4), s);
    s := Put(header, 28, ToLE(h.clusterCount, 4), s);
    s := Put(header, 32, ToLE(h.urlPtrPos, 8), s);
    s := Put(header, 40, ToLE(h.titleIdxPos, 8), s);
    s := Put(header, 48, ToLE(h.clusterPtrPos, 8), s);
    s := Put(header, 56, ToLE(h.mimeListPos, 8), s);
    s := Put(header, 64, ToLE(h.mainPage, 4), s);
    s := Put(header, 68, ToLE(h.layoutPage, 4), s);
    s := Put(header, 72, ToLE(h.checksumPos, 8), s);
    FieldsInOrder(h);
    out := header[..];
    assert out == header[..80];
  }

  /** Copies bytes into the buffer behind what was put there before. */
  method Put(header: array<byte>, offset: nat, bytes: Str, ghost before: Str) returns (ghost after: Str)
    requires offset + |bytes| <= header.Length && |before| == offset && header[..offset] == before
    modifies header
    ensures after == before + bytes && |after| == offset + |bytes| && header[..|after|] == after
  {
    for i := 0 to |bytes|
      invariant header[..offset + i] == before + bytes[..i]
    {
      header[offset + i] := bytes[i];
      assert header[..offset + i + 1] == header[..offset + i] + [bytes[i]];
    }
    after := before + bytes;
    assert bytes[..|bytes|] == bytes;
  }

  lemma Regroup(f: Str, a: Str, b: Str, c: Str, d: Str)
    ensures f + a + b + c + d == f + (a + b + c + d)
    ensures f + a + b + c == f + (a + b + c)
    ensures f + a + b == f + (a + b)
  {
  }

  lemma FieldsInOrder(h: Fileheader)
    ensures HeaderBytes(h) ==
            [] + ToLE(MAGIC, 4) + ToLE(h.majorVersion, 2) + ToLE(h.minorVersion, 2) + h.uuid
            + ToLE(h.articleCount, 4) + ToLE(h.clusterCount, 4) + ToLE(h.urlPtrPos, 8) + ToLE(h.titleIdxPos, 8)
            + ToLE(h.clusterPtrPos, 8) + ToLE(h.mimeListPos, 8)
            + ToLE(h.mainPage, 4) + ToLE(h.layoutPage, 4) + ToLE(h.checksumPos, 8)
  {
    var f, c, p, g := Front(h), Counts(h), Positions(h), Pages(h);
    assert HeaderBytes(h) == f + c + p + g;
    hide ToLE;
    assert [] + ToLE(MAGIC, 4) == ToLE(MAGIC, 4);
    Regroup(f, ToLE(h.articleCount, 4), ToLE(h.clusterCount, 4), ToLE(h.urlPtrPos, 8), ToLE(h.titleIdxPos, 8));
    Regroup(f + c, ToLE(h.clusterPtrPos, 8), ToLE(h.mimeListPos, 8), [], []);
    Regroup(f + c + p, ToLE(h.mainPage, 4), ToLE(h.layoutPage, 4), ToLE(h.checksumPos, 8), []);
  }

  datatype Outcome = Ok(header: Fileheader) | InvalidMagic | InvalidVersion | Insane | TooSmall

  function At(s: Str, offset: nat, w: nat): nat
    requires offset + w <= |s|
  {
    FromLE(s[offset..offset + w])
  }

  /** The fields as `read` streams them. */
  function Parse(s: Str): Fileheader
    requires |s| >= SIZE
  {
    Fileheader(At(s, 4, 2), At(s, 6, 2), s[8..24], At(s, 24, 4), At(s, 28, 4), At(s, 32, 8), At(s, 40, 8),
               At(s, 48, 8), At(s, 56, 8), At(s, 64, 4), At(s, 68, 4), At(s, 72, 8))
  }

  /** `read`, and the size check of the archive before it. */
  function ReadHeader(file: Str): Outcome {
    if |file| < SIZE then TooSmall
    else if At(file, 0, 4) != MAGIC then InvalidMagic
    else
      var h := Parse(file);
      if h.majorVersion != CLASSIC_MAJOR && h.majorVersion != EXTENDED_MAJOR then InvalidVersion
      else if !h.Sane() then Insane
      else Ok(h)
  }

  /** The header is read from the first 80 bytes, whatever follows them. */
  lemma ReadFront(file: Str)
    requires |file| >= SIZE
    ensures ReadHeader(file) == ReadHeader(file[..SIZE])
  {
    hide FromLE;
    var front, rest := file[..SIZE], file[SIZE..];
    assert file == front + rest;
    SliceLeft(front, rest, 8, 24);
    forall o: nat, w: nat | o + w <= SIZE ensures At(file, o, w) == At(front, o, w) {
      SliceLeft(front, rest, o, o + w);
    }
  }

  lemma Cut(a: Str, b: Str, c: Str, i: nat, j: nat)
    requires i <= j <= |b|
    ensures (a + b + c)[|a| + i..|a| + j] == b[i..j]
  {
    assert a + b + c == a + (b + c);
    SliceRight(a, b + c, |a| + i, |a| + j);
    SliceLeft(b, c, i, j);
  }

  lemma FrontAt(h: Fileheader, tail: Str)
    requires h.Valid()
    ensures var s := Front(h) + tail;
            && |Front(h)| == 24
            && At(s, 0, 4) == MAGIC && At(s, 4, 2) == h.majorVersion && At(s, 6, 2) == h.minorVersion && s[8..24] == h.uuid
  {
    var s := Front(h) + tail;
    Pow256Values();
    hide ToLE, FromLE, Pow256;
    RoundTripLE(MAGIC, 4);
    RoundTripLE(h.majorVersion, 2);
    RoundTripLE(h.minorVersion, 2);
    assert s[0..4] == ToLE(MAGIC, 4);
    assert s[4..6] == ToLE(h.majorVersion, 2);
    assert s[6..8] == ToLE(h.minorVersion, 2);
  }

  lemma CountsAt(h: Fileheader)
    requires h.Valid()
    ensures var s := Counts(h);
            && |s| == 24
            && At(s, 0, 4) == h.articleCount && At(s, 4, 4) == h.clusterCount
            && At(s, 8, 8) == h.urlPtrPos && At(s, 16, 8) == h.titleIdxPos
  {
    var s := Counts(h);
    Pow256Values();
    hide ToLE, FromLE, Pow256;
    RoundTripLE(h.articleCount, 4);
    RoundTripLE(h.clusterCount, 4);
    RoundTripLE(h.urlPtrPos, 8);
    RoundTripLE(h.titleIdxPos, 8);
    assert s[0..4] == ToLE(h.articleCount, 4);
    assert s[4..8] == ToLE(h.clusterCount, 4);
    assert s[8..16] == ToLE(h.urlPtrPos, 8);
    assert s[16..24] == ToLE(h.titleIdxPos, 8);
  }

  lemma PositionsAt(h: Fileheader)
    requires h.Valid()
    ensures var s := Positions(h);
            |s| == 16 && At(s, 0, 8) == h.clusterPtrPos && At(s, 8, 8) == h.mimeListPos
  {
    var s := Positions(h);
    Pow256Values();
    hide ToLE, FromLE, Pow256;
    RoundTripLE(h.clusterPtrPos, 8);
    RoundTripLE(h.mimeListPos, 8);
    assert s[0..8] == ToLE(h.clusterPtrPos, 8);
    assert s[8..16] == ToLE(h.mimeListPos, 8);
  }

  lemma PagesAt(h: Fileheader)
    requires h.Valid()
    ensures var s := Pages(h);
            |s| == 16 && At(s, 0, 4) == h.mainPage && At(s, 4, 4) == h.layoutPage && At(s, 8, 8) == h.checksumPos
  {
    var s := Pages(h);
    Pow256Values();
    hide ToLE, FromLE, Pow256;
    RoundTripLE(h.mainPage, 4);
    RoundTripLE(h.layoutPage, 4);
    RoundTripLE(h.checksumPos, 8);
    assert s[0..4] == ToLE(h.mainPage, 4);
    assert s[4..8] == ToLE(h.layoutPage, 4);
    assert s[8..16] == ToLE(h.checksumPos, 8);
  }

  lemma Shift(a: Str, b: Str, c: Str, i: nat, w: nat)
    requires i + w <= |b|
    ensures At(a + b + c, |a| + i, w) == At(b, i, w)
  {
    Cut(a, b, c, i, i + w);
  }

  /** Parsing the written bytes, whatever follows them, gives back every field. */
  lemma ParseWritten(h: Fileheader, tail: Str)
    requires h.Valid()
    ensures |HeaderBytes(h)| == SIZE
    ensures At(HeaderBytes(h) + tail, 0, 4) == MAGIC && Parse(HeaderBytes(h) + tail) == h
  {
    hide *;
    var f, c, p, g := Front(h), Counts(h), Positions(h), Pages(h);
    FrontAt(h, c + (p + (g + tail)));
    CountsAt(h);
    PositionsAt(h);
    PagesAt(h);
    HeaderIs(h);
    Groups(f, c, p, g, tail);
    ParseIs(f + c + p + g + tail);
    Shift(f, c, p + (g + tail), 0, 4);
    Shift(f, c, p + (g + tail), 4, 4);
    Shift(f, c, p + (g + tail), 8, 8);
    Shift(f, c, p + (g + tail), 16, 8);
    Shift(f + c, p, g + tail, 0, 8);
    Shift(f + c, p, g + tail, 8, 8);
    Shift(f + c + p, g, tail, 0, 4);
    Shift(f + c + p, g, tail, 4, 4);
    Shift(f + c + p, g, tail, 8, 8);
  }

  lemma HeaderIs(h: Fileheader)
    ensures HeaderBytes(h) == Front(h) + Counts(h) + Positions(h) + Pages(h) && SIZE == 80
  {
    hide Front, Counts, Positions, Pages;
  }

  lemma ParseIs(s: Str)
    requires |s| >= 80
    ensures Parse(s) == Fileheader(At(s, 4, 2), At(s, 6, 2), s[8..24], At(s, 24, 4), At(s, 28, 4), At(s, 32, 8),
                                   At(s, 40, 8), At(s, 48, 8), At(s, 56, 8), At(s, 64, 4), At(s, 68, 4), At(s, 72, 8))
  {
    hide At;
  }

  lemma Groups(f: Str, c: Str, p: Str, g: Str, tail: Str)
    ensures f + c + p + g + tail == f + (c + (p + (g + tail)))
    ensures f + c + p + g + tail == f + c + (p + (g + tail))
    ensures f + c + p + g + tail == (f + c) + p + (g + tail)
  {
  }

  /** What a written header of a known version reads back as. */
  lemma ReadWritten(h: Fileheader, tail: Str)
    requires h.Valid() && (h.majorVersion == CLASSIC_MAJOR || h.majorVersion == EXTENDED_MAJOR)
    ensures ReadHeader(HeaderBytes(h) + tail) == if h.Sane() then Ok(h) else Insane
  {
    ParseWritten(h, tail);
    hide HeaderBytes, Parse, At;
  }

  /** A written header reads back as itself exactly when its version is one of the two and it is sane:
      clusters if and only if entries and no more of them, the MIME list at byte 80 or 72, and no
      table before it. */
  lemma ReadWrittenIff(h: Fileheader, tail: Str)
    requires h.Valid()
    ensures ReadHeader(HeaderBytes(h) + tail) == Ok(h) <==>
            (h.majorVersion == CLASSIC_MAJOR || h.majorVersion == EXTENDED_MAJOR) && h.Sane()
    ensures ReadHeader(HeaderBytes(h) + tail) == Ok(h) <==>
            && (h.majorVersion == 5 || h.majorVersion == 6)
            && (h.articleCount > 0 <==> h.clusterCount > 0) && h.clusterCount <= h.articleCount
            && (h.mimeListPos == 80 || h.mimeListPos == 72)
            && h.urlPtrPos >= h.mimeListPos && h.titleIdxPos >= h.mimeListPos && h.clusterPtrPos >= h.mimeListPos
            && (h.checksumPos == 0 || h.checksumPos >= h.mimeListPos)
  {
    ParseWritten(h, tail);
    hide HeaderBytes, Parse, At;
  }
}
