/** Directory entries in the file: what the writer emits (src/writer/dirent.cpp, src/writer/_dirent.h)
    and what the reader makes of it (src/dirent.cpp, src/_dirent.h). */
module DirentFormat {
  import opened Bytes

  const REDIRECT_MIME: nat := 0xffff
  const LINKTARGET_MIME: nat := 0xfffe
  const DELETED_MIME: nat := 0xfffd

  // ---------------------------------------------------------------- the writer

  datatype Target = Item(mimeType: nat, cluster: nat, blob: nat) | Redirect(index: nat)

  /** A dirent as the writer has resolved it. */
  datatype WriterDirent = WriterDirent(ns: byte, path: Str, title: Str, target: Target) {

    /** What the fields of the source may hold. */
    predicate Valid() {
      && NoNul(path) && NoNul(title)
      && match target
         case Item(m, c, b) => m < DELETED_MIME && c < TWO32 && b < TWO32
         case Redirect(i) => i < TWO32
    }

    /** An empty title stands for the path. */
    function GetTitle(): Str {
      if title == [] then path else title
    }

    function GetMimeType(): nat {
      if target.Redirect? then REDIRECT_MIME else target.mimeType
    }
  }

  function Head(d: WriterDirent): Str {
    ToLE(d.GetMimeType(), 2) + [0, d.ns] + ToLE(0, 4) +
    (match d.target
     case Redirect(i) => ToLE(i, 4)
     case Item(m, c, b) => ToLE(c, 4) + ToLE(b, 4))
  }

  /** The title bytes: left out when the title is the path. */
  function StoredTitle(d: WriterDirent): Str {
    if d.GetTitle() == d.path then [] else d.GetTitle()
  }

  function Encode(d: WriterDirent): Str {
    Head(d) + d.path + [0] + StoredTitle(d) + [0]
  }

  /** `Dirent::write`, piece by piece. */
  method Write(d: WriterDirent) returns (out: Str)
    ensures out == Encode(d)
  {
    var header := ToLE(d.GetMimeType(), 2) + [0, d.ns] + ToLE(0, 4);
    match d.target {
      case Redirect(i) => out := header + ToLE(i, 4);
      case Item(m, c, b) =>
        out := header + ToLE(c, 4) + ToLE(b, 4);
        assert header + ToLE(c, 4) + ToLE(b, 4) == header + (ToLE(c, 4) + ToLE(b, 4));
    }
    out := out + (d.path + [0]);
    var t := d.GetTitle();
    if t != d.path { out := out + t; }
    out := out + [0];
    assert Head(d) + (d.path + [0]) == Head(d) + d.path + [0];
  }

  // ---------------------------------------------------------------- the reader

  /** A dirent as the reader holds it. */
  datatype Dirent = Dirent(mimeType: nat, version: nat, clusterNumber: nat, blobNumber: nat, redirectIndex: nat,
                           ns: byte, url: Str, title: Str, parameter: Str) {
    function GetTitle(): Str {
      if title == [] then url else title
    }

    predicate IsRedirect() { mimeType == REDIRECT_MIME }
  }

  /** What the reader should see of a written dirent. */
  function View(d: WriterDirent): Dirent {
    match d.target
    case Redirect(i) => Dirent(REDIRECT_MIME, 0, 0, 0, i, d.ns, d.path, StoredTitle(d), [])
    case Item(m, c, b) => Dirent(m, 0, c, b, 0, d.ns, d.path, StoredTitle(d), [])
  }

  lemma TitleSurvives(d: WriterDirent)
    ensures View(d).GetTitle() == d.GetTitle() && View(d).url == d.path
  {
  }

  /** The outcome of parsing a buffer. `Overrun`: the parser reads outside the buffer, because the
      fixed part is not there or because `left - extraLen` is negative. */
  datatype Parse = Parsed(d: Dirent) | NeedMore | Overrun

  function HeadSize(mimeType: nat): nat {
    if mimeType == REDIRECT_MIME then 12
    else if mimeType == LINKTARGET_MIME || mimeType == DELETED_MIME then 8
    else 16
  }

  /** The strings after the fixed part: url, title, and `extraLen` bytes of parameter. */
  datatype Strings = Strings(url: Str, title: Str, parameter: Str) | StringsNeedMore | StringsOverrun

  function ParseStrings(rest: Str, extraLen: nat): Strings {
    if extraLen > |rest| then StringsOverrun
    else
      var urlSize := StrLen(rest[..|rest| - extraLen]);
      if urlSize >= |rest| then StringsNeedMore
      else ParseTitle(rest[..urlSize], rest[urlSize + 1..], extraLen)
  }

  function ParseTitle(url: Str, rest: Str, extraLen: nat): Strings {
    if extraLen > |rest| then StringsOverrun
    else
      var titleSize := StrLen(rest[..|rest| - extraLen]);
      if titleSize >= |rest| then StringsNeedMore
      else
        var parameter := rest[titleSize + 1..];
        if extraLen > |parameter| then StringsNeedMore
        else Strings(url, rest[..titleSize], parameter[..extraLen])
  }

  /** `initDirent`. */
  function InitDirent(buf: Str): Parse {
    if |buf| < 8 || |buf| < HeadSize(FromLE(buf[..2])) then Overrun
    else
      var mimeType, extraLen, ns, version := FromLE(buf[..2]), buf[2], buf[3], FromLE(buf[4..8]);
      match ParseStrings(buf[HeadSize(mimeType)..], extraLen)
      case StringsOverrun => Overrun
      case StringsNeedMore => NeedMore
      case Strings(url, title, parameter) =>
        var w1 := if HeadSize(mimeType) >= 12 then FromLE(buf[8..12]) else 0;
        var w2 := if HeadSize(mimeType) == 16 then FromLE(buf[12..16]) else 0;
        if mimeType == REDIRECT_MIME
        then Parsed(Dirent(mimeType, version, 0, 0, w1, ns, url, title, parameter))
        else Parsed(Dirent(mimeType, version, w1, w2, 0, ns, url, title, parameter))
  }

  // ---------------------------------------------------------------- longer buffers parse the same

  /** The first NUL of a string is found at the same place in any longer one. */
  lemma StrLenStable(s: Str, t: Str)
    requires s <= t && StrLen(s) < |s|
    ensures StrLen(t) == StrLen(s)
  {
    var n := StrLen(s);
    assert t[..n] == s[..n] && t[n] == s[n];
    StrLenUnique(t, n);
  }

  lemma TitleStable(url: Str, rest: Str, more: Str, extraLen: nat)
    requires ParseTitle(url, rest, extraLen).Strings?
    ensures ParseTitle(url, rest + more, extraLen) == ParseTitle(url, rest, extraLen)
  {
    var t := StrLen(rest[..|rest| - extraLen]);
    FirstNulStable(rest, more, extraLen);
    SliceLeft(rest[t + 1..], more, 0, extraLen);
    hide StrLen;
  }

  lemma StringsStable(rest: Str, more: Str, extraLen: nat)
    requires ParseStrings(rest, extraLen).Strings?
    ensures ParseStrings(rest + more, extraLen) == ParseStrings(rest, extraLen)
  {
    var u := StrLen(rest[..|rest| - extraLen]);
    assert u < |rest| - extraLen;
    FirstNulStable(rest, more, extraLen);
    TitleStable(rest[..u], rest[u + 1..], more, extraLen);
    hide StrLen, ParseTitle;
  }

  /** A NUL found before the last `extraLen` bytes is found again when bytes follow. */
  lemma FirstNulStable(rest: Str, more: Str, extraLen: nat)
    requires extraLen <= |rest| && StrLen(rest[..|rest| - extraLen]) < |rest| - extraLen
    ensures var n, all := StrLen(rest[..|rest| - extraLen]), rest + more;
            StrLen(all[..|all| - extraLen]) == n && all[..n] == rest[..n] && all[n + 1..] == rest[n + 1..] + more
  {
    var all := rest + more;
    assert rest[..|rest| - extraLen] <= all[..|all| - extraLen];
    StrLenStable(rest[..|rest| - extraLen], all[..|all| - extraLen]);
  }

  /** Once a buffer parses, every longer one parses to the same dirent. */
  lemma ParseIsStable(buf: Str, more: Str)
    requires InitDirent(buf).Parsed?
    ensures InitDirent(buf + more) == InitDirent(buf)
  {
    var all, h := buf + more, HeadSize(FromLE(buf[..2]));
    SliceLeft(buf, more, 0, 2);
    SliceLeft(buf, more, 4, 8);
    assert all[..2] == all[0..2] && buf[..2] == buf[0..2];
    if h >= 12 { SliceLeft(buf, more, 8, 12); }
    if h == 16 { SliceLeft(buf, more, 12, 16); }
    assert all[h..] == buf[h..] + more;
    StringsStable(buf[h..], more, buf[2]);
  }

  /** With a parameter length, a buffer that ends inside the url makes the parser run over its end;
      without one that never happens once the fixed part is there. */
  lemma OverrunNeedsParameter(buf: Str)
    requires |buf| >= 16
    ensures buf[2] == 0 ==> InitDirent(buf) != Overrun
  {
  }

  lemma ParameterOverruns(extraLen: byte)
    requires extraLen > 0
    ensures var buf: Str := [0, 0, extraLen, 67] + ToLE(0, 12) + seq(extraLen, _ => 65);
            |buf| >= 16 && InitDirent(buf) == Overrun
  {
    var name: Str := seq(extraLen, _ => 65);
    var buf: Str := [0, 0, extraLen, 67] + ToLE(0, 12) + name;
    assert buf[..2] == [0, 0];
    assert [0, 0][1..] == [0];
    assert [0][1..] == [];
    assert FromLE([0]) == 0;
    assert FromLE(buf[..2]) == 0;
    assert buf[16..] == name;
    assert name[..0] == [];
  }

  // ---------------------------------------------------------------- the round trip

  lemma HeadParts(d: WriterDirent)
    ensures |Head(d)| == HeadSize(if d.target.Redirect? then REDIRECT_MIME else 0)
    ensures Head(d)[..2] == ToLE(d.GetMimeType(), 2) && Head(d)[2] == 0 && Head(d)[3] == d.ns && Head(d)[4..8] == ToLE(0, 4)
    ensures match d.target
            case Redirect(i) => Head(d)[8..12] == ToLE(i, 4)
            case Item(m, c, b) => Head(d)[8..12] == ToLE(c, 4) && Head(d)[12..16] == ToLE(b, 4)
  {
    hide ToLE;
  }

  lemma StringsOf(path: Str, title: Str, more: Str)
    requires NoNul(path) && NoNul(title)
    ensures ParseStrings(path + [0] + title + [0] + more, 0) == Strings(path, title, [])
  {
    var rest, rest2 := path + [0] + title + [0] + more, title + [0] + more;
    assert rest == path + [0] + rest2;
    assert rest[..|rest|] == rest && rest2[..|rest2|] == rest2;
    CStrOf(path, rest2);
    assert rest[|path| + 1..] == rest2 && rest[..|path|] == path;
    CStrOf(title, more);
    assert rest2[..|title|] == title;
  }

  /** The fixed part of a written dirent reads back. */
  lemma HeadReads(d: WriterDirent, buf: Str)
    requires d.Valid() && Head(d) <= buf
    ensures FromLE(buf[..2]) == d.GetMimeType() && HeadSize(d.GetMimeType()) == |Head(d)| && |buf| >= |Head(d)| >= 12
    ensures buf[2] == 0 && buf[3] == d.ns && FromLE(buf[4..8]) == 0
    ensures match d.target
            case Redirect(i) => FromLE(buf[8..12]) == i
            case Item(m, c, b) => FromLE(buf[8..12]) == c && FromLE(buf[12..16]) == b
  {
    HeadParts(d);
    Pow256Values();
    hide ToLE, FromLE, Head;
    var h := Head(d);
    assert buf[..|h|] == h;
    assert buf[..2] == h[..2] && buf[4..8] == h[4..8] && buf[8..12] == h[8..12];
    assert buf[2] == h[2] && buf[3] == h[3];
    RoundTripLE(d.GetMimeType(), 2);
    RoundTripLE(0, 4);
    match d.target {
      case Redirect(i) => RoundTripLE(i, 4);
      case Item(m, c, b) =>
        assert buf[12..16] == h[12..16];
        RoundTripLE(c, 4);
        RoundTripLE(b, 4);
    }
  }

  /** `initDirent` inverts `Dirent::write`, whatever follows the dirent. */
  lemma ParseEncoded(d: WriterDirent, more: Str)
    requires d.Valid()
    ensures InitDirent(Encode(d) + more) == Parsed(View(d))
  {
    var buf, strings := Encode(d) + more, d.path + [0] + StoredTitle(d) + [0] + more;
    EncodeThen(d, strings, more);
    HeadReads(d, buf);
    StringsOf(d.path, StoredTitle(d), more);
    hide Encode;
    InitFromParts(d, buf, strings);
  }

  lemma EncodeThen(d: WriterDirent, strings: Str, more: Str)
    requires strings == d.path + [0] + StoredTitle(d) + [0] + more
    ensures Encode(d) + more == Head(d) + strings && (Encode(d) + more)[|Head(d)|..] == strings
  {
    hide Head, StoredTitle;
  }

  lemma InitFromParts(d: WriterDirent, buf: Str, strings: Str)
    requires d.Valid() && Head(d) <= buf && buf[|Head(d)|..] == strings
    requires ParseStrings(strings, 0) == Strings(d.path, StoredTitle(d), [])
    ensures InitDirent(buf) == Parsed(View(d))
  {
    HeadReads(d, buf);
    hide FromLE, Head, ParseStrings, StoredTitle, WriterDirent.GetTitle;
  }

  lemma StringsCut(path: Str, title: Str, n: nat)
    requires NoNul(path) && NoNul(title) && n < |path| + |title| + 2
    ensures ParseStrings((path + [0] + title + [0])[..n], 0) == StringsNeedMore
  {
    var rest := (path + [0] + title + [0])[..n];
    assert rest[..|rest|] == rest;
    if n <= |path| {
      assert rest == path[..n];
      StrLenUnique(rest, n);
    } else {
      var rest2 := title[..n - |path| - 1];
      assert rest == path + [0] + rest2;
      CStrOf(path, rest2);
      assert rest[|path| + 1..] == rest2;
      assert rest2[..|rest2|] == rest2;
      StrLenUnique(rest2, |rest2|);
    }
  }

  /** A buffer that ends inside a written dirent, but after its fixed part, asks for more. */
  lemma PrefixNeedsMore(d: WriterDirent, n: nat)
    requires d.Valid() && 16 <= n < |Encode(d)|
    ensures InitDirent(Encode(d)[..n]) == NeedMore
  {
    var buf, strings := Encode(d)[..n], d.path + [0] + StoredTitle(d) + [0];
    HeadParts(d);
    EncodeCut(d, strings, n);
    HeadReads(d, buf);
    hide FromLE, Head, ParseStrings, Encode, StoredTitle;
    StringsCut(d.path, StoredTitle(d), n - |Head(d)|);
  }

  lemma EncodeCut(d: WriterDirent, strings: Str, n: nat)
    requires strings == d.path + [0] + StoredTitle(d) + [0] && |Head(d)| <= n < |Encode(d)|
    ensures |Encode(d)| == |Head(d)| + |d.path| + |StoredTitle(d)| + 2
    ensures Head(d) <= Encode(d)[..n] && Encode(d)[..n][|Head(d)|..] == strings[..n - |Head(d)|]
  {
    hide Head, StoredTitle;
    assert Encode(d) == Head(d) + strings;
    assert Encode(d)[..n] == Head(d) + strings[..n - |Head(d)|];
  }

  // ---------------------------------------------------------------- readDirent

  datatype Read = Found(d: Dirent) | InvalidPointer | PastEnd | BufferOverrun

  /** One turn of the retry loop: reads a buffer of `size` bytes and parses it. */
  function Attempt(file: Str, offset: nat, size: nat): Parse
    requires offset + size <= |file|
  {
    InitDirent(file[offset..offset + size])
  }

  /** The retry loop: a buffer of `size` bytes, then 256 bytes more. */
  function ReadFrom(file: Str, offset: nat, size: nat): Read
    requires offset <= |file|
    decreases |file| - size
  {
    if offset + size > |file| then PastEnd
    else match Attempt(file, offset, size)
      case Parsed(d) => Found(d)
      case Overrun => BufferOverrun
      case NeedMore => ReadFrom(file, offset, size + 256)
  }

  function FirstBuffer(left: nat): nat {
    if left < 256 then left else 256
  }

  function ReadDirent(file: Str, offset: nat): Read {
    if offset >= |file| then InvalidPointer else ReadFrom(file, offset, FirstBuffer(|file| - offset))
  }

  /** `readDirent`: the loop ends, by a dirent or by running past the end of the file. */
  method ReadDirentLoop(file: Str, offset: nat) returns (r: Read)
    ensures r == ReadDirent(file, offset)
  {
    if offset >= |file| { return InvalidPointer; }
    var bufferSize := FirstBuffer(|file| - offset);
    ghost var whole := ReadFrom(file, offset, bufferSize);
    assert whole == ReadDirent(file, offset) by { hide ReadFrom; }
    hide *;
    var parse := NeedMore;
    while parse == NeedMore && offset + bufferSize <= |file|
      invariant parse == NeedMore ==> ReadFrom(file, offset, bufferSize) == whole
      invariant parse == Overrun ==> whole == BufferOverrun
      invariant parse.Parsed? ==> whole == Found(parse.d)
      decreases parse == NeedMore, |file| - bufferSize
    {
      OneRead(file, offset, bufferSize);
      parse := Attempt(file, offset, bufferSize);
      if parse == NeedMore { bufferSize := bufferSize + 256; }
    }
    OneRead(file, offset, bufferSize);
    r := match parse case Parsed(d) => Found(d) case Overrun => BufferOverrun case NeedMore => PastEnd;
  }

  lemma OneRead(file: Str, offset: nat, size: nat)
    requires offset <= |file|
    ensures ReadFrom(file, offset, size) ==
            if offset + size > |file| then PastEnd
            else match Attempt(file, offset, size)
              case Parsed(d) => Found(d)
              case Overrun => BufferOverrun
              case NeedMore => ReadFrom(file, offset, size + 256)
  {
    hide Attempt;
  }

  function RoundUp(len: nat): nat {
    256 * ((len + 255) / 256)
  }

  /** Whether the read steps that a dirent of `len` bytes takes stay inside the file: the first
      buffer holds it, or the multiple of 256 that holds it is there. */
  predicate StepsFit(left: nat, len: nat) {
    len <= FirstBuffer(left) || RoundUp(len) <= left
  }

  /** The file holds the written dirent at this offset. */
  predicate StoredAt(file: Str, offset: nat, d: WriterDirent) {
    offset + |Encode(d)| <= |file| && file[offset..offset + |Encode(d)|] == Encode(d)
  }

  lemma {:induction false} ReadFromEncoded(file: Str, offset: nat, d: WriterDirent, size: nat)
    requires d.Valid() && StoredAt(file, offset, d)
    requires size >= 16 || size >= |Encode(d)|
    ensures offset <= |file|
    ensures offset + size > |file| ==> ReadFrom(file, offset, size) == PastEnd
    ensures size >= |Encode(d)| && offset + size <= |file| ==> ReadFrom(file, offset, size) == Found(View(d))
    ensures size < |Encode(d)| && offset + size <= |file| ==> ReadFrom(file, offset, size) == ReadFrom(file, offset, size + 256)
  {
    var len := |Encode(d)|;
    hide Encode, InitDirent, View;
    if size >= len && offset + size <= |file| {
      assert file[offset..offset + size] == Encode(d) + file[offset + len..offset + size];
      ParseEncoded(d, file[offset + len..offset + size]);
    }
    if size < len && offset + size <= |file| {
      assert file[offset..offset + size] == Encode(d)[..size];
      PrefixNeedsMore(d, size);
    }
  }

  lemma RoundUpFrom(len: nat, k: nat)
    ensures 256 * k < len ==> 256 * (k + 1) <= RoundUp(len)
    ensures len <= 256 * k < len + 256 ==> RoundUp(len) == 256 * k
  {
    if len <= 256 * k < len + 256 { ModUnique(len + 255, 256, k, len + 255 - 256 * k); }
  }

  lemma {:induction false} RetriesReach(file: Str, offset: nat, d: WriterDirent, k: nat)
    requires d.Valid() && StoredAt(file, offset, d)
    requires 1 <= k && 256 * k < |Encode(d)| + 256
    ensures offset <= |file|
    ensures ReadFrom(file, offset, 256 * k) ==
            if offset + RoundUp(|Encode(d)|) <= |file| then Found(View(d)) else PastEnd
    decreases |Encode(d)| + 256 - 256 * k
  {
    var len := |Encode(d)|;
    ReadFromEncoded(file, offset, d, 256 * k);
    hide *;
    RoundUpFrom(len, k);
    hide RoundUp;
    if 256 * k < len && offset + 256 * k <= |file| { RetriesReach(file, offset, d, k + 1); }
  }

  /** Reading a written dirent back from a file gives that dirent if and only if the 256-byte read
      steps stay inside the file; otherwise a step runs past its end. */
  lemma ReadDirentIff(file: Str, offset: nat, d: WriterDirent)
    requires d.Valid() && StoredAt(file, offset, d)
    ensures ReadDirent(file, offset) ==
            if StepsFit(|file| - offset, |Encode(d)|) then Found(View(d)) else PastEnd
  {
    EncodedLength(d);
    FirstAttempt(file, offset, |Encode(d)|);
    hide *;
    FromFirst(file, offset, d, FirstBuffer(|file| - offset));
  }

  lemma FromFirst(file: Str, offset: nat, d: WriterDirent, first: nat)
    requires d.Valid() && StoredAt(file, offset, d)
    requires offset + first <= |file| && (first >= |Encode(d)| || first == 256)
    ensures ReadFrom(file, offset, first) ==
            if first >= |Encode(d)| || offset + RoundUp(|Encode(d)|) <= |file| then Found(View(d)) else PastEnd
  {
    hide *;
    if first >= |Encode(d)| {
      ReadFromEncoded(file, offset, d, first);
    } else {
      RetriesReach(file, offset, d, 1);
    }
  }

  lemma EncodedLength(d: WriterDirent)
    ensures |Encode(d)| >= 14
  {
    HeadParts(d);
  }

  lemma FirstAttempt(file: Str, offset: nat, len: nat)
    requires offset + len <= |file| && len >= 14
    ensures var left := |file| - offset;
            var first := FirstBuffer(left);
            && first <= left && (first < len ==> first == 256)
            && ReadDirent(file, offset) == ReadFrom(file, offset, first)
            && StepsFit(left, len) == (len <= first || RoundUp(len) <= left)
  {
    hide ReadFrom, RoundUp;
  }

  /** A path of 300 bytes, alone and near the end of a file: the second read step runs past the end. */
  lemma LongPathNearTheEnd(path: Str, tail: Str)
    requires |path| == 300 && NoNul(path) && |tail| < 194
    ensures var d := WriterDirent(67, path, [], Item(0, 0, 0));
            d.Valid() && ReadDirent(Encode(d) + tail, 0) == PastEnd
  {
    var d := WriterDirent(67, path, [], Item(0, 0, 0));
    HeadParts(d);
    var file := Encode(d) + tail;
    assert file[0..0 + |Encode(d)|] == Encode(d);
    ReadDirentIff(file, 0, d);
  }
}
