/** An archive split in several files, read as one (src/file_compound.h, src/file_compound.cpp,
    src/file_reader.cpp). The parts are a `std::map` keyed by byte range and ordered by `less_range`;
    here, a sequence in key order. */
module FileCompound {
  import opened Bytes

  datatype Range = Range(min: nat, max: nat)

  /** A map entry: the key and the file part, of which the content is what matters. */
  datatype Part = Part(range: Range, content: Str)

  predicate LessRange(lhs: Range, rhs: Range) {
    lhs.min < rhs.min && lhs.max <= rhs.min
  }

  /** `lower_bound`: the first entry that is not less than `q`. */
  function LowerBound(parts: seq<Part>, q: Range): (i: nat)
    ensures i <= |parts|
  {
    if parts == [] || !LessRange(parts[0].range, q) then 0 else 1 + LowerBound(parts[1..], q)
  }

  /** `upper_bound`: the first entry that `q` is less than. */
  function UpperBound(parts: seq<Part>, q: Range): (i: nat)
    ensures i <= |parts|
  {
    if parts == [] || LessRange(q, parts[0].range) then 0 else 1 + UpperBound(parts[1..], q)
  }

  lemma {:induction false} LowerLeqUpper(parts: seq<Part>, q: Range)
    ensures LowerBound(parts, q) <= UpperBound(parts, q)
  {
    if parts != [] && LessRange(parts[0].range, q) { LowerLeqUpper(parts[1..], q); }
  }

  /** `emplace`: nothing happens when the map already has an equivalent key. */
  function Emplace(parts: seq<Part>, p: Part): seq<Part> {
    var i := LowerBound(parts, p.range);
    if i < |parts| && !LessRange(p.range, parts[i].range) then parts
    else parts[..i] + [p] + parts[i..]
  }

  function AddPart(parts: seq<Part>, fsize: nat, content: Str): seq<Part> {
    Emplace(parts, Part(Range(fsize, fsize + |content|), content))
  }

  /** The map after the files were added in order, and the size it claims. */
  function Build(contents: seq<Str>): seq<Part> {
    if contents == [] then []
    else var n := |contents| - 1; AddPart(Build(contents[..n]), |Concat(contents[..n])|, contents[n])
  }

  class FileCompound {
    var parts: seq<Part>
    var fsize: nat

    /** Opens the files one after the other. */
    constructor (files: seq<Str>)
      ensures parts == Build(files) && fsize == |Concat(files)|
    {
      parts, fsize := [], 0;
      new;
      for i := 0 to |files|
        invariant parts == Build(files[..i]) && fsize == |Concat(files[..i])|
      {
        assert files[..i + 1][..i] == files[..i] && files[..i + 1] == files[..i] + [files[i]];
        ConcatSnoc(files[..i], files[i]);
        AddOnePart(files[i]);
      }
      assert files[..|files|] == files;
    }

    method AddOnePart(content: Str)
      modifies this
      ensures parts == AddPart(old(parts), old(fsize), content)
      ensures fsize == old(fsize) + |content|
    {
      parts := Emplace(parts, Part(Range(fsize, fsize + |content|), content));
      fsize := fsize + |content|;
    }
  }

  // ---------------------------------------------------------------- reading

  datatype Outcome = Ok(bytes: Str) | Failed {
    /** What was read before, then this. */
    function After(dest: Str): Outcome {
      match this
      case Ok(b) => Ok(dest + b)
      case Failed => Failed
    }
  }

  /** The loop over the located parts. It fails when a part does not hold the next byte, when a part
      is left over, and when bytes are left over. */
  function ReadLoop(parts: seq<Part>, offset: nat, size: nat): Outcome
    decreases |parts|
  {
    if parts == [] then (if size == 0 then Ok([]) else Failed)
    else
      var part := parts[0];
      if size == 0 || offset < part.range.min || offset - part.range.min > |part.content| then Failed
      else
        var piece := Piece(part, offset, size);
        ReadLoop(parts[1..], offset + |piece|, size - |piece|).After(piece)
  }

  /** The parts that `locate(offset, size)` finds, `equal_range` on the request's own range. */
  function Locate(parts: seq<Part>, offset: nat, size: nat): seq<Part> {
    var q := Range(offset, offset + size);
    LowerLeqUpper(parts, q);
    parts[LowerBound(parts, q)..UpperBound(parts, q)]
  }

  function ReadParts(parts: seq<Part>, offset: nat, size: nat): Outcome {
    if size == 0 then Ok([]) else ReadLoop(Locate(parts, offset, size), offset, size)
  }

  /** `read(offset)`: one byte, from the part that `lower_bound` finds. */
  function ReadByte(parts: seq<Part>, offset: nat): Outcome {
    var i := LowerBound(parts, Range(offset, offset));
    if i == |parts| then Failed
    else
      var part := parts[i];
      if offset < part.range.min || offset - part.range.min >= |part.content| then Failed
      else Ok([part.content[offset - part.range.min]])
  }

  datatype MultiPartFileReader = MultiPartFileReader(source: seq<Part>, offset: nat, size: nat) {

    function SubReader(offset: nat, size: nat): MultiPartFileReader {
      MultiPartFileReader(source, this.offset + offset, size)
    }

    method Read(offset: nat, size: nat) returns (r: Outcome)
      requires offset + size <= this.size
      ensures r == ReadParts(source, this.offset + offset, size)
    {
      if size == 0 { return Ok([]); }
      assert ReadParts(source, this.offset + offset, size) ==
             ReadLoop(Locate(source, this.offset + offset, size), this.offset + offset, size);
      hide *;
      var off: nat, left: nat, dest := this.offset + offset, size, [];
      var found := Locate(source, off, left);
      var i := 0;
      AfterNothing(ReadLoop(found, off, left));
      FromFirstPart(found, off, left);
      while i < |found|
        invariant 0 <= i <= |found|
        invariant ReadLoop(found, this.offset + offset, size) == ReadFromPart(found, i, off, left).After(dest)
      {
        var part := found[i];
        ReadLoopStep(found, i, off, left, dest);
        if left == 0 || off < part.range.min || off - part.range.min > |part.content| { return Failed; }
        var piece := Piece(part, off, left);
        dest := dest + piece;
        left := left - |piece|;
        off := off + |piece|;
        i := i + 1;
      }
      ReadLoopEnd(found, off, left, dest);
      r := if left == 0 then Ok(dest) else Failed;
    }
  }

  /** What one part has of the request: from its offset on, as much as is there. */
  function Piece(part: Part, off: nat, left: nat): (piece: Str)
    requires part.range.min <= off && off - part.range.min <= |part.content|
    ensures |piece| == if left < |part.content| - (off - part.range.min) then left else |part.content| - (off - part.range.min)
  {
    var local := off - part.range.min;
    part.content[local..local + if left < |part.content| - local then left else |part.content| - local]
  }

  /** The loop from part i on. */
  function ReadFromPart(found: seq<Part>, i: nat, off: nat, left: nat): Outcome
    requires i <= |found|
  {
    ReadLoop(found[i..], off, left)
  }

  lemma FromFirstPart(found: seq<Part>, off: nat, left: nat)
    ensures ReadFromPart(found, 0, off, left) == ReadLoop(found, off, left)
  {
    assert found[0..] == found;
  }

  lemma ReadLoopStep(found: seq<Part>, i: nat, off: nat, left: nat, dest: Str)
    requires i < |found|
    ensures var part := found[i];
            ReadFromPart(found, i, off, left).After(dest) ==
            if left == 0 || off < part.range.min || off - part.range.min > |part.content| then Failed
            else var piece := Piece(part, off, left);
                 ReadFromPart(found, i + 1, off + |piece|, left - |piece|).After(dest + piece)
  {
    var part := found[i];
    assert found[i..][0] == part && found[i..][1..] == found[i + 1..];
    if left != 0 && off >= part.range.min && off - part.range.min <= |part.content| {
      var piece := Piece(part, off, left);
      hide ReadLoop;
      AfterAfter(ReadLoop(found[i + 1..], off + |piece|, left - |piece|), piece, dest);
    }
  }

  lemma AfterNothing(o: Outcome)
    ensures o.After([]) == o
  {
    if o.Ok? { assert [] + o.bytes == o.bytes; }
  }

  lemma ReadLoopEnd(found: seq<Part>, off: nat, left: nat, dest: Str)
    ensures ReadFromPart(found, |found|, off, left).After(dest) == if left == 0 then Ok(dest) else Failed
  {
    assert found[|found|..] == [] && dest + [] == dest;
  }

  lemma AfterAfter(o: Outcome, b: Str, a: Str)
    ensures o.After(b).After(a) == o.After(a + b)
  {
    if o.Ok? {
      assert a + (b + o.bytes) == (a + b) + o.bytes;
    }
  }

  // ---------------------------------------------------------------- non-empty parts tile the archive

  ghost predicate NonEmpty(data: seq<Str>) {
    forall i :: 0 <= i < |data| ==> data[i] != []
  }

  function Tiles(data: seq<Str>, from: nat): seq<Part> {
    if data == [] then []
    else [Part(Range(from, from + |data[0]|), data[0])] + Tiles(data[1..], from + |data[0]|)
  }

  ghost predicate AllFrom(parts: seq<Part>, m: nat) {
    forall i :: 0 <= i < |parts| ==> parts[i].range.min >= m
  }

  lemma TilesCons(data: seq<Str>, from: nat, tail: seq<Part>)
    requires data != []
    ensures var p, rest := Part(Range(from, from + |data[0]|), data[0]), Tiles(data[1..], from + |data[0]|) + tail;
            Tiles(data, from) + tail == [p] + rest && ([p] + rest)[1..] == rest
  {
  }

  lemma RestFrom(data: seq<Str>, from: nat, tail: seq<Part>)
    requires AllFrom(Tiles(data, from), from) && AllFrom(tail, from + |Concat(data)|)
    ensures var rest := Tiles(data, from) + tail;
            AllFrom(rest, from) && (data != [] ==> rest != [] && rest[0].range.min == from)
  {
  }

  lemma {:induction false} TilesFrom(data: seq<Str>, from: nat)
    ensures AllFrom(Tiles(data, from), from)
  {
    if data != [] { TilesFrom(data[1..], from + |data[0]|); }
  }

  lemma {:induction false} UpperOfLaterStart(parts: seq<Part>, m: nat, o: nat, end: nat)
    requires AllFrom(parts, m) && o <= m < end
    ensures UpperBound(parts, Range(o, end)) == UpperBound(parts, Range(m, end))
  {
    if parts != [] && !LessRange(Range(m, end), parts[0].range) { UpperOfLaterStart(parts[1..], m, o, end); }
  }

  lemma UpperIsZero(parts: seq<Part>, q: Range)
    requires q.min < q.max && AllFrom(parts, q.max)
    ensures UpperBound(parts, q) == 0
  {
  }

  /** The parts that share a byte with the request. */
  function Overlapping(parts: seq<Part>, o: nat, s: nat): seq<Part> {
    if parts == [] then []
    else (if parts[0].range.min < o + s && o < parts[0].range.max then [parts[0]] else []) + Overlapping(parts[1..], o, s)
  }

  lemma {:induction false} NothingOverlaps(parts: seq<Part>, o: nat, s: nat)
    requires AllFrom(parts, o + s)
    ensures Overlapping(parts, o, s) == []
  {
    if parts != [] { NothingOverlaps(parts[1..], o, s); }
  }

  /** On tiles `locate` finds exactly the parts that overlap the request, in their order; entries behind
      the tiles, where there are any, are out of reach of a request that stays within. */
  lemma {:induction false} LocateIsOverlap(data: seq<Str>, from: nat, tail: seq<Part>, o: nat, s: nat)
    requires NonEmpty(data) && s > 0
    requires tail == [] || (AllFrom(tail, from + |Concat(data)|) && o + s <= from + |Concat(data)|)
    ensures var parts := Tiles(data, from) + tail; Locate(parts, o, s) == Overlapping(parts, o, s)
    decreases |data|
  {
    if data == [] {
      assert Tiles(data, from) + tail == tail;
      if tail != [] {
        UpperIsZero(tail, Range(o, o + s));
        NothingOverlaps(tail, o, s);
      }
    } else {
      var m := from + |data[0]|;
      var p, rest := Part(Range(from, m), data[0]), Tiles(data[1..], m) + tail;
      TilesCons(data, from, tail);
      LocateIsOverlap(data[1..], m, tail, o, s);
      TilesFrom(data[1..], m);
      hide Tiles;
      if tail != [] { RestFrom(data[1..], m, tail); }
      FirstLocated(p, rest, o, s);
    }
  }

  /** Whether the first part is located, when the others begin behind it. */
  lemma FirstLocated(p: Part, rest: seq<Part>, o: nat, s: nat)
    requires s > 0 && p.range.min < p.range.max && AllFrom(rest, p.range.max)
    requires Locate(rest, o, s) == Overlapping(rest, o, s)
    ensures Locate([p] + rest, o, s) == Overlapping([p] + rest, o, s)
  {
    var q := Range(o, o + s);
    assert ([p] + rest)[1..] == rest;
    LowerLeqUpper(rest, q);
    if LessRange(q, p.range) {
      UpperIsZero(rest, q);
    } else if !LessRange(p.range, q) {
      FirstIsLower(rest, p.range.max, q);
    }
  }

  lemma FirstIsLower(rest: seq<Part>, m: nat, q: Range)
    requires AllFrom(rest, m) && q.min < m
    ensures LowerBound(rest, q) == 0
  {
  }

  /** A request behind the first part ignores it. */
  lemma ReadSkips(p: Part, rest: seq<Part>, o: nat, s: nat)
    requires s > 0 && p.range.min < o && p.range.max <= o
    ensures ReadParts([p] + rest, o, s) == ReadParts(rest, o, s)
  {
    assert ([p] + rest)[1..] == rest;
    LowerLeqUpper(rest, Range(o, o + s));
    assert Locate([p] + rest, o, s) == Locate(rest, o, s);
  }

  /** A request inside the first part is a slice of it. */
  lemma ReadWithin(p: Part, rest: seq<Part>, o: nat, s: nat)
    requires s > 0 && p.range.min <= o && o + s <= p.range.max == p.range.min + |p.content| && AllFrom(rest, p.range.max)
    ensures ReadParts([p] + rest, o, s) == Ok(p.content[o - p.range.min..o - p.range.min + s])
  {
    assert ([p] + rest)[1..] == rest;
    UpperIsZero(rest, Range(o, o + s));
    assert Locate([p] + rest, o, s) == [p];
    assert [p][1..] == [];
    assert ReadLoop([], o + s, 0) == Ok([]);
    var c := p.content[o - p.range.min..o - p.range.min + s];
    assert c + [] == c;
  }

  /** A request that leaves the first part is its end, then a request at the start of the next. */
  lemma ReadAcross(p: Part, rest: seq<Part>, o: nat, s: nat)
    requires p.range.min <= o < p.range.max == p.range.min + |p.content| < o + s
    requires AllFrom(rest, p.range.max) && rest != [] && rest[0].range.min == p.range.max
    requires ReadParts(rest, p.range.max, o + s - p.range.max).Ok?
    ensures ReadParts([p] + rest, o, s) ==
            Ok(p.content[o - p.range.min..] + ReadParts(rest, p.range.max, o + s - p.range.max).bytes)
  {
    var m := p.range.max;
    assert ([p] + rest)[1..] == rest;
    UpperOfLaterStart(rest, m, o, o + s);
    assert LowerBound(rest, Range(m, o + s)) == 0;
    var u := UpperBound(rest, Range(m, o + s));
    assert Locate(rest, m, o + s - m) == rest[..u];
    assert Locate([p] + rest, o, s) == [p] + rest[..u];
    assert ([p] + rest[..u])[1..] == rest[..u];
    assert p.content[o - p.range.min..o - p.range.min + (m - o)] == p.content[o - p.range.min..];
  }

  /** A request inside the tiles reads exactly its slice of their concatenation, whatever follows. */
  lemma {:induction false} ReadTiles(data: seq<Str>, from: nat, tail: seq<Part>, o: nat, s: nat)
    requires NonEmpty(data) && from <= o && s > 0 && o + s <= from + |Concat(data)|
    requires AllFrom(tail, from + |Concat(data)|)
    ensures ReadParts(Tiles(data, from) + tail, o, s) == Ok(Concat(data)[o - from..o - from + s])
    decreases |data|
  {
    hide ReadParts, AllFrom, Tiles;
    var d, m := data[0], from + |data[0]|;
    var p, rest := Part(Range(from, m), d), Tiles(data[1..], m) + tail;
    TilesCons(data, from, tail);
    TilesFrom(data[1..], m);
    RestFrom(data[1..], m, tail);
    if o >= m {
      ReadTiles(data[1..], m, tail, o, s);
      ReadSkips(p, rest, o, s);
      SliceRight(d, Concat(data[1..]), o - from, o - from + s);
    } else if o + s <= m {
      ReadWithin(p, rest, o, s);
      SliceLeft(d, Concat(data[1..]), o - from, o - from + s);
    } else {
      ReadTiles(data[1..], m, tail, m, o + s - m);
      ReadAcross(p, rest, o, s);
      SliceSpan(d, Concat(data[1..]), o - from, o - from + s);
    }
  }

  lemma ReadByteFirst(p: Part, rest: seq<Part>, o: nat)
    requires p.range.min < p.range.max == p.range.min + |p.content| && p.range.min <= o
    ensures ReadByte([p] + rest, o) ==
            if o < p.range.max then Ok([p.content[o - p.range.min]]) else ReadByte(rest, o)
  {
    assert ([p] + rest)[1..] == rest;
  }

  lemma {:induction false} ReadTileByte(data: seq<Str>, from: nat, tail: seq<Part>, o: nat)
    requires NonEmpty(data) && from <= o < from + |Concat(data)|
    ensures ReadByte(Tiles(data, from) + tail, o) == Ok([Concat(data)[o - from]])
    decreases |data|
  {
    hide ReadByte, Tiles;
    var m := from + |data[0]|;
    TilesCons(data, from, tail);
    ReadByteFirst(Part(Range(from, m), data[0]), Tiles(data[1..], m) + tail, o);
    if o >= m { ReadTileByte(data[1..], m, tail, o); }
  }

  // ---------------------------------------------------------------- what the map holds

  /** Files with data, then only empty ones. */
  ghost predicate NoDataAfterEmpty(contents: seq<Str>) {
    forall i, j :: 0 <= i < j < |contents| && contents[j] != [] ==> contents[i] != []
  }

  /** The leading files up to the first empty one. */
  function Data(contents: seq<Str>): (d: seq<Str>)
    ensures d <= contents && NonEmpty(d)
    ensures |d| < |contents| ==> contents[|d|] == []
  {
    if contents == [] || contents[0] == [] then [] else
      var rest := Data(contents[1..]);
      assert [contents[0]] + rest == contents[..1 + |rest|];
      [contents[0]] + rest
  }

  /** The entry an empty file leaves at position f, if there is one. */
  function EmptyEntry(present: bool, f: nat): seq<Part> {
    if present then [Part(Range(f, f), [])] else []
  }

  lemma {:induction false} TilesSnoc(data: seq<Str>, from: nat, d: Str)
    ensures Tiles(data + [d], from) == Tiles(data, from) + Tiles([d], from + |Concat(data)|)
  {
    if data == [] {
      assert [] + [d] == [d];
    } else {
      TilesSnoc(data[1..], from + |data[0]|, d);
      assert (data + [d])[1..] == data[1..] + [d] && (data + [d])[0] == data[0];
      var head, t := [Part(Range(from, from + |data[0]|), data[0])], Tiles(data[1..], from + |data[0]|);
      var last := Tiles([d], from + |Concat(data)|);
      assert head + (t + last) == (head + t) + last;
    }
  }

  lemma {:induction false} LowerAfterTiles(data: seq<Str>, from: nat, tail: seq<Part>, q: Range)
    requires NonEmpty(data) && q.min >= from + |Concat(data)|
    ensures LowerBound(Tiles(data, from) + tail, q) == |Tiles(data, from)| + LowerBound(tail, q)
  {
    if data == [] {
      assert Tiles(data, from) + tail == tail;
    } else {
      LowerAfterTiles(data[1..], from + |data[0]|, tail, q);
      TilesCons(data, from, tail);
    }
  }

  lemma EmplaceAtEnd(parts: seq<Part>, p: Part)
    requires LowerBound(parts, p.range) == |parts|
    ensures Emplace(parts, p) == parts + [p]
  {
  }

  /** Adding a file behind the tiles of the data so far. */
  lemma AddToTiles(d: seq<Str>, c: Str)
    requires NonEmpty(d)
    ensures AddPart(Tiles(d, 0), |Concat(d)|, c) ==
            if c == [] then Tiles(d, 0) + EmptyEntry(true, |Concat(d)|) else Tiles(d + [c], 0)
  {
    hide Emplace, LowerBound, Concat;
    var f := |Concat(d)|;
    var p := Part(Range(f, f + |c|), c);
    assert LowerBound([], p.range) == 0;
    assert Tiles(d, 0) + [] == Tiles(d, 0);
    LowerAfterTiles(d, 0, [], p.range);
    EmplaceAtEnd(Tiles(d, 0), p);
    TilesSnoc(d, 0, c);
    assert Tiles([c], f) == [p] + Tiles([], f + |c|) == [p];
  }

  /** Any file added where an empty entry already sits is refused. */
  lemma AddBehindEmpty(d: seq<Str>, c: Str)
    requires NonEmpty(d)
    ensures var f, parts := |Concat(d)|, Tiles(d, 0) + EmptyEntry(true, |Concat(d)|);
            AddPart(parts, f, c) == parts
  {
    var f := |Concat(d)|;
    LowerAfterTiles(d, 0, EmptyEntry(true, f), Range(f, f + |c|));
  }

  /** With data files first, the map holds the tiles of the data and at most one empty entry. */
  lemma {:induction false} BuildOfData(contents: seq<Str>)
    requires NoDataAfterEmpty(contents)
    ensures var d := Data(contents);
            Concat(contents) == Concat(d) &&
            Build(contents) == Tiles(d, 0) + EmptyEntry(|d| < |contents|, |Concat(d)|)
  {
    hide AddPart;
    if contents == [] {
      assert Tiles([], 0) + [] == [];
    } else {
      var n := |contents| - 1;
      var before, c := contents[..n], contents[n];
      assert contents == before + [c];
      assert NoDataAfterEmpty(before);
      BuildOfData(before);
      ConcatSnoc(before, c);
      DataSnoc(before, c);
      var d := Data(before);
      assert Tiles(d, 0) + [] == Tiles(d, 0) && Tiles(d + [c], 0) + [] == Tiles(d + [c], 0);
      assert Concat(before) + [] == Concat(before);
      if |d| == n {
        assert d == before;
        AddToTiles(d, c);
      } else {
        assert contents[|d|] == [] && c == [];
        AddBehindEmpty(d, c);
      }
    }
  }

  lemma {:induction false} DataSnoc(before: seq<Str>, c: Str)
    ensures Data(before + [c]) == if |Data(before)| == |before| && c != [] then before + [c] else Data(before)
  {
    if before == [] {
      assert [] + [c] == [c] && [c][1..] == [];
    } else if before[0] != [] {
      DataSnoc(before[1..], c);
      assert (before + [c])[1..] == before[1..] + [c] && (before + [c])[0] == before[0];
      assert before == [before[0]] + before[1..];
      assert before + [c] == [before[0]] + (before[1..] + [c]);
    }
  }

  /** Every in-range request reads its slice of the concatenation. */
  ghost predicate ReadsAsSlices(contents: seq<Str>) {
    forall o: nat, s: nat :: o + s <= |Concat(contents)| ==>
      ReadParts(Build(contents), o, s) == Ok(Concat(contents)[o..o + s])
  }

  lemma ReadNothing(parts: seq<Part>, o: nat)
    ensures ReadParts(parts, o, 0) == Ok([])
  {
  }

  lemma EmptyEntryFrom(present: bool, f: nat)
    ensures AllFrom(EmptyEntry(present, f), f)
  {
  }

  lemma DataFirstReads(contents: seq<Str>, o: nat, s: nat)
    requires NoDataAfterEmpty(contents) && o + s <= |Concat(contents)|
    ensures ReadParts(Build(contents), o, s) == Ok(Concat(contents)[o..o + s])
    ensures o < |Concat(contents)| ==> ReadByte(Build(contents), o) == Ok([Concat(contents)[o]])
  {
    hide *;
    BuildOfData(contents);
    var d := Data(contents);
    var tail := EmptyEntry(|d| < |contents|, |Concat(d)|);
    EmptyEntryFrom(|d| < |contents|, |Concat(d)|);
    if s > 0 { ReadTiles(d, 0, tail, o, s); } else { ReadNothing(Build(contents), o); }
    if o < |Concat(contents)| { ReadTileByte(d, 0, tail, o); }
  }

  /** The map once an empty file is followed by data: the empty entry hides the bytes at f. */
  ghost predicate Shadowed(parts: seq<Part>, data: seq<Str>, f: nat) {
    && f == |Concat(data)| && NonEmpty(data)
    && exists later: seq<Part> :: parts == ShadowedBy(data, f, later) && AllFrom(later, f + 1)
  }

  function ShadowedBy(data: seq<Str>, f: nat, later: seq<Part>): seq<Part> {
    Tiles(data, 0) + ([Part(Range(f, f), [])] + later)
  }

  lemma EmplaceBehind(front: seq<Part>, later: seq<Part>, p: Part)
    requires LowerBound(front + later, p.range) == |front| + LowerBound(later, p.range)
    ensures Emplace(front + later, p) == front + Emplace(later, p)
  {
  }

  lemma EmplaceFrom(later: seq<Part>, p: Part, m: nat)
    requires AllFrom(later, m) && p.range.min >= m
    ensures AllFrom(Emplace(later, p), m)
  {
  }

  /** Whatever is added behind f leaves the shadow in place. */
  lemma ShadowEmplace(parts: seq<Part>, data: seq<Str>, f: nat, p: Part)
    requires Shadowed(parts, data, f) && p.range.min > f
    ensures Shadowed(Emplace(parts, p), data, f)
  {
    hide Emplace, AllFrom, Tiles, NonEmpty, Concat;
    var shadow := Part(Range(f, f), []);
    var later :| parts == ShadowedBy(data, f, later) && AllFrom(later, f + 1);
    LowerAfterTiles(data, 0, [shadow] + later, p.range);
    assert ([shadow] + later)[1..] == later;
    EmplaceBehind([shadow], later, p);
    EmplaceBehind(Tiles(data, 0), [shadow] + later, p);
    EmplaceFrom(later, p, f + 1);
    assert Emplace(parts, p) == ShadowedBy(data, f, Emplace(later, p));
  }

  lemma BuildNext(contents: seq<Str>, n: nat)
    requires n < |contents|
    ensures var size := |Concat(contents[..n])|;
            Build(contents[..n + 1]) == Emplace(Build(contents[..n]), Part(Range(size, size + |contents[n]|), contents[n])) &&
            |Concat(contents[..n + 1])| == size + |contents[n]|
  {
    assert contents[..n + 1][..n] == contents[..n];
    ConcatPart(contents, n);
  }

  lemma {:induction false} ShadowStays(contents: seq<Str>, n: nat, data: seq<Str>, f: nat)
    requires n <= |contents| && Shadowed(Build(contents[..n]), data, f) && |Concat(contents[..n])| > f
    ensures Shadowed(Build(contents), data, f)
    decreases |contents| - n
  {
    hide *;
    if n == |contents| {
      assert contents[..n] == contents;
    } else {
      var size := |Concat(contents[..n])|;
      BuildNext(contents, n);
      ShadowEmplace(Build(contents[..n]), data, f, Part(Range(size, size + |contents[n]|), contents[n]));
      ShadowStays(contents, n + 1, data, f);
    }
  }

  /** A data file after an empty one is refused by `emplace`, and its first byte cannot be read. */
  lemma EmptyHidesData(contents: seq<Str>)
    requires !NoDataAfterEmpty(contents)
    ensures var f := |Concat(Data(contents))|;
            f < |Concat(contents)| && ReadParts(Build(contents), f, 1) == Failed
  {
    hide *;
    var j := FirstDataAfterEmpty(contents);
    var d := Data(contents[..j]);
    DataOfPrefix(contents, j);
    BytesGrow(contents, j);
    ShadowBegins(contents, j);
    ShadowStays(contents, j + 1, d, |Concat(d)|);
    ShadowedRead(Build(contents), d, |Concat(d)|);
  }

  lemma BytesGrow(contents: seq<Str>, j: nat)
    requires j < |contents| && contents[j] != []
    ensures |Concat(contents[..j])| < |Concat(contents[..j + 1])| <= |Concat(contents)|
  {
    ConcatPart(contents, j);
  }

  lemma BuildAdds(contents: seq<Str>, j: nat)
    requires j < |contents|
    ensures Build(contents[..j + 1]) == AddPart(Build(contents[..j]), |Concat(contents[..j])|, contents[j])
  {
    BuildNext(contents, j);
  }

  lemma ShadowBegins(contents: seq<Str>, j: nat)
    requires j < |contents| && NoDataAfterEmpty(contents[..j]) && |Data(contents[..j])| < j
    ensures var d := Data(contents[..j]);
            |Concat(d)| == |Concat(contents[..j])| && Shadowed(Build(contents[..j + 1]), d, |Concat(d)|)
  {
    hide NoDataAfterEmpty, Build, Concat, AddPart;
    var d := Data(contents[..j]);
    var f := |Concat(d)|;
    BuildOfData(contents[..j]);
    BuildAdds(contents, j);
    AddBehindEmpty(d, contents[j]);
    assert EmptyEntry(true, f) == [Part(Range(f, f), [])] + [];
    assert AllFrom([], f + 1);
    assert Build(contents[..j + 1]) == ShadowedBy(d, f, []);
  }

  lemma ShadowedRead(parts: seq<Part>, data: seq<Str>, f: nat)
    requires Shadowed(parts, data, f)
    ensures ReadParts(parts, f, 1) == Failed
  {
    var q, shadow := Range(f, f + 1), Part(Range(f, f), []);
    var later :| parts == ShadowedBy(data, f, later) && AllFrom(later, f + 1);
    var tail := [shadow] + later;
    assert tail[1..] == later;
    LowerAfterTiles(data, 0, tail, q);
    UpperAfterTiles(data, 0, tail, q);
    UpperIsZero(later, q);
    assert Locate(parts, f, 1) == [shadow];
    assert [shadow][1..] == [];
    assert ReadLoop([shadow], f, 1) == Failed;
  }

  lemma {:induction false} UpperAfterTiles(data: seq<Str>, from: nat, tail: seq<Part>, q: Range)
    requires q.min >= from + |Concat(data)|
    ensures UpperBound(Tiles(data, from) + tail, q) == |Tiles(data, from)| + UpperBound(tail, q)
  {
    if data == [] {
      assert Tiles(data, from) + tail == tail;
    } else {
      UpperAfterTiles(data[1..], from + |data[0]|, tail, q);
      TilesCons(data, from, tail);
    }
  }

  lemma EmptyBefore(contents: seq<Str>)
    requires contents != [] && !NoDataAfterEmpty(contents) && NoDataAfterEmpty(contents[..|contents| - 1])
    ensures contents[|contents| - 1] != [] && |Data(contents[..|contents| - 1])| < |contents| - 1
  {
    var n := |contents| - 1;
    forall i, j | 0 <= i < j < n && contents[j] != [] ensures contents[i] != [] {
      assert contents[..n][j] == contents[j] && contents[..n][i] == contents[i];
    }
    var i :| 0 <= i < n && contents[i] == [];
    assert contents[..n][i] == [];
  }

  /** The first data file that comes after an empty one. */
  ghost function FirstDataAfterEmpty(contents: seq<Str>): (j: nat)
    requires !NoDataAfterEmpty(contents)
    ensures j < |contents| && contents[j] != [] && NoDataAfterEmpty(contents[..j])
    ensures |Data(contents[..j])| < j
  {
    var n := |contents| - 1;
    if NoDataAfterEmpty(contents[..n]) then
      EmptyBefore(contents);
      n
    else
      var j := FirstDataAfterEmpty(contents[..n]);
      assert contents[..n][..j] == contents[..j];
      j
  }

  lemma {:induction false} DataOfPrefix(contents: seq<Str>, j: nat)
    requires j <= |contents| && |Data(contents[..j])| < j
    ensures Data(contents) == Data(contents[..j])
  {
    if contents[0] != [] {
      assert contents[..j][1..] == contents[1..][..j - 1];
      DataOfPrefix(contents[1..], j - 1);
    }
  }

  /** Multi-part reading equals slicing, for every in-range request, if and only if no file with data
      follows an empty one. */
  lemma MultiPartIsSlicing(contents: seq<Str>)
    ensures ReadsAsSlices(contents) <==> NoDataAfterEmpty(contents)
  {
    if NoDataAfterEmpty(contents) {
      forall o: nat, s: nat | o + s <= |Concat(contents)|
        ensures ReadParts(Build(contents), o, s) == Ok(Concat(contents)[o..o + s])
      {
        DataFirstReads(contents, o, s);
      }
    } else {
      EmptyHidesData(contents);
    }
  }

  /** Nested sub-readers compose: reading through any chain of them is still one slice. */
  lemma SubReaderIsSlice(contents: seq<Str>, r: MultiPartFileReader, o1: nat, s1: nat, o: nat, s: nat)
    requires NoDataAfterEmpty(contents) && r.source == Build(contents) && r.offset + r.size <= |Concat(contents)|
    requires o1 + s1 <= r.size && o + s <= s1
    ensures var sub := r.SubReader(o1, s1);
            var mine := Concat(contents)[r.offset..r.offset + r.size];
            ReadParts(sub.source, sub.offset + o, s) == Ok(mine[o1..o1 + s1][o..o + s])
  {
    hide ReadParts, Build, Concat, NoDataAfterEmpty;
    var all := Concat(contents);
    DataFirstReads(contents, r.offset + o1 + o, s);
    SliceOfSlice(all, r.offset, r.offset + r.size, o1, o1 + s1);
    SliceOfSlice(all, r.offset + o1, r.offset + o1 + s1, o, o + s);
  }
}
