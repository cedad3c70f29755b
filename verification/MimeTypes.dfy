/** MIME types: numbered in the order they come, renumbered in sorted order at the end, written as
    C strings and read back (src/writer/creator.cpp, src/fileimpl.cpp). */
module MimeTypes {
  import opened Bytes
  import opened Sequences
  import opened Sorting
  import PP = PostProcessing

  const MAX_MIME_IDX: nat := 0xffff

  function Itself(s: Str): Str { s }

  class MimeTable {
    var mimeTypesMap: map<Str, nat>
    var rmimeTypesMap: map<nat, Str>
    var nextMimeIdx: nat
    var mimeTypesList: seq<Str>

    /** The two maps are each other's inverse, on the codes given so far. */
    ghost predicate Valid()
      reads `mimeTypesMap, `rmimeTypesMap, `nextMimeIdx
    {
      && nextMimeIdx <= MAX_MIME_IDX
      && (forall i :: 0 <= i < nextMimeIdx <==> i in rmimeTypesMap)
      && (forall i :: i in rmimeTypesMap ==> rmimeTypesMap[i] in mimeTypesMap && mimeTypesMap[rmimeTypesMap[i]] == i)
      && (forall m :: m in mimeTypesMap ==> mimeTypesMap[m] in rmimeTypesMap && rmimeTypesMap[mimeTypesMap[m]] == m)
    }

    /** The names, in the order of their codes. */
    function Names(): (names: seq<Str>)
      reads `mimeTypesMap, `rmimeTypesMap, `nextMimeIdx
      requires Valid()
      ensures |names| == nextMimeIdx && forall i :: 0 <= i < |names| ==> names[i] == rmimeTypesMap[i]
    {
      var names := rmimeTypesMap;
      seq(nextMimeIdx, i requires i in names => names[i])
    }

    constructor ()
      ensures Valid() && Names() == [] && mimeTypesList == []
    {
      mimeTypesMap, rmimeTypesMap, nextMimeIdx, mimeTypesList := map[], map[], 0, [];
    }

    /** A name keeps its code; a new one gets the next, as long as there is one. */
    method GetMimeTypeIdx(mimeType: Str) returns (ok: bool, idx: nat)
      requires Valid()
      modifies this
      ensures Valid() && mimeTypesList == old(mimeTypesList)
      ensures ok ==> idx < |Names()| && Names()[idx] == mimeType
      ensures mimeType in old(Names()) ==> ok && Names() == old(Names())
      ensures ok && mimeType !in old(Names()) ==> Names() == old(Names()) + [mimeType]
      ensures !ok <==> mimeType !in old(Names()) && |old(Names())| == MAX_MIME_IDX
      ensures !ok ==> Names() == old(Names())
    {
      ghost var names := Names();
      if mimeType in mimeTypesMap {
        assert names[mimeTypesMap[mimeType]] == mimeType;
        return true, mimeTypesMap[mimeType];
      }
      assert mimeType !in names;
      if nextMimeIdx >= MAX_MIME_IDX { return false, 0; }
      mimeTypesMap := mimeTypesMap[mimeType := nextMimeIdx];
      rmimeTypesMap := rmimeTypesMap[nextMimeIdx := mimeType];
      ok, idx := true, nextMimeIdx;
      nextMimeIdx := nextMimeIdx + 1;
      assert Names() == names + [mimeType];
    }

    lemma NamesDistinct()
      requires Valid()
      ensures forall i, j :: 0 <= i < j < |Names()| ==> Names()[i] != Names()[j]
    {
    }

    /** `resolveMimeTypes`: every item ends with the place of its own name in the sorted list, which
        holds each name once. */
    method ResolveMimeTypes(dirents: seq<PP.Dirent>)
      requires Valid() && mimeTypesList == []
      requires forall i, j :: 0 <= i < j < |dirents| ==> dirents[i] != dirents[j]
      requires forall i :: 0 <= i < |dirents| && !dirents[i].isRedirect ==> dirents[i].mimeType < |Names()|
      modifies this`mimeTypesList, dirents`mimeType
      ensures Valid() && Names() == old(Names())
      ensures mimeTypesList == Sort(Names(), Itself)
      ensures multiset(mimeTypesList) == multiset(Names()) && StrictlySorted(mimeTypesList)
      ensures forall i :: 0 <= i < |dirents| && !dirents[i].isRedirect ==>
                NamesIt(mimeTypesList, dirents[i].mimeType, Names()[old(dirents[i].mimeType)])
      ensures forall i :: 0 <= i < |dirents| && dirents[i].isRedirect ==> dirents[i].mimeType == old(dirents[i].mimeType)
    {
      hide StrictlySorted, Sort, NamesIt;
      hide MimeTable.Valid, MimeTable.Names;
      var sorted, mapping := SortNames();
      Renumber(dirents, mapping);
      mimeTypesList := sorted;
    }

    /** The sorted list, and where each code goes in it. */
    method SortNames() returns (sorted: seq<Str>, mapping: seq<nat>)
      requires Valid()
      ensures sorted == Sort(Names(), Itself) && multiset(sorted) == multiset(Names()) && StrictlySorted(sorted)
      ensures |mapping| == |Names()|
      ensures forall i :: 0 <= i < |mapping| ==> NamesIt(sorted, mapping[i], Names()[i])
    {
      NamesDistinct();
      var oldMimeList := Names();
      sorted := Sort(oldMimeList, Itself);
      SortSorts(oldMimeList, Itself);
      SortedOnce(oldMimeList, sorted);
      mapping := MapMimes(oldMimeList, sorted);
    }
  }

  /** The code is the place of that name in the list. */
  predicate NamesIt(list: seq<Str>, code: nat, name: Str) {
    code < |list| && list[code] == name
  }

  method Renumber(dirents: seq<PP.Dirent>, mapping: seq<nat>)
    requires forall i, j :: 0 <= i < j < |dirents| ==> dirents[i] != dirents[j]
    requires forall i :: 0 <= i < |dirents| && !dirents[i].isRedirect ==> dirents[i].mimeType < |mapping|
    modifies dirents`mimeType
    ensures forall i :: 0 <= i < |dirents| && !dirents[i].isRedirect ==> dirents[i].mimeType == mapping[old(dirents[i].mimeType)]
    ensures forall i :: 0 <= i < |dirents| && dirents[i].isRedirect ==> dirents[i].mimeType == old(dirents[i].mimeType)
  {
    for k := 0 to |dirents|
      invariant forall i :: k <= i < |dirents| ==> dirents[i].mimeType == old(dirents[i].mimeType)
      invariant forall i :: 0 <= i < k && !dirents[i].isRedirect ==> dirents[i].mimeType == mapping[old(dirents[i].mimeType)]
      invariant forall i :: 0 <= i < k && dirents[i].isRedirect ==> dirents[i].mimeType == old(dirents[i].mimeType)
    {
      if !dirents[k].isRedirect {
        dirents[k].mimeType := mapping[dirents[k].mimeType];
      }
    }
  }

  ghost predicate StrictlySorted(s: seq<Str>) {
    forall i, j :: 0 <= i < j < |s| ==> Lt(s[i], s[j])
  }

  lemma SortedOnce(names: seq<Str>, list: seq<Str>)
    requires Distinct(names) && multiset(list) == multiset(names) && SortedBy(list, Itself)
    ensures StrictlySorted(list)
    ensures forall i :: 0 <= i < |names| ==> names[i] in list
  {
    PermutationOfDistinct(names, list);
    forall i, j | 0 <= i < j < |list| ensures Lt(list[i], list[j]) {
      assert Leq(Itself(list[i]), Itself(list[j]));
      LtIsLeq(list[i], list[j]);
    }
  }

  /** The double loop: for each old code, the last place where the sorted list has the same name. */
  method MapMimes(oldMimeList: seq<Str>, mimeTypesList: seq<Str>) returns (mapping: seq<nat>)
    requires forall i :: 0 <= i < |oldMimeList| ==> oldMimeList[i] in mimeTypesList
    ensures |mapping| == |oldMimeList|
    ensures forall i :: 0 <= i < |mapping| ==> NamesIt(mimeTypesList, mapping[i], oldMimeList[i])
  {
    mapping := seq(|oldMimeList|, _ => 0);
    for i := 0 to |oldMimeList|
      invariant |mapping| == |oldMimeList|
      invariant forall k :: 0 <= k < i ==> NamesIt(mimeTypesList, mapping[k], oldMimeList[k])
    {
      for j := 0 to |mimeTypesList|
        invariant |mapping| == |oldMimeList|
        invariant forall k :: 0 <= k < i ==> NamesIt(mimeTypesList, mapping[k], oldMimeList[k])
        invariant oldMimeList[i] in mimeTypesList[..j] ==> NamesIt(mimeTypesList, mapping[i], oldMimeList[i])
      {
        assert mimeTypesList[..j + 1] == mimeTypesList[..j] + [mimeTypesList[j]];
        if oldMimeList[i] == mimeTypesList[j] { mapping := mapping[i := j]; }
      }
      assert mimeTypesList[..|mimeTypesList|] == mimeTypesList;
    }
  }

  // ---------------------------------------------------------------- the list in the file

  function MimeListBytes(list: seq<Str>): Str {
    if list == [] then [0] else list[0] + [0] + MimeListBytes(list[1..])
  }

  datatype Mimes = Mimes(list: seq<Str>) | Refused

  /** `readMimeTypes`: strings up to the first empty one; running off the buffer is refused. */
  function ReadMimeList(buffer: Str): Mimes
    decreases |buffer|
  {
    if buffer == [] then Refused
    else if buffer[0] == 0 then Mimes([])
    else
      var n := StrLen(buffer);
      if n >= |buffer| then Refused
      else match ReadMimeList(buffer[n + 1..])
        case Mimes(rest) => Mimes([buffer[..n]] + rest)
        case Refused => Refused
  }

  method ReadMimeTypes(buffer: Str) returns (r: Mimes)
    ensures r == ReadMimeList(buffer)
  {
    var p, mimeTypes := 0, [];
    while p < |buffer| && buffer[p] != 0
      invariant 0 <= p <= |buffer|
      invariant ReadMimeList(buffer) == match ReadMimeList(buffer[p..])
                                        case Mimes(rest) => Mimes(mimeTypes + rest)
                                        case Refused => Refused
      decreases |buffer| - p
    {
      var zp := p + StrLen(buffer[p..]);
      if zp >= |buffer| { return Refused; }
      assert buffer[p..][..zp - p] == buffer[p..zp] && buffer[p..][zp - p + 1..] == buffer[zp + 1..];
      assert forall rest: seq<Str> :: mimeTypes + ([buffer[p..zp]] + rest) == (mimeTypes + [buffer[p..zp]]) + rest;
      mimeTypes := mimeTypes + [buffer[p..zp]];
      p := zp + 1;
    }
    if p >= |buffer| { return Refused; }
    r := Mimes(mimeTypes);
  }

  predicate GoodName(m: Str) {
    m != [] && NoNul(m)
  }

  predicate GoodNames(list: seq<Str>) {
    forall m :: m in list ==> GoodName(m)
  }

  lemma {:induction false} ReadNames(buffer: Str)
    ensures match ReadMimeList(buffer) case Mimes(list) => GoodNames(list) case Refused => true
    decreases |buffer|
  {
    if buffer != [] && buffer[0] != 0 {
      var n := StrLen(buffer);
      if n < |buffer| {
        assert n >= 1 && GoodName(buffer[..n]);
        ReadNames(buffer[n + 1..]);
      }
    }
  }

  lemma {:induction false} ReadWritten(list: seq<Str>, tail: Str)
    requires GoodNames(list)
    ensures ReadMimeList(MimeListBytes(list) + tail) == Mimes(list)
  {
    if list != [] {
      var m, rest := list[0], MimeListBytes(list[1..]) + tail;
      assert m in list && GoodNames(list[1..]);
      assert MimeListBytes(list) + tail == m + ([0] + rest);
      ReadWritten(list[1..], tail);
      assert [m] + list[1..] == list;
      hide MimeListBytes, GoodNames;
      FirstName(m, rest);
    }
  }

  lemma FirstName(m: Str, rest: Str)
    requires GoodName(m)
    ensures ReadMimeList(m + ([0] + rest)) == match ReadMimeList(rest)
                                               case Mimes(names) => Mimes([m] + names)
                                               case Refused => Refused
  {
    var buffer := m + ([0] + rest);
    assert buffer[..|m|] == m && buffer[|m| + 1..] == rest && buffer[0] == m[0];
    StrLenUnique(buffer, |m|);
    hide StrLen, NoNul;
  }

  /** The list in the file reads back, whatever follows it, exactly when no name is empty or has a
      NUL in it. */
  lemma ReadWrittenIff(list: seq<Str>, tail: Str)
    ensures ReadMimeList(MimeListBytes(list) + tail) == Mimes(list) <==> GoodNames(list)
  {
    ReadNames(MimeListBytes(list) + tail);
    if GoodNames(list) { ReadWritten(list, tail); }
  }
}
