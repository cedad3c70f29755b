/** The creator at work on a list of additions: its table, its MIME types and its clusters end up as
    `Additions` says (src/writer/creator.cpp: createDirent, addItemData, finishZimCreation). */
module CreatorRun {
  import opened Bytes
  import opened Sequences
  import opened ClusterFormat
  import opened Sorting
  import opened Additions
  import ArchiveFormat
  import DF = DirentFormat
  import DL = DirentLookup
  import IP = ItemPlacement
  import M = MimeTypes
  import PP = PostProcessing
  import TL = TitleListing
  import W = WriterCluster

  /** As the constructor of a dirent leaves it. */
  ghost predicate AsCreated(ds: seq<PP.Dirent>)
    reads ds`redirect, ds`removed, ds`idx
  {
    forall d :: d in ds ==> d.redirect == null && !d.removed && d.idx == 0
  }

  /** The codes given to the first k additions name their MIME types. */
  ghost predicate Coded(adds: seq<Add>, k: nat, names: seq<Str>)
    requires k <= |adds|
    reads Dirents(adds)`mimeType
  {
    forall j :: 0 <= j < k && adds[j].ItemAdd? ==> M.NamesIt(names, adds[j].d.mimeType, adds[j].mime)
  }

  lemma {:induction false} MimeNamesGrow(adds: seq<Add>, k: nat)
    requires k <= |adds|
    ensures |MimeNames(adds[..k])| <= |MimeNames(adds)|
  {
    if k < |adds| {
      MimeNamesGrow(adds[..|adds| - 1], k);
      assert adds[..|adds| - 1][..k] == adds[..k];
    } else {
      assert adds[..k] == adds;
    }
  }

  /** What one more addition means for each of the three. */
  lemma OneMore(adds: seq<Add>, k: nat, limit: nat)
    requires k < |adds|
    ensures Dirents(adds[..k + 1]) == Dirents(adds[..k]) + [adds[k].d]
    ensures PP.AddAll(Dirents(adds[..k + 1])) == PP.Added(PP.AddAll(Dirents(adds[..k])), adds[k].d)
    ensures var a, names := adds[k], MimeNames(adds[..k]);
            MimeNames(adds[..k + 1]) == if a.ItemAdd? && a.mime !in names then names + [a.mime] else names
    ensures var a, v := adds[k], IP.Run(Contents(adds[..k]), limit);
            IP.Run(Contents(adds[..k + 1]), limit) == if a.ItemAdd? then IP.AddView(v, a.content, a.compress, limit) else v
  {
    var front := adds[..k + 1];
    assert front[..k] == adds[..k] && front[|front| - 1] == adds[k];
    var ds := Dirents(front);
    assert ds[..k] == Dirents(adds[..k]);
    assert ds == Dirents(adds[..k]) + [adds[k].d];
    hide Dirents, PP.Added, IP.AddView;
    var cs, a := Contents(adds[..k]), adds[k];
    assert Contents(front) == cs + (if a.ItemAdd? then [(a.content, a.compress)] else []);
    hide Contents, MimeNames;
    if a.ItemAdd? {
      assert (cs + [(a.content, a.compress)])[..|cs|] == cs;
    } else {
      assert cs + [] == cs;
    }
  }

  function ProviderOf(content: Str): (p: W.Provider)
    ensures p.Valid() && p.Content() == content
  {
    assert Concat([content]) == content + Concat([content][1..]);
    W.Provider(if content == [] then [] else [content])
  }

  // ---------------------------------------------------------------- one addition

  /** The table holds what the first k additions leave in it. */
  ghost predicate TableHas(c: Creation, k: nat, data: PP.CreatorDirents)
    requires k <= |c.adds|
    reads data
  {
    data.Valid() && data.dirents == PP.AddAll(Dirents(c.adds[..k]))
  }

  ghost predicate MimesHave(c: Creation, k: nat, mimes: M.MimeTable)
    requires k <= |c.adds|
    reads mimes, Dirents(c.adds)`mimeType
  {
    && mimes.Valid() && mimes.mimeTypesList == []
    && mimes.Names() == MimeNames(c.adds[..k]) && Coded(c.adds, k, mimes.Names())
  }

  ghost predicate PlaceHas(c: Creation, k: nat, place: IP.CreatorData)
    requires k <= |c.adds|
    reads place, place.compCluster, place.uncompCluster, place.clustersList
  {
    && place.Valid() && place.limit == c.limit && place.compression == c.compression
    && place.view == IP.Run(Contents(c.adds[..k]), c.limit)
  }

  method AddToTable(c: Creation, k: nat, data: PP.CreatorDirents)
    requires k < |c.adds| && TableHas(c, k, data)
    modifies data`dirents, data`unresolvedRedirectDirents
    ensures TableHas(c, k + 1, data)
  {
    OneMore(c.adds, k, c.limit);
    hide PP.AddAll, PP.Added, Dirents;
    data.AddDirent(c.adds[k].d);
  }

  method GiveCode(c: Creation, k: nat, mimes: M.MimeTable)
    requires GoodCreation(c) && k < |c.adds| && c.adds[k].ItemAdd? && MimesHave(c, k, mimes)
    modifies c.adds[k].d`mimeType, mimes
    ensures MimesHave(c, k + 1, mimes)
  {
    hide *;
    BeforeCode(c, k, mimes);
    ghost var names := mimes.Names();
    assert forall d :: d in Dirents(c.adds) ==> d as object != mimes;
    var ok, code := mimes.GetMimeTypeIdx(c.adds[k].mime);
    assert names <= mimes.Names();
    SetCode(c, k, code, names, mimes.Names());
    AfterCode(c, k, mimes);
  }

  lemma BeforeCode(c: Creation, k: nat, mimes: M.MimeTable)
    requires GoodCreation(c) && k < |c.adds| && c.adds[k].ItemAdd? && MimesHave(c, k, mimes)
    ensures mimes.Valid() && mimes.mimeTypesList == [] && Coded(c.adds, k, mimes.Names())
    ensures |mimes.Names()| < M.MAX_MIME_IDX
    ensures var names := mimes.Names();
            MimeNames(c.adds[..k + 1]) == if c.adds[k].mime in names then names else names + [c.adds[k].mime]
    ensures forall j :: 0 <= j < k ==> c.adds[j].d != c.adds[k].d
  {
    MimeNamesGrow(c.adds, k);
    OneMore(c.adds, k, c.limit);
    AllApart(c, k);
    hide MimeNames, Contents, PP.AddAll, PP.Added, IP.Run, IP.AddView, Dirents, Distinct, GoodAdd, Coded;
    hide M.MimeTable.Valid, M.MimeTable.Names;
  }

  lemma AfterCode(c: Creation, k: nat, mimes: M.MimeTable)
    requires k < |c.adds| && mimes.Valid() && mimes.mimeTypesList == []
    requires mimes.Names() == MimeNames(c.adds[..k + 1]) && Coded(c.adds, k + 1, mimes.Names())
    ensures MimesHave(c, k + 1, mimes)
  {
    hide MimeNames, Coded;
    hide M.MimeTable.Valid, M.MimeTable.Names;
  }

  lemma AllApart(c: Creation, k: nat)
    requires GoodCreation(c) && k < |c.adds|
    ensures forall j :: 0 <= j < k ==> c.adds[j].d != c.adds[k].d
  {
    forall j | 0 <= j < k ensures c.adds[j].d != c.adds[k].d {
      assert Dirents(c.adds)[j] != Dirents(c.adds)[k];
    }
  }

  method SetCode(c: Creation, k: nat, code: nat, ghost names: seq<Str>, ghost more: seq<Str>)
    requires k < |c.adds| && c.adds[k].ItemAdd? && Coded(c.adds, k, names) && names <= more
    requires code < |more| && more[code] == c.adds[k].mime
    requires forall j :: 0 <= j < k ==> c.adds[j].d != c.adds[k].d
    modifies c.adds[k].d`mimeType
    ensures Coded(c.adds, k + 1, more)
  {
    c.adds[k].d.mimeType := code;
    forall j | 0 <= j < k && c.adds[j].ItemAdd? ensures M.NamesIt(more, c.adds[j].d.mimeType, c.adds[j].mime) {
      assert M.NamesIt(names, c.adds[j].d.mimeType, c.adds[j].mime);
    }
  }

  method PlaceData(c: Creation, k: nat, place: IP.CreatorData)
    requires k < |c.adds| && c.adds[k].ItemAdd? && PlaceHas(c, k, place)
    modifies place, place.compCluster, place.uncompCluster
    ensures PlaceHas(c, k + 1, place)
    ensures fresh(place.compCluster) || place.compCluster in old({place.compCluster, place.uncompCluster})
    ensures fresh(place.uncompCluster) || place.uncompCluster in old({place.compCluster, place.uncompCluster})
  {
    OneMore(c.adds, k, c.limit);
    hide IP.Run, IP.AddView, Contents, MimeNames, PP.AddAll, PP.Added, Dirents;
    hide IP.CreatorData.Valid;
    place.AddItemData(ProviderOf(c.adds[k].content), c.adds[k].compress);
  }

  /** A redirect has no data and no code to give. */
  lemma OnlyTheTable(c: Creation, k: nat, mimes: M.MimeTable, place: IP.CreatorData)
    requires k < |c.adds| && c.adds[k].RedirectAdd? && MimesHave(c, k, mimes) && PlaceHas(c, k, place)
    ensures MimesHave(c, k + 1, mimes) && PlaceHas(c, k + 1, place)
  {
    OneMore(c.adds, k, c.limit);
    hide IP.Run, IP.AddView, Contents, MimeNames, PP.AddAll, PP.Added, M.NamesIt;
    hide IP.CreatorData.Valid;
    hide M.MimeTable.Valid, M.MimeTable.Names;
  }

  /** `createDirent` or `createRedirectDirent`, and `addItemData`. */
  method AddOne(c: Creation, k: nat, data: PP.CreatorDirents, mimes: M.MimeTable, place: IP.CreatorData)
    requires GoodCreation(c) && k < |c.adds| && TableHas(c, k, data) && MimesHave(c, k, mimes) && PlaceHas(c, k, place)
    modifies c.adds[k].d`mimeType, data`dirents, data`unresolvedRedirectDirents, mimes, place, place.compCluster, place.uncompCluster
    ensures TableHas(c, k + 1, data)
    ensures MimesHave(c, k + 1, mimes)
    ensures PlaceHas(c, k + 1, place)
    ensures fresh(place.compCluster) || place.compCluster in old({place.compCluster, place.uncompCluster})
    ensures fresh(place.uncompCluster) || place.uncompCluster in old({place.compCluster, place.uncompCluster})
  {
    hide *;
    assert forall d :: d in Dirents(c.adds) ==> d as object !in {place, place.compCluster, place.uncompCluster, data};
    if c.adds[k].ItemAdd? {
      GiveCode(c, k, mimes);
      AddToTable(c, k, data);
      PlaceData(c, k, place);
    } else {
      OnlyTheTable(c, k, mimes, place);
      AddToTable(c, k, data);
    }
  }

  // ---------------------------------------------------------------- all of them

  method Start(c: Creation) returns (data: PP.CreatorDirents, mimes: M.MimeTable, place: IP.CreatorData)
    ensures fresh(data) && fresh(mimes) && fresh(place) && fresh(place.compCluster) && fresh(place.uncompCluster)
    ensures TableHas(c, 0, data) && MimesHave(c, 0, mimes) && PlaceHas(c, 0, place)
  {
    hide *;
    data := new PP.CreatorDirents();
    mimes := new M.MimeTable();
    place := new IP.CreatorData(c.compression, c.limit);
    NothingAdded(c, data, mimes, place);
  }

  /** The calls on the creator, up to `finishZimCreation`. */
  method AddAll(c: Creation) returns (data: PP.CreatorDirents, mimes: M.MimeTable, place: IP.CreatorData)
    requires GoodCreation(c)
    modifies Dirents(c.adds)`mimeType
    ensures fresh(data) && fresh(mimes) && fresh(place)
    ensures TableHas(c, |c.adds|, data) && data.mainPageDirent == c.main
    ensures MimesHave(c, |c.adds|, mimes) && PlaceHas(c, |c.adds|, place)
  {
    hide *;
    data, mimes, place := Start(c);
    for k := 0 to |c.adds|
      invariant fresh(data) && fresh(mimes) && fresh(place) && fresh(place.compCluster) && fresh(place.uncompCluster)
      invariant TableHas(c, k, data) && MimesHave(c, k, mimes) && PlaceHas(c, k, place)
    {
      assert c.adds[k].d == Dirents(c.adds)[k];
      AddOne(c, k, data, mimes, place);
    }
    SetMainPage(c, data);
  }

  method SetMainPage(c: Creation, data: PP.CreatorDirents)
    requires TableHas(c, |c.adds|, data)
    modifies data`mainPageDirent
    ensures TableHas(c, |c.adds|, data) && data.mainPageDirent == c.main
  {
    data.mainPageDirent := c.main;
  }

  lemma NothingAdded(c: Creation, data: PP.CreatorDirents, mimes: M.MimeTable, place: IP.CreatorData)
    requires data.Valid() && data.dirents == []
    requires mimes.Valid() && mimes.Names() == [] && mimes.mimeTypesList == []
    requires place.Valid() && place.view == IP.View([], [], [], [], []) && place.limit == c.limit && place.compression == c.compression
    ensures TableHas(c, 0, data) && MimesHave(c, 0, mimes) && PlaceHas(c, 0, place)
  {
    assert c.adds[..0] == [] && Dirents(c.adds[..0]) == [];
    hide IP.CreatorData.Valid;
    hide M.MimeTable.Valid, M.MimeTable.Names;
  }

  // ---------------------------------------------------------------- the end of `finishZimCreation`

  /** Every dirent has its entry's number, or still 0. */
  ghost predicate Numbered(c: Creation)
    reads Dirents(c.adds)`idx
  {
    forall d :: d in Dirents(c.adds) ==> d.idx == NumberOf(c, d)
  }

  /** Exactly the redirects that were removed are marked so. */
  ghost predicate Marked(c: Creation)
    reads Dirents(c.adds)`removed
  {
    forall d :: d in Dirents(c.adds) ==> (d.removed <==> Removed(c, d))
  }

  /** The redirects that stayed point at the dirent that was at their target. */
  ghost predicate Pointing(c: Creation)
    reads Dirents(c.adds)`redirect
  {
    forall d :: d in Dirents(c.adds) && d in Final(c) && d.isRedirect ==> d.redirect == PP.At(Table(c), d.target) && d.redirect != null
  }

  /** Each item that is an entry has the place of its own MIME type in the sorted list. */
  ghost predicate Recoded(c: Creation)
    reads Dirents(c.adds)`mimeType
  {
    forall k :: 0 <= k < |c.adds| && c.adds[k].ItemAdd? && c.adds[k].d in Final(c) ==>
      c.adds[k].d.mimeType == IndexIn(Mimes(c), c.adds[k].mime)
  }

  function MainLeft(c: Creation): PP.Dirent? {
    if c.main != null && c.main in Table(c) && c.main !in Final(c) then null else c.main
  }

  lemma IndexIsPlace(c: Creation, i: nat)
    requires i < |Final(c)|
    ensures NumberOf(c, Final(c)[i]) == i
  {
    FinalIs(c);
    PP.OnlyOne(Final(c), i);
    hide Final;
  }

  lemma AllNumbered(c: Creation)
    requires forall i :: 0 <= i < |Final(c)| ==> Final(c)[i].idx == i
    requires forall d :: d in Dirents(c.adds) && d !in Final(c) ==> d.idx == 0
    ensures Numbered(c)
  {
    hide Final;
    forall d | d in Dirents(c.adds) ensures d.idx == NumberOf(c, d) {
      if d in Final(c) {
        var i :| 0 <= i < |Final(c)| && Final(c)[i] == d;
        IndexIsPlace(c, i);
      }
    }
  }

  lemma AllPointing(c: Creation)
    requires PP.HalfResolved(Table(c), |Table(c)|)
    ensures Pointing(c)
  {
    hide Final, Table, PP.At, PP.Dead, PP.Kept;
    TableIs(c);
    forall d | d in Final(c) && d.isRedirect ensures d.redirect == PP.At(Table(c), d.target) && d.redirect != null {
      var i := StaysAt(c, d);
      assert PP.Resolved(Table(c), i, d.removed, d.redirect);
      PP.TargetStillThere(Table(c), i);
      StillAt(Table(c), i);
    }
  }

  lemma AllMarked(c: Creation)
    requires PP.HalfResolved(Table(c), |Table(c)|)
    requires forall d :: d in Dirents(c.adds) && d !in Table(c) ==> !d.removed
    ensures Marked(c)
  {
    hide Final, Table, PP.At, PP.Kept;
    TableIs(c);
    forall d | d in Table(c) ensures d.removed <==> d !in Final(c) {
      var i :| 0 <= i < |Table(c)| && Table(c)[i] == d;
      assert PP.Resolved(Table(c), i, d.removed, d.redirect);
      StaysIff(c, i);
    }
  }

  lemma StaysIff(c: Creation, i: nat)
    requires i < |Table(c)|
    ensures Table(c)[i] in Final(c) <==> !PP.Dead(Table(c), i)
  {
    TableIs(c);
    hide Table, PP.Dead, PP.Kept;
    PP.AliveIsKept(Table(c), i);
    if Table(c)[i] in Final(c) {
      var j := StaysAt(c, Table(c)[i]);
      PP.OnlyOne(Table(c), i);
    }
  }

  lemma StillAt(all: seq<PP.Dirent>, i: nat)
    requires i < |all| && PP.Has(PP.Left(all, i), all[i].target)
    ensures PP.At(PP.Left(all, i), all[i].target) != null
  {
    hide PP.Left;
  }

  lemma StaysAt(c: Creation, d: PP.Dirent) returns (i: nat)
    requires d in Final(c)
    ensures i < |Table(c)| && Table(c)[i] == d && !PP.Dead(Table(c), i)
  {
    var j :| 0 <= j < |Final(c)| && Final(c)[j] == d;
    i := PP.KeptIndex(Table(c), |Table(c)|, j);
  }

  lemma LostIffGone(c: Creation, d: PP.Dirent?)
    ensures PP.Lost(Table(c), |Table(c)|, d) <==> d != null && d in Table(c) && d !in Final(c)
  {
    var t := Table(c);
    TableIs(c);
    PP.KeptFrom(t, |t|);
    PP.DistinctDirents(t);
    hide Table, PP.Dead, PP.Kept, PP.Ordered;
  }

  /** `resolveRedirectIndexes` and `setEntryIndexes`. */
  method Settle(c: Creation, data: PP.CreatorDirents)
    requires GoodCreation(c) && AsCreated(Dirents(c.adds)) && TableHas(c, |c.adds|, data) && data.mainPageDirent == c.main
    modifies data`dirents, data`mainPageDirent
    modifies Dirents(c.adds)`redirect, Dirents(c.adds)`removed, Dirents(c.adds)`idx
    ensures data.dirents == Final(c) && data.mainPageDirent == MainLeft(c)
    ensures Numbered(c) && Pointing(c) && Marked(c)
  {
    hide *;
    WholeTable(c, data);
    TableIs(c);
    LostIffGone(c, c.main);
    AllCreated(c);
    assert forall i :: 0 <= i < |data.dirents| ==> data.dirents[i] in Dirents(c.adds);
    PP.SettleDirents(data);
    LeftIs(c, data.mainPageDirent);
    AllNumbered(c);
    AllPointing(c);
    AllMarked(c);
  }

  lemma LeftIs(c: Creation, main: PP.Dirent?)
    ensures Final(c) == PP.Kept(Table(c), |Table(c)|)
    ensures MainLeft(c) == if c.main != null && c.main in Table(c) && c.main !in Final(c) then null else c.main
  {
    hide Table, PP.Kept;
  }

  lemma WholeTable(c: Creation, data: PP.CreatorDirents)
    requires TableHas(c, |c.adds|, data)
    ensures data.Valid() && data.dirents == Table(c)
  {
    assert c.adds[..|c.adds|] == c.adds;
    hide PP.AddAll;
  }

  lemma AllCreated(c: Creation)
    requires AsCreated(Dirents(c.adds))
    ensures forall i :: 0 <= i < |Table(c)| ==> Table(c)[i].redirect == null && !Table(c)[i].removed
    ensures forall d :: d in Dirents(c.adds) ==> d.idx == 0 && !d.removed
  {
    TableIs(c);
    hide Table;
  }

  /** Strictly sorted, so that a name has one place. */
  lemma SortedDistinct(list: seq<Str>)
    requires M.StrictlySorted(list)
    ensures Distinct(list)
  {
    forall i, j | 0 <= i < j < |list| ensures list[i] != list[j] { LtIrrefl(list[i]); }
  }

  lemma FinalDistinct(c: Creation)
    ensures forall i, j :: 0 <= i < j < |Final(c)| ==> Final(c)[i] != Final(c)[j]
    ensures forall i :: 0 <= i < |Final(c)| ==> Final(c)[i] in Dirents(c.adds)
  {
    FinalIs(c);
    PP.DistinctDirents(Final(c));
    hide Final;
  }

  /** An item that is an entry: which addition it is of, and that it has been given a code. */
  lemma CodeGiven(c: Creation, names: seq<Str>, d: PP.Dirent) returns (k: nat)
    requires GoodCreation(c) && d in Dirents(c.adds) && Coded(c.adds, |c.adds|, names)
    ensures k < |c.adds| && c.adds[k].d == d && (d.isRedirect <==> c.adds[k].RedirectAdd?)
    ensures !d.isRedirect ==> d.mimeType < |names| && names[d.mimeType] == c.adds[k].mime
  {
    k := AddOf(c, d);
    PlaceOfAdd(c, k);
    hide GoodCreation, Dirents, GoodKey, M.GoodName;
  }

  /** `resolveMimeTypes`. */
  method Recode(c: Creation, data: PP.CreatorDirents, mimes: M.MimeTable)
    requires GoodCreation(c) && data.dirents == Final(c) && MimesHave(c, |c.adds|, mimes)
    modifies mimes`mimeTypesList, Final(c)`mimeType
    ensures mimes.mimeTypesList == Mimes(c) && Recoded(c)
  {
    hide *;
    WholeMimes(c, mimes);
    FinalDistinct(c);
    FinalCodes(c, mimes.Names());
    assert forall d :: d in data.dirents ==> d in Final(c);
    mimes.ResolveMimeTypes(data.dirents);
    MimesAre(c);
    SortedDistinct(mimes.mimeTypesList);
    AllRecoded(c);
  }

  lemma MimesAre(c: Creation)
    ensures Mimes(c) == Sort(MimeNames(c.adds), M.Itself)
  {
    hide Sort, MimeNames;
  }

  /** The MIME type that the item of this dirent was added with. */
  function MimeOf(c: Creation, d: PP.Dirent): Str {
    var k := IndexIn(Dirents(c.adds), d);
    if k < |c.adds| && c.adds[k].ItemAdd? then c.adds[k].mime else []
  }

  lemma FinalCodes(c: Creation, names: seq<Str>)
    requires GoodCreation(c) && Coded(c.adds, |c.adds|, names)
    ensures forall i :: 0 <= i < |Final(c)| && !Final(c)[i].isRedirect ==>
              Final(c)[i].mimeType < |names| && names[Final(c)[i].mimeType] == MimeOf(c, Final(c)[i])
  {
    FinalDistinct(c);
    hide Final, Coded, GoodCreation;
    forall i | 0 <= i < |Final(c)| && !Final(c)[i].isRedirect
      ensures Final(c)[i].mimeType < |names| && names[Final(c)[i].mimeType] == MimeOf(c, Final(c)[i])
    {
      var k := CodeGiven(c, names, Final(c)[i]);
      PlaceOfAdd(c, k);
    }
  }

  lemma AllRecoded(c: Creation)
    requires GoodCreation(c) && Distinct(Mimes(c))
    requires forall i :: 0 <= i < |Final(c)| && !Final(c)[i].isRedirect ==>
               M.NamesIt(Mimes(c), Final(c)[i].mimeType, MimeOf(c, Final(c)[i]))
    ensures Recoded(c)
  {
    hide Final, Mimes, GoodCreation, Dirents, GoodKey, M.GoodName;
    forall k | 0 <= k < |c.adds| && c.adds[k].ItemAdd? && c.adds[k].d in Final(c)
      ensures c.adds[k].d.mimeType == IndexIn(Mimes(c), c.adds[k].mime)
    {
      var d := c.adds[k].d;
      PlaceOfAdd(c, k);
      var i :| 0 <= i < |Final(c)| && Final(c)[i] == d;
      IndexInDistinct(Mimes(c), d.mimeType);
    }
  }

  lemma WholeMimes(c: Creation, mimes: M.MimeTable)
    requires MimesHave(c, |c.adds|, mimes)
    ensures mimes.Valid() && mimes.mimeTypesList == [] && mimes.Names() == MimeNames(c.adds)
    ensures Coded(c.adds, |c.adds|, mimes.Names())
  {
    assert c.adds[..|c.adds|] == c.adds;
    hide MimeNames, Coded;
  }

  // ---------------------------------------------------------------- what is left behind

  /** The dirent as the objects would have it written: with its own codes, the number of the dirent it
      points at, and the place of its cluster in the list. */
  function Emitted(adds: seq<Add>, place: IP.CreatorData, d: PP.Dirent): DF.WriterDirent
    reads d, d.redirect, place
  {
    var k := IndexIn(Dirents(adds), d);
    var n := if k < |adds| then ItemNo(adds, k) else 0;
    DF.WriterDirent(d.key.ns, d.key.url, d.title,
                    if d.isRedirect || n >= |place.dirents| then DF.Redirect(d.GetRedirectIndex())
                    else DF.Item(d.mimeType, IndexIn(place.clustersList, place.dirents[n].cluster), place.dirents[n].blob))
  }

  function PageNumber(main: PP.Dirent?): nat
    reads main
  {
    if main == null then NO_PAGE else main.idx
  }

  /** Each entry as it would be written. */
  ghost predicate EntriesLeft(c: Creation, place: IP.CreatorData)
    reads Dirents(c.adds), set d | d in Dirents(c.adds) && d.redirect != null :: d.redirect, place
  {
    forall d :: d in Dirents(c.adds) && d in Final(c) ==> Emitted(c.adds, place, d) == Settled(c, d)
  }

  ghost predicate ClustersLeft(p: ArchiveFormat.Plan, place: IP.CreatorData)
    reads place, place.clustersList
  {
    && |place.clustersList| == |p.clusters|
    && forall i :: 0 <= i < |p.clusters| ==>
         place.clustersList[i].blobs == p.clusters[i].blobs && place.clustersList[i].compression == p.clusters[i].compression
  }

  /** The n-th item's cluster and blob. */
  ghost predicate ItemLeft(place: IP.CreatorData, n: nat, cluster: nat, blob: nat)
    reads place
  {
    n < |place.dirents| && IndexIn(place.clustersList, place.dirents[n].cluster) == cluster && place.dirents[n].blob == blob
  }

  lemma ItemIsLeft(c: Creation, place: IP.CreatorData, n: nat)
    requires place.Valid() && place.view == Placed(c) && n < |Contents(c.adds)|
    ensures ItemLeft(place, n, ClusterNo(Placed(c), n), BlobNo(Placed(c), n))
  {
    var v := Placed(c);
    IP.EveryItemIsPlaced(Contents(c.adds), c.limit);
    hide IP.FinishView, IP.Run, IP.BlobCount, IP.BelowLimit, Contents, IP.NamesItsContent;
    assert place.PointsAt(place.dirents[n], v.items[n]);
    IndexInDistinct(place.clustersList, v.items[n].where.i);
  }

  lemma ClustersAreLeft(c: Creation, place: IP.CreatorData)
    requires place.Valid() && place.view == Placed(c) && place.compression == c.compression
    ensures ClustersLeft(PlanOf(c), place)
  {
    hide Placed, AllSettled, MainPage, Mimes, Contents;
  }

  /** An entry is written as the plan says. */
  lemma EntryIsLeft(c: Creation, place: IP.CreatorData, d: PP.Dirent)
    requires GoodCreation(c) && place.Valid() && place.view == Placed(c)
    requires Numbered(c) && Pointing(c) && Recoded(c)
    requires d in Final(c) && d in Dirents(c.adds)
    ensures Emitted(c.adds, place, d) == Settled(c, d)
  {
    var k := AddOf(c, d);
    PlaceOfAdd(c, k);
    hide Placed, Final, Table, PP.At, Contents, Mimes, Dirents, GoodCreation, GoodKey, M.GoodName, NumberOf, ClusterNo, BlobNo;
    if d.isRedirect {
      TargetNumbered(c, d);
    } else {
      ContentOf(c.adds, k);
      ItemIsLeft(c, place, ItemNo(c.adds, k));
      hide IP.CreatorData.Valid;
    }
  }

  lemma TargetNumbered(c: Creation, d: PP.Dirent)
    requires Numbered(c) && Pointing(c) && d in Final(c) && d in Dirents(c.adds) && d.isRedirect
    ensures d.GetRedirectIndex() == NumberOf(c, PP.At(Table(c), d.target))
  {
    var t := PP.At(Table(c), d.target);
    assert d.redirect == t;
    TableIs(c);
    AtInTable(Table(c), d.target);
    hide Final, Table, PP.At;
    assert t in Dirents(c.adds);
  }

  lemma AtInTable(s: seq<PP.Dirent>, key: DL.DirentKey)
    ensures PP.At(s, key) != null ==> PP.At(s, key) in s
  {
    hide PP.Place;
  }

  // ---------------------------------------------------------------- the title listing

  lemma {:induction false} AliveSurvive(c: Creation, ds: seq<PP.Dirent>)
    requires forall d :: d in ds ==> (d.removed <==> Removed(c, d))
    ensures TL.Alive(ds) == Survivors(c, ds)
  {
    hide Removed;
    if ds != [] { AliveSurvive(c, ds[1..]); }
  }

  lemma {:induction false} SurvivorsFrom(c: Creation, ds: seq<PP.Dirent>)
    ensures forall d :: d in Survivors(c, ds) ==> d in ds
  {
    hide Removed;
    if ds != [] { SurvivorsFrom(c, ds[1..]); }
  }

  /** What the sort leaves of the dirents handed over is a listing of the survivors among them. */
  lemma ListingFrom(c: Creation, handled: seq<PP.Dirent>, listing: seq<PP.Dirent>)
    requires Marked(c) && forall d :: d in handled ==> d in Dirents(c.adds)
    requires TL.IsListing(listing, TL.Alive(handled))
    ensures IsListing(c, handled, listing) && forall d :: d in listing ==> d in Dirents(c.adds)
  {
    var s := Survivors(c, handled);
    hide Removed, TL.Alive, Survivors, Sort, Dirents, SortedBy;
    AliveSurvive(c, handled);
    SurvivorsFrom(c, handled);
    forall d | d in listing ensures d in s { assert d in multiset(listing); }
  }

  lemma NumbersAre(c: Creation, ds: seq<PP.Dirent>)
    requires Numbered(c) && forall d :: d in ds ==> d in Dirents(c.adds)
    ensures EncodeOffsets(TL.Numbers(ds), 4) == ListingBytes(c, ds)
  {
    hide EncodeOffsets, Dirents, NumberOf;
    forall i | 0 <= i < |ds| ensures ds[i].idx == NumberOf(c, ds[i]) { assert ds[i] in ds; }
    assert TL.Numbers(ds) == NumbersOf(c, ds);
  }

  /** The handlers are given the dirents as they are created: the first every one of them, the second
      those with the hint. */
  method HandOver(c: Creation) returns (titles: TL.TitleListingHandler, fronts: TL.TitleListingHandler)
    ensures fresh(titles) && fresh(fronts) && titles != fronts
    ensures titles.dirents == Dirents(c.adds) && fronts.dirents == Fronts(c.adds)
  {
    titles := new TL.TitleListingHandler();
    fronts := new TL.TitleListingHandler();
    for k := 0 to |c.adds|
      invariant fresh(titles) && fresh(fronts) && titles != fronts
      invariant titles.dirents == Dirents(c.adds)[..k] && fronts.dirents == Fronts(c.adds[..k])
    {
      assert c.adds[..k + 1][..k] == c.adds[..k];
      titles.Handle(c.adds[k].d);
      if c.adds[k].front { fronts.Handle(c.adds[k].d); }
    }
    assert c.adds[..|c.adds|] == c.adds;
  }

  lemma {:induction false} FrontsFrom(adds: seq<Add>)
    ensures forall d :: d in Fronts(adds) ==> d in Dirents(adds)
  {
    if adds != [] {
      var n := |adds| - 1;
      FrontsFrom(adds[..n]);
      assert Dirents(adds)[..n] == Dirents(adds[..n]) && Dirents(adds)[n] == adds[n].d;
    }
  }

  /** `stop` and `getContentProvider`, once the entries are numbered. */
  method ListTitles(c: Creation, handled: seq<PP.Dirent>, handler: TL.TitleListingHandler) returns (bytes: Str)
    requires Numbered(c) && Marked(c) && handler.dirents == handled && forall d :: d in handled ==> d in Dirents(c.adds)
    modifies handler
    ensures IsListing(c, handled, handler.dirents) && bytes == ListingBytes(c, handler.dirents)
  {
    hide *;
    assert forall d :: d in Dirents(c.adds) ==> d as object != handler;
    handler.Stop();
    ListingFrom(c, handled, handler.dirents);
    bytes := Feed(c, handler.dirents);
  }

  method Feed(c: Creation, dirents: seq<PP.Dirent>) returns (bytes: Str)
    requires Numbered(c) && forall d :: d in dirents ==> d in Dirents(c.adds)
    ensures bytes == ListingBytes(c, dirents)
  {
    hide *;
    var provider := new TL.ListingProvider(dirents);
    assert forall d :: d in Dirents(c.adds) ==> d as object != provider;
    bytes := provider.FeedAll();
    NumbersAre(c, dirents);
  }

  /** A listing of these dirents and its bytes. */
  datatype Listed = Listed(listing: seq<PP.Dirent>, bytes: Str) {
    ghost predicate Of(c: Creation, handled: seq<PP.Dirent>) {
      IsListing(c, handled, listing) && bytes == ListingBytes(c, listing)
    }
  }

  /** Removing, numbering and the MIME types. */
  method FinishTables(c: Creation, data: PP.CreatorDirents, mimes: M.MimeTable)
    requires GoodCreation(c) && AsCreated(Dirents(c.adds)) && TableHas(c, |c.adds|, data) && data.mainPageDirent == c.main
    requires MimesHave(c, |c.adds|, mimes)
    modifies data`dirents, data`mainPageDirent, mimes`mimeTypesList, Dirents(c.adds)
    ensures data.dirents == Final(c) && data.mainPageDirent == MainLeft(c)
    ensures Numbered(c) && Pointing(c) && Recoded(c) && Marked(c)
    ensures mimes.mimeTypesList == Mimes(c)
  {
    hide *;
    Settle(c, data);
    FinalDistinct(c);
    Recode(c, data, mimes);
  }

  /** Both title listings. */
  method FinishListings(c: Creation, titles: TL.TitleListingHandler, fronts: TL.TitleListingHandler) returns (full: Listed, front: Listed)
    requires Numbered(c) && Marked(c) && titles != fronts
    requires titles.dirents == Dirents(c.adds) && fronts.dirents == Fronts(c.adds)
    modifies titles, fronts
    ensures full.Of(c, Dirents(c.adds)) && front.Of(c, Fronts(c.adds))
  {
    hide *;
    assert forall d :: d in Dirents(c.adds) ==> d as object !in {titles, fronts};
    FrontsFrom(c.adds);
    var bytes := ListTitles(c, Dirents(c.adds), titles);
    full := Listed(titles.dirents, bytes);
    bytes := ListTitles(c, Fronts(c.adds), fronts);
    front := Listed(fronts.dirents, bytes);
    ListedIs(c, full, Dirents(c.adds));
    ListedIs(c, front, Fronts(c.adds));
  }

  lemma ListedIs(c: Creation, l: Listed, handled: seq<PP.Dirent>)
    requires IsListing(c, handled, l.listing) && l.bytes == ListingBytes(c, l.listing)
    ensures l.Of(c, handled)
  {
    hide IsListing, ListingBytes;
  }

  /** The run of the creator: what its objects hold at the end is what `PlanOf` says will be written. */
  method Create(c: Creation) returns (data: PP.CreatorDirents, mimes: M.MimeTable, place: IP.CreatorData, full: Listed, front: Listed)
    requires GoodCreation(c) && AsCreated(Dirents(c.adds))
    modifies Dirents(c.adds)
    ensures data.dirents == Final(c) && EntriesLeft(c, place)
    ensures mimes.mimeTypesList == PlanOf(c).mimes
    ensures PageNumber(data.mainPageDirent) == PlanOf(c).mainPage
    ensures ClustersLeft(PlanOf(c), place)
    ensures ItemLeft(place, ItemNo(c.adds, c.titleAdd), PlanOf(c).titleCluster, PlanOf(c).titleBlob)
    ensures full.Of(c, Dirents(c.adds)) && front.Of(c, Fronts(c.adds))
  {
    hide *;
    data, mimes, place := AddAll(c);
    var titles, fronts := HandOver(c);
    FinishTables(c, data, mimes);
    full, front := FinishListings(c, titles, fronts);
    Close(c, place);
    forall d | d in Dirents(c.adds) && d in Final(c) ensures Emitted(c.adds, place, d) == Settled(c, d) {
      EntryIsLeft(c, place, d);
    }
    AllLeft(c, data, place);
  }

  method Close(c: Creation, place: IP.CreatorData)
    requires PlaceHas(c, |c.adds|, place)
    modifies place
    ensures place.Valid() && place.view == Placed(c) && place.compression == c.compression
  {
    assert c.adds[..|c.adds|] == c.adds;
    hide IP.CreatorData.Valid, IP.FinishView, IP.Run, Contents;
    place.CloseAll();
  }

  lemma AllLeft(c: Creation, data: PP.CreatorDirents, place: IP.CreatorData)
    requires GoodCreation(c) && Numbered(c) && data.mainPageDirent == MainLeft(c)
    requires place.Valid() && place.view == Placed(c) && place.compression == c.compression
    requires forall d :: d in Dirents(c.adds) && d in Final(c) ==> Emitted(c.adds, place, d) == Settled(c, d)
    ensures EntriesLeft(c, place) && PageNumber(data.mainPageDirent) == PlanOf(c).mainPage && Mimes(c) == PlanOf(c).mimes
    ensures ClustersLeft(PlanOf(c), place)
    ensures ItemLeft(place, ItemNo(c.adds, c.titleAdd), PlanOf(c).titleCluster, PlanOf(c).titleBlob)
  {
    ClustersAreLeft(c, place);
    ContentOf(c.adds, c.titleAdd);
    ItemIsLeft(c, place, ItemNo(c.adds, c.titleAdd));
    hide Placed, Final, Table, Contents, Mimes, Emitted, Settled, ClustersLeft, ItemLeft, NumberOf, GoodAdd;
    hide IP.CreatorData.Valid;
  }
}
