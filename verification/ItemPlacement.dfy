/** Which cluster and blob an item's content goes to (src/writer/creator.cpp: addItemData, closeCluster;
    src/writer/_dirent.h: setCluster).

    Two clusters fill at once, a compressed one and an uncompressed one; whichever fills up is listed
    first. A dirent remembers its cluster, whose number is known once it is listed, and its blob. */
module ItemPlacement {
  import opened Bytes
  import opened ClusterFormat
  import opened WriterCluster

  // ---------------------------------------------------------------- the contents of the clusters

  datatype Where = Listed(i: nat) | Open(compressed: bool)

  /** An item that was added: where its dirent points, and what it was added with. */
  datatype Item = Item(where: Where, blob: nat, content: Str, compressed: bool)

  /** The blobs of the listed clusters and of the two open ones, and the items in the order added.
      `kinds[i]` says whether listed cluster i is a compressed one. */
  datatype View = View(listed: seq<seq<Str>>, kinds: seq<bool>, comp: seq<Str>, uncomp: seq<Str>, items: seq<Item>) {
    function OpenOne(compressed: bool): seq<Str> {
      if compressed then comp else uncomp
    }

    function BlobsAt(w: Where): seq<Str>
      requires w.Listed? ==> w.i < |listed|
    {
      match w case Listed(i) => listed[i] case Open(c) => OpenOne(c)
    }
  }

  function Moved(item: Item, compressed: bool, i: nat): Item {
    if item.where == Open(compressed) then item.(where := Listed(i)) else item
  }

  function CloseView(v: View, compressed: bool): View {
    View(v.listed + [v.OpenOne(compressed)], v.kinds + [compressed],
         if compressed then [] else v.comp,
         if compressed then v.uncomp else [],
         seq(|v.items|, k requires 0 <= k < |v.items| => Moved(v.items[k], compressed, |v.listed|)))
  }

  /** The cluster's size as the creator measures it. */
  function SizeOf(blobs: seq<Str>): nat {
    Delta(|blobs|, Width(NeedsExtension(blobs))) + |Concat(blobs)|
  }

  function AppendView(v: View, content: Str, compressed: bool): View {
    var item := Item(Open(compressed), |v.OpenOne(compressed)|, content, compressed);
    if compressed then v.(comp := v.comp + [content], items := v.items + [item])
    else v.(uncomp := v.uncomp + [content], items := v.items + [item])
  }

  predicate Full(blobs: seq<Str>, content: Str, limit: nat) {
    blobs != [] && SizeOf(blobs) + |content| >= limit
  }

  function AddView(v: View, content: Str, compressed: bool, limit: nat): View {
    AppendView(if Full(v.OpenOne(compressed), content, limit) then CloseView(v, compressed) else v, content, compressed)
  }

  function FinishView(v: View): View {
    var w := if v.comp != [] then CloseView(v, true) else v;
    if w.uncomp != [] then CloseView(w, false) else w
  }

  // ---------------------------------------------------------------- what every add keeps

  predicate InRange(v: View, item: Item) {
    && (item.where.Listed? ==>
          item.where.i < |v.listed| && item.where.i < |v.kinds| && v.kinds[item.where.i] == item.compressed)
    && (item.where.Open? ==> item.where.compressed == item.compressed)
    && item.blob < |v.BlobsAt(item.where)|
  }

  /** The item's cluster and blob numbers name its own content, in a cluster of the kind it asked for. */
  predicate NamesItsContent(v: View, item: Item) {
    InRange(v, item) && v.BlobsAt(item.where)[item.blob] == item.content
  }

  /** A cluster of two or more blobs is below the limit, its offset table counted. */
  predicate BelowLimit(blobs: seq<Str>, limit: nat) {
    |blobs| >= 2 ==> |Concat(blobs)| + 4 * |blobs| < limit
  }

  function BlobCount(listed: seq<seq<Str>>): nat {
    if listed == [] then 0 else BlobCount(listed[..|listed| - 1]) + |listed[|listed| - 1]|
  }

  ghost predicate Good(v: View, limit: nat) {
    && (forall k :: 0 <= k < |v.items| ==> NamesItsContent(v, v.items[k]))
    && (forall j, k :: 0 <= j < k < |v.items| ==>
          (v.items[j].where, v.items[j].blob) != (v.items[k].where, v.items[k].blob))
    && (forall i :: 0 <= i < |v.listed| ==> v.listed[i] != [] && BelowLimit(v.listed[i], limit))
    && BelowLimit(v.comp, limit) && BelowLimit(v.uncomp, limit)
    && |v.items| == BlobCount(v.listed) + |v.comp| + |v.uncomp|
    && |v.kinds| == |v.listed|
  }

  lemma CloseKeeps(v: View, compressed: bool, limit: nat)
    requires Good(v, limit) && v.OpenOne(compressed) != []
    ensures Good(CloseView(v, compressed), limit)
  {
    var w := CloseView(v, compressed);
    assert BelowLimit([], limit);
    assert w.listed[..|v.listed|] == v.listed;
    assert BlobCount(w.listed) == BlobCount(v.listed) + |v.OpenOne(compressed)|;
    hide BelowLimit, BlobCount, NamesItsContent;
    forall k | 0 <= k < |w.items| ensures NamesItsContent(w, w.items[k]) {
      MovedNames(v, compressed, k);
    }
    forall j, k | 0 <= j < k < |w.items|
      ensures (w.items[j].where, w.items[j].blob) != (w.items[k].where, w.items[k].blob)
    {
      assert (v.items[j].where, v.items[j].blob) != (v.items[k].where, v.items[k].blob);
      MovedApart(v, compressed, j, k);
    }
  }

  lemma MovedNames(v: View, compressed: bool, k: nat)
    requires k < |v.items| && NamesItsContent(v, v.items[k]) && |v.kinds| == |v.listed|
    ensures NamesItsContent(CloseView(v, compressed), CloseView(v, compressed).items[k])
  {
  }

  lemma MovedApart(v: View, compressed: bool, j: nat, k: nat)
    requires j < k < |v.items| && NamesItsContent(v, v.items[j]) && NamesItsContent(v, v.items[k])
    requires (v.items[j].where, v.items[j].blob) != (v.items[k].where, v.items[k].blob)
    ensures var w := CloseView(v, compressed);
            (w.items[j].where, w.items[j].blob) != (w.items[k].where, w.items[k].blob)
  {
  }

  lemma AppendKeeps(v: View, content: Str, compressed: bool, limit: nat)
    requires Good(v, limit) && !Full(v.OpenOne(compressed), content, limit)
    ensures Good(AppendView(v, content, compressed), limit)
  {
    var w := AppendView(v, content, compressed);
    StillBelow(v.OpenOne(compressed), content, limit);
    hide BelowLimit, Full, BlobCount;
    forall k | 0 <= k < |w.items| ensures NamesItsContent(w, w.items[k]) {
      if k < |v.items| { assert NamesItsContent(v, v.items[k]); }
    }
    forall j, k | 0 <= j < k < |w.items|
      ensures (w.items[j].where, w.items[j].blob) != (w.items[k].where, w.items[k].blob)
    {
      assert NamesItsContent(v, v.items[j]);
    }
  }

  lemma StillBelow(blobs: seq<Str>, content: Str, limit: nat)
    requires !Full(blobs, content, limit)
    ensures BelowLimit(blobs + [content], limit)
  {
    ConcatSnoc(blobs, content);
    if blobs != [] {
      var w := Width(NeedsExtension(blobs));
      assert Delta(|blobs|, w) >= 4 * (|blobs| + 1);
    }
  }

  lemma AddKeeps(v: View, content: Str, compressed: bool, limit: nat)
    requires Good(v, limit)
    ensures Good(AddView(v, content, compressed, limit), limit)
  {
    hide Good, Full, AppendView;
    var open := v.OpenOne(compressed);
    if Full(open, content, limit) {
      FullIsNotEmpty(open, content, limit);
      CloseKeeps(v, compressed, limit);
      FullIsNotEmpty([], content, limit);
      assert CloseView(v, compressed).OpenOne(compressed) == [];
      AppendKeeps(CloseView(v, compressed), content, compressed, limit);
    } else {
      AppendKeeps(v, content, compressed, limit);
    }
  }

  lemma FullIsNotEmpty(blobs: seq<Str>, content: Str, limit: nat)
    ensures Full(blobs, content, limit) ==> blobs != []
  {
  }

  lemma FinishKeeps(v: View, limit: nat)
    requires Good(v, limit)
    ensures Good(FinishView(v), limit) && FinishView(v).comp == [] == FinishView(v).uncomp
  {
    hide Good;
    var w := if v.comp != [] then CloseView(v, true) else v;
    if v.comp != [] { CloseKeeps(v, true, limit); }
    if w.uncomp != [] { CloseKeeps(w, false, limit); }
  }

  /** The additions of a run: each item's content and whether it goes to the compressed cluster. */
  function Run(adds: seq<(Str, bool)>, limit: nat): View {
    if adds == [] then View([], [], [], [], [])
    else
      var n := |adds| - 1;
      AddView(Run(adds[..n], limit), adds[n].0, adds[n].1, limit)
  }

  /** The items are the additions, in order. */
  ghost predicate Records(v: View, adds: seq<(Str, bool)>) {
    |v.items| == |adds| && forall k :: 0 <= k < |adds| ==> v.items[k].content == adds[k].0 && v.items[k].compressed == adds[k].1
  }

  lemma {:induction false} RunIsGood(adds: seq<(Str, bool)>, limit: nat)
    ensures Good(Run(adds, limit), limit) && Records(Run(adds, limit), adds)
  {
    if adds != [] {
      var n := |adds| - 1;
      RunIsGood(adds[..n], limit);
      AddKeeps(Run(adds[..n], limit), adds[n].0, adds[n].1, limit);
      AddRecords(Run(adds[..n], limit), adds, limit);
      hide Good, AddView, Records;
    }
  }

  lemma AddRecords(v: View, adds: seq<(Str, bool)>, limit: nat)
    requires adds != [] && Records(v, adds[..|adds| - 1])
    ensures Records(AddView(v, adds[|adds| - 1].0, adds[|adds| - 1].1, limit), adds)
  {
    hide Full;
  }

  lemma FinishRecords(v: View, adds: seq<(Str, bool)>)
    requires Records(v, adds)
    ensures Records(FinishView(v), adds)
  {
  }

  // ---------------------------------------------------------------- every blob is some item's

  ghost predicate Named(v: View, w: Where, b: nat) {
    exists k :: 0 <= k < |v.items| && v.items[k].where == w && v.items[k].blob == b
  }

  ghost predicate AllNamed(v: View) {
    && (forall i, b: nat :: 0 <= i < |v.listed| && b < |v.listed[i]| ==> Named(v, Listed(i), b))
    && (forall c, b: nat :: b < |v.OpenOne(c)| ==> Named(v, Open(c), b))
  }

  lemma CloseKeepsNames(v: View, compressed: bool)
    requires AllNamed(v) && forall k :: 0 <= k < |v.items| && v.items[k].where.Listed? ==> v.items[k].where.i < |v.listed|
    ensures AllNamed(CloseView(v, compressed))
  {
    var w := CloseView(v, compressed);
    forall i, b: nat | 0 <= i < |w.listed| && b < |w.listed[i]| ensures Named(w, Listed(i), b) {
      if i < |v.listed| {
        assert Named(v, Listed(i), b);
        var k :| 0 <= k < |v.items| && v.items[k].where == Listed(i) && v.items[k].blob == b;
        assert w.items[k].where == Listed(i) && w.items[k].blob == b;
      } else {
        assert Named(v, Open(compressed), b);
        var k :| 0 <= k < |v.items| && v.items[k].where == Open(compressed) && v.items[k].blob == b;
        assert w.items[k].where == Listed(i) && w.items[k].blob == b;
      }
    }
    forall c, b: nat | b < |w.OpenOne(c)| ensures Named(w, Open(c), b) {
      assert Named(v, Open(c), b);
      var k :| 0 <= k < |v.items| && v.items[k].where == Open(c) && v.items[k].blob == b;
      assert w.items[k].where == Open(c) && w.items[k].blob == b;
    }
  }

  lemma AppendKeepsNames(v: View, content: Str, compressed: bool)
    requires AllNamed(v)
    ensures AllNamed(AppendView(v, content, compressed))
  {
    var w := AppendView(v, content, compressed);
    forall i, b: nat | 0 <= i < |w.listed| && b < |w.listed[i]| ensures Named(w, Listed(i), b) {
      assert Named(v, Listed(i), b);
      var k :| 0 <= k < |v.items| && v.items[k].where == Listed(i) && v.items[k].blob == b;
      assert w.items[k] == v.items[k];
    }
    forall c, b: nat | b < |w.OpenOne(c)| ensures Named(w, Open(c), b) {
      if b < |v.OpenOne(c)| {
        assert Named(v, Open(c), b);
        var k :| 0 <= k < |v.items| && v.items[k].where == Open(c) && v.items[k].blob == b;
        assert w.items[k] == v.items[k];
      } else {
        assert w.items[|v.items|].where == Open(c) && w.items[|v.items|].blob == b;
      }
    }
  }

  lemma WheresInRange(v: View, limit: nat)
    requires Good(v, limit)
    ensures forall k :: 0 <= k < |v.items| && v.items[k].where.Listed? ==> v.items[k].where.i < |v.listed|
  {
    forall k | 0 <= k < |v.items| && v.items[k].where.Listed? ensures v.items[k].where.i < |v.listed| {
      assert NamesItsContent(v, v.items[k]);
    }
  }

  lemma {:induction false} RunNames(adds: seq<(Str, bool)>, limit: nat)
    ensures AllNamed(Run(adds, limit))
  {
    if adds != [] {
      var n := |adds| - 1;
      var v := Run(adds[..n], limit);
      RunNames(adds[..n], limit);
      RunIsGood(adds[..n], limit);
      WheresInRange(v, limit);
      hide Good, Records, Full, AllNamed;
      CloseKeepsNames(v, adds[n].1);
      AppendKeepsNames(v, adds[n].0, adds[n].1);
      AppendKeepsNames(CloseView(v, adds[n].1), adds[n].0, adds[n].1);
    }
  }

  lemma FinishNames(v: View, limit: nat)
    requires Good(v, limit) && AllNamed(v)
    ensures AllNamed(FinishView(v))
  {
    hide Good, AllNamed;
    var w := if v.comp != [] then CloseView(v, true) else v;
    WheresInRange(v, limit);
    CloseKeepsNames(v, true);
    if v.comp != [] { CloseKeeps(v, true, limit); }
    WheresInRange(w, limit);
    CloseKeepsNames(w, false);
  }

  /** Every blob of a listed cluster is the content of some item. */
  lemma EveryBlobIsAnItem(adds: seq<(Str, bool)>, limit: nat, i: nat, b: nat)
    requires var v := FinishView(Run(adds, limit)); i < |v.listed| && b < |v.listed[i]|
    ensures exists k :: 0 <= k < |adds| && FinishView(Run(adds, limit)).listed[i][b] == adds[k].0
  {
    var v := FinishView(Run(adds, limit));
    RunNames(adds, limit);
    RunIsGood(adds, limit);
    FinishNames(Run(adds, limit), limit);
    FinishKeeps(Run(adds, limit), limit);
    FinishRecords(Run(adds, limit), adds);
    hide FinishView, Run, BlobCount, BelowLimit;
    assert Named(v, Listed(i), b);
    var k :| 0 <= k < |v.items| && v.items[k].where == Listed(i) && v.items[k].blob == b;
    assert NamesItsContent(v, v.items[k]);
    assert v.listed[i][b] == adds[k].0;
  }

  lemma {:induction false} CountAtLeast(listed: seq<seq<Str>>)
    requires forall i :: 0 <= i < |listed| ==> listed[i] != []
    ensures |listed| <= BlobCount(listed)
  {
    if listed != [] { CountAtLeast(listed[..|listed| - 1]); }
  }

  /** Over any run of additions, whichever cluster each goes to: when both clusters have been closed,
      every item has a cluster number and a blob number of its own, they name exactly its content, no
      listed cluster is empty, there are no more clusters than items and no blob without an item, and
      a cluster of two or more blobs is below the limit. */
  lemma EveryItemIsPlaced(adds: seq<(Str, bool)>, limit: nat)
    ensures var v := FinishView(Run(adds, limit));
            && |v.items| == |adds|
            && (forall k :: 0 <= k < |adds| ==>
                  && v.items[k].where.Listed? && NamesItsContent(v, v.items[k])
                  && v.items[k].content == adds[k].0 && v.items[k].compressed == adds[k].1)
            && (forall j, k :: 0 <= j < k < |adds| ==>
                  (v.items[j].where, v.items[j].blob) != (v.items[k].where, v.items[k].blob))
            && (forall i :: 0 <= i < |v.listed| ==> v.listed[i] != [] && BelowLimit(v.listed[i], limit))
            && |v.kinds| == |v.listed| <= |adds| && BlobCount(v.listed) == |adds|
  {
    RunIsGood(adds, limit);
    FinishKeeps(Run(adds, limit), limit);
    FinishRecords(Run(adds, limit), adds);
    var v := FinishView(Run(adds, limit));
    hide BelowLimit, FinishView, Run, BlobCount;
    CountAtLeast(v.listed);
    forall k | 0 <= k < |adds| ensures v.items[k].where.Listed? {
      assert NamesItsContent(v, v.items[k]);
    }
  }

  // ---------------------------------------------------------------- no cluster is closed early

  /** The next cluster's first blob would have brought this one, its offset table counted at the width
      in use, to the limit. */
  ghost predicate NoRoom(blobs: seq<Str>, next: seq<Str>, limit: nat) {
    next != [] ==> (|blobs| + 1) * (if NeedsExtension(blobs) then 8 else 4) + |Concat(blobs)| + |next[0]| >= limit
  }

  /** Two listed clusters of a kind with none of that kind between them. */
  ghost predicate Neighbours(kinds: seq<bool>, i: int, j: int) {
    0 <= i < j < |kinds| && kinds[i] == kinds[j] && forall k :: i < k < j ==> kinds[k] != kinds[i]
  }

  ghost predicate LastOfKind(kinds: seq<bool>, i: int) {
    0 <= i < |kinds| && forall k :: i < k < |kinds| ==> kinds[k] != kinds[i]
  }

  /** A listed cluster had no room for the first blob of the next one of its kind, listed or open. */
  ghost predicate Packed(v: View, limit: nat) {
    && |v.kinds| == |v.listed|
    && (forall i, j :: Neighbours(v.kinds, i, j) ==> NoRoom(v.listed[i], v.listed[j], limit))
    && (forall i :: LastOfKind(v.kinds, i) ==> NoRoom(v.listed[i], v.OpenOne(v.kinds[i]), limit))
  }

  /** While items are added, a kind with a listed cluster has an open one with blobs. */
  ghost predicate Filling(v: View) {
    forall i :: 0 <= i < |v.kinds| ==> v.OpenOne(v.kinds[i]) != []
  }

  lemma KindsSnoc(kinds: seq<bool>, c: bool)
    ensures forall i, j :: Neighbours(kinds + [c], i, j) ==>
              if j < |kinds| then Neighbours(kinds, i, j) else j == |kinds| && LastOfKind(kinds, i) && kinds[i] == c
    ensures forall i :: LastOfKind(kinds + [c], i) ==> i == |kinds| || (LastOfKind(kinds, i) && kinds[i] != c)
  {
    var more := kinds + [c];
    assert forall k :: 0 <= k < |kinds| ==> more[k] == kinds[k];
    assert more[|kinds|] == c;
  }

  lemma CloseKeepsPacked(v: View, compressed: bool, limit: nat)
    requires Packed(v, limit)
    ensures Packed(CloseView(v, compressed), limit)
  {
    var w := CloseView(v, compressed);
    KindsSnoc(v.kinds, compressed);
    hide NoRoom;
    forall i, j | Neighbours(w.kinds, i, j) ensures 0 <= i < j < |w.listed| && NoRoom(w.listed[i], w.listed[j], limit) {
    }
    forall i | LastOfKind(w.kinds, i) ensures 0 <= i < |w.listed| && NoRoom(w.listed[i], w.OpenOne(w.kinds[i]), limit) {
      if i == |v.listed| { NothingComes(w.listed[i], limit); }
    }
  }

  lemma NothingComes(blobs: seq<Str>, limit: nat)
    ensures NoRoom(blobs, [], limit)
  {
  }

  lemma FullLeavesNoRoom(blobs: seq<Str>, content: Str, limit: nat)
    ensures Full(blobs, content, limit) ==> NoRoom(blobs, [content], limit)
  {
    hide NeedsExtension, Concat;
  }

  lemma SameFirst(blobs: seq<Str>, next: seq<Str>, content: Str, limit: nat)
    requires NoRoom(blobs, next, limit) && next != []
    ensures NoRoom(blobs, next + [content], limit)
  {
    hide NeedsExtension, Concat;
  }

  lemma AppendKeepsPacked(v: View, content: Str, compressed: bool, limit: nat)
    requires Packed(v, limit)
    requires v.OpenOne(compressed) == [] ==>
               forall i :: LastOfKind(v.kinds, i) && v.kinds[i] == compressed ==> NoRoom(v.listed[i], [content], limit)
    ensures Packed(AppendView(v, content, compressed), limit)
  {
    var w := AppendView(v, content, compressed);
    hide Neighbours, LastOfKind, NoRoom;
    forall i | LastOfKind(w.kinds, i) ensures |w.kinds| == |w.listed| && 0 <= i < |w.kinds| ensures NoRoom(w.listed[i], w.OpenOne(w.kinds[i]), limit) {
      InKinds(w.kinds, i);
      if v.kinds[i] == compressed && v.OpenOne(compressed) != [] {
        SameFirst(v.listed[i], v.OpenOne(compressed), content, limit);
      } else if v.kinds[i] == compressed {
        assert [] + [content] == [content];
      }
    }
  }

  lemma InKinds(kinds: seq<bool>, i: int)
    requires LastOfKind(kinds, i)
    ensures 0 <= i < |kinds|
  {
  }

  lemma AddKeepsPacked(v: View, content: Str, compressed: bool, limit: nat)
    requires Packed(v, limit) && Filling(v)
    ensures Packed(AddView(v, content, compressed, limit), limit) && Filling(AddView(v, content, compressed, limit))
  {
    var open, w := v.OpenOne(compressed), CloseView(v, compressed);
    AddKeepsFilling(v, content, compressed, limit);
    FullLeavesNoRoom(open, content, limit);
    CloseKeepsPacked(v, compressed, limit);
    KindsSnoc(v.kinds, compressed);
    NothingListed(v, compressed);
    hide Packed, Filling, Neighbours, LastOfKind, NoRoom, Full;
    if Full(open, content, limit) {
      AppendKeepsPacked(w, content, compressed, limit);
    } else {
      AppendKeepsPacked(v, content, compressed, limit);
    }
  }

  lemma NothingListed(v: View, compressed: bool)
    requires Filling(v)
    ensures v.OpenOne(compressed) == [] ==> forall i :: LastOfKind(v.kinds, i) ==> v.kinds[i] != compressed
  {
  }

  lemma AddKeepsFilling(v: View, content: Str, compressed: bool, limit: nat)
    requires Filling(v)
    ensures Filling(AddView(v, content, compressed, limit))
  {
    hide Full;
  }

  lemma {:induction false} RunPacks(adds: seq<(Str, bool)>, limit: nat)
    ensures Packed(Run(adds, limit), limit) && Filling(Run(adds, limit))
  {
    if adds != [] {
      var n := |adds| - 1;
      RunPacks(adds[..n], limit);
      AddKeepsPacked(Run(adds[..n], limit), adds[n].0, adds[n].1, limit);
      hide Packed, Filling, AddView;
    }
  }

  lemma FinishKeepsPacked(v: View, limit: nat)
    requires Packed(v, limit)
    ensures Packed(FinishView(v), limit)
  {
    hide Packed, CloseView;
    CloseKeepsPacked(v, true, limit);
    CloseKeepsPacked(if v.comp != [] then CloseView(v, true) else v, false, limit);
  }

  /** Over any run, an item joins the open cluster of its kind while there is room: of two listed
      clusters of a kind, one after the other, the first with its offset table and the first blob of
      the second comes to the limit. While the items come in, so does the last listed one with the
      first blob of the open one. */
  lemma NoneClosedEarly(adds: seq<(Str, bool)>, limit: nat)
    ensures var v := FinishView(Run(adds, limit));
            |v.kinds| == |v.listed| &&
            forall i, j :: Neighbours(v.kinds, i, j) ==>
              v.listed[j] != [] &&
              (|v.listed[i]| + 1) * (if NeedsExtension(v.listed[i]) then 8 else 4) + |Concat(v.listed[i])| + |v.listed[j][0]| >= limit
    ensures Packed(Run(adds, limit), limit)
  {
    var u, v := Run(adds, limit), FinishView(Run(adds, limit));
    RunPacks(adds, limit);
    RunIsGood(adds, limit);
    FinishKeeps(u, limit);
    FinishKeepsPacked(u, limit);
    hide Run, FinishView, NamesItsContent, BelowLimit, BlobCount, NeedsExtension, Concat, LastOfKind;
    assert forall i :: 0 <= i < |v.listed| ==> v.listed[i] != [];
  }

  // ---------------------------------------------------------------- the creator's clusters

  /** `DirectInfo`: the cluster a dirent was given and its blob in it. */
  datatype Direct = Direct(cluster: Cluster, blob: nat)

  class CreatorData {
    const compression: Compression
    const limit: nat
    var compCluster: Cluster
    var uncompCluster: Cluster
    var clustersList: seq<Cluster>
    var dirents: seq<Direct>
    ghost var view: View

    /** The open clusters, their lists and the dirents are what the view says. */
    ghost predicate Valid()
      reads this, compCluster, uncompCluster, clustersList
    {
      && compCluster.Valid() && !compCluster.closed && compCluster.blobs == view.comp
      && uncompCluster.Valid() && !uncompCluster.closed && uncompCluster.blobs == view.uncomp
      && compCluster != uncompCluster && compCluster !in clustersList && uncompCluster !in clustersList
      && compCluster.compression == compression && uncompCluster.compression == None
      && |clustersList| == |view.listed| == |view.kinds|
      && (forall i :: 0 <= i < |clustersList| ==> clustersList[i].blobs == view.listed[i])
      && (forall i :: 0 <= i < |clustersList| ==> clustersList[i].compression == if view.kinds[i] then compression else None)
      && (forall i, j :: 0 <= i < j < |clustersList| ==> clustersList[i] != clustersList[j])
      && |dirents| == |view.items|
      && (forall k :: 0 <= k < |dirents| ==> PointsAt(dirents[k], view.items[k]))
    }

    ghost predicate PointsAt(d: Direct, item: Item)
      reads this
    {
      && d.blob == item.blob
      && match item.where
         case Listed(i) => i < |clustersList| && d.cluster == clustersList[i]
         case Open(compressed) => d.cluster == if compressed then compCluster else uncompCluster
    }

    constructor (compression: Compression, limit: nat)
      ensures Valid() && view == View([], [], [], [], []) && this.compression == compression && this.limit == limit
      ensures fresh(compCluster) && fresh(uncompCluster)
    {
      this.compression, this.limit := compression, limit;
      compCluster := new Cluster(compression);
      uncompCluster := new Cluster(None);
      clustersList, dirents := [], [];
      view := View([], [], [], [], []);
    }

    /** `closeCluster`: lists the cluster under the next number and opens another. */
    method CloseCluster(compressed: bool)
      requires Valid()
      modifies this
      ensures Valid() && view == CloseView(old(view), compressed)
      ensures clustersList == old(clustersList) + [if compressed then old(compCluster) else old(uncompCluster)]
      ensures if compressed then fresh(compCluster) && uncompCluster == old(uncompCluster)
              else fresh(uncompCluster) && compCluster == old(compCluster)
    {
      hide SizeOf, Full, BlobCount;
      var cluster := if compressed then compCluster else uncompCluster;
      ghost var before := view;
      var another := new Cluster(if compressed then compression else None);
      label Listing:
      assert forall k :: 0 <= k < |dirents| ==> PointsAt(dirents[k], before.items[k]);
      clustersList := clustersList + [cluster];
      view := CloseView(view, compressed);
      if compressed { compCluster := another; } else { uncompCluster := another; }
      forall k | 0 <= k < |dirents| ensures PointsAt(dirents[k], view.items[k]) {
        assert old@Listing(PointsAt(dirents[k], before.items[k]));
      }
    }

    method AddItemData(provider: Provider, compressContent: bool)
      requires Valid() && provider.Valid()
      modifies this, compCluster, uncompCluster
      ensures Valid() && view == AddView(old(view), provider.Content(), compressContent, limit)
      ensures forall c :: c in {compCluster, uncompCluster} ==> c in old({compCluster, uncompCluster}) || fresh(c)
    {
      var itemSize := provider.GetSize();
      var cluster := if compressContent then compCluster else uncompCluster;
      var size := cluster.Size();
      if cluster.count != 0 && size + itemSize >= limit {
        CloseCluster(compressContent);
        cluster := if compressContent then compCluster else uncompCluster;
      }
      SetCluster(cluster, provider, compressContent);
    }

    /** `setCluster` and `addContent`: the blob number is the number of blobs before this one. */
    method SetCluster(cluster: Cluster, provider: Provider, compressContent: bool)
      requires Valid() && provider.Valid()
      requires cluster == if compressContent then compCluster else uncompCluster
      modifies this`dirents, this`view, cluster
      ensures Valid() && view == AppendView(old(view), provider.Content(), compressContent)
    {
      ghost var before := view;
      dirents := dirents + [Direct(cluster, cluster.count)];
      cluster.AddContent(provider);
      view := AppendView(view, provider.Content(), compressContent);
      forall k | 0 <= k < |dirents| ensures PointsAt(dirents[k], view.items[k]) {
        if k < |before.items| {
          assert old(PointsAt(dirents[k], view.items[k]));
        }
      }
    }

    /** The end of `finishZimCreation`: what is open and not empty is closed. */
    method CloseAll()
      requires Valid()
      modifies this
      ensures Valid() && view == FinishView(old(view))
    {
      if compCluster.count != 0 { CloseCluster(true); }
      if uncompCluster.count != 0 { CloseCluster(false); }
    }
  }
}
