/** The sparse in-memory index over a sorted table of keys (src/narrowdown.h).

    An entry keeps a shortened pseudo-key and the index `lindex` of the item right after which
    that pseudo-key could be inserted. Pseudo-keys are packed as C strings in one byte area; an
    entry holds only the offset of its own. */
module NarrowDown {
  import opened Bytes

  // ---------------------------------------------------------------- the pseudo-key

  /** `std::mismatch` over the common length: how many leading bytes agree. */
  function Mismatch(a: Str, b: Str): (m: nat)
    ensures m <= |a| && m <= |b|
  {
    if a == [] || b == [] || a[0] != b[0] then 0 else 1 + Mismatch(a[1..], b[1..])
  }

  function ShortestStringInBetween(a: Str, b: Str): (r: Str) {
    var m := Mismatch(a, b);
    if m + 1 < |b| then b[..m + 1] else b
  }

  lemma ShortestStep(a: Str, b: Str)
    requires a != [] && b != [] && a[0] == b[0]
    ensures ShortestStringInBetween(a, b) == [b[0]] + ShortestStringInBetween(a[1..], b[1..])
  {
    var m := Mismatch(a, b);
    assert b == [b[0]] + b[1..];
    if m + 1 < |b| { assert b[..m + 1] == [b[0]] + b[1..][..m]; }
  }

  /** The pseudo-key of two ordered keys lies between them, above the first unless they are equal. */
  lemma {:induction false} ShortestIsBetween(a: Str, b: Str)
    requires Leq(a, b)
    ensures var r := ShortestStringInBetween(a, b);
            Leq(a, r) && Leq(r, b) && (a == b ==> r == b) && (a != b ==> Lt(a, r))
  {
    if a != [] && a[0] == b[0] {
      ShortestIsBetween(a[1..], b[1..]);
      ShortestStep(a, b);
      assert a == [a[0]] + a[1..] && b == [b[0]] + b[1..];
    } else {
      var r := ShortestStringInBetween(a, b);
      assert b == r + b[|r|..];
      PrefixLeq(r, b[|r|..]);
    }
  }

  /** No string above `a` and not above `b` is shorter than the pseudo-key of `a` and `b`. */
  lemma {:induction false} ShortestIsShortest(a: Str, b: Str, s: Str)
    requires Lt(a, s) && Leq(s, b)
    ensures |ShortestStringInBetween(a, b)| <= |s|
  {
    LtIrrefl([]);
    if a != [] && b != [] && a[0] == b[0] {
      assert s != [] && s[0] == a[0];
      ShortestIsShortest(a[1..], b[1..], s[1..]);
      ShortestStep(a, b);
    }
  }

  // ---------------------------------------------------------------- packing

  datatype Entry = Entry(pseudoKeyOffset: nat, lindex: nat)

  /** An index entry as it reads back: its decoded pseudo-key and its item index. */
  datatype Item = Item(key: Str, lindex: nat)

  function Keys(items: seq<Item>): (ks: seq<Str>)
    ensures |ks| == |items|
  {
    seq(|items|, i requires 0 <= i < |items| => items[i].key)
  }

  function Pack(keys: seq<Str>): Str {
    if keys == [] then [] else Pack(keys[..|keys| - 1]) + keys[|keys| - 1] + [0]
  }

  lemma PackSnoc(keys: seq<Str>, k: Str)
    ensures Pack(keys + [k]) == Pack(keys) + k + [0]
  {
    assert (keys + [k])[..|keys|] == keys;
  }

  lemma {:induction false} PackPrefix(keys: seq<Str>, i: nat)
    requires i <= |keys|
    ensures Pack(keys[..i]) <= Pack(keys)
    decreases |keys| - i
  {
    if i == |keys| {
      assert keys[..i] == keys;
    } else {
      PackPrefix(keys, i + 1);
      assert keys[..i + 1][..i] == keys[..i];
    }
  }

  /** Key i decodes from the packed area at the length of the keys packed before it. */
  lemma PackDecode(keys: seq<Str>, i: nat)
    requires i < |keys| && NoNul(keys[i])
    ensures |Pack(keys[..i])| < |Pack(keys)|
    ensures forall more :: CStr((Pack(keys) + more)[|Pack(keys[..i])|..]) == keys[i]
  {
    PackPrefix(keys, i + 1);
    assert keys[..i + 1][..i] == keys[..i];
    var area, off := Pack(keys), |Pack(keys[..i])|;
    forall more ensures CStr((area + more)[off..]) == keys[i] {
      var rest := (area + more)[|Pack(keys[..i + 1])|..];
      assert (area + more)[off..] == keys[i] + [0] + rest;
      CStrOf(keys[i], rest);
    }
  }

  function GetKeyContent(area: Str, e: Entry): Str {
    if e.pseudoKeyOffset <= |area| then CStr(area[e.pseudoKeyOffset..]) else []
  }

  function Decode(area: Str, entries: seq<Entry>): (items: seq<Item>)
    ensures |items| == |entries|
  {
    seq(|entries|, i requires 0 <= i < |entries| => Item(GetKeyContent(area, entries[i]), entries[i].lindex))
  }

  /** The area is exactly the decoded keys packed in order, each entry pointing at its own. */
  ghost predicate WellPacked(area: Str, entries: seq<Entry>) {
    var keys := Keys(Decode(area, entries));
    && area == Pack(keys)
    && (forall i :: 0 <= i < |entries| ==> entries[i].pseudoKeyOffset == |Pack(keys[..i])|)
  }

  lemma DecodedKeysNoNul(area: Str, entries: seq<Entry>, i: nat)
    requires i < |entries|
    ensures NoNul(Keys(Decode(area, entries))[i])
  {
  }

  lemma DecodeOld(area: Str, entries: seq<Entry>, more: Str, k: nat)
    requires WellPacked(area, entries) && k < |entries|
    ensures GetKeyContent(area + more, entries[k]) == GetKeyContent(area, entries[k])
  {
    DecodedKeysNoNul(area, entries, k);
    PackDecode(Keys(Decode(area, entries)), k);
    assert area + [] == area;
  }

  lemma DecodeNew(area: Str, s: Str, i: nat)
    requires NoNul(s)
    ensures GetKeyContent(area + s + [0], Entry(|area|, i)) == s
  {
    assert (area + s + [0])[|area|..] == s + [0] + [];
    CStrOf(s, []);
  }

  /** Packing one more NUL-free key leaves every decoded entry as it was and adds exactly that key. */
  lemma AppendDecodes(area: Str, entries: seq<Entry>, s: Str, i: nat)
    requires WellPacked(area, entries) && NoNul(s)
    ensures Decode(area + s + [0], entries + [Entry(|area|, i)]) == Decode(area, entries) + [Item(s, i)]
  {
    hide WellPacked, GetKeyContent;
    var entries', area', items := entries + [Entry(|area|, i)], area + s + [0], Decode(area, entries);
    assert area' == area + (s + [0]);
    forall k | 0 <= k < |entries'| ensures Decode(area', entries')[k] == (items + [Item(s, i)])[k] {
      if k < |entries| { DecodeOld(area, entries, s + [0], k); } else { DecodeNew(area, s, i); }
    }
  }

  lemma AppendPacks(area: Str, entries: seq<Entry>, s: Str, i: nat)
    requires WellPacked(area, entries) && NoNul(s)
    ensures WellPacked(area + s + [0], entries + [Entry(|area|, i)])
  {
    AppendDecodes(area, entries, s, i);
    hide Decode, Pack;
    var entries', keys := entries + [Entry(|area|, i)], Keys(Decode(area, entries));
    PackSnoc(keys, s);
    assert Keys(Decode(area + s + [0], entries')) == keys + [s];
    forall k | 0 <= k < |entries'| ensures entries'[k].pseudoKeyOffset == |Pack((keys + [s])[..k])| {
      assert (keys + [s])[..k] == keys[..k];
    }
    assert keys[..|keys|] == keys;
  }

  // ---------------------------------------------------------------- what the index promises

  ghost predicate Sorted(table: seq<Str>) {
    forall i, j :: 0 <= i <= j < |table| ==> Leq(table[i], table[j])
  }

  ghost predicate ItemFits(item: Item, table: seq<Str>) {
    && item.lindex < |table|
    && Leq(table[item.lindex], item.key)
    && (item.lindex + 1 < |table| ==> Leq(item.key, table[item.lindex + 1]))
  }

  /** Every entry keeps sequence[lindex] <= pseudoKey <= sequence[lindex + 1], entries are ordered
      both by key and by index, and the first entry is the first item with its whole key. */
  ghost predicate Sound(grid: seq<Item>, table: seq<Str>) {
    && (forall k :: 0 <= k < |grid| ==> ItemFits(grid[k], table))
    && (forall j, k :: 0 <= j < k < |grid| ==> grid[j].lindex < grid[k].lindex)
    && (forall j, k :: 0 <= j <= k < |grid| ==> Leq(grid[j].key, grid[k].key))
    && (|grid| > 0 ==> |table| > 0 && grid[0] == Item(table[0], 0))
  }

  /** A closed index also ends with the last item and its whole key. */
  ghost predicate Complete(grid: seq<Item>, table: seq<Str>) {
    && Sound(grid, table)
    && (|table| > 0 ==> |grid| > 0 && grid[|grid| - 1] == Item(table[|table| - 1], |table| - 1))
  }

  /** The entry that `add` stores for item i. */
  function ItemFor(table: seq<Str>, first: bool, i: nat): Item
    requires i + 1 < |table|
  {
    Item(if first then table[i] else ShortestStringInBetween(table[i], table[i + 1]), i)
  }

  /** Over a sorted table `add` never fails, and keeps the index sound. */
  lemma AddKeepsSound(grid: seq<Item>, table: seq<Str>, i: nat)
    requires Sorted(table) && Sound(grid, table) && i + 1 < |table|
    requires if grid == [] then i == 0 else grid[|grid| - 1].lindex < i
    ensures Leq(table[i], table[i + 1])
    ensures grid != [] ==> Leq(grid[|grid| - 1].key, ItemFor(table, false, i).key)
    ensures Sound(grid + [ItemFor(table, grid == [], i)], table)
  {
    ShortestIsBetween(table[i], table[i + 1]);
    var item := ItemFor(table, grid == [], i);
    LeqRefl(item.key);
    if grid != [] {
      var last := grid[|grid| - 1];
      assert ItemFits(last, table);
      LeqTrans(last.key, table[last.lindex + 1], table[i]);
      LeqTrans(last.key, table[i], item.key);
      forall j | 0 <= j < |grid| ensures Leq(grid[j].key, item.key) {
        LeqTrans(grid[j].key, last.key, item.key);
      }
    }
    var grid' := grid + [item];
    assert forall k :: 0 <= k < |grid'| ==> ItemFits(grid'[k], table);
  }

  /** Closing a sound index with the last item completes it. */
  lemma CloseCompletes(grid: seq<Item>, table: seq<Str>)
    requires Sorted(table) && Sound(grid, table) && |table| > 0
    requires if grid == [] then |table| == 1 else grid[|grid| - 1].lindex < |table| - 1
    ensures grid != [] ==> Leq(grid[|grid| - 1].key, table[|table| - 1])
    ensures Complete(grid + [Item(table[|table| - 1], |table| - 1)], table)
  {
    var item := Item(table[|table| - 1], |table| - 1);
    LeqRefl(item.key);
    if grid != [] {
      var last := grid[|grid| - 1];
      assert ItemFits(last, table);
      LeqTrans(last.key, table[last.lindex + 1], item.key);
      forall j | 0 <= j < |grid| ensures Leq(grid[j].key, item.key) {
        LeqTrans(grid[j].key, last.key, item.key);
      }
    }
    var grid' := grid + [item];
    assert forall k :: 0 <= k < |grid'| ==> ItemFits(grid'[k], table);
  }

  // ---------------------------------------------------------------- narrowing a search

  datatype Range = Range(begin: nat, end: nat)

  /** `std::upper_bound`: the first entry whose key is above `q`. */
  function UpperBound(grid: seq<Item>, q: Str): (u: nat)
    ensures u <= |grid|
  {
    if grid == [] || Lt(q, grid[0].key) then 0 else 1 + UpperBound(grid[1..], q)
  }

  lemma {:induction false} UpperBoundSplits(grid: seq<Item>, q: Str)
    requires forall j, k :: 0 <= j <= k < |grid| ==> Leq(grid[j].key, grid[k].key)
    ensures forall j :: 0 <= j < |grid| ==> (j < UpperBound(grid, q) <==> Leq(grid[j].key, q))
  {
    if grid != [] {
      if Lt(q, grid[0].key) {
        forall j | 0 <= j < |grid| ensures !Leq(grid[j].key, q) {
          LtLeqTrans(q, grid[0].key, grid[j].key);
        }
      } else {
        UpperBoundSplits(grid[1..], q);
        forall j | 0 <= j < |grid| ensures j < UpperBound(grid, q) <==> Leq(grid[j].key, q) {
          if j > 0 { assert grid[j] == grid[1..][j - 1]; }
        }
      }
    }
  }

  function RangeOf(grid: seq<Item>, q: Str): Range {
    var it := UpperBound(grid, q);
    if it == 0 then Range(0, 0)
    else if it == |grid| then Range(grid[it - 1].lindex, grid[it - 1].lindex + 1)
    else Range(grid[it - 1].lindex, grid[it].lindex + 1)
  }

  /** What the range of a complete index tells about a sorted table: an empty range means the key
      is below the whole table; otherwise the range is not empty, its first item is not above the
      key, and the item that follows it is. */
  lemma RangeNarrows(grid: seq<Item>, table: seq<Str>, q: Str)
    requires Sorted(table) && Complete(grid, table)
    ensures var r := RangeOf(grid, q);
            if r.begin == r.end then r.begin == 0 && (table == [] || Lt(q, table[0]))
            else && r.begin < r.end <= |table|
                 && Leq(table[r.begin], q)
                 && (r.end < |table| ==> Lt(q, table[r.end]))
  {
    UpperBoundSplits(grid, q);
    var it := UpperBound(grid, q);
    if it > 0 {
      var prev := grid[it - 1];
      assert ItemFits(prev, table) && Leq(prev.key, q);
      LeqTrans(table[prev.lindex], prev.key, q);
      if it < |grid| {
        var next := grid[it];
        assert ItemFits(next, table) && Lt(q, next.key);
        if next.lindex + 1 < |table| { LtLeqTrans(q, next.key, table[next.lindex + 1]); }
      }
    }
  }

  // ---------------------------------------------------------------- the class

  datatype Outcome = Ok | NotSorted

  class NarrowDown {
    var keyContentArea: Str
    var entries: seq<Entry>

    /** The entries as they decode from the packed area. */
    ghost function Grid(): seq<Item>
      reads this
    {
      Decode(keyContentArea, entries)
    }

    ghost predicate Valid()
      reads this
    {
      WellPacked(keyContentArea, entries)
    }

    constructor ()
      ensures Valid() && Grid() == [] && keyContentArea == []
    {
      keyContentArea, entries := [], [];
    }

    /** The offset is a 32-bit field; as long as the area is below 4 GiB it does not wrap. */
    method AddEntry(s: Str, i: nat)
      requires Valid() && NoNul(s)
      modifies this
      ensures keyContentArea == old(keyContentArea) + s + [0]
      ensures entries == old(entries) + [Entry(old(|keyContentArea|) % TWO32, i)]
      ensures old(|keyContentArea|) < TWO32 ==> Valid() && Grid() == old(Grid()) + [Item(s, i)]
    {
      if |keyContentArea| < TWO32 {
        AppendDecodes(keyContentArea, entries, s, i);
        AppendPacks(keyContentArea, entries, s, i);
        ModUnique(|keyContentArea|, TWO32, 0, |keyContentArea|);
      }
      entries := entries + [Entry(|keyContentArea| % TWO32, i)];
      keyContentArea := keyContentArea + s + [0];
    }

    method Add(key: Str, i: nat, nextKey: Str) returns (outcome: Outcome)
      requires Valid() && NoNul(key) && NoNul(nextKey)
      requires Grid() != [] ==> Grid()[|Grid()| - 1].lindex < i
      modifies this
      ensures outcome == NotSorted <==>
              Lt(nextKey, key) ||
              (old(Grid()) != [] && Lt(ShortestStringInBetween(key, nextKey), old(Grid()[|Grid()| - 1].key)))
      ensures outcome == NotSorted ==> keyContentArea == old(keyContentArea) && entries == old(entries)
      ensures outcome == NotSorted ==> Valid() && Grid() == old(Grid())
      ensures var s := if old(Grid()) == [] then key else ShortestStringInBetween(key, nextKey);
              outcome == Ok ==>
                && keyContentArea == old(keyContentArea) + s + [0]
                && entries == old(entries) + [Entry(old(|keyContentArea|) % TWO32, i)]
                && (|Pack(Keys(old(Grid())))| < TWO32 ==> Valid() && Grid() == old(Grid()) + [Item(s, i)])
    {
      if Lt(nextKey, key) { return NotSorted; }
      if entries == [] {
        AddEntry(key, i);
      } else {
        var pseudoKey := ShortestStringInBetween(key, nextKey);
        if Lt(pseudoKey, GetKeyContent(keyContentArea, entries[|entries| - 1])) { return NotSorted; }
        assert NoNul(pseudoKey);
        AddEntry(pseudoKey, i);
      }
      outcome := Ok;
    }

    method Close(key: Str, i: nat)
      requires Valid() && NoNul(key)
      requires Grid() != [] ==> Leq(Grid()[|Grid()| - 1].key, key) && Grid()[|Grid()| - 1].lindex < i
      modifies this
      ensures keyContentArea == old(keyContentArea) + key + [0]
      ensures entries == old(entries) + [Entry(old(|keyContentArea|) % TWO32, i)]
      ensures |Pack(Keys(old(Grid())))| < TWO32 ==> Valid() && Grid() == old(Grid()) + [Item(key, i)]
    {
      AddEntry(key, i);
    }

    method GetRange(key: Str) returns (r: Range)
      ensures r == RangeOf(Grid(), key)
    {
      var grid := Decode(keyContentArea, entries);
      var it := UpperBound(grid, key);
      if it == 0 { return Range(0, 0); }
      var prevEntryLindex := entries[it - 1].lindex;
      if it == |entries| { return Range(prevEntryLindex, prevEntryLindex + 1); }
      return Range(prevEntryLindex, entries[it].lindex + 1);
    }
  }
}
