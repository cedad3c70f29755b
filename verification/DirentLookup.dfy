/** Path lookup: the sampled index in memory, then a binary search in the dirent table
    (src/dirent_lookup.h). `impl->getDirent(i)` is the table's item i. */
module DirentLookup {
  import opened Bytes
  import ND = NarrowDown

  /** What a lookup sees of a dirent: its namespace and its url. */
  datatype DirentKey = DirentKey(ns: byte, url: Str)

  function LongKey(d: DirentKey): Str {
    [d.ns] + d.url
  }

  lemma LongKeyInjective(a: DirentKey, b: DirentKey)
    ensures LongKey(a) == LongKey(b) ==> a == b
  {
    assert LongKey(a)[0] == a.ns && LongKey(a)[1..] == a.url;
    assert LongKey(b)[0] == b.ns && LongKey(b)[1..] == b.url;
  }

  function LongKeys(table: seq<DirentKey>): (ks: seq<Str>)
    ensures |ks| == |table|
  {
    seq(|table|, i requires 0 <= i < |table| => LongKey(table[i]))
  }

  /** What a dirent table promises: sorted, ASCII namespaces, no NUL in a url. Equal neighbours are
      tolerated, as in old archives. */
  ghost predicate GoodTable(table: seq<DirentKey>) {
    && ND.Sorted(LongKeys(table))
    && (forall i :: 0 <= i < |table| ==> 1 <= table[i].ns < 128 && NoNul(table[i].url))
  }

  ghost predicate StrictTable(table: seq<DirentKey>) {
    && GoodTable(table)
    && (forall i, j :: 0 <= i < j < |table| ==> table[i] != table[j])
  }

  ghost predicate StrictlyAscending(keys: seq<Str>) {
    forall i, j :: 0 <= i < j < |keys| ==> Lt(keys[i], keys[j])
  }

  lemma AscendsFurther(keys: seq<Str>, n: nat)
    requires 0 < n < |keys| && StrictlyAscending(keys[..n]) && Lt(keys[n - 1], keys[n])
    ensures StrictlyAscending(keys[..n + 1])
  {
    var s := keys[..n + 1];
    forall i, j | 0 <= i < j < |s| ensures Lt(s[i], s[j]) {
      if j < n {
        assert keys[..n][i] == s[i] && keys[..n][j] == s[j];
      } else if i < n - 1 {
        assert Lt(keys[..n][i], keys[..n][n - 1]);
        LtIsLeq(s[n - 1], s[n]);
        LtLeqTrans(s[i], s[n - 1], s[n]);
      }
    }
  }

  /** `getLongUrl`, which puts a slash between namespace and url. */
  function LongUrl(d: DirentKey): Str {
    [d.ns, 47] + d.url
  }

  lemma LongUrlOrder(a: DirentKey, b: DirentKey)
    ensures Lt(LongUrl(a), LongUrl(b)) <==> Lt(LongKey(a), LongKey(b))
  {
    if a.ns == b.ns {
      LeqCommonPrefix([a.ns, 47], b.url, a.url);
      LeqCommonPrefix([a.ns], b.url, a.url);
    }
  }

  /** `checkDirentOrder` (src/fileimpl.cpp): neighbours are compared, and that settles the whole table. */
  method CheckDirentOrder(table: seq<DirentKey>) returns (ok: bool)
    ensures ok <==> StrictlyAscending(LongKeys(table))
  {
    ghost var keys := LongKeys(table);
    for i := 0 to |table|
      invariant StrictlyAscending(keys[..i])
    {
      if i > 0 {
        assert keys[i - 1] == LongKey(table[i - 1]) && keys[i] == LongKey(table[i]);
        LongUrlOrder(table[i - 1], table[i]);
        if !Lt(LongUrl(table[i - 1]), LongUrl(table[i])) { return false; }
        AscendsFurther(keys, i);
      }
    }
    assert keys[..|table|] == keys;
    ok := true;
  }

  /** `char` is signed on the platforms at hand. */
  function SignedChar(b: byte): int {
    if b < 128 then b else b - 256
  }

  // ---------------------------------------------------------------- the linear scan

  /** How many leading keys are below `q`: where a scan from the front stops. */
  function CountBelow(keys: seq<Str>, q: Str): (n: nat)
    ensures n <= |keys|
  {
    if keys == [] || !Lt(keys[0], q) then 0 else 1 + CountBelow(keys[1..], q)
  }

  lemma {:induction false} CountBelowSplits(keys: seq<Str>, q: Str)
    requires ND.Sorted(keys)
    ensures forall j :: 0 <= j < |keys| ==> (j < CountBelow(keys, q) <==> Lt(keys[j], q))
  {
    if keys != [] {
      if Lt(keys[0], q) {
        CountBelowSplits(keys[1..], q);
        forall j | 0 <= j < |keys| ensures j < CountBelow(keys, q) <==> Lt(keys[j], q) {
          if j > 0 { assert keys[j] == keys[1..][j - 1]; }
        }
      } else {
        forall j | 0 <= j < |keys| ensures !Lt(keys[j], q) { LeqTrans(q, keys[0], keys[j]); }
      }
    }
  }

  /** In a sorted table, a position with only smaller keys before it and no smaller key at it is
      the one where the scan stops. */
  lemma CountBelowUnique(keys: seq<Str>, q: Str, p: nat)
    requires ND.Sorted(keys) && p <= |keys|
    requires p > 0 ==> Lt(keys[p - 1], q)
    requires p < |keys| ==> Leq(q, keys[p])
    ensures CountBelow(keys, q) == p
  {
    CountBelowSplits(keys, q);
  }

  // ---------------------------------------------------------------- the sampled index

  function Step(direntCount: nat, cacheEntryCount: nat): (step: nat)
    requires cacheEntryCount > 0
    ensures step >= 1
  {
    var q := direntCount / cacheEntryCount;
    if q > 1 then q else 1
  }

  /** The entries that the constructor's loop adds from item i on. */
  function GridFrom(keys: seq<Str>, i: nat, step: nat): seq<ND.Item>
    requires step >= 1
    decreases |keys| - i
  {
    if i + 1 < |keys| then [ND.ItemFor(keys, i == 0, i)] + GridFrom(keys, i + step, step) else []
  }

  function WholeGrid(keys: seq<Str>, step: nat): seq<ND.Item>
    requires step >= 1
  {
    if keys == [] then [] else GridFrom(keys, 0, step) + [ND.Item(keys[|keys| - 1], |keys| - 1)]
  }

  lemma {:induction false} GridFromCompletes(grid: seq<ND.Item>, keys: seq<Str>, i: nat, step: nat)
    requires step >= 1 && ND.Sorted(keys) && ND.Sound(grid, keys) && |keys| > 0
    requires if grid == [] then i == 0 else i > 0 && grid[|grid| - 1].lindex < i && grid[|grid| - 1].lindex + 1 < |keys|
    ensures ND.Complete(grid + GridFrom(keys, i, step) + [ND.Item(keys[|keys| - 1], |keys| - 1)], keys)
    decreases |keys| - i
  {
    hide ND.Sorted, ND.Sound, ND.Complete;
    if i + 1 < |keys| {
      ND.AddKeepsSound(grid, keys, i);
      var item := ND.ItemFor(keys, i == 0, i);
      GridFromCompletes(grid + [item], keys, i + step, step);
      assert grid + GridFrom(keys, i, step) == grid + [item] + GridFrom(keys, i + step, step);
    } else {
      ND.CloseCompletes(grid, keys);
      assert grid + GridFrom(keys, i, step) == grid;
    }
  }

  lemma WholeGridCompletes(keys: seq<Str>, step: nat)
    requires step >= 1 && ND.Sorted(keys)
    ensures ND.Complete(WholeGrid(keys, step), keys)
  {
    if keys != [] {
      GridFromCompletes([], keys, 0, step);
      assert [] + GridFrom(keys, 0, step) == GridFrom(keys, 0, step);
    }
  }

  /** The packed area of the whole index stays below 4 GiB, so that 32-bit offsets address it. */
  predicate AreaFits(keys: seq<Str>, step: nat)
    requires step >= 1
  {
    |ND.Pack(ND.Keys(WholeGrid(keys, step)))| <= TWO32
  }

  lemma AreaFitsPrefix(grid: seq<ND.Item>, item: ND.Item, rest: seq<ND.Item>)
    ensures |ND.Pack(ND.Keys(grid))| < |ND.Pack(ND.Keys(grid + [item] + rest))|
  {
    var all := ND.Keys(grid + [item] + rest);
    ND.PackPrefix(all, |grid| + 1);
    assert all[..|grid| + 1] == ND.Keys(grid) + [item.key];
    ND.PackSnoc(ND.Keys(grid), item.key);
  }

  /** The constructor's loop invariant: the index is short of exactly the entries that the
      remaining iterations add. */
  ghost predicate Sampling(grid: seq<ND.Item>, keys: seq<Str>, i: nat, step: nat)
    requires step >= 1
  {
    grid + GridFrom(keys, i, step) == GridFrom(keys, 0, step) && (grid == [] <==> i == 0)
  }

  lemma Regroup<T>(grid: seq<T>, item: T, rest: seq<T>, closing: seq<T>)
    ensures grid + [item] + rest == grid + ([item] + rest)
    ensures grid + [item] + (rest + closing) == grid + ([item] + rest) + closing
  {
  }

  lemma SampleRest(grid: seq<ND.Item>, item: ND.Item, keys: seq<Str>, i: nat, step: nat)
    requires step >= 1 && i + 1 < |keys| && grid + GridFrom(keys, i, step) == GridFrom(keys, 0, step)
    requires item == ND.ItemFor(keys, i == 0, i)
    ensures grid + [item] + GridFrom(keys, i + step, step) == GridFrom(keys, 0, step)
    ensures |ND.Pack(ND.Keys(grid))| < |ND.Pack(ND.Keys(WholeGrid(keys, step)))|
  {
    var rest, closing := GridFrom(keys, i + step, step), [ND.Item(keys[|keys| - 1], |keys| - 1)];
    Regroup(grid, item, rest, closing);
    AreaFitsPrefix(grid, item, rest + closing);
  }

  lemma SamplingStarts(keys: seq<Str>, step: nat)
    requires step >= 1
    ensures Sampling([], keys, 0, step)
  {
    assert [] + GridFrom(keys, 0, step) == GridFrom(keys, 0, step);
  }

  lemma SampledKey(table: seq<DirentKey>, i: nat)
    requires GoodTable(table) && i < |table|
    ensures LongKeys(table)[i] == LongKey(table[i]) && NoNul(LongKey(table[i]))
  {
    assert NoNul(table[i].url);
  }

  /** Over a good table the next `add` has room for its offset, does not fail, and keeps sampling. */
  lemma SamplingAdd(grid: seq<ND.Item>, table: seq<DirentKey>, i: nat, step: nat)
    requires GoodTable(table) && step >= 1 && i + 1 < |table| && AreaFits(LongKeys(table), step)
    requires Sampling(grid, LongKeys(table), i, step)
    ensures |ND.Pack(ND.Keys(grid))| < TWO32
    ensures grid != [] ==> grid[|grid| - 1].lindex < i
    ensures var key, nextKey := LongKey(table[i]), LongKey(table[i + 1]);
            NoNul(key) && NoNul(nextKey) && !Lt(nextKey, key) &&
            (grid != [] ==> !Lt(ND.ShortestStringInBetween(key, nextKey), grid[|grid| - 1].key)) &&
            Sampling(grid + [ND.Item(if grid == [] then key else ND.ShortestStringInBetween(key, nextKey), i)],
                     LongKeys(table), i + step, step)
  {
    var keys := LongKeys(table);
    var item := ND.ItemFor(keys, i == 0, i);
    SampleRest(grid, item, keys, i, step);
    SampledKey(table, i);
    SampledKey(table, i + 1);
    assert Leq(keys[i], keys[i + 1]);
    assert item == ND.Item(if i == 0 then keys[0] else ND.ShortestStringInBetween(keys[i], keys[i + 1]), i);
    hide ND.ShortestStringInBetween, GridFrom, ND.Pack, ND.Keys, Leq, NoNul, GoodTable;
    SampleOrder(grid, item, keys, GridFrom(keys, i + step, step), step);
  }

  /** Neighbours in the whole index are in order. */
  lemma SampleOrder(grid: seq<ND.Item>, item: ND.Item, keys: seq<Str>, rest: seq<ND.Item>, step: nat)
    requires ND.Sorted(keys) && step >= 1 && keys != []
    requires grid + [item] + rest == WholeGrid(keys, step) || grid + [item] + rest == GridFrom(keys, 0, step)
    ensures grid != [] ==> grid[|grid| - 1].lindex < item.lindex && Leq(grid[|grid| - 1].key, item.key)
  {
    var whole := WholeGrid(keys, step);
    WholeGridCompletes(keys, step);
    assert whole[|grid|] == item;
    if grid != [] { assert whole[|grid| - 1] == grid[|grid| - 1]; }
  }

  lemma SamplingClose(grid: seq<ND.Item>, table: seq<DirentKey>, i: nat, step: nat)
    requires GoodTable(table) && step >= 1 && |table| > 0 && i + 1 >= |table| && AreaFits(LongKeys(table), step)
    requires Sampling(grid, LongKeys(table), i, step)
    ensures |ND.Pack(ND.Keys(grid))| < TWO32
    ensures var key := LongKey(table[|table| - 1]);
            NoNul(key) &&
            (grid != [] ==> Leq(grid[|grid| - 1].key, key) && grid[|grid| - 1].lindex < |table| - 1) &&
            grid + [ND.Item(key, |table| - 1)] == WholeGrid(LongKeys(table), step)
  {
    var keys := LongKeys(table);
    var closing := ND.Item(keys[|keys| - 1], |keys| - 1);
    assert grid + GridFrom(keys, i, step) == grid;
    AreaFitsPrefix(grid, closing, []);
    assert grid + [closing] + [] == WholeGrid(keys, step);
    SampleOrder(grid, closing, keys, [], step);
  }

  /** The loop of the constructor: over a good table every `add` and the `close` succeed, and the
      index they leave is the whole one. */
  method Sample(table: seq<DirentKey>, step: nat, lookupGrid: ND.NarrowDown)
    requires GoodTable(table) && step >= 1 && AreaFits(LongKeys(table), step)
    requires 0 < |table| <= TWO32 - step
    requires lookupGrid.Valid() && lookupGrid.Grid() == []
    modifies lookupGrid
    ensures lookupGrid.Valid() && lookupGrid.Grid() == WholeGrid(LongKeys(table), step)
  {
    hide *;
    SamplingStarts(LongKeys(table), step);
    var i := 0;
    while i < |table| - 1
      invariant lookupGrid.Valid() && Sampling(lookupGrid.Grid(), LongKeys(table), i, step)
      decreases |table| - i
    {
      SamplingAdd(lookupGrid.Grid(), table, i, step);
      var outcome := lookupGrid.Add(LongKey(table[i]), i, LongKey(table[i + 1]));
      i := i + step;
    }
    SamplingClose(lookupGrid.Grid(), table, i, step);
    lookupGrid.Close(LongKey(table[|table| - 1]), |table| - 1);
  }

  // ---------------------------------------------------------------- one probe of the search

  datatype Probe = Found(at: nat) | Missing(insertAt: nat) | Next(l: nat, u: nat)

  /** The sign of the query against a dirent: namespaces as signed chars, then urls as strings. */
  function Compare(q: DirentKey, d: DirentKey): int {
    if SignedChar(q.ns) < SignedChar(d.ns) then -1
    else if SignedChar(q.ns) > SignedChar(d.ns) then 1
    else if Lt(q.url, d.url) then -1
    else if Lt(d.url, q.url) then 1
    else 0
  }

  lemma CompareIsKeyOrder(q: DirentKey, d: DirentKey)
    requires q.ns < 128 && d.ns < 128
    ensures Compare(q, d) < 0 <==> Lt(LongKey(q), LongKey(d))
    ensures Compare(q, d) > 0 <==> Lt(LongKey(d), LongKey(q))
    ensures Compare(q, d) == 0 <==> q == d
  {
    assert LongKey(q)[1..] == q.url && LongKey(d)[1..] == d.url;
    LeqTotal(q.url, d.url);
    if Leq(q.url, d.url) && Leq(d.url, q.url) { LeqAntisym(q.url, d.url); }
    LeqRefl(q.url);
  }

  function ProbeOf(table: seq<DirentKey>, q: DirentKey, l: nat, u: nat): Probe
    requires l <= u <= |table| && l < |table|
  {
    var p := l + (u - l) / 2;
    var c := Compare(q, table[p]);
    if c < 0 then Next(l, p)
    else if c > 0 then (if l == p then Missing(u) else Next(p, u))
    else Found(p)
  }

  lemma MissingAt(table: seq<DirentKey>, q: DirentKey, p: nat)
    requires GoodTable(table) && p <= |table|
    requires p > 0 ==> Lt(LongKeys(table)[p - 1], LongKey(q))
    requires p < |table| ==> Lt(LongKey(q), LongKeys(table)[p])
    ensures CountBelow(LongKeys(table), LongKey(q)) == p && q !in table
  {
    var keys := LongKeys(table);
    if p < |table| { LtIsLeq(LongKey(q), keys[p]); }
    CountBelowUnique(keys, LongKey(q), p);
    CountBelowSplits(keys, LongKey(q));
    LtIrrefl(LongKey(q));
    forall j | 0 <= j < |table| ensures table[j] != q {
      assert keys[j] == LongKey(table[j]);
      if j >= p { LtLeqTrans(LongKey(q), keys[p], keys[j]); }
    }
  }

  lemma FoundIsScan(table: seq<DirentKey>, q: DirentKey, at: nat)
    requires GoodTable(table) && at < |table| && table[at] == q
    ensures StrictTable(table) ==> at == CountBelow(LongKeys(table), LongKey(q))
  {
    var keys := LongKeys(table);
    if StrictTable(table) {
      if at > 0 {
        LongKeyInjective(table[at - 1], table[at]);
        LtIsLeq(keys[at - 1], keys[at]);
      }
      LeqRefl(LongKey(q));
      CountBelowUnique(keys, LongKey(q), at);
    }
  }

  /** The loop invariant of the search: item l is not above the query, item u is. */
  ghost predicate Brackets(table: seq<DirentKey>, q: DirentKey, l: nat, u: nat) {
    && l < u <= |table|
    && Leq(LongKeys(table)[l], LongKey(q))
    && (u < |table| ==> Lt(LongKey(q), LongKeys(table)[u]))
  }

  /** A probe inside a bracket answers as the scan does, or narrows the bracket. */
  lemma ProbeNarrows(table: seq<DirentKey>, q: DirentKey, l: nat, u: nat)
    requires GoodTable(table) && q.ns < 128 && Brackets(table, q, l, u)
    ensures match ProbeOf(table, q, l, u)
            case Found(at) => at < |table| && table[at] == q && (StrictTable(table) ==> at == CountBelow(LongKeys(table), LongKey(q)))
            case Missing(p) => q !in table && p == CountBelow(LongKeys(table), LongKey(q))
            case Next(l', u') => Brackets(table, q, l', u') && u' - l' < u - l
  {
    var p := l + (u - l) / 2;
    CompareIsKeyOrder(q, table[p]);
    match ProbeOf(table, q, l, u) {
      case Found(at) => FoundIsScan(table, q, at);
      case Missing(at) => MissingAt(table, q, u);
      case Next(l', u') => LtIsLeq(LongKeys(table)[p], LongKey(q));
    }
  }

  // ---------------------------------------------------------------- the class

  class DirentLookup {
    const impl: seq<DirentKey>
    const step: nat
    var lookupGrid: ND.NarrowDown
    var namespaceBoundaryCache: map<byte, nat>

    ghost predicate Valid()
      reads this, lookupGrid
    {
      && GoodTable(impl)
      && step >= 1
      && lookupGrid.Grid() == WholeGrid(LongKeys(impl), step)
      && (forall ch :: ch in namespaceBoundaryCache ==> namespaceBoundaryCache[ch] == CountBelow(LongKeys(impl), [ch]))
    }

    /** Samples every `step`-th item. Over a sorted table no `add` fails. */
    constructor (table: seq<DirentKey>, cacheEntryCount: nat)
      requires GoodTable(table) && cacheEntryCount > 0
      requires |table| + Step(|table|, cacheEntryCount) <= TWO32
      requires AreaFits(LongKeys(table), Step(|table|, cacheEntryCount))
      ensures Valid() && impl == table && step == Step(|table|, cacheEntryCount)
      ensures fresh(lookupGrid)
    {
      impl := table;
      step := Step(|table|, cacheEntryCount);
      namespaceBoundaryCache := map[];
      lookupGrid := new ND.NarrowDown();
      new;
      if |table| > 0 { Sample(table, step, lookupGrid); }
    }

    /** Agrees with the linear scan: the query is found exactly if it is in the table, then at an
        index that holds it; otherwise the answer is how many keys are below it. */
    method Find(ns: byte, url: Str) returns (found: bool, idx: nat)
      requires Valid() && ns < 128
      ensures found <==> DirentKey(ns, url) in impl
      ensures found ==> idx < |impl| && impl[idx] == DirentKey(ns, url)
      ensures !found ==> idx == CountBelow(LongKeys(impl), LongKey(DirentKey(ns, url)))
      ensures StrictTable(impl) ==> idx == CountBelow(LongKeys(impl), LongKey(DirentKey(ns, url)))
    {
      var q := DirentKey(ns, url);
      var r := lookupGrid.GetRange(LongKey(q));
      SearchStarts(impl, q, step);
      var l, u := r.begin, r.end;
      if l == u { return false, l; }
      while true
        invariant Brackets(impl, q, l, u)
        decreases u - l
      {
        ProbeNarrows(impl, q, l, u);
        match ProbeOf(impl, q, l, u) {
          case Found(at) => return true, at;
          case Missing(insertAt) => return false, insertAt;
          case Next(l', u') => l, u := l', u';
        }
      }
    }

    method GetNamespaceRangeBegin(ch: byte) returns (r: nat)
      requires Valid() && 32 <= ch <= 127 && |impl| > 0
      modifies this`namespaceBoundaryCache
      ensures Valid()
      ensures r == CountBelow(LongKeys(impl), [ch])
    {
      if ch in namespaceBoundaryCache { return namespaceBoundaryCache[ch]; }
      r := GetNamespaceBeginOffset(impl, ch);
      namespaceBoundaryCache := namespaceBoundaryCache[ch := r];
    }

    method GetNamespaceRangeEnd(ns: byte) returns (r: nat)
      requires Valid() && 31 <= ns <= 126 && |impl| > 0
      modifies this`namespaceBoundaryCache
      ensures Valid()
      ensures r == CountBelow(LongKeys(impl), [ns + 1])
    {
      r := GetNamespaceRangeBegin(ns + 1);
    }
  }

  lemma SearchStarts(table: seq<DirentKey>, q: DirentKey, step: nat)
    requires GoodTable(table) && step >= 1
    ensures var r := ND.RangeOf(WholeGrid(LongKeys(table), step), LongKey(q));
            if r.begin == r.end
            then q !in table && r.begin == CountBelow(LongKeys(table), LongKey(q))
            else Brackets(table, q, r.begin, r.end)
  {
    WholeGridCompletes(LongKeys(table), step);
    ND.RangeNarrows(WholeGrid(LongKeys(table), step), LongKeys(table), LongKey(q));
    if table == [] || Lt(LongKey(q), LongKeys(table)[0]) { MissingAt(table, q, 0); }
  }

  /** `getNamespaceBeginOffset`: a binary search for the first dirent whose namespace is at least `ch`. */
  method GetNamespaceBeginOffset(table: seq<DirentKey>, ch: byte) returns (r: nat)
    requires GoodTable(table) && |table| > 0 && 32 <= ch <= 127
    ensures r == CountBelow(LongKeys(table), [ch])
  {
    ghost var keys := LongKeys(table);
    var lower, upper := 0, |table|;
    while upper - lower > 1
      invariant lower < upper <= |table|
      invariant lower > 0 ==> table[lower].ns < ch
      invariant upper < |table| ==> table[upper].ns >= ch
    {
      var m := lower + (upper - lower) / 2;
      if table[m].ns >= ch { upper := m; } else { lower := m; }
    }
    r := if table[0].ns < ch then upper else lower;
    NamespaceBelow(table, ch, 0);
    NamespaceBelow(table, ch, lower);
    if r > 0 { NamespaceBelow(table, ch, r - 1); }
    if r < |table| { NamespaceBelow(table, ch, r); }
    CountBelowUnique(keys, [ch], r);
  }

  lemma LtSingleton(k: Str, c: byte)
    requires k != []
    ensures Lt(k, [c]) <==> k[0] < c
  {
    assert [c][1..] == [];
    assert Leq([c][1..], k[1..]);
  }

  lemma NamespaceBelow(table: seq<DirentKey>, ch: byte, i: nat)
    requires i < |table|
    ensures Lt(LongKeys(table)[i], [ch]) <==> table[i].ns < ch
  {
    LtSingleton(LongKeys(table)[i], ch);
  }

  /** The boundaries of consecutive namespaces partition the table: dirent i is in namespace `ch`
      exactly if it lies between the boundary of `ch` and that of `ch + 1`. */
  lemma NamespacesPartition(table: seq<DirentKey>, ch: byte, i: nat)
    requires GoodTable(table) && ch < 127 && i < |table|
    ensures CountBelow(LongKeys(table), [ch]) <= i < CountBelow(LongKeys(table), [ch + 1]) <==> table[i].ns == ch
  {
    CountBelowSplits(LongKeys(table), [ch]);
    CountBelowSplits(LongKeys(table), [ch + 1]);
    NamespaceBelow(table, ch, i);
    NamespaceBelow(table, ch + 1, i);
  }

  // ---------------------------------------------------------------- the edge of the search

  /** k probes of the search loop from (l, u), or `Next` if it is still running. */
  function Probes(table: seq<DirentKey>, q: DirentKey, l: nat, u: nat, k: nat): Probe
    requires l <= u <= |table| && l < |table|
    decreases k
  {
    if k == 0 then Next(l, u) else
      match ProbeOf(table, q, l, u)
      case Next(l', u') => Probes(table, q, l', u', k - 1)
      case done => done
  }

  lemma {:induction false} StalledProbes(table: seq<DirentKey>, q: DirentKey, k: nat)
    requires |table| > 0 && Compare(q, table[|table| - 1]) < 0
    ensures Probes(table, q, |table| - 1, |table| - 1, k) == Next(|table| - 1, |table| - 1)
  {
    if k > 0 { StalledProbes(table, q, k - 1); }
  }

  /** The index orders keys by unsigned bytes, the search compares namespaces as signed chars. For a
      namespace outside ASCII the index answers the last item, every probe answers "before it", and
      the loop never returns. */
  lemma NonAsciiNeverReturns(table: seq<DirentKey>, q: DirentKey, step: nat, k: nat)
    requires GoodTable(table) && |table| > 0 && step >= 1 && q.ns >= 128
    ensures var r := ND.RangeOf(WholeGrid(LongKeys(table), step), LongKey(q));
            r == ND.Range(|table| - 1, |table|) &&
            Probes(table, q, r.begin, r.end, k).Next?
  {
    var keys := LongKeys(table);
    var grid := WholeGrid(keys, step);
    WholeGridCompletes(keys, step);
    ND.UpperBoundSplits(grid, LongKey(q));
    var last := grid[|grid| - 1];
    assert last.key == LongKey(table[|table| - 1]);
    assert Leq(last.key, LongKey(q));
    if k > 0 { StalledProbes(table, q, k - 1); }
  }
}
