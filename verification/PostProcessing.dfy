/** The creator's table of dirents: adding, resolving redirects, numbering the entries
    (src/writer/creator.cpp, src/writer/_dirent.h).

    `std::set<Dirent*, UrlCompare>` is a strictly sorted sequence of dirents. With ASCII namespaces
    the order of `compareUrl` is the order of the strings made of namespace and path. */
module PostProcessing {
  import opened Bytes
  import opened DirentLookup
  import DF = DirentFormat

  /** A writer dirent. Its path, and where it redirects to, are set when it is created; so is
      whether it is a redirect, which `mimeType == 0xffff` says in the source. */
  class Dirent {
    const key: DirentKey
    const title: Str
    const isRedirect: bool
    const target: DirentKey
    var mimeType: nat
    var redirect: Dirent?
    var idx: nat
    var removed: bool

    constructor (key: DirentKey, title: Str, isRedirect: bool, target: DirentKey)
      ensures this.key == key && this.title == title && this.isRedirect == isRedirect && this.target == target
      ensures redirect == null && idx == 0 && !removed && mimeType == if isRedirect then DF.REDIRECT_MIME else 0
    {
      this.key, this.title, this.isRedirect, this.target := key, title, isRedirect, target;
      mimeType := if isRedirect then DF.REDIRECT_MIME else 0;
      redirect, idx, removed := null, 0, false;
    }

    function GetTitle(): Str {
      if title == [] then key.url else title
    }

    /** `getRedirectIndex`. */
    function GetRedirectIndex(): nat
      reads this, redirect
    {
      if redirect == null then 0 else redirect.idx
    }
  }

  ghost predicate Ordered(s: seq<Dirent>) {
    forall i, j :: 0 <= i < j < |s| ==> Lt(LongKey(s[i].key), LongKey(s[j].key))
  }

  /** `find`, and the place for a key that is not there. */
  function Place(s: seq<Dirent>, key: DirentKey): (p: nat)
    ensures p <= |s|
  {
    if s == [] || Leq(LongKey(key), LongKey(s[0].key)) then 0 else 1 + Place(s[1..], key)
  }

  predicate Has(s: seq<Dirent>, key: DirentKey) {
    Place(s, key) < |s| && s[Place(s, key)].key == key
  }

  lemma {:induction false} PlaceSplits(s: seq<Dirent>, key: DirentKey)
    requires Ordered(s)
    ensures forall i :: 0 <= i < Place(s, key) ==> Lt(LongKey(s[i].key), LongKey(key))
    ensures forall i :: Place(s, key) <= i < |s| ==> Leq(LongKey(key), LongKey(s[i].key))
  {
    if s != [] {
      if Leq(LongKey(key), LongKey(s[0].key)) {
        forall i | 0 < i < |s| ensures Leq(LongKey(key), LongKey(s[i].key)) {
          LtIsLeq(LongKey(s[0].key), LongKey(s[i].key));
          LeqTrans(LongKey(key), LongKey(s[0].key), LongKey(s[i].key));
        }
      } else {
        PlaceSplits(s[1..], key);
      }
    }
  }

  /** The key is there exactly when the place for it holds it. */
  lemma HasIff(s: seq<Dirent>, key: DirentKey)
    requires Ordered(s)
    ensures Has(s, key) <==> exists i :: 0 <= i < |s| && s[i].key == key
    ensures forall i :: 0 <= i < |s| && s[i].key == key ==> i == Place(s, key)
  {
    PlaceSplits(s, key);
    LtIrrefl(LongKey(key));
  }

  // ---------------------------------------------------------------- adding a dirent

  /** The redirects of the table, in its order: `unresolvedRedirectDirents`. */
  function Redirects(s: seq<Dirent>): seq<Dirent> {
    if s == [] then [] else (if s[0].isRedirect then [s[0]] else []) + Redirects(s[1..])
  }

  /** A new path is inserted; a redirect that is there gives way to an item; else the new one is refused. */
  function Added(s: seq<Dirent>, d: Dirent): seq<Dirent> {
    var p := Place(s, d.key);
    if !Has(s, d.key) then s[..p] + [d] + s[p..]
    else if s[p].isRedirect && !d.isRedirect then s[p := d]
    else s
  }

  lemma AddedOrdered(s: seq<Dirent>, d: Dirent)
    requires Ordered(s)
    ensures Ordered(Added(s, d))
  {
    var p := Place(s, d.key);
    PlaceSplits(s, d.key);
    HasIff(s, d.key);
    hide Place, Leq, Lt;
    if !Has(s, d.key) {
      forall i | p <= i < |s| ensures Lt(LongKey(d.key), LongKey(s[i].key)) {
        LtIsLeq(LongKey(d.key), LongKey(s[i].key));
        LongKeyInjective(d.key, s[i].key);
      }
    }
  }

  /** What a run of additions leaves at a path: the first item, or without one the first redirect. */
  function Winner(ds: seq<Dirent>, key: DirentKey): (w: int)
    ensures -1 <= w < |ds|
  {
    if ds == [] then -1
    else
      var n := |ds| - 1;
      var w := Winner(ds[..n], key);
      if ds[n].key == key && (w == -1 || (ds[w].isRedirect && !ds[n].isRedirect)) then n else w
  }

  function AddAll(ds: seq<Dirent>): seq<Dirent> {
    if ds == [] then [] else Added(AddAll(ds[..|ds| - 1]), ds[|ds| - 1])
  }

  /** `w` is the first item of that path, or the first redirect when there is no item. */
  ghost predicate IsWinner(ds: seq<Dirent>, key: DirentKey, w: nat) {
    && w < |ds| && ds[w].key == key
    && (forall i :: 0 <= i < |ds| && ds[i].key == key && !ds[i].isRedirect ==> !ds[w].isRedirect && w <= i)
    && (forall i :: 0 <= i < |ds| && ds[i].key == key && ds[w].isRedirect ==> w <= i)
  }

  lemma {:induction false} WinnerIsFirst(ds: seq<Dirent>, key: DirentKey)
    ensures if Winner(ds, key) == -1 then forall i :: 0 <= i < |ds| ==> ds[i].key != key
            else IsWinner(ds, key, Winner(ds, key))
  {
    if ds != [] {
      var n := |ds| - 1;
      WinnerIsFirst(ds[..n], key);
      assert forall i :: 0 <= i < n ==> ds[..n][i] == ds[i];
    }
  }

  /** What the table holds for a key. */
  function At(s: seq<Dirent>, key: DirentKey): Dirent? {
    if Has(s, key) then s[Place(s, key)] else null
  }

  lemma AtIndex(s: seq<Dirent>, key: DirentKey, i: nat)
    requires Ordered(s) && i < |s| && s[i].key == key
    ensures Has(s, key) && Place(s, key) == i && At(s, key) == s[i]
  {
    HasIff(s, key);
  }

  lemma AddedAt(s: seq<Dirent>, d: Dirent, key: DirentKey)
    requires Ordered(s)
    ensures var there := At(s, key);
            At(Added(s, d), key) == if key == d.key && (there == null || (there.isRedirect && !d.isRedirect)) then d else there
  {
    var t, p := Added(s, d), Place(s, d.key);
    AddedOrdered(s, d);
    HasIff(s, key);
    HasIff(s, d.key);
    HasIff(t, key);
    hide Place, Ordered;
    if Has(s, key) {
      var i := Place(s, key);
      if Has(s, d.key) {
        assert t[i].key == key;
      } else {
        assert t[if i < p then i else i + 1] == s[i];
      }
    } else if key == d.key {
      assert t[p] == d;
    } else {
      assert forall j :: 0 <= j < |t| ==> t[j] == d || t[j] in s;
    }
  }

  /** After any run of additions, a path holds the first item added there, or without one the first
      redirect; a path nobody added holds nothing. */
  lemma {:induction false} FirstItemWins(ds: seq<Dirent>, key: DirentKey)
    ensures Ordered(AddAll(ds))
    ensures At(AddAll(ds), key) == if Winner(ds, key) == -1 then null else ds[Winner(ds, key)]
  {
    if ds != [] {
      var n := |ds| - 1;
      FirstItemWins(ds[..n], key);
      AddedOrdered(AddAll(ds[..n]), ds[n]);
      AddedAt(AddAll(ds[..n]), ds[n], key);
      hide Ordered, At, Added;
    } else {
      assert AddAll(ds) == [];
    }
  }

  /** The table holds added dirents only, and no more than were added. */
  lemma {:induction false} AddAllFrom(ds: seq<Dirent>)
    ensures |AddAll(ds)| <= |ds| && forall d :: d in AddAll(ds) ==> d in ds
  {
    if ds != [] {
      var n := |ds| - 1;
      AddAllFrom(ds[..n]);
      AddedFrom(AddAll(ds[..n]), ds[n]);
      hide Added;
    }
  }

  lemma AddedFrom(s: seq<Dirent>, d: Dirent)
    ensures |Added(s, d)| <= |s| + 1 && forall e :: e in Added(s, d) ==> e == d || e in s
  {
    hide Place;
  }

  // ---------------------------------------------------------------- which redirects are removed

  /** The redirect is removed: there is no dirent at its target, or there was one before it in the
      order, and that one has been removed. */
  predicate Dead(all: seq<Dirent>, i: nat)
    requires i < |all|
    decreases i
  {
    && all[i].isRedirect
    && (!Has(all, all[i].target) || (Place(all, all[i].target) < i && Dead(all, Place(all, all[i].target))))
  }

  /** The dirents that stay, of the first n. */
  function Kept(all: seq<Dirent>, n: nat): seq<Dirent>
    requires n <= |all|
  {
    if n == 0 then [] else Kept(all, n - 1) + (if Dead(all, n - 1) then [] else [all[n - 1]])
  }

  lemma {:induction false} KeptFrom(all: seq<Dirent>, n: nat)
    requires n <= |all|
    ensures forall d :: d in Kept(all, n) <==> exists i :: 0 <= i < n && all[i] == d && !Dead(all, i)
  {
    if n > 0 {
      KeptFrom(all, n - 1);
      hide Dead;
    }
  }

  lemma {:induction false} KeptOrdered(all: seq<Dirent>, n: nat)
    requires Ordered(all) && n <= |all|
    ensures Ordered(Kept(all, n) + all[n..])
  {
    if n == 0 {
      assert all[0..] == all;
      assert Kept(all, 0) + all[0..] == all;
    } else {
      KeptOrdered(all, n - 1);
      assert all[n - 1..] == [all[n - 1]] + all[n..];
      var k := Kept(all, n - 1);
      if !Dead(all, n - 1) {
        assert k + all[n - 1..] == (k + [all[n - 1]]) + all[n..];
      } else {
        assert k + all[n - 1..] == k + ([all[n - 1]] + all[n..]);
        SkipOrdered(k, all[n - 1], all[n..]);
        assert Kept(all, n) == k;
      }
    }
  }

  /** The final entries: in order, from the table, and no more than it had. */
  lemma FinalOrdered(all: seq<Dirent>)
    requires Ordered(all)
    ensures Ordered(Kept(all, |all|)) && |Kept(all, |all|)| <= |all|
  {
    KeptOrdered(all, |all|);
    KeptSize(all, |all|);
    assert Kept(all, |all|) + all[|all|..] == Kept(all, |all|);
  }

  lemma {:induction false} KeptSize(all: seq<Dirent>, n: nat)
    requires n <= |all|
    ensures |Kept(all, n)| <= n
  {
    if n > 0 { KeptSize(all, n - 1); }
  }

  lemma SkipOrdered(a: seq<Dirent>, d: Dirent, b: seq<Dirent>)
    requires Ordered(a + ([d] + b))
    ensures Ordered(a + b)
  {
    var s, t := a + ([d] + b), a + b;
    assert forall i :: 0 <= i < |t| ==> t[i] == s[if i < |a| then i else i + 1];
  }

  /** What is left of the table when the redirects before i have been resolved. */
  function Left(all: seq<Dirent>, i: nat): seq<Dirent>
    requires i <= |all|
  {
    Kept(all, i) + all[i..]
  }

  lemma FoundIsAlive(all: seq<Dirent>, i: nat, key: DirentKey)
    requires Ordered(all) && i < |all| && Has(Left(all, i), key)
    ensures Has(all, key) && (Place(all, key) < i ==> !Dead(all, Place(all, key)))
    ensures At(Left(all, i), key) == At(all, key)
  {
    hide Kept, Ordered, Leq, Lt, Place, Dead;
    var now := Left(all, i);
    var p := Place(now, key);
    var j := LeftIndex(all, i, p);
    AtIndex(all, key, j);
  }

  /** Where an element of what is left was in the table. */
  lemma LeftIndex(all: seq<Dirent>, i: nat, p: nat) returns (j: nat)
    requires i <= |all| && p < |Left(all, i)|
    ensures j < |all| && all[j] == Left(all, i)[p] && (j < i ==> !Dead(all, j))
  {
    hide Dead;
    if p >= |Kept(all, i)| {
      j := i + (p - |Kept(all, i)|);
    } else {
      j := KeptIndex(all, i, p);
    }
  }

  lemma AliveIsFound(all: seq<Dirent>, i: nat, key: DirentKey)
    requires Ordered(all) && i < |all| && Has(all, key) && (Place(all, key) < i ==> !Dead(all, Place(all, key)))
    ensures Has(Left(all, i), key)
  {
    var now, t := Left(all, i), Place(all, key);
    KeptOrdered(all, i);
    KeptFrom(all, i);
    hide Kept, Ordered, Leq, Lt, Place;
    if t >= i {
      assert now[|Kept(all, i)| + (t - i)] == all[t];
      AtIndex(now, key, |Kept(all, i)| + (t - i));
    } else {
      assert all[t] in Kept(all, i);
      var j :| 0 <= j < |Kept(all, i)| && Kept(all, i)[j] == all[t];
      assert now[j] == all[t];
      AtIndex(now, key, j);
    }
  }

  /** At the turn of redirect i, its target is in what is left of the table unless it is dead. */
  lemma TargetStillThere(all: seq<Dirent>, i: nat)
    requires Ordered(all) && i < |all| && all[i].isRedirect
    ensures Has(Left(all, i), all[i].target) <==> !Dead(all, i)
    ensures !Dead(all, i) ==> At(Left(all, i), all[i].target) == At(all, all[i].target)
  {
    var key := all[i].target;
    if Has(Left(all, i), key) { FoundIsAlive(all, i, key); }
    hide Left, Has, At;
    if !Dead(all, i) { AliveIsFound(all, i, key); }
  }

  // ---------------------------------------------------------------- the redirects in the table's order

  lemma {:induction false} RedirectsAppend(a: seq<Dirent>, b: seq<Dirent>)
    ensures Redirects(a + b) == Redirects(a) + Redirects(b)
  {
    if a == [] {
      assert a + b == b;
    } else {
      RedirectsAppend(a[1..], b);
      assert (a + b)[1..] == a[1..] + b && (a + b)[0] == a[0];
      var x, y, z := if a[0].isRedirect then [a[0]] else [], Redirects(a[1..]), Redirects(b);
      assert x + (y + z) == (x + y) + z;
    }
  }

  lemma {:induction false} RedirectsOf(s: seq<Dirent>)
    ensures forall d :: d in Redirects(s) ==> d in s && d.isRedirect
  {
    if s != [] { RedirectsOf(s[1..]); }
  }

  lemma {:induction false} PlaceAmongRedirects(s: seq<Dirent>, key: DirentKey)
    requires Ordered(s)
    ensures Place(Redirects(s), key) == |Redirects(s[..Place(s, key)])|
  {
    var p := Place(s, key);
    PlaceSplits(s, key);
    RedirectsAppend(s[..p], s[p..]);
    assert s == s[..p] + s[p..];
    var a, b := Redirects(s[..p]), Redirects(s[p..]);
    RedirectsOf(s[..p]);
    RedirectsOf(s[p..]);
    hide Redirects, Place, Leq, Lt, Ordered;
    forall d | d in a ensures Lt(LongKey(d.key), LongKey(key)) {
      assert d in s[..p];
    }
    if b != [] {
      assert b[0] in b;
      assert b[0] in s[p..];
    }
    PlaceBetween(a, b, key);
  }

  lemma {:induction false} PlaceBetween(a: seq<Dirent>, b: seq<Dirent>, key: DirentKey)
    requires forall d :: d in a ==> Lt(LongKey(d.key), LongKey(key))
    requires b == [] || Leq(LongKey(key), LongKey(b[0].key))
    ensures Place(a + b, key) == |a|
  {
    if a == [] {
      assert a + b == b;
    } else {
      assert a[0] in a;
      PlaceBetween(a[1..], b, key);
      assert (a + b)[1..] == a[1..] + b;
    }
  }

  /** Where the next redirect is, behind items that nobody resolves. */
  lemma {:induction false} NextRedirect(all: seq<Dirent>, i: nat) returns (r: nat)
    requires i <= |all| && Redirects(all[i..]) != []
    ensures i <= r < |all| && all[r].isRedirect && Redirects(all[i..]) == [all[r]] + Redirects(all[r + 1..])
    ensures forall k :: i <= k < r ==> !all[k].isRedirect
    ensures Left(all, r) == Left(all, i)
    decreases |all| - i
  {
    assert i < |all|;
    assert all[i..][1..] == all[i + 1..];
    if all[i].isRedirect {
      r := i;
    } else {
      assert Redirects(all[i..]) == Redirects(all[i + 1..]);
      assert Kept(all, i + 1) == Kept(all, i) + [all[i]];
      assert Kept(all, i) + all[i..] == (Kept(all, i) + [all[i]]) + all[i + 1..];
      hide Redirects, Kept;
      r := NextRedirect(all, i + 1);
    }
  }

  lemma {:induction false} NoMoreRedirects(all: seq<Dirent>, i: nat)
    requires i <= |all| && Redirects(all[i..]) == []
    ensures Left(all, i) == Kept(all, |all|)
    ensures forall k :: i <= k < |all| ==> !all[k].isRedirect
    decreases |all| - i
  {
    if i < |all| {
      assert all[i..][1..] == all[i + 1..];
      NoMoreRedirects(all, i + 1);
      assert Kept(all, i + 1) == Kept(all, i) + [all[i]];
      assert Kept(all, i) + all[i..] == (Kept(all, i) + [all[i]]) + all[i + 1..];
    } else {
      assert Kept(all, i) + all[i..] == Kept(all, i);
    }
  }

  lemma LeftNext(all: seq<Dirent>, r: nat)
    requires Ordered(all) && r < |all|
    ensures Place(Left(all, r), all[r].key) == |Kept(all, r)| && Has(Left(all, r), all[r].key)
    ensures var p := |Kept(all, r)|;
            Left(all, r + 1) == if Dead(all, r) then Left(all, r)[..p] + Left(all, r)[p + 1..] else Left(all, r)
  {
    var p := |Kept(all, r)|;
    KeptOrdered(all, r);
    assert Kept(all, r + 1) == Kept(all, r) + if Dead(all, r) then [] else [all[r]];
    hide Dead, Kept, Ordered, Place, Has;
    assert all[r..] == [all[r]] + all[r + 1..];
    assert Left(all, r)[p] == all[r];
    AtIndex(Left(all, r), all[r].key, p);
  }

  /** The dirent has been removed by the time of turn i. */
  ghost predicate Lost(all: seq<Dirent>, i: nat, d: Dirent?)
    requires i <= |all|
  {
    exists k :: 0 <= k < i && all[k] == d && Dead(all, k)
  }

  lemma LostNext(all: seq<Dirent>, i: nat, r: nat, d: Dirent?)
    requires i <= r < |all| && forall k :: i <= k < r ==> !all[k].isRedirect
    ensures Lost(all, r + 1, d) <==> Lost(all, i, d) || (d == all[r] && Dead(all, r))
  {
    if Lost(all, r + 1, d) {
      var k :| 0 <= k < r + 1 && all[k] == d && Dead(all, k);
      assert k < i || k == r;
    }
  }

  /** Resolved: marked removed exactly when dead, and otherwise pointing at the dirent that was at
      the target before anything was removed. */
  ghost predicate Resolved(all: seq<Dirent>, i: nat, removed: bool, redirect: Dirent?)
    requires i < |all|
  {
    && removed == Dead(all, i)
    && redirect == if all[i].isRedirect && !Dead(all, i) then At(all, all[i].target) else null
  }

  /** The dirents before i are resolved, and the others as they were. */
  ghost predicate HalfResolved(all: seq<Dirent>, i: nat)
    requires i <= |all|
    reads all`redirect, all`removed
  {
    && (forall k :: 0 <= k < i ==> Resolved(all, k, all[k].removed, all[k].redirect))
    && (forall k :: i <= k < |all| ==> all[k].redirect == null && !all[k].removed)
  }

  lemma ItemsResolved(all: seq<Dirent>, i: nat, r: nat)
    requires i <= r <= |all| && HalfResolved(all, i)
    requires forall k :: i <= k < r ==> !all[k].isRedirect
    ensures HalfResolved(all, r)
  {
  }

  /** The redirects whose turn is still to come. */
  function ToDo(all: seq<Dirent>, i: nat): seq<Dirent>
    requires i <= |all|
  {
    Redirects(all[i..])
  }

  /** What happens at the turn of the next redirect behind i. */
  lemma TurnOf(all: seq<Dirent>, i: nat) returns (r: nat)
    requires Ordered(all) && i <= |all| && ToDo(all, i) != []
    ensures i <= r < |all| && all[r].isRedirect
    ensures ToDo(all, i)[0] == all[r] && ToDo(all, i)[1..] == ToDo(all, r + 1)
    ensures forall k :: i <= k < r ==> !all[k].isRedirect
    ensures var now, p := Left(all, i), Place(Left(all, i), all[r].key);
            && (Has(now, all[r].target) <==> !Dead(all, r))
            && (!Dead(all, r) ==> At(now, all[r].target) == At(all, all[r].target))
            && p < |now| && Left(all, r + 1) == if Dead(all, r) then now[..p] + now[p + 1..] else now
  {
    r := NextRedirect(all, i);
    TargetStillThere(all, r);
    LeftNext(all, r);
    hide Redirects, Dead, Ordered, At;
  }

  lemma LostAtEnd(all: seq<Dirent>, i: nat, d: Dirent?)
    requires i <= |all| && Redirects(all[i..]) == []
    ensures Lost(all, |all|, d) <==> Lost(all, i, d)
  {
    NoMoreRedirects(all, i);
    if Lost(all, |all|, d) {
      var k :| 0 <= k < |all| && all[k] == d && Dead(all, k);
      assert k < i;
    }
  }

  lemma TurnOfFound(all: seq<Dirent>, i: nat, r: nat)
    requires i <= r < |all| && Has(Left(all, i), all[r].target)
    requires At(Left(all, i), all[r].target) == At(all, all[r].target)
    ensures var t := Place(Left(all, i), all[r].target);
            t < |Left(all, i)| && Left(all, i)[t] == At(all, all[r].target)
  {
    hide Left, Place, Dead;
  }

  lemma OnlyOne(s: seq<Dirent>, r: nat)
    requires Ordered(s) && r < |s|
    ensures forall k :: 0 <= k < |s| && k != r ==> s[k] != s[r]
  {
    DistinctDirents(s);
  }

  lemma DistinctDirents(s: seq<Dirent>)
    requires Ordered(s)
    ensures forall i, j :: 0 <= i < j < |s| ==> s[i] != s[j]
  {
    forall i, j | 0 <= i < j < |s| ensures s[i] != s[j] { LtIrrefl(LongKey(s[i].key)); }
  }

  class CreatorDirents {
    var dirents: seq<Dirent>
    var unresolvedRedirectDirents: seq<Dirent>
    var mainPageDirent: Dirent?

    ghost predicate Valid()
      reads this
    {
      Ordered(dirents) && unresolvedRedirectDirents == Redirects(dirents)
    }

    constructor ()
      ensures Valid() && dirents == [] && mainPageDirent == null
    {
      dirents, unresolvedRedirectDirents, mainPageDirent := [], [], null;
    }

    method AddDirent(dirent: Dirent)
      requires Valid()
      modifies this`dirents, this`unresolvedRedirectDirents
      ensures Valid() && dirents == Added(old(dirents), dirent)
    {
      var p, u := Place(dirents, dirent.key), Place(unresolvedRedirectDirents, dirent.key);
      AddedOrdered(dirents, dirent);
      PlaceAmongRedirects(dirents, dirent.key);
      SplitRedirects(dirents, p);
      if Has(dirents, dirent.key) {
        if dirents[p].isRedirect && !dirent.isRedirect {
          ReplacedRedirects(dirents, p, dirent);
          unresolvedRedirectDirents := unresolvedRedirectDirents[..u] + unresolvedRedirectDirents[u + 1..];
          dirents := dirents[p := dirent];
        }
        return;
      }
      InsertedRedirects(dirents, p, dirent);
      dirents := dirents[..p] + [dirent] + dirents[p..];
      if dirent.isRedirect {
        unresolvedRedirectDirents := unresolvedRedirectDirents[..u] + [dirent] + unresolvedRedirectDirents[u..];
      }
    }

    method ResolveRedirectIndexes()
      requires Valid()
      requires forall i :: 0 <= i < |dirents| ==> dirents[i].redirect == null && !dirents[i].removed
      modifies this`dirents, this`mainPageDirent, dirents`redirect, dirents`removed
      ensures dirents == Kept(old(dirents), |old(dirents)|)
      ensures HalfResolved(old(dirents), |old(dirents)|)
      ensures mainPageDirent == if Lost(old(dirents), |old(dirents)|, old(mainPageDirent)) then null else old(mainPageDirent)
    {
      ghost var all, main := dirents, mainPageDirent;
      ghost var i: nat := 0;
      var todo := unresolvedRedirectDirents;
      assert all[0..] == all && Left(all, 0) == all;
      RedirectsOf(all);
      hide Redirects, Left, Resolved;
      for j := 0 to |todo|
        invariant i <= |all| && ToDo(all, i) == todo[j..]
        invariant dirents == Left(all, i) && HalfResolved(all, i)
        invariant mainPageDirent == if Lost(all, i, main) then null else main
      {
        hide HalfResolved, Lost;
        assert todo[j] in todo && todo[j] in all;
        i := ResolveOne(all, i, todo[j], main);
      }
      LostAtEnd(all, i, main);
      NoMoreRedirects(all, i);
      ItemsResolved(all, i, |all|);
    }

    /** The turn of one redirect; `i` is the place behind the one before it. */
    method ResolveOne(ghost all: seq<Dirent>, ghost i: nat, dirent: Dirent, ghost main: Dirent?) returns (ghost next: nat)
      requires Ordered(all) && i <= |all| && dirents == Left(all, i) && HalfResolved(all, i)
      requires ToDo(all, i) != [] && dirent == ToDo(all, i)[0]
      requires mainPageDirent == if Lost(all, i, main) then null else main
      modifies this`dirents, this`mainPageDirent, dirent`redirect, dirent`removed
      ensures next <= |all| && dirents == Left(all, next) && HalfResolved(all, next)
      ensures ToDo(all, next) == ToDo(all, i)[1..]
      ensures mainPageDirent == if Lost(all, next, main) then null else main
    {
      ghost var r := TurnOf(all, i);
      OnlyOne(all, r);
      ItemsResolved(all, i, r);
      LostNext(all, i, r, main);
      hide *;
      next := r + 1;
      var p, t := Place(dirents, dirent.key), Place(dirents, dirent.target);
      if Has(dirents, dirent.target) {
        assert t < |dirents| && dirents[t] == At(all, dirent.target) by { TurnOfFound(all, i, r); }
        ResolveFound(all, r, dirent, dirents[t]);
      } else {
        ResolveMissing(all, r, dirent, p);
      }
    }

    method ResolveFound(ghost all: seq<Dirent>, ghost r: nat, dirent: Dirent, target: Dirent)
      requires r < |all| && all[r] == dirent && dirent.isRedirect && HalfResolved(all, r)
      requires forall k :: 0 <= k < |all| && k != r ==> all[k] != dirent
      requires !Dead(all, r) && target == At(all, dirent.target)
      modifies dirent`redirect
      ensures HalfResolved(all, r + 1)
    {
      hide Dead, At;
      dirent.redirect := target;
    }

    method ResolveMissing(ghost all: seq<Dirent>, ghost r: nat, dirent: Dirent, p: nat)
      requires r < |all| && all[r] == dirent && dirent.isRedirect && HalfResolved(all, r)
      requires forall k :: 0 <= k < |all| && k != r ==> all[k] != dirent
      requires Dead(all, r) && p < |dirents|
      modifies this`dirents, this`mainPageDirent, dirent`removed
      ensures HalfResolved(all, r + 1)
      ensures dirents == old(dirents)[..p] + old(dirents)[p + 1..]
      ensures mainPageDirent == if old(mainPageDirent) == dirent then null else old(mainPageDirent)
    {
      hide Dead, At;
      dirents := dirents[..p] + dirents[p + 1..];
      dirent.removed := true;
      if dirent == mainPageDirent { mainPageDirent := null; }
    }

    method SetEntryIndexes()
      requires Valid() || Ordered(dirents)
      modifies dirents`idx
      ensures forall i :: 0 <= i < |dirents| ==> dirents[i].idx == i
    {
      DistinctDirents(dirents);
      hide Ordered;
      var idx := 0;
      while idx < |dirents|
        invariant 0 <= idx <= |dirents|
        invariant forall k :: 0 <= k < idx ==> dirents[k].idx == k
      {
        dirents[idx].idx := idx;
        idx := idx + 1;
      }
    }
  }

  /** A redirect that stays, and the number it will be written with. */
  ghost predicate NamesTarget(table: seq<Dirent>, d: Dirent)
    reads d, d.redirect
  {
    d.GetRedirectIndex() < |table| && table[d.GetRedirectIndex()].key == d.target
  }

  lemma AliveIsKept(all: seq<Dirent>, i: nat)
    requires i < |all|
    ensures all[i] in Kept(all, |all|) || Dead(all, i)
  {
    KeptFrom(all, |all|);
  }

  /** A final entry has the key of a dirent that is not dead. */
  lemma KeptKey(all: seq<Dirent>, key: DirentKey, j: nat)
    requires Ordered(all) && j < |Kept(all, |all|)| && Kept(all, |all|)[j].key == key
    ensures Has(all, key) && !Dead(all, Place(all, key))
  {
    var i := KeptIndex(all, |all|, j);
    hide Dead, Kept;
    AtIndex(all, key, i);
  }

  lemma {:induction false} KeptIndex(all: seq<Dirent>, n: nat, j: nat) returns (i: nat)
    requires n <= |all| && j < |Kept(all, n)|
    ensures i < n && all[i] == Kept(all, n)[j] && !Dead(all, i)
  {
    i := n - 1;
    if j < |Kept(all, n - 1)| { i := KeptIndex(all, n - 1, j); }
  }

  /** A redirect that stays is written with the final number of its target exactly when its target stays. */
  lemma RedirectNamesTarget(all: seq<Dirent>, table: seq<Dirent>, i: nat)
    requires Ordered(all) && table == Kept(all, |all|) && i < |all| && all[i].isRedirect && !Dead(all, i)
    requires HalfResolved(all, |all|)
    requires forall k :: 0 <= k < |table| ==> table[k].idx == k
    ensures Has(all, all[i].target)
    ensures NamesTarget(table, all[i]) <==> !Dead(all, Place(all, all[i].target))
  {
    var key := all[i].target;
    assert Resolved(all, i, all[i].removed, all[i].redirect);
    assert Has(all, key);
    var t := Place(all, key);
    AliveIsKept(all, t);
    if NamesTarget(table, all[i]) { KeptKey(all, key, all[i].GetRedirectIndex()); }
    if !Dead(all, t) {
      hide Kept, Dead, Ordered, HalfResolved;
      var j :| 0 <= j < |table| && table[j] == all[t];
      assert table[j].idx == j;
    }
  }

  /** A chain of redirects that goes down in the order of paths, each to the one before it, the last to
      a path where nothing was added. */
  ghost predicate DeadChain(all: seq<Dirent>, chain: seq<nat>) {
    && chain != []
    && (forall k :: 0 <= k < |chain| ==> chain[k] < |all| && all[chain[k]].isRedirect)
    && (forall k :: 0 <= k < |chain| - 1 ==> chain[k + 1] < chain[k] && all[chain[k + 1]].key == all[chain[k]].target)
    && (forall j :: 0 <= j < |all| ==> all[j].key != all[chain[|chain| - 1]].target)
  }

  lemma {:induction false} DeadHasChain(all: seq<Dirent>, i: nat) returns (chain: seq<nat>)
    requires Ordered(all) && i < |all| && Dead(all, i)
    ensures DeadChain(all, chain) && chain[0] == i
    decreases i
  {
    chain := [i];
    HasIff(all, all[i].target);
    if Has(all, all[i].target) {
      var rest := DeadHasChain(all, Place(all, all[i].target));
      chain := [i] + rest;
    }
  }

  lemma {:induction false} ChainIsDead(all: seq<Dirent>, chain: seq<nat>)
    requires Ordered(all) && DeadChain(all, chain)
    ensures Dead(all, chain[0])
    decreases |chain|
  {
    HasIff(all, all[chain[0]].target);
    if |chain| > 1 {
      assert DeadChain(all, chain[1..]);
      ChainIsDead(all, chain[1..]);
      AtIndex(all, all[chain[0]].target, chain[1]);
    }
  }

  /** Which redirects are removed, told from the table before anything is. */
  lemma DeadIffChain(all: seq<Dirent>, i: nat)
    requires Ordered(all) && i < |all|
    ensures Dead(all, i) <==> exists chain :: DeadChain(all, chain) && chain[0] == i
  {
    if Dead(all, i) { var chain := DeadHasChain(all, i); }
    hide Dead;
    if exists chain :: DeadChain(all, chain) && chain[0] == i {
      var chain :| DeadChain(all, chain) && chain[0] == i;
      ChainIsDead(all, chain);
    }
  }

  /** What the creator makes of the whole table: a redirect that stays is written with the final
      number of its target if and only if no descending chain of redirects leads from its target to a
      path where nothing was added. */
  lemma RedirectNamesTargetIff(all: seq<Dirent>, table: seq<Dirent>, i: nat)
    requires Ordered(all) && table == Kept(all, |all|) && i < |all| && all[i].isRedirect && !all[i].removed
    requires HalfResolved(all, |all|)
    requires forall k :: 0 <= k < |table| ==> table[k].idx == k
    ensures NamesTarget(table, all[i]) <==> forall chain :: DeadChain(all, chain) ==> all[chain[0]].key != all[i].target
  {
    assert Resolved(all, i, all[i].removed, all[i].redirect);
    RedirectNamesTarget(all, table, i);
    var key := all[i].target;
    var t := Place(all, key);
    DeadIffChain(all, t);
    hide *;
    forall chain | DeadChain(all, chain) && all[chain[0]].key == key ensures chain[0] == t {
      ChainStart(all, chain);
      AtIndex(all, key, chain[0]);
    }
    HasKeyAt(all, key);
  }

  lemma ChainStart(all: seq<Dirent>, chain: seq<nat>)
    requires DeadChain(all, chain)
    ensures chain != [] && chain[0] < |all|
  {
  }

  lemma HasKeyAt(all: seq<Dirent>, key: DirentKey)
    requires Has(all, key)
    ensures Place(all, key) < |all| && all[Place(all, key)].key == key
  {
    hide Place;
  }

  /** A redirects to B, and B, which comes after A, to nothing: A stays and points at B, B is removed,
      and the number A is written with is not that of an entry at its target. */
  lemma ChainPointsAtRemoved(a: Dirent, b: Dirent)
    requires a.isRedirect && b.isRedirect && a.target == b.key
    requires Lt(LongKey(a.key), LongKey(b.key)) && b.target != a.key && b.target != b.key
    requires HalfResolved([a, b], 2)
    ensures Kept([a, b], 2) == [a] && !a.removed && a.redirect == b && b.removed && !NamesTarget([a], a)
  {
    var all := [a, b];
    AtIndex(all, b.key, 1);
    HasIff(all, b.target);
    assert Kept(all, 1) == [a];
    assert Resolved(all, 0, a.removed, a.redirect) && Resolved(all, 1, b.removed, b.redirect);
    LtIrrefl(LongKey(a.key));
  }

  /** Every redirect that stays names its target's final number if and only if that target stays. */
  ghost predicate RedirectsRight(all: seq<Dirent>, table: seq<Dirent>)
    reads all, set d | d in all && d.redirect != null :: d.redirect
  {
    forall i :: 0 <= i < |all| && all[i].isRedirect && !Dead(all, i) ==>
      (NamesTarget(table, all[i]) <==> !Dead(all, Place(all, all[i].target)))
  }

  /** The part of `finishZimCreation` that settles the table. */
  method SettleDirents(data: CreatorDirents)
    requires data.Valid()
    requires forall i :: 0 <= i < |data.dirents| ==> data.dirents[i].redirect == null && !data.dirents[i].removed
    modifies data`dirents, data`mainPageDirent
    modifies data.dirents`redirect, data.dirents`removed, data.dirents`idx
    ensures data.dirents == Kept(old(data.dirents), |old(data.dirents)|) && Ordered(data.dirents)
    ensures forall i :: 0 <= i < |data.dirents| ==> data.dirents[i].idx == i
    ensures HalfResolved(old(data.dirents), |old(data.dirents)|) && RedirectsRight(old(data.dirents), data.dirents)
    ensures forall d :: d in old(data.dirents) && d !in data.dirents ==> d.idx == old(d.idx)
    ensures data.mainPageDirent ==
            if Lost(old(data.dirents), |old(data.dirents)|, old(data.mainPageDirent)) then null else old(data.mainPageDirent)
  {
    ghost var all := data.dirents;
    data.ResolveRedirectIndexes();
    FinalOrdered(all);
    forall i | 0 <= i < |data.dirents| ensures data.dirents[i] in all {
      var k := KeptIndex(all, |all|, i);
    }
    hide Kept, Ordered, HalfResolved;
    data.SetEntryIndexes();
    AllRedirectsRight(all, data.dirents);
  }

  lemma AllRedirectsRight(all: seq<Dirent>, table: seq<Dirent>)
    requires Ordered(all) && table == Kept(all, |all|) && HalfResolved(all, |all|)
    requires forall k :: 0 <= k < |table| ==> table[k].idx == k
    ensures RedirectsRight(all, table)
  {
    hide Kept, Ordered, HalfResolved, NamesTarget;
    forall i | 0 <= i < |all| && all[i].isRedirect && !Dead(all, i)
      ensures NamesTarget(table, all[i]) <==> !Dead(all, Place(all, all[i].target))
    {
      RedirectNamesTarget(all, table, i);
    }
  }

  lemma SplitRedirects(s: seq<Dirent>, p: nat)
    requires p <= |s|
    ensures Redirects(s) == Redirects(s[..p]) + Redirects(s[p..])
    ensures p < |s| ==> Redirects(s[p..]) == (if s[p].isRedirect then [s[p]] else []) + Redirects(s[p + 1..])
  {
    RedirectsAppend(s[..p], s[p..]);
    assert s == s[..p] + s[p..];
    if p < |s| { assert s[p..][1..] == s[p + 1..]; }
  }

  lemma ReplacedRedirects(s: seq<Dirent>, p: nat, d: Dirent)
    requires p < |s| && !d.isRedirect
    ensures Redirects(s[p := d]) == Redirects(s[..p]) + Redirects(s[p + 1..])
  {
    var t := s[p := d];
    SplitRedirects(t, p);
    assert t[..p] == s[..p] && t[p + 1..] == s[p + 1..];
  }

  lemma InsertedRedirects(s: seq<Dirent>, p: nat, d: Dirent)
    requires p <= |s|
    ensures Redirects(s[..p] + [d] + s[p..]) == Redirects(s[..p]) + (if d.isRedirect then [d] else []) + Redirects(s[p..])
  {
    var t := s[..p] + [d] + s[p..];
    SplitRedirects(t, p);
    assert t[..p] == s[..p] && t[p + 1..] == s[p..];
  }
}
