/** src/lrucache.h: a least-recently-used cache kept as a list of entries, the most recent one
    first, and a map from each key to its node of the list.

    The list and the map are tied to a sequence of entries, and that sequence to a reference that
    has no cache at all: the log of every access ever made. A key is in the cache exactly when it
    has been accessed, and fewer than `cap` other keys have been accessed since. */
module LruCache {
  import opened Sequences

  datatype Entry<K, V> = Entry(key: K, value: V)

  /** `AccessResult`: the statuses MISS, HIT and PUT. */
  datatype Access<V> = Miss | Hit(value: V) | Added(value: V)

  datatype Op<K, V> = Get(key: K) | Put(key: K, value: V) | GetOrPut(key: K, value: V)

  // ---------------------------------------------------------------- the entries, most recent first

  predicate HasKey<K(==), V>(s: seq<Entry<K, V>>, key: K) {
    exists i :: 0 <= i < |s| && s[i].key == key
  }

  function Value<K(==), V>(s: seq<Entry<K, V>>, key: K): V
    requires HasKey(s, key)
  {
    if s[0].key == key then s[0].value
    else
      assert HasKey(s[1..], key) by {
        var i :| 0 <= i < |s| && s[i].key == key;
        assert s[1..][i - 1].key == key;
      }
      Value(s[1..], key)
  }

  function Without<K(==), V>(s: seq<Entry<K, V>>, key: K): seq<Entry<K, V>> {
    if s == [] then [] else (if s[0].key == key then [] else [s[0]]) + Without(s[1..], key)
  }

  ghost predicate Unique<K, V>(s: seq<Entry<K, V>>) {
    forall i, j :: 0 <= i < j < |s| ==> s[i].key != s[j].key
  }

  function ToFront<K(==), V>(s: seq<Entry<K, V>>, key: K, value: V): seq<Entry<K, V>> {
    [Entry(key, value)] + Without(s, key)
  }

  /** `putMissing`: the new entry in front; the last one goes when there are too many. */
  function AddMissing<K, V>(s: seq<Entry<K, V>>, cap: nat, key: K, value: V): seq<Entry<K, V>> {
    var t := [Entry(key, value)] + s;
    if |t| > cap then t[..|t| - 1] else t
  }

  function Apply<K(==), V>(s: seq<Entry<K, V>>, cap: nat, op: Op<K, V>): (seq<Entry<K, V>>, Access<V>) {
    match op
    case Get(k) =>
      if HasKey(s, k) then (ToFront(s, k, Value(s, k)), Hit(Value(s, k))) else (s, Miss)
    case Put(k, v) =>
      (if HasKey(s, k) then ToFront(s, k, v) else AddMissing(s, cap, k, v), Added(v))
    case GetOrPut(k, v) =>
      if HasKey(s, k) then (ToFront(s, k, Value(s, k)), Hit(Value(s, k)))
      else (AddMissing(s, cap, k, v), Added(v))
  }

  lemma {:induction false} ValueAt<K, V>(s: seq<Entry<K, V>>, i: nat)
    requires Unique(s) && i < |s|
    ensures HasKey(s, s[i].key) && Value(s, s[i].key) == s[i].value
  {
    if i > 0 {
      assert s[0].key != s[i].key;
      ValueAt(s[1..], i - 1);
    }
  }

  lemma {:induction false} WithoutAbsent<K, V>(s: seq<Entry<K, V>>, key: K)
    requires !HasKey(s, key)
    ensures Without(s, key) == s
  {
    if s != [] {
      assert s[0].key != key;
      assert forall i :: 0 <= i < |s[1..]| ==> s[1..][i] == s[i + 1];
      WithoutAbsent(s[1..], key);
    }
  }

  lemma {:induction false} WithoutAppend<K, V>(a: seq<Entry<K, V>>, b: seq<Entry<K, V>>, key: K)
    ensures Without(a + b, key) == Without(a, key) + Without(b, key)
  {
    if a == [] {
      assert a + b == b;
    } else {
      assert (a + b)[1..] == a[1..] + b;
      WithoutAppend(a[1..], b, key);
    }
  }

  /** Taking the key of a list without repeated keys out of it removes that one position. */
  lemma {:induction false} WithoutAt<K, V>(s: seq<Entry<K, V>>, i: nat)
    requires Unique(s) && i < |s|
    ensures Without(s, s[i].key) == s[..i] + s[i + 1..]
  {
    WithoutSplit(s[..i], s[i], s[i + 1..]);
    assert s == s[..i] + ([s[i]] + s[i + 1..]);
  }

  lemma WithoutSplit<K, V>(a: seq<Entry<K, V>>, e: Entry<K, V>, b: seq<Entry<K, V>>)
    requires !HasKey(a, e.key) && !HasKey(b, e.key)
    ensures Without(a + ([e] + b), e.key) == a + b
  {
    hide *;
    WithoutAppend(a, [e] + b, e.key);
    WithoutAbsent(a, e.key);
    WithoutAbsent(b, e.key);
    WithoutHead(e, b);
  }

  lemma WithoutHead<K, V>(e: Entry<K, V>, b: seq<Entry<K, V>>)
    ensures Without([e] + b, e.key) == Without(b, e.key)
  {
    assert ([e] + b)[1..] == b;
  }

  // ---------------------------------------------------------------- the reference: a log of accesses

  /** The value the latest access of the key left. */
  predicate Accessed<K(==), V>(log: seq<Entry<K, V>>, key: K) {
    log != [] && (log[|log| - 1].key == key || Accessed(log[..|log| - 1], key))
  }

  function Latest<K(==), V>(log: seq<Entry<K, V>>, key: K): V
    requires Accessed(log, key)
  {
    if log[|log| - 1].key == key then log[|log| - 1].value else Latest(log[..|log| - 1], key)
  }

  /** The keys accessed since the latest access of this one. */
  function Since<K(==), V>(log: seq<Entry<K, V>>, key: K): set<K>
    requires Accessed(log, key)
  {
    if log[|log| - 1].key == key then {} else Since(log[..|log| - 1], key) + {log[|log| - 1].key}
  }

  /** What least-recently-used means: fewer than `cap` other keys have been accessed since. */
  predicate Live<K(==), V>(log: seq<Entry<K, V>>, cap: nat, key: K) {
    Accessed(log, key) && |Since(log, key)| < cap
  }

  function Consult<K(==), V>(log: seq<Entry<K, V>>, cap: nat, op: Op<K, V>): (seq<Entry<K, V>>, Access<V>) {
    match op
    case Get(k) =>
      if Live(log, cap, k) then (log + [Entry(k, Latest(log, k))], Hit(Latest(log, k))) else (log, Miss)
    case Put(k, v) =>
      (log + [Entry(k, v)], Added(v))
    case GetOrPut(k, v) =>
      if Live(log, cap, k) then (log + [Entry(k, Latest(log, k))], Hit(Latest(log, k)))
      else (log + [Entry(k, v)], Added(v))
  }

  /** What these say by position: the latest access is the last entry with the key, and the keys since
      are those of the entries behind it. */
  lemma {:induction false} LatestIs<K, V>(log: seq<Entry<K, V>>, key: K) returns (c: nat)
    requires Accessed(log, key)
    ensures c < |log| && log[c] == Entry(key, Latest(log, key))
    ensures forall j :: c < j < |log| ==> log[j].key != key
    ensures Since(log, key) == KeySet(log[c + 1..])
  {
    var n := |log| - 1;
    if log[n].key == key {
      c := n;
    } else {
      c := LatestIs(log[..n], key);
      assert log[c + 1..] == log[..n][c + 1..] + [log[n]];
      KeySetSnoc(log[..n][c + 1..], log[n]);
    }
  }

  lemma {:induction false} AccessedAt<K, V>(log: seq<Entry<K, V>>, c: nat)
    requires c < |log|
    ensures Accessed(log, log[c].key)
  {
    if c < |log| - 1 { AccessedAt(log[..|log| - 1], c); }
  }

  lemma KeySetSnoc<K, V>(s: seq<Entry<K, V>>, e: Entry<K, V>)
    ensures KeySet(s + [e]) == KeySet(s) + {e.key}
  {
    forall k | k in KeySet(s) + {e.key} ensures k in KeySet(s + [e]) {
      if k in KeySet(s) {
        var i :| 0 <= i < |s| && s[i].key == k;
        assert (s + [e])[i].key == k;
      } else {
        assert (s + [e])[|s|].key == k;
      }
    }
  }

  // ---------------------------------------------------------------- the entries are the log's most recent keys

  function Recent<K(==), V>(log: seq<Entry<K, V>>): seq<Entry<K, V>> {
    if log == [] then []
    else
      var e := log[|log| - 1];
      ToFront(Recent(log[..|log| - 1]), e.key, e.value)
  }

  function First<T>(s: seq<T>, n: nat): seq<T> {
    if |s| <= n then s else s[..n]
  }

  function KeySet<K, V>(s: seq<Entry<K, V>>): set<K> {
    set i | 0 <= i < |s| :: s[i].key
  }

  lemma RecentNext<K, V>(log: seq<Entry<K, V>>, e: Entry<K, V>)
    ensures Recent(log + [e]) == ToFront(Recent(log), e.key, e.value)
  {
    assert (log + [e])[..|log|] == log;
  }

  lemma {:induction false} WithoutMissing<K, V>(s: seq<Entry<K, V>>, key: K)
    ensures !HasKey(Without(s, key), key)
    ensures forall i :: 0 <= i < |Without(s, key)| ==> Without(s, key)[i] in s
  {
    if s != [] {
      WithoutMissing(s[1..], key);
      var r := Without(s[1..], key);
      assert Without(s, key) == r || (s[0].key != key && Without(s, key) == [s[0]] + r && ([s[0]] + r)[1..] == r);
    }
  }

  lemma {:induction false} ValueIsOne<K, V>(s: seq<Entry<K, V>>, key: K)
    requires HasKey(s, key)
    ensures Entry(key, Value(s, key)) in s
  {
    if s[0].key != key {
      var i :| 0 <= i < |s| && s[i].key == key;
      assert s[1..][i - 1] == s[i];
      ValueIsOne(s[1..], key);
    }
  }

  /** An operation invents no entry: what it leaves and what it hits was there, or is what it puts. */
  lemma ApplyFrom<K, V>(s: seq<Entry<K, V>>, cap: nat, op: Op<K, V>)
    ensures var (t, answer) := Apply(s, cap, op);
            && (forall e :: e in t ==> e in s || (answer.Added? && !op.Get? && e == Entry(op.key, op.value)))
            && (answer.Hit? ==> Entry(op.key, answer.value) in s)
  {
    WithoutMissing(s, op.key);
    hide Value;
    if HasKey(s, op.key) { ValueIsOne(s, op.key); }
  }

  lemma {:induction false} WithoutUnique<K, V>(s: seq<Entry<K, V>>, key: K)
    requires Unique(s)
    ensures Unique(Without(s, key))
  {
    if HasKey(s, key) {
      var i :| 0 <= i < |s| && s[i].key == key;
      WithoutAt(s, i);
    } else {
      WithoutAbsent(s, key);
    }
  }

  lemma ToFrontUnique<K, V>(s: seq<Entry<K, V>>, key: K, value: V)
    requires Unique(s)
    ensures Unique(ToFront(s, key, value))
  {
    WithoutUnique(s, key);
    WithoutMissing(s, key);
  }

  lemma {:induction false} RecentUnique<K, V>(log: seq<Entry<K, V>>)
    ensures Unique(Recent(log))
  {
    if log != [] {
      RecentUnique(log[..|log| - 1]);
      var e := log[|log| - 1];
      ToFrontUnique(Recent(log[..|log| - 1]), e.key, e.value);
    }
  }

  /** The place of a key among the most recent ones counts the keys accessed since. */
  lemma {:induction false} RecentPlace<K, V>(log: seq<Entry<K, V>>, key: K) returns (i: nat)
    requires Accessed(log, key)
    ensures i < |Recent(log)| && Recent(log)[i] == Entry(key, Latest(log, key))
    ensures Since(log, key) == KeySet(Recent(log)[..i]) && |Since(log, key)| == i
  {
    var before, e := log[..|log| - 1], log[|log| - 1];
    RecentUnique(before);
    RecentUnique(log);
    if e.key == key {
      i := 0;
    } else {
      var j := RecentPlace(before, key);
      i := FrontPlace(Recent(before), e, j);
    }
    KeySetSize(Recent(log)[..i]);
  }

  /** Where position `j` goes when a key is moved or added in front. */
  lemma FrontPlace<K, V>(r: seq<Entry<K, V>>, e: Entry<K, V>, j: nat) returns (i: nat)
    requires Unique(r) && j < |r| && r[j].key != e.key
    ensures var s := ToFront(r, e.key, e.value);
            i < |s| && s[i] == r[j] && KeySet(s[..i]) == KeySet(r[..j]) + {e.key}
  {
    if HasKey(r, e.key) {
      var m :| 0 <= m < |r| && r[m].key == e.key;
      WithoutAt(r, m);
      i := if m < j then j else j + 1;
      MovedToFront(r, m, e, j, i);
    } else {
      WithoutAbsent(r, e.key);
      i := j + 1;
      AddedInFront(r, e, j);
    }
  }

  lemma AddedInFront<K, V>(r: seq<Entry<K, V>>, e: Entry<K, V>, j: nat)
    requires j < |r|
    ensures KeySet(([e] + r)[..j + 1]) == KeySet(r[..j]) + {e.key}
  {
    assert ([e] + r)[..j + 1] == [e] + r[..j];
    KeySetCons(e, r[..j]);
  }

  lemma KeySetCons<K, V>(e: Entry<K, V>, r: seq<Entry<K, V>>)
    ensures KeySet([e] + r) == KeySet(r) + {e.key}
  {
    var s := [e] + r;
    assert forall i :: 0 <= i < |r| ==> s[i + 1] == r[i];
    forall k | k in KeySet(r) + {e.key} ensures k in KeySet(s) {
      if k == e.key {
        assert s[0].key == k;
      } else {
        var i :| 0 <= i < |r| && r[i].key == k;
        assert s[i + 1].key == k;
      }
    }
  }

  lemma MovedToFront<K, V>(r: seq<Entry<K, V>>, m: nat, e: Entry<K, V>, j: nat, i: nat)
    requires m < |r| && j < |r| && r[m].key == e.key && m != j
    requires i == if m < j then j else j + 1
    ensures var s := [e] + (r[..m] + r[m + 1..]);
            i < |s| && s[i] == r[j] && KeySet(s[..i]) == KeySet(r[..j]) + {e.key}
  {
    var rest := r[..m] + r[m + 1..];
    var s := [e] + rest;
    assert s[..i] == [e] + rest[..i - 1];
    KeySetCons(e, rest[..i - 1]);
    if m < j {
      assert rest[..j - 1] == r[..m] + r[m + 1..j];
      KeySetSkips(r[..j], m);
      assert r[..j][..m] == r[..m] && r[..j][m + 1..] == r[m + 1..j];
    } else {
      assert rest[..j] == r[..j];
    }
  }

  lemma KeySetSkips<K, V>(r: seq<Entry<K, V>>, m: nat)
    requires m < |r|
    ensures KeySet(r[..m] + r[m + 1..]) + {r[m].key} == KeySet(r)
  {
    var t := r[..m] + r[m + 1..];
    forall k | k in KeySet(r) ensures k in KeySet(t) + {r[m].key} {
      var i :| 0 <= i < |r| && r[i].key == k;
      if i < m { assert t[i].key == k; } else if i > m { assert t[i - 1].key == k; }
    }
  }

  lemma {:induction false} KeySetSize<K, V>(s: seq<Entry<K, V>>)
    requires Unique(s)
    ensures |KeySet(s)| == |s|
  {
    if s != [] {
      assert s == [s[0]] + s[1..];
      KeySetSize(s[1..]);
      KeySetCons(s[0], s[1..]);
    }
  }

  lemma {:induction false} RecentHas<K, V>(log: seq<Entry<K, V>>, key: K)
    requires HasKey(Recent(log), key)
    ensures Accessed(log, key)
  {
    var before, e := log[..|log| - 1], log[|log| - 1];
    var i :| 0 <= i < |Recent(log)| && Recent(log)[i].key == key;
    if e.key != key {
      WithoutMissing(Recent(before), e.key);
      assert Recent(log)[i] in Recent(before);
      RecentHas(before, key);
    }
  }

  /** The cached entries are the first `cap` of the most recent ones: what is live, and its value. */
  lemma CachedIffLive<K, V>(log: seq<Entry<K, V>>, cap: nat, key: K)
    ensures HasKey(First(Recent(log), cap), key) <==> Live(log, cap, key)
    ensures Live(log, cap, key) ==> Value(First(Recent(log), cap), key) == Latest(log, key)
  {
    var r := Recent(log);
    var s := First(r, cap);
    RecentUnique(log);
    hide Recent, Since, Accessed, Latest, Value;
    if HasKey(s, key) {
      var j :| 0 <= j < |s| && s[j].key == key;
      assert r[j].key == key;
      RecentHas(log, key);
    }
    if Accessed(log, key) {
      var i := RecentPlace(log, key);
      if i < cap {
        assert s[i] == r[i];
        ValueAt(s, i);
      }
    }
  }

  lemma FirstOfFront<K, V>(r: seq<Entry<K, V>>, cap: nat, key: K, value: V)
    requires Unique(r)
    ensures var s := First(r, cap);
            First(ToFront(r, key, value), cap)
            == if HasKey(s, key) then ToFront(s, key, value) else AddMissing(s, cap, key, value)
  {
    var s := First(r, cap);
    assert forall j :: 0 <= j < |s| ==> s[j] == r[j];
    hide Without, Unique;
    if HasKey(s, key) {
      var i :| 0 <= i < |s| && s[i].key == key;
      assert Unique(s) by { FirstUnique(r, cap); }
      WithoutAt(s, i);
      WithoutAt(r, i);
      FirstSkips(r, cap, i, Entry(key, value));
    } else if HasKey(r, key) {
      var i :| 0 <= i < |r| && r[i].key == key;
      WithoutAt(r, i);
      FirstDrops(r, cap, i, Entry(key, value));
    } else {
      WithoutAbsent(r, key);
    }
  }

  lemma FirstUnique<K, V>(r: seq<Entry<K, V>>, cap: nat)
    requires Unique(r)
    ensures Unique(First(r, cap))
  {
  }

  lemma FirstSkips<T>(r: seq<T>, cap: nat, i: nat, e: T)
    requires i < |First(r, cap)|
    ensures First([e] + (r[..i] + r[i + 1..]), cap) == [e] + (First(r, cap)[..i] + First(r, cap)[i + 1..])
  {
  }

  lemma FirstDrops<T>(r: seq<T>, cap: nat, i: nat, e: T)
    requires |First(r, cap)| <= i < |r|
    ensures var t := [e] + First(r, cap);
            First([e] + (r[..i] + r[i + 1..]), cap) == if |t| > cap then t[..|t| - 1] else t
  {
  }

  /** One operation: the cache answers what the log answers, and stays the log's most recent keys. */
  lemma ApplyIsConsult<K, V>(log: seq<Entry<K, V>>, cap: nat, op: Op<K, V>)
    ensures var (s, answer) := Apply(First(Recent(log), cap), cap, op);
            var (log', expected) := Consult(log, cap, op);
            answer == expected && s == First(Recent(log'), cap) && |s| <= cap && Unique(s)
  {
    CachedIffLive(log, cap, op.key);
    RecentUnique(log);
    hide Recent, Live, Latest, HasKey, Value, ToFront, AddMissing;
    var (log', expected) := Consult(log, cap, op);
    if |log'| > |log| {
      var e := log'[|log|];
      RecentNext(log, e);
      FirstOfFront(Recent(log), cap, e.key, e.value);
    }
    RecentUnique(log');
  }

  function Answers<K(==), V>(s: seq<Entry<K, V>>, cap: nat, ops: seq<Op<K, V>>): seq<Access<V>>
    decreases ops
  {
    if ops == [] then []
    else var (t, answer) := Apply(s, cap, ops[0]); [answer] + Answers(t, cap, ops[1..])
  }

  function Expected<K(==), V>(log: seq<Entry<K, V>>, cap: nat, ops: seq<Op<K, V>>): seq<Access<V>>
    decreases ops
  {
    if ops == [] then []
    else var (log', answer) := Consult(log, cap, ops[0]); [answer] + Expected(log', cap, ops[1..])
  }

  lemma {:induction false} AnswersFrom<K, V>(log: seq<Entry<K, V>>, cap: nat, ops: seq<Op<K, V>>)
    ensures Answers(First(Recent(log), cap), cap, ops) == Expected(log, cap, ops)
    decreases ops
  {
    if ops != [] {
      ApplyIsConsult(log, cap, ops[0]);
      AnswersFrom(Consult(log, cap, ops[0]).0, cap, ops[1..]);
    }
  }

  /** Whole runs from the empty cache: every answer is the one the log of all accesses gives. */
  lemma AnswersAreLeastRecentlyUsed<K, V>(cap: nat, ops: seq<Op<K, V>>)
    ensures Answers([], cap, ops) == Expected([], cap, ops)
  {
    assert First(Recent<K, V>([]), cap) == [];
    AnswersFrom([], cap, ops);
  }

  // ---------------------------------------------------------------- the list of nodes and the map

  /** An iterator of `_cache_items_list`: it names a node, wherever the node is spliced to. */
  type Iterator = nat

  function MoveToFront<T>(s: seq<T>, i: nat): (r: seq<T>)
    requires i < |s|
    ensures |r| == |s|
    ensures forall j :: 0 <= j < |r| ==> r[j] == if j == 0 then s[i] else if j <= i then s[j - 1] else s[j]
  {
    [s[i]] + (s[..i] + s[i + 1..])
  }

  lemma MoveKeepsMembers<T>(s: seq<T>, i: nat)
    requires i < |s| && Distinct(s)
    ensures Distinct(MoveToFront(s, i))
    ensures forall x :: x in MoveToFront(s, i) <==> x in s
  {
    var r := MoveToFront(s, i);
    hide MoveToFront;
    forall x | x in s ensures x in r {
      var j :| 0 <= j < |s| && s[j] == x;
      assert r[if j < i then j + 1 else if j == i then 0 else j] == x;
    }
  }

  function PlaceOf(order: seq<Iterator>, it: Iterator): (i: nat)
    requires it in order
    ensures i < |order| && order[i] == it
  {
    if order[0] == it then 0 else 1 + PlaceOf(order[1..], it)
  }

  /** The list: its nodes in order, the entry in each, and a name no node has had. */
  datatype List<K, V> = List(order: seq<Iterator>, node: map<Iterator, Entry<K, V>>, unused: Iterator) {
    ghost predicate Valid() {
      && Distinct(order)
      && (forall it :: it in order ==> it in node)
      && (forall it :: it in node ==> it < unused)
    }

    /** `splice` to the front. */
    function Splice(it: Iterator): List<K, V>
      requires it in order
    {
      var i := PlaceOf(order, it);
      this.(order := MoveToFront(order, i))
    }

    function SetValue(it: Iterator, value: V): List<K, V>
      requires it in node
    {
      this.(node := node[it := Entry(node[it].key, value)])
    }

    function PushFront(e: Entry<K, V>): List<K, V> {
      List([unused] + order, node[unused := e], unused + 1)
    }

    function PopBack(): List<K, V>
      requires order != []
    {
      this.(order := order[..|order| - 1], node := node - {order[|order| - 1]})
    }
  }

  function Entries<K, V>(list: List<K, V>): (s: seq<Entry<K, V>>)
    requires list.Valid()
    ensures |s| == |list.order| && forall i :: 0 <= i < |s| ==> s[i] == list.node[list.order[i]]
  {
    seq(|list.order|, i requires 0 <= i < |list.order| => list.node[list.order[i]])
  }

  /** Every node of the list is the one the map holds for its key, and the map holds no other. */
  ghost predicate Bijection<K, V>(list: List<K, V>, items: map<K, Iterator>) {
    && list.Valid()
    && (forall it :: it in list.order ==> Named(list, items, it))
    && (forall k :: k in items ==> items[k] in list.order && list.node[items[k]].key == k)
  }

  ghost predicate Named<K, V>(list: List<K, V>, items: map<K, Iterator>, it: Iterator) {
    it in list.node && list.node[it].key in items && items[list.node[it].key] == it
  }

  lemma BijectionUnique<K, V>(list: List<K, V>, items: map<K, Iterator>)
    requires Bijection(list, items)
    ensures Unique(Entries(list))
  {
    var s := Entries(list);
    hide Entries, Named;
    forall i, j | 0 <= i < j < |s| ensures s[i].key != s[j].key {
      SameKey(list, items, list.order[i], list.order[j]);
    }
  }

  lemma SameKey<K, V>(list: List<K, V>, items: map<K, Iterator>, m: Iterator, n: Iterator)
    requires Named(list, items, m) && Named(list, items, n)
    ensures list.node[m].key == list.node[n].key ==> m == n
  {
  }

  lemma ItemsSize<K, V>(list: List<K, V>, items: map<K, Iterator>)
    requires Bijection(list, items)
    ensures |items| == |list.order|
  {
    var s := Entries(list);
    BijectionUnique(list, items);
    KeySetSize(s);
    hide Entries, PlaceOf, Unique;
    forall k | k in items ensures k in KeySet(s) {
      assert s[PlaceOf(list.order, items[k])].key == k;
    }
    forall k | k in KeySet(s) ensures k in items {
      var i :| 0 <= i < |s| && s[i].key == k;
      assert Named(list, items, list.order[i]);
    }
    assert KeySet(s) == items.Keys;
  }

  lemma ItemsHold<K, V>(list: List<K, V>, items: map<K, Iterator>, key: K)
    requires Bijection(list, items)
    ensures HasKey(Entries(list), key) <==> key in items
    ensures key in items ==> items[key] in list.order && items[key] in list.node
                             && Value(Entries(list), key) == list.node[items[key]].value
  {
    var s := Entries(list);
    BijectionUnique(list, items);
    hide Entries, Value, PlaceOf;
    if key in items { ValueAt(s, PlaceOf(list.order, items[key])); }
    if HasKey(s, key) {
      var i :| 0 <= i < |s| && s[i].key == key;
      assert Named(list, items, list.order[i]);
    }
  }

  /** Splicing a node moves its entry to the front of the list, and the map stays as it is. */
  lemma SpliceMoves<K, V>(list: List<K, V>, items: map<K, Iterator>, it: Iterator)
    requires Bijection(list, items) && it in list.order
    ensures Bijection(list.Splice(it), items) && it in list.node
    ensures Entries(list.Splice(it)) == ToFront(Entries(list), list.node[it].key, list.node[it].value)
    ensures list.Splice(it).order[0] == it && list.Splice(it).node == list.node
  {
    var i := PlaceOf(list.order, it);
    var after := list.Splice(it);
    assert after.order == MoveToFront(list.order, i) && after.node == list.node;
    MoveKeepsMembers(list.order, i);
    hide MoveToFront, PlaceOf, Entries, ToFront;
    SameMembers(list, after, items);
    hide Bijection;
    SplicedEntries(list, after, items, i);
  }

  lemma SameMembers<K, V>(list: List<K, V>, after: List<K, V>, items: map<K, Iterator>)
    requires Bijection(list, items) && after.node == list.node && after.unused == list.unused
    requires Distinct(after.order) && forall n :: n in after.order <==> n in list.order
    ensures Bijection(after, items)
  {
    hide Distinct;
    forall n | n in after.order ensures Named(after, items, n) {
      assert Named(list, items, n);
    }
  }

  lemma SplicedEntries<K, V>(list: List<K, V>, after: List<K, V>, items: map<K, Iterator>, i: nat)
    requires Bijection(list, items) && i < |list.order|
    requires after.Valid() && after.order == MoveToFront(list.order, i) && after.node == list.node
    ensures list.order[i] in list.node
    ensures var e := list.node[list.order[i]]; Entries(after) == ToFront(Entries(list), e.key, e.value)
  {
    assert list.order[i] in list.node;
    BijectionUnique(list, items);
    hide *;
    ToFrontAt(Entries(list), i);
    EntriesMoved(list, after, i);
  }

  lemma EntriesMoved<K, V>(list: List<K, V>, after: List<K, V>, i: nat)
    requires list.Valid() && i < |list.order|
    requires after.Valid() && after.order == MoveToFront(list.order, i) && after.node == list.node
    ensures Entries(after) == MoveToFront(Entries(list), i)
  {
    hide Entries, Distinct;
    var a, b := Entries(after), MoveToFront(Entries(list), i);
    forall j | 0 <= j < |a| ensures a[j] == b[j] {
      var k := if j == 0 then i else if j <= i then j - 1 else j;
      assert b[j] == Entries(list)[k] && after.order[j] == list.order[k];
    }
  }

  lemma ToFrontAt<K, V>(s: seq<Entry<K, V>>, i: nat)
    requires Unique(s) && i < |s|
    ensures ToFront(s, s[i].key, s[i].value) == MoveToFront(s, i)
  {
    WithoutAt(s, i);
    hide Without;
  }

  lemma SetFront<K, V>(list: List<K, V>, items: map<K, Iterator>, value: V)
    requires Bijection(list, items) && list.order != []
    ensures var it := list.order[0];
            && it in list.node
            && Bijection(list.SetValue(it, value), items)
            && Entries(list.SetValue(it, value)) == [Entry(list.node[it].key, value)] + Entries(list)[1..]
  {
    var it := list.order[0];
    var after := list.SetValue(it, value);
    hide Entries;
    forall n | n in list.order ensures Named(after, items, n) {
      assert Named(list, items, n);
    }
    assert Entries(after) == [Entry(list.node[it].key, value)] + Entries(list)[1..] by { hide Bijection, Named; }
  }

  lemma OtherValue<K, V>(s: seq<Entry<K, V>>, key: K, before: V, after: V)
    ensures [Entry(key, after)] + ToFront(s, key, before)[1..] == ToFront(s, key, after)
  {
    hide Without;
  }

  /** Splicing a node and setting its value, as a put on a key that is there does. */
  lemma ItsKey<K, V>(list: List<K, V>, items: map<K, Iterator>, key: K)
    requires Bijection(list, items) && key in items
    ensures items[key] in list.node && list.node[items[key]].key == key
  {
  }

  lemma PutMoves<K, V>(list: List<K, V>, items: map<K, Iterator>, it: Iterator, value: V)
    requires Bijection(list, items) && it in list.order
    ensures it in list.node && it in list.Splice(it).node
    ensures var after := list.Splice(it).SetValue(it, value);
            && Bijection(after, items) && after.order != [] && |after.order| == |list.order|
            && Entries(after) == ToFront(Entries(list), list.node[it].key, value)
  {
    SpliceMoves(list, items, it);
    SetFront(list.Splice(it), items, value);
    OtherValue(Entries(list), list.node[it].key, list.node[it].value, value);
    hide Bijection, Named, ToFront, Entries, Distinct, PlaceOf;
  }

  lemma PushAdds<K, V>(list: List<K, V>, items: map<K, Iterator>, e: Entry<K, V>)
    requires Bijection(list, items) && e.key !in items
    ensures var (after, named) := (list.PushFront(e), items[e.key := list.unused]);
            && Bijection(after, named) && |named| == |list.order| + 1
            && Entries(after) == [e] + Entries(list)
  {
    var after, named := list.PushFront(e), items[e.key := list.unused];
    hide Entries;
    PushKeeps(list, items, e);
    ItemsSize(after, named);
    hide Named, Bijection;
    assert Entries(after) == [e] + Entries(list);
  }

  lemma PushKeeps<K, V>(list: List<K, V>, items: map<K, Iterator>, e: Entry<K, V>)
    requires Bijection(list, items) && e.key !in items
    ensures Bijection(list.PushFront(e), items[e.key := list.unused])
  {
    var after, named := list.PushFront(e), items[e.key := list.unused];
    assert after.order[0] == list.unused && list.unused !in list.node;
    assert forall n :: n in after.order <==> n == list.unused || n in list.order;
    forall n | n in after.order ensures Named(after, named, n) {
      if n in list.order { assert Named(list, items, n); }
    }
    forall k | k in named ensures named[k] in after.order && after.node[named[k]].key == k {
      if k != e.key { assert named[k] in list.order; }
    }
  }

  lemma PopDrops<K, V>(list: List<K, V>, items: map<K, Iterator>)
    requires Bijection(list, items) && list.order != []
    ensures var last := list.order[|list.order| - 1];
            && last in list.node
            && Bijection(list.PopBack(), items - {list.node[last].key})
            && Entries(list.PopBack()) == Entries(list)[..|list.order| - 1]
  {
    var after, it := list.PopBack(), list.order[|list.order| - 1];
    var named := items - {list.node[it].key};
    hide Entries;
    assert Named(list, items, it);
    forall n | n in after.order ensures Named(after, named, n) {
      assert Named(list, items, n) && n != it;
    }
    forall k | k in named ensures named[k] in after.order {
      var j := PlaceOf(list.order, items[k]);
      assert after.order[j] == items[k];
    }
    assert Entries(after) == Entries(list)[..|list.order| - 1] by { hide Bijection, Named; }
  }

  class LruCache<K(==), V> {
    var list: List<K, V>
    var items: map<K, Iterator>
    const maxSize: nat

    /** The list and the map are in bijection, and hold no more than `maxSize` entries. */
    ghost predicate Valid()
      reads this
    {
      Bijection(list, items) && |list.order| <= maxSize
    }

    ghost function Contents(): seq<Entry<K, V>>
      reads this
      requires Valid()
    {
      Entries(list)
    }

    constructor (maxSize: nat)
      ensures Valid() && Contents() == [] && this.maxSize == maxSize
    {
      list, items, this.maxSize := List([], map[], 0), map[], maxSize;
    }

    method Get(key: K) returns (r: Access<V>)
      requires Valid()
      modifies this
      ensures Valid() && (Contents(), r) == Apply(old(Contents()), maxSize, Op.Get(key))
    {
      ItemsHold(list, items, key);
      if key !in items { return Miss; }
      var it := items[key];
      SpliceMoves(list, items, it);
      hide Bijection, Named, HasKey, Value, ToFront, Entries, Distinct, MoveToFront, PlaceOf;
      list := list.Splice(it);
      r := Hit(list.node[it].value);
    }

    method Put(key: K, value: V)
      requires Valid()
      modifies this
      ensures Valid() && Contents() == Apply(old(Contents()), maxSize, Op.Put(key, value)).0
    {
      ItemsHold(list, items, key);
      hide Entries, Bijection, Value, ToFront, AddMissing;
      if key in items { PutFound(key, value); } else { PutMissing(key, value); }
    }

    /** The node is spliced to the front and given the new value. */
    method PutFound(key: K, value: V)
      requires Valid() && key in items
      modifies this
      ensures Valid() && Contents() == ToFront(old(Contents()), key, value)
    {
      ItemsHold(list, items, key);
      var it := items[key];
      ItsKey(list, items, key);
      PutMoves(list, items, it, value);
      hide *;
      list := list.Splice(it);
      list := list.SetValue(it, value);
    }

    method GetOrPut(key: K, value: V) returns (r: Access<V>)
      requires Valid()
      modifies this
      ensures Valid() && (Contents(), r) == Apply(old(Contents()), maxSize, Op.GetOrPut(key, value))
    {
      ItemsHold(list, items, key);
      if key in items {
        var it := items[key];
        SpliceMoves(list, items, it);
        hide Bijection, Named, HasKey, Value, ToFront, Entries, Distinct, MoveToFront, PlaceOf;
        list := list.Splice(it);
        r := Hit(list.node[it].value);
      } else {
        PutMissing(key, value);
        r := Added(value);
      }
    }

    method PutMissing(key: K, value: V)
      requires Valid() && key !in items
      modifies this
      ensures Valid() && Contents() == AddMissing(old(Contents()), maxSize, key, value)
    {
      PushAdds(list, items, Entry(key, value));
      hide Bijection, Named, Entries, Distinct;
      list := list.PushFront(Entry(key, value));
      items := items[key := list.order[0]];
      if |items| > maxSize { PopLast(); }
    }

    method PopLast()
      requires Bijection(list, items) && list.order != []
      modifies this
      ensures Bijection(list, items) && |list.order| == |old(list).order| - 1
      ensures Entries(list) == Entries(old(list))[..|old(list).order| - 1]
    {
      PopDrops(list, items);
      hide Bijection, Named, Entries, Distinct;
      items := items - {list.node[list.order[|list.order| - 1]].key};
      list := list.PopBack();
    }
  }
}
