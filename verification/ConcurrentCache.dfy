/** src/concurrent_cache.h: `getOrPut` as a protocol of threads.

    A call inserts the future of its own promise under the lock, unless the key is there; outside
    the lock the caller that inserted it computes the value and fulfils the promise, and every
    caller waits on the future it was given. A state holds the cache, every future inserted so far
    and where each thread stands; a thread runs the calls of its list one after the other. The
    function that computes a value is total, and `good(k, v)` says that `v` may come out for `k`. */
module ConcurrentCache {
  import opened LruCache

  datatype Option<V> = None | Some(value: V)

  /** A shared future: the key it was inserted for, by which thread, and its value once set. */
  datatype Future<K, V> = Future(key: K, owner: nat, value: Option<V>)

  datatype Phase<V> = Idle | Missed(p: nat) | Computed(p: nat, v: V) | Waiting(p: nat)

  datatype Thread<K, V> = Thread(todo: seq<K>, phase: Phase<V>, answers: seq<(K, V)>)

  /** Something done for a future: by which thread, with which value. */
  datatype Deed<V> = Deed(p: nat, t: nat, v: V)

  /** Call number n of thread t. */
  datatype Call = Call(t: nat, n: nat)

  /** `locked` logs the locked sections, each with its key and the future it handed out, and `callers`
      whose call each was. `computed` and `fulfilled` log the runs of `f` and the calls of `set_value`. */
  datatype State<K, V> = State(
    cache: seq<Entry<K, nat>>,
    futures: seq<Future<K, V>>,
    threads: seq<Thread<K, V>>,
    locked: seq<Entry<K, nat>>,
    callers: seq<Call>,
    computed: seq<Deed<V>>,
    fulfilled: seq<Deed<V>>)

  function Init<K, V>(requests: seq<seq<K>>): State<K, V> {
    State([], [], seq(|requests|, i requires 0 <= i < |requests| => Thread(requests[i], Idle, [])), [], [], [], [])
  }

  predicate Enabled<K, V>(s: State<K, V>, t: nat) {
    && t < |s.threads|
    && match s.threads[t].phase
       case Idle => s.threads[t].todo != []
       case Missed(p) => s.threads[t].todo != []
       case Computed(p, _) => p < |s.futures|
       case Waiting(p) => s.threads[t].todo != [] && p < |s.futures| && s.futures[p].value.Some?
  }

  function SetPhase<K, V>(s: State<K, V>, t: nat, phase: Phase<V>): State<K, V>
    requires t < |s.threads|
  {
    s.(threads := s.threads[t := s.threads[t].(phase := phase)])
  }

  /** The locked section: the cache takes the new future unless it has one for the key. */
  function Lock<K(==), V>(s: State<K, V>, cap: nat, t: nat): State<K, V>
    requires Enabled(s, t) && s.threads[t].phase.Idle?
  {
    var key, p := s.threads[t].todo[0], |s.futures|;
    var (cache, x) := Apply(s.cache, cap, Op.GetOrPut(key, p));
    var s' := s.(cache := cache, callers := s.callers + [Call(t, |s.threads[t].answers|)]);
    match x
    case Hit(q) => SetPhase(s'.(locked := s.locked + [Entry(key, q)]), t, Waiting(q))
    case _ =>
      SetPhase(s'.(locked := s.locked + [Entry(key, p)], futures := s.futures + [Future(key, t, None)]), t, Missed(p))
  }

  function Compute<K, V>(s: State<K, V>, t: nat, v: V): State<K, V>
    requires Enabled(s, t) && s.threads[t].phase.Missed?
  {
    var p := s.threads[t].phase.p;
    SetPhase(s.(computed := s.computed + [Deed(p, t, v)]), t, Computed(p, v))
  }

  function SetValue<K, V>(s: State<K, V>, t: nat): State<K, V>
    requires Enabled(s, t) && s.threads[t].phase.Computed?
  {
    var p := s.threads[t].phase.p;
    var v := s.threads[t].phase.v;
    var f := s.futures[p].(value := Some(v));
    SetPhase(s.(futures := s.futures[p := f], fulfilled := s.fulfilled + [Deed(p, t, v)]), t, Waiting(p))
  }

  function Return<K, V>(s: State<K, V>, t: nat): State<K, V>
    requires Enabled(s, t) && s.threads[t].phase.Waiting?
  {
    var th := s.threads[t];
    var v := s.futures[th.phase.p].value.value;
    s.(threads := s.threads[t := Thread(th.todo[1..], Idle, th.answers + [(th.todo[0], v)])])
  }

  /** Thread `t` takes its next step; `v` is what the function returns, if that is the step. */
  function Next<K(==), V>(s: State<K, V>, cap: nat, t: nat, v: V): State<K, V>
    requires Enabled(s, t)
  {
    match s.threads[t].phase
    case Idle => Lock(s, cap, t)
    case Missed(_) => Compute(s, t, v)
    case Computed(_, _) => SetValue(s, t)
    case Waiting(_) => Return(s, t)
  }

  ghost predicate Allowed<K, V>(s: State<K, V>, good: (K, V) -> bool, t: nat, v: V) {
    && Enabled(s, t)
    && (s.threads[t].phase.Missed? ==> good(s.threads[t].todo[0], v))
  }

  // ---------------------------------------------------------------- what every step keeps

  /** No future occurs twice in the log. */
  ghost predicate Once<V>(log: seq<Deed<V>>) {
    forall i, j :: 0 <= i < j < |log| ==> log[i].p != log[j].p
  }

  /** `f` ran for the future in the thread that inserted it, with a value that may come out for its key. */
  ghost predicate RanFor<K, V>(s: State<K, V>, good: (K, V) -> bool, d: Deed<V>) {
    d.p < |s.futures| && s.futures[d.p].owner == d.t && good(s.futures[d.p].key, d.v)
  }

  /** The future's value was set by the thread that inserted it, to what `f` gave that thread. */
  ghost predicate SetFor<K, V>(s: State<K, V>, d: Deed<V>) {
    d.p < |s.futures| && s.futures[d.p].owner == d.t && s.futures[d.p].value == Some(d.v) && d in s.computed
  }

  /** The value of some future that was inserted for this key. */
  ghost predicate Answered<K, V>(s: State<K, V>, key: K, v: V) {
    exists p: nat :: p < |s.futures| && s.futures[p].key == key && s.futures[p].value == Some(v)
  }

  /** A future with a value was fulfilled; one without is in the hands of the thread that inserted
      it, which can go on. */
  ghost predicate FutureOk<K, V>(s: State<K, V>, p: nat)
    requires p < |s.futures|
  {
    var f := s.futures[p];
    && f.owner < |s.threads|
    && (f.value.Some? ==> Deed(p, f.owner, f.value.value) in s.fulfilled)
    && (f.value.None? ==> s.threads[f.owner].phase.Missed? || s.threads[f.owner].phase.Computed?)
    && (f.value.None? ==> s.threads[f.owner].phase.p == p)
  }

  ghost predicate ThreadOk<K, V>(s: State<K, V>, t: nat)
    requires t < |s.threads|
  {
    var th := s.threads[t];
    && (forall i :: 0 <= i < |th.answers| ==> Answered(s, th.answers[i].0, th.answers[i].1))
    && (!th.phase.Idle? ==> th.todo != [] && th.phase.p < |s.futures| && s.futures[th.phase.p].key == th.todo[0])
    && (th.phase.Missed? || th.phase.Computed? ==> s.futures[th.phase.p].owner == t && s.futures[th.phase.p].value.None?)
    && (th.phase.Missed? ==> forall d :: d in s.computed ==> d.p != th.phase.p)
    && (th.phase.Computed? ==> Deed(th.phase.p, t, th.phase.v) in s.computed)
  }

  ghost predicate CacheOk<K, V>(s: State<K, V>) {
    forall e :: e in s.cache ==> e.value < |s.futures| && s.futures[e.value].key == e.key
  }

  ghost predicate LogsOk<K, V>(s: State<K, V>, good: (K, V) -> bool) {
    && Once(s.computed) && (forall d :: d in s.computed ==> RanFor(s, good, d))
    && Once(s.fulfilled) && (forall d :: d in s.fulfilled ==> SetFor(s, d))
  }

  ghost predicate Inv<K, V>(s: State<K, V>, good: (K, V) -> bool) {
    && CacheOk(s) && LogsOk(s, good)
    && (forall p: nat :: p < |s.futures| ==> FutureOk(s, p))
    && (forall t: nat :: t < |s.threads| ==> ThreadOk(s, t))
  }

  /** Futures are never changed once they have a value. */
  ghost predicate Grows<K, V>(s: State<K, V>, s': State<K, V>) {
    && |s.futures| <= |s'.futures|
    && forall p: nat :: p < |s.futures| && s.futures[p].value.Some? ==> s'.futures[p] == s.futures[p]
  }

  lemma StillAnswered<K, V>(s: State<K, V>, s': State<K, V>, key: K, v: V)
    requires Grows(s, s') && Answered(s, key, v)
    ensures Answered(s', key, v)
  {
    var p: nat :| p < |s.futures| && s.futures[p].key == key && s.futures[p].value == Some(v);
    assert s'.futures[p] == s.futures[p];
  }

  lemma AnswersStay<K, V>(s: State<K, V>, s': State<K, V>, answers: seq<(K, V)>)
    requires Grows(s, s') && forall i :: 0 <= i < |answers| ==> Answered(s, answers[i].0, answers[i].1)
    ensures forall i :: 0 <= i < |answers| ==> Answered(s', answers[i].0, answers[i].1)
  {
    forall i | 0 <= i < |answers| ensures Answered(s', answers[i].0, answers[i].1) {
      StillAnswered(s, s', answers[i].0, answers[i].1);
    }
  }

  lemma LockInv<K, V>(s: State<K, V>, good: (K, V) -> bool, cap: nat, t: nat)
    requires Inv(s, good) && Enabled(s, t) && s.threads[t].phase.Idle?
    ensures Inv(Lock(s, cap, t), good)
  {
    var key, p := s.threads[t].todo[0], |s.futures|;
    var s' := Lock(s, cap, t);
    ApplyFrom(s.cache, cap, Op.GetOrPut(key, p));
    assert ThreadOk(s, t);
    hide Apply;
    forall q: nat | q < |s'.futures| ensures FutureOk(s', q) {
      if q < p { assert FutureOk(s, q); }
    }
    forall u: nat | u < |s'.threads| ensures ThreadOk(s', u) {
      assert ThreadOk(s, u);
      AnswersStay(s, s', s.threads[u].answers);
    }
  }

  // ---------------------------------------------------------------- what the locked sections hand out

  /** How many locked sections found their key not live in the log of the sections before. */
  function Misses<K(==)>(locked: seq<Entry<K, nat>>, cap: nat): nat {
    if locked == [] then 0
    else
      var n := |locked| - 1;
      Misses(locked[..n], cap) + if Live(locked[..n], cap, locked[n].key) then 0 else 1
  }

  /** The future of the key's latest access if the key is live in the log of the sections before, and
      otherwise a new one, the next in the order of insertion. */
  function Handed<K(==)>(before: seq<Entry<K, nat>>, cap: nat, key: K): nat {
    if Live<K, nat>(before, cap, key) then Latest<K, nat>(before, key) else Misses(before, cap)
  }

  ghost predicate HandsOut<K>(locked: seq<Entry<K, nat>>, cap: nat, i: nat)
    requires i < |locked|
  {
    locked[i].value == Handed(locked[..i], cap, locked[i].key)
  }

  /** A section belongs to a call of its key: one answered with the value of the future it handed out,
      or the one its thread is at. */
  ghost predicate OfCall<K, V>(s: State<K, V>, e: Entry<K, nat>, c: Call) {
    && c.t < |s.threads| && e.value < |s.futures| && s.futures[e.value].key == e.key
    && var th := s.threads[c.t];
       if c.n < |th.answers| then th.answers[c.n].0 == e.key && s.futures[e.value].value == Some(th.answers[c.n].1)
       else c.n == |th.answers| && !th.phase.Idle? && th.todo != [] && th.todo[0] == e.key && th.phase.p == e.value
  }

  /** The number of a thread's calls that have been in the locked section. */
  function Begun<K, V>(th: Thread<K, V>): nat {
    |th.answers| + if th.phase.Idle? then 0 else 1
  }

  /** The sections are those of the calls: each has one, a thread's come in order, and each future was
      handed out by the section that inserted it. */
  ghost predicate Sections<K, V>(s: State<K, V>) {
    && |s.locked| == |s.callers|
    && (forall i :: 0 <= i < |s.locked| ==> OfCall(s, s.locked[i], s.callers[i]))
    && (forall t, n :: 0 <= t < |s.threads| && 0 <= n < Begun(s.threads[t]) ==> Call(t, n) in s.callers)
    && (forall i, j :: 0 <= i < j < |s.callers| && s.callers[i].t == s.callers[j].t ==> s.callers[i].n < s.callers[j].n)
    && (forall p: nat :: p < |s.futures| ==> HandedOut(s.locked, p))
  }

  ghost predicate HandedOut<K>(locked: seq<Entry<K, nat>>, p: nat) {
    exists i :: 0 <= i < |locked| && locked[i].value == p
  }

  /** The cache is the log's `cap` most recent keys, and what was handed out follows from the log. */
  ghost predicate FollowsLog<K, V>(s: State<K, V>, cap: nat) {
    && s.cache == First(Recent(s.locked), cap)
    && |s.futures| == Misses(s.locked, cap)
    && forall i: nat :: i < |s.locked| ==> HandsOut(s.locked, cap, i)
  }

  lemma HandsOutNext<K>(locked: seq<Entry<K, nat>>, cap: nat, e: Entry<K, nat>)
    requires forall i: nat :: i < |locked| ==> HandsOut(locked, cap, i)
    requires e.value == Handed(locked, cap, e.key)
    ensures forall i: nat :: i < |locked + [e]| ==> HandsOut(locked + [e], cap, i)
    ensures Misses(locked + [e], cap) == Misses(locked, cap) + if Live(locked, cap, e.key) then 0 else 1
  {
    hide Live, Handed;
    assert (locked + [e])[..|locked|] == locked;
    forall i: nat | i < |locked + [e]| ensures HandsOut(locked + [e], cap, i) {
      if i < |locked| {
        assert HandsOut(locked, cap, i);
        assert (locked + [e])[..i] == locked[..i];
      }
    }
  }

  /** The locked section inserts a future if and only if the key is not live in the log, and otherwise
      waits for the future of the key's latest access. */
  lemma LockFollowsLog<K, V>(s: State<K, V>, cap: nat, t: nat)
    requires FollowsLog(s, cap) && Enabled(s, t) && s.threads[t].phase.Idle?
    ensures var s', key := Lock(s, cap, t), s.threads[t].todo[0];
            && FollowsLog(s', cap)
            && s'.callers == s.callers + [Call(t, |s.threads[t].answers|)]
            && if Live(s.locked, cap, key) then
                 var q := Latest(s.locked, key);
                 s'.futures == s.futures && s'.threads[t].phase == Waiting(q) && s'.locked == s.locked + [Entry(key, q)]
               else
                 var p := |s.futures|;
                 && s'.futures == s.futures + [Future(key, t, None)] && s'.threads[t].phase == Missed(p)
                 && s'.locked == s.locked + [Entry(key, p)]
  {
    hide Apply, Recent, First, Live, Latest, HandsOut, Misses;
    var key, p := s.threads[t].todo[0], |s.futures|;
    ApplyIsConsult(s.locked, cap, Op.GetOrPut(key, p));
    HandsOutNext(s.locked, cap, Entry(key, Handed(s.locked, cap, key)));
  }

  /** What a locked section adds to the logs, and where it leaves its thread. */
  ghost predicate Adds<K, V>(s: State<K, V>, s': State<K, V>, t: nat, e: Entry<K, nat>) {
    && t < |s.threads| && s.threads[t].phase.Idle? && s.threads[t].todo != [] && s.threads[t].todo[0] == e.key
    && (s'.futures == s.futures || (s'.futures == s.futures + [Future(e.key, t, None)] && e.value == |s.futures|))
    && e.value < |s'.futures| && s'.futures[e.value].key == e.key
    && s'.locked == s.locked + [e] && s'.callers == s.callers + [Call(t, |s.threads[t].answers|)]
    && |s'.threads| == |s.threads| && (forall u: nat :: u < |s.threads| && u != t ==> s'.threads[u] == s.threads[u])
    && s'.threads[t].answers == s.threads[t].answers && s'.threads[t].todo == s.threads[t].todo
    && !s'.threads[t].phase.Idle? && s'.threads[t].phase.p == e.value
  }

  lemma LockAdds<K, V>(s: State<K, V>, good: (K, V) -> bool, cap: nat, t: nat)
    requires Inv(s, good) && Enabled(s, t) && s.threads[t].phase.Idle?
    ensures var s' := Lock(s, cap, t);
            |s'.locked| == |s.locked| + 1 && Adds(s, s', t, s'.locked[|s.locked|])
  {
    hide FutureOk, ThreadOk, LogsOk;
    ApplyFrom(s.cache, cap, Op.GetOrPut(s.threads[t].todo[0], |s.futures|));
    hide Apply;
  }

  lemma OfCallStays<K, V>(s: State<K, V>, s': State<K, V>, t: nat, e: Entry<K, nat>, i: nat)
    requires Adds(s, s', t, e) && Sections(s) && i < |s'.locked|
    ensures |s'.locked| == |s'.callers| && OfCall(s', s'.locked[i], s'.callers[i])
  {
    if i < |s.locked| { assert OfCall(s, s.locked[i], s.callers[i]); }
  }

  lemma CallsInOrder<K, V>(s: State<K, V>, s': State<K, V>, t: nat, e: Entry<K, nat>, i: nat, j: nat)
    requires Adds(s, s', t, e) && Sections(s) && i < j < |s'.callers| && s'.callers[i].t == s'.callers[j].t
    ensures s'.callers[i].n < s'.callers[j].n
  {
    if j == |s.callers| { assert OfCall(s, s.locked[i], s.callers[i]); }
  }

  lemma FutureHandedOut<K, V>(s: State<K, V>, s': State<K, V>, t: nat, e: Entry<K, nat>, p: nat)
    requires Adds(s, s', t, e) && Sections(s) && p < |s'.futures|
    ensures HandedOut(s'.locked, p)
  {
    hide OfCall;
    if p < |s.futures| {
      assert HandedOut(s.locked, p);
      var i :| 0 <= i < |s.locked| && s.locked[i].value == p;
      assert s'.locked[i].value == p;
    } else {
      assert s'.locked[|s.locked|].value == p;
    }
  }

  lemma CallsAreThere<K, V>(s: State<K, V>, s': State<K, V>, t: nat, e: Entry<K, nat>, u: nat, n: nat)
    requires Adds(s, s', t, e) && Sections(s) && u < |s'.threads| && n < Begun(s'.threads[u])
    ensures Call(u, n) in s'.callers
  {
    hide OfCall, HandedOut;
    if n < Begun(s.threads[u]) { assert Call(u, n) in s.callers; }
  }

  lemma LockSections<K, V>(s: State<K, V>, good: (K, V) -> bool, cap: nat, t: nat)
    requires Inv(s, good) && Sections(s) && Enabled(s, t) && s.threads[t].phase.Idle?
    ensures Sections(Lock(s, cap, t))
  {
    var s' := Lock(s, cap, t);
    LockAdds(s, good, cap, t);
    var e := s'.locked[|s.locked|];
    hide Lock, Inv, Adds, OfCall, HandedOut, Begun;
    assert |s'.locked| == |s'.callers| by { OfCallStays(s, s', t, e, |s.locked|); }
    forall i | 0 <= i < |s'.locked| ensures OfCall(s', s'.locked[i], s'.callers[i]) { OfCallStays(s, s', t, e, i); }
    forall u, n | 0 <= u < |s'.threads| && 0 <= n < Begun(s'.threads[u]) ensures Call(u, n) in s'.callers {
      CallsAreThere(s, s', t, e, u, n);
    }
    forall i, j | 0 <= i < j < |s'.callers| && s'.callers[i].t == s'.callers[j].t ensures s'.callers[i].n < s'.callers[j].n {
      CallsInOrder(s, s', t, e, i, j);
    }
    forall p: nat | p < |s'.futures| ensures HandedOut(s'.locked, p) { FutureHandedOut(s, s', t, e, p); }
  }

  /** Outside the lock nothing is handed out. */
  lemma OtherSections<K, V>(s: State<K, V>, good: (K, V) -> bool, cap: nat, t: nat, v: V)
    requires Inv(s, good) && Sections(s) && Enabled(s, t) && !s.threads[t].phase.Idle?
    ensures Sections(Next(s, cap, t, v))
    ensures FollowsLog(s, cap) ==> FollowsLog(Next(s, cap, t, v), cap)
  {
    var s' := Next(s, cap, t, v);
    assert ThreadOk(s, t);
    hide Lock, Misses, HandsOut, First, Recent;
    forall i | 0 <= i < |s'.locked| ensures OfCall(s', s'.locked[i], s'.callers[i]) {
      assert OfCall(s, s.locked[i], s.callers[i]);
    }
    forall u, n | 0 <= u < |s'.threads| && 0 <= n < Begun(s'.threads[u]) ensures Call(u, n) in s'.callers {
      assert Begun(s'.threads[u]) == Begun(s.threads[u]);
    }
  }

  lemma ComputeInv<K, V>(s: State<K, V>, good: (K, V) -> bool, t: nat, v: V)
    requires Inv(s, good) && Enabled(s, t) && s.threads[t].phase.Missed? && good(s.threads[t].todo[0], v)
    ensures Inv(Compute(s, t, v), good)
  {
    var p, s' := s.threads[t].phase.p, Compute(s, t, v);
    assert ThreadOk(s, t);
    assert FutureOk(s, p);
    forall q: nat | q < |s'.futures| ensures FutureOk(s', q) {
      assert FutureOk(s, q);
    }
    forall u: nat | u < |s'.threads| ensures ThreadOk(s', u) {
      assert ThreadOk(s, u);
      AnswersStay(s, s', s.threads[u].answers);
    }
  }

  /** The promise is fulfilled by the thread that inserted its future, for the first time. */
  lemma SetValueKeeps<K, V>(s: State<K, V>, good: (K, V) -> bool, t: nat)
    requires Inv(s, good) && Enabled(s, t) && s.threads[t].phase.Computed?
    ensures var p := s.threads[t].phase.p;
            s.futures[p].owner == t && s.futures[p].value.None? && forall d :: d in s.fulfilled ==> d.p != p
    ensures Inv(SetValue(s, t), good)
  {
    var p, s' := s.threads[t].phase.p, SetValue(s, t);
    assert ThreadOk(s, t);
    assert FutureOk(s, p);
    forall q: nat | q < |s'.futures| ensures FutureOk(s', q) {
      assert FutureOk(s, q);
    }
    forall u: nat | u < |s'.threads| ensures ThreadOk(s', u) {
      assert ThreadOk(s, u);
      AnswersStay(s, s', s.threads[u].answers);
    }
  }

  lemma ReturnInv<K, V>(s: State<K, V>, good: (K, V) -> bool, t: nat)
    requires Inv(s, good) && Enabled(s, t) && s.threads[t].phase.Waiting?
    ensures Inv(Return(s, t), good)
  {
    var p, s' := s.threads[t].phase.p, Return(s, t);
    assert ThreadOk(s, t);
    assert FutureOk(s, p);
    forall q: nat | q < |s'.futures| ensures FutureOk(s', q) {
      assert FutureOk(s, q);
    }
    forall u: nat | u < |s'.threads| ensures ThreadOk(s', u) {
      assert ThreadOk(s, u);
      AnswersStay(s, s', s.threads[u].answers);
    }
  }

  ghost predicate Kept<K, V>(s: State<K, V>, good: (K, V) -> bool, cap: nat) {
    Inv(s, good) && Sections(s) && FollowsLog(s, cap)
  }

  /** The locked section inserts a future, and leaves its thread to compute the value, if and only if
      its key is not live in the log of the sections before; otherwise it inserts none, and the thread
      waits for the future of the key's latest access. */
  lemma LockKeeps<K, V>(s: State<K, V>, good: (K, V) -> bool, cap: nat, t: nat)
    requires Kept(s, good, cap) && Enabled(s, t) && s.threads[t].phase.Idle?
    ensures var s', key := Lock(s, cap, t), s.threads[t].todo[0];
            && Kept(s', good, cap)
            && if Live(s.locked, cap, key) then
                 var q := Latest(s.locked, key);
                 s'.futures == s.futures && s'.threads[t].phase == Waiting(q) && s'.locked == s.locked + [Entry(key, q)]
               else
                 var p := |s.futures|;
                 && s'.futures == s.futures + [Future(key, t, None)] && s'.threads[t].phase == Missed(p)
                 && s'.locked == s.locked + [Entry(key, p)]
  {
    hide Inv, Sections, FollowsLog, Lock, Live, Latest;
    LockInv(s, good, cap, t);
    LockSections(s, good, cap, t);
    LockFollowsLog(s, cap, t);
  }

  lemma NextKeeps<K, V>(s: State<K, V>, good: (K, V) -> bool, cap: nat, t: nat, v: V)
    requires Kept(s, good, cap) && Allowed(s, good, t, v)
    ensures Kept(Next(s, cap, t, v), good, cap)
  {
    hide Inv, Sections, FollowsLog, Lock, Compute, SetValue, Return;
    match s.threads[t].phase
    case Idle => LockKeeps(s, good, cap, t);
    case Missed(_) => ComputeInv(s, good, t, v); OtherSections(s, good, cap, t, v);
    case Computed(_, _) => SetValueKeeps(s, good, t); OtherSections(s, good, cap, t, v);
    case Waiting(_) => ReturnInv(s, good, t); OtherSections(s, good, cap, t, v);
  }

  // ---------------------------------------------------------------- progress

  function Work<K, V>(th: Thread<K, V>): int {
    4 * |th.todo| - (match th.phase case Idle => 0 case Missed(_) => 1 case Computed(_, _) => 2 case Waiting(_) => 3)
  }

  /** The steps that are left, whatever the schedule. */
  function StepsLeft<K, V>(threads: seq<Thread<K, V>>): int {
    if threads == [] then 0 else Work(threads[0]) + StepsLeft(threads[1..])
  }

  lemma {:induction false} StepsLeftUpdate<K, V>(threads: seq<Thread<K, V>>, t: nat, th: Thread<K, V>)
    requires t < |threads|
    ensures StepsLeft(threads[t := th]) == StepsLeft(threads) - Work(threads[t]) + Work(th)
  {
    if t > 0 {
      StepsLeftUpdate(threads[1..], t - 1, th);
      assert threads[t := th][1..] == threads[1..][t - 1 := th];
    } else {
      assert threads[t := th][1..] == threads[1..];
    }
  }

  lemma StepCounts<K, V>(s: State<K, V>, cap: nat, t: nat, v: V)
    requires Enabled(s, t)
    ensures |Next(s, cap, t, v).threads| == |s.threads|
    ensures StepsLeft(Next(s, cap, t, v).threads) < StepsLeft(s.threads)
  {
    var s' := Next(s, cap, t, v);
    hide Apply, StepsLeft;
    assert s'.threads == s.threads[t := s'.threads[t]];
    StepsLeftUpdate(s.threads, t, s'.threads[t]);
  }

  ghost predicate Done<K, V>(s: State<K, V>) {
    forall t :: 0 <= t < |s.threads| ==> s.threads[t].todo == []
  }

  /** No caller is stranded: as long as a call is unanswered, some thread can take a step. A waiter
      whose future has no value is waited for by the owner of that future, evicted or not. */
  lemma SomeoneCanGoOn<K, V(!new)>(s: State<K, V>, good: (K, V) -> bool) returns (t: nat, v: V)
    requires forall k :: HasValue(good, k)
    requires Inv(s, good) && !Done(s)
    ensures Allowed(s, good, t, v)
  {
    t :| t < |s.threads| && s.threads[t].todo != [];
    assert ThreadOk(s, t);
    if s.threads[t].phase.Waiting? && s.futures[s.threads[t].phase.p].value.None? {
      var p := s.threads[t].phase.p;
      assert FutureOk(s, p);
      t := s.futures[p].owner;
      assert ThreadOk(s, t);
    }
    assert HasValue(good, s.threads[t].todo[0]);
    v :| good(s.threads[t].todo[0], v);
  }

  // ---------------------------------------------------------------- whole runs

  /** One step of a run: which thread moves, and what the function returns if it is called. */
  datatype Choice<V> = Choice(t: nat, v: V)

  ghost predicate Run<K, V>(s: State<K, V>, good: (K, V) -> bool, cap: nat, run: seq<Choice<V>>)
    decreases run
  {
    run == [] || (Allowed(s, good, run[0].t, run[0].v) && Run(Next(s, cap, run[0].t, run[0].v), good, cap, run[1..]))
  }

  ghost function After<K, V>(s: State<K, V>, good: (K, V) -> bool, cap: nat, run: seq<Choice<V>>): State<K, V>
    requires Run(s, good, cap, run)
    decreases run
  {
    if run == [] then s else After(Next(s, cap, run[0].t, run[0].v), good, cap, run[1..])
  }

  lemma {:induction false} RunKeeps<K, V>(s: State<K, V>, good: (K, V) -> bool, cap: nat, run: seq<Choice<V>>)
    requires Kept(s, good, cap) && Run(s, good, cap, run)
    ensures Kept(After(s, good, cap, run), good, cap)
    ensures StepsLeft(After(s, good, cap, run).threads) + |run| <= StepsLeft(s.threads)
    decreases run
  {
    hide Kept, Next, StepsLeft;
    if run != [] {
      NextKeeps(s, good, cap, run[0].t, run[0].v);
      StepCounts(s, cap, run[0].t, run[0].v);
      RunKeeps(Next(s, cap, run[0].t, run[0].v), good, cap, run[1..]);
    }
  }

  /** `f` is total: some value comes out for the key. */
  ghost predicate HasValue<K, V(!new)>(good: (K, V) -> bool, key: K) {
    exists v :: good(key, v)
  }

  ghost predicate Stopped<K, V(!new)>(s: State<K, V>, good: (K, V) -> bool) {
    forall t, v :: !Allowed(s, good, t, v)
  }

  function Keys<K, V>(answers: seq<(K, V)>): seq<K> {
    seq(|answers|, i requires 0 <= i < |answers| => answers[i].0)
  }

  /** The calls a thread has answered and those it has still to make are the ones it was given. */
  ghost predicate Serves<K, V>(s: State<K, V>, requests: seq<seq<K>>) {
    && |s.threads| == |requests|
    && forall t :: 0 <= t < |requests| ==> Keys(s.threads[t].answers) + s.threads[t].todo == requests[t]
  }

  lemma NextServes<K, V>(s: State<K, V>, good: (K, V) -> bool, cap: nat, t: nat, v: V, requests: seq<seq<K>>)
    requires Allowed(s, good, t, v) && Serves(s, requests)
    ensures Serves(Next(s, cap, t, v), requests)
  {
    var s', th := Next(s, cap, t, v), s.threads[t];
    hide Apply;
    forall u | 0 <= u < |requests| ensures Keys(s'.threads[u].answers) + s'.threads[u].todo == requests[u] {
      if u == t && th.phase.Waiting? {
        var r := (th.todo[0], s.futures[th.phase.p].value.value);
        assert Keys(th.answers + [r]) == Keys(th.answers) + [th.todo[0]];
        assert Keys(th.answers) + th.todo == Keys(th.answers) + [th.todo[0]] + th.todo[1..];
      }
    }
  }

  lemma {:induction false} RunServes<K, V>(s: State<K, V>, good: (K, V) -> bool, cap: nat, run: seq<Choice<V>>, requests: seq<seq<K>>)
    requires Run(s, good, cap, run) && Serves(s, requests)
    ensures Serves(After(s, good, cap, run), requests)
    decreases run
  {
    hide Serves, Next;
    if run != [] {
      NextServes(s, good, cap, run[0].t, run[0].v, requests);
      RunServes(Next(s, cap, run[0].t, run[0].v), good, cap, run[1..], requests);
    }
  }

  lemma {:induction false} StepsNonNegative<K, V>(threads: seq<Thread<K, V>>)
    requires forall t :: 0 <= t < |threads| ==> threads[t].todo != [] || threads[t].phase.Idle?
    ensures StepsLeft(threads) >= 0
  {
    if threads != [] {
      assert forall t :: 0 <= t < |threads[1..]| ==> threads[1..][t] == threads[t + 1];
      StepsNonNegative(threads[1..]);
    }
  }

  function Calls<K>(requests: seq<seq<K>>): nat {
    if requests == [] then 0 else |requests[0]| + Calls(requests[1..])
  }

  lemma {:induction false} FourStepsACall<K, V>(requests: seq<seq<K>>)
    ensures StepsLeft(Init<K, V>(requests).threads) == 4 * Calls(requests)
  {
    if requests != [] {
      FourStepsACall<K, V>(requests[1..]);
      var threads := Init<K, V>(requests).threads;
      assert threads[1..] == Init<K, V>(requests[1..]).threads;
    }
  }

  lemma NothingYet<K, V>(requests: seq<seq<K>>, good: (K, V) -> bool, cap: nat)
    ensures Kept(Init<K, V>(requests), good, cap)
  {
    var s: State<K, V> := Init(requests);
    assert Inv(s, good);
    assert Sections(s);
    assert First(Recent<K, nat>([]), cap) == [];
  }

  lemma RunsKeep<K, V(!new)>(requests: seq<seq<K>>, good: (K, V) -> bool, cap: nat, run: seq<Choice<V>>)
    requires Run(Init<K, V>(requests), good, cap, run)
    ensures var s := After(Init<K, V>(requests), good, cap, run);
            && Kept(s, good, cap) && Serves(s, requests) && StepsLeft(s.threads) + |run| <= 4 * Calls(requests)
  {
    var s: State<K, V> := Init(requests);
    assert Serves(s, requests);
    NothingYet<K, V>(requests, good, cap);
    hide Kept, Serves, Init;
    RunKeeps(s, good, cap, run);
    RunServes(s, good, cap, run, requests);
    FourStepsACall<K, V>(requests);
  }

  /** The answer is the value of a future inserted for the key that was asked, and may come out for it. */
  ghost predicate FromItsKey<K, V>(s: State<K, V>, good: (K, V) -> bool, answer: (K, V)) {
    Answered(s, answer.0, answer.1) && good(answer.0, answer.1)
  }

  lemma AnswersAreGood<K, V>(s: State<K, V>, good: (K, V) -> bool, t: nat, i: nat)
    requires Inv(s, good) && t < |s.threads| && i < |s.threads[t].answers|
    ensures FromItsKey(s, good, s.threads[t].answers[i])
  {
    assert ThreadOk(s, t);
    var (key, v) := s.threads[t].answers[i];
    assert Answered(s, key, v);
    var p: nat :| p < |s.futures| && s.futures[p].key == key && s.futures[p].value == Some(v);
    assert FutureOk(s, p);
    var d := Deed(p, s.futures[p].owner, v);
    assert d in s.fulfilled && SetFor(s, d) && RanFor(s, good, d);
  }

  /** In every interleaving, at every moment: `f` has run at most once for each future, in the thread
      that inserted it; each future has been fulfilled at most once, by that thread and with the value
      that `f` gave it; every answer is the value of a future inserted for its key, one that may come
      out for it; and a run is never longer than four steps a call. Each call's locked section handed
      out the future of its key's latest access if the key was live in the log of the sections before,
      and a new future otherwise, and there are no other futures. */
  lemma EveryRun<K, V(!new)>(requests: seq<seq<K>>, good: (K, V) -> bool, cap: nat, run: seq<Choice<V>>)
    requires Run(Init<K, V>(requests), good, cap, run)
    ensures var s := After(Init<K, V>(requests), good, cap, run);
            && Once(s.fulfilled) && (forall d :: d in s.fulfilled ==> SetFor(s, d))
            && Once(s.computed) && (forall d :: d in s.computed ==> RanFor(s, good, d))
            && (forall t, i :: 0 <= t < |s.threads| && 0 <= i < |s.threads[t].answers| ==>
                  FromItsKey(s, good, s.threads[t].answers[i]))
            && Serves(s, requests) && |run| <= 4 * Calls(requests)
            && Sections(s) && (forall i: nat :: i < |s.locked| ==> HandsOut(s.locked, cap, i))
            && |s.futures| == Misses(s.locked, cap)
  {
    RunsKeep(requests, good, cap, run);
    var end := After(Init<K, V>(requests), good, cap, run);
    hide After, Run, StepsLeft, Serves, Init, Sections, HandsOut, Misses, First, Recent;
    assert LogsOk(end, good);
    forall t, i | 0 <= t < |end.threads| && 0 <= i < |end.threads[t].answers|
      ensures FromItsKey(end, good, end.threads[t].answers[i])
    {
      AnswersAreGood(end, good, t, i);
    }
    hide Once, RanFor, SetFor, FromItsKey, FutureOk;
    forall t | 0 <= t < |end.threads| ensures end.threads[t].todo != [] || end.threads[t].phase.Idle? {
      assert ThreadOk(end, t);
    }
    StepsNonNegative(end.threads);
  }

  /** Every request was answered with a value computed for it; for each future `f` ran once, and its
      value was set once, by the thread that inserted it. */
  ghost predicate Complete<K, V>(s: State<K, V>, good: (K, V) -> bool, requests: seq<seq<K>>) {
    && |s.threads| == |requests|
    && (forall t :: 0 <= t < |requests| ==> Keys(s.threads[t].answers) == requests[t])
    && (forall t, i :: 0 <= t < |requests| && 0 <= i < |s.threads[t].answers| ==> FromItsKey(s, good, s.threads[t].answers[i]))
    && Once(s.computed) && Once(s.fulfilled)
    && (forall p: nat :: p < |s.futures| ==> InBothLogs(s, p))
  }

  ghost predicate InBothLogs<K, V>(s: State<K, V>, p: nat)
    requires p < |s.futures|
  {
    var f := s.futures[p];
    f.value.Some? && Deed(p, f.owner, f.value.value) in s.computed && Deed(p, f.owner, f.value.value) in s.fulfilled
  }

  lemma DoneIsComplete<K, V>(s: State<K, V>, good: (K, V) -> bool, requests: seq<seq<K>>)
    requires Inv(s, good) && Serves(s, requests) && Done(s)
    ensures Complete(s, good, requests)
  {
    hide Keys, Once;
    forall t: nat | t < |s.threads| ensures s.threads[t].phase.Idle? && ThreadOk(s, t) {
      assert ThreadOk(s, t);
    }
    forall t, i | 0 <= t < |requests| && 0 <= i < |s.threads[t].answers|
      ensures FromItsKey(s, good, s.threads[t].answers[i])
    {
      AnswersAreGood(s, good, t, i);
    }
    forall p: nat | p < |s.futures| ensures InBothLogs(s, p) {
      assert FutureOk(s, p);
      assert Deed(p, s.futures[p].owner, s.futures[p].value.value) in s.fulfilled;
      assert SetFor(s, Deed(p, s.futures[p].owner, s.futures[p].value.value));
    }
    forall t | 0 <= t < |requests| ensures Keys(s.threads[t].answers) == requests[t] {
      assert Keys(s.threads[t].answers) + s.threads[t].todo == requests[t];
    }
  }

  /** A run that cannot go on has answered every call, with a value computed for its key, and has
      run `f` exactly once for each future that was inserted. */
  lemma StoppedRunsAnswer<K, V(!new)>(requests: seq<seq<K>>, good: (K, V) -> bool, cap: nat, run: seq<Choice<V>>)
    requires forall k :: HasValue(good, k)
    requires Run(Init<K, V>(requests), good, cap, run) && Stopped(After(Init<K, V>(requests), good, cap, run), good)
    ensures var s := After(Init<K, V>(requests), good, cap, run);
            Complete(s, good, requests)
  {
    RunsKeep(requests, good, cap, run);
    var s := After(Init<K, V>(requests), good, cap, run);
    hide Inv, Sections, FollowsLog, Serves, Complete, After, Run, Init, Done;
    if Done(s) {
      DoneIsComplete(s, good, requests);
    } else {
      var t, v := SomeoneCanGoOn(s, good);
    }
  }

  // ---------------------------------------------------------------- who shares a future

  function OtherKeys<K>(s: seq<Entry<K, nat>>, key: K): set<K> {
    KeySet(s) - {key}
  }

  lemma FewerKeys<K>(locked: seq<Entry<K, nat>>, a: nat, b: nat, c: nat, d: nat)
    requires a <= b <= c <= d <= |locked|
    ensures KeySet(locked[b..c]) <= KeySet(locked[a..d])
  {
    forall k | k in KeySet(locked[b..c]) ensures k in KeySet(locked[a..d]) {
      var i :| 0 <= i < |locked[b..c]| && locked[b..c][i].key == k;
      assert locked[a..d][i + b - a].key == k;
    }
  }

  lemma FewerOthers<K>(locked: seq<Entry<K, nat>>, a: nat, b: nat, c: nat, d: nat, key: K)
    requires a <= b <= c <= d <= |locked|
    ensures |OtherKeys(locked[b..c], key)| <= |OtherKeys(locked[a..d], key)|
  {
    FewerKeys(locked, a, b, c, d);
    SmallerSet(OtherKeys(locked[b..c], key), OtherKeys(locked[a..d], key));
  }

  lemma {:induction false} SmallerSet<K>(a: set<K>, b: set<K>)
    requires a <= b
    ensures |a| <= |b|
  {
    if a != {} {
      var x :| x in a;
      SmallerSet(a - {x}, b - {x});
    }
  }

  /** Two sections for a key, with fewer than `cap` other keys locked in between, hand out the same future. */
  lemma {:induction false} SameFuture<K>(locked: seq<Entry<K, nat>>, cap: nat, i: nat, j: nat)
    requires forall n: nat :: n < |locked| ==> HandsOut(locked, cap, n)
    requires i < j < |locked| && locked[i].key == locked[j].key
    requires |OtherKeys(locked[i + 1..j], locked[i].key)| < cap
    ensures locked[j].value == locked[i].value
    decreases j
  {
    hide *;
    var c := HandsLatest(locked, cap, i, j);
    if i < c {
      FewerOthers(locked, i + 1, i + 1, c, j, locked[i].key);
      SameFuture(locked, cap, i, c);
    }
  }

  /** The later section hands out what the last section for the key before it did. */
  lemma HandsLatest<K>(locked: seq<Entry<K, nat>>, cap: nat, i: nat, j: nat) returns (c: nat)
    requires i < j < |locked| && locked[i].key == locked[j].key && HandsOut(locked, cap, j)
    requires |OtherKeys(locked[i + 1..j], locked[i].key)| < cap
    ensures i <= c < j && locked[c].key == locked[j].key && locked[j].value == locked[c].value
  {
    hide KeySet, Since, Accessed, Latest, OtherKeys;
    var before, key := locked[..j], locked[j].key;
    AccessedAt(before, i);
    c := LatestIs(before, key);
    assert before[c + 1..] == locked[c + 1..j];
    FewerOthers(locked, i + 1, c + 1, j, j, key);
    NotAmong(locked[c + 1..j], key);
  }

  lemma NotAmong<K>(s: seq<Entry<K, nat>>, key: K)
    requires forall n :: 0 <= n < |s| ==> s[n].key != key
    ensures OtherKeys(s, key) == KeySet(s)
  {
  }

  /** In any run: two calls of a key, in whichever threads, between whose locked sections fewer than
      `cap` other keys were locked get the same future, and once both are answered the same value. */
  lemma CallsShare<K, V(!new)>(requests: seq<seq<K>>, good: (K, V) -> bool, cap: nat, run: seq<Choice<V>>, i: nat, j: nat)
    requires Run(Init<K, V>(requests), good, cap, run)
    requires var s := After(Init<K, V>(requests), good, cap, run);
             && i < j < |s.locked| && s.locked[i].key == s.locked[j].key
             && |OtherKeys(s.locked[i + 1..j], s.locked[i].key)| < cap
    ensures var s := After(Init<K, V>(requests), good, cap, run);
            && s.locked[i].value == s.locked[j].value
            && j < |s.callers|
            && var c, d := s.callers[i], s.callers[j];
               && c.t < |s.threads| && d.t < |s.threads|
               && (c.n < |s.threads[c.t].answers| && d.n < |s.threads[d.t].answers| ==>
                     s.threads[c.t].answers[c.n] == s.threads[d.t].answers[d.n])
  {
    RunsKeep(requests, good, cap, run);
    var s := After(Init<K, V>(requests), good, cap, run);
    hide After, Run, Init, Serves, Inv, HandsOut, OtherKeys, First, Recent, Misses;
    SameFuture(s.locked, cap, i, j);
    assert OfCall(s, s.locked[i], s.callers[i]) && OfCall(s, s.locked[j], s.callers[j]);
  }

  /** The keys that are asked for. */
  function Asked<K(==)>(requests: seq<seq<K>>): set<K> {
    set t, n | 0 <= t < |requests| && 0 <= n < |requests[t]| :: requests[t][n]
  }

  lemma SectionIsAsked<K, V>(s: State<K, V>, requests: seq<seq<K>>, i: nat)
    requires Sections(s) && Serves(s, requests) && i < |s.locked|
    ensures s.locked[i].key in Asked(requests)
  {
    hide HandedOut;
    var c := s.callers[i];
    assert OfCall(s, s.locked[i], c);
    var th := s.threads[c.t];
    assert Keys(th.answers) + th.todo == requests[c.t];
    assert requests[c.t][c.n] == s.locked[i].key;
  }

  /** With no more keys than the capacity, each key has one future, and `f` runs at most once for it. */
  lemma OncePerKey<K, V(!new)>(requests: seq<seq<K>>, good: (K, V) -> bool, cap: nat, run: seq<Choice<V>>)
    requires Run(Init<K, V>(requests), good, cap, run) && |Asked(requests)| <= cap
    ensures var s := After(Init<K, V>(requests), good, cap, run);
            && (forall p, q :: 0 <= p < q < |s.futures| ==> s.futures[p].key != s.futures[q].key)
            && (forall d :: d in s.computed ==> d.p < |s.futures|)
            && (forall i, j :: 0 <= i < j < |s.computed| ==>
                  s.futures[s.computed[i].p].key != s.futures[s.computed[j].p].key)
  {
    RunsKeep(requests, good, cap, run);
    var s := After(Init<K, V>(requests), good, cap, run);
    hide After, Run, Init, First, Recent, Misses, HandsOut;
    assert forall d :: d in s.computed ==> RanFor(s, good, d);
    forall p, q | 0 <= p < q < |s.futures| ensures s.futures[p].key != s.futures[q].key {
      if s.futures[p].key == s.futures[q].key { OneFutureAKey(s, cap, requests, p, q); }
    }
  }

  lemma OneFutureAKey<K, V>(s: State<K, V>, cap: nat, requests: seq<seq<K>>, p: nat, q: nat)
    requires Sections(s) && Serves(s, requests) && forall n: nat :: n < |s.locked| ==> HandsOut(s.locked, cap, n)
    requires |Asked(requests)| <= cap
    requires p < |s.futures| && q < |s.futures| && s.futures[p].key == s.futures[q].key
    ensures p == q
  {
    hide Serves, HandsOut, Asked;
    assert HandedOut(s.locked, p) && HandedOut(s.locked, q);
    var i :| 0 <= i < |s.locked| && s.locked[i].value == p;
    var j :| 0 <= j < |s.locked| && s.locked[j].value == q;
    assert OfCall(s, s.locked[i], s.callers[i]) && OfCall(s, s.locked[j], s.callers[j]);
    if i < j {
      FewOthers(s, requests, i, j);
      SameFuture(s.locked, cap, i, j);
    } else if j < i {
      FewOthers(s, requests, j, i);
      SameFuture(s.locked, cap, j, i);
    }
  }

  lemma FewOthers<K, V>(s: State<K, V>, requests: seq<seq<K>>, i: nat, j: nat)
    requires Sections(s) && Serves(s, requests) && i < j < |s.locked|
    ensures |OtherKeys(s.locked[i + 1..j], s.locked[i].key)| < |Asked(requests)|
  {
    hide *;
    var between := s.locked[i + 1..j];
    SectionIsAsked(s, requests, i);
    forall n | 0 <= n < |between| ensures between[n].key in Asked(requests) {
      SectionIsAsked(s, requests, i + 1 + n);
    }
    OthersWithin(between, s.locked[i].key, Asked(requests));
  }

  lemma OthersWithin<K>(s: seq<Entry<K, nat>>, key: K, all: set<K>)
    requires key in all && forall n :: 0 <= n < |s| ==> s[n].key in all
    ensures |OtherKeys(s, key)| < |all|
  {
    SmallerSet(OtherKeys(s, key), all - {key});
  }
}
