/** src/writer/queue.h: a first-in first-out queue under a mutex, whose bound is checked before
    the push and not with it.

    `pushToQueue` reads the size under the lock, gives the lock back, and pushes later: between the
    two, any other producer may do the same. With `p` producers the queue holds at most
    `MAX_QUEUE_SIZE + p` elements, and there is a run that reaches that. */
module Queue {

  const MAX_QUEUE_SIZE := 10

  class Queue<T> {
    var realQueue: seq<T>

    constructor ()
      ensures realQueue == []
    {
      realQueue := [];
    }

    method Size() returns (size: nat)
      ensures size == |realQueue|
    {
      size := |realQueue|;
    }

    /** The second locked section of `pushToQueue`: it does not look at the size again. */
    method Push(element: T)
      modifies this
      ensures realQueue == old(realQueue) + [element]
    {
      realQueue := realQueue + [element];
    }

    method GetHead(default: T) returns (ok: bool, element: T)
      ensures ok <==> realQueue != []
      ensures element == if ok then realQueue[0] else default
    {
      if realQueue == [] { return false, default; }
      return true, realQueue[0];
    }

    method PopFromQueue(default: T) returns (ok: bool, element: T)
      modifies this
      ensures ok <==> old(realQueue) != []
      ensures ok ==> old(realQueue) == [element] + realQueue
      ensures !ok ==> realQueue == [] && element == default
    {
      if realQueue == [] { return false, default; }
      ok, element := true, realQueue[0];
      realQueue := realQueue[1..];
    }
  }

  // ---------------------------------------------------------------- any number of producers

  /** How many elements there are, and which producers have seen room and not pushed yet. */
  datatype State = State(size: nat, ready: set<nat>)

  /** A producer reads the size, or pushes; some consumer pops. */
  datatype Event = See(producer: nat) | Add(producer: nat) | Pop

  predicate Allowed(s: State, producers: nat, e: Event) {
    match e
    case See(i) => i < producers && i !in s.ready && s.size <= MAX_QUEUE_SIZE
    case Add(i) => i in s.ready
    case Pop => s.size > 0
  }

  function Next(s: State, e: Event): State
    requires e.Pop? ==> s.size > 0
  {
    match e
    case See(i) => State(s.size, s.ready + {i})
    case Add(i) => State(s.size + 1, s.ready - {i})
    case Pop => State(s.size - 1, s.ready)
  }

  predicate Run(s: State, producers: nat, run: seq<Event>)
    decreases run
  {
    run == [] || (Allowed(s, producers, run[0]) && Run(Next(s, run[0]), producers, run[1..]))
  }

  function After(s: State, producers: nat, run: seq<Event>): State
    requires Run(s, producers, run)
    decreases run
  {
    if run == [] then s else After(Next(s, run[0]), producers, run[1..])
  }

  function Upto(n: nat): (s: set<nat>)
    ensures |s| == n && forall i: nat :: i in s <==> i < n
  {
    if n == 0 then {} else Upto(n - 1) + {n - 1}
  }

  lemma SubsetSize(a: set<nat>, b: set<nat>)
    requires a <= b
    ensures |a| <= |b|
  {
    assert b == a + (b - a);
  }

  ghost predicate Bounded(s: State, producers: nat) {
    s.ready <= Upto(producers) && s.size + |s.ready| <= MAX_QUEUE_SIZE + producers
  }

  lemma StepKeepsBound(s: State, producers: nat, e: Event)
    requires Bounded(s, producers) && Allowed(s, producers, e)
    ensures Bounded(Next(s, e), producers)
  {
    SubsetSize(Next(s, e).ready, Upto(producers));
  }

  /** However many producers race between the check and the push, one element each too many at most. */
  lemma {:induction false} BoundHolds(s: State, producers: nat, run: seq<Event>)
    requires Bounded(s, producers) && Run(s, producers, run)
    ensures After(s, producers, run).size <= MAX_QUEUE_SIZE + producers
    decreases run
  {
    if run != [] {
      StepKeepsBound(s, producers, run[0]);
      BoundHolds(Next(s, run[0]), producers, run[1..]);
    }
  }

  lemma {:induction false} RunAppend(s: State, producers: nat, a: seq<Event>, b: seq<Event>)
    requires Run(s, producers, a) && Run(After(s, producers, a), producers, b)
    ensures Run(s, producers, a + b) && After(s, producers, a + b) == After(After(s, producers, a), producers, b)
    decreases a
  {
    if a == [] {
      assert a + b == b;
    } else {
      RunAppend(Next(s, a[0]), producers, a[1..], b);
      assert (a + b)[1..] == a[1..] + b;
    }
  }

  lemma {:induction false} RunSnoc(s: State, producers: nat, a: seq<Event>, e: Event)
    requires Run(s, producers, a) && Allowed(After(s, producers, a), producers, e)
    ensures Run(s, producers, a + [e]) && After(s, producers, a + [e]) == Next(After(s, producers, a), e)
  {
    RunAppend(s, producers, a, [e]);
  }

  lemma {:induction false} Fill(producers: nat, n: nat) returns (run: seq<Event>)
    requires producers >= 1 && n <= MAX_QUEUE_SIZE
    ensures Run(State(0, {}), producers, run) && After(State(0, {}), producers, run) == State(n, {})
    decreases n
  {
    run := [];
    if n > 0 {
      run := Fill(producers, n - 1);
      RunSnoc(State(0, {}), producers, run, See(0));
      run := run + [See(0)];
      RunSnoc(State(0, {}), producers, run, Add(0));
      run := run + [Add(0)];
      assert {0} - {0} == {};
    }
  }

  lemma {:induction false} AllSee(producers: nat, k: nat) returns (run: seq<Event>)
    requires 1 <= producers && k <= producers
    ensures Run(State(0, {}), producers, run) && After(State(0, {}), producers, run) == State(MAX_QUEUE_SIZE, Upto(k))
    decreases k
  {
    if k == 0 {
      run := Fill(producers, MAX_QUEUE_SIZE);
    } else {
      run := AllSee(producers, k - 1);
      RunSnoc(State(0, {}), producers, run, See(k - 1));
      run := run + [See(k - 1)];
    }
  }

  lemma {:induction false} AllAdd(producers: nat, k: nat) returns (run: seq<Event>)
    requires 1 <= producers && k <= producers
    ensures Run(State(0, {}), producers, run)
    ensures After(State(0, {}), producers, run) == State(MAX_QUEUE_SIZE + (producers - k), Upto(k))
    decreases producers - k
  {
    if k == producers {
      run := AllSee(producers, k);
    } else {
      run := AllAdd(producers, k + 1);
      RunSnoc(State(0, {}), producers, run, Add(k));
      run := run + [Add(k)];
      assert Upto(k + 1) - {k} == Upto(k);
    }
  }

  /** The bound is exact: from the empty queue, some run of `p` producers reaches `MAX_QUEUE_SIZE + p`. */
  lemma BoundIsReached(producers: nat) returns (run: seq<Event>)
    requires producers >= 1
    ensures Run(State(0, {}), producers, run)
    ensures After(State(0, {}), producers, run).size == MAX_QUEUE_SIZE + producers
  {
    run := AllAdd(producers, 0);
  }
}
