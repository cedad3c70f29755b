/** The creator's threads (src/writer/creator.cpp, workers.cpp, clusterWorker.h, queue.h).

    The main thread closes clusters and gives each to two queues, the workers close what is in the
    task queue, and one thread writes the clusters in the order they were listed. At the end the
    main thread waits for the counter of tasks, gives every worker a null and joins them, gives the
    writer a null and joins it. A step is what a thread does between two points where another one
    may run: the check of a queue's size and the push are two steps, as are taking the head of
    the write queue, looking whether it is closed, popping it, setting its offset, writing it and
    clearing its data. A poll that finds nothing to do is not a step. */
module Pipeline {
  import opened Bytes
  import CF = ClusterFormat
  import Queue

  const MAX_QUEUE_SIZE: nat := Queue.MAX_QUEUE_SIZE

  /** What the main thread does between start and finish: the calls that reach the queues. */
  datatype Job = CloseCluster | IndexTask

  /** `image(c)` is what `Cluster::write` writes for cluster `c` once it is closed. */
  datatype Config = Config(plan: seq<Job>, workers: nat, image: nat -> Str)

  datatype Task = Close(c: nat) | Index | Null

  datatype Main =
    | Working(i: nat)      // before job i; after the last one, waiting for the counter of tasks
    | TaskCheck(i: nat)    // the cluster is listed and its task made
    | TaskPush(i: nat)
    | WriteCheck(i: nat)
    | WritePush(i: nat)
    | IndexPush(i: nat)
    | NullCheck(k: nat)    // k workers were given their null; after the last one, joining them
    | NullPush(k: nat)
    | EndCheck
    | EndPush
    | JoinWriter
    | Finished

  datatype Worker = Idle | Running(c: nat) | RunningIndex | Ran(c: nat) | Left

  datatype Writer = Polling | Looking(head: Head) | SeenClosed(c: nat) | Popped(c: nat) | Placed(c: nat) | Written(c: nat) | Gone

  datatype Head = Cluster(c: nat) | End

  /** `live` are the `ClusterTask` objects that exist, `waiting` the counter `waiting_task`;
      `popped` counts what the writer took; `file` is what lies behind byte 1024. */
  datatype State = State(
    main: Main,
    listed: nat,
    taskQ: seq<Task>,
    writeQ: seq<Head>,
    waiting: int,
    live: set<nat>,
    workers: seq<Worker>,
    closed: set<nat>,
    writer: Writer,
    popped: nat,
    cleared: set<nat>,
    offsets: map<nat, nat>,
    file: Str)

  function Init(cfg: Config): State {
    State(Working(0), 0, [], [], 0, {}, seq(cfg.workers, _ => Idle), {}, Polling, 0, {}, map[], [])
  }

  datatype Actor = MainThread | WorkerThread(w: nat) | WriterThread

  // ---------------------------------------------------------------- the main thread

  predicate MainEnabled(cfg: Config, s: State) {
    match s.main
    case Working(i) =>
      if i < |cfg.plan| then cfg.plan[i].CloseCluster? || |s.taskQ| <= MAX_QUEUE_SIZE else s.waiting == 0
    case TaskCheck(_) => |s.taskQ| <= MAX_QUEUE_SIZE
    case WriteCheck(_) => |s.writeQ| <= MAX_QUEUE_SIZE
    case NullCheck(k) =>
      if k < cfg.workers then |s.taskQ| <= MAX_QUEUE_SIZE else forall w :: 0 <= w < |s.workers| ==> s.workers[w].Left?
    case EndCheck => |s.writeQ| <= MAX_QUEUE_SIZE
    case JoinWriter => s.writer.Gone?
    case Finished => false
    case _ => true
  }

  function MainStep(cfg: Config, s: State): State {
    match s.main
    case Working(i) =>
      if i >= |cfg.plan| then s.(main := NullCheck(0))
      else if cfg.plan[i].IndexTask? then s.(main := IndexPush(i))
      else s.(main := TaskCheck(i), listed := s.listed + 1, live := s.live + {s.listed}, waiting := s.waiting + 1)
    case TaskCheck(i) => s.(main := TaskPush(i))
    case TaskPush(i) => s.(main := WriteCheck(i), taskQ := s.taskQ + [Close(LastListed(s))])
    case WriteCheck(i) => s.(main := WritePush(i))
    case WritePush(i) => s.(main := Working(i + 1), writeQ := s.writeQ + [Cluster(LastListed(s))])
    case IndexPush(i) => s.(main := Working(i + 1), taskQ := s.taskQ + [Index])
    case NullCheck(k) => s.(main := if k < cfg.workers then NullPush(k) else EndCheck)
    case NullPush(k) => s.(main := NullCheck(k + 1), taskQ := s.taskQ + [Null])
    case EndCheck => s.(main := EndPush)
    case EndPush => s.(main := JoinWriter, writeQ := s.writeQ + [End])
    case JoinWriter => s.(main := Finished)
    case Finished => s
  }

  function LastListed(s: State): nat {
    if s.listed == 0 then 0 else s.listed - 1
  }

  // ---------------------------------------------------------------- a worker

  predicate WorkerEnabled(s: State, w: nat) {
    && w < |s.workers|
    && match s.workers[w]
       case Idle => s.taskQ != []
       case Left => false
       case _ => true
  }

  function WorkerStep(s: State, w: nat): State
    requires WorkerEnabled(s, w)
  {
    match s.workers[w]
    case Idle =>
      var phase := match s.taskQ[0] case Close(c) => Running(c) case Index => RunningIndex case Null => Left;
      s.(taskQ := s.taskQ[1..], workers := s.workers[w := phase])
    case Running(c) => s.(closed := s.closed + {c}, workers := s.workers[w := Ran(c)])
    case Ran(c) => s.(live := s.live - {c}, waiting := s.waiting - 1, workers := s.workers[w := Idle])
    case RunningIndex => s.(workers := s.workers[w := Idle])
    case Left => s
  }

  // ---------------------------------------------------------------- the writer

  predicate WriterEnabled(s: State) {
    match s.writer
    case Polling => s.writeQ != []
    case SeenClosed(_) => s.writeQ != []
    case Gone => false
    case _ => true
  }

  /** What `Cluster::write` puts in the file: nothing of the data before it is closed or once it is cleared. */
  function DataOf(cfg: Config, s: State, c: nat): Str {
    if c in s.closed && c !in s.cleared then cfg.image(c) else []
  }

  function WriterStep(cfg: Config, s: State): State
    requires WriterEnabled(s)
  {
    match s.writer
    case Polling => s.(writer := Looking(s.writeQ[0]))
    case Looking(End) => s.(writer := Gone)
    case Looking(Cluster(c)) => s.(writer := if c in s.closed then SeenClosed(c) else Polling)
    case SeenClosed(c) =>
      s.(writer := Popped(match s.writeQ[0] case Cluster(d) => d case End => c),
         writeQ := s.writeQ[1..], popped := s.popped + 1)
    case Popped(c) => s.(writer := Placed(c), offsets := s.offsets[c := CF.CLUSTER_BASE_OFFSET + |s.file|])
    case Placed(c) => s.(writer := Written(c), file := s.file + DataOf(cfg, s, c))
    case Written(c) => s.(writer := Polling, cleared := s.cleared + {c})
    case Gone => s
  }

  predicate Enabled(cfg: Config, s: State, a: Actor) {
    match a
    case MainThread => MainEnabled(cfg, s)
    case WorkerThread(w) => WorkerEnabled(s, w)
    case WriterThread => WriterEnabled(s)
  }

  function Next(cfg: Config, s: State, a: Actor): State
    requires Enabled(cfg, s, a)
  {
    match a
    case MainThread => MainStep(cfg, s)
    case WorkerThread(w) => WorkerStep(s, w)
    case WriterThread => WriterStep(cfg, s)
  }

  // ---------------------------------------------------------------- tasks

  /** The clusters whose task was pushed, and those that were pushed to the writer. */
  function Tasked(s: State): int {
    s.listed - (if s.main.TaskCheck? || s.main.TaskPush? then 1 else 0)
  }

  function Handed(s: State): int {
    s.listed - (if s.main.TaskCheck? || s.main.TaskPush? || s.main.WriteCheck? || s.main.WritePush? then 1 else 0)
  }

  predicate Busy(x: Worker) {
    x.Running? || x.Ran?
  }

  /** Every cluster given out is closed, or its task is in the queue or with one worker; a task
      exists until its worker is done with it. */
  ghost predicate TasksOk(taskQ: seq<Task>, workers: seq<Worker>, live: set<nat>, closed: set<nat>, listed: nat, tasked: int) {
    && (forall i :: 0 <= i < |taskQ| && taskQ[i].Close? ==> QueuedOk(taskQ[i].c, live, closed, tasked))
    && (forall i, j :: 0 <= i < j < |taskQ| && taskQ[i].Close? ==> taskQ[i] != taskQ[j])
    && (forall w :: 0 <= w < |workers| && Busy(workers[w]) ==> WorkerOk(workers[w], taskQ, live, closed, tasked))
    && (forall v, w :: 0 <= v < w < |workers| && Busy(workers[v]) && Busy(workers[w]) ==> workers[v].c != workers[w].c)
    && (forall c: nat :: c < tasked ==> Accounted(c, taskQ, workers, closed))
    && (forall c :: c in live ==> c < listed && (c >= tasked || Close(c) in taskQ || Running(c) in workers || Ran(c) in workers))
    && (forall c :: c in closed ==> c < tasked)
    && (forall c: nat :: tasked <= c < listed ==> c in live)
  }

  ghost predicate QueuedOk(c: nat, live: set<nat>, closed: set<nat>, tasked: int) {
    c in live && c !in closed && c < tasked
  }

  ghost predicate WorkerOk(x: Worker, taskQ: seq<Task>, live: set<nat>, closed: set<nat>, tasked: int)
    requires Busy(x)
  {
    x.c in live && x.c < tasked && Close(x.c) !in taskQ && (x.c in closed <==> x.Ran?)
  }

  ghost predicate Accounted(c: nat, taskQ: seq<Task>, workers: seq<Worker>, closed: set<nat>) {
    c in closed || Close(c) in taskQ || Running(c) in workers
  }

  // ---------------------------------------------------------------- the nulls

  function CountLeft(workers: seq<Worker>): nat {
    if workers == [] then 0 else (if workers[0].Left? then 1 else 0) + CountLeft(workers[1..])
  }

  function Nulls(cfg: Config, main: Main): nat {
    match main
    case NullCheck(k) => k
    case NullPush(k) => k
    case EndCheck => cfg.workers
    case EndPush => cfg.workers
    case JoinWriter => cfg.workers
    case Finished => cfg.workers
    case _ => 0
  }

  /** Each null that was pushed is at the end of the queue, or has stopped one worker; once it has
      stopped one, nothing else is left in the queue. */
  ghost predicate NullsOk(taskQ: seq<Task>, workers: seq<Worker>, nulls: nat) {
    var queued := nulls - CountLeft(workers);
    && 0 <= queued <= |taskQ|
    && (CountLeft(workers) > 0 ==> |taskQ| == queued)
    && forall i :: 0 <= i < |taskQ| ==> (taskQ[i].Null? <==> i >= |taskQ| - queued)
  }

  // ---------------------------------------------------------------- the file

  function Images(image: nat -> Str, n: nat): Str {
    if n == 0 then [] else Images(image, n - 1) + image(n - 1)
  }

  predicate Holding(writer: Writer) {
    writer.Popped? || writer.Placed? || writer.Written?
  }

  /** How many clusters are in the file. */
  function InFile(writer: Writer, popped: nat): int {
    if writer.Popped? || writer.Placed? then popped - 1 else popped
  }

  /** The queue holds the clusters that were handed over and not popped, in order, and the end. */
  ghost predicate WriteQueueOk(writeQ: seq<Head>, popped: nat, handed: int, ended: bool) {
    && popped <= handed
    && |writeQ| == handed - popped + (if ended then 1 else 0)
    && forall i :: 0 <= i < |writeQ| ==> writeQ[i] == if popped + i < handed then Cluster(popped + i) else End
  }

  ghost predicate WriterOk(writer: Writer, writeQ: seq<Head>, popped: nat, closed: set<nat>, cleared: set<nat>) {
    && (writer.Looking? ==> writeQ != [] && writer.head == writeQ[0])
    && (writer.SeenClosed? ==> writeQ != [] && writeQ[0] == Cluster(writer.c) && writer.c == popped && popped in closed)
    && (Holding(writer) ==> writer.c == popped - 1)
    && (writer.Gone? ==> writeQ != [] && writeQ[0] == End)
    && (forall c: nat :: c < popped ==> c in closed)
    && (forall c: nat :: c in cleared <==> c < popped && !(Holding(writer) && c == popped - 1))
  }

  ghost predicate FileOk(image: nat -> Str, writer: Writer, popped: nat, offsets: map<nat, nat>, file: Str) {
    && InFile(writer, popped) >= 0
    && file == Images(image, InFile(writer, popped))
    && (forall c: nat :: c < popped && !(writer == Popped(c)) ==>
          c in offsets && offsets[c] == CF.CLUSTER_BASE_OFFSET + |Images(image, c)|)
  }

  // ---------------------------------------------------------------- the main thread's place

  function Closes(plan: seq<Job>, i: nat): nat
    requires i <= |plan|
  {
    if i == 0 then 0 else Closes(plan, i - 1) + (if plan[i - 1].CloseCluster? then 1 else 0)
  }

  ghost predicate MainOk(cfg: Config, s: State) {
    match s.main
    case Working(i) => i <= |cfg.plan| && s.listed == Closes(cfg.plan, i)
    case IndexPush(i) => i < |cfg.plan| && cfg.plan[i].IndexTask? && s.listed == Closes(cfg.plan, i) && |s.taskQ| <= MAX_QUEUE_SIZE
    case TaskPush(i) => i < |cfg.plan| && cfg.plan[i].CloseCluster? && s.listed == Closes(cfg.plan, i + 1) && |s.taskQ| <= MAX_QUEUE_SIZE
    case WritePush(i) => i < |cfg.plan| && cfg.plan[i].CloseCluster? && s.listed == Closes(cfg.plan, i + 1) && |s.writeQ| <= MAX_QUEUE_SIZE
    case TaskCheck(i) => i < |cfg.plan| && cfg.plan[i].CloseCluster? && s.listed == Closes(cfg.plan, i + 1)
    case WriteCheck(i) => i < |cfg.plan| && cfg.plan[i].CloseCluster? && s.listed == Closes(cfg.plan, i + 1)
    case NullCheck(k) => k <= cfg.workers && Over(cfg, s)
    case NullPush(k) => k < cfg.workers && Over(cfg, s) && |s.taskQ| <= MAX_QUEUE_SIZE
    case EndPush => Over(cfg, s) && |s.writeQ| <= MAX_QUEUE_SIZE && CountLeft(s.workers) == cfg.workers
    case Finished => Over(cfg, s) && s.writer.Gone? && CountLeft(s.workers) == cfg.workers
    case _ => Over(cfg, s) && CountLeft(s.workers) == cfg.workers
  }

  ghost predicate Over(cfg: Config, s: State) {
    s.listed == Closes(cfg.plan, |cfg.plan|) && s.waiting == 0
  }

  ghost predicate SizesOk(s: State) {
    |s.taskQ| <= MAX_QUEUE_SIZE + 1 && |s.writeQ| <= MAX_QUEUE_SIZE + 1
  }

  ghost predicate Ended(s: State) {
    s.main.JoinWriter? || s.main.Finished?
  }

  /** What holds at every moment of every run. */
  ghost predicate Inv(cfg: Config, s: State) {
    && |s.workers| == cfg.workers
    && |s.live| == s.waiting
    && Tasked(s) >= 0 && Handed(s) >= 0
    && TasksOk(s.taskQ, s.workers, s.live, s.closed, s.listed, Tasked(s))
    && NullsOk(s.taskQ, s.workers, Nulls(cfg, s.main))
    && WriteQueueOk(s.writeQ, s.popped, Handed(s), Ended(s))
    && WriterOk(s.writer, s.writeQ, s.popped, s.closed, s.cleared)
    && FileOk(cfg.image, s.writer, s.popped, s.offsets, s.file)
    && MainOk(cfg, s)
    && SizesOk(s)
  }

  // ---------------------------------------------------------------- every step keeps it

  lemma MainKeeps(cfg: Config, s: State)
    requires Inv(cfg, s) && MainEnabled(cfg, s)
    ensures Inv(cfg, MainStep(cfg, s))
  {
    MainTasks(cfg, s);
    MainNulls(cfg, s);
    MainWrites(cfg, s);
    MainCounts(cfg, s);
    MainMoves(cfg, s);
    assert FileOk(cfg.image, s.writer, s.popped, s.offsets, s.file);
    hide *;
    InvParts(cfg, MainStep(cfg, s));
  }

  lemma InvParts(cfg: Config, s: State)
    requires |s.workers| == cfg.workers && |s.live| == s.waiting && Tasked(s) >= 0 && Handed(s) >= 0
    requires TasksOk(s.taskQ, s.workers, s.live, s.closed, s.listed, Tasked(s))
    requires NullsOk(s.taskQ, s.workers, Nulls(cfg, s.main))
    requires WriteQueueOk(s.writeQ, s.popped, Handed(s), Ended(s))
    requires WriterOk(s.writer, s.writeQ, s.popped, s.closed, s.cleared)
    requires FileOk(cfg.image, s.writer, s.popped, s.offsets, s.file)
    requires MainOk(cfg, s) && SizesOk(s)
    ensures Inv(cfg, s)
  {
    hide TasksOk, NullsOk, WriteQueueOk, WriterOk, FileOk, MainOk, SizesOk, Tasked, Handed, Ended, Nulls;
  }

  lemma MainCounts(cfg: Config, s: State)
    requires Inv(cfg, s) && MainEnabled(cfg, s)
    ensures var s' := MainStep(cfg, s);
            && s'.popped == s.popped && s'.writer == s.writer && s'.offsets == s.offsets && s'.file == s.file
            && s'.workers == s.workers && |s'.workers| == cfg.workers
            && |s'.live| == s'.waiting && Tasked(s') >= 0 && Handed(s') >= 0
  {
    hide CountLeft, Images, WriterOk, FileOk, TasksOk, NullsOk, WriteQueueOk, Closes, SizesOk, MainOk, MainEnabled, Ended, Nulls;
    NotYetLive(s.taskQ, s.workers, s.live, s.closed, s.listed, Tasked(s));
  }

  lemma MainMoves(cfg: Config, s: State)
    requires Inv(cfg, s) && MainEnabled(cfg, s)
    ensures var s' := MainStep(cfg, s); MainOk(cfg, s') && SizesOk(s')
  {
    hide CountLeft, Images, WriterOk, FileOk, TasksOk, NullsOk, WriteQueueOk, Closes;
    match s.main
    case Working(i) => if i < |cfg.plan| { NextCloses(cfg.plan, i); }
    case IndexPush(i) => NextCloses(cfg.plan, i);
    case NullCheck(k) => if k == cfg.workers { AllLeft(s.workers); }
    case _ =>
  }

  lemma NotYetLive(taskQ: seq<Task>, workers: seq<Worker>, live: set<nat>, closed: set<nat>, listed: nat, tasked: int)
    requires TasksOk(taskQ, workers, live, closed, listed, tasked)
    ensures listed !in live
  {
  }

  lemma NextCloses(plan: seq<Job>, i: nat)
    requires i < |plan|
    ensures Closes(plan, i + 1) == Closes(plan, i) + if plan[i].CloseCluster? then 1 else 0
  {
  }

  lemma {:induction false} AllLeft(workers: seq<Worker>)
    requires forall w :: 0 <= w < |workers| ==> workers[w].Left?
    ensures CountLeft(workers) == |workers|
  {
    if workers != [] { AllLeft(workers[1..]); }
  }

  lemma {:induction false} LeftUpdate(workers: seq<Worker>, w: nat, x: Worker)
    requires w < |workers| && !workers[w].Left?
    ensures CountLeft(workers[w := x]) == CountLeft(workers) + if x.Left? then 1 else 0
  {
    if w > 0 {
      LeftUpdate(workers[1..], w - 1, x);
      assert workers[w := x][1..] == workers[1..][w - 1 := x];
    } else {
      assert workers[w := x][1..] == workers[1..];
    }
  }

  lemma {:induction false} SomeoneStays(workers: seq<Worker>) returns (w: nat)
    requires CountLeft(workers) < |workers|
    ensures w < |workers| && !workers[w].Left?
  {
    if !workers[0].Left? { w := 0; } else { w := SomeoneStays(workers[1..]); w := w + 1; }
  }

  lemma {:induction false} LeftAtMost(workers: seq<Worker>)
    ensures CountLeft(workers) <= |workers|
  {
    if workers != [] { LeftAtMost(workers[1..]); }
  }

  lemma MainTasks(cfg: Config, s: State)
    requires Inv(cfg, s) && MainEnabled(cfg, s)
    ensures var s' := MainStep(cfg, s);
            TasksOk(s'.taskQ, s'.workers, s'.live, s'.closed, s'.listed, Tasked(s'))
  {
    hide CountLeft, Images, WriterOk, FileOk, NullsOk, WriteQueueOk, Closes, SizesOk, TasksOk;
    match s.main
    case Working(i) => TaskMade(s.taskQ, s.workers, s.live, s.closed, s.listed);
    case TaskPush(i) => TaskPushed(s.taskQ, s.workers, s.live, s.closed, s.listed, Tasked(s), Close(s.listed - 1));
    case IndexPush(i) => TaskPushed(s.taskQ, s.workers, s.live, s.closed, s.listed, Tasked(s), Index);
    case NullPush(i) => TaskPushed(s.taskQ, s.workers, s.live, s.closed, s.listed, Tasked(s), Null);
    case _ =>
  }

  lemma TaskMade(taskQ: seq<Task>, workers: seq<Worker>, live: set<nat>, closed: set<nat>, listed: nat)
    requires TasksOk(taskQ, workers, live, closed, listed, listed)
    ensures TasksOk(taskQ, workers, live + {listed}, closed, listed + 1, listed)
  {
    hide Accounted;
  }

  lemma TaskPushed(taskQ: seq<Task>, workers: seq<Worker>, live: set<nat>, closed: set<nat>, listed: nat, tasked: nat, task: Task)
    requires TasksOk(taskQ, workers, live, closed, listed, tasked)
    requires task.Close? ==> task.c == tasked && tasked < listed
    ensures TasksOk(taskQ + [task], workers, live, closed, listed, if task.Close? then tasked + 1 else tasked)
  {
    var q := taskQ + [task];
    var t := if task.Close? then tasked + 1 else tasked;
    assert q[|taskQ|] == task;
    assert forall x :: x in q <==> x in taskQ || x == task;
    forall w | 0 <= w < |workers| && Busy(workers[w]) ensures WorkerOk(workers[w], q, live, closed, t) {
      assert WorkerOk(workers[w], taskQ, live, closed, tasked);
    }
    forall c: nat | c < t ensures Accounted(c, q, workers, closed) {
      if c < tasked { assert Accounted(c, taskQ, workers, closed); }
    }
    forall i | 0 <= i < |q| && q[i].Close? ensures QueuedOk(q[i].c, live, closed, t) {
      if i < |taskQ| { assert QueuedOk(taskQ[i].c, live, closed, tasked); }
    }
    forall i, j | 0 <= i < j < |q| && q[i].Close? ensures q[i] != q[j] {
      assert QueuedOk(taskQ[i].c, live, closed, tasked);
    }
  }

  lemma MainNulls(cfg: Config, s: State)
    requires Inv(cfg, s) && MainEnabled(cfg, s)
    ensures var s' := MainStep(cfg, s);
            NullsOk(s'.taskQ, s'.workers, Nulls(cfg, s'.main))
  {
    hide CountLeft, Images, WriterOk, FileOk, TasksOk, WriteQueueOk, Closes, SizesOk, NullsOk;
    var s' := MainStep(cfg, s);
    if s.main.TaskPush? {
      NullsPushed(s.taskQ, s.workers, 0, Close(LastListed(s)));
    } else if s.main.IndexPush? {
      NullsPushed(s.taskQ, s.workers, 0, Index);
    } else if s.main.NullPush? {
      NullsPushed(s.taskQ, s.workers, s.main.k, Null);
    }
  }

  lemma NullsPushed(taskQ: seq<Task>, workers: seq<Worker>, nulls: nat, task: Task)
    requires NullsOk(taskQ, workers, nulls) && (!task.Null? ==> nulls == 0)
    ensures NullsOk(taskQ + [task], workers, if task.Null? then nulls + 1 else nulls)
  {
  }

  lemma MainWrites(cfg: Config, s: State)
    requires Inv(cfg, s) && MainEnabled(cfg, s)
    ensures var s' := MainStep(cfg, s);
            && WriteQueueOk(s'.writeQ, s'.popped, Handed(s'), Ended(s'))
            && WriterOk(s'.writer, s'.writeQ, s'.popped, s'.closed, s'.cleared)
  {
    hide CountLeft, Images, FileOk, TasksOk, NullsOk, Closes, SizesOk;
  }

  // ---------------------------------------------------------------- a worker's steps

  lemma UpdateMembers<T>(s: seq<T>, i: nat, y: T)
    requires i < |s|
    ensures y in s[i := y]
    ensures forall x :: x in s[i := y] ==> x == y || x in s
    ensures forall x :: x in s && x != s[i] ==> x in s[i := y]
  {
    assert s[i := y][i] == y;
    forall x | x in s && x != s[i] ensures x in s[i := y] {
      var j :| 0 <= j < |s| && s[j] == x;
      assert s[i := y][j] == x;
    }
  }

  function PhaseFor(task: Task): Worker {
    match task case Close(c) => Running(c) case Index => RunningIndex case Null => Left
  }

  lemma TailMembers<T>(s: seq<T>)
    requires s != []
    ensures forall x :: x in s[1..] ==> x in s
    ensures forall x :: x in s && x != s[0] ==> x in s[1..]
  {
    forall x | x in s && x != s[0] ensures x in s[1..] {
      var j :| 0 <= j < |s| && s[j] == x;
      assert s[1..][j - 1] == x;
    }
  }

  lemma TaskTaken(taskQ: seq<Task>, workers: seq<Worker>, live: set<nat>, closed: set<nat>, listed: nat, tasked: int, w: nat)
    requires TasksOk(taskQ, workers, live, closed, listed, tasked)
    requires taskQ != [] && w < |workers| && workers[w].Idle?
    ensures TasksOk(taskQ[1..], workers[w := PhaseFor(taskQ[0])], live, closed, listed, tasked)
  {
    var task := taskQ[0];
    var q, ws := taskQ[1..], workers[w := PhaseFor(task)];
    TailMembers(taskQ);
    UpdateMembers(workers, w, PhaseFor(task));
    assert task.Close? ==> task !in q && QueuedOk(task.c, live, closed, tasked);
    assert task in taskQ;
    assert forall x :: x in q ==> x in taskQ;
    forall v | 0 <= v < |ws| && Busy(ws[v]) ensures WorkerOk(ws[v], q, live, closed, tasked) {
      if v != w { assert WorkerOk(workers[v], taskQ, live, closed, tasked); }
    }
    forall u, v | 0 <= u < v < |ws| && Busy(ws[u]) && Busy(ws[v]) ensures ws[u].c != ws[v].c {
      if u == w { assert WorkerOk(workers[v], taskQ, live, closed, tasked); }
      if v == w { assert WorkerOk(workers[u], taskQ, live, closed, tasked); }
    }
    forall c: nat | c < tasked ensures Accounted(c, q, ws, closed) {
      assert Accounted(c, taskQ, workers, closed);
    }
  }

  lemma TaskRun(taskQ: seq<Task>, workers: seq<Worker>, live: set<nat>, closed: set<nat>, listed: nat, tasked: int, w: nat)
    requires TasksOk(taskQ, workers, live, closed, listed, tasked)
    requires w < |workers| && workers[w].Running?
    ensures workers[w].c !in closed
    ensures TasksOk(taskQ, workers[w := Ran(workers[w].c)], live, closed + {workers[w].c}, listed, tasked)
  {
    var c := workers[w].c;
    var ws, cl := workers[w := Ran(c)], closed + {c};
    UpdateMembers(workers, w, Ran(c));
    assert WorkerOk(workers[w], taskQ, live, closed, tasked);
    forall v | 0 <= v < |ws| && Busy(ws[v]) ensures WorkerOk(ws[v], taskQ, live, cl, tasked) {
      if v != w {
        assert WorkerOk(workers[v], taskQ, live, closed, tasked);
        assert workers[v].c != workers[w].c;
      }
    }
    forall i | 0 <= i < |taskQ| && taskQ[i].Close? ensures QueuedOk(taskQ[i].c, live, cl, tasked) {
      assert QueuedOk(taskQ[i].c, live, closed, tasked);
      assert taskQ[i] in taskQ;
    }
    forall b: nat | b < tasked ensures Accounted(b, taskQ, ws, cl) {
      assert Accounted(b, taskQ, workers, closed);
    }
  }

  lemma TaskDeleted(taskQ: seq<Task>, workers: seq<Worker>, live: set<nat>, closed: set<nat>, listed: nat, tasked: int, w: nat)
    requires TasksOk(taskQ, workers, live, closed, listed, tasked)
    requires w < |workers| && workers[w].Ran?
    ensures workers[w].c in live
    ensures TasksOk(taskQ, workers[w := Idle], live - {workers[w].c}, closed, listed, tasked)
  {
    var c := workers[w].c;
    var ws, lv := workers[w := Idle], live - {c};
    UpdateMembers(workers, w, Idle);
    assert WorkerOk(workers[w], taskQ, live, closed, tasked);
    forall v | 0 <= v < |ws| && Busy(ws[v]) ensures WorkerOk(ws[v], taskQ, lv, closed, tasked) {
      assert WorkerOk(workers[v], taskQ, live, closed, tasked);
      assert workers[v].c != workers[w].c;
    }
    forall i | 0 <= i < |taskQ| && taskQ[i].Close? ensures QueuedOk(taskQ[i].c, lv, closed, tasked) {
      assert QueuedOk(taskQ[i].c, live, closed, tasked);
    }
    forall b: nat | b < tasked ensures Accounted(b, taskQ, ws, closed) {
      assert Accounted(b, taskQ, workers, closed);
    }
    forall b | b in lv ensures b < listed && (b >= tasked || Close(b) in taskQ || Running(b) in ws || Ran(b) in ws) {
      assert b in live;
    }
  }

  lemma IndexRun(taskQ: seq<Task>, workers: seq<Worker>, live: set<nat>, closed: set<nat>, listed: nat, tasked: int, w: nat)
    requires TasksOk(taskQ, workers, live, closed, listed, tasked)
    requires w < |workers| && workers[w].RunningIndex?
    ensures TasksOk(taskQ, workers[w := Idle], live, closed, listed, tasked)
  {
    var ws := workers[w := Idle];
    UpdateMembers(workers, w, Idle);
    forall v | 0 <= v < |ws| && Busy(ws[v]) ensures WorkerOk(ws[v], taskQ, live, closed, tasked) {
      assert WorkerOk(workers[v], taskQ, live, closed, tasked);
    }
    forall b: nat | b < tasked ensures Accounted(b, taskQ, ws, closed) {
      assert Accounted(b, taskQ, workers, closed);
    }
  }

  lemma WorkerTasks(cfg: Config, s: State, w: nat)
    requires Inv(cfg, s) && WorkerEnabled(s, w)
    ensures var s' := WorkerStep(s, w);
            && TasksOk(s'.taskQ, s'.workers, s'.live, s'.closed, s'.listed, Tasked(s'))
            && |s'.live| == s'.waiting
  {
    hide CountLeft, Images, WriterOk, FileOk, TasksOk, NullsOk, WriteQueueOk, Closes, SizesOk, MainOk;
    match s.workers[w]
    case Idle => TaskTaken(s.taskQ, s.workers, s.live, s.closed, s.listed, Tasked(s), w);
    case Running(c) => TaskRun(s.taskQ, s.workers, s.live, s.closed, s.listed, Tasked(s), w);
    case Ran(c) => TaskDeleted(s.taskQ, s.workers, s.live, s.closed, s.listed, Tasked(s), w);
    case RunningIndex => IndexRun(s.taskQ, s.workers, s.live, s.closed, s.listed, Tasked(s), w);
  }

  lemma NullTaken(taskQ: seq<Task>, workers: seq<Worker>, nulls: nat, w: nat)
    requires NullsOk(taskQ, workers, nulls) && taskQ != [] && w < |workers| && workers[w].Idle?
    ensures NullsOk(taskQ[1..], workers[w := PhaseFor(taskQ[0])], nulls)
  {
    hide CountLeft;
    LeftUpdate(workers, w, PhaseFor(taskQ[0]));
  }

  lemma StillHere(taskQ: seq<Task>, workers: seq<Worker>, nulls: nat, w: nat, x: Worker)
    requires NullsOk(taskQ, workers, nulls) && w < |workers| && !workers[w].Left? && !x.Left?
    ensures NullsOk(taskQ, workers[w := x], nulls)
  {
    hide CountLeft;
    LeftUpdate(workers, w, x);
  }

  lemma WorkerNulls(cfg: Config, s: State, w: nat)
    requires Inv(cfg, s) && WorkerEnabled(s, w)
    ensures var s' := WorkerStep(s, w); NullsOk(s'.taskQ, s'.workers, Nulls(cfg, s'.main))
  {
    hide CountLeft, Images, WriterOk, FileOk, TasksOk, NullsOk, WriteQueueOk, Closes, SizesOk, MainOk, Nulls;
    if s.workers[w].Idle? {
      NullTaken(s.taskQ, s.workers, Nulls(cfg, s.main), w);
    } else {
      StillHere(s.taskQ, s.workers, Nulls(cfg, s.main), w, WorkerStep(s, w).workers[w]);
    }
  }

  lemma {:induction false} NoneLeft(workers: seq<Worker>, w: nat)
    requires w < |workers| && !workers[w].Left?
    ensures CountLeft(workers) < |workers|
  {
    if w == 0 { LeftAtMost(workers[1..]); } else { NoneLeft(workers[1..], w - 1); }
  }

  lemma WriterSeesMore(writer: Writer, writeQ: seq<Head>, popped: nat, closed: set<nat>, cleared: set<nat>, more: set<nat>)
    requires WriterOk(writer, writeQ, popped, closed, cleared) && closed <= more
    ensures WriterOk(writer, writeQ, popped, more, cleared)
  {
  }

  lemma WorkerRest(cfg: Config, s: State, w: nat)
    requires Inv(cfg, s) && WorkerEnabled(s, w)
    ensures var s' := WorkerStep(s, w);
            && WriteQueueOk(s'.writeQ, s'.popped, Handed(s'), Ended(s'))
            && WriterOk(s'.writer, s'.writeQ, s'.popped, s'.closed, s'.cleared)
            && MainOk(cfg, s') && SizesOk(s')
  {
    hide CountLeft, Images, WriterOk, FileOk, TasksOk, NullsOk, WriteQueueOk, Closes;
    NoneLeft(s.workers, w);
    WriterSeesMore(s.writer, s.writeQ, s.popped, s.closed, s.cleared, WorkerStep(s, w).closed);
    if s.workers[w].Ran? {
      TaskDeleted(s.taskQ, s.workers, s.live, s.closed, s.listed, Tasked(s), w);
    }
  }

  lemma WorkerKeeps(cfg: Config, s: State, w: nat)
    requires Inv(cfg, s) && WorkerEnabled(s, w)
    ensures Inv(cfg, WorkerStep(s, w))
  {
    WorkerTasks(cfg, s, w);
    WorkerNulls(cfg, s, w);
    WorkerRest(cfg, s, w);
    hide TasksOk, NullsOk, WriteQueueOk, WriterOk, FileOk, MainOk, SizesOk;
    var s' := WorkerStep(s, w);
    assert FileOk(cfg.image, s'.writer, s'.popped, s'.offsets, s'.file);
    assert |s'.workers| == cfg.workers && Tasked(s') >= 0 && Handed(s') >= 0;
    hide *;
    InvParts(cfg, s');
  }

  // ---------------------------------------------------------------- the writer's steps

  lemma WriterQueue(cfg: Config, s: State)
    requires Inv(cfg, s) && WriterEnabled(s)
    ensures var s' := WriterStep(cfg, s);
            && WriteQueueOk(s'.writeQ, s'.popped, Handed(s'), Ended(s'))
            && WriterOk(s'.writer, s'.writeQ, s'.popped, s'.closed, s'.cleared)
  {
    hide CountLeft, Images, FileOk, TasksOk, NullsOk, Closes, SizesOk, MainOk;
  }

  /** What is written is the whole cluster: it is closed, and its data is still there. */
  lemma WriterFile(cfg: Config, s: State)
    requires Inv(cfg, s) && WriterEnabled(s)
    ensures s.writer.Placed? ==> s.writer.c in s.closed && s.writer.c !in s.cleared
    ensures var s' := WriterStep(cfg, s); FileOk(cfg.image, s'.writer, s'.popped, s'.offsets, s'.file)
  {
    WriterHolds(cfg, s);
    hide Inv, WriterOk, WriteQueueOk, CountLeft, TasksOk, NullsOk, Closes, SizesOk, MainOk;
  }

  /** Where the writer's cluster stands among those popped. */
  lemma WriterHolds(cfg: Config, s: State)
    requires Inv(cfg, s) && WriterEnabled(s)
    ensures FileOk(cfg.image, s.writer, s.popped, s.offsets, s.file)
    ensures s.writer.SeenClosed? ==> s.writer.c == s.popped
    ensures Holding(s.writer) ==> s.writer.c == s.popped - 1
    ensures s.writer.Placed? ==> s.writer.c in s.closed && s.writer.c !in s.cleared
  {
    hide FileOk, Images, CountLeft, TasksOk, NullsOk, WriteQueueOk, Closes, SizesOk, MainOk;
  }

  lemma WriterKeeps(cfg: Config, s: State)
    requires Inv(cfg, s) && WriterEnabled(s)
    ensures Inv(cfg, WriterStep(cfg, s))
  {
    WriterQueue(cfg, s);
    WriterFile(cfg, s);
    WriterRest(cfg, s);
    hide *;
    InvParts(cfg, WriterStep(cfg, s));
  }

  lemma WriterRest(cfg: Config, s: State)
    requires Inv(cfg, s) && WriterEnabled(s)
    ensures var s' := WriterStep(cfg, s);
            && |s'.workers| == cfg.workers && |s'.live| == s'.waiting && Tasked(s') >= 0 && Handed(s') >= 0
            && TasksOk(s'.taskQ, s'.workers, s'.live, s'.closed, s'.listed, Tasked(s'))
            && NullsOk(s'.taskQ, s'.workers, Nulls(cfg, s'.main))
            && MainOk(cfg, s') && SizesOk(s')
  {
    hide CountLeft, FileOk, TasksOk, NullsOk, Closes, WriterOk, WriteQueueOk, DataOf, Nulls, Handed, Tasked;
    assert Tasked(WriterStep(cfg, s)) == Tasked(s) && Handed(WriterStep(cfg, s)) == Handed(s) by { SameMain(s, WriterStep(cfg, s)); }
  }

  lemma SameMain(s: State, s': State)
    requires s'.main == s.main && s'.listed == s.listed
    ensures Tasked(s') == Tasked(s) && Handed(s') == Handed(s)
  {
  }

  lemma NextKeeps(cfg: Config, s: State, a: Actor)
    requires Inv(cfg, s) && Enabled(cfg, s, a)
    ensures Inv(cfg, Next(cfg, s, a))
  {
    hide Inv, MainStep, WorkerStep, WriterStep, MainEnabled, WorkerEnabled, WriterEnabled;
    match a
    case MainThread => MainKeeps(cfg, s);
    case WorkerThread(w) => WorkerKeeps(cfg, s, w);
    case WriterThread => WriterKeeps(cfg, s);
  }

  lemma {:induction false} InitHolds(cfg: Config)
    ensures Inv(cfg, Init(cfg))
  {
    NoneLeftYet(Init(cfg).workers);
    hide CountLeft, Images;
    assert Images(cfg.image, 0) == [] by { EmptyFile(cfg.image); }
  }

  lemma EmptyFile(image: nat -> Str)
    ensures Images(image, 0) == []
  {
  }

  lemma {:induction false} NoneLeftYet(workers: seq<Worker>)
    requires forall w :: 0 <= w < |workers| ==> workers[w] == Idle
    ensures CountLeft(workers) == 0
  {
    if workers != [] { NoneLeftYet(workers[1..]); }
  }

  // ---------------------------------------------------------------- the work that is left

  function MainWork(cfg: Config, main: Main): int {
    var end := 30 + 12 * cfg.workers;
    match main
    case Working(i) => end + 40 * (|cfg.plan| - i)
    case TaskCheck(i) => end + 40 * (|cfg.plan| - i) - 1
    case TaskPush(i) => end + 40 * (|cfg.plan| - i) - 2
    case WriteCheck(i) => end + 40 * (|cfg.plan| - i) - 10
    case WritePush(i) => end + 40 * (|cfg.plan| - i) - 11
    case IndexPush(i) => end + 40 * (|cfg.plan| - i) - 1
    case NullCheck(k) => end - 1 - 12 * k
    case NullPush(k) => end - 2 - 12 * k
    case EndCheck => 20
    case EndPush => 19
    case JoinWriter => 5
    case Finished => 0
  }

  function PhaseWork(x: Worker): nat {
    match x case Running(_) => 3 case RunningIndex => 3 case Ran(_) => 2 case _ => 0
  }

  function WorkerWork(workers: seq<Worker>): nat {
    if workers == [] then 0 else PhaseWork(workers[0]) + WorkerWork(workers[1..])
  }

  function WriterWork(writer: Writer): nat {
    match writer
    case SeenClosed(_) => 0
    case Popped(_) => 6
    case Placed(_) => 5
    case Written(_) => 4
    case Gone => 0
    case _ => 1
  }

  function Measure(cfg: Config, s: State): int {
    MainWork(cfg, s.main) + 4 * |s.taskQ| + WorkerWork(s.workers) + 8 * |s.writeQ| + WriterWork(s.writer)
  }

  lemma {:induction false} WorkUpdate(workers: seq<Worker>, w: nat, x: Worker)
    requires w < |workers|
    ensures WorkerWork(workers[w := x]) == WorkerWork(workers) - PhaseWork(workers[w]) + PhaseWork(x)
  {
    if w > 0 {
      WorkUpdate(workers[1..], w - 1, x);
      assert workers[w := x][1..] == workers[1..][w - 1 := x];
    } else {
      assert workers[w := x][1..] == workers[1..];
    }
  }

  /** The writer looks at the head of the queue, or finds that it is not closed yet and will look again. */
  predicate Peek(s: State, a: Actor) {
    a.WriterThread? && (s.writer.Polling? || (s.writer.Looking? && s.writer.head.Cluster? && s.writer.head.c !in s.closed))
  }

  /** Every step but a peek leaves less work, and a peek no more. */
  lemma WorkGoesDown(cfg: Config, s: State, a: Actor)
    requires Inv(cfg, s) && Enabled(cfg, s, a)
    ensures if Peek(s, a) then Measure(cfg, Next(cfg, s, a)) == Measure(cfg, s)
            else Measure(cfg, Next(cfg, s, a)) < Measure(cfg, s)
  {
    hide CountLeft, Images, FileOk, TasksOk, NullsOk, Closes, WriterOk, WriteQueueOk, SizesOk, WorkerWork, DataOf;
    match a
    case MainThread =>
    case WorkerThread(w) =>
      hide MainWork, MainOk, WriterWork;
      WorkUpdate(s.workers, w, WorkerStep(s, w).workers[w]);
      assert WorkerStep(s, w).workers == s.workers[w := WorkerStep(s, w).workers[w]];
    case WriterThread => hide MainWork, MainOk;
  }

  lemma WorkIsNonNegative(cfg: Config, s: State)
    requires Inv(cfg, s)
    ensures Measure(cfg, s) >= 0
  {
    hide CountLeft, Images, FileOk, TasksOk, NullsOk, Closes, WriterOk, WriteQueueOk, SizesOk, WorkerWork;
  }

  // ---------------------------------------------------------------- someone can always go on

  ghost predicate Run(cfg: Config, s: State, run: seq<Actor>)
    decreases run
  {
    run == [] || (Enabled(cfg, s, run[0]) && Run(cfg, Next(cfg, s, run[0]), run[1..]))
  }

  ghost function After(cfg: Config, s: State, run: seq<Actor>): State
    requires Run(cfg, s, run)
    decreases run
  {
    if run == [] then s else After(cfg, Next(cfg, s, run[0]), run[1..])
  }

  /** The steps of a run that are not the writer looking at a cluster that is not closed. */
  ghost function Steps(cfg: Config, s: State, run: seq<Actor>): nat
    requires Run(cfg, s, run)
    decreases run
  {
    if run == [] then 0
    else (if Peek(s, run[0]) then 0 else 1) + Steps(cfg, Next(cfg, s, run[0]), run[1..])
  }

  /** What a run does without workers: tasks pile up. */
  ghost predicate Alone(cfg: Config, s: State) {
    && s.waiting == s.listed
    && |s.taskQ| == match s.main
                    case Working(i) => i
                    case TaskCheck(i) => i
                    case TaskPush(i) => i
                    case WriteCheck(i) => i + 1
                    case WritePush(i) => i + 1
                    case IndexPush(i) => i
                    case _ => |cfg.plan|
  }

  lemma AloneKeeps(cfg: Config, s: State, a: Actor)
    requires cfg.workers == 0 && Inv(cfg, s) && Alone(cfg, s) && Enabled(cfg, s, a)
    ensures Alone(cfg, Next(cfg, s, a))
  {
    hide CountLeft, Images, FileOk, TasksOk, NullsOk, Closes, WriterOk, WriteQueueOk, SizesOk, DataOf;
  }

  /** At least one worker; or nothing for one to do, and room for it in the queue. */
  predicate MayFinish(cfg: Config) {
    cfg.workers >= 1 || (Closes(cfg.plan, |cfg.plan|) == 0 && |cfg.plan| <= MAX_QUEUE_SIZE + 1)
  }

  ghost predicate Healthy(cfg: Config, s: State) {
    Inv(cfg, s) && (cfg.workers == 0 ==> Alone(cfg, s))
  }

  lemma TaskMoves(cfg: Config, s: State) returns (w: nat)
    requires Inv(cfg, s) && s.taskQ != [] && CountLeft(s.workers) < cfg.workers
    ensures WorkerEnabled(s, w)
  {
    w := SomeoneStays(s.workers);
    hide CountLeft, Images, FileOk, TasksOk, NullsOk, Closes, WriterOk, WriteQueueOk, SizesOk, MainOk;
  }

  lemma BusyMoves(s: State, x: Worker) returns (w: nat)
    requires x in s.workers && Busy(x)
    ensures WorkerEnabled(s, w)
  {
    w :| w < |s.workers| && s.workers[w] == x;
  }

  /** A cluster that was given out and is not closed will be: a worker can take a step. */
  lemma UnclosedMoves(cfg: Config, s: State, c: nat) returns (w: nat)
    requires Inv(cfg, s) && c < Tasked(s) && c !in s.closed && Nulls(cfg, s.main) < cfg.workers
    ensures WorkerEnabled(s, w) && (Close(c) in s.taskQ || Running(c) in s.workers)
  {
    assert Accounted(c, s.taskQ, s.workers, s.closed);
    hide CountLeft, Images, FileOk, TasksOk, Closes, WriterOk, WriteQueueOk, SizesOk, MainOk;
    if Running(c) in s.workers { w := BusyMoves(s, Running(c)); } else { w := TaskMoves(cfg, s); }
  }

  lemma NothingLive(cfg: Config, s: State, c: nat)
    requires Inv(cfg, s) && s.waiting == 0 && c < Tasked(s)
    ensures c in s.closed
  {
    assert s.live == {};
    assert Accounted(c, s.taskQ, s.workers, s.closed);
  }

  lemma OneStep(cfg: Config, s: State, a: Actor)
    requires Inv(cfg, s) && Enabled(cfg, s, a) && !Peek(s, a)
    ensures Run(cfg, s, [a]) && After(cfg, s, [a]) == Next(cfg, s, a)
    ensures Measure(cfg, After(cfg, s, [a])) < Measure(cfg, s)
  {
    WorkGoesDown(cfg, s, a);
    hide Inv, Enabled, Next, Measure, Peek;
    assert [a][1..] == [];
    assert Run(cfg, Next(cfg, s, a), []);
  }

  lemma TwoSteps(cfg: Config, s: State, a: Actor, b: Actor)
    requires Inv(cfg, s) && Enabled(cfg, s, a)
    requires Enabled(cfg, Next(cfg, s, a), b) && !Peek(Next(cfg, s, a), b)
    ensures Run(cfg, s, [a, b])
    ensures Measure(cfg, After(cfg, s, [a, b])) < Measure(cfg, s)
  {
    var t := Next(cfg, s, a);
    WorkGoesDown(cfg, s, a);
    NextKeeps(cfg, s, a);
    OneStep(cfg, t, b);
    hide Inv, Enabled, Next, Measure, Peek;
    assert [a, b][1..] == [b];
  }

  /** The writer goes on, or the worker does that has to close the cluster it waits for. */
  lemma WriterMoves(cfg: Config, s: State) returns (run: seq<Actor>)
    requires Inv(cfg, s) && s.writeQ != [] && !s.writer.Gone?
    requires s.waiting == 0 || Nulls(cfg, s.main) < cfg.workers
    ensures Run(cfg, s, run) && Measure(cfg, After(cfg, s, run)) < Measure(cfg, s)
  {
    var head := s.writeQ[0];
    if !s.writer.Polling? && !s.writer.Looking? {
      run := [WriterThread];
      OneStep(cfg, s, WriterThread);
    } else if head.Cluster? && head.c !in s.closed {
      HeadIsTasked(cfg, s);
      assert s.waiting != 0 by { if s.waiting == 0 { NothingLive(cfg, s, head.c); } }
      var w := UnclosedMoves(cfg, s, head.c);
      run := [WorkerThread(w)];
      OneStep(cfg, s, WorkerThread(w));
    } else if s.writer.Polling? {
      run := [WriterThread, WriterThread];
      TwoSteps(cfg, s, WriterThread, WriterThread);
    } else {
      run := [WriterThread];
      LookingAtHead(cfg, s);
      OneStep(cfg, s, WriterThread);
    }
  }

  lemma HeadIsTasked(cfg: Config, s: State)
    requires Inv(cfg, s) && s.writeQ != [] && s.writeQ[0].Cluster?
    ensures s.writeQ[0].c < Tasked(s)
  {
    hide CountLeft, Images, FileOk, TasksOk, Closes, WriterOk, NullsOk, SizesOk, MainOk;
  }

  lemma LookingAtHead(cfg: Config, s: State)
    requires Inv(cfg, s) && s.writer.Looking?
    ensures s.writeQ != [] && s.writer.head == s.writeQ[0]
  {
    hide CountLeft, Images, FileOk, TasksOk, Closes, WriteQueueOk, NullsOk, SizesOk, MainOk;
  }

  lemma LiveMoves(cfg: Config, s: State) returns (w: nat)
    requires Inv(cfg, s) && s.main.Working? && s.waiting != 0 && cfg.workers >= 1
    ensures WorkerEnabled(s, w)
  {
    assert s.live != {};
    var c :| c in s.live;
    assert c < s.listed && (Close(c) in s.taskQ || Running(c) in s.workers || Ran(c) in s.workers);
    assert CountLeft(s.workers) == 0;
    hide CountLeft, Images, FileOk, TasksOk, Closes, WriterOk, WriteQueueOk, NullsOk, SizesOk, MainOk;
    if Running(c) in s.workers {
      w := BusyMoves(s, Running(c));
    } else if Ran(c) in s.workers {
      w := BusyMoves(s, Ran(c));
    } else {
      w := TaskMoves(cfg, s);
    }
  }

  lemma NullsWaiting(cfg: Config, s: State)
    requires Inv(cfg, s) && CountLeft(s.workers) < Nulls(cfg, s.main)
    ensures s.taskQ != []
  {
  }

  lemma LeftIsBounded(cfg: Config, s: State)
    requires Inv(cfg, s)
    ensures CountLeft(s.workers) <= Nulls(cfg, s.main)
  {
  }

  lemma {:induction false} ClosesGrow(plan: seq<Job>, i: nat, n: nat)
    requires i <= n <= |plan|
    ensures Closes(plan, i) <= Closes(plan, n)
    decreases n
  {
    if i < n { ClosesGrow(plan, i, n - 1); }
  }

  /** A worker makes room in the queue of tasks, when there are workers. */
  lemma RoomForTask(cfg: Config, s: State) returns (run: seq<Actor>)
    requires Inv(cfg, s) && |s.taskQ| > MAX_QUEUE_SIZE && Nulls(cfg, s.main) < cfg.workers
    ensures Run(cfg, s, run) && Measure(cfg, After(cfg, s, run)) < Measure(cfg, s)
  {
    LeftIsBounded(cfg, s);
    var w := TaskMoves(cfg, s);
    run := [WorkerThread(w)];
    OneStep(cfg, s, WorkerThread(w));
  }

  /** With nobody to close a cluster, only index tasks were given, and there is room for each. */
  lemma AloneIsFree(cfg: Config, s: State)
    requires Healthy(cfg, s) && MayFinish(cfg) && cfg.workers == 0
    ensures s.main.Working? ==> MainEnabled(cfg, s)
    ensures !s.main.TaskCheck? && !s.main.WriteCheck? && !s.main.TaskPush? && !s.main.WritePush?
    ensures s.waiting == 0 || s.main.Working?
  {
    hide CountLeft, Images, FileOk, TasksOk, WriterOk, NullsOk, WriteQueueOk;
    match s.main
    case Working(i) => if i < |cfg.plan| { ClosesGrow(cfg.plan, i + 1, |cfg.plan|); }
    case TaskCheck(i) => ClosesGrow(cfg.plan, i + 1, |cfg.plan|);
    case TaskPush(i) => ClosesGrow(cfg.plan, i + 1, |cfg.plan|);
    case WriteCheck(i) => ClosesGrow(cfg.plan, i + 1, |cfg.plan|);
    case WritePush(i) => ClosesGrow(cfg.plan, i + 1, |cfg.plan|);
    case IndexPush(i) => ClosesGrow(cfg.plan, i, |cfg.plan|);
    case _ =>
  }

  /** No deadlock: whatever the state of a run, some thread can do something that brings the end nearer. */
  lemma SomeoneCanGoOn(cfg: Config, s: State) returns (run: seq<Actor>)
    requires Healthy(cfg, s) && MayFinish(cfg) && !s.main.Finished?
    ensures Run(cfg, s, run) && Measure(cfg, After(cfg, s, run)) < Measure(cfg, s)
  {
    if cfg.workers == 0 { AloneIsFree(cfg, s); }
    if MainEnabled(cfg, s) {
      run := [MainThread];
      OneStep(cfg, s, MainThread);
    } else {
      run := MainWaits(cfg, s);
    }
  }

  lemma MainWaits(cfg: Config, s: State) returns (run: seq<Actor>)
    requires Inv(cfg, s) && !MainEnabled(cfg, s) && !s.main.Finished?
    requires cfg.workers >= 1 || !(s.main.Working? || s.main.TaskCheck? || s.main.WriteCheck?)
    ensures Run(cfg, s, run) && Measure(cfg, After(cfg, s, run)) < Measure(cfg, s)
  {
    match s.main
    case Working(i) =>
      if i < |cfg.plan| {
        run := RoomForTask(cfg, s);
      } else {
        var w := LiveMoves(cfg, s);
        run := [WorkerThread(w)];
        OneStep(cfg, s, WorkerThread(w));
      }
    case TaskCheck(_) => run := RoomForTask(cfg, s);
    case WriteCheck(_) =>
      NotGone(cfg, s);
      run := WriterMoves(cfg, s);
    case NullCheck(k) =>
      if k < cfg.workers {
        run := RoomForTask(cfg, s);
      } else {
        var v :| 0 <= v < |s.workers| && !s.workers[v].Left?;
        NoneLeft(s.workers, v);
        NullsWaiting(cfg, s);
        var w := TaskMoves(cfg, s);
        run := [WorkerThread(w)];
        OneStep(cfg, s, WorkerThread(w));
      }
    case EndCheck =>
      NotGone(cfg, s);
      run := WriterMoves(cfg, s);
    case JoinWriter =>
      EndIsQueued(cfg, s);
      run := WriterMoves(cfg, s);
  }

  lemma NotGone(cfg: Config, s: State)
    requires Inv(cfg, s) && !Ended(s)
    ensures !s.writer.Gone?
  {
    hide CountLeft, Images, FileOk, TasksOk, Closes, NullsOk, SizesOk, MainOk;
  }

  lemma EndIsQueued(cfg: Config, s: State)
    requires Inv(cfg, s) && Ended(s)
    ensures s.writeQ != []
  {
    hide CountLeft, Images, FileOk, TasksOk, Closes, NullsOk, SizesOk, MainOk;
  }

  // ---------------------------------------------------------------- whole runs

  lemma {:induction false} RunKeeps(cfg: Config, s: State, run: seq<Actor>)
    requires Healthy(cfg, s) && Run(cfg, s, run)
    ensures Healthy(cfg, After(cfg, s, run))
    ensures Steps(cfg, s, run) + Measure(cfg, After(cfg, s, run)) <= Measure(cfg, s)
    decreases run
  {
    if run != [] {
      HealthyKeeps(cfg, s, run[0]);
      WorkGoesDown(cfg, s, run[0]);
      hide Healthy, Enabled, Next, Peek, Measure;
      RunKeeps(cfg, Next(cfg, s, run[0]), run[1..]);
    }
  }

  lemma HealthyKeeps(cfg: Config, s: State, a: Actor)
    requires Healthy(cfg, s) && Enabled(cfg, s, a)
    ensures Healthy(cfg, Next(cfg, s, a))
  {
    NextKeeps(cfg, s, a);
    if cfg.workers == 0 { AloneKeeps(cfg, s, a); }
    hide Inv, Alone, Enabled, Next;
  }

  lemma StartHealthy(cfg: Config)
    ensures Healthy(cfg, Init(cfg))
  {
    InitHolds(cfg);
    hide Inv;
  }

  /** The cluster is closed and its recorded offset is where its image begins. */
  ghost predicate InPlace(cfg: Config, s: State, c: nat) {
    c in s.closed && c in s.offsets && s.offsets[c] == CF.CLUSTER_BASE_OFFSET + |Images(cfg.image, c)|
  }

  /** Nobody closes a cluster a second time, and what is about to be written is whole. */
  ghost predicate OnceOnly(s: State) {
    && (forall w :: 0 <= w < |s.workers| && s.workers[w].Running? ==> s.workers[w].c !in s.closed)
    && (forall v, w :: 0 <= v < w < |s.workers| && s.workers[v].Running? && s.workers[w].Running? ==>
          s.workers[v].c != s.workers[w].c)
    && (s.writer.Placed? ==> s.writer.c in s.closed && s.writer.c !in s.cleared)
  }

  /** Every cluster that the writer can see in its queue is closed, or its task is queued or running. */
  ghost predicate OnItsWay(s: State) {
    forall i :: 0 <= i < |s.writeQ| && s.writeQ[i].Cluster? ==>
      s.writeQ[i].c in s.closed || Close(s.writeQ[i].c) in s.taskQ || Running(s.writeQ[i].c) in s.workers
  }

  /** At every moment of every interleaving: what lies behind byte 1024 is the clusters up to some
      number, each whole and once, in the order of their numbers and end to end; those have been
      closed, and their recorded offsets are where they begin. Every cluster in the write queue is
      closed or has its task queued or running. Neither queue ever holds more than one element above
      its bound, and only the writer's peeks are without limit. */
  lemma EveryRunIsSafe(cfg: Config, run: seq<Actor>)
    requires Run(cfg, Init(cfg), run)
    ensures var s := After(cfg, Init(cfg), run);
            && 0 <= InFile(s.writer, s.popped) <= s.popped <= s.listed
            && s.file == Images(cfg.image, InFile(s.writer, s.popped))
            && (forall c: nat :: c < InFile(s.writer, s.popped) ==> InPlace(cfg, s, c))
            && (forall c: nat :: c in s.cleared ==> c < InFile(s.writer, s.popped))
            && OnceOnly(s) && OnItsWay(s)
            && |s.taskQ| <= MAX_QUEUE_SIZE + 1 && |s.writeQ| <= MAX_QUEUE_SIZE + 1
            && Steps(cfg, Init(cfg), run) <= Measure(cfg, Init(cfg))
  {
    StartHealthy(cfg);
    RunKeeps(cfg, Init(cfg), run);
    var s := After(cfg, Init(cfg), run);
    WorkIsNonNegative(cfg, s);
    HealthyIsSafe(cfg, s);
    HealthyMoves(cfg, s);
  }

  lemma HealthyMoves(cfg: Config, s: State)
    requires Healthy(cfg, s)
    ensures OnItsWay(s)
  {
    HandedAfterTasked(cfg, s);
    hide CountLeft, Images, NullsOk, Closes, MainOk, Alone, WriterOk, FileOk, SizesOk, Tasked, Handed;
    forall i | 0 <= i < |s.writeQ| && s.writeQ[i].Cluster?
      ensures s.writeQ[i].c in s.closed || Close(s.writeQ[i].c) in s.taskQ || Running(s.writeQ[i].c) in s.workers
    {
      assert Accounted(s.writeQ[i].c, s.taskQ, s.workers, s.closed);
    }
  }

  /** A cluster goes to the task queue before it goes to the write queue. */
  lemma HandedAfterTasked(cfg: Config, s: State)
    requires Inv(cfg, s)
    ensures Handed(s) <= Tasked(s)
  {
    hide CountLeft, Images, TasksOk, NullsOk, Closes, WriterOk, FileOk, WriteQueueOk;
  }

  lemma HealthyIsSafe(cfg: Config, s: State)
    requires Healthy(cfg, s)
    ensures 0 <= InFile(s.writer, s.popped) <= s.popped <= s.listed
    ensures s.file == Images(cfg.image, InFile(s.writer, s.popped))
    ensures forall c: nat :: c < InFile(s.writer, s.popped) ==> InPlace(cfg, s, c)
    ensures forall c: nat :: c in s.cleared ==> c < InFile(s.writer, s.popped)
    ensures SizesOk(s) && OnceOnly(s)
  {
    RunningOnce(s.taskQ, s.workers, s.live, s.closed, s.listed, Tasked(s));
    hide CountLeft, Images, TasksOk, NullsOk, Closes, MainOk, Alone;
  }

  lemma RunningOnce(taskQ: seq<Task>, workers: seq<Worker>, live: set<nat>, closed: set<nat>, listed: nat, tasked: int)
    requires TasksOk(taskQ, workers, live, closed, listed, tasked)
    ensures forall w :: 0 <= w < |workers| && workers[w].Running? ==> workers[w].c !in closed
    ensures forall v, w :: 0 <= v < w < |workers| && workers[v].Running? && workers[w].Running? ==>
              workers[v].c != workers[w].c
  {
    forall w | 0 <= w < |workers| && workers[w].Running? ensures workers[w].c !in closed {
      assert WorkerOk(workers[w], taskQ, live, closed, tasked);
    }
  }

  /** When the writer has been joined: every listed cluster is in the file, closed and cleared, the
      counter is zero, and each worker has taken one null and left an empty queue. */
  lemma FinishedIsComplete(cfg: Config, run: seq<Actor>)
    requires Run(cfg, Init(cfg), run) && After(cfg, Init(cfg), run).main.Finished?
    ensures var s := After(cfg, Init(cfg), run);
            && s.listed == Closes(cfg.plan, |cfg.plan|)
            && s.file == Images(cfg.image, s.listed)
            && (forall c: nat :: c < s.listed ==> InPlace(cfg, s, c) && c in s.cleared)
            && s.waiting == 0 && CountLeft(s.workers) == cfg.workers
            && (cfg.workers >= 1 ==> s.taskQ == [])
  {
    StartHealthy(cfg);
    RunKeeps(cfg, Init(cfg), run);
    WholeFile(cfg, After(cfg, Init(cfg), run));
    NothingQueued(cfg, After(cfg, Init(cfg), run));
  }

  lemma WholeFile(cfg: Config, s: State)
    requires Inv(cfg, s) && s.main.Finished?
    ensures s.listed == Closes(cfg.plan, |cfg.plan|) && s.waiting == 0 && CountLeft(s.workers) == cfg.workers
    ensures s.file == Images(cfg.image, s.listed)
    ensures forall c: nat :: c < s.listed ==> InPlace(cfg, s, c) && c in s.cleared
  {
    hide CountLeft, Images, TasksOk, NullsOk, Closes;
  }

  lemma NothingQueued(cfg: Config, s: State)
    requires Inv(cfg, s) && s.main.Finished?
    ensures cfg.workers >= 1 ==> s.taskQ == []
  {
    hide CountLeft, Images, TasksOk, Closes, FileOk, WriterOk, WriteQueueOk;
  }

  lemma {:induction false} RunAppend(cfg: Config, s: State, a: seq<Actor>, b: seq<Actor>)
    requires Run(cfg, s, a) && Run(cfg, After(cfg, s, a), b)
    ensures Run(cfg, s, a + b) && After(cfg, s, a + b) == After(cfg, After(cfg, s, a), b)
    decreases a
  {
    hide Enabled, Next;
    if a == [] {
      assert a + b == b;
    } else {
      RunAppend(cfg, Next(cfg, s, a[0]), a[1..], b);
      assert (a + b)[1..] == a[1..] + b && (a + b)[0] == a[0];
    }
  }

  /** Wherever a run has got to, it can be brought to its end. */
  lemma {:induction false} CanFinish(cfg: Config, s: State) returns (run: seq<Actor>)
    requires Healthy(cfg, s) && MayFinish(cfg)
    ensures Run(cfg, s, run) && After(cfg, s, run).main.Finished?
    decreases Work(cfg, s)
  {
    if s.main.Finished? {
      run := [];
    } else {
      var first := SomeoneCanGoOn(cfg, s);
      RunKeeps(cfg, s, first);
      var t := After(cfg, s, first);
      WorkIsNonNegative(cfg, t);
      hide Healthy, MayFinish, Measure, Run, After;
      var rest := CanFinish(cfg, t);
      RunAppend(cfg, s, first, rest);
      run := first + rest;
    }
  }

  function Work(cfg: Config, s: State): nat {
    if Measure(cfg, s) < 0 then 0 else Measure(cfg, s)
  }

  /** Without workers, finishing means that there was nothing to do for one. */
  lemma FinishedAlone(cfg: Config, s: State)
    requires Healthy(cfg, s) && cfg.workers == 0 && s.main.Finished?
    ensures MayFinish(cfg)
  {
    hide CountLeft, Images, TasksOk, NullsOk, Closes, FileOk, WriterOk, WriteQueueOk;
  }

  /** No deadlock, exactly: after any run the creator can still finish if there is a worker; without
      one it finishes only when no cluster was closed and the index tasks fit in the queue. */
  lemma FinishesIff(cfg: Config, run: seq<Actor>)
    requires Run(cfg, Init(cfg), run)
    ensures MayFinish(cfg) <==> exists rest :: Run(cfg, Init(cfg), run + rest) && After(cfg, Init(cfg), run + rest).main.Finished?
  {
    StartHealthy(cfg);
    RunKeeps(cfg, Init(cfg), run);
    hide Healthy, MayFinish, Init;
    if MayFinish(cfg) {
      var rest := CanFinish(cfg, After(cfg, Init(cfg), run));
      RunAppend(cfg, Init(cfg), run, rest);
    }
    forall rest | Run(cfg, Init(cfg), run + rest) && After(cfg, Init(cfg), run + rest).main.Finished?
      ensures MayFinish(cfg)
    {
      RunKeeps(cfg, Init(cfg), run + rest);
      NeedsWorker(cfg, After(cfg, Init(cfg), run + rest));
    }
  }

  lemma NeedsWorker(cfg: Config, s: State)
    requires Healthy(cfg, s) && s.main.Finished?
    ensures MayFinish(cfg)
  {
    if cfg.workers == 0 { FinishedAlone(cfg, s); }
  }
}
