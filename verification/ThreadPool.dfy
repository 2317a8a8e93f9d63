/**
 The thread pool (threadpool.cpp): a circular task queue under one mutex, workers that sleep on
 `queue_not_empty`, producers that sleep on `queue_not_full`, and an admin thread that adds
 workers. Shutdown and the disabled shrinking of the pool are not modelled.
 */
module ThreadPool {
  import Ring
  import Sequences

  // ----- The circular queue -----

  ghost function Queued<T>(cells: seq<T>, front: nat, size: nat): (t: seq<T>)
    requires front < |cells| && size <= |cells|
    ensures |t| == size
  {
    Ring.Rotate(cells, front)[..size]
  }

  // The fields of a `TaskQueue`, as a value.
  datatype Circular<T> = Circular(cells: seq<T>, front: nat, rear: nat, size: nat) {
    // The queued tasks, oldest first.
    ghost predicate Holds(queue: seq<T>) {
      && front < |cells| && size <= |cells| && rear == (front + size) % |cells|
      && Queued(cells, front, size) == queue
    }

    function Stored(task: T): Circular<T>
      requires rear < |cells|
    {
      Circular(cells[rear := task], front, (rear + 1) % |cells|, size + 1)
    }

    function Taken(): Circular<T>
      requires |cells| > 0 && size > 0
    {
      Circular(cells, (front + 1) % |cells|, rear, size - 1)
    }
  }

  lemma StoreInRing<T>(cells: seq<T>, front: nat, size: nat, rear: nat, task: T)
    requires front < |cells| && size < |cells| && rear == (front + size) % |cells|
    ensures Queued(cells[rear := task], front, size + 1) == Queued(cells, front, size) + [task]
  {
    Ring.Wrap(front + size, |cells|);
    var ring := Ring.Rotate(cells, front);
    assert Ring.Rotate(cells[rear := task], front) == ring[size := task];
    assert ring[size := task][..size + 1] == ring[..size] + [task];
  }

  lemma RearMoves(front: nat, size: nat, max: nat)
    requires front < max && size < max
    ensures ((front + size) % max + 1) % max == (front + (size + 1)) % max
  {
    Ring.Wrap(front + size, max);
    Ring.Wrap(front + size + 1, max);
    Ring.Wrap((front + size) % max + 1, max);
  }

  lemma HoldsIf<T>(c: Circular<T>, queue: seq<T>)
    requires c.front < |c.cells| && c.size <= |c.cells|
    requires c.rear == (c.front + c.size) % |c.cells| && Queued(c.cells, c.front, c.size) == queue
    ensures c.Holds(queue)
  {
  }

  // Storing at the rear of a queue that is not full appends.
  lemma PutAtRear<T>(c: Circular<T>, queue: seq<T>, task: T)
    requires c.Holds(queue) && c.size < |c.cells|
    ensures c.rear < |c.cells| && c.Stored(task).Holds(queue + [task])
  {
    var max, rear := |c.cells|, c.rear;
    Ring.Wrap(c.front + c.size, max);
    StoreInRing(c.cells, c.front, c.size, rear, task);
    RearMoves(c.front, c.size, max);
    HoldsIf(Circular(c.cells[rear := task], c.front, (rear + 1) % max, c.size + 1), queue + [task]);
  }

  lemma FrontMoves(front: nat, size: nat, max: nat)
    requires front < max && 0 < size <= max
    ensures ((front + 1) % max + (size - 1)) % max == (front + size) % max
  {
    Ring.Wrap(front + 1, max);
    Ring.Wrap(front + size, max);
    Ring.Wrap((front + 1) % max + (size - 1), max);
  }

  // Taking at the front of a queue that is not empty removes the oldest task.
  lemma TakeFromFront<T>(c: Circular<T>, queue: seq<T>)
    requires c.Holds(queue) && queue != []
    ensures c.size > 0 && c.cells[c.front] == queue[0] && c.Taken().Holds(queue[1..])
  {
    FrontMoves(c.front, c.size, |c.cells|);
    Ring.Wrap(c.front + 1, |c.cells|);
    var ring := Ring.Rotate(c.cells, c.front);
    assert Ring.Rotate(c.cells, (c.front + 1) % |c.cells|) == ring[1..] + [c.cells[c.front]];
  }

  class TaskQueue<T(0)> {
    const task_queue: array<T>
    const queue_max_size: nat
    var queue_front: nat
    var queue_rear: nat
    var queue_size: nat

    ghost function Value(): Circular<T>
      reads this, task_queue
    {
      Circular(task_queue[..], queue_front, queue_rear, queue_size)
    }

    // The queue holds `tasks`, oldest first.
    ghost predicate Holds(tasks: seq<T>)
      reads this, task_queue
    {
      queue_max_size == task_queue.Length && Value().Holds(tasks)
    }

    constructor (queue_max_size: nat)
      requires queue_max_size > 0
      ensures Holds([]) && this.queue_max_size == queue_max_size && fresh(task_queue)
    {
      task_queue := new T[queue_max_size];
      this.queue_max_size := queue_max_size;
      queue_front, queue_rear, queue_size := 0, 0, 0;
    }

    // What `threadpool_add_task` does once the queue is not full.
    method Put(task: T, ghost tasks: seq<T>)
      requires Holds(tasks) && queue_size < queue_max_size
      modifies this`queue_rear, this`queue_size, task_queue
      ensures Holds(tasks + [task])
    {
      ghost var before := Value();
      PutAtRear(before, tasks, task);
      task_queue[queue_rear] := task;
      queue_rear := (queue_rear + 1) % queue_max_size;
      queue_size := queue_size + 1;
      assert Value() == before.Stored(task);
    }

    // What a worker does once the queue is not empty.
    method Take(ghost tasks: seq<T>) returns (task: T)
      requires Holds(tasks) && queue_size > 0
      modifies this`queue_front, this`queue_size
      ensures tasks != [] && task == tasks[0] && Holds(tasks[1..])
    {
      ghost var before := Value();
      TakeFromFront(before, tasks);
      task := task_queue[queue_front];
      queue_front := (queue_front + 1) % queue_max_size;
      queue_size := queue_size - 1;
      assert Value() == before.Taken();
    }
  }

  // ----- The growth loop of the admin thread -----

  const DEFAULT_CREATE_THREAD_NUM: nat := 200

  // How many of the slots `from..to` a growth loop gave to a thread that could be created.
  ghost function Started(before: seq<int>, after: seq<int>, create: nat -> bool, from: nat, upto: nat): (n: nat)
    requires from <= upto <= |before| == |after|
    decreases upto
  {
    if from == upto then 0
    else Started(before, after, create, from, upto - 1)
         + if before[upto - 1] < 0 <= after[upto - 1] && create(upto - 1) then 1 else 0
  }

  ghost function Taken(before: seq<int>, after: seq<int>, from: nat, upto: nat): (n: nat)
    requires from <= upto <= |before| == |after|
  {
    Started(before, after, (i: nat) => true, from, upto)
  }

  // A step of the loop touches one slot behind those counted so far.
  lemma {:induction false} CountedStay(before: seq<int>, a: seq<int>, b: seq<int>, create: nat -> bool,
                                       from: nat, upto: nat)
    requires from <= upto <= |before| == |a| == |b| && a[..upto] == b[..upto]
    ensures Started(before, a, create, from, upto) == Started(before, b, create, from, upto)
    decreases upto
  {
    if from == upto {
    } else {
      assert a[..upto - 1] == a[..upto][..upto - 1] == b[..upto - 1];
      assert a[upto - 1] == a[..upto][upto - 1] == b[..upto][upto - 1];
      CountedStay(before, a, b, create, from, upto - 1);
    }
  }

  // `thrdpara[i].index`, negative for a slot without a thread, and the two thread limits.
  class Slots {
    const index: array<int>
    const min_thr_num: nat
    const max_thr_num: nat
    var live_thr_num: nat

    ghost predicate Valid()
      reads this
    {
      min_thr_num <= max_thr_num == index.Length && live_thr_num <= max_thr_num
    }

    constructor (min: nat, max: nat)
      requires min <= max
      ensures Valid() && min_thr_num == min && max_thr_num == max && live_thr_num == min
      ensures fresh(index) && forall i :: 0 <= i < max ==> index[i] == if i < min then i else -1
    {
      index := new int[max](i => if i < min then i else -1);
      min_thr_num, max_thr_num, live_thr_num := min, max, min;
    }

    // One growth of the pool. A slot whose thread could not be created counts against the 200
    // of this growth, but not as a live thread, and is never used again.
    method Grow(create: nat -> bool) returns (add: nat)
      requires Valid()
      modifies this`live_thr_num, index
      ensures Valid()
      ensures add <= DEFAULT_CREATE_THREAD_NUM && add == Taken(old(index[..]), index[..], min_thr_num, max_thr_num)
      ensures live_thr_num == old(live_thr_num) + Started(old(index[..]), index[..], create, min_thr_num, max_thr_num)
      ensures forall i :: 0 <= i < max_thr_num ==>
                index[i] == old(index[i]) || (old(index[i]) < 0 && index[i] == i >= min_thr_num)
      ensures add < DEFAULT_CREATE_THREAD_NUM && live_thr_num < max_thr_num ==>
                forall i :: min_thr_num <= i < max_thr_num ==> index[i] >= 0
    {
      ghost var before := index[..];
      add := 0;
      var i := min_thr_num;
      while i < max_thr_num && add < DEFAULT_CREATE_THREAD_NUM && live_thr_num < max_thr_num
        invariant Valid() && min_thr_num <= i <= max_thr_num && add <= DEFAULT_CREATE_THREAD_NUM
        invariant add == Taken(before, index[..], min_thr_num, i)
        invariant live_thr_num == old(live_thr_num) + Started(before, index[..], create, min_thr_num, i)
        invariant forall j :: 0 <= j < max_thr_num ==>
                    index[j] == before[j] || (before[j] < 0 && min_thr_num <= j < i && index[j] == j)
        invariant forall j :: min_thr_num <= j < i ==> index[j] >= 0
      {
        ghost var cells := index[..];
        if index[i] < 0 {
          index[i] := i;
          add := add + 1;
          if create(i) {
            live_thr_num := live_thr_num + 1;
          }
        }
        CountedStay(before, cells, index[..], create, min_thr_num, i);
        CountedStay(before, cells, index[..], (j: nat) => true, min_thr_num, i);
        i := i + 1;
      }
      Untouched(before, index[..], create, min_thr_num, i, max_thr_num);
      Untouched(before, index[..], (j: nat) => true, min_thr_num, i, max_thr_num);
    }
  }

  lemma {:induction false} Untouched(before: seq<int>, after: seq<int>, create: nat -> bool,
                                     from: nat, i: nat, upto: nat)
    requires from <= i <= upto <= |before| == |after|
    requires forall j :: i <= j < upto ==> before[j] == after[j]
    ensures Started(before, after, create, from, upto) == Started(before, after, create, from, i)
    decreases upto
  {
    if i == upto {
    } else {
      Untouched(before, after, create, from, i, upto - 1);
    }
  }

  // ----- The monitor -----

  type Task = int

  datatype Worker =
    | Ready                  // about to lock the mutex
    | Asleep                 // in `pthread_cond_wait`, not signalled
    | Woken                  // signalled, has not got the mutex back yet
    | Holding(task: Task)    // has taken a task
    | Running(task: Task)    // between the two updates of `busy_thr_num`

  datatype Producer = Idle | Blocked(task: Task) | Retrying(task: Task)

  datatype Pool = Pool(
    queue_max_size: nat,
    max_thr_num: nat,
    queue: seq<Task>,
    workers: seq<Worker>,
    producers: seq<Producer>,
    busy_thr_num: int,
    live_thr_num: nat,
    accepted: seq<Task>,
    dispatched: seq<Task>,
    finished: multiset<Task>
  )

  datatype Event =
    | WorkerLocks(i: nat)
    | WorkerStarts(i: nat)
    | WorkerEnds(i: nat)
    | WorkerWakesByItself(i: nat)
    | ProducerCalls(j: nat, task: Task, signalled: nat)
    | ProducerRetries(j: nat, signalled: nat)
    | ProducerWakesByItself(j: nat)
    | AdminGrows(started: nat)

  ghost predicate Enabled(p: Pool, e: Event) {
    match e
    case WorkerLocks(i) => i < |p.workers| && (p.workers[i].Ready? || p.workers[i].Woken?)
    case WorkerStarts(i) => i < |p.workers| && p.workers[i].Holding?
    case WorkerEnds(i) => i < |p.workers| && p.workers[i].Running?
    case WorkerWakesByItself(i) => i < |p.workers| && p.workers[i].Asleep?
    case ProducerCalls(j, task, signalled) =>
      j < |p.producers| && p.producers[j].Idle? && MaySignal(p.workers, signalled)
    case ProducerRetries(j, signalled) =>
      j < |p.producers| && p.producers[j].Retrying? && MaySignal(p.workers, signalled)
    case ProducerWakesByItself(j) => j < |p.producers| && p.producers[j].Blocked?
    case AdminGrows(started) => p.live_thr_num + started <= p.max_thr_num
  }

  // A signal reaches one sleeping worker, any of them, if there is one.
  ghost predicate MaySignal(workers: seq<Worker>, k: nat) {
    if k < |workers| then workers[k].Asleep? else Asleep !in workers
  }

  function Signal(workers: seq<Worker>, k: nat): seq<Worker> {
    if k < |workers| then workers[k := Woken] else workers
  }

  function Broadcast(producers: seq<Producer>): (r: seq<Producer>)
    ensures |r| == |producers|
    ensures forall j :: 0 <= j < |r| ==>
              r[j] == if producers[j].Blocked? then Retrying(producers[j].task) else producers[j]
  {
    seq(|producers|, j requires 0 <= j < |producers| =>
      if producers[j].Blocked? then Retrying(producers[j].task) else producers[j])
  }

  // `threadpool_add_task` from the moment the mutex is held until it is released or slept on.
  function Add(p: Pool, j: nat, task: Task, signalled: nat): Pool
    requires j < |p.producers|
  {
    if |p.queue| == p.queue_max_size then p.(producers := p.producers[j := Blocked(task)])
    else
      p.(queue := p.queue + [task], accepted := p.accepted + [task],
         producers := p.producers[j := Idle], workers := Signal(p.workers, signalled))
  }

  ghost function Step(p: Pool, e: Event): Pool
    requires Enabled(p, e)
  {
    match e
    case WorkerLocks(i) =>
      if p.queue == [] then p.(workers := p.workers[i := Asleep])
      else
        p.(queue := p.queue[1..], dispatched := p.dispatched + [p.queue[0]],
           workers := p.workers[i := Holding(p.queue[0])], producers := Broadcast(p.producers))
    case WorkerStarts(i) =>
      p.(workers := p.workers[i := Running(p.workers[i].task)], busy_thr_num := p.busy_thr_num + 1)
    case WorkerEnds(i) =>
      p.(workers := p.workers[i := Ready], busy_thr_num := p.busy_thr_num - 1,
         finished := p.finished + multiset{p.workers[i].task})
    case WorkerWakesByItself(i) => p.(workers := p.workers[i := Woken])
    case ProducerCalls(j, task, signalled) => Add(p, j, task, signalled)
    case ProducerRetries(j, signalled) => Add(p, j, p.producers[j].task, signalled)
    case ProducerWakesByItself(j) => p.(producers := p.producers[j := Retrying(p.producers[j].task)])
    case AdminGrows(started) =>
      p.(workers := p.workers + seq(started, _ => Ready), live_thr_num := p.live_thr_num + started)
  }

  function CountOf(workers: seq<Worker>, kind: Worker -> bool): (n: nat)
    ensures n <= |workers|
    decreases |workers|
  {
    if workers == [] then 0
    else CountOf(workers[..|workers| - 1], kind) + if kind(workers[|workers| - 1]) then 1 else 0
  }

  function One(w: Worker): multiset<Task> {
    if w.Holding? || w.Running? then multiset{w.task} else multiset{}
  }

  // The tasks that workers hold or run.
  function InHand(workers: seq<Worker>): multiset<Task>
    decreases |workers|
  {
    if workers == [] then multiset{}
    else InHand(workers[..|workers| - 1]) + One(workers[|workers| - 1])
  }

  function Ind(b: bool): nat { if b then 1 else 0 }

  lemma {:induction false} CountUpdate(workers: seq<Worker>, i: nat, w: Worker, kind: Worker -> bool)
    requires i < |workers|
    ensures CountOf(workers[i := w], kind) + Ind(kind(workers[i])) == CountOf(workers, kind) + Ind(kind(w))
    decreases |workers|
  {
    var n := |workers| - 1;
    if i < n {
      assert workers[i := w][..n] == workers[..n][i := w];
      CountUpdate(workers[..n], i, w, kind);
    } else {
      assert workers[i := w][..n] == workers[..n];
    }
  }

  function HoldsTask(t: Task): Worker -> bool {
    (w: Worker) => (w.Holding? || w.Running?) && w.task == t
  }

  lemma {:induction false} InHandCounts(workers: seq<Worker>, t: Task)
    ensures InHand(workers)[t] == CountOf(workers, HoldsTask(t))
    decreases |workers|
  {
    if workers == [] {
    } else {
      InHandCounts(workers[..|workers| - 1], t);
    }
  }

  lemma OneCounts(w: Worker, t: Task)
    ensures One(w)[t] == Ind(HoldsTask(t)(w))
  {
  }

  lemma InHandUpdateAt(workers: seq<Worker>, i: nat, w: Worker, t: Task)
    requires i < |workers|
    ensures InHand(workers[i := w])[t] + One(workers[i])[t] == InHand(workers)[t] + One(w)[t]
  {
    InHandCounts(workers, t);
    InHandCounts(workers[i := w], t);
    CountUpdate(workers, i, w, HoldsTask(t));
    OneCounts(workers[i], t);
    OneCounts(w, t);
  }

  lemma OneInHand(workers: seq<Worker>, i: nat)
    requires i < |workers|
    ensures One(workers[i]) <= InHand(workers)
  {
    forall t: Task
      ensures One(workers[i])[t] <= InHand(workers)[t]
    {
      InHandUpdateAt(workers, i, Ready, t);
    }
  }

  lemma InHandUpdate(workers: seq<Worker>, i: nat, w: Worker)
    requires i < |workers|
    ensures One(workers[i]) <= InHand(workers)
    ensures InHand(workers[i := w]) == InHand(workers) - One(workers[i]) + One(w)
  {
    OneInHand(workers, i);
    var before, after, old', new' := InHand(workers), InHand(workers[i := w]), One(workers[i]), One(w);
    forall t: Task
      ensures after[t] + old'[t] == before[t] + new'[t]
    {
      InHandUpdateAt(workers, i, w, t);
    }
    Replaced(before, after, old', new');
  }

  lemma Replaced(before: multiset<Task>, after: multiset<Task>, x: multiset<Task>, y: multiset<Task>)
    requires x <= before && forall t :: after[t] + x[t] == before[t] + y[t]
    ensures after == before - x + y
  {
    forall t: Task
      ensures after[t] == (before - x + y)[t]
    {
    }
  }

  lemma {:induction false} ReadyCountsNothing(workers: seq<Worker>, n: nat, kind: Worker -> bool)
    requires !kind(Ready)
    ensures var grown := workers + seq(n, _ => Ready);
            CountOf(grown, kind) == CountOf(workers, kind) && InHand(grown) == InHand(workers)
    decreases n
  {
    var grown := workers + seq(n, _ => Ready);
    if n > 0 {
      assert grown[..|grown| - 1] == workers + seq(n - 1, _ => Ready);
      assert grown[|grown| - 1] == Ready;
      ReadyCountsNothing(workers, n - 1, kind);
    } else {
      assert grown == workers;
    }
  }

  lemma {:induction false} NoneCounted(workers: seq<Worker>, kind: Worker -> bool)
    ensures CountOf(workers, kind) == 0 <==> forall w :: w in workers ==> !kind(w)
    decreases |workers|
  {
    if workers == [] {
    } else {
      var n := |workers| - 1;
      assert workers == workers[..n] + [workers[n]];
      NoneCounted(workers[..n], kind);
    }
  }

  // ----- What every step keeps -----

  predicate IsAsleep(w: Worker) { w.Asleep? }

  predicate IsWoken(w: Worker) { w.Woken? }

  predicate IsRunning(w: Worker) { w.Running? }

  function Sleeping(workers: seq<Worker>): nat { CountOf(workers, IsAsleep) }

  function WokenUp(workers: seq<Worker>): nat { CountOf(workers, IsWoken) }

  function Busy(workers: seq<Worker>): nat { CountOf(workers, IsRunning) }

  ghost predicate NoLostWakeup(p: Pool) {
    && (Sleeping(p.workers) > 0 ==> |p.queue| <= WokenUp(p.workers))
    && (|p.queue| < p.queue_max_size ==> forall j :: 0 <= j < |p.producers| ==> !p.producers[j].Blocked?)
  }

  ghost predicate Conserved(p: Pool) {
    && |p.queue| <= p.queue_max_size
    && p.accepted == p.dispatched + p.queue
    && multiset(p.dispatched) == p.finished + InHand(p.workers)
  }

  ghost predicate Counted(p: Pool) {
    p.busy_thr_num == Busy(p.workers) && |p.workers| <= p.live_thr_num <= p.max_thr_num
  }

  ghost predicate Inv(p: Pool) {
    p.queue_max_size > 0 && NoLostWakeup(p) && Conserved(p) && Counted(p)
  }

  // What replacing one worker's state does to every count.
  lemma Moved(workers: seq<Worker>, i: nat, w: Worker)
    requires i < |workers|
    ensures var ws := workers[i := w];
            && Sleeping(ws) + Ind(IsAsleep(workers[i])) == Sleeping(workers) + Ind(IsAsleep(w))
            && WokenUp(ws) + Ind(IsWoken(workers[i])) == WokenUp(workers) + Ind(IsWoken(w))
            && Busy(ws) + Ind(IsRunning(workers[i])) == Busy(workers) + Ind(IsRunning(w))
            && One(workers[i]) <= InHand(workers)
            && InHand(ws) == InHand(workers) - One(workers[i]) + One(w)
  {
    CountUpdate(workers, i, w, IsAsleep);
    CountUpdate(workers, i, w, IsWoken);
    CountUpdate(workers, i, w, IsRunning);
    InHandUpdate(workers, i, w);
  }

  // A signal never raises the number of sleepers, and wakes one if there is one.
  lemma Signalled(workers: seq<Worker>, k: nat)
    requires MaySignal(workers, k)
    ensures var ws := Signal(workers, k);
            && |ws| == |workers| && Busy(ws) == Busy(workers) && InHand(ws) == InHand(workers)
            && (Sleeping(workers) > 0 ==> WokenUp(ws) == WokenUp(workers) + 1)
            && (Sleeping(workers) == 0 ==> ws == workers)
  {
    NoneCounted(workers, IsAsleep);
    if k < |workers| {
      Moved(workers, k, Woken);
    }
  }

  lemma AddKeeps(p: Pool, j: nat, task: Task, signalled: nat)
    requires Inv(p) && j < |p.producers| && !p.producers[j].Blocked? && MaySignal(p.workers, signalled)
    ensures Inv(Add(p, j, task, signalled))
  {
    Signalled(p.workers, signalled);
  }

  lemma SleepKeeps(p: Pool, i: nat)
    requires Inv(p) && Enabled(p, WorkerLocks(i)) && p.queue == []
    ensures Inv(Step(p, WorkerLocks(i)))
  {
    Moved(p.workers, i, Asleep);
  }

  lemma TakeConserves(p: Pool, i: nat)
    requires Conserved(p) && Enabled(p, WorkerLocks(i)) && p.queue != []
    ensures Conserved(Step(p, WorkerLocks(i)))
  {
    InHandUpdate(p.workers, i, Holding(p.queue[0]));
    Sequences.MoveHead(p.dispatched, p.queue);
    OneMore(p.dispatched, p.queue[0]);
  }

  lemma OneMore(dispatched: seq<Task>, task: Task)
    ensures multiset(dispatched + [task]) == multiset(dispatched) + One(Holding(task))
  {
  }

  lemma TakeKeeps(p: Pool, i: nat)
    requires Inv(p) && Enabled(p, WorkerLocks(i)) && p.queue != []
    ensures Inv(Step(p, WorkerLocks(i)))
  {
    Moved(p.workers, i, Holding(p.queue[0]));
    TakeConserves(p, i);
  }

  lemma StartsKeeps(p: Pool, i: nat)
    requires Inv(p) && Enabled(p, WorkerStarts(i))
    ensures Inv(Step(p, WorkerStarts(i)))
  {
    Moved(p.workers, i, Running(p.workers[i].task));
    assert Step(p, WorkerStarts(i)).workers == p.workers[i := Running(p.workers[i].task)];
  }

  lemma EndsKeeps(p: Pool, i: nat)
    requires Inv(p) && Enabled(p, WorkerEnds(i))
    ensures Inv(Step(p, WorkerEnds(i)))
  {
    Moved(p.workers, i, Ready);
    Finished(p.dispatched, p.finished, InHand(p.workers), p.workers[i]);
  }

  lemma Finished(dispatched: seq<Task>, finished: multiset<Task>, hand: multiset<Task>, w: Worker)
    requires w.Running? && One(w) <= hand && multiset(dispatched) == finished + hand
    ensures multiset(dispatched) == (finished + multiset{w.task}) + (hand - One(w) + One(Ready))
  {
  }

  lemma WakesKeeps(p: Pool, i: nat)
    requires Inv(p) && Enabled(p, WorkerWakesByItself(i))
    ensures Inv(Step(p, WorkerWakesByItself(i)))
  {
    Moved(p.workers, i, Woken);
  }

  lemma GrowsKeeps(p: Pool, started: nat)
    requires Inv(p) && Enabled(p, AdminGrows(started))
    ensures Inv(Step(p, AdminGrows(started)))
  {
    ReadyCountsNothing(p.workers, started, IsAsleep);
    ReadyCountsNothing(p.workers, started, IsWoken);
    ReadyCountsNothing(p.workers, started, IsRunning);
  }

  lemma StepKeeps(p: Pool, e: Event)
    requires Inv(p) && Enabled(p, e)
    ensures Inv(Step(p, e))
  {
    match e
    case WorkerLocks(i) => if p.queue == [] { SleepKeeps(p, i); } else { TakeKeeps(p, i); }
    case WorkerStarts(i) => StartsKeeps(p, i);
    case WorkerEnds(i) => EndsKeeps(p, i);
    case WorkerWakesByItself(i) => WakesKeeps(p, i);
    case ProducerCalls(j, task, signalled) => AddKeeps(p, j, task, signalled);
    case ProducerRetries(j, signalled) => AddKeeps(p, j, p.producers[j].task, signalled);
    case ProducerWakesByItself(j) =>
    case AdminGrows(started) => GrowsKeeps(p, started);
  }

  // ----- The monitor on the circular queue -----

  // What an event does to those fields.
  function OnCells(c: Circular<Task>, p: Pool, e: Event): Circular<Task>
    requires c.rear < |c.cells|
  {
    match e
    case WorkerLocks(_) =>
      if c.size == 0 then c else c.Taken()
    case ProducerCalls(_, task, _) => Store(c, task)
    case ProducerRetries(j, _) =>
      if j < |p.producers| && p.producers[j].Retrying? then Store(c, p.producers[j].task) else c
    case _ => c
  }

  function Store(c: Circular<Task>, task: Task): Circular<Task>
    requires c.rear < |c.cells|
  {
    if c.size == |c.cells| then c else c.Stored(task)
  }

  // The queue of the monitor is the contents of the circular queue, before and after every event,
  // and a worker takes the task at the front.
  lemma QueueIsRefined(c: Circular<Task>, p: Pool, e: Event)
    requires Enabled(p, e) && p.queue_max_size > 0 && c.Holds(p.queue) && |c.cells| == p.queue_max_size
    ensures OnCells(c, p, e).Holds(Step(p, e).queue) && |OnCells(c, p, e).cells| == p.queue_max_size
    ensures c.size == |p.queue| && (p.queue != [] ==> c.cells[c.front] == p.queue[0])
  {
    if p.queue != [] {
      TakeFromFront(c, p.queue);
    }
    match e
    case ProducerCalls(_, task, _) => StoreIsRefined(c, p.queue, task);
    case ProducerRetries(j, _) => StoreIsRefined(c, p.queue, p.producers[j].task);
    case _ =>
  }

  lemma StoreIsRefined(c: Circular<Task>, queue: seq<Task>, task: Task)
    requires c.Holds(queue)
    ensures Store(c, task).Holds(if |queue| == |c.cells| then queue else queue + [task])
  {
    if c.size < |c.cells| {
      PutAtRear(c, queue, task);
    }
  }

  // The pool right after `threadpool_create`; `started <= min` of its threads could be created.
  function Created(queue_max_size: nat, min: nat, max: nat, started: nat, callers: nat): Pool {
    Pool(queue_max_size, max, [], seq(started, _ => Ready), seq(callers, _ => Idle), 0, min, [], [], multiset{})
  }

  ghost predicate Legal(p: Pool, events: seq<Event>)
    decreases |events|
  {
    events == [] || (Enabled(p, events[0]) && Legal(Step(p, events[0]), events[1..]))
  }

  ghost function Run(p: Pool, events: seq<Event>): Pool
    requires Legal(p, events)
    decreases |events|
  {
    if events == [] then p else Run(Step(p, events[0]), events[1..])
  }

  lemma {:induction false} RunKeeps(p: Pool, events: seq<Event>)
    requires Inv(p) && Legal(p, events)
    ensures Inv(Run(p, events))
    decreases |events|
  {
    if events == [] {
    } else {
      StepKeeps(p, events[0]);
      RunKeeps(Step(p, events[0]), events[1..]);
    }
  }

  lemma CreatedIsSound(queue_max_size: nat, min: nat, max: nat, started: nat, callers: nat)
    requires queue_max_size > 0 && started <= min <= max
    ensures Inv(Created(queue_max_size, min, max, started, callers))
  {
    var p := Created(queue_max_size, min, max, started, callers);
    NoneCounted(p.workers, IsAsleep);
    NoneCounted(p.workers, IsRunning);
    ReadyCountsNothing([], started, IsAsleep);
    assert [] + p.workers == p.workers;
  }

  // No wake-up is lost, with any number of workers and producers and with spurious wake-ups: a
  // worker sleeps unsignalled only while there is a woken worker for every queued task, and a
  // producer only while the queue is full.
  lemma NoWakeupIsLost(queue_max_size: nat, min: nat, max: nat, started: nat, callers: nat, events: seq<Event>)
    requires queue_max_size > 0 && started <= min <= max
    requires Legal(Created(queue_max_size, min, max, started, callers), events)
    ensures var p := Run(Created(queue_max_size, min, max, started, callers), events);
            && (Asleep in p.workers ==> |p.queue| <= WokenUp(p.workers))
            && (forall j :: 0 <= j < |p.producers| && p.producers[j].Blocked? ==> |p.queue| == p.queue_max_size)
            && (p.queue != [] && p.workers != [] ==> exists i :: 0 <= i < |p.workers| && p.workers[i] != Asleep)
  {
    var p := Run(Created(queue_max_size, min, max, started, callers), events);
    CreatedIsSound(queue_max_size, min, max, started, callers);
    RunKeeps(Created(queue_max_size, min, max, started, callers), events);
    NoneCounted(p.workers, IsAsleep);
    if Asleep in p.workers && p.queue != [] {
      NoneCounted(p.workers, IsWoken);
      assert Woken in p.workers;
    }
  }

  // Tasks are conserved in order: those accepted are those dispatched followed by those queued,
  // and every dispatched task is in the hands of exactly one worker or finished, once.
  lemma TasksAreConserved(queue_max_size: nat, min: nat, max: nat, started: nat, callers: nat, events: seq<Event>)
    requires queue_max_size > 0 && started <= min <= max
    requires Legal(Created(queue_max_size, min, max, started, callers), events)
    ensures var p := Run(Created(queue_max_size, min, max, started, callers), events);
            && p.accepted == p.dispatched + p.queue && |p.queue| <= p.queue_max_size
            && multiset(p.dispatched) == p.finished + InHand(p.workers)
            && p.busy_thr_num == Busy(p.workers)
            && |p.workers| <= p.live_thr_num <= p.max_thr_num
  {
    CreatedIsSound(queue_max_size, min, max, started, callers);
    RunKeeps(Created(queue_max_size, min, max, started, callers), events);
  }

  // ----- The callers' tasks -----

  // The task that a producer has handed in and that is not in the queue yet.
  function Waiting(p: Producer): seq<Task> {
    match p
    case Idle => []
    case Blocked(task) => [task]
    case Retrying(task) => [task]
  }

  // The tasks that producer `j` hands in, in a run, one per call.
  function Calls(events: seq<Event>, j: nat): seq<Task>
    decreases |events|
  {
    if events == [] then []
    else
      (if events[0].ProducerCalls? && events[0].j == j then [events[0].task] else []) + Calls(events[1..], j)
  }

  predicate IsBy(e: Event, j: nat) { (e.ProducerCalls? || e.ProducerRetries?) && e.j == j }

  // What an event adds to the accepted tasks.
  ghost function Accepts(p: Pool, e: Event): seq<Task>
    requires Enabled(p, e)
  {
    var accepted := Step(p, e).accepted;
    if |p.accepted| <= |accepted| then accepted[|p.accepted|..] else []
  }

  // The tasks accepted, in a run, when producer `j` holds the mutex.
  ghost function AcceptedFrom(p: Pool, events: seq<Event>, j: nat): seq<Task>
    requires Legal(p, events)
    decreases |events|
  {
    if events == [] then []
    else
      (if IsBy(events[0], j) then Accepts(p, events[0]) else []) + AcceptedFrom(Step(p, events[0]), events[1..], j)
  }

  lemma StepHandsOver(p: Pool, e: Event, j: nat)
    requires Enabled(p, e) && j < |p.producers|
    ensures |Step(p, e).producers| == |p.producers|
    ensures Waiting(p.producers[j]) + Calls([e], j)
         == (if IsBy(e, j) then Accepts(p, e) else []) + Waiting(Step(p, e).producers[j])
  {
    assert [e][1..] == [];
    if e.ProducerCalls? {
      AddHandsOver(p, e.j, e.task, e.signalled);
    } else if e.ProducerRetries? {
      AddHandsOver(p, e.j, p.producers[e.j].task, e.signalled);
    }
  }

  lemma AddHandsOver(p: Pool, j: nat, task: Task, signalled: nat)
    requires j < |p.producers|
    ensures var q := Add(p, j, task, signalled);
            && |q.producers| == |p.producers| && p.accepted <= q.accepted
            && [task] == q.accepted[|p.accepted|..] + Waiting(q.producers[j])
            && forall i :: 0 <= i < |p.producers| && i != j ==> q.producers[i] == p.producers[i]
  {
  }

  // Over every run each producer's tasks are accepted once each and in the order of its calls; the
  // last one may still be waiting for room in the queue.
  lemma {:induction false} CallsAreAccepted(p: Pool, events: seq<Event>, j: nat)
    requires Legal(p, events) && j < |p.producers|
    ensures |Run(p, events).producers| == |p.producers|
    ensures Waiting(p.producers[j]) + Calls(events, j)
         == AcceptedFrom(p, events, j) + Waiting(Run(p, events).producers[j])
    decreases |events|
  {
    if events == [] {
    } else {
      var e, rest := events[0], events[1..];
      var q, last := Step(p, e), Run(p, events);
      StepHandsOver(p, e, j);
      CallsAreAccepted(q, rest, j);
      CallsFirst(events, j);
      Regroup(Waiting(p.producers[j]), Calls([e], j), Calls(rest, j), if IsBy(e, j) then Accepts(p, e) else [],
              Waiting(q.producers[j]), AcceptedFrom(q, rest, j), Waiting(last.producers[j]));
    }
  }

  lemma CallsFirst(events: seq<Event>, j: nat)
    requires events != []
    ensures Calls(events, j) == Calls([events[0]], j) + Calls(events[1..], j)
  {
    assert [events[0]][1..] == [];
  }

  lemma Regroup(w: seq<Task>, c: seq<Task>, cs: seq<Task>, a: seq<Task>, w1: seq<Task>, more: seq<Task>, w2: seq<Task>)
    requires w + c == a + w1 && w1 + cs == more + w2
    ensures w + (c + cs) == (a + more) + w2
  {
    Sequences.Associate(w, c, cs);
    Sequences.Associate(a, w1, cs);
    Sequences.Associate(a, more, w2);
  }

  // How often `t` is the task of a call of a run, of a producer that waits, and of all of them.
  function CallsOf(events: seq<Event>, t: Task): nat
    decreases |events|
  {
    if events == [] then 0 else CallOf(events[0], t) + CallsOf(events[1..], t)
  }

  function CallOf(e: Event, t: Task): nat { Ind(e.ProducerCalls? && e.task == t) }

  function WaitsFor(p: Producer, t: Task): nat { Ind(!p.Idle? && p.task == t) }

  function AllWaitFor(producers: seq<Producer>, t: Task): nat
    decreases |producers|
  {
    if producers == [] then 0
    else AllWaitFor(producers[..|producers| - 1], t) + WaitsFor(producers[|producers| - 1], t)
  }

  lemma {:induction false} WaitingUpdate(producers: seq<Producer>, j: nat, x: Producer, t: Task)
    requires j < |producers|
    ensures AllWaitFor(producers[j := x], t) + WaitsFor(producers[j], t)
         == AllWaitFor(producers, t) + WaitsFor(x, t)
    decreases |producers|
  {
    var n := |producers| - 1;
    if j < n {
      assert producers[j := x][..n] == producers[..n][j := x];
      WaitingUpdate(producers[..n], j, x, t);
    } else {
      assert producers[j := x][..n] == producers[..n];
    }
  }

  lemma {:induction false} WaitingAlike(a: seq<Producer>, b: seq<Producer>, t: Task)
    requires |a| == |b| && forall j :: 0 <= j < |a| ==> WaitsFor(a[j], t) == WaitsFor(b[j], t)
    ensures AllWaitFor(a, t) == AllWaitFor(b, t)
    decreases |a|
  {
    if a == [] {
    } else {
      WaitingAlike(a[..|a| - 1], b[..|b| - 1], t);
    }
  }

  // How often `t` has been handed in, as far as the pool can tell.
  function HandedIn(p: Pool, t: Task): nat { multiset(p.accepted)[t] + AllWaitFor(p.producers, t) }

  lemma AddConserves(p: Pool, j: nat, task: Task, signalled: nat, t: Task)
    requires j < |p.producers|
    ensures HandedIn(Add(p, j, task, signalled), t) + WaitsFor(p.producers[j], t) == HandedIn(p, t) + Ind(task == t)
  {
    WaitingUpdate(p.producers, j, Blocked(task), t);
    WaitingUpdate(p.producers, j, Idle, t);
  }

  lemma StepConserves(p: Pool, e: Event, t: Task)
    requires Enabled(p, e)
    ensures HandedIn(Step(p, e), t) == HandedIn(p, t) + CallOf(e, t)
  {
    match e
    case ProducerCalls(j, task, signalled) => AddConserves(p, j, task, signalled, t);
    case ProducerRetries(j, signalled) => AddConserves(p, j, p.producers[j].task, signalled, t);
    case ProducerWakesByItself(j) => WaitingUpdate(p.producers, j, Retrying(p.producers[j].task), t);
    case WorkerLocks(i) => WaitingAlike(p.producers, Step(p, e).producers, t);
    case _ =>
  }

  lemma {:induction false} RunConserves(p: Pool, events: seq<Event>, t: Task)
    requires Legal(p, events)
    ensures HandedIn(Run(p, events), t) == HandedIn(p, t) + CallsOf(events, t)
    decreases |events|
  {
    if events == [] {
    } else {
      StepConserves(p, events[0], t);
      RunConserves(Step(p, events[0]), events[1..], t);
    }
  }

  lemma {:induction false} IdleWait(n: nat, t: Task)
    ensures AllWaitFor(seq(n, _ => Idle), t) == 0
  {
    var producers := seq(n, _ => Idle);
    if n == 0 {
    } else {
      assert producers[..n - 1] == seq(n - 1, _ => Idle);
      IdleWait(n - 1, t);
    }
  }

  // Over every run, each task has been handed in as often as it has been accepted and as callers
  // still wait with it: no call is lost and none is accepted twice.
  lemma CallsAreConserved(queue_max_size: nat, min: nat, max: nat, started: nat, callers: nat, events: seq<Event>)
    requires Legal(Created(queue_max_size, min, max, started, callers), events)
    ensures var p := Run(Created(queue_max_size, min, max, started, callers), events);
            forall t :: CallsOf(events, t) == multiset(p.accepted)[t] + AllWaitFor(p.producers, t)
  {
    forall t: Task
      ensures CallsOf(events, t) == HandedIn(Run(Created(queue_max_size, min, max, started, callers), events), t)
    {
      IdleWait(callers, t);
      RunConserves(Created(queue_max_size, min, max, started, callers), events, t);
    }
  }

  // ----- Everything can be finished -----

  predicate IsHolding(w: Worker) { w.Holding? }

  function Pending(producers: seq<Producer>): nat
    decreases |producers|
  {
    if producers == [] then 0
    else Pending(producers[..|producers| - 1]) + Ind(!producers[|producers| - 1].Idle?)
  }

  lemma {:induction false} PendingUpdate(producers: seq<Producer>, j: nat, x: Producer)
    requires j < |producers|
    ensures Pending(producers[j := x]) + Ind(!producers[j].Idle?) == Pending(producers) + Ind(!x.Idle?)
    decreases |producers|
  {
    var n := |producers| - 1;
    if j < n {
      assert producers[j := x][..n] == producers[..n][j := x];
      PendingUpdate(producers[..n], j, x);
    } else {
      assert producers[j := x][..n] == producers[..n];
    }
  }

  lemma {:induction false} PendingAlike(a: seq<Producer>, b: seq<Producer>)
    requires |a| == |b| && forall j :: 0 <= j < |a| ==> (a[j].Idle? <==> b[j].Idle?)
    ensures Pending(a) == Pending(b)
    decreases |a|
  {
    if a == [] {
    } else {
      PendingAlike(a[..|a| - 1], b[..|b| - 1]);
    }
  }

  lemma {:induction false} NonePending(producers: seq<Producer>)
    ensures Pending(producers) == 0 <==> forall j :: 0 <= j < |producers| ==> producers[j].Idle?
    decreases |producers|
  {
    if producers == [] {
    } else {
      NonePending(producers[..|producers| - 1]);
    }
  }

  // The steps of the schedule below until nothing is left to do.
  ghost function Work(p: Pool): nat {
    4 * Pending(p.producers) + 3 * |p.queue| + 2 * CountOf(p.workers, IsHolding) + Busy(p.workers)
  }

  // An event of a worker or a waiting producer that needs no new call and no spurious wake-up.
  predicate IsOwn(e: Event) { e.WorkerLocks? || e.WorkerStarts? || e.WorkerEnds? || e.ProducerRetries? }

  lemma EndsLeavesLess(p: Pool, i: nat)
    requires Enabled(p, WorkerEnds(i))
    ensures Work(Step(p, WorkerEnds(i))) < Work(p)
  {
    CountUpdate(p.workers, i, Ready, IsHolding);
    CountUpdate(p.workers, i, Ready, IsRunning);
  }

  lemma StartsLeavesLess(p: Pool, i: nat)
    requires Enabled(p, WorkerStarts(i))
    ensures Work(Step(p, WorkerStarts(i))) < Work(p)
  {
    var w := Running(p.workers[i].task);
    CountUpdate(p.workers, i, w, IsHolding);
    CountUpdate(p.workers, i, w, IsRunning);
  }

  lemma LocksLeavesLess(p: Pool, i: nat)
    requires Enabled(p, WorkerLocks(i)) && p.queue != []
    ensures Work(Step(p, WorkerLocks(i))) < Work(p)
  {
    var w := Holding(p.queue[0]);
    CountUpdate(p.workers, i, w, IsHolding);
    CountUpdate(p.workers, i, w, IsRunning);
    PendingAlike(p.producers, Broadcast(p.producers));
  }

  lemma RetryLeavesLess(p: Pool, j: nat, k: nat)
    requires Enabled(p, ProducerRetries(j, k)) && |p.queue| < p.queue_max_size
    ensures Work(Step(p, ProducerRetries(j, k))) < Work(p)
  {
    PendingUpdate(p.producers, j, Idle);
    if k < |p.workers| {
      CountUpdate(p.workers, k, Woken, IsHolding);
      CountUpdate(p.workers, k, Woken, IsRunning);
    }
  }

  lemma SomeWorker(workers: seq<Worker>, kind: Worker -> bool) returns (i: nat)
    requires CountOf(workers, kind) > 0
    ensures i < |workers| && kind(workers[i])
  {
    NoneCounted(workers, kind);
    var w :| w in workers && kind(w);
    i :| 0 <= i < |workers| && workers[i] == w;
  }

  // With a task in the queue some worker is awake.
  lemma SomeWorkerIsAwake(p: Pool) returns (i: nat)
    requires Inv(p) && p.workers != [] && p.queue != []
    ensures i < |p.workers| && !p.workers[i].Asleep?
  {
    if p.workers[0].Asleep? {
      assert p.workers[0] in p.workers;
      NoneCounted(p.workers, IsAsleep);
      i := SomeWorker(p.workers, IsWoken);
    } else {
      i := 0;
    }
  }

  lemma SignalledWorker(workers: seq<Worker>) returns (k: nat)
    ensures MaySignal(workers, k)
  {
    if Asleep in workers {
      k :| 0 <= k < |workers| && workers[k] == Asleep;
    } else {
      k := |workers|;
    }
  }

  // As long as something is left to do, some thread can do it.
  lemma SomeoneCanMove(p: Pool) returns (e: Event)
    requires Inv(p) && p.workers != [] && Work(p) > 0
    ensures Enabled(p, e) && IsOwn(e) && Work(Step(p, e)) < Work(p)
  {
    if Busy(p.workers) > 0 {
      var i := SomeWorker(p.workers, IsRunning);
      e := WorkerEnds(i);
      EndsLeavesLess(p, i);
    } else if CountOf(p.workers, IsHolding) > 0 {
      var i := SomeWorker(p.workers, IsHolding);
      e := WorkerStarts(i);
      StartsLeavesLess(p, i);
    } else if p.queue != [] {
      var i := SomeWorkerIsAwake(p);
      NoneCounted(p.workers, IsRunning);
      NoneCounted(p.workers, IsHolding);
      assert p.workers[i] in p.workers;
      e := WorkerLocks(i);
      LocksLeavesLess(p, i);
    } else {
      NonePending(p.producers);
      var j :| 0 <= j < |p.producers| && !p.producers[j].Idle?;
      var k := SignalledWorker(p.workers);
      e := ProducerRetries(j, k);
      RetryLeavesLess(p, j, k);
    }
  }

  lemma {:induction false} NothingInHand(workers: seq<Worker>)
    requires CountOf(workers, IsHolding) == 0 && Busy(workers) == 0
    ensures InHand(workers) == multiset{}
    decreases |workers|
  {
    if workers == [] {
    } else {
      NothingInHand(workers[..|workers| - 1]);
    }
  }

  // Nothing is left to do: every task handed in has been finished, once.
  ghost predicate AllFinished(p: Pool) {
    p.finished == multiset(p.accepted) && forall j :: 0 <= j < |p.producers| ==> p.producers[j].Idle?
  }

  lemma NoWorkIsLeft(p: Pool)
    requires Inv(p) && Work(p) == 0
    ensures AllFinished(p)
  {
    NothingInHand(p.workers);
    NonePending(p.producers);
    assert p.queue == [];
    assert p.accepted == p.dispatched;
  }

  // In `q` every task handed in up to `p` has been finished, as often as it was handed in.
  ghost predicate FinishedIn(p: Pool, q: Pool) {
    AllFinished(q) && forall t :: q.finished[t] == HandedIn(p, t)
  }

  lemma FinishedLater(p: Pool, q: Pool, r: Pool)
    requires FinishedIn(q, r) && forall t :: HandedIn(q, t) == HandedIn(p, t)
    ensures FinishedIn(p, r)
  {
  }

  ghost predicate AllOwn(events: seq<Event>) { forall i :: 0 <= i < |events| ==> IsOwn(events[i]) }

  // There is no deadlock: from every state of a run with a worker in it, the workers and the
  // waiting producers can go on, without new calls and without spurious wake-ups, until every task
  // handed in so far has been finished.
  lemma {:induction false} EverythingCanFinish(p: Pool) returns (events: seq<Event>)
    requires Inv(p) && p.workers != []
    ensures Legal(p, events) && AllOwn(events) && FinishedIn(p, Run(p, events))
    decreases Work(p)
  {
    if Work(p) == 0 {
      events := [];
      NoWorkIsLeft(p);
      NobodyWaits(p);
      assert FinishedIn(p, p);
    } else {
      var e, q := MoveOn(p);
      var rest := EverythingCanFinish(q);
      events := [e] + rest;
      RunFirst(p, e, rest);
      FinishedLater(p, q, Run(q, rest));
    }
  }

  lemma MoveOn(p: Pool) returns (e: Event, q: Pool)
    requires Inv(p) && p.workers != [] && Work(p) > 0
    ensures Enabled(p, e) && IsOwn(e) && q == Step(p, e)
    ensures Inv(q) && q.workers != [] && Work(q) < Work(p)
    ensures forall t :: HandedIn(q, t) == HandedIn(p, t)
  {
    e := SomeoneCanMove(p);
    q := Step(p, e);
    StepKeeps(p, e);
    WorkersStay(p, e);
    forall t: Task
      ensures HandedIn(q, t) == HandedIn(p, t)
    {
      StepConserves(p, e, t);
    }
  }

  lemma RunFirst(p: Pool, e: Event, rest: seq<Event>)
    requires Enabled(p, e) && Legal(Step(p, e), rest)
    ensures Legal(p, [e] + rest) && Run(p, [e] + rest) == Run(Step(p, e), rest)
  {
    assert ([e] + rest)[1..] == rest;
  }

  lemma WorkersStay(p: Pool, e: Event)
    requires Enabled(p, e) && p.workers != []
    ensures Step(p, e).workers != []
  {
  }

  lemma {:induction false} NoneWaitsFor(producers: seq<Producer>, t: Task)
    requires forall j :: 0 <= j < |producers| ==> producers[j].Idle?
    ensures AllWaitFor(producers, t) == 0
    decreases |producers|
  {
    if producers == [] {
    } else {
      NoneWaitsFor(producers[..|producers| - 1], t);
    }
  }

  lemma NobodyWaits(p: Pool)
    requires AllFinished(p)
    ensures forall t :: p.finished[t] == HandedIn(p, t)
  {
    forall t: Task
      ensures p.finished[t] == HandedIn(p, t)
    {
      NoneWaitsFor(p.producers, t);
    }
  }
}
