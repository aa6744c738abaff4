// The worker pool: a FIFO of tasks, workers that wait, take, run and exit, and a
// stop flag. Each method of the class is one atomic step; the ghost log records
// the whole history.
module ThreadPools {
  type Task = nat

  datatype Worker = Waiting | Running(task: Task) | Exited

  datatype Pool = Pool(
    tasks: seq<Task>,
    workers: seq<Worker>,
    stop: bool,
    enqueued: seq<Task>,        // everything ever enqueued
    started: seq<Task>,         // everything taken, in order
    finished: multiset<Task>,   // everything run to its end
    beforeStop: nat)            // how many were enqueued when stop was set

  datatype Event = Enqueue(task: Task) | Stop | Wake(i: nat) | Finish(i: nat)

  function Start(n: nat): Pool {
    Pool([], seq(n, _ => Waiting), false, [], [], multiset{}, 0)
  }

  // A waiting worker passes cv_.wait only when stopped or when there is a task.
  predicate Enabled(p: Pool, e: Event) {
    match e
    case Enqueue(_) => true
    case Stop => true
    case Wake(i) => i < |p.workers| && p.workers[i] == Waiting && (p.stop || p.tasks != [])
    case Finish(i) => i < |p.workers| && p.workers[i].Running?
  }

  function Step(p: Pool, e: Event): Pool
    requires Enabled(p, e)
  {
    match e
    case Enqueue(task) => p.(tasks := p.tasks + [task], enqueued := p.enqueued + [task])
    case Stop => p.(stop := true, beforeStop := if p.stop then p.beforeStop else |p.enqueued|)
    case Wake(i) =>
      if p.stop && p.tasks == [] then p.(workers := p.workers[i := Exited])
      else p.(tasks := p.tasks[1..],
              workers := p.workers[i := Running(p.tasks[0])],
              started := p.started + [p.tasks[0]])
    case Finish(i) =>
      p.(workers := p.workers[i := Waiting], finished := p.finished + multiset{p.workers[i].task})
  }

  predicate Legal(p: Pool, events: seq<Event>)
    decreases |events|
  {
    events == [] || (Enabled(p, events[0]) && Legal(Step(p, events[0]), events[1..]))
  }

  function Run(p: Pool, events: seq<Event>): Pool
    requires Legal(p, events)
    decreases |events|
  {
    if events == [] then p else Run(Step(p, events[0]), events[1..])
  }

  // ---- the invariant

  function Carried(w: Worker): multiset<Task> {
    if w.Running? then multiset{w.task} else multiset{}
  }

  function InHand(workers: seq<Worker>): multiset<Task> {
    if workers == [] then multiset{} else InHand(workers[..|workers| - 1]) + Carried(workers[|workers| - 1])
  }

  ghost predicate Inv(p: Pool) {
    && p.enqueued == p.started + p.tasks
    && multiset(p.started) == p.finished + InHand(p.workers)
    && p.beforeStop <= |p.enqueued|
    && (forall i :: 0 <= i < |p.workers| && p.workers[i] == Exited ==> p.stop && |p.started| >= p.beforeStop)
  }

  lemma InHandLast(workers: seq<Worker>, t: Task)
    requires workers != []
    ensures InHand(workers)[t] == InHand(workers[..|workers| - 1])[t] + Carried(workers[|workers| - 1])[t]
  {
  }

  lemma {:induction false} InHandUpdate(workers: seq<Worker>, i: nat, w: Worker, t: Task)
    requires i < |workers|
    ensures InHand(workers[i := w])[t] + Carried(workers[i])[t] == InHand(workers)[t] + Carried(w)[t]
  {
    hide InHand;
    hide Carried;
    var n := |workers| - 1;
    InHandLast(workers, t);
    InHandLast(workers[i := w], t);
    if i == n {
      assert workers[i := w][..n] == workers[..n];
    } else {
      assert workers[i := w][..n] == workers[..n][i := w];
      InHandUpdate(workers[..n], i, w, t);
    }
  }

  lemma {:induction false} InHandIdle(workers: seq<Worker>)
    requires forall i :: 0 <= i < |workers| ==> !workers[i].Running?
    ensures InHand(workers) == multiset{}
  {
    if workers != [] {
      InHandIdle(workers[..|workers| - 1]);
    }
  }

  // Taking and finishing move a task between the bags without losing one.
  lemma StepKeepsTasks(p: Pool, e: Event, t: Task)
    requires Inv(p) && Enabled(p, e)
    ensures var q := Step(p, e); multiset(q.started)[t] == q.finished[t] + InHand(q.workers)[t]
  {
    hide InHand;
    match e {
      case Enqueue(task) =>
      case Stop =>
      case Wake(i) =>
        InHandUpdate(p.workers, i, Step(p, e).workers[i], t);
      case Finish(i) =>
        InHandUpdate(p.workers, i, Waiting, t);
    }
  }

  lemma StepKeepsInv(p: Pool, e: Event)
    requires Inv(p) && Enabled(p, e)
    ensures Inv(Step(p, e))
    ensures |Step(p, e).workers| == |p.workers|
  {
    hide InHand;
    var q := Step(p, e);
    forall t: Task
      ensures multiset(q.started)[t] == (q.finished + InHand(q.workers))[t]
    {
      StepKeepsTasks(p, e, t);
    }
    assert multiset(q.started) == q.finished + InHand(q.workers);
    if e.Wake? && p.tasks != [] {
      assert p.started + [p.tasks[0]] + p.tasks[1..] == p.started + p.tasks;
    }
  }

  lemma {:induction false} RunKeepsInv(p: Pool, events: seq<Event>)
    requires Inv(p) && Legal(p, events)
    ensures Inv(Run(p, events)) && |Run(p, events).workers| == |p.workers|
    decreases |events|
  {
    if events != [] {
      StepKeepsInv(p, events[0]);
      RunKeepsInv(Step(p, events[0]), events[1..]);
    }
  }

  // ---- what every run of a fresh pool guarantees

  // Tasks are taken in the order they were enqueued, and each is run at most once.
  lemma FifoAtMostOnce(n: nat, events: seq<Event>)
    requires Legal(Start(n), events)
    ensures var p := Run(Start(n), events);
      && p.started <= p.enqueued
      && p.finished + InHand(p.workers) == multiset(p.enqueued[..|p.started|])
      && p.enqueued[|p.started|..] == p.tasks
  {
    InHandIdle(Start(n).workers);
    RunKeepsInv(Start(n), events);
    var p := Run(Start(n), events);
    assert p.enqueued[..|p.started|] == p.started;
  }

  // When all workers of a pool that has some have exited, everything enqueued
  // before the stop has been run, exactly once.
  lemma DrainedOnExit(n: nat, events: seq<Event>)
    requires n > 0 && Legal(Start(n), events)
    requires forall i :: 0 <= i < n ==>
               i < |Run(Start(n), events).workers| && Run(Start(n), events).workers[i] == Exited
    ensures var p := Run(Start(n), events);
      && p.stop
      && p.beforeStop <= |p.started| <= |p.enqueued|
      && p.finished == multiset(p.enqueued[..p.beforeStop]) + multiset(p.enqueued[p.beforeStop..|p.started|])
      && (|p.enqueued| == p.beforeStop ==> p.finished == multiset(p.enqueued) && p.tasks == [])
  {
    FifoAtMostOnce(n, events);
    InHandIdle(Start(n).workers);
    RunKeepsInv(Start(n), events);
    var p := Run(Start(n), events);
    InHandIdle(p.workers);
    assert p.workers[0] == Exited;
    var done := p.enqueued[..|p.started|];
    assert done == p.enqueued[..p.beforeStop] + p.enqueued[p.beforeStop..|p.started|];
    if |p.enqueued| == p.beforeStop {
      assert done == p.enqueued;
    }
  }

  // ---- shutdown comes to an end

  // Steps the workers still owe: a task waiting costs two, a task at hand two more
  // with its worker's exit, a waiting worker its exit.
  function Owed(workers: seq<Worker>): nat {
    if workers == [] then 0
    else Owed(workers[..|workers| - 1]) + Cost(workers[|workers| - 1])
  }

  function Cost(w: Worker): nat {
    match w
    case Waiting => 1
    case Running(_) => 2
    case Exited => 0
  }

  lemma {:induction false} OwedUpdate(workers: seq<Worker>, i: nat, w: Worker)
    requires i < |workers|
    ensures Owed(workers[i := w]) + Cost(workers[i]) == Owed(workers) + Cost(w)
  {
    hide Cost;
    var n := |workers| - 1;
    if i == n {
      assert workers[i := w][..n] == workers[..n];
    } else {
      assert workers[i := w][..n] == workers[..n][i := w];
      OwedUpdate(workers[..n], i, w);
    }
  }

  lemma {:induction false} OwedAtMost(workers: seq<Worker>)
    ensures Owed(workers) <= 2 * |workers|
  {
    if workers != [] {
      OwedAtMost(workers[..|workers| - 1]);
    }
  }

  predicate ByWorkers(events: seq<Event>) {
    forall k :: 0 <= k < |events| ==> events[k].Wake? || events[k].Finish?
  }

  lemma WorkerStep(p: Pool, e: Event)
    requires Enabled(p, e) && (e.Wake? || e.Finish?)
    ensures var q := Step(p, e);
      && 2 * |q.tasks| + Owed(q.workers) + 1 == 2 * |p.tasks| + Owed(p.workers)
      && q.stop == p.stop && q.enqueued == p.enqueued && q.beforeStop == p.beforeStop
  {
    OwedUpdate(p.workers, e.i, Step(p, e).workers[e.i]);
    hide Owed;
  }

  lemma {:induction false} WorkerSteps(p: Pool, more: seq<Event>)
    requires Legal(p, more) && ByWorkers(more)
    ensures var q := Run(p, more);
      && |more| + 2 * |q.tasks| + Owed(q.workers) == 2 * |p.tasks| + Owed(p.workers)
      && q.stop == p.stop && q.enqueued == p.enqueued && q.beforeStop == p.beforeStop
    decreases |more|
  {
    hide Step;
    hide Enabled;
    hide Owed;
    if more != [] {
      WorkerStep(p, more[0]);
      WorkerSteps(Step(p, more[0]), more[1..]);
    }
  }

  // Of a stopped pool the workers can take only so many more steps, and they get
  // stuck only when all of them have exited: joining them returns.
  lemma ShutdownEnds(n: nat, events: seq<Event>, more: seq<Event>)
    requires Legal(Start(n), events) && Run(Start(n), events).stop
    requires Legal(Run(Start(n), events), more) && ByWorkers(more)
    ensures |more| <= 2 * |Run(Start(n), events).tasks| + 2 * n
    ensures var q := Run(Run(Start(n), events), more);
      (forall i :: 0 <= i < n ==> !Enabled(q, Event.Wake(i)) && !Enabled(q, Event.Finish(i)))
      <==> (forall i :: 0 <= i < n ==> i < |q.workers| && q.workers[i] == Exited)
  {
    var p := Run(Start(n), events);
    InHandIdle(Start(n).workers);
    RunKeepsInv(Start(n), events);
    RunKeepsInv(p, more);
    OwedAtMost(p.workers);
    WorkerSteps(p, more);
    var q := Run(p, more);
    forall i | 0 <= i < n
      ensures q.workers[i] == Exited <==> !Enabled(q, Event.Wake(i)) && !Enabled(q, Event.Finish(i))
    {
    }
  }

  // ---- the object

  class ThreadPool {
    var tasks: seq<Task>
    var workers: seq<Worker>
    var stop: bool
    ghost var enqueued: seq<Task>
    ghost var started: seq<Task>
    ghost var finished: multiset<Task>
    ghost var beforeStop: nat

    ghost function View(): Pool
      reads this
    {
      Pool(tasks, workers, stop, enqueued, started, finished, beforeStop)
    }

    constructor (n: nat)
      ensures View() == Start(n)
    {
      tasks, workers, stop := [], seq(n, _ => Waiting), false;
      enqueued, started, finished, beforeStop := [], [], multiset{}, 0;
    }

    method Enqueue(task: Task)
      modifies this
      ensures View() == Step(old(View()), Event.Enqueue(task))
    {
      tasks := tasks + [task];
      enqueued := enqueued + [task];
    }

    // The first statement of shutdown; joining is the workers' exits.
    method SetStop()
      modifies this
      ensures View() == Step(old(View()), Stop)
    {
      if !stop {
        beforeStop := |enqueued|;
      }
      stop := true;
    }

    // A worker holding the mutex, once its wait condition is true.
    method Wake(i: nat)
      requires Enabled(View(), Event.Wake(i))
      modifies this
      ensures View() == Step(old(View()), Event.Wake(i))
    {
      if stop && tasks == [] {
        workers := workers[i := Exited];
        return;
      }
      var task := tasks[0];
      tasks := tasks[1..];
      workers := workers[i := Running(task)];
      started := started + [task];
    }

    // task() has returned.
    method Finish(i: nat)
      requires Enabled(View(), Event.Finish(i))
      modifies this
      ensures View() == Step(old(View()), Event.Finish(i))
    {
      finished := finished + multiset{workers[i].task};
      workers := workers[i := Waiting];
    }
  }
}
