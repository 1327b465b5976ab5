/** The task pool of include/thread_pool.h as steps of its threads. A step is one locked section or one
    access to an atomic; a task is a value, and running it is the time a worker spends in `Running`. */
module StdThreadPool {
  import opened Arithmetic
  import opened Summing

  const THREADPOOL_MAX_NUM: nat := 16

  /** A task, known by some number of its own. */
  type Task = nat

  /** Where a worker is in its loop. */
  datatype Worker =
    | Top                // about to test `_run`
    | Wanting            // about to lock and test the condition, first time or woken
    | Checked            // holds the lock, found nothing to do, about to sleep
    | Sleeping           // waits on the condition variable, lock released
    | Took(task: Task)      // has a task, `_idlThrNum` not yet decremented
    | Running(task: Task)   // decremented, runs the task
    | Finishing          // the task is over, `_idlThrNum` not yet incremented
    | Exited

  /** Where a caller of commit is. */
  datatype Producer = Idle | Committing(task: Task) | Pushed

  datatype Pool = Pool(
    toSpawn: nat,             // threads addThread has yet to start
    counting: bool,           // one thread is started and not yet counted as idle
    workers: seq<Worker>,
    producers: seq<Producer>,
    tasks: seq<Task>,
    run: bool,
    notified: bool,           // the destructor has sent its notify_all
    idle: int,                // _idlThrNum
    committed: seq<Task>,  // every task ever queued, in order
    taken: seq<Task>,      // every task ever taken, in order
    finished: seq<Task>,   // every task that ran to its end
    takenAtStop: nat,         // how many were taken when `_run` was cleared
    lateTakes: seq<nat>)      // per worker, tasks taken after that

  datatype Action =
    | Spawn | CountIdle
    | Enter(w: nat) | Look(w: nat) | Block(w: nat) | Spurious(w: nat)
    | Decrement(w: nat) | Finish(w: nat) | Increment(w: nat)
    | Begin(p: nat, task: Task) | Enqueue(p: nat) | Notify(p: nat, w: nat)
    | Clear | NotifyAll

  ghost function Init(size: nat, producers: nat): Pool {
    Pool(size, false, [], seq(producers, i => Idle), [], true, false, 0, [], [], [], 0, [])
  }

  /** The constructor has returned. */
  predicate Built(s: Pool) {
    (s.toSpawn == 0 || |s.workers| >= THREADPOOL_MAX_NUM) && !s.counting
  }

  /** Only a worker that found nothing to do keeps the lock across steps. */
  ghost predicate LockFree(s: Pool) {
    forall w :: 0 <= w < |s.workers| ==> !s.workers[w].Checked?
  }

  ghost predicate SomeSleeping(s: Pool) {
    exists w :: 0 <= w < |s.workers| && s.workers[w].Sleeping?
  }

  ghost predicate Enabled(s: Pool, a: Action) {
    match a
    case Spawn => s.toSpawn > 0 && |s.workers| < THREADPOOL_MAX_NUM && !s.counting
    case CountIdle => s.counting
    case Enter(w) => w < |s.workers| && s.workers[w].Top?
    case Look(w) => w < |s.workers| && s.workers[w].Wanting? && LockFree(s)
    case Block(w) => w < |s.workers| && s.workers[w].Checked?
    case Spurious(w) => w < |s.workers| && s.workers[w].Sleeping?
    case Decrement(w) => w < |s.workers| && s.workers[w].Took?
    case Finish(w) => w < |s.workers| && s.workers[w].Running?
    case Increment(w) => w < |s.workers| && s.workers[w].Finishing?
    case Begin(p, task) => p < |s.producers| && s.producers[p].Idle? && Built(s)
    case Enqueue(p) => p < |s.producers| && s.producers[p].Committing? && LockFree(s)
    case Notify(p, w) => p < |s.producers| && s.producers[p].Pushed? &&
                         (SomeSleeping(s) ==> w < |s.workers| && s.workers[w].Sleeping?)
    case Clear => s.run && Built(s)
    case NotifyAll => !s.run && !s.notified
  }

  function Set(s: Pool, w: nat, pc: Worker): Pool
    requires w < |s.workers|
  {
    s.(workers := s.workers[w := pc])
  }

  function WokenAll(ws: seq<Worker>): (r: seq<Worker>)
    ensures |r| == |ws|
    ensures forall w :: 0 <= w < |ws| ==> r[w] == if ws[w].Sleeping? then Wanting else ws[w]
  {
    if ws == [] then [] else
      WokenAll(ws[..|ws| - 1]) + [if ws[|ws| - 1].Sleeping? then Wanting else ws[|ws| - 1]]
  }

  ghost function Next(s: Pool, a: Action): Pool
    requires Enabled(s, a)
    requires |s.lateTakes| == |s.workers|
  {
    match a
    case Spawn =>
      s.(toSpawn := s.toSpawn - 1, counting := true, workers := s.workers + [Top], lateTakes := s.lateTakes + [0])
    case CountIdle => s.(counting := false, idle := s.idle + 1)
    case Enter(w) => Set(s, w, if s.run then Wanting else Exited)
    case Look(w) =>
      if s.tasks == [] then
        Set(s, w, if s.run then Checked else Exited)
      else
        Set(s, w, Took(s.tasks[0])).(
          tasks := s.tasks[1..],
          taken := s.taken + [s.tasks[0]],
          lateTakes := if s.run then s.lateTakes else s.lateTakes[w := s.lateTakes[w] + 1])
    case Block(w) => Set(s, w, Sleeping)
    case Spurious(w) => Set(s, w, Wanting)
    case Decrement(w) => Set(s, w, Running(s.workers[w].task)).(idle := s.idle - 1)
    case Finish(w) => Set(s, w, Finishing).(finished := s.finished + [s.workers[w].task])
    case Increment(w) => Set(s, w, Top).(idle := s.idle + 1)
    case Begin(p, task) => if s.run then s.(producers := s.producers[p := Committing(task)]) else s
    case Enqueue(p) =>
      s.(producers := s.producers[p := Pushed],
         tasks := s.tasks + [s.producers[p].task],
         committed := s.committed + [s.producers[p].task])
    case Notify(p, w) =>
      var t := s.(producers := s.producers[p := Idle]);
      if w < |s.workers| && s.workers[w].Sleeping? then Set(t, w, Wanting) else t
    case Clear => s.(run := false, takenAtStop := |s.taken|)
    case NotifyAll => s.(notified := true, workers := WokenAll(s.workers))
  }

  /** Every thread can move wherever it is, save a worker or a producer that needs the lock while another worker has
      it; a sleeper may wake for no reason, and a caller may commit any task at any time. */
  lemma ThreadsMayMove(s: Pool, w: nat, p: nat, task: Task)
    ensures w < |s.workers| ==>
              match s.workers[w] {
                case Top => Enabled(s, Enter(w))
                case Wanting => LockFree(s) ==> Enabled(s, Look(w))
                case Checked => Enabled(s, Block(w))
                case Sleeping => Enabled(s, Spurious(w))
                case Took(_) => Enabled(s, Decrement(w))
                case Running(_) => Enabled(s, Finish(w))
                case Finishing => Enabled(s, Increment(w))
                case Exited => true
              }
    ensures p < |s.producers| ==>
              match s.producers[p] {
                case Idle => Built(s) ==> Enabled(s, Begin(p, task))
                case Committing(_) => LockFree(s) ==> Enabled(s, Enqueue(p))
                case Pushed =>
                  if SomeSleeping(s) then w < |s.workers| && s.workers[w].Sleeping? ==> Enabled(s, Notify(p, w))
                  else Enabled(s, Notify(p, w))
              }
    ensures (s.run && Built(s) ==> Enabled(s, Clear)) && (!s.run && !s.notified ==> Enabled(s, NotifyAll))
  {
  }

  /** `actions` leads from `s` to `t`. */
  ghost predicate Steps(s: Pool, actions: seq<Action>, t: Pool)
    decreases |actions|
  {
    if actions == [] then s == t
    else
      var last := actions[|actions| - 1];
      exists m: Pool :: Steps(s, actions[..|actions| - 1], m) && Enabled(m, last)
                           && |m.lateTakes| == |m.workers| && t == Next(m, last)
  }

  /** A state the pool can get into from its construction. */
  ghost predicate Reachable(size: nat, producers: nat, actions: seq<Action>, t: Pool) {
    Steps(Init(size, producers), actions, t)
  }

  // ----- what the threads count for -----

  ghost function Awake(pc: Worker): nat { if pc.Top? || pc.Wanting? then 1 else 0 }
  ghost function Busy(pc: Worker): nat { if pc.Running? || pc.Finishing? then 1 else 0 }
  ghost function Locking(pc: Worker): nat { if pc.Checked? then 1 else 0 }
  ghost function Owing(pc: Producer): nat { if pc.Pushed? then 1 else 0 }
  ghost function Held(pc: Worker): Load<Task> {
    if pc.Took? || pc.Running? then Carries(pc.task) else Free
  }
  ghost function Itself(n: nat): nat { n }

  // ----- the invariant -----

  /** Tasks leave the queue in the order of their commits. */
  ghost predicate TasksOrdered(s: Pool) {
    s.committed == s.taken + s.tasks
  }

  /** Each task taken is held by one worker until it ends. */
  ghost predicate TasksHeld(s: Pool) {
    HandedOn(s.taken, s.finished, s.workers, Held)
  }

  /** The idle counter is the threads counted so far without those between their decrement and increment. */
  ghost predicate IdleCounted(s: Pool) {
    s.idle == |s.workers| - (if s.counting then 1 else 0) - Sum(s.workers, Busy)
  }

  /** With a worker asleep, every queued task has a wakeup or a waking worker to account for it. */
  ghost predicate NoLostWakeup(s: Pool) {
    s.run && SomeSleeping(s) ==> |s.tasks| <= Sum(s.producers, Owing) + Sum(s.workers, Awake)
  }

  /** One worker at a time holds the lock, and then there is nothing to do. */
  ghost predicate LockDiscipline(s: Pool) {
    Sum(s.workers, Locking) <= 1 && (Sum(s.workers, Locking) == 1 ==> s.tasks == [])
  }

  /** A worker that took a task after `_run` was cleared takes no other. */
  ghost predicate LateTakesLimited(s: Pool) {
    && |s.lateTakes| == |s.workers|
    && (s.run ==> !s.notified && forall w :: 0 <= w < |s.workers| ==> s.lateTakes[w] == 0 && !s.workers[w].Exited?)
    && (forall w :: 0 <= w < |s.workers| ==>
          && s.lateTakes[w] <= 1
          && (s.workers[w].Wanting? || s.workers[w].Checked? || s.workers[w].Sleeping? ==> s.lateTakes[w] == 0))
    && (!s.run ==> |s.taken| == s.takenAtStop + Sum(s.lateTakes, Itself))
  }

  ghost predicate PoolBounded(s: Pool, size: nat) {
    |s.workers| + s.toSpawn == size && |s.workers| <= THREADPOOL_MAX_NUM
  }

  ghost predicate Inv(s: Pool, size: nat) {
    && TasksOrdered(s) && TasksHeld(s) && IdleCounted(s)
    && NoLostWakeup(s) && LockDiscipline(s)
    && LateTakesLimited(s) && PoolBounded(s, size)
  }

  // ----- every step keeps it -----

  lemma InitInv(size: nat, producers: nat)
    ensures Inv(Init(size, producers), size)
  {
  }

  lemma LockFreeSum(s: Pool)
    requires LockFree(s)
    ensures Sum(s.workers, Locking) == 0
  {
    SumZero(s.workers, Locking);
  }

  lemma SpawnInv(s: Pool, size: nat)
    requires Inv(s, size) && Enabled(s, Spawn)
    ensures Inv(Next(s, Spawn), size)
  {
    var t := Next(s, Spawn);
    SumAppend(s.workers, Top, Awake);
    SumAppend(s.workers, Top, Busy);
    SumAppend(s.workers, Top, Locking);
    HandsAppend(s.taken, s.finished, s.workers, Top, Held);
    SumAppend(s.lateTakes, 0, Itself);
    if SomeSleeping(t) {
      var w :| 0 <= w < |t.workers| && t.workers[w].Sleeping?;
      assert s.workers[w].Sleeping?;
    }
  }

  /** A step of worker `a.w` on its own. */
  predicate OfWorker(a: Action) {
    a.Enter? || a.Look? || a.Block? || a.Spurious? || a.Decrement? || a.Finish? || a.Increment?
  }

  lemma WorkerTasksHeld(s: Pool, a: Action)
    requires TasksHeld(s) && |s.lateTakes| == |s.workers| && Enabled(s, a) && OfWorker(a)
    ensures TasksHeld(Next(s, a))
  {
    var pc := Next(s, a).workers[a.w];
    if a.Look? && s.tasks != [] {
      HandsTake(s.taken, s.finished, s.workers, a.w, pc, Held);
    } else if a.Finish? {
      HandsDrop(s.taken, s.finished, s.workers, a.w, pc, Held);
    } else {
      HandsSame(s.taken, s.finished, s.workers, a.w, pc, Held);
    }
  }

  lemma WorkerTasksOrdered(s: Pool, a: Action)
    requires TasksOrdered(s) && |s.lateTakes| == |s.workers| && Enabled(s, a) && OfWorker(a)
    ensures TasksOrdered(Next(s, a))
  {
    if a.Look? && s.tasks != [] {
      assert s.tasks == [s.tasks[0]] + s.tasks[1..];
    }
  }

  lemma WorkerIdleCounted(s: Pool, a: Action)
    requires IdleCounted(s) && |s.lateTakes| == |s.workers| && Enabled(s, a) && OfWorker(a)
    ensures IdleCounted(Next(s, a))
  {
    var t := Next(s, a);
    var pc := t.workers[a.w];
    assert t.idle - s.idle == Busy(s.workers[a.w]) - Busy(pc);
    assert t.workers == s.workers[a.w := pc] && t.counting == s.counting;
    SumUpdate(s.workers, a.w, pc, Busy);
  }

  lemma WorkerLockDiscipline(s: Pool, a: Action)
    requires LockDiscipline(s) && |s.lateTakes| == |s.workers| && Enabled(s, a) && OfWorker(a)
    ensures LockDiscipline(Next(s, a))
  {
    SumUpdate(s.workers, a.w, Next(s, a).workers[a.w], Locking);
    if a.Look? {
      SumZero(s.workers, Locking);
    }
  }

  /** A worker that does not fall asleep loses no wakeup if it looks no less than it did, or takes a task. */
  lemma OthersSleep(s: Pool, t: Pool, w: nat, pc: Worker)
    requires NoLostWakeup(s) && w < |s.workers| && !pc.Sleeping?
    requires t.workers == s.workers[w := pc] && t.producers == s.producers
    requires t.run ==> s.run && (t.tasks == [] || |t.tasks| + Awake(s.workers[w]) <= |s.tasks| + Awake(pc))
    ensures NoLostWakeup(t)
  {
    SumUpdate(s.workers, w, pc, Awake);
    if SomeSleeping(t) {
      var v :| 0 <= v < |t.workers| && t.workers[v].Sleeping?;
      assert s.workers[v].Sleeping?;
    }
  }

  lemma WorkerNoLostWakeup(s: Pool, a: Action)
    requires NoLostWakeup(s) && LockDiscipline(s) && |s.lateTakes| == |s.workers| && Enabled(s, a) && OfWorker(a)
    ensures NoLostWakeup(Next(s, a))
  {
    if a.Block? {
      SumMember(s.workers, a.w, Locking);
      assert Next(s, a).tasks == [];
    } else {
      OthersSleep(s, Next(s, a), a.w, Next(s, a).workers[a.w]);
    }
  }

  lemma LookLateTakes(s: Pool, w: nat)
    requires LateTakesLimited(s) && Enabled(s, Look(w))
    ensures LateTakesLimited(Next(s, Look(w)))
  {
    if s.tasks != [] && !s.run {
      SumUpdate(s.lateTakes, w, s.lateTakes[w] + 1, Itself);
    }
  }

  lemma WorkerLateTakes(s: Pool, a: Action)
    requires LateTakesLimited(s) && Enabled(s, a) && OfWorker(a)
    ensures LateTakesLimited(Next(s, a))
  {
    if a.Look? {
      LookLateTakes(s, a.w);
    } else {
      var t := Next(s, a);
      assert t.lateTakes == s.lateTakes && t.taken == s.taken && t.takenAtStop == s.takenAtStop && t.run == s.run;
      assert forall v :: 0 <= v < |t.workers| ==> v == a.w || t.workers[v] == s.workers[v];
    }
  }

  lemma WorkerStepInv(s: Pool, a: Action, size: nat)
    requires Inv(s, size) && Enabled(s, a) && OfWorker(a)
    ensures Inv(Next(s, a), size)
  {
    WorkerTasksOrdered(s, a);
    WorkerTasksHeld(s, a);
    WorkerIdleCounted(s, a);
    WorkerLockDiscipline(s, a);
    WorkerNoLostWakeup(s, a);
    WorkerLateTakes(s, a);
  }

  lemma ProducerStepInv(s: Pool, a: Action, size: nat)
    requires Inv(s, size) && Enabled(s, a)
    requires a.Begin? || a.Enqueue?
    ensures Inv(Next(s, a), size)
  {
    var t := Next(s, a);
    SumUpdate(s.producers, a.p, t.producers[a.p], Owing);
    if a.Begin? {
      assert s.producers[a.p := s.producers[a.p]] == s.producers;
    } else {
      LockFreeSum(s);
    }
  }

  lemma NotifyWake(s: Pool, p: nat, w: nat)
    requires NoLostWakeup(s) && |s.lateTakes| == |s.workers| && Enabled(s, Notify(p, w))
    ensures NoLostWakeup(Next(s, Notify(p, w)))
  {
    SumUpdate(s.producers, p, Idle, Owing);
    if w < |s.workers| && s.workers[w].Sleeping? {
      SumUpdate(s.workers, w, Wanting, Awake);
      assert SomeSleeping(s);
    }
  }

  /** A wakeup handed over is a wakeup still accounted for. */
  lemma NotifyInv(s: Pool, p: nat, w: nat, size: nat)
    requires Inv(s, size) && Enabled(s, Notify(p, w))
    ensures Inv(Next(s, Notify(p, w)), size)
  {
    NotifyWake(s, p, w);
    if w < |s.workers| && s.workers[w].Sleeping? {
      SumUpdate(s.workers, w, Wanting, Busy);
      SumUpdate(s.workers, w, Wanting, Locking);
      HandsSame(s.taken, s.finished, s.workers, w, Wanting, Held);
    }
    NotifyLateTakes(s, p, w);
  }

  lemma NotifyLateTakes(s: Pool, p: nat, w: nat)
    requires LateTakesLimited(s) && Enabled(s, Notify(p, w))
    ensures LateTakesLimited(Next(s, Notify(p, w)))
  {
  }

  lemma {:induction false} WokenAllKeeps(ws: seq<Worker>)
    ensures Sum(WokenAll(ws), Busy) == Sum(ws, Busy)
    ensures Sum(WokenAll(ws), Locking) == Sum(ws, Locking)
    ensures forall u :: Carrying(WokenAll(ws), Held, u) == Carrying(ws, Held, u)
  {
    if ws == [] {
    } else {
      var r := WokenAll(ws);
      assert r[..|r| - 1] == WokenAll(ws[..|ws| - 1]);
      WokenAllKeeps(ws[..|ws| - 1]);
    }
  }

  lemma ClearInv(s: Pool, size: nat)
    requires Inv(s, size) && Enabled(s, Clear)
    ensures Inv(Next(s, Clear), size)
  {
    SumZero(s.lateTakes, Itself);
  }

  lemma NotifyAllInv(s: Pool, size: nat)
    requires Inv(s, size) && Enabled(s, NotifyAll)
    ensures Inv(Next(s, NotifyAll), size)
  {
    WokenAllKeeps(s.workers);
    NotifyAllWakes(s);
    NotifyAllLateTakes(s);
  }

  lemma NotifyAllWakes(s: Pool)
    requires Enabled(s, NotifyAll) && |s.lateTakes| == |s.workers|
    ensures NoLostWakeup(Next(s, NotifyAll))
  {
  }

  lemma NotifyAllLateTakes(s: Pool)
    requires LateTakesLimited(s) && Enabled(s, NotifyAll)
    ensures LateTakesLimited(Next(s, NotifyAll))
  {
  }

  lemma StepInv(s: Pool, a: Action, size: nat)
    requires Inv(s, size) && Enabled(s, a)
    ensures Inv(Next(s, a), size)
  {
    match a {
      case Spawn => SpawnInv(s, size);
      case CountIdle =>
      case Begin(_, _) => ProducerStepInv(s, a, size);
      case Enqueue(_) => ProducerStepInv(s, a, size);
      case Notify(p, w) => NotifyInv(s, p, w, size);
      case Clear => ClearInv(s, size);
      case NotifyAll => NotifyAllInv(s, size);
      case _ => WorkerStepInv(s, a, size);
    }
  }

  lemma {:induction false} ReachableInv(size: nat, producers: nat, actions: seq<Action>, t: Pool)
    requires Reachable(size, producers, actions, t)
    ensures Inv(t, size)
    decreases |actions|
  {
    if actions == [] {
      InitInv(size, producers);
    } else {
      var last := actions[|actions| - 1];
      var m: Pool :| Steps(Init(size, producers), actions[..|actions| - 1], m) && Enabled(m, last)
                     && |m.lateTakes| == |m.workers| && t == Next(m, last);
      ReachableInv(size, producers, actions[..|actions| - 1], m);
      StepInv(m, last, size);
    }
  }

  // ----- what it means -----

  /** In every reachable state: with a worker asleep while the pool runs, the queued tasks are no more than
      the producers that still owe a wakeup and the workers on their way to look. */
  lemma NoWakeupIsLost(size: nat, producers: nat, actions: seq<Action>, t: Pool, w: nat)
    requires Reachable(size, producers, actions, t)
    requires t.run && w < |t.workers| && t.workers[w].Sleeping?
    ensures |t.tasks| <= Sum(t.producers, Owing) + Sum(t.workers, Awake)
    ensures t.tasks != [] ==>
              || (exists p :: 0 <= p < |t.producers| && t.producers[p].Pushed?)
              || (exists v :: 0 <= v < |t.workers| && (t.workers[v].Top? || t.workers[v].Wanting?))
  {
    ReachableInv(size, producers, actions, t);
    if t.tasks != [] {
      if Sum(t.producers, Owing) > 0 {
        var p := SumWitness(t.producers, Owing);
      } else {
        var v := SumWitness(t.workers, Awake);
      }
    }
  }

  /** In every reachable state: tasks were taken in commit order, none twice; every one taken is finished or
      with a worker; the idle counter is right once the constructor is done; the pool is no larger than asked
      for and no larger than 16. */
  lemma PoolAccounts(size: nat, producers: nat, actions: seq<Action>, t: Pool)
    requires Reachable(size, producers, actions, t)
    ensures t.committed == t.taken + t.tasks
    ensures forall task :: multiset(t.taken)[task] == multiset(t.finished)[task] + Carrying(t.workers, Held, task)
    ensures Built(t) ==> t.idle == |t.workers| - Sum(t.workers, Busy)
    ensures Built(t) ==> |t.workers| == (if size < 16 then size else 16)
  {
    ReachableInv(size, producers, actions, t);
  }

  /** Once `_run` is cleared, no worker takes more than one further task, so no more than
      min(size, 16) further tasks start. */
  lemma FewLateTasks(size: nat, producers: nat, actions: seq<Action>, t: Pool)
    requires Reachable(size, producers, actions, t) && !t.run
    ensures |t.lateTakes| == |t.workers| && forall w :: 0 <= w < |t.workers| ==> t.lateTakes[w] <= 1
    ensures |t.taken| - t.takenAtStop == Sum(t.lateTakes, Itself)
    ensures |t.taken| - t.takenAtStop <= (if size < 16 then size else 16)
  {
    ReachableInv(size, producers, actions, t);
    SumBound(t.lateTakes, Itself, 1);
  }

  /** What a worker has taken and not finished. */
  ghost function InHand(ws: seq<Worker>): seq<Task>
    requires |ws| <= 1
  {
    if ws == [] || Held(ws[0]).Free? then [] else [Held(ws[0]).item]
  }

  lemma OneWorkerTurns(s: Pool, a: Action)
    requires |s.workers| == 1 && |s.lateTakes| == |s.workers| && Enabled(s, a) && OfWorker(a)
    requires s.taken == s.finished + InHand(s.workers)
    ensures var t := Next(s, a);
            |t.workers| == 1 && t.toSpawn == s.toSpawn && t.taken == t.finished + InHand(t.workers)
  {
    assert s.finished + [] == s.finished;
    if a.Finish? {
      var task := s.workers[0].task;
      assert (s.finished + [task]) + [] == s.finished + [task];
    }
  }

  lemma OneWorkerWoken(s: Pool, a: Action)
    requires |s.workers| + s.toSpawn <= 1 && |s.lateTakes| == |s.workers| && Enabled(s, a) && !OfWorker(a)
    ensures var t := Next(s, a);
            && |t.workers| + t.toSpawn <= 1 && t.taken == s.taken && t.finished == s.finished
            && InHand(t.workers) == InHand(s.workers)
  {
    if a.NotifyAll? && s.workers != [] {
      assert Next(s, a).workers == [if s.workers[0].Sleeping? then Wanting else s.workers[0]];
    }
  }

  lemma OneWorkerStep(s: Pool, a: Action)
    requires |s.workers| + s.toSpawn <= 1 && |s.lateTakes| == |s.workers| && Enabled(s, a)
    requires s.taken == s.finished + InHand(s.workers)
    ensures var t := Next(s, a);
            |t.workers| + t.toSpawn <= 1 && t.taken == t.finished + InHand(t.workers)
  {
    if OfWorker(a) {
      assert s.workers != [];
      OneWorkerTurns(s, a);
    } else {
      OneWorkerWoken(s, a);
    }
  }

  /** A pool of one thread finishes its tasks in the order of their commits. */
  lemma {:induction false} OneWorkerInOrder(producers: nat, actions: seq<Action>, t: Pool)
    requires Reachable(1, producers, actions, t)
    ensures |t.workers| + t.toSpawn <= 1 && t.committed == t.finished + InHand(t.workers) + t.tasks
    ensures t.taken == t.finished + InHand(t.workers)
    decreases |actions|
  {
    if actions == [] {
    } else {
      var last := actions[|actions| - 1];
      var m: Pool :| Steps(Init(1, producers), actions[..|actions| - 1], m) && Enabled(m, last)
                     && |m.lateTakes| == |m.workers| && t == Next(m, last);
      OneWorkerInOrder(producers, actions[..|actions| - 1], m);
      OneWorkerStep(m, last);
      ReachableInv(1, producers, actions, t);
    }
  }

  // ----- the pool gets its work done -----

  /** A step the threads take by themselves: no new call, no spurious wakeup, no shutdown. */
  predicate Productive(a: Action) {
    !a.Spurious? && !a.Begin? && !a.Clear? && !a.NotifyAll?
  }

  ghost predicate Stuck(s: Pool) {
    forall a :: Productive(a) ==> !Enabled(s, a)
  }

  ghost function WorkerRank(pc: Worker): nat {
    match pc
    case Took(_) => 6 case Running(_) => 5 case Finishing => 4
    case Top => 3 case Wanting => 2 case Checked => 1 case Sleeping => 0 case Exited => 0
  }
  ghost function ProducerRank(pc: Producer): nat {
    match pc case Committing(_) => 9 case Pushed => 3 case Idle => 0
  }

  ghost function Rank(s: Pool): nat {
    6 * s.toSpawn + (if s.counting then 1 else 0)
    + 5 * |s.tasks| + Sum(s.workers, WorkerRank) + Sum(s.producers, ProducerRank)
  }

  lemma LookRank(s: Pool, w: nat)
    requires Enabled(s, Look(w)) && |s.lateTakes| == |s.workers|
    ensures Rank(Next(s, Look(w))) < Rank(s)
  {
    SumUpdate(s.workers, w, Next(s, Look(w)).workers[w], WorkerRank);
  }

  lemma WorkerStepRank(s: Pool, a: Action)
    requires Enabled(s, a) && OfWorker(a) && !a.Look? && !a.Spurious? && |s.lateTakes| == |s.workers|
    ensures Rank(Next(s, a)) < Rank(s)
  {
    var t := Next(s, a);
    assert t.toSpawn == s.toSpawn && t.counting == s.counting && t.tasks == s.tasks && t.producers == s.producers;
    assert WorkerRank(t.workers[a.w]) < WorkerRank(s.workers[a.w]);
    SumUpdate(s.workers, a.w, t.workers[a.w], WorkerRank);
  }

  /** Every productive step brings the threads closer to rest, so they cannot go on forever. */
  lemma ProductiveRank(s: Pool, a: Action)
    requires Enabled(s, a) && Productive(a) && |s.lateTakes| == |s.workers|
    ensures Rank(Next(s, a)) < Rank(s)
  {
    match a {
      case Spawn => SumAppend(s.workers, Top, WorkerRank);
      case CountIdle =>
      case Enqueue(p) => SumUpdate(s.producers, p, Pushed, ProducerRank);
      case Notify(p, w) =>
        SumUpdate(s.producers, p, Idle, ProducerRank);
        if w < |s.workers| && s.workers[w].Sleeping? {
          SumUpdate(s.workers, w, Wanting, WorkerRank);
        }
      case Look(w) => LookRank(s, w);
      case _ => WorkerStepRank(s, a);
    }
  }

  lemma PickSleeping(s: Pool) returns (w: nat)
    ensures SomeSleeping(s) ==> w < |s.workers| && s.workers[w].Sleeping?
  {
    w := 0;
    if SomeSleeping(s) {
      w :| 0 <= w < |s.workers| && s.workers[w].Sleeping?;
    }
  }

  lemma PickChecked(s: Pool) returns (w: nat)
    ensures !LockFree(s) ==> w < |s.workers| && s.workers[w].Checked?
  {
    w := 0;
    if !LockFree(s) {
      w :| 0 <= w < |s.workers| && s.workers[w].Checked?;
    }
  }

  lemma StuckWorkers(s: Pool, size: nat)
    requires Inv(s, size) && Stuck(s)
    ensures forall w :: 0 <= w < |s.workers| ==> s.workers[w].Sleeping? || s.workers[w].Exited?
  {
    forall w | 0 <= w < |s.workers| ensures s.workers[w].Sleeping? || s.workers[w].Exited? {
      assert !Enabled(s, Enter(w)) && !Enabled(s, Block(w)) && !Enabled(s, Look(w));
      assert !Enabled(s, Decrement(w)) && !Enabled(s, Finish(w)) && !Enabled(s, Increment(w));
      var v := PickChecked(s);
      assert !Enabled(s, Block(v));
    }
  }

  lemma StuckProducers(s: Pool, size: nat)
    requires Inv(s, size) && Stuck(s)
    ensures forall p :: 0 <= p < |s.producers| ==> s.producers[p].Idle?
  {
    StuckWorkers(s, size);
    forall p | 0 <= p < |s.producers| ensures s.producers[p].Idle? {
      assert !Enabled(s, Enqueue(p));
      var w := PickSleeping(s);
      assert !Enabled(s, Notify(p, w));
    }
  }

  /** Every task committed has run to its end, exactly as often as it was committed. */
  ghost predicate AllDone(t: Pool) {
    t.tasks == [] && multiset(t.finished) == multiset(t.committed)
  }

  lemma SleepersAreDone(t: Pool, size: nat)
    requires Inv(t, size) && t.run && Stuck(t) && size > 0
    ensures AllDone(t) && t.idle == |t.workers| == (if size < 16 then size else 16)
  {
    StuckWorkers(t, size);
    StuckProducers(t, size);
    assert !Enabled(t, Spawn) && !Enabled(t, CountIdle);
    assert t.workers[0].Sleeping?;
    SumZero(t.workers, Awake);
    SumZero(t.producers, Owing);
    SumZero(t.workers, Busy);
    forall task ensures Carrying(t.workers, Held, task) == 0 {
      CarryingNone(t.workers, Held, task);
    }
    assert t.committed == t.taken;
    assert forall task :: multiset(t.finished)[task] == multiset(t.committed)[task];
  }

  lemma {:induction false} NothingTaken(producers: nat, actions: seq<Action>, t: Pool)
    requires Reachable(0, producers, actions, t)
    ensures t.workers == [] && t.toSpawn == t.idle == 0 && !t.counting && t.taken == t.finished == []
    decreases |actions|
  {
    if actions == [] {
    } else {
      var last := actions[|actions| - 1];
      var m: Pool :| Steps(Init(0, producers), actions[..|actions| - 1], m) && Enabled(m, last)
                     && |m.lateTakes| == |m.workers| && t == Next(m, last);
      NothingTaken(producers, actions[..|actions| - 1], m);
      assert WokenAll([]) == [];
    }
  }

  /** A running pool with at least one thread comes to rest only when every task is done and every thread idle; one
      without threads has done nothing. */
  lemma RestMeansDone(size: nat, producers: nat, actions: seq<Action>, t: Pool)
    requires Reachable(size, producers, actions, t) && t.run && Stuck(t)
    ensures t.idle == |t.workers| == (if size < 16 then size else 16)
    ensures if size > 0 then AllDone(t) else t.finished == [] && t.tasks == t.committed
  {
    hide Reachable, Inv, Stuck, AllDone;
    ReachableInv(size, producers, actions, t);
    if size > 0 {
      SleepersAreDone(t, size);
    } else {
      NothingTaken(producers, actions, t);
      PoolAccounts(size, producers, actions, t);
      assert [] + t.tasks == t.tasks;
    }
  }

  ghost predicate RestIsAlwaysDone(size: nat, producers: nat) {
    forall actions, t :: Reachable(size, producers, actions, t) && t.run && Stuck(t) ==> AllDone(t)
  }

  /** The constructor accepts a size of 0, and that is the one size with which a task may be left behind. */
  lemma DoneExactlyWithThreads(size: nat, producers: nat)
    requires producers > 0
    ensures RestIsAlwaysDone(size, producers) <==> size > 0
  {
    if size > 0 {
      forall actions, t | Reachable(size, producers, actions, t) && t.run && Stuck(t) ensures AllDone(t) {
        RestMeansDone(size, producers, actions, t);
      }
    } else {
      var actions, t := TaskLeftBehind(producers);
    }
  }

  lemma NoThreadsRest(t: Pool)
    requires t.workers == [] && t.toSpawn == 0 && !t.counting
    requires forall p :: 0 <= p < |t.producers| ==> t.producers[p].Idle?
    ensures Stuck(t)
  {
  }

  lemma TaskLeftBehind(producers: nat) returns (actions: seq<Action>, t: Pool)
    requires producers > 0
    ensures Reachable(0, producers, actions, t) && t.run && Stuck(t) && !AllDone(t)
  {
    var s0 := Init(0, producers);
    var s1 := Next(s0, Begin(0, 7));
    var s2 := Next(s1, Enqueue(0));
    t := Next(s2, Notify(0, 0));
    var idle := seq(producers, i => Producer.Idle);
    assert t == s0.(tasks := [7], committed := [7]) by {
      assert t.producers == idle;
    }
    NoThreadsRest(t);
    actions := LeftBehindSteps(s0, s1, s2, t);
  }

  lemma LeftBehindSteps(s0: Pool, s1: Pool, s2: Pool, t: Pool) returns (actions: seq<Action>)
    requires Enabled(s0, Begin(0, 7)) && |s0.lateTakes| == |s0.workers| && s1 == Next(s0, Begin(0, 7))
    requires Enabled(s1, Enqueue(0)) && |s1.lateTakes| == |s1.workers| && s2 == Next(s1, Enqueue(0))
    requires Enabled(s2, Notify(0, 0)) && |s2.lateTakes| == |s2.workers| && t == Next(s2, Notify(0, 0))
    ensures Steps(s0, actions, t)
  {
    assert Steps(s0, [], s0);
    hide *;
    StepsExtend(s0, [], s0, Begin(0, 7));
    StepsExtend(s0, [] + [Begin(0, 7)], s1, Enqueue(0));
    StepsExtend(s0, [] + [Begin(0, 7)] + [Enqueue(0)], s2, Notify(0, 0));
    actions := [] + [Begin(0, 7)] + [Enqueue(0)] + [Notify(0, 0)];
  }

  lemma StepsExtend(s: Pool, actions: seq<Action>, m: Pool, a: Action)
    requires Steps(s, actions, m) && Enabled(m, a) && |m.lateTakes| == |m.workers|
    ensures Steps(s, actions + [a], Next(m, a))
  {
    assert (actions + [a])[..|actions|] == actions;
  }

  ghost predicate AllProductive(actions: seq<Action>) {
    forall k :: 0 <= k < |actions| ==> Productive(actions[k])
  }

  /** Left to themselves the threads come to rest after a bounded number of steps. */
  lemma {:induction false} RestIsNear(s: Pool, actions: seq<Action>, t: Pool)
    requires Steps(s, actions, t) && AllProductive(actions)
    ensures |actions| + Rank(t) <= Rank(s)
    decreases |actions|
  {
    if actions == [] {
    } else {
      var front, last := actions[..|actions| - 1], actions[|actions| - 1];
      var m: Pool :| Steps(s, front, m) && Enabled(m, last) && |m.lateTakes| == |m.workers| && t == Next(m, last);
      RestIsNear(s, front, m);
      ProductiveRank(m, last);
    }
  }

  // ----- shutdown -----

  /** A schedule, of any steps, after which no thread can go on by itself. */
  ghost predicate ComesToRest(s: Pool, actions: seq<Action>, t: Pool) {
    Steps(s, actions, t) && Stuck(t)
  }

  ghost predicate AllExited(t: Pool) {
    forall w :: 0 <= w < |t.workers| ==> t.workers[w].Exited?
  }

  ghost predicate ProducersIdle(s: Pool) {
    forall p :: 0 <= p < |s.producers| ==> s.producers[p].Idle?
  }

  ghost predicate SomeCommitting(s: Pool) {
    exists p :: 0 <= p < |s.producers| && s.producers[p].Committing?
  }

  /** A worker that waits or is about to. */
  ghost function Waits(pc: Worker): nat { if pc.Checked? || pc.Sleeping? then 1 else 0 }

  /** After the stop at most one worker waits, and some producer is still to notify it: one that has yet to queue
      its task if the worker is about to sleep, one that has queued it or not if the worker sleeps. */
  ghost predicate WaiterWoken(s: Pool) {
    && !s.run && s.notified && Sum(s.workers, Waits) <= 1
    && (!LockFree(s) ==> SomeCommitting(s))
    && (SomeSleeping(s) ==> SomeCommitting(s) || !ProducersIdle(s))
  }

  lemma NobodyWaits(s: Pool)
    requires Sum(s.workers, Waits) == 0
    ensures LockFree(s) && !SomeSleeping(s)
  {
    forall w | 0 <= w < |s.workers| ensures !s.workers[w].Checked? && !s.workers[w].Sleeping? {
      SumMember(s.workers, w, Waits);
    }
  }

  lemma BlockWaiterWoken(s: Pool, w: nat)
    requires WaiterWoken(s) && |s.lateTakes| == |s.workers| && Enabled(s, Block(w))
    ensures WaiterWoken(Next(s, Block(w)))
  {
    SumUpdate(s.workers, w, Sleeping, Waits);
    assert !LockFree(s);
  }

  /** After the stop no other step of a worker makes it wait, nor does a spurious wakeup. */
  lemma WorkerWaiterWoken(s: Pool, a: Action)
    requires WaiterWoken(s) && |s.lateTakes| == |s.workers| && Enabled(s, a)
    requires OfWorker(a) && !a.Block?
    ensures WaiterWoken(Next(s, a))
  {
    var pc := Next(s, a).workers[a.w];
    assert !pc.Checked? && !pc.Sleeping?;
    OneStopsWaiting(s, Next(s, a), a.w, pc);
  }

  lemma OneStopsWaiting(s: Pool, t: Pool, w: nat, pc: Worker)
    requires WaiterWoken(s) && w < |s.workers| && !pc.Checked? && !pc.Sleeping?
    requires t.workers == s.workers[w := pc] && t.producers == s.producers && !t.run && t.notified
    ensures WaiterWoken(t)
  {
    SumUpdate(s.workers, w, pc, Waits);
    if !LockFree(t) {
      var v :| 0 <= v < |t.workers| && t.workers[v].Checked?;
      assert s.workers[v].Checked?;
    }
    if SomeSleeping(t) {
      var v :| 0 <= v < |t.workers| && t.workers[v].Sleeping?;
      assert s.workers[v].Sleeping?;
    }
  }

  lemma EnqueueWaiterWoken(s: Pool, p: nat)
    requires WaiterWoken(s) && |s.lateTakes| == |s.workers| && Enabled(s, Enqueue(p))
    ensures WaiterWoken(Next(s, Enqueue(p)))
  {
    var t := Next(s, Enqueue(p));
    assert t.workers == s.workers && t.producers[p].Pushed?;
  }

  lemma NotifyWaiterWoken(s: Pool, p: nat, w: nat)
    requires WaiterWoken(s) && |s.lateTakes| == |s.workers| && Enabled(s, Notify(p, w))
    ensures WaiterWoken(Next(s, Notify(p, w)))
  {
    var t := Next(s, Notify(p, w));
    if SomeSleeping(s) {
      SumUpdate(s.workers, w, Wanting, Waits);
      NobodyWaits(t);
    } else if !LockFree(s) {
      var q :| 0 <= q < |s.producers| && s.producers[q].Committing?;
      assert t.producers[q].Committing?;
    }
  }

  lemma SpawnWaiterWoken(s: Pool)
    requires WaiterWoken(s) && |s.lateTakes| == |s.workers| && Enabled(s, Spawn)
    ensures WaiterWoken(Next(s, Spawn))
  {
    var t := Next(s, Spawn);
    SumAppend(s.workers, Top, Waits);
    assert t.producers == s.producers;
    if !LockFree(t) {
      var v :| 0 <= v < |t.workers| && t.workers[v].Checked?;
      assert s.workers[v].Checked?;
    }
    if SomeSleeping(t) {
      var v :| 0 <= v < |t.workers| && t.workers[v].Sleeping?;
      assert s.workers[v].Sleeping?;
    }
  }

  lemma RefusedChangesNothing(s: Pool, p: nat, task: Task)
    requires !s.run && |s.lateTakes| == |s.workers| && Enabled(s, Begin(p, task))
    ensures Next(s, Begin(p, task)) == s
  {
  }

  lemma StepWaiterWoken(s: Pool, a: Action)
    requires WaiterWoken(s) && |s.lateTakes| == |s.workers| && Enabled(s, a)
    ensures WaiterWoken(Next(s, a))
  {
    match a {
      case Spawn => SpawnWaiterWoken(s);
      case CountIdle =>
      case Enqueue(p) => EnqueueWaiterWoken(s, p);
      case Notify(p, w) => NotifyWaiterWoken(s, p, w);
      case Block(w) => BlockWaiterWoken(s, w);
      case Begin(p, task) => RefusedChangesNothing(s, p, task);
      case Clear =>
      case NotifyAll =>
      case _ => WorkerWaiterWoken(s, a);
    }
  }

  lemma {:induction false} WaiterWokenLater(s: Pool, actions: seq<Action>, t: Pool, size: nat)
    requires Steps(s, actions, t)
    requires Inv(s, size) && WaiterWoken(s)
    ensures Inv(t, size) && WaiterWoken(t)
    decreases |actions|
  {
    if actions == [] {
    } else {
      var front, last := actions[..|actions| - 1], actions[|actions| - 1];
      var m: Pool :| Steps(s, front, m) && Enabled(m, last) && |m.lateTakes| == |m.workers| && t == Next(m, last);
      WaiterWokenLater(s, front, m, size);
      StepWaiterWoken(m, last);
      StepInv(m, last, size);
    }
  }

  lemma {:induction false} WokenAllWaits(ws: seq<Worker>)
    ensures Sum(WokenAll(ws), Waits) == Sum(ws, Locking)
  {
    if ws == [] {
    } else {
      var r := WokenAll(ws);
      assert r[..|r| - 1] == WokenAll(ws[..|ws| - 1]);
      WokenAllWaits(ws[..|ws| - 1]);
    }
  }

  lemma NotifyAllWaiterWoken(s: Pool)
    requires LockDiscipline(s) && |s.lateTakes| == |s.workers| && Enabled(s, NotifyAll)
    requires LockFree(s) || SomeCommitting(s)
    ensures WaiterWoken(Next(s, NotifyAll))
  {
    var t := Next(s, NotifyAll);
    WokenAllWaits(s.workers);
    assert t.producers == s.producers;
    assert forall w :: 0 <= w < |t.workers| ==> !t.workers[w].Sleeping?;
  }

  /** A sleeper stays asleep when nobody is left to wake it. */
  lemma SleeperStays(s: Pool, a: Action, w: nat)
    requires Enabled(s, a) && Productive(a) && |s.lateTakes| == |s.workers|
    requires ProducersIdle(s) && w < |s.workers| && s.workers[w].Sleeping?
    ensures var t := Next(s, a); ProducersIdle(t) && w < |t.workers| && t.workers[w].Sleeping?
  {
  }

  lemma Unstuck(s: Pool) returns (a: Action)
    requires !Stuck(s)
    ensures Productive(a) && Enabled(s, a)
  {
    a :| Productive(a) && Enabled(s, a);
  }

  /** One way to go on and come to rest, with the sleeper still asleep. */
  lemma SleepOn(start: Pool, prefix: seq<Action>, s: Pool, w: nat, size: nat) returns (actions: seq<Action>, t: Pool)
    requires Steps(start, prefix, s) && AllProductive(prefix)
    requires Inv(s, size) && ProducersIdle(s) && w < |s.workers| && s.workers[w].Sleeping?
    ensures ComesToRest(start, actions, t) && AllProductive(actions) && w < |t.workers| && t.workers[w].Sleeping?
    decreases Rank(s)
  {
    hide Enabled, Next, Steps, Stuck, Rank;
    if Stuck(s) {
      actions, t := prefix, s;
    } else {
      var a := Unstuck(s);
      ProductiveRank(s, a);
      StepInv(s, a, size);
      SleeperStays(s, a, w);
      StepsExtend(start, prefix, s, a);
      actions, t := SleepOn(start, prefix + [a], Next(s, a), w, size);
    }
  }

  lemma Released(s: Pool, size: nat, later: seq<Action>, t: Pool)
    requires Inv(s, size) && Enabled(s, NotifyAll) && (LockFree(s) || SomeCommitting(s))
    requires ComesToRest(Next(s, NotifyAll), later, t)
    ensures AllExited(t)
  {
    StepInv(s, NotifyAll, size);
    NotifyAllWaiterWoken(s);
    WaiterWokenLater(Next(s, NotifyAll), later, t, size);
    StuckWorkers(t, size);
    StuckProducers(t, size);
  }

  /** A worker that has found nothing to do goes to sleep and is never woken. */
  lemma AsleepAfterBlock(start: Pool, prefix: seq<Action>, s: Pool, w: nat, size: nat)
    returns (actions: seq<Action>, t: Pool)
    requires Steps(start, prefix, s) && AllProductive(prefix)
    requires Inv(s, size) && ProducersIdle(s) && w < |s.workers| && s.workers[w].Checked?
    ensures ComesToRest(start, actions, t) && AllProductive(actions) && !AllExited(t)
  {
    StepInv(s, Block(w), size);
    StepsExtend(start, prefix, s, Block(w));
    actions, t := SleepOn(start, prefix + [Block(w)], Next(s, Block(w)), w, size);
  }

  lemma UnheardStep(s: Pool, p: nat, w: nat)
    requires |s.lateTakes| == |s.workers| && !SomeSleeping(s) && !SomeCommitting(s)
    requires p < |s.producers| && s.producers[p].Pushed? && w < |s.workers| && s.workers[w].Checked?
    ensures Enabled(s, Notify(p, w))
    ensures var t := Next(s, Notify(p, w)); t.workers == s.workers && !SomeSleeping(t) && !SomeCommitting(t)
  {
    var t := Next(s, Notify(p, w));
    assert forall q :: 0 <= q < |s.producers| && t.producers[q].Committing? ==> s.producers[q].Committing?;
  }

  lemma PickPushed(s: Pool) returns (p: nat)
    requires !ProducersIdle(s) && !SomeCommitting(s)
    ensures p < |s.producers| && s.producers[p].Pushed?
  {
    p :| 0 <= p < |s.producers| && !s.producers[p].Idle?;
  }

  /** Producers that have queued their tasks may all notify while nobody sleeps yet. */
  lemma AsleepUnheard(start: Pool, prefix: seq<Action>, s: Pool, w: nat, size: nat)
    returns (actions: seq<Action>, t: Pool)
    requires Steps(start, prefix, s) && AllProductive(prefix)
    requires Inv(s, size) && !SomeSleeping(s) && !SomeCommitting(s) && w < |s.workers| && s.workers[w].Checked?
    ensures ComesToRest(start, actions, t) && AllProductive(actions) && !AllExited(t)
    decreases Rank(s)
  {
    hide Next, Steps, Rank, SomeSleeping, SomeCommitting;
    if ProducersIdle(s) {
      actions, t := AsleepAfterBlock(start, prefix, s, w, size);
    } else {
      var p := PickPushed(s);
      var a := Notify(p, w);
      UnheardStep(s, p, w);
      ProductiveRank(s, a);
      StepInv(s, a, size);
      StepsExtend(start, prefix, s, a);
      actions, t := AsleepUnheard(start, prefix + [a], Next(s, a), w, size);
    }
  }

  lemma AsleepWhenLocked(s: Pool, size: nat, w: nat) returns (later: seq<Action>, t: Pool)
    requires Inv(s, size) && Enabled(s, NotifyAll) && !SomeCommitting(s) && w < |s.workers| && s.workers[w].Checked?
    ensures ComesToRest(Next(s, NotifyAll), later, t) && AllProductive(later) && !AllExited(t)
  {
    StepInv(s, NotifyAll, size);
    var n := Next(s, NotifyAll);
    assert n.workers[w].Checked? && n.producers == s.producers;
    assert forall v :: 0 <= v < |n.workers| ==> !n.workers[v].Sleeping?;
    assert Steps(n, [], n);
    later, t := AsleepUnheard(n, [], n, w, size);
  }

  /** Whatever the schedule after the destructor's notify_all, spurious wakeups and refused commits included, when
      it comes to rest every worker has exited. */
  ghost predicate AlwaysReleases(s: Pool)
    requires Enabled(s, NotifyAll) && |s.lateTakes| == |s.workers|
  {
    forall later, t :: ComesToRest(Next(s, NotifyAll), later, t) ==> AllExited(t)
  }

  /** The destructor's notify_all lets every worker go, whatever the schedule, if and only if at that moment no
      worker is between a failed test and its wait, or a commit has yet to queue its task: it cannot before that
      worker sleeps, and then wakes it. The flag is cleared without the lock, so otherwise the worker can miss the
      only wakeup. */
  lemma ShutdownReleasesAll(size: nat, producers: nat, actions: seq<Action>, s: Pool)
    requires Reachable(size, producers, actions, s) && Enabled(s, NotifyAll)
    ensures |s.lateTakes| == |s.workers| && (AlwaysReleases(s) <==> LockFree(s) || SomeCommitting(s))
  {
    ReachableInv(size, producers, actions, s);
    if LockFree(s) || SomeCommitting(s) {
      forall later, t | ComesToRest(Next(s, NotifyAll), later, t) ensures AllExited(t) {
        Released(s, size, later, t);
      }
    } else {
      var w :| 0 <= w < |s.workers| && s.workers[w].Checked?;
      var later, t := AsleepWhenLocked(s, size, w);
    }
  }

  ghost function ProductiveSteps(actions: seq<Action>): nat {
    if actions == [] then 0
    else ProductiveSteps(actions[..|actions| - 1]) + if Productive(actions[|actions| - 1]) then 1 else 0
  }

  ghost function SpuriousSteps(actions: seq<Action>): nat {
    if actions == [] then 0
    else SpuriousSteps(actions[..|actions| - 1]) + if actions[|actions| - 1].Spurious? then 1 else 0
  }

  lemma SpuriousRank(s: Pool, w: nat)
    requires Enabled(s, Spurious(w)) && |s.lateTakes| == |s.workers|
    ensures Rank(Next(s, Spurious(w))) == Rank(s) + 2
  {
    SumUpdate(s.workers, w, Wanting, WorkerRank);
  }

  lemma StoppedStays(s: Pool, a: Action)
    requires !s.run && s.notified && |s.lateTakes| == |s.workers| && Enabled(s, a)
    ensures !Next(s, a).run && Next(s, a).notified && !a.Clear? && !a.NotifyAll?
  {
  }

  /** Every schedule after notify_all comes to rest: it takes only so many productive steps, plus two for each
      spurious wakeup, however many commits are refused. */
  lemma {:induction false} StoppedBounded(s: Pool, actions: seq<Action>, t: Pool)
    requires !s.run && s.notified && Steps(s, actions, t)
    ensures !t.run && t.notified
    ensures ProductiveSteps(actions) + Rank(t) <= Rank(s) + 2 * SpuriousSteps(actions)
    decreases |actions|
  {
    if actions == [] {
    } else {
      var front, last := actions[..|actions| - 1], actions[|actions| - 1];
      var m: Pool :| Steps(s, front, m) && Enabled(m, last) && |m.lateTakes| == |m.workers| && t == Next(m, last);
      StoppedBounded(s, front, m);
      StoppedStays(m, last);
      hide Next, Enabled, Steps, Rank;
      match last {
        case Spurious(w) => SpuriousRank(m, w);
        case Begin(p, task) => RefusedChangesNothing(m, p, task);
        case _ => ProductiveRank(m, last);
      }
    }
  }

  /** A worker can be there at that moment: one thread, one look, and the flag is cleared. */
  lemma ShutdownRaceIsReachable() returns (actions: seq<Action>, s: Pool)
    ensures Reachable(1, 0, actions, s) && Enabled(s, NotifyAll) && ProducersIdle(s) && !LockFree(s)
  {
    actions := RaceEnds();
    s := RacePool([Checked], false);
    assert s.workers[0].Checked?;
  }

  /** A pool of one thread and no producers that has taken nothing. */
  ghost function RacePool(workers: seq<Worker>, run: bool): Pool {
    Pool(0, false, workers, [], [], run, false, 1, [], [], [], 0, [0])
  }

  lemma RaceBegins() returns (actions: seq<Action>)
    ensures Steps(Init(1, 0), actions, RacePool([Top], true))
  {
    var s0, s2 := Init(1, 0), RacePool([Top], true);
    var s1 := s2.(counting := true, idle := 0);
    assert Steps(s0, [], s0);
    assert s1 == Next(s0, Spawn) && s2 == Next(s1, CountIdle);
    StepsExtend(s0, [], s0, Spawn);
    StepsExtend(s0, [] + [Spawn], s1, CountIdle);
    actions := [] + [Spawn] + [CountIdle];
  }

  lemma RaceLooks() returns (actions: seq<Action>)
    ensures Steps(Init(1, 0), actions, RacePool([Checked], true))
  {
    var s2, s3, s4 := RacePool([Top], true), RacePool([Wanting], true), RacePool([Checked], true);
    var begun := RaceBegins();
    hide Steps, Init;
    assert s2.workers[0 := Wanting] == s3.workers && s3.workers[0 := Checked] == s4.workers;
    assert s3 == Next(s2, Enter(0)) && s4 == Next(s3, Look(0));
    StepsExtend(Init(1, 0), begun, s2, Enter(0));
    StepsExtend(Init(1, 0), begun + [Enter(0)], s3, Look(0));
    actions := begun + [Enter(0)] + [Look(0)];
  }

  lemma RaceEnds() returns (actions: seq<Action>)
    ensures Steps(Init(1, 0), actions, RacePool([Checked], false))
  {
    var looked := RaceLooks();
    hide Steps, Init;
    assert RacePool([Checked], false) == Next(RacePool([Checked], true), Clear);
    StepsExtend(Init(1, 0), looked, RacePool([Checked], true), Clear);
    actions := looked + [Clear];
  }

  // ----- the code of one thread -----

  ghost function SleepersOf(ws: seq<Worker>): set<nat> {
    set w: nat | w < |ws| && ws[w].Sleeping?
  }

  /** The state after one turn of the loop of worker `w`, if no other thread comes between. */
  ghost function TurnOf(s: Pool, w: nat): Pool
    requires Enabled(s, Enter(w)) && LockFree(s) && |s.lateTakes| == |s.workers|
  {
    var wanting := Next(s, Enter(w));
    if !s.run then wanting
    else
      var looked := Next(wanting, Look(w));
      if s.tasks == [] then Next(looked, Block(w))
      else Next(Next(Next(looked, Decrement(w)), Finish(w)), Increment(w))
  }

  /** What the threads share. Each method is a stretch of one thread's code that no other thread comes between. */
  class ThreadPool {
    var threads: nat
    var tasks: seq<Task>
    var run: bool
    var idlThrNum: int
    /** The workers that wait on the condition variable. */
    var sleepers: set<nat>
    /** The tasks that have been called, in the order in which they returned. */
    var finished: seq<Task>

    ghost predicate Shows(s: Pool)
      reads this
    {
      && |s.lateTakes| == |s.workers| == threads && s.tasks == tasks && s.run == run && s.idle == idlThrNum
      && s.finished == finished && SleepersOf(s.workers) == sleepers
    }

    constructor (size: nat)
      ensures run && tasks == finished == [] && sleepers == {}
      ensures threads == idlThrNum == (if size < 16 then size else 16)
    {
      threads, tasks, run, idlThrNum, sleepers, finished := 0, [], true, 0, {}, [];
      new;
      AddThread(size);
    }

    /** Starts threads, as many as asked for and as there is room for. */
    method AddThread(size: nat)
      requires threads <= THREADPOOL_MAX_NUM
      modifies this`threads, this`idlThrNum
      ensures threads == if old(threads) + size < 16 then old(threads) + size else 16
      ensures idlThrNum - old(idlThrNum) == threads - old(threads)
    {
      var n := size;
      while threads < THREADPOOL_MAX_NUM && n > 0
        invariant 0 <= n <= size && old(threads) <= threads <= THREADPOOL_MAX_NUM
        invariant threads + n == old(threads) + size
        invariant idlThrNum - old(idlThrNum) == threads - old(threads)
        decreases n
      {
        threads := threads + 1;
        idlThrNum := idlThrNum + 1;
        n := n - 1;
      }
    }

    /** Wakes any one of the sleepers, if there is one. */
    method NotifyOne(ghost s: Pool, ghost p: nat) returns (ghost w: nat)
      requires Shows(s) && p < |s.producers| && s.producers[p].Pushed?
      modifies this`sleepers
      ensures Enabled(s, Notify(p, w)) && Shows(Next(s, Notify(p, w)))
      ensures sleepers == old(sleepers) - {w} && (old(sleepers) != {} ==> w in old(sleepers))
    {
      w := 0;
      assert forall v: nat :: v in sleepers <==> v < |s.workers| && s.workers[v].Sleeping?;
      if sleepers != {} {
        var v :| v in sleepers;
        sleepers := sleepers - {v};
        w := v;
      }
    }

    /** A stopped pool refuses the task; a running one queues it and wakes a sleeper. */
    method Commit(task: Task, ghost s: Pool, ghost p: nat) returns (accepted: bool, ghost w: nat)
      requires Shows(s) && Enabled(s, Begin(p, task)) && LockFree(s)
      modifies this`tasks, this`sleepers
      ensures accepted <==> run
      ensures tasks == if accepted then old(tasks) + [task] else old(tasks)
      ensures if accepted then sleepers == old(sleepers) - {w} && (old(sleepers) != {} ==> w in old(sleepers))
              else sleepers == old(sleepers)
      ensures var begun := Next(s, Begin(p, task));
              if accepted then
                && Enabled(Next(begun, Enqueue(p)), Notify(p, w))
                && Shows(Next(Next(begun, Enqueue(p)), Notify(p, w)))
              else Shows(begun)
    {
      w := 0;
      if !run {
        return false, w;
      }
      tasks := tasks + [task];
      ghost var queued := Next(Next(s, Begin(p, task)), Enqueue(p));
      assert queued.workers == s.workers && queued.producers[p].Pushed?;
      w := NotifyOne(queued, p);
      accepted := true;
    }

    /** A worker with the lock tests the condition, and goes to sleep, ends or takes the oldest task. */
    method TakeTask(ghost s: Pool, ghost w: nat) returns (pc: Worker)
      requires Shows(s) && Enabled(s, Look(w))
      modifies this`tasks
      ensures Shows(Next(s, Look(w))) && pc == Next(s, Look(w)).workers[w]
      ensures old(tasks) != [] ==> pc == Took(old(tasks)[0]) && tasks == old(tasks)[1..]
      ensures old(tasks) == [] ==> tasks == [] && pc == if run then Checked else Exited
    {
      assert forall v: nat :: v in sleepers <==> v < |s.workers| && s.workers[v].Sleeping?;
      if run && tasks == [] {
        return Checked;
      }
      if !run && tasks == [] {
        return Exited;
      }
      pc := Took(tasks[0]);
      tasks := tasks[1..];
    }

    /** A worker runs its task, and is not idle meanwhile. */
    method RunTask(task: Task, ghost s: Pool, ghost w: nat)
      requires Shows(s) && Enabled(s, Decrement(w)) && s.workers[w] == Took(task)
      modifies this`idlThrNum, this`finished
      ensures idlThrNum == old(idlThrNum) && finished == old(finished) + [task]
      ensures Shows(Next(Next(Next(s, Decrement(w)), Finish(w)), Increment(w)))
    {
      ghost var running := Next(s, Decrement(w));
      ghost var over := Next(running, Finish(w));
      ghost var after := Next(over, Increment(w));
      NobodyFallsAsleep(s, after, w);
      idlThrNum := idlThrNum - 1;
      finished := finished + [task];
      idlThrNum := idlThrNum + 1;
    }

    lemma NobodyFallsAsleep(s: Pool, t: Pool, w: nat)
      requires w < |s.workers| && t.workers == s.workers[w := Top] && !s.workers[w].Sleeping?
      ensures SleepersOf(t.workers) == SleepersOf(s.workers)
    {
    }

    lemma Entered(s: Pool, w: nat)
      requires s.run && Enabled(s, Enter(w)) && LockFree(s) && |s.lateTakes| == |s.workers|
      ensures var t := Next(s, Enter(w));
              && Enabled(t, Look(w)) && |t.lateTakes| == |t.workers| == |s.workers|
              && t.tasks == s.tasks && t.run == s.run && t.idle == s.idle && t.finished == s.finished
              && SleepersOf(t.workers) == SleepersOf(s.workers)
    {
    }

    lemma Slept(s: Pool, w: nat)
      requires Enabled(s, Block(w)) && |s.lateTakes| == |s.workers|
      ensures SleepersOf(Next(s, Block(w)).workers) == SleepersOf(s.workers) + {w}
    {
    }

    /** One turn of the loop of worker `me`: it ends, goes to sleep, or runs the oldest task. */
    method Turn(me: nat, ghost s: Pool) returns (active: bool)
      requires Shows(s) && Enabled(s, Enter(me)) && LockFree(s)
      modifies this
      ensures active <==> old(run)
      ensures Shows(TurnOf(s, me))
      ensures if active && old(tasks) != [] then tasks == old(tasks)[1..] && finished == old(finished) + [old(tasks)[0]]
              else tasks == old(tasks) && finished == old(finished)
      ensures sleepers == if active && old(tasks) == [] then old(sleepers) + {me} else old(sleepers)
    {
      if !run {
        ghost var over := Next(s, Enter(me));
        assert SleepersOf(over.workers) == SleepersOf(s.workers);
        return false;
      }
      ghost var wanting := Next(s, Enter(me));
      Entered(s, me);
      hide SleepersOf;
      var pc := TakeTask(wanting, me);
      if pc.Took? {
        RunTask(pc.task, Next(wanting, Look(me)), me);
      } else {
        Slept(Next(wanting, Look(me)), me);
        sleepers := sleepers + {me};
      }
      active := true;
    }

    /** The destructor, up to the notification; it does not take the lock. */
    method Stop(ghost s: Pool)
      requires Shows(s) && Enabled(s, Clear) && !s.notified
      modifies this`run, this`sleepers
      ensures !run && sleepers == {}
      ensures Shows(Next(Next(s, Clear), NotifyAll))
    {
      run := false;
      sleepers := {};
    }
  }
}
