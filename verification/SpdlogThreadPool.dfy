/** The asynchronous logging pool of include/spdlog/details/thread_pool-inl.h over the blocking queue of
    include/spdlog/details/mpmc_blocking_q.h, as steps of its threads. Each step is one locked section, one
    notification or one handler call. */
module SpdlogThreadPool {
  import opened Arithmetic
  import opened BlockingQueue
  import opened BoundedSeq
  import opened Circular
  import opened QueueLog
  import opened Summing

  datatype Msg = Log(id: nat) | Flush(id: nat) | Terminate

  /** Where a worker is in worker_loop_. */
  datatype Worker =
    | Ready               // about to lock the queue and look
    | Sleeping            // waits for push_cv_ or the timeout
    | Popped(msg: Msg)    // has a message, pop_cv_ not yet notified
    | Handling(msg: Msg)
    | Exited

  /** Where a thread that posts is. */
  datatype Poster =
    | Idle
    | Want(msg: Msg, block: bool)   // about to lock the queue and look
    | Waiting(msg: Msg)             // waits for pop_cv_
    | Pushed                        // push_cv_ not yet notified

  /** The destructor: it runs on poster 0. */
  datatype Destructor = NotStarted | Posting(sent: nat) | Joining(joined: nat) | Returned

  datatype Pool = Pool(
    log: QueueLog.Log<Msg>,
    workers: seq<Worker>,
    posters: seq<Poster>,
    dtor: Destructor,
    handled: seq<Msg>)

  datatype Action =
    | BeginPost(p: nat, msg: Msg, block: bool)
    | StartShutdown
    | TryPush(p: nat)
    | NotifyPush(p: nat, w: nat)
    | SpuriousPoster(p: nat)
    | Look(w: nat)
    | Timeout(w: nat)
    | NotifyPop(w: nat, p: nat)
    | Handle(w: nat)
    | Join

  datatype Construction = Refused | Constructed(pool: Pool)

  /** The constructor refuses no threads and more than 1000. */
  function Construct(slots: nat, threads: nat, posters: nat): Construction {
    if threads == 0 || threads > 1000 then Refused
    else Constructed(Pool(Empty(slots), seq(threads, i => Ready), seq(posters, i => Idle), NotStarted, []))
  }

  /** From 1 to 1000 threads, all about to look at an empty queue. */
  lemma ConstructsWithinLimits(slots: nat, threads: nat, posters: nat)
    ensures Construct(slots, threads, posters).Constructed? <==> 1 <= threads <= 1000
    ensures 1 <= threads <= 1000 ==>
              var s := Construct(slots, threads, posters).pool;
              && |s.workers| == threads && (forall w :: 0 <= w < threads ==> s.workers[w].Ready?)
              && |s.posters| == posters && (forall p :: 0 <= p < posters ==> s.posters[p].Idle?)
              && s.log.slots == slots && s.log.items == s.log.accepted == s.log.taken == s.log.dropped == []
              && s.dtor.NotStarted? && s.handled == []
  {
  }

  ghost predicate AllIdle(s: Pool) {
    forall p :: 0 <= p < |s.posters| ==> s.posters[p].Idle?
  }

  ghost predicate SomeSleeping(s: Pool) {
    exists w :: 0 <= w < |s.workers| && s.workers[w].Sleeping?
  }

  ghost predicate SomeWaiting(s: Pool) {
    exists p :: 0 <= p < |s.posters| && s.posters[p].Waiting?
  }

  ghost predicate Enabled(s: Pool, a: Action) {
    match a
    case BeginPost(p, msg, block) =>
      s.dtor.NotStarted? && p < |s.posters| && s.posters[p].Idle? && !msg.Terminate?
    case StartShutdown => s.dtor.NotStarted? && AllIdle(s) && |s.posters| > 0
    case TryPush(p) => p < |s.posters| && s.posters[p].Want?
    case NotifyPush(p, w) => p < |s.posters| && s.posters[p].Pushed? &&
                             (SomeSleeping(s) ==> w < |s.workers| && s.workers[w].Sleeping?)
    case SpuriousPoster(p) => p < |s.posters| && s.posters[p].Waiting?
    case Look(w) => w < |s.workers| && s.workers[w].Ready?
    case Timeout(w) => w < |s.workers| && s.workers[w].Sleeping?
    case NotifyPop(w, p) => w < |s.workers| && s.workers[w].Popped? &&
                            (SomeWaiting(s) ==> p < |s.posters| && s.posters[p].Waiting?)
    case Handle(w) => w < |s.workers| && s.workers[w].Handling?
    case Join => s.dtor.Joining? &&
                 (s.dtor.joined < |s.workers| ==> s.workers[s.dtor.joined].Exited?)
  }

  function Set(s: Pool, w: nat, pc: Worker): Pool
    requires w < |s.workers|
  {
    s.(workers := s.workers[w := pc])
  }

  function Put(s: Pool, p: nat, pc: Poster): Pool
    requires p < |s.posters|
  {
    s.(posters := s.posters[p := pc])
  }

  function WakeWorker(s: Pool, w: nat): Pool {
    if w < |s.workers| && s.workers[w].Sleeping? then Set(s, w, Ready) else s
  }

  function WakePoster(s: Pool, p: nat): Pool {
    if p < |s.posters| && s.posters[p].Waiting? then Put(s, p, Want(s.posters[p].msg, true)) else s
  }

  /** What the poster does once its message is announced: the destructor posts the next terminate, or joins. */
  function Announced(s: Pool, p: nat): Pool
    requires p < |s.posters|
  {
    if p == 0 && s.dtor.Posting? then
      if s.dtor.sent < |s.workers| then Put(s, 0, Want(Terminate, true))
      else Put(s, 0, Idle).(dtor := Joining(0))
    else Put(s, p, Idle)
  }

  ghost function Next(s: Pool, a: Action): Pool
    requires Enabled(s, a)
  {
    match a
    case BeginPost(p, msg, block) => Put(s, p, Want(msg, block))
    case StartShutdown => Put(s, 0, Want(Terminate, true)).(dtor := Posting(0))
    case TryPush(p) =>
      if s.posters[p].block && Full(s.log.slots, s.log.items) then Put(s, p, Waiting(s.posters[p].msg))
      else
        Put(s, p, Pushed).(
          log := PushLog(s.log, s.posters[p].msg),
          dtor := if p == 0 && s.dtor.Posting? then Posting(s.dtor.sent + 1) else s.dtor)
    case NotifyPush(p, w) => WakeWorker(Announced(s, p), w)
    case SpuriousPoster(p) => Put(s, p, Want(s.posters[p].msg, true))
    case Look(w) =>
      if s.log.items == [] then Set(s, w, Sleeping)
      else Set(s, w, Popped(s.log.items[0])).(log := PopLog(s.log))
    case Timeout(w) => Set(s, w, Ready)
    case NotifyPop(w, p) => WakePoster(Set(s, w, Handling(s.workers[w].msg)), p)
    case Handle(w) =>
      var msg := s.workers[w].msg;
      if msg.Terminate? then Set(s, w, Exited) else Set(s, w, Ready).(handled := s.handled + [msg])
    case Join => s.(dtor := if s.dtor.joined < |s.workers| then Joining(s.dtor.joined + 1) else Returned)
  }

  /** Every thread can move wherever it is; a sleeper may time out and a waiting poster may wake for no reason; and
      before the shutdown any idle thread may post any message either way. */
  lemma ThreadsMayMove(s: Pool, w: nat, p: nat, msg: Msg, block: bool)
    ensures w < |s.workers| ==>
              match s.workers[w] {
                case Ready => Enabled(s, Look(w))
                case Sleeping => Enabled(s, Timeout(w))
                case Popped(_) =>
                  if SomeWaiting(s) then p < |s.posters| && s.posters[p].Waiting? ==> Enabled(s, NotifyPop(w, p))
                  else Enabled(s, NotifyPop(w, p))
                case Handling(_) => Enabled(s, Handle(w))
                case Exited => true
              }
    ensures p < |s.posters| ==>
              match s.posters[p] {
                case Idle => s.dtor.NotStarted? && msg != Terminate ==> Enabled(s, BeginPost(p, msg, block))
                case Want(_, _) => Enabled(s, TryPush(p))
                case Waiting(_) => Enabled(s, SpuriousPoster(p))
                case Pushed =>
                  if SomeSleeping(s) then w < |s.workers| && s.workers[w].Sleeping? ==> Enabled(s, NotifyPush(p, w))
                  else Enabled(s, NotifyPush(p, w))
              }
    ensures s.dtor.NotStarted? && AllIdle(s) && |s.posters| > 0 ==> Enabled(s, StartShutdown)
  {
  }

  ghost predicate Steps(s: Pool, actions: seq<Action>, t: Pool)
    decreases |actions|
  {
    if actions == [] then s == t
    else
      var last := actions[|actions| - 1];
      exists m: Pool :: Steps(s, actions[..|actions| - 1], m) && Enabled(m, last) && t == Next(m, last)
  }

  // ----- what the threads count for -----

  ghost function Looking(pc: Worker): nat { if pc.Ready? then 1 else 0 }
  ghost function Announcing(pc: Worker): nat { if pc.Popped? then 1 else 0 }
  ghost function Owing(pc: Poster): nat { if pc.Pushed? then 1 else 0 }
  ghost function Asking(pc: Poster): nat { if pc.Want? && pc.block then 1 else 0 }
  /** The worker still listens: it has taken no terminate message. */
  ghost function Live(pc: Worker): nat { if Held(pc) == Carries(Terminate) then 0 else 1 }
  /** A worker that has exited did so with a terminate message. */
  ghost function Held(pc: Worker): Load<Msg> {
    match pc
    case Popped(msg) => Carries(msg)
    case Handling(msg) => Carries(msg)
    case Exited => Carries(Terminate)
    case _ => Free
  }

  // ----- the invariant -----

  ghost predicate MessagesKept(s: Pool) {
    && Conserved(s.log)
    && HandedOn(s.log.taken, s.handled, s.workers, Held)
  }

  /** Nobody sleeps past a message without a wakeup on the way, on either side of the queue. */
  ghost predicate WorkersWoken(s: Pool) {
    SomeSleeping(s) ==> |s.log.items| <= Sum(s.workers, Looking) + Sum(s.posters, Owing)
  }

  ghost predicate PostersWoken(s: Pool) {
    SomeWaiting(s) ==> Capacity(s.log.slots) - |s.log.items| <= Sum(s.workers, Announcing) + Sum(s.posters, Asking)
  }

  ghost predicate Ends(s: seq<Msg>) {
    forall i, j :: 0 <= i < j < |s| && s[i].Terminate? ==> s[j].Terminate?
  }

  /** The terminate messages sent so far. */
  ghost function Sent(s: Pool): nat {
    match s.dtor
    case NotStarted => 0
    case Posting(sent) => sent
    case _ => |s.workers|
  }

  ghost predicate OnlyDestructorPosts(s: Pool) {
    forall p :: 0 < p < |s.posters| ==> s.posters[p].Idle?
  }

  ghost predicate DestructorPosts(s: Pool) {
    match s.dtor
    case NotStarted =>
      forall p :: 0 <= p < |s.posters| && (s.posters[p].Want? || s.posters[p].Waiting?) ==> !s.posters[p].msg.Terminate?
    case Posting(sent) =>
      && |s.posters| > 0 && OnlyDestructorPosts(s)
      && match s.posters[0] {
           case Idle => false
           case Want(msg, block) => msg.Terminate? && block && sent < |s.workers|
           case Waiting(msg) => msg.Terminate? && sent < |s.workers|
           case Pushed => 0 < sent <= |s.workers|
         }
    case Joining(joined) => AllIdle(s) && joined <= |s.workers| && forall w :: 0 <= w < joined ==> s.workers[w].Exited?
    case Returned => AllIdle(s) && forall w :: 0 <= w < |s.workers| ==> s.workers[w].Exited?
  }

  /** Terminate messages are sent by the destructor alone, after everything else, and none is overrun or handled
      as a message. */
  ghost predicate TerminatesLast(s: Pool) {
    && multiset(s.log.accepted)[Terminate] == Sent(s)
    && Ends(s.log.accepted)
    && Terminate !in s.log.dropped
    && Terminate !in s.handled
  }

  ghost predicate Inv(s: Pool, slots: nat, threads: nat) {
    && s.log.slots == slots && |s.workers| == threads > 0
    && MessagesKept(s) && WorkersWoken(s) && PostersWoken(s) && DestructorPosts(s) && TerminatesLast(s)
  }

  // ----- every step keeps it -----

  lemma InitInv(slots: nat, threads: nat, posters: nat)
    requires slots > 0 && Construct(slots, threads, posters).Constructed?
    ensures Inv(Construct(slots, threads, posters).pool, slots, threads)
  {
    var s := Construct(slots, threads, posters).pool;
    forall u ensures Carrying(s.workers, Held, u) == 0 {
      CarryingNone(s.workers, Held, u);
    }
  }

  lemma LookMessages(s: Pool, w: nat)
    requires MessagesKept(s) && Enabled(s, Look(w))
    ensures MessagesKept(Next(s, Look(w)))
  {
    if s.log.items == [] {
      HandsSame(s.log.taken, s.handled, s.workers, w, Sleeping, Held);
    } else {
      PopConserves(s.log);
      HandsTake(s.log.taken, s.handled, s.workers, w, Popped(s.log.items[0]), Held);
    }
  }

  lemma HandleMessages(s: Pool, w: nat)
    requires MessagesKept(s) && Enabled(s, Handle(w))
    ensures MessagesKept(Next(s, Handle(w)))
  {
    if s.workers[w].msg.Terminate? {
      HandsSame(s.log.taken, s.handled, s.workers, w, Exited, Held);
    } else {
      HandsDrop(s.log.taken, s.handled, s.workers, w, Ready, Held);
    }
  }

  /** A worker that only waits, wakes or announces keeps what it holds. */
  lemma WorkerMessages(s: Pool, t: Pool, w: nat, pc: Worker)
    requires MessagesKept(s) && w < |s.workers| && Held(pc) == Held(s.workers[w])
    requires t.workers == s.workers[w := pc] && t.log == s.log && t.handled == s.handled
    ensures MessagesKept(t)
  {
    HandsSame(s.log.taken, s.handled, s.workers, w, pc, Held);
  }

  lemma PushMessages(s: Pool, p: nat)
    requires MessagesKept(s) && Enabled(s, TryPush(p))
    ensures MessagesKept(Next(s, TryPush(p)))
  {
    PushConserves(s.log, s.posters[p].msg);
  }

  lemma NotifyPushMessages(s: Pool, p: nat, w: nat)
    requires MessagesKept(s) && Enabled(s, NotifyPush(p, w))
    ensures MessagesKept(Next(s, NotifyPush(p, w)))
  {
    var t := Next(s, NotifyPush(p, w));
    hide MessagesKept;
    AnnouncedKeeps(s, p);
    if w < |s.workers| && s.workers[w].Sleeping? {
      WorkerMessages(s, t, w, Ready);
    } else {
      SameMessages(s, t);
    }
  }

  lemma AnnouncedKeeps(s: Pool, p: nat)
    requires p < |s.posters|
    ensures var t := Announced(s, p); t.log == s.log && t.workers == s.workers && t.handled == s.handled
  {
  }

  lemma SameMessages(s: Pool, t: Pool)
    requires MessagesKept(s) && t.log == s.log && t.workers == s.workers && t.handled == s.handled
    ensures MessagesKept(t)
  {
  }

  lemma NotifyPopMessages(s: Pool, w: nat, p: nat)
    requires MessagesKept(s) && Enabled(s, NotifyPop(w, p))
    ensures MessagesKept(Next(s, NotifyPop(w, p)))
  {
    hide MessagesKept;
    WorkerMessages(s, Next(s, NotifyPop(w, p)), w, Handling(s.workers[w].msg));
  }

  lemma TimeoutMessages(s: Pool, w: nat)
    requires MessagesKept(s) && Enabled(s, Timeout(w))
    ensures MessagesKept(Next(s, Timeout(w)))
  {
    hide MessagesKept;
    WorkerMessages(s, Next(s, Timeout(w)), w, Ready);
  }

  lemma OtherMessages(s: Pool, a: Action)
    requires MessagesKept(s) && Enabled(s, a)
    requires a.BeginPost? || a.StartShutdown? || a.SpuriousPoster? || a.Join?
    ensures MessagesKept(Next(s, a))
  {
    hide MessagesKept;
    SameMessages(s, Next(s, a));
  }

  lemma StepMessages(s: Pool, a: Action)
    requires MessagesKept(s) && Enabled(s, a)
    ensures MessagesKept(Next(s, a))
  {
    match a {
      case Look(w) => LookMessages(s, w);
      case Handle(w) => HandleMessages(s, w);
      case TryPush(p) => PushMessages(s, p);
      case NotifyPop(w, p) => NotifyPopMessages(s, w, p);
      case Timeout(w) => TimeoutMessages(s, w);
      case NotifyPush(p, w) => NotifyPushMessages(s, p, w);
      case _ => OtherMessages(s, a);
    }
  }

  lemma LookWorkersWoken(s: Pool, w: nat)
    requires WorkersWoken(s) && Enabled(s, Look(w))
    ensures WorkersWoken(Next(s, Look(w)))
  {
    var t := Next(s, Look(w));
    SumUpdate(s.workers, w, t.workers[w], Looking);
    if s.log.items != [] && SomeSleeping(t) {
      var v :| 0 <= v < |t.workers| && t.workers[v].Sleeping?;
      assert s.workers[v].Sleeping?;
    }
  }

  lemma NotifyPushWorkersWoken(s: Pool, p: nat, w: nat)
    requires WorkersWoken(s) && Enabled(s, NotifyPush(p, w))
    ensures WorkersWoken(Next(s, NotifyPush(p, w)))
  {
    var t := Next(s, NotifyPush(p, w));
    SumUpdate(s.posters, p, t.posters[p], Owing);
    if w < |s.workers| && s.workers[w].Sleeping? {
      assert SomeSleeping(s);
      SumUpdate(s.workers, w, Ready, Looking);
    }
  }

  /** The other steps of a worker do not make it sleep. */
  lemma WorkerWorkersWoken(s: Pool, t: Pool, w: nat, pc: Worker)
    requires WorkersWoken(s) && w < |s.workers| && !pc.Sleeping?
    requires t.workers == s.workers[w := pc] && Looking(s.workers[w]) <= Looking(pc)
    requires t.log == s.log && Sum(t.posters, Owing) == Sum(s.posters, Owing)
    ensures WorkersWoken(t)
  {
    SumUpdate(s.workers, w, pc, Looking);
    if SomeSleeping(t) {
      var v :| 0 <= v < |t.workers| && t.workers[v].Sleeping?;
      assert s.workers[v].Sleeping?;
    }
  }

  lemma PosterWorkersWoken(s: Pool, a: Action)
    requires WorkersWoken(s) && Enabled(s, a)
    requires a.BeginPost? || a.StartShutdown? || a.TryPush? || a.SpuriousPoster?
    ensures WorkersWoken(Next(s, a))
  {
    var t := Next(s, a);
    var p := if a.StartShutdown? then 0 else a.p;
    SumUpdate(s.posters, p, t.posters[p], Owing);
  }

  lemma StepWorkersWoken(s: Pool, a: Action)
    requires WorkersWoken(s) && Enabled(s, a)
    ensures WorkersWoken(Next(s, a))
  {
    match a {
      case Look(w) => LookWorkersWoken(s, w);
      case NotifyPush(p, w) => NotifyPushWorkersWoken(s, p, w);
      case Timeout(w) => WorkerWorkersWoken(s, Next(s, a), w, Ready);
      case Handle(w) => WorkerWorkersWoken(s, Next(s, a), w, Next(s, a).workers[w]);
      case NotifyPop(w, p) =>
        if p < |s.posters| && s.posters[p].Waiting? {
          SumUpdate(s.posters, p, Want(s.posters[p].msg, true), Owing);
        }
        WorkerWorkersWoken(s, Next(s, a), w, Handling(s.workers[w].msg));
      case Join =>
      case _ => PosterWorkersWoken(s, a);
    }
  }

  lemma PushPostersWoken(s: Pool, p: nat)
    requires PostersWoken(s) && |s.log.items| < s.log.slots && Enabled(s, TryPush(p))
    ensures PostersWoken(Next(s, TryPush(p)))
  {
    var t := Next(s, TryPush(p));
    SumUpdate(s.posters, p, t.posters[p], Asking);
    if t.posters[p].Pushed? && SomeWaiting(t) {
      var q :| 0 <= q < |t.posters| && t.posters[q].Waiting?;
      assert s.posters[q].Waiting?;
    }
  }

  lemma NotifyPopPostersWoken(s: Pool, w: nat, p: nat)
    requires PostersWoken(s) && Enabled(s, NotifyPop(w, p))
    ensures PostersWoken(Next(s, NotifyPop(w, p)))
  {
    SumUpdate(s.workers, w, Handling(s.workers[w].msg), Announcing);
    if p < |s.posters| && s.posters[p].Waiting? {
      assert SomeWaiting(s);
      SumUpdate(s.posters, p, Want(s.posters[p].msg, true), Asking);
    }
  }

  /** The other steps of a poster do not make it wait. */
  lemma PosterPostersWoken(s: Pool, t: Pool, p: nat, pc: Poster)
    requires PostersWoken(s) && p < |s.posters| && !pc.Waiting?
    requires t.posters == s.posters[p := pc] && Asking(s.posters[p]) <= Asking(pc)
    requires t.log == s.log && Sum(t.workers, Announcing) == Sum(s.workers, Announcing)
    ensures PostersWoken(t)
  {
    SumUpdate(s.posters, p, pc, Asking);
    if SomeWaiting(t) {
      var q :| 0 <= q < |t.posters| && t.posters[q].Waiting?;
      assert s.posters[q].Waiting?;
    }
  }

  lemma WorkerPostersWoken(s: Pool, a: Action)
    requires PostersWoken(s) && Enabled(s, a)
    requires a.Look? || a.Timeout? || a.Handle?
    ensures PostersWoken(Next(s, a))
  {
    SumUpdate(s.workers, a.w, Next(s, a).workers[a.w], Announcing);
  }

  lemma StepPostersWoken(s: Pool, a: Action)
    requires PostersWoken(s) && |s.log.items| < s.log.slots && Enabled(s, a)
    ensures PostersWoken(Next(s, a))
  {
    match a {
      case TryPush(p) => PushPostersWoken(s, p);
      case NotifyPop(w, p) => NotifyPopPostersWoken(s, w, p);
      case NotifyPush(p, w) =>
        if w < |s.workers| && s.workers[w].Sleeping? {
          SumUpdate(s.workers, w, Ready, Announcing);
        }
        PosterPostersWoken(s, Next(s, a), p, Next(s, a).posters[p]);
      case BeginPost(p, _, _) => PosterPostersWoken(s, Next(s, a), p, Next(s, a).posters[p]);
      case SpuriousPoster(p) => PosterPostersWoken(s, Next(s, a), p, Next(s, a).posters[p]);
      case StartShutdown => PosterPostersWoken(s, Next(s, a), 0, Next(s, a).posters[0]);
      case Join =>
      case _ => WorkerPostersWoken(s, a);
    }
  }

  lemma WorkerDestructorPosts(s: Pool, a: Action)
    requires DestructorPosts(s) && Enabled(s, a) && (a.Look? || a.Timeout? || a.Handle? || a.NotifyPop?)
    ensures DestructorPosts(Next(s, a))
  {
  }

  lemma PosterDestructorPosts(s: Pool, a: Action)
    requires DestructorPosts(s) && |s.workers| > 0 && Enabled(s, a)
    requires a.BeginPost? || a.StartShutdown? || a.TryPush? || a.SpuriousPoster?
    ensures DestructorPosts(Next(s, a))
  {
  }

  lemma NotifyPushDestructorPosts(s: Pool, p: nat, w: nat)
    requires DestructorPosts(s) && Enabled(s, NotifyPush(p, w))
    ensures DestructorPosts(Next(s, NotifyPush(p, w)))
  {
  }

  lemma JoinDestructorPosts(s: Pool)
    requires DestructorPosts(s) && Enabled(s, Join)
    ensures DestructorPosts(Next(s, Join))
  {
  }

  lemma StepDestructorPosts(s: Pool, a: Action)
    requires DestructorPosts(s) && |s.workers| > 0 && Enabled(s, a)
    ensures DestructorPosts(Next(s, a))
  {
    match a {
      case NotifyPush(p, w) => NotifyPushDestructorPosts(s, p, w);
      case Join => JoinDestructorPosts(s);
      case BeginPost(_, _, _) => PosterDestructorPosts(s, a);
      case StartShutdown => PosterDestructorPosts(s, a);
      case TryPush(_) => PosterDestructorPosts(s, a);
      case SpuriousPoster(_) => PosterDestructorPosts(s, a);
      case _ => WorkerDestructorPosts(s, a);
    }
  }

  lemma EndsGrows(s: seq<Msg>, msg: Msg)
    requires Ends(s) && (Terminate in s ==> msg.Terminate?)
    ensures Ends(s + [msg])
  {
    var all := s + [msg];
    forall i, j | 0 <= i < j < |all| && all[i].Terminate? ensures all[j].Terminate? {
      assert all[i] == s[i] && s[i] == Terminate;
    }
  }

  /** What a push overruns is no terminate message while none has been sent. */
  lemma PushDropsNoTerminate(l: QueueLog.Log<Msg>, msg: Msg)
    requires Conserved(l) && Terminate !in l.accepted && !msg.Terminate? && Terminate !in l.dropped
    ensures Terminate !in PushLog(l, msg).dropped
  {
    var oldest := (l.items + [msg])[0];
    if l.items != [] {
      assert oldest == l.accepted[|l.accepted| - |l.items|..][0];
    }
  }

  /** Before the shutdown no terminate message is pushed; after it nothing else is, and that never overruns. */
  lemma PushTerminatesLast(s: Pool, p: nat)
    requires TerminatesLast(s) && DestructorPosts(s) && Conserved(s.log) && Enabled(s, TryPush(p))
    ensures TerminatesLast(Next(s, TryPush(p)))
  {
    var msg, block := s.posters[p].msg, s.posters[p].block;
    if !(block && Full(s.log.slots, s.log.items)) {
      PushingIsOrdered(s, p);
      EndsGrows(s.log.accepted, msg);
      if s.dtor.NotStarted? {
        PushDropsNoTerminate(s.log, msg);
      }
    }
  }

  lemma PushingIsOrdered(s: Pool, p: nat)
    requires DestructorPosts(s) && TerminatesLast(s) && Enabled(s, TryPush(p))
    ensures if s.dtor.NotStarted? then !s.posters[p].msg.Terminate? && Terminate !in s.log.accepted
            else p == 0 && s.posters[p].msg.Terminate? && s.posters[p].block && s.dtor.Posting?
  {
  }

  /** No other step accepts or overruns a message, and the count of terminate messages sent stays. */
  lemma OthersSendNothing(s: Pool, a: Action)
    requires DestructorPosts(s) && Enabled(s, a) && !a.TryPush?
    ensures var t := Next(s, a);
            t.log.accepted == s.log.accepted && t.log.dropped == s.log.dropped && Sent(t) == Sent(s)
    ensures Terminate !in s.handled ==> Terminate !in Next(s, a).handled
  {
  }

  lemma NothingSent(s: Pool, t: Pool)
    requires TerminatesLast(s) && Sent(t) == Sent(s) && Terminate !in t.handled
    requires t.log.accepted == s.log.accepted && t.log.dropped == s.log.dropped
    ensures TerminatesLast(t)
  {
  }

  lemma StepTerminatesLast(s: Pool, a: Action)
    requires TerminatesLast(s) && DestructorPosts(s) && Conserved(s.log) && Enabled(s, a)
    ensures TerminatesLast(Next(s, a))
  {
    if a.TryPush? {
      PushTerminatesLast(s, a.p);
    } else {
      OthersSendNothing(s, a);
      NothingSent(s, Next(s, a));
    }
  }

  lemma StepInv(s: Pool, a: Action, slots: nat, threads: nat)
    requires Inv(s, slots, threads) && Enabled(s, a)
    ensures Inv(Next(s, a), slots, threads)
  {
    StepMessages(s, a);
    StepWorkersWoken(s, a);
    StepPostersWoken(s, a);
    StepDestructorPosts(s, a);
    StepTerminatesLast(s, a);
    StepShape(s, a);
  }

  lemma StepShape(s: Pool, a: Action)
    requires Enabled(s, a)
    ensures |Next(s, a).workers| == |s.workers| && |Next(s, a).posters| == |s.posters|
    ensures Next(s, a).log.slots == s.log.slots
  {
  }

  lemma {:induction false} StepsInv(s: Pool, actions: seq<Action>, t: Pool, slots: nat, threads: nat)
    requires Inv(s, slots, threads) && Steps(s, actions, t)
    ensures Inv(t, slots, threads)
    decreases |actions|
  {
    if actions == [] {
    } else {
      var front, last := actions[..|actions| - 1], actions[|actions| - 1];
      var m: Pool :| Steps(s, front, m) && Enabled(m, last) && t == Next(m, last);
      StepsInv(s, front, m, slots, threads);
      StepInv(m, last, slots, threads);
    }
  }

  // ----- what it means -----

  lemma {:induction false} LiveOrTerminated(ws: seq<Worker>)
    ensures Sum(ws, Live) + Carrying(ws, Held, Terminate) == |ws|
  {
    if ws == [] {
    } else {
      LiveOrTerminated(ws[..|ws| - 1]);
    }
  }

  lemma LogCounts(s: Pool, u: Msg)
    requires MessagesKept(s)
    ensures multiset(s.log.accepted)[u] ==
              multiset(s.handled)[u] + Carrying(s.workers, Held, u)
              + multiset(s.log.items)[u] + multiset(s.log.dropped)[u]
  {
    var gone := s.log.accepted[..|s.log.accepted| - |s.log.items|];
    assert s.log.accepted == gone + s.log.items;
    InterleavesCounts(s.log.taken, s.log.dropped, gone);
  }

  /** A state the pool can get into from its construction. */
  ghost predicate Reachable(slots: nat, threads: nat, posters: nat, actions: seq<Action>, t: Pool) {
    Construct(slots, threads, posters).Constructed? && Steps(Construct(slots, threads, posters).pool, actions, t)
  }

  lemma ReachableInv(slots: nat, threads: nat, posters: nat, actions: seq<Action>, t: Pool)
    requires slots > 0 && Reachable(slots, threads, posters, actions, t)
    ensures Inv(t, slots, threads)
  {
    InitInv(slots, threads, posters);
    StepsInv(Construct(slots, threads, posters).pool, actions, t, slots, threads);
  }

  lemma TerminatesBalance(s: Pool)
    requires MessagesKept(s) && TerminatesLast(s)
    ensures |s.workers| + multiset(s.log.items)[Terminate] == Sum(s.workers, Live) + Sent(s)
  {
    LogCounts(s, Terminate);
    LiveOrTerminated(s.workers);
  }

  /** In every reachable state the terminate messages still to send and those in the queue are exactly as many
      as the workers that still listen. */
  lemma TerminatesMatchWorkers(slots: nat, threads: nat, posters: nat, actions: seq<Action>, t: Pool)
    requires slots > 0 && Reachable(slots, threads, posters, actions, t)
    ensures (threads - Sent(t)) + multiset(t.log.items)[Terminate] == Sum(t.workers, Live)
  {
    ReachableInv(slots, threads, posters, actions, t);
    TerminatesBalance(t);
  }

  /** In every reachable state no message is lost but by overrun, and the overrun ones are counted. */
  lemma MessagesAccounted(slots: nat, threads: nat, posters: nat, actions: seq<Action>, t: Pool, u: Msg)
    requires slots > 0 && Reachable(slots, threads, posters, actions, t)
    ensures multiset(t.log.accepted)[u] ==
              multiset(t.handled)[u] + Carrying(t.workers, Held, u)
              + multiset(t.log.items)[u] + multiset(t.log.dropped)[u]
    ensures |t.log.accepted| == |t.log.taken| + |t.log.items| + |t.log.dropped|
    ensures Subsequence(t.log.taken, t.log.accepted)
  {
    ReachableInv(slots, threads, posters, actions, t);
    LogCounts(t, u);
    ConservedInOrder(t.log);
  }

  /** When the destructor has returned: every worker has exited, the queue is empty, and every message was either
      handled, exactly as often as it was posted, or overrun. */
  lemma ShutdownOutcome(slots: nat, threads: nat, posters: nat, actions: seq<Action>, t: Pool)
    requires slots > 0 && Reachable(slots, threads, posters, actions, t) && t.dtor.Returned?
    ensures forall w :: 0 <= w < |t.workers| ==> t.workers[w].Exited?
    ensures t.log.items == []
    ensures forall u: Msg :: u != Terminate ==>
              multiset(t.log.accepted)[u] == multiset(t.handled)[u] + multiset(t.log.dropped)[u]
  {
    ReachableInv(slots, threads, posters, actions, t);
    TerminatesMatchWorkers(slots, threads, posters, actions, t);
    SumZero(t.workers, Live);
    if t.log.items != [] {
      QueueEndsInTerminate(t);
    }
    forall u: Msg | u != Terminate
      ensures multiset(t.log.accepted)[u] == multiset(t.handled)[u] + multiset(t.log.dropped)[u]
    {
      LogCounts(t, u);
      CarryingNone(t.workers, Held, u);
    }
  }

  /** Once a terminate message is sent, a queue that holds anything holds one. */
  lemma QueueEndsInTerminate(s: Pool)
    requires MessagesKept(s) && TerminatesLast(s) && Sent(s) > 0 && s.log.items != []
    ensures Terminate in s.log.items
  {
    var accepted := s.log.accepted;
    var i :| 0 <= i < |accepted| && accepted[i] == Terminate;
    assert accepted[|accepted| - 1].Terminate?;
    assert accepted[|accepted| - |s.log.items|..][|s.log.items| - 1] == accepted[|accepted| - 1];
  }

  // One worker keeps the order.

  /** What a worker has taken and not handled; one that has exited did so with a terminate message. */
  ghost function InHand(pc: Worker): seq<Msg> {
    if Held(pc).Free? then [] else [Held(pc).item]
  }

  lemma OneWorkerTurns(s: Pool, a: Action)
    requires |s.workers| == 1 && Enabled(s, a) && (a.Look? || a.Handle? || a.Timeout? || a.NotifyPop?)
    requires s.log.taken == s.handled + InHand(s.workers[0])
    ensures var t := Next(s, a); |t.workers| == 1 && t.log.taken == t.handled + InHand(t.workers[0])
  {
    assert s.handled + [] == s.handled;
    if a.Handle? {
      var msg := s.workers[0].msg;
      assert (s.handled + [msg]) + [] == s.handled + [msg];
    }
  }

  lemma OneWorkerWoken(s: Pool, a: Action)
    requires |s.workers| == 1 && Enabled(s, a) && !(a.Look? || a.Handle? || a.Timeout? || a.NotifyPop?)
    ensures var t := Next(s, a);
            |t.workers| == 1 && t.log.taken == s.log.taken && t.handled == s.handled
            && InHand(t.workers[0]) == InHand(s.workers[0])
  {
  }

  /** A pool of one worker handles its messages in the order in which they left the queue. */
  lemma {:induction false} OneWorkerInOrder(slots: nat, posters: nat, actions: seq<Action>, t: Pool)
    requires Reachable(slots, 1, posters, actions, t)
    ensures |t.workers| == 1 && t.log.taken == t.handled + InHand(t.workers[0])
    decreases |actions|
  {
    if actions == [] {
    } else {
      var front, last := actions[..|actions| - 1], actions[|actions| - 1];
      var m: Pool :| Steps(Construct(slots, 1, posters).pool, front, m) && Enabled(m, last) && t == Next(m, last);
      OneWorkerInOrder(slots, posters, front, m);
      if last.Look? || last.Handle? || last.Timeout? || last.NotifyPop? {
        OneWorkerTurns(m, last);
      } else {
        OneWorkerWoken(m, last);
      }
    }
  }

  // Posts that all block lose nothing.

  ghost predicate AllBlocking(actions: seq<Action>) {
    forall k :: 0 <= k < |actions| && actions[k].BeginPost? ==> actions[k].block
  }

  ghost predicate NothingOverruns(s: Pool) {
    s.log.dropped == [] && forall p :: 0 <= p < |s.posters| && s.posters[p].Want? ==> s.posters[p].block
  }

  lemma BlockingStep(s: Pool, a: Action)
    requires NothingOverruns(s) && Enabled(s, a) && (a.BeginPost? ==> a.block)
    ensures NothingOverruns(Next(s, a))
  {
  }

  /** When every post blocks nothing is overrun, and what was accepted is what was taken, in order, and then what is
      queued. */
  lemma {:induction false} BlockingOverrunsNothing(slots: nat, threads: nat, posters: nat, actions: seq<Action>,
                                                   t: Pool)
    requires Reachable(slots, threads, posters, actions, t) && AllBlocking(actions)
    ensures NothingOverruns(t)
    ensures slots > 0 ==> t.log.accepted == t.log.taken + t.log.items
    decreases |actions|
  {
    if actions == [] {
    } else {
      var front, last := actions[..|actions| - 1], actions[|actions| - 1];
      var m: Pool :| Steps(Construct(slots, threads, posters).pool, front, m) && Enabled(m, last) && t == Next(m, last);
      assert forall k :: 0 <= k < |front| ==> front[k] == actions[k];
      BlockingOverrunsNothing(slots, threads, posters, front, m);
      BlockingStep(m, last);
    }
    if slots > 0 {
      ReachableInv(slots, threads, posters, actions, t);
      NoneDroppedNoneMissing(t.log);
    }
  }

  /** And when the destructor has returned, every message was handled exactly as often as it was accepted. */
  lemma BlockingShutdownHandlesAll(slots: nat, threads: nat, posters: nat, actions: seq<Action>, t: Pool)
    requires slots > 0 && Reachable(slots, threads, posters, actions, t) && AllBlocking(actions) && t.dtor.Returned?
    ensures forall u: Msg :: u != Terminate ==> multiset(t.log.accepted)[u] == multiset(t.handled)[u]
  {
    BlockingOverrunsNothing(slots, threads, posters, actions, t);
    ShutdownOutcome(slots, threads, posters, actions, t);
  }

  // ----- the destructor returns -----

  ghost predicate ShuttingDown(s: Pool) {
    !s.dtor.NotStarted?
  }

  /** A step that is not a timeout, a spurious wakeup or a new call. */
  predicate Productive(a: Action) {
    !a.Timeout? && !a.SpuriousPoster? && !a.BeginPost? && !a.StartShutdown?
  }

  ghost predicate Stuck(s: Pool) {
    forall a :: Productive(a) ==> !Enabled(s, a)
  }

  lemma PickWaiting(s: Pool) returns (p: nat)
    ensures SomeWaiting(s) ==> p < |s.posters| && s.posters[p].Waiting?
  {
    p := 0;
    if SomeWaiting(s) {
      p :| 0 <= p < |s.posters| && s.posters[p].Waiting?;
    }
  }

  lemma PickSleeping(s: Pool) returns (w: nat)
    ensures SomeSleeping(s) ==> w < |s.workers| && s.workers[w].Sleeping?
  {
    w := 0;
    if SomeSleeping(s) {
      w :| 0 <= w < |s.workers| && s.workers[w].Sleeping?;
    }
  }

  lemma StuckWorkers(s: Pool)
    requires Stuck(s)
    ensures forall w :: 0 <= w < |s.workers| ==> s.workers[w].Sleeping? || s.workers[w].Exited?
  {
    forall w | 0 <= w < |s.workers| ensures s.workers[w].Sleeping? || s.workers[w].Exited? {
      assert !Enabled(s, Look(w)) && !Enabled(s, Handle(w));
      var p := PickWaiting(s);
      assert !Enabled(s, NotifyPop(w, p));
    }
  }

  lemma StuckPosters(s: Pool)
    requires Stuck(s)
    ensures forall p :: 0 <= p < |s.posters| ==> s.posters[p].Idle? || s.posters[p].Waiting?
  {
    forall p | 0 <= p < |s.posters| ensures s.posters[p].Idle? || s.posters[p].Waiting? {
      assert !Enabled(s, TryPush(p));
      var w := PickSleeping(s);
      assert !Enabled(s, NotifyPush(p, w));
    }
  }

  /** At rest, a worker asleep means that there is nothing to do and nobody waits for room. */
  lemma SleeperMeansQuiet(s: Pool)
    requires WorkersWoken(s) && PostersWoken(s) && s.log.slots >= 2 && Stuck(s) && SomeSleeping(s)
    ensures s.log.items == [] && AllIdle(s)
  {
    StuckWorkers(s);
    StuckPosters(s);
    SumZero(s.workers, Looking);
    SumZero(s.workers, Announcing);
    SumZero(s.posters, Owing);
    SumZero(s.posters, Asking);
  }

  lemma AwakeMeansExited(s: Pool)
    requires Stuck(s) && !SomeSleeping(s)
    ensures forall w :: 0 <= w < |s.workers| ==> s.workers[w].Exited?
    ensures Sum(s.workers, Live) == 0
  {
    StuckWorkers(s);
    SumZero(s.workers, Live);
  }

  /** A destructor that is posting when everything rests has terminate messages left to post. */
  lemma StuckPosting(s: Pool)
    requires DestructorPosts(s) && Stuck(s) && s.dtor.Posting?
    ensures !AllIdle(s) && Sent(s) < |s.workers|
  {
    StuckPosters(s);
    assert !s.posters[0].Idle?;
  }

  /** A reachable shutdown that has come to rest is a shutdown that is over: no wakeup is lost, not even if the
      timeout of the workers never fires. */
  lemma NeverStuck(s: Pool, slots: nat, threads: nat)
    requires Inv(s, slots, threads) && slots >= 2 && ShuttingDown(s) && Stuck(s)
    ensures s.dtor.Returned?
  {
    TerminatesBalance(s);
    if s.dtor.Posting? {
      StuckPosting(s);
    }
    if SomeSleeping(s) {
      SleeperMeansQuiet(s);
      var w :| 0 <= w < |s.workers| && s.workers[w].Sleeping?;
      SumMember(s.workers, w, Live);
    } else {
      AwakeMeansExited(s);
      if s.dtor.Joining? {
        JoinGoesOn(s);
      }
    }
  }

  lemma JoinGoesOn(s: Pool)
    requires DestructorPosts(s) && s.dtor.Joining? && forall w :: 0 <= w < |s.workers| ==> s.workers[w].Exited?
    ensures Enabled(s, Join) && Productive(Join)
  {
  }

  /** A running pool with room for a message comes to rest only with every worker asleep, nobody posting, an empty
      queue, and every message accepted either handled, exactly as often, or overrun. */
  lemma RestMeansDone(slots: nat, threads: nat, posters: nat, actions: seq<Action>, t: Pool)
    requires slots >= 2 && Reachable(slots, threads, posters, actions, t) && t.dtor.NotStarted? && Stuck(t)
    ensures t.log.items == [] && AllIdle(t) && forall w :: 0 <= w < |t.workers| ==> t.workers[w].Sleeping?
    ensures forall u: Msg :: multiset(t.log.accepted)[u] == multiset(t.handled)[u] + multiset(t.log.dropped)[u]
  {
    ReachableInv(slots, threads, posters, actions, t);
    TerminatesBalance(t);
    if !SomeSleeping(t) {
      AwakeMeansExited(t);
    }
    SleeperMeansQuiet(t);
    AllAsleep(t);
    forall u: Msg ensures multiset(t.log.accepted)[u] == multiset(t.handled)[u] + multiset(t.log.dropped)[u] {
      LogCounts(t, u);
      CarryingNone(t.workers, Held, u);
    }
  }

  lemma AllAsleep(s: Pool)
    requires MessagesKept(s) && TerminatesLast(s) && s.dtor.NotStarted? && Stuck(s) && s.log.items == []
    ensures forall w :: 0 <= w < |s.workers| ==> s.workers[w].Sleeping?
  {
    TerminatesBalance(s);
    StuckWorkers(s);
    forall w | 0 <= w < |s.workers| ensures s.workers[w].Sleeping? {
      if s.workers[w].Exited? {
        LiveShort(s.workers, w);
      }
    }
  }

  lemma LiveShort(ws: seq<Worker>, w: nat)
    requires w < |ws| && ws[w].Exited?
    ensures Sum(ws, Live) < |ws|
  {
    SumUpdate(ws, w, Ready, Live);
    SumBound(ws[w := Ready], Live, 1);
  }

  ghost function WorkerRank(pc: Worker): nat {
    match pc case Popped(_) => 4 case Handling(_) => 2 case Ready => 1 case Sleeping => 0 case Exited => 0
  }

  // A running pool.

  ghost function PosterRank(pc: Poster): nat {
    match pc case Want(_, _) => 7 case Waiting(_) => 6 case Pushed => 2 case Idle => 0
  }

  ghost function RunningRank(s: Pool): nat {
    4 * |s.log.items| + Sum(s.workers, WorkerRank) + Sum(s.posters, PosterRank)
  }

  lemma RunningWorkerRank(s: Pool, a: Action)
    requires Enabled(s, a) && (a.Look? || a.Handle?)
    ensures RunningRank(Next(s, a)) < RunningRank(s)
  {
    SumUpdate(s.workers, a.w, Next(s, a).workers[a.w], WorkerRank);
  }

  lemma RunningPushRank(s: Pool, p: nat)
    requires Enabled(s, TryPush(p))
    ensures RunningRank(Next(s, TryPush(p))) < RunningRank(s)
  {
    SumUpdate(s.posters, p, Next(s, TryPush(p)).posters[p], PosterRank);
  }

  lemma RunningNotifyPushRank(s: Pool, p: nat, w: nat)
    requires s.dtor.NotStarted? && Enabled(s, NotifyPush(p, w))
    ensures RunningRank(Next(s, NotifyPush(p, w))) < RunningRank(s)
  {
    SumUpdate(s.posters, p, Idle, PosterRank);
    if w < |s.workers| && s.workers[w].Sleeping? {
      SumUpdate(s.workers, w, Ready, WorkerRank);
    }
  }

  lemma RunningNotifyPopRank(s: Pool, w: nat, p: nat)
    requires Enabled(s, NotifyPop(w, p))
    ensures RunningRank(Next(s, NotifyPop(w, p))) < RunningRank(s)
  {
    SumUpdate(s.workers, w, Handling(s.workers[w].msg), WorkerRank);
    if p < |s.posters| && s.posters[p].Waiting? {
      SumUpdate(s.posters, p, Want(s.posters[p].msg, true), PosterRank);
    }
  }

  lemma RunningRankFalls(s: Pool, a: Action)
    requires s.dtor.NotStarted? && Enabled(s, a) && Productive(a)
    ensures Next(s, a).dtor.NotStarted? && RunningRank(Next(s, a)) < RunningRank(s)
  {
    match a {
      case TryPush(p) => RunningPushRank(s, p);
      case NotifyPush(p, w) => RunningNotifyPushRank(s, p, w);
      case NotifyPop(w, p) => RunningNotifyPopRank(s, w, p);
      case _ => RunningWorkerRank(s, a);
    }
  }

  ghost predicate AllProductive(actions: seq<Action>) {
    forall k :: 0 <= k < |actions| ==> Productive(actions[k])
  }

  /** Left to themselves the threads of a running pool come to rest after a bounded number of steps. */
  lemma {:induction false} RestIsNear(s: Pool, actions: seq<Action>, t: Pool)
    requires s.dtor.NotStarted? && Steps(s, actions, t) && AllProductive(actions)
    ensures t.dtor.NotStarted? && |actions| + RunningRank(t) <= RunningRank(s)
    decreases |actions|
  {
    if actions == [] {
    } else {
      var front, last := actions[..|actions| - 1], actions[|actions| - 1];
      var m: Pool :| Steps(s, front, m) && Enabled(m, last) && t == Next(m, last);
      RestIsNear(s, front, m);
      RunningRankFalls(m, last);
    }
  }

  // A pool that is shutting down.

  ghost function DestructorRank(s: Pool): nat
    requires DestructorPosts(s)
  {
    var n := |s.workers|;
    match s.dtor
    case NotStarted => 0
    case Posting(sent) =>
      7 * (n - sent) + n + (match s.posters[0] case Pushed => 5 case Want(_, _) => 3 case _ => 2)
    case Joining(joined) => n - joined + 1
    case Returned => 0
  }

  ghost function Rank(s: Pool): nat
    requires DestructorPosts(s)
  {
    4 * |s.log.items| + Sum(s.workers, WorkerRank) + DestructorRank(s)
  }

  lemma WorkerStepRank(s: Pool, a: Action)
    requires DestructorPosts(s) && ShuttingDown(s) && |s.workers| > 0 && Enabled(s, a) && (a.Look? || a.Handle?)
    ensures DestructorPosts(Next(s, a)) && Rank(Next(s, a)) < Rank(s)
  {
    StepDestructorPosts(s, a);
    SumUpdate(s.workers, a.w, Next(s, a).workers[a.w], WorkerRank);
  }

  lemma PushRank(s: Pool, p: nat)
    requires DestructorPosts(s) && ShuttingDown(s) && |s.workers| > 0 && Enabled(s, TryPush(p))
    ensures DestructorPosts(Next(s, TryPush(p))) && Rank(Next(s, TryPush(p))) < Rank(s)
  {
    StepDestructorPosts(s, TryPush(p));
  }

  lemma NotifyPushRank(s: Pool, p: nat, w: nat)
    requires DestructorPosts(s) && ShuttingDown(s) && |s.workers| > 0 && Enabled(s, NotifyPush(p, w))
    ensures DestructorPosts(Next(s, NotifyPush(p, w))) && Rank(Next(s, NotifyPush(p, w))) < Rank(s)
  {
    StepDestructorPosts(s, NotifyPush(p, w));
    if w < |s.workers| && s.workers[w].Sleeping? {
      SumUpdate(s.workers, w, Ready, WorkerRank);
    }
  }

  lemma NotifyPopRank(s: Pool, w: nat, p: nat)
    requires DestructorPosts(s) && ShuttingDown(s) && |s.workers| > 0 && Enabled(s, NotifyPop(w, p))
    ensures DestructorPosts(Next(s, NotifyPop(w, p))) && Rank(Next(s, NotifyPop(w, p))) < Rank(s)
  {
    StepDestructorPosts(s, NotifyPop(w, p));
    SumUpdate(s.workers, w, Handling(s.workers[w].msg), WorkerRank);
  }

  /** Each productive step of a shutdown brings its end closer. */
  lemma ProductiveRank(s: Pool, a: Action)
    requires DestructorPosts(s) && ShuttingDown(s) && |s.workers| > 0 && Enabled(s, a) && Productive(a)
    ensures DestructorPosts(Next(s, a)) && Rank(Next(s, a)) < Rank(s)
  {
    match a {
      case TryPush(p) => PushRank(s, p);
      case NotifyPush(p, w) => NotifyPushRank(s, p, w);
      case NotifyPop(w, p) => NotifyPopRank(s, w, p);
      case Join =>
      case _ => WorkerStepRank(s, a);
    }
  }

  /** A timeout or a spurious wakeup costs one more look at the queue. */
  lemma IdleRank(s: Pool, a: Action)
    requires DestructorPosts(s) && ShuttingDown(s) && |s.workers| > 0 && Enabled(s, a) && !Productive(a)
    ensures DestructorPosts(Next(s, a)) && Rank(Next(s, a)) <= Rank(s) + 1
  {
    StepDestructorPosts(s, a);
    if a.Timeout? {
      SumUpdate(s.workers, a.w, Ready, WorkerRank);
    }
  }

  ghost function ProductiveSteps(actions: seq<Action>): nat {
    if actions == [] then 0
    else ProductiveSteps(actions[..|actions| - 1]) + if Productive(actions[|actions| - 1]) then 1 else 0
  }

  /** A shutdown takes only so many productive steps, plus one for each timeout or spurious wakeup. */
  lemma {:induction false} ShutdownBounded(s: Pool, actions: seq<Action>, t: Pool, slots: nat, threads: nat)
    requires Inv(s, slots, threads) && ShuttingDown(s) && Steps(s, actions, t)
    ensures Inv(t, slots, threads) && ShuttingDown(t)
    ensures ProductiveSteps(actions) + Rank(t) <= Rank(s) + (|actions| - ProductiveSteps(actions))
    decreases |actions|
  {
    if actions == [] {
    } else {
      var front, last := actions[..|actions| - 1], actions[|actions| - 1];
      var m: Pool :| Steps(s, front, m) && Enabled(m, last) && t == Next(m, last);
      ShutdownBounded(s, front, m, slots, threads);
      StepInv(m, last, slots, threads);
      StepShutdown(m, last);
      if Productive(last) {
        ProductiveRank(m, last);
      } else {
        IdleRank(m, last);
      }
    }
  }

  lemma StepShutdown(s: Pool, a: Action)
    requires ShuttingDown(s) && Enabled(s, a)
    ensures ShuttingDown(Next(s, a))
  {
  }

  lemma StepsExtend(s: Pool, actions: seq<Action>, m: Pool, a: Action)
    requires Steps(s, actions, m) && Enabled(m, a)
    ensures Steps(s, actions + [a], Next(m, a))
  {
    var all := actions + [a];
    assert all[..|all| - 1] == actions && all[|all| - 1] == a;
  }

  /** From every state of a shutdown the destructor can return by productive steps alone. */
  lemma Finish(s: Pool, actions: seq<Action>, m: Pool, slots: nat, threads: nat) returns (all: seq<Action>, t: Pool)
    requires Steps(s, actions, m) && Inv(m, slots, threads) && slots >= 2 && ShuttingDown(m)
    ensures Steps(s, all, t) && t.dtor.Returned?
    decreases Rank(m)
  {
    if Stuck(m) {
      NeverStuck(m, slots, threads);
      all, t := actions, m;
    } else {
      var a :| Productive(a) && Enabled(m, a);
      StepsExtend(s, actions, m, a);
      StepInv(m, a, slots, threads);
      StepShutdown(m, a);
      ProductiveRank(m, a);
      all, t := Finish(s, actions + [a], Next(m, a), slots, threads);
    }
  }

  // ----- a queue without room -----

  /** With one slot or none the queue stays empty and every worker stays at it. */
  ghost predicate Starved(s: Pool) {
    && s.log.slots <= 1 && s.log.items == []
    && |s.workers| > 0 && (forall w :: 0 <= w < |s.workers| ==> s.workers[w].Ready? || s.workers[w].Sleeping?)
    && !s.dtor.Returned? && (s.dtor.Joining? ==> s.dtor.joined == 0)
  }

  lemma StarvedStep(s: Pool, a: Action)
    requires Starved(s) && Enabled(s, a)
    ensures Starved(Next(s, a))
  {
  }

  lemma {:induction false} StarvedSteps(s: Pool, actions: seq<Action>, t: Pool)
    requires Starved(s) && Steps(s, actions, t)
    ensures Starved(t)
    decreases |actions|
  {
    if actions == [] {
    } else {
      var front, last := actions[..|actions| - 1], actions[|actions| - 1];
      var m: Pool :| Steps(s, front, m) && Enabled(m, last) && t == Next(m, last);
      StarvedSteps(s, front, m);
      StarvedStep(m, last);
    }
  }

  /** The destructor can return if and only if the queue has room for a message at all. A queue of capacity 0
      blocks the first terminate message for good; a disabled queue swallows them. */
  lemma DestructorCanReturn(slots: nat, threads: nat, posters: nat)
    requires Construct(slots, threads, posters).Constructed? && posters > 0
    ensures (exists actions, t :: Reachable(slots, threads, posters, actions, t) && t.dtor.Returned?) <==> slots >= 2
  {
    var s := Construct(slots, threads, posters).pool;
    if slots >= 2 {
      InitInv(slots, threads, posters);
      assert Steps(s, [], s);
      StepsExtend(s, [], s, StartShutdown);
      StepInv(s, StartShutdown, slots, threads);
      var all, t := Finish(s, [] + [StartShutdown], Next(s, StartShutdown), slots, threads);
      assert Reachable(slots, threads, posters, all, t);
    } else {
      forall actions, t | Reachable(slots, threads, posters, actions, t) ensures !t.dtor.Returned? {
        StarvedSteps(s, actions, t);
      }
    }
  }

  /** Every reachable shutdown that has come to rest is over, and one under way is bounded: together, the
      destructor returns under every schedule that lets threads move. */
  lemma ShutdownNeverStuck(slots: nat, threads: nat, posters: nat, actions: seq<Action>, t: Pool)
    requires slots >= 2 && Reachable(slots, threads, posters, actions, t) && ShuttingDown(t) && !t.dtor.Returned?
    ensures exists a :: Productive(a) && Enabled(t, a)
  {
    ReachableInv(slots, threads, posters, actions, t);
    if Stuck(t) {
      NeverStuck(t, slots, threads);
    }
  }

  // ----- the code of one thread -----

  /** What the threads of the pool do to the queue is what the blocking queue does: a push, or a look that takes
      what there is; nothing else touches it. */
  lemma StepsAreQueueOperations(s: Pool, a: Action)
    requires Enabled(s, a)
    ensures Next(s, a).log ==
            match a {
              case TryPush(p) =>
                Step(s.log, if s.posters[p].block then Enqueue(s.posters[p].msg) else EnqueueNowait(s.posters[p].msg))
              case Look(_) => Step(s.log, Dequeue)
              case _ => s.log
            }
  {
  }

  class ThreadPool {
    const q: MpmcBlockingQueue<Msg>
    /** The messages given to their loggers. */
    var handled: seq<Msg>

    ghost predicate Valid()
      reads this, q, q.q, q.q.v
    {
      q.Valid()
    }

    constructor (maxItems: nat)
      requires maxItems < SIZE_VALUES
      ensures Valid() && q.log == Empty(SlotsFor(maxItems)) && handled == []
      ensures fresh(q) && fresh(q.q) && fresh(q.q.v)
    {
      q := new MpmcBlockingQueue<Msg>(maxItems);
      handled := [];
    }

    /** One look of a poster; a blocking one that is not done waits and looks again. */
    method PostAsyncMsg(msg: Msg, block: bool) returns (done: bool)
      requires Valid()
      modifies q`log, q.q, q.q.v
      ensures Valid() && q.q.v == old(q.q.v)
      ensures q.log == Step(old(q.log), if block then Enqueue(msg) else EnqueueNowait(msg))
      ensures done <==> !block || !old(Full(q.log.slots, q.log.items))
    {
      if block {
        done := q.Enqueue(msg);
      } else {
        q.EnqueueNowait(msg);
        done := true;
      }
    }

    /** One turn of a worker: it goes on unless it got a terminate message. */
    method ProcessNextMsg() returns (active: bool)
      requires Valid()
      modifies this`handled, q`log, q.q`head, q.q`contents
      ensures Valid() && q.log == Step(old(q.log), Dequeue)
      ensures active <==> old(q.log.items) == [] || old(q.log.items)[0] != Terminate
      ensures handled == old(handled) + if active && old(q.log.items) != [] then [old(q.log.items)[0]] else []
    {
      var dequeued, msg := q.DequeueFor(Msg.Log(0));
      if !dequeued {
        return true;
      }
      active := !msg.Terminate?;
      if active {
        handled := handled + [msg];
      }
    }
  }
}
