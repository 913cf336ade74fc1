/** libuv's thread pool (src/threadpool.c) as a state machine: workers, the queue of work,
    the separate queue of slow I/O work, cancellation, and one event loop that takes the
    results. Every step is one critical section. */
module ThreadPool {
  import opened Wrappers

  type Id = nat

  datatype Kind = Cpu | SlowIo

  /** wq holds work items, at most one run_slow_work_message, and exit messages. */
  datatype Entry = Work(id: Id) | SlowMessage | Exit

  /** A worker waits on the condition variable, has been signalled but not got the mutex
      yet, is at the top of its loop, runs an item, has handed the item to the loop, or has
      left. */
  datatype Worker = Asleep | Woken | Ready | Working(id: Id, slow: bool) | Returning(slow: bool) | Gone

  /** w->work: the callback, NULL once it has run, or uv__cancelled. */
  datatype WorkField = Callback | Null | CancelledMark

  datatype Pool = Pool(
    workers: seq<Worker>,
    wq: seq<Entry>,
    slowPending: seq<Id>,
    idleThreads: nat,
    slowRunning: nat,
    work: map<Id, WorkField>,     // per submitted item
    ready: seq<Id>,               // loop->wq
    notified: bool,               // uv_async_send
    batch: seq<Id>,               // the local queue of uv__work_done
    cancelling: Option<Id>,       // between the two halves of uv__work_cancel
    runs: map<Id, nat>,           // how often the callback was started
    finished: map<Id, seq<bool>>) // the calls of done; true: UV_ECANCELED

  datatype Step =
    | Submit(id: Id, kind: Kind)
    | PostExit
    | Fetch(w: nat)
    | TakeMutex(w: nat)
    | SpuriousWakeup(w: nat)
    | FinishWork(w: nat)
    | Return(w: nat)
    | Cancel(id: Id)
    | QueueCancelled
    | LoopWakes
    | CallDone

  /** slow_work_thread_threshold. */
  function Threshold(p: Pool): nat { (|p.workers| + 1) / 2 }

  /** The condition a worker waits on. */
  predicate MustWait(p: Pool) {
    p.wq == [] || (p.wq == [SlowMessage] && p.slowRunning >= Threshold(p))
  }

  /** uv_cond_signal: one waiting thread, if there is one, is woken. */
  ghost predicate Signalled(ws: seq<Worker>, ws': seq<Worker>) {
    if Asleep in ws then exists i :: 0 <= i < |ws| && ws[i] == Asleep && ws' == ws[i := Woken]
    else ws' == ws
  }

  /** if (idle_threads > 0) uv_cond_signal. */
  ghost predicate SignalledIfIdle(idle: nat, ws: seq<Worker>, ws': seq<Worker>) {
    if idle > 0 then Signalled(ws, ws') else ws' == ws
  }

  function SetWorker(p: Pool, w: nat, s: Worker): Pool
    requires w < |p.workers|
  {
    p.(workers := p.workers[w := s])
  }

  function StartRun(p: Pool, id: Id): Pool {
    p.(runs := p.runs[id := if id in p.runs then p.runs[id] + 1 else 1])
  }

  /** QUEUE_REMOVE from whatever queue the item is linked into. */
  function Without<T(==)>(q: seq<T>, x: T): seq<T> {
    if q == [] then [] else if q[0] == x then q[1..] else [q[0]] + Without(q[1..], x)
  }

  /** post(). */
  ghost predicate SubmitStep(p: Pool, id: Id, kind: Kind, p': Pool) {
    var q := p.(work := p.work[id := Callback], runs := p.runs[id := 0]);
    && id !in p.work
    && if kind == SlowIo && SlowMessage in p.wq then p' == q.(slowPending := p.slowPending + [id])
       else
         && p' == q.(wq := p.wq + [if kind == SlowIo then SlowMessage else Work(id)],
                     slowPending := if kind == SlowIo then p.slowPending + [id] else p.slowPending,
                       workers := p'.workers)
         && SignalledIfIdle(p.idleThreads, p.workers, p'.workers)
  }

  /** worker(), from the top of its loop to the point where it waits, unlocks or starts over. */
  ghost predicate FetchStep(p: Pool, w: nat, p': Pool) {
    && w < |p.workers| && p.workers[w] == Ready
    && if MustWait(p) then p' == SetWorker(p, w, Asleep).(idleThreads := p.idleThreads + 1)
       else
         match p.wq[0]
         case Exit =>
           && p' == p.(workers := p'.workers)
           && Signalled(p.workers[w := Gone], p'.workers)
         case Work(id) => p' == StartRun(SetWorker(p, w, Working(id, false)), id).(wq := p.wq[1..])
         case SlowMessage =>
           if p.slowRunning >= Threshold(p) then p' == p.(wq := p.wq[1..] + [SlowMessage])
           else if p.slowPending == [] then p' == p.(wq := p.wq[1..])
           else FetchSlow(p, w, p')
  }

  ghost predicate FetchSlow(p: Pool, w: nat, p': Pool)
    requires w < |p.workers| && p.wq != [] && p.slowPending != []
  {
    var id, rest := p.slowPending[0], p.slowPending[1..];
    var q := StartRun(SetWorker(p, w, Working(id, true)), id).(slowRunning := p.slowRunning + 1, slowPending := rest);
    if rest == [] then p' == q.(wq := p.wq[1..])
    else
      && p' == q.(wq := p.wq[1..] + [SlowMessage], workers := p'.workers)
      && SignalledIfIdle(p.idleThreads, q.workers, p'.workers)
  }

  /** The first half of uv__work_cancel. A request may be cancelled until its done callback
      has been called; after that it belongs to the caller again. */
  ghost predicate CancelStep(p: Pool, id: Id, p': Pool) {
    && p.cancelling.None? && id in p.work && id !in p.finished
    && var linked := Work(id) in p.wq || id in p.slowPending || id in p.ready || id in p.batch;
       if linked && p.work[id] != Null then
         p' == p.(wq := Without(p.wq, Work(id)), slowPending := Without(p.slowPending, id),
           ready := Without(p.ready, id),
                  batch := Without(p.batch, id), work := p.work[id := CancelledMark], cancelling := Some(id))
       else p' == p   // UV_EBUSY
  }

  ghost predicate Next(p: Pool, step: Step, p': Pool) {
    match step
    case Submit(id, kind) => SubmitStep(p, id, kind, p')
    case PostExit =>
      && p' == p.(wq := p.wq + [Exit], workers := p'.workers)
      && SignalledIfIdle(p.idleThreads, p.workers, p'.workers)
    case Fetch(w) => FetchStep(p, w, p')
    case TakeMutex(w) =>
      && w < |p.workers| && p.workers[w] == Woken && p.idleThreads > 0
      && p' == SetWorker(p, w, Ready).(idleThreads := p.idleThreads - 1)
    case SpuriousWakeup(w) =>
      w < |p.workers| && p.workers[w] == Asleep && p' == SetWorker(p, w, Woken)
    case FinishWork(w) =>
      && w < |p.workers| && p.workers[w].Working?
      && var id := p.workers[w].id;
         p' == SetWorker(p, w, Returning(p.workers[w].slow)).(work := p.work[id := Null], ready := p.ready + [id],
           notified := true)
    case Return(w) =>
      && w < |p.workers| && p.workers[w].Returning? && (p.workers[w].slow ==> p.slowRunning > 0)
      && p' == SetWorker(p, w, Ready).(slowRunning := if p.workers[w].slow then p.slowRunning - 1 else p.slowRunning)
    case Cancel(id) => CancelStep(p, id, p')
    case QueueCancelled =>
      && p.cancelling.Some?
      && p' == p.(ready := p.ready + [p.cancelling.value], notified := true, cancelling := None)
    case LoopWakes =>
      && p.notified && p.batch == [] && p.cancelling.None?
      && p' == p.(notified := false, batch := p.ready, ready := [])
    case CallDone =>
      && p.batch != [] && p.cancelling.None?
      && var id := p.batch[0];
         && id in p.work
         && p' == p.(batch := p.batch[1..],
                     finished := p.finished[id := (if id in p.finished then p.finished[id] else [])
                       + [p.work[id] == CancelledMark]])
  }

  /** init_threads: at least one thread, all about to enter their loop. */
  ghost predicate Initial(p: Pool) {
    && |p.workers| > 0 && (forall i :: 0 <= i < |p.workers| ==> p.workers[i] == Ready)
    && p == Pool(p.workers, [], [], 0, 0, map[], [], false, [], None, map[], map[])
  }

  // ---- The invariant ----

  predicate IsIdle(w: Worker) { w == Asleep || w == Woken }
  predicate IsSlow(w: Worker) { (w.Working? || w.Returning?) && w.slow }

  ghost function Count(ws: seq<Worker>, test: Worker -> bool): nat {
    if ws == [] then 0 else Count(ws[1..], test) + if test(ws[0]) then 1 else 0
  }

  /** The counters count. */
  ghost predicate CountersOk(p: Pool) {
    && p.idleThreads == Count(p.workers, IsIdle)
    && p.slowRunning == Count(p.workers, IsSlow)
    && p.slowRunning <= Threshold(p)
  }

  /** run_slow_work_message is queued at most once, and is if slow work is pending. */
  ghost predicate MessageOk(p: Pool) {
    && multiset(p.wq)[SlowMessage] <= 1
    && (p.slowPending != [] ==> SlowMessage in p.wq)
  }

  /** The places an item can be in, waiting to be run... */
  ghost function Waiting(p: Pool, id: Id): nat { multiset(p.wq)[Work(id)] + multiset(p.slowPending)[id] }

  /** ...being run... */
  ghost function Running(p: Pool, id: Id): nat {
    multiset(p.workers)[Working(id, false)] + multiset(p.workers)[Working(id, true)]
  }

  /** ...on its way to its done callback... */
  ghost function OnItsWay(p: Pool, id: Id): nat {
    multiset(p.ready)[id] + multiset(p.batch)[id] + if p.cancelling == Some(id) then 1 else 0
  }

  /** ...or finished: the number of times done was called. */
  ghost function Finished(p: Pool, id: Id): nat { if id in p.finished then |p.finished[id]| else 0 }

  /** A submitted item is in exactly one place, and what has happened to it fits the place. */
  ghost predicate ItemOk(p: Pool, id: Id) {
    if id !in p.work then Waiting(p, id) + Running(p, id) + OnItsWay(p, id) + Finished(p, id) == 0 && id !in p.finished
    else
      && Waiting(p, id) + Running(p, id) + OnItsWay(p, id) + Finished(p, id) == 1
      && (id in p.finished <==> Finished(p, id) == 1)
      && id in p.runs
      && (Waiting(p, id) == 1 ==> p.work[id] == Callback && p.runs[id] == 0)
      && (Running(p, id) == 1 ==> p.work[id] == Callback && p.runs[id] == 1)
      && (OnItsWay(p, id) + Finished(p, id) == 1
         ==> p.work[id] != Callback && p.runs[id] == (if p.work[id] == Null then 1 else 0))
      && (id in p.finished ==> p.finished[id] == [p.work[id] == CancelledMark])
  }

  predicate IsAwake(w: Worker) { w == Woken || w == Ready }

  /** The message may not be taken yet. */
  predicate HeldBack(p: Pool) { SlowMessage in p.wq && p.slowRunning >= Threshold(p) }

  /** How many entries of the queue a worker could take now. */
  function Due(p: Pool): nat { if HeldBack(p) then |p.wq| - 1 else |p.wq| }

  /** A thread sleeps only if each entry it could take has a thread on its way to the queue. */
  ghost predicate EnoughAwake(p: Pool) {
    Asleep in p.workers ==> Due(p) <= Count(p.workers, IsAwake)
  }

  ghost predicate Sound(p: Pool) {
    && |p.workers| > 0
    && CountersOk(p) && MessageOk(p)
    && (p.ready != [] ==> p.notified)
    && forall id :: ItemOk(p, id)
  }

  ghost predicate Inv(p: Pool) { Sound(p) && EnoughAwake(p) }
}
