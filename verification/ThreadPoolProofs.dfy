/** Every step of the thread pool keeps its invariant, and what follows from that. */
module ThreadPoolProofs {
  import opened Wrappers
  import opened ThreadPool

  lemma {:induction false} CountUpdate(ws: seq<Worker>, test: Worker -> bool, i: nat, w: Worker)
    requires i < |ws|
    ensures Count(ws[i := w], test) + (if test(ws[i]) then 1 else 0) == Count(ws, test) + (if test(w) then 1 else 0)
    decreases |ws|
  {
    if i > 0 {
      CountUpdate(ws[1..], test, i - 1, w);
      assert ws[i := w][1..] == ws[1..][i - 1 := w];
    } else {
      assert ws[i := w][1..] == ws[1..];
    }
  }

  lemma {:induction false} CountNone(ws: seq<Worker>, test: Worker -> bool)
    ensures Count(ws, test) == 0 <==> forall i :: 0 <= i < |ws| ==> !test(ws[i])
    decreases |ws|
  {
    if ws != [] {
      CountNone(ws[1..], test);
      assert forall i :: 0 <= i < |ws| - 1 ==> ws[1..][i] == ws[i + 1];
      if forall i :: 0 <= i < |ws[1..]| ==> !test(ws[1..][i]) {
        assert forall i :: 0 < i < |ws| ==> ws[i] == ws[1..][i - 1];
      }
    }
  }

  // ---- Signals ----

  /** A signal changes which threads sleep and nothing else. */
  lemma SignalKeeps(idle: nat, ws: seq<Worker>, ws': seq<Worker>)
    requires SignalledIfIdle(idle, ws, ws')
    ensures |ws'| == |ws| && Count(ws', IsIdle) == Count(ws, IsIdle) && Count(ws', IsSlow) == Count(ws, IsSlow)
    ensures forall id, slow :: multiset(ws')[Working(id, slow)] == multiset(ws)[Working(id, slow)]
  {
    if ws' != ws {
      var i :| 0 <= i < |ws| && ws[i] == Asleep && ws' == ws[i := Woken];
      CountUpdate(ws, IsIdle, i, Woken);
      CountUpdate(ws, IsSlow, i, Woken);
    }
  }

  // ---- Single workers ----

  /** What one worker's change of state does to the counts. */
  lemma WorkerMoves(p: Pool, w: nat, s: Worker)
    requires w < |p.workers|
    ensures var ws := p.workers[w := s];
            && Count(ws, IsIdle) + (if IsIdle(p.workers[w]) then 1 else 0) == Count(p.workers, IsIdle)
               + (if IsIdle(s) then 1 else 0)
            && Count(ws, IsSlow) + (if IsSlow(p.workers[w]) then 1 else 0) == Count(p.workers, IsSlow)
               + (if IsSlow(s) then 1 else 0)
  {
    CountUpdate(p.workers, IsIdle, w, s);
    CountUpdate(p.workers, IsSlow, w, s);
  }

  function RunsAt(w: Worker, id: Id): nat { if w.Working? && w.id == id then 1 else 0 }

  lemma RunningMoves(p: Pool, p': Pool, w: nat, s: Worker, id: Id)
    requires w < |p.workers| && p'.workers == p.workers[w := s]
    ensures Running(p', id) + RunsAt(p.workers[w], id) == Running(p, id) + RunsAt(s, id)
  {
    assert p.workers[w] in multiset(p.workers);
  }

  lemma RunningSame(p: Pool, p': Pool, id: Id)
    requires forall slow :: multiset(p'.workers)[Working(id, slow)] == multiset(p.workers)[Working(id, slow)]
    ensures Running(p', id) == Running(p, id)
  {
  }

  lemma Head<T>(q: seq<T>)
    requires q != []
    ensures multiset(q) == multiset{q[0]} + multiset(q[1..])
  {
    assert q == [q[0]] + q[1..];
  }

  lemma {:induction false} WithoutOne<T>(q: seq<T>, x: T)
    ensures multiset(Without(q, x)) == multiset(q) - multiset{x}
    decreases |q|
  {
    if q != [] {
      Head(q);
      WithoutOne(q[1..], x);
    }
  }

  // ---- Items ----

  ghost predicate SameItem(p: Pool, p': Pool, id: Id) {
    && Waiting(p', id) == Waiting(p, id) && Running(p', id) == Running(p, id)
    && OnItsWay(p', id) == OnItsWay(p, id)
    && (id in p'.finished <==> id in p.finished) && (id in p.finished ==> p'.finished[id] == p.finished[id])
    && (id in p'.work <==> id in p.work) && (id in p.work ==> p'.work[id] == p.work[id])
    && (id in p'.runs <==> id in p.runs) && (id in p.runs ==> p'.runs[id] == p.runs[id])
  }

  lemma SameItemOk(p: Pool, p': Pool, id: Id)
    requires ItemOk(p, id) && SameItem(p, p', id)
    ensures ItemOk(p', id)
  {
  }

  lemma IdleKeepsItem(p: Pool, p': Pool, w: nat, s: Worker, id: Id)
    requires w < |p.workers|
             && p' == p.(workers := p.workers[w := s], idleThreads := p'.idleThreads, slowRunning := p'.slowRunning)
    requires !p.workers[w].Working? && !s.Working? && ItemOk(p, id)
    ensures ItemOk(p', id)
  {
    RunningMoves(p, p', w, s, id);
    SameItemOk(p, p', id);
  }

  /** Steps of workers that run nothing, before and after. */
  lemma IdleStepKeepsSound(p: Pool, step: Step, p': Pool)
    requires Sound(p) && (step.TakeMutex? || step.SpuriousWakeup? || step.Return?) && Next(p, step, p')
    ensures Sound(p')
  {
    var s := p'.workers[step.w];
    WorkerMoves(p, step.w, s);
    forall id
      ensures ItemOk(p', id)
    {
      assert ItemOk(p, id);
      IdleKeepsItem(p, p', step.w, s, id);
    }
  }

  lemma PostExitKeepsSound(p: Pool, step: Step, p': Pool)
    requires Sound(p) && step.PostExit? && Next(p, step, p')
    ensures Sound(p')
  {
    SignalKeeps(p.idleThreads, p.workers, p'.workers);
    forall id
      ensures ItemOk(p', id)
    {
      SameItemOk(p, p', id);
    }
  }

  lemma SubmitKeepsItem(p: Pool, new_: Id, kind: Kind, p': Pool, id: Id)
    requires SubmitStep(p, new_, kind, p') && ItemOk(p, id) && ItemOk(p, new_)
    ensures ItemOk(p', id)
  {
    if |p'.wq| > |p.wq| {
      SignalKeeps(p.idleThreads, p.workers, p'.workers);
    }
    if id != new_ {
      SameItemOk(p, p', id);
    }
  }

  lemma SubmitKeepsSound(p: Pool, step: Step, p': Pool)
    requires Sound(p) && step.Submit? && Next(p, step, p')
    ensures Sound(p')
  {
    if |p'.wq| > |p.wq| {
      SignalKeeps(p.idleThreads, p.workers, p'.workers);
      }
    forall id
      ensures ItemOk(p', id)
    {
      assert ItemOk(p, step.id) && ItemOk(p, id);
      SubmitKeepsItem(p, step.id, step.kind, p', id);
    }
  }

  // ---- Workers ----

  lemma SleepKeepsSound(p: Pool, w: nat, p': Pool)
    requires Sound(p) && FetchStep(p, w, p') && MustWait(p)
    ensures Sound(p')
  {
    WorkerMoves(p, w, Asleep);
    forall id
      ensures ItemOk(p', id)
    {
      RunningMoves(p, p', w, Asleep, id);
      SameItemOk(p, p', id);
    }
  }

  lemma ExitKeepsItem(p: Pool, w: nat, p': Pool, id: Id)
    requires w < |p.workers| && p.workers[w] == Ready && p' == p.(workers := p'.workers)
    requires SignalledIfIdle(1, p.workers[w := Gone], p'.workers) && ItemOk(p, id)
    ensures ItemOk(p', id)
  {
    var q := p.(workers := p.workers[w := Gone]);
    RunningMoves(p, q, w, Gone, id);
    SignalKeeps(1, q.workers, p'.workers);
    RunningSame(q, p', id);
    SameItemOk(p, p', id);
  }

  lemma ExitKeepsSound(p: Pool, w: nat, p': Pool)
    requires Sound(p) && FetchStep(p, w, p') && !MustWait(p) && p.wq[0] == Exit
    ensures Sound(p')
  {
    var ws := p.workers[w := Gone];
    WorkerMoves(p, w, Gone);
    SignalKeeps(1, ws, p'.workers);
    forall id
      ensures ItemOk(p', id)
    {
      assert ItemOk(p, id);
      ExitKeepsItem(p, w, p', id);
    }
  }

  lemma FetchWorkKeepsItem(p: Pool, w: nat, p': Pool, id: Id)
    requires w < |p.workers| && p.workers[w] == Ready && p.wq != [] && p.wq[0].Work? && ItemOk(p, id)
    requires p' == StartRun(SetWorker(p, w, Working(p.wq[0].id, false)), p.wq[0].id).(wq := p.wq[1..])
    ensures ItemOk(p', id)
  {
    RunningMoves(p, p', w, Working(p.wq[0].id, false), id);
    Head(p.wq);
    if id != p.wq[0].id {
      SameItemOk(p, p', id);
    }
  }

  lemma FetchWorkKeepsSound(p: Pool, w: nat, p': Pool)
    requires Sound(p) && FetchStep(p, w, p') && !MustWait(p) && p.wq[0].Work?
    ensures Sound(p')
  {
    WorkerMoves(p, w, Working(p.wq[0].id, false));
    Head(p.wq);
    forall id
      ensures ItemOk(p', id)
    {
      assert ItemOk(p, id);
      FetchWorkKeepsItem(p, w, p', id);
    }
  }

  /** The message goes to the back of the queue, or away if nothing is pending. */
  lemma MessageMovesKeepsSound(p: Pool, w: nat, p': Pool)
    requires Sound(p) && FetchStep(p, w, p') && !MustWait(p) && p.wq[0] == SlowMessage
    requires p.slowRunning >= Threshold(p) || p.slowPending == []
    ensures Sound(p')
  {
    Head(p.wq);
    forall id
      ensures ItemOk(p', id)
    {
      SameItemOk(p, p', id);
    }
  }

  lemma FetchSlowRunning(p: Pool, w: nat, p': Pool, id: Id)
    requires w < |p.workers| && p.workers[w] == Ready && p.wq != [] && p.slowPending != [] && FetchSlow(p, w, p')
    ensures Running(p', id) == Running(p, id) + if id == p.slowPending[0] then 1 else 0
  {
    var s := Working(p.slowPending[0], true);
    var q := p.(workers := p.workers[w := s]);
    RunningMoves(p, q, w, s, id);
    if |p.slowPending| > 1 {
      SignalKeeps(p.idleThreads, q.workers, p'.workers);
    }
    RunningSame(q, p', id);
  }

  lemma FetchSlowWaiting(p: Pool, w: nat, p': Pool, id: Id)
    requires w < |p.workers| && p.wq != [] && p.wq[0] == SlowMessage && p.slowPending != [] && FetchSlow(p, w, p')
    ensures Waiting(p', id) + (if id == p.slowPending[0] then 1 else 0) == Waiting(p, id)
  {
    Head(p.wq);
    Head(p.slowPending);
  }

  lemma FetchSlowElse(p: Pool, w: nat, p': Pool, id: Id)
    requires w < |p.workers| && p.wq != [] && p.slowPending != [] && FetchSlow(p, w, p')
    ensures OnItsWay(p', id) == OnItsWay(p, id) && p'.finished == p.finished && p'.work == p.work
    ensures var first := p.slowPending[0]; p'.runs == p.runs[first := if first in p.runs then p.runs[first] + 1 else 1]
  {
  }

  lemma FetchSlowKeepsItem(p: Pool, w: nat, p': Pool, id: Id)
    requires w < |p.workers| && p.workers[w] == Ready && p.wq != [] && p.wq[0] == SlowMessage && p.slowPending != []
    requires FetchSlow(p, w, p') && ItemOk(p, id)
    ensures ItemOk(p', id)
  {
    FetchSlowRunning(p, w, p', id);
    FetchSlowWaiting(p, w, p', id);
    FetchSlowElse(p, w, p', id);
    if id != p.slowPending[0] {
      SameItemOk(p, p', id);
    }
  }

  lemma FetchSlowKeepsCounters(p: Pool, w: nat, p': Pool)
    requires CountersOk(p) && w < |p.workers| && p.workers[w] == Ready && p.wq != [] && p.slowPending != []
             && FetchSlow(p, w, p')
    requires p.slowRunning < Threshold(p)
    ensures CountersOk(p') && |p'.workers| == |p.workers|
  {
    var ws := p.workers[w := Working(p.slowPending[0], true)];
    WorkerMoves(p, w, Working(p.slowPending[0], true));
    if |p.slowPending| > 1 {
      SignalKeeps(p.idleThreads, ws, p'.workers);
    }
  }

  lemma FetchSlowKeepsSound(p: Pool, w: nat, p': Pool)
    requires Sound(p) && FetchStep(p, w, p') && !MustWait(p) && p.wq[0] == SlowMessage
    requires p.slowRunning < Threshold(p) && p.slowPending != []
    ensures Sound(p')
  {
    FetchSlowKeepsCounters(p, w, p');
    Head(p.wq);
    forall id
      ensures ItemOk(p', id)
    {
      assert ItemOk(p, id);
      FetchSlowKeepsItem(p, w, p', id);
    }
  }

  lemma FinishWorkKeepsItem(p: Pool, w: nat, p': Pool, id: Id)
    requires Next(p, FinishWork(w), p') && ItemOk(p, id)
    ensures ItemOk(p', id)
  {
    RunningMoves(p, p', w, Returning(p.workers[w].slow), id);
    if id != p.workers[w].id {
      SameItemOk(p, p', id);
    }
  }

  lemma FinishWorkKeepsSound(p: Pool, step: Step, p': Pool)
    requires Sound(p) && step.FinishWork? && Next(p, step, p')
    ensures Sound(p')
  {
    WorkerMoves(p, step.w, Returning(p.workers[step.w].slow));
    forall id
      ensures ItemOk(p', id)
    {
      assert ItemOk(p, id);
      FinishWorkKeepsItem(p, step.w, p', id);
    }
  }

  // ---- The event loop ----

  lemma WithoutCount<T>(q: seq<T>, x: T, y: T)
    ensures multiset(Without(q, x))[y] == if y == x && x in q then multiset(q)[x] - 1 else multiset(q)[y]
  {
    WithoutOne(q, x);
    assert x in q <==> x in multiset(q);
  }

  lemma CancelKeepsOthers(p: Pool, target: Id, p': Pool, id: Id)
    requires CancelStep(p, target, p') && ItemOk(p, id) && id != target
    ensures ItemOk(p', id)
  {
    WithoutCount(p.wq, Work(target), Work(id));
    WithoutCount(p.slowPending, target, id);
    WithoutCount(p.ready, target, id);
    WithoutCount(p.batch, target, id);
    SameItemOk(p, p', id);
  }

  /** A cancelled item leaves its queue, and has not been run. */
  lemma CancelMovesItem(p: Pool, id: Id, p': Pool)
    requires CancelStep(p, id, p') && ItemOk(p, id)
    ensures ItemOk(p', id)
  {
    if p' != p {
      WithoutCount(p.wq, Work(id), Work(id));
      WithoutCount(p.slowPending, id, id);
      WithoutCount(p.ready, id, id);
      WithoutCount(p.batch, id, id);
      assert Waiting(p', id) == 0 && OnItsWay(p', id) == 1 && Running(p', id) == 0;
    }
  }

  lemma {:induction false} WithoutShorter<T>(q: seq<T>, x: T)
    ensures |Without(q, x)| <= |q| && (x !in q ==> Without(q, x) == q)
    ensures forall y :: y in Without(q, x) ==> y in q
    decreases |q|
  {
    if q != [] {
      WithoutShorter(q[1..], x);
      assert q == [q[0]] + q[1..];
    }
  }

  lemma CancelKeepsSound(p: Pool, step: Step, p': Pool)
    requires Sound(p) && step.Cancel? && Next(p, step, p')
    ensures Sound(p')
  {
    WithoutOne(p.wq, Work(step.id));
    WithoutShorter(p.slowPending, step.id);
    WithoutShorter(p.ready, step.id);
    assert SlowMessage in p.wq ==> SlowMessage in multiset(p'.wq);
    forall id
      ensures ItemOk(p', id)
    {
      assert ItemOk(p, id);
      if id == step.id {
        CancelMovesItem(p, id, p');
      } else {
        CancelKeepsOthers(p, step.id, p', id);
      }
    }
  }

  lemma LoopKeepsItem(p: Pool, step: Step, p': Pool, id: Id)
    requires (step.QueueCancelled? || step.LoopWakes? || step.CallDone?) && Next(p, step, p') && ItemOk(p, id)
    ensures ItemOk(p', id)
  {
    if step.CallDone? {
      Head(p.batch);
      if id != p.batch[0] {
        SameItemOk(p, p', id);
      }
    } else {
      SameItemOk(p, p', id);
    }
  }

  lemma LoopKeepsSound(p: Pool, step: Step, p': Pool)
    requires Sound(p) && (step.QueueCancelled? || step.LoopWakes? || step.CallDone?) && Next(p, step, p')
    ensures Sound(p')
  {
    forall id
      ensures ItemOk(p', id)
    {
      assert ItemOk(p, id);
      LoopKeepsItem(p, step, p', id);
    }
  }

  // ---- Runs ----

  lemma FetchKeepsSound(p: Pool, w: nat, p': Pool)
    requires Sound(p) && FetchStep(p, w, p')
    ensures Sound(p')
  {
    if MustWait(p) {
      SleepKeepsSound(p, w, p');
    } else if p.wq[0] == Exit {
      ExitKeepsSound(p, w, p');
    } else if p.wq[0].Work? {
      FetchWorkKeepsSound(p, w, p');
    } else if p.slowRunning < Threshold(p) && p.slowPending != [] {
      FetchSlowKeepsSound(p, w, p');
    } else {
      MessageMovesKeepsSound(p, w, p');
    }
  }

  lemma InitialSound(p: Pool)
    requires Initial(p)
    ensures Sound(p)
  {
    CountNone(p.workers, IsIdle);
    CountNone(p.workers, IsSlow);
    forall id
      ensures ItemOk(p, id)
    {
      assert forall slow :: Working(id, slow) !in p.workers;
    }
  }

  lemma NextKeepsSound(p: Pool, step: Step, p': Pool)
    requires Sound(p) && Next(p, step, p')
    ensures Sound(p')
  {
    match step
    case Submit(_, _) => SubmitKeepsSound(p, step, p');
    case PostExit => PostExitKeepsSound(p, step, p');
    case Fetch(w) => FetchKeepsSound(p, w, p');
    case TakeMutex(_) => IdleStepKeepsSound(p, step, p');
    case SpuriousWakeup(_) => IdleStepKeepsSound(p, step, p');
    case Return(_) => IdleStepKeepsSound(p, step, p');
    case FinishWork(_) => FinishWorkKeepsSound(p, step, p');
    case Cancel(_) => CancelKeepsSound(p, step, p');
    case QueueCancelled => LoopKeepsSound(p, step, p');
    case LoopWakes => LoopKeepsSound(p, step, p');
    case CallDone => LoopKeepsSound(p, step, p');
  }

  // ---- Enough threads are awake ----

  /** A signal wakes one thread, if any sleeps. */
  lemma SignalWakesOne(ws: seq<Worker>, ws': seq<Worker>)
    requires Signalled(ws, ws')
    ensures |ws'| == |ws|
    ensures Asleep in ws' ==> Asleep in ws && Count(ws', IsAwake) == Count(ws, IsAwake) + 1
  {
    if Asleep in ws {
      var i :| 0 <= i < |ws| && ws[i] == Asleep && ws' == ws[i := Woken];
      CountUpdate(ws, IsAwake, i, Woken);
    }
  }

  /** if (idle_threads > 0) makes no difference. */
  lemma IdleIsSignalled(idle: nat, ws: seq<Worker>, ws': seq<Worker>)
    requires idle == Count(ws, IsIdle) && SignalledIfIdle(idle, ws, ws')
    ensures Signalled(ws, ws')
  {
    CountNone(ws, IsIdle);
    if Asleep in ws {
      var i :| 0 <= i < |ws| && ws[i] == Asleep;
      assert IsIdle(ws[i]);
    }
  }

  lemma PostKeepsAwake(p: Pool, step: Step, p': Pool)
    requires Inv(p) && (step.Submit? || step.PostExit?) && Next(p, step, p')
    ensures EnoughAwake(p')
  {
    if |p'.wq| > |p.wq| {
      IdleIsSignalled(p.idleThreads, p.workers, p'.workers);
      SignalWakesOne(p.workers, p'.workers);
    }
  }

  lemma FetchSlowKeepsAwake(p: Pool, w: nat, p': Pool)
    requires Inv(p) && FetchStep(p, w, p') && !MustWait(p) && p.wq[0] == SlowMessage
    requires p.slowRunning < Threshold(p) && p.slowPending != []
    ensures EnoughAwake(p')
  {
    var s := Working(p.slowPending[0], true);
    var ws := p.workers[w := s];
    CountUpdate(p.workers, IsAwake, w, s);
    CountUpdate(p.workers, IsIdle, w, s);
    if |p.slowPending| > 1 {
      IdleIsSignalled(p.idleThreads, ws, p'.workers);
      SignalWakesOne(ws, p'.workers);
    }
  }

  lemma FetchKeepsAwake(p: Pool, w: nat, p': Pool)
    requires Inv(p) && FetchStep(p, w, p')
    ensures EnoughAwake(p')
  {
    if MustWait(p) {
    } else if p.wq[0] == Exit {
      CountUpdate(p.workers, IsAwake, w, Gone);
      SignalWakesOne(p.workers[w := Gone], p'.workers);
    } else if p.wq[0].Work? {
      CountUpdate(p.workers, IsAwake, w, Working(p.wq[0].id, false));
    } else if p.slowRunning < Threshold(p) && p.slowPending != [] {
      FetchSlowKeepsAwake(p, w, p');
    }
  }

  lemma WorkerKeepsAwake(p: Pool, step: Step, p': Pool)
    requires Inv(p) && (step.TakeMutex? || step.SpuriousWakeup? || step.FinishWork? || step.Return?)
    requires Next(p, step, p')
    ensures EnoughAwake(p')
  {
    CountUpdate(p.workers, IsAwake, step.w, p'.workers[step.w]);
  }

  lemma CancelKeepsAwake(p: Pool, step: Step, p': Pool)
    requires Inv(p) && step.Cancel? && Next(p, step, p')
    ensures EnoughAwake(p')
  {
    WithoutShorter(p.wq, Work(step.id));
    WithoutCount(p.wq, Work(step.id), SlowMessage);
    assert SlowMessage in p.wq <==> SlowMessage in multiset(p.wq);
    assert p' != p ==> (SlowMessage in p'.wq <==> SlowMessage in multiset(p'.wq));
  }

  lemma NextKeepsInv(p: Pool, step: Step, p': Pool)
    requires Inv(p) && Next(p, step, p')
    ensures Inv(p')
  {
    NextKeepsSound(p, step, p');
    match step
    case Submit(_, _) => PostKeepsAwake(p, step, p');
    case PostExit => PostKeepsAwake(p, step, p');
    case Fetch(w) => FetchKeepsAwake(p, w, p');
    case TakeMutex(_) => WorkerKeepsAwake(p, step, p');
    case SpuriousWakeup(_) => WorkerKeepsAwake(p, step, p');
    case FinishWork(_) => WorkerKeepsAwake(p, step, p');
    case Return(_) => WorkerKeepsAwake(p, step, p');
    case Cancel(_) => CancelKeepsAwake(p, step, p');
    case QueueCancelled =>
    case LoopWakes =>
    case CallDone =>
  }

  ghost predicate StepAt(run: seq<Pool>, steps: seq<Step>, i: nat) {
    i < |steps| && i + 1 < |run| && Next(run[i], steps[i], run[i + 1])
  }

  ghost predicate IsRun(run: seq<Pool>, steps: seq<Step>) {
    && |run| == |steps| + 1 && Initial(run[0])
    && forall i :: 0 <= i < |steps| ==> StepAt(run, steps, i)
  }

  lemma {:induction false} RunsKeepInv(run: seq<Pool>, steps: seq<Step>, i: nat)
    requires IsRun(run, steps) && i < |run|
    ensures Inv(run[i])
  {
    if i == 0 {
      InitialSound(run[0]);
    } else {
      RunsKeepInv(run, steps, i - 1);
      assert StepAt(run, steps, i - 1);
      NextKeepsInv(run[i - 1], steps[i - 1], run[i]);
    }
  }

  // ---- What it means ----

  /** In every run: never more than half of the threads (rounded up) run slow work. */
  lemma SlowWorkIsBounded(run: seq<Pool>, steps: seq<Step>, i: nat)
    requires IsRun(run, steps) && i < |run|
    ensures Count(run[i].workers, IsSlow) <= (|run[i].workers| + 1) / 2
  {
    RunsKeepInv(run, steps, i);
  }

  /** Pending slow work always has its message in the queue, once. */
  lemma SlowWorkIsScheduled(run: seq<Pool>, steps: seq<Step>, i: nat)
    requires IsRun(run, steps) && i < |run| && run[i].slowPending != []
    ensures multiset(run[i].wq)[SlowMessage] == 1
  {
    RunsKeepInv(run, steps, i);
    assert SlowMessage in multiset(run[i].wq);
  }

  /** done is called at most once; an item whose done was called with UV_ECANCELED was never
      run, any other was run exactly once. */
  lemma DoneOnce(run: seq<Pool>, steps: seq<Step>, i: nat, id: Id)
    requires IsRun(run, steps) && i < |run| && id in run[i].finished
    ensures |run[i].finished[id]| == 1 && id in run[i].runs
    ensures run[i].runs[id] == if run[i].finished[id][0] then 0 else 1
    ensures Waiting(run[i], id) + Running(run[i], id) + OnItsWay(run[i], id) == 0
  {
    RunsKeepInv(run, steps, i);
    assert ItemOk(run[i], id);
  }

  lemma NotRunning(p: Pool, w: nat, id: Id)
    requires ItemOk(p, id) && id in p.work && p.work[id] == CancelledMark && w < |p.workers|
    ensures RunsAt(p.workers[w], id) == 0
  {
    assert p.workers[w] in multiset(p.workers);
  }

  lemma MarkStays(p: Pool, step: Step, p': Pool, id: Id)
    requires Next(p, step, p') && id in p.work && p.work[id] == CancelledMark
    requires step.FinishWork? ==> RunsAt(p.workers[step.w], id) == 0
    ensures id in p'.work && p'.work[id] == CancelledMark
  {
    if step.Fetch? {
      FetchKeepsWork(p, step.w, p');
    } else if step.Submit? || step.Cancel? || step.FinishWork? {
      MarkStaysAt(p, step, p', id);
    } else {
      assert p'.work == p.work;
    }
  }

  lemma FetchKeepsWork(p: Pool, w: nat, p': Pool)
    requires FetchStep(p, w, p')
    ensures p'.work == p.work
  {
  }

  lemma MarkStaysAt(p: Pool, step: Step, p': Pool, id: Id)
    requires step.Submit? || step.Cancel? || step.FinishWork?
    requires Next(p, step, p') && id in p.work && p.work[id] == CancelledMark
    requires step.FinishWork? ==> RunsAt(p.workers[step.w], id) == 0
    ensures id in p'.work && p'.work[id] == CancelledMark
  {
  }

  /** A successful cancellation means the callback has not been started and never will. */
  lemma CancelledNeverRuns(p: Pool, step: Step, p': Pool, id: Id)
    requires Inv(p) && Next(p, step, p') && id in p.work && p.work[id] == CancelledMark
    ensures id in p'.work && p'.work[id] == CancelledMark && id in p'.runs && p'.runs[id] == 0
  {
    assert ItemOk(p, id);
    if step.FinishWork? {
      NotRunning(p, step.w, id);
    }
    MarkStays(p, step, p', id);
    NextKeepsInv(p, step, p');
    MarkedIsUnrun(p', id);
  }

  lemma MarkedIsUnrun(p: Pool, id: Id)
    requires ItemOk(p, id) && id in p.work && p.work[id] == CancelledMark
    ensures id in p.runs && p.runs[id] == 0
  {
  }

  /** In every run: a thread sleeps only if every entry of the queue, but for a message held
      back by the threshold, has a thread of its own that has been woken or is about to look. */
  lemma NoWorkIsLeftWaiting(run: seq<Pool>, steps: seq<Step>, i: nat)
    requires IsRun(run, steps) && i < |run| && Asleep in run[i].workers
    ensures var p := run[i];
            var held := SlowMessage in p.wq && Count(p.workers, IsSlow) >= (|p.workers| + 1) / 2;
            |p.wq| - (if held then 1 else 0) <= Count(p.workers, IsAwake)
  {
    RunsKeepInv(run, steps, i);
  }

  /** uv_cancel succeeds if, and only if, the callback has not been started. */
  lemma CancelSucceedsIff(p: Pool, id: Id, p': Pool)
    requires Inv(p) && Next(p, Cancel(id), p')
    ensures id in p.runs && (p'.cancelling == Some(id) <==> p.runs[id] == 0)
    ensures if p.runs[id] == 0 then Waiting(p', id) == 0 && p'.work == p.work[id := CancelledMark] else p' == p
  {
    assert ItemOk(p, id);
    NextKeepsSound(p, Cancel(id), p');
    assert ItemOk(p', id);
  }

  ghost predicate Ahead<T>(q: seq<T>, x: T, y: T) { exists i, j :: 0 <= i < j < |q| && q[i] == x && q[j] == y }

  lemma {:induction false} WithoutKeepsOrder<T>(q: seq<T>, z: T, x: T, y: T)
    requires Ahead(q, x, y) && z != x && z != y
    ensures Ahead(Without(q, z), x, y)
    decreases |q|
  {
    var i, j :| 0 <= i < j < |q| && q[i] == x && q[j] == y;
    if q[0] != z {
      var rest := Without(q[1..], z);
      assert q[1..][j - 1] == y;
      if i == 0 {
        WithoutKeeps(q[1..], z, y);
        var k :| 0 <= k < |rest| && rest[k] == y;
        assert Without(q, z)[0] == x && Without(q, z)[k + 1] == y;
      } else {
        assert q[1..][i - 1] == x;
        WithoutKeepsOrder(q[1..], z, x, y);
        var k, l :| 0 <= k < l < |rest| && rest[k] == x && rest[l] == y;
        assert Without(q, z)[k + 1] == x && Without(q, z)[l + 1] == y;
      }
    } else {
      assert q[1..][i - 1] == x && q[1..][j - 1] == y;
    }
  }

  lemma WithoutKeeps<T>(q: seq<T>, z: T, x: T)
    requires x in q && z != x
    ensures x in Without(q, z)
  {
    WithoutCount(q, z, x);
    assert x in multiset(q) && x in multiset(Without(q, z));
  }

  lemma TailKeepsOrder<T>(q: seq<T>, more: seq<T>, x: T, y: T)
    requires Ahead(q, x, y)
    ensures Ahead(q + more, x, y)
    ensures q[0] != x ==> Ahead(q[1..] + more, x, y)
  {
    var i, j :| 0 <= i < j < |q| && q[i] == x && q[j] == y;
    assert (q + more)[i] == x && (q + more)[j] == y;
    if q[0] != x {
      assert (q[1..] + more)[i - 1] == x && (q[1..] + more)[j - 1] == y;
    }
  }

  /** Each step takes an item from the front of a queue or leaves the order alone. */
  ghost predicate OrderKept<T>(q: seq<T>, q': seq<T>, x: T, y: T) {
    Ahead(q, x, y) ==> Ahead(q', x, y) || x !in q' || y !in q'
  }

  lemma HeadIsGone<T>(q: seq<T>, more: seq<T>, x: T, y: T)
    requires multiset(q)[x] <= 1 && x !in more
    ensures q != [] ==> OrderKept(q, q[1..] + more, x, y)
  {
    if Ahead(q, x, y) {
      TailKeepsOrder(q, more, x, y);
      Head(q);
      if q[0] == x {
        assert x !in multiset(q[1..]);
      }
    }
  }

  lemma BehindIsNotFirst<T>(q: seq<T>, x: T, y: T)
    requires Ahead(q, x, y)
    ensures multiset(q)[y] >= 1 && (q[0] == y ==> multiset(q)[y] >= 2)
  {
    var i, j :| 0 <= i < j < |q| && q[i] == x && q[j] == y;
    assert q[1..][j - 1] == y && y in multiset(q[1..]);
    Head(q);
  }

  lemma WithoutOrder<T>(q: seq<T>, z: T, x: T, y: T)
    requires multiset(q)[x] <= 1 && multiset(q)[y] <= 1
    ensures OrderKept(q, Without(q, z), x, y)
  {
    if Ahead(q, x, y) {
      if z != x && z != y {
        WithoutKeepsOrder(q, z, x, y);
      } else {
        WithoutCount(q, z, z);
        assert z !in multiset(Without(q, z));
      }
    }
  }

  /** What a step other than a cancellation does to a queue: it appends, or takes the first entry,
      which may be the message that it puts back at the end. */
  ghost predicate Advances<T>(q: seq<T>, q': seq<T>) {
    q <= q' || (q != [] && q' == q[1..])
  }

  lemma FetchAdvances(p: Pool, w: nat, p': Pool)
    requires FetchStep(p, w, p')
    ensures Advances(p.wq, p'.wq) || (p.wq != [] && p'.wq == p.wq[1..] + [SlowMessage])
    ensures Advances(p.slowPending, p'.slowPending)
  {
  }

  lemma StepAdvances(p: Pool, step: Step, p': Pool)
    requires Next(p, step, p') && !step.Cancel?
    ensures Advances(p.wq, p'.wq) || (p.wq != [] && p'.wq == p.wq[1..] + [SlowMessage])
    ensures Advances(p.slowPending, p'.slowPending)
  {
    if step.Fetch? {
      FetchAdvances(p, step.w, p');
    }
  }

  lemma AdvancesKeepsOrder<T>(q: seq<T>, q': seq<T>, x: T, y: T)
    requires Advances(q, q') && multiset(q)[x] <= 1
    ensures OrderKept(q, q', x, y)
  {
    if q <= q' {
      if Ahead(q, x, y) {
        TailKeepsOrder(q, q'[|q|..], x, y);
        assert q' == q + q'[|q|..];
      }
    } else {
      HeadIsGone(q, [], x, y);
      assert q[1..] + [] == q[1..];
    }
  }

  lemma QueueKeepsOrder(p: Pool, step: Step, p': Pool, a: Id, b: Id)
    requires ItemOk(p, a) && ItemOk(p, b) && Next(p, step, p')
    ensures OrderKept(p.wq, p'.wq, Work(a), Work(b))
  {
    if step.Cancel? {
      WithoutOrder(p.wq, Work(step.id), Work(a), Work(b));
    } else {
      StepAdvances(p, step, p');
      if Advances(p.wq, p'.wq) {
        AdvancesKeepsOrder(p.wq, p'.wq, Work(a), Work(b));
      } else {
        HeadIsGone(p.wq, [SlowMessage], Work(a), Work(b));
      }
    }
  }

  lemma PendingKeepsOrder(p: Pool, step: Step, p': Pool, a: Id, b: Id)
    requires ItemOk(p, a) && ItemOk(p, b) && Next(p, step, p')
    ensures OrderKept(p.slowPending, p'.slowPending, a, b)
  {
    if step.Cancel? {
      WithoutOrder(p.slowPending, step.id, a, b);
    } else {
      StepAdvances(p, step, p');
      AdvancesKeepsOrder(p.slowPending, p'.slowPending, a, b);
    }
  }

  lemma OnlyFirstIsStarted(p: Pool, step: Step, p': Pool, id: Id)
    requires ItemOk(p, id) && Next(p, step, p') && id in p.runs && (step.Submit? ==> step.id != id)
    requires !(p.wq != [] && p.wq[0] == Work(id)) && !(p.slowPending != [] && p.slowPending[0] == id)
    ensures id in p'.runs && p'.runs[id] == p.runs[id]
  {
    if step.Fetch? {
      FetchStartsFirst(p, step.w, p', id);
    } else if step.Submit? {
      assert p'.runs == p.runs[step.id := 0];
    } else {
      assert p'.runs == p.runs;
    }
  }

  lemma FetchStartsFirst(p: Pool, w: nat, p': Pool, id: Id)
    requires FetchStep(p, w, p') && id in p.runs
    requires !(p.wq != [] && p.wq[0] == Work(id)) && !(p.slowPending != [] && p.slowPending[0] == id)
    ensures id in p'.runs && p'.runs[id] == p.runs[id]
  {
    if !MustWait(p) && p.wq[0] == SlowMessage && p.slowPending != [] && p.slowRunning < Threshold(p) {
      FetchSlowElse(p, w, p', id);
    }
  }

  /** First come, first served: while one item is ahead of another in a queue, the other is not
      started, and it stays behind until one of them leaves the queue. */
  lemma FirstComeFirstServed(p: Pool, step: Step, p': Pool, a: Id, b: Id)
    requires Inv(p) && Next(p, step, p')
    requires Ahead(p.wq, Work(a), Work(b)) || Ahead(p.slowPending, a, b)
    ensures b in p.runs && b in p'.runs && p'.runs[b] == p.runs[b]
    ensures OrderKept(p.wq, p'.wq, Work(a), Work(b)) && OrderKept(p.slowPending, p'.slowPending, a, b)
  {
    assert ItemOk(p, a) && ItemOk(p, b);
    QueueKeepsOrder(p, step, p', a, b);
    PendingKeepsOrder(p, step, p', a, b);
    if Ahead(p.wq, Work(a), Work(b)) {
      BehindIsNotFirst(p.wq, Work(a), Work(b));
    } else {
      BehindIsNotFirst(p.slowPending, a, b);
    }
    assert p.wq != [] && p.wq[0] == Work(b) ==> Work(b) in multiset(p.wq);
    assert p.slowPending != [] && p.slowPending[0] == b ==> b in multiset(p.slowPending);
    OnlyFirstIsStarted(p, step, p', b);
  }

  /** New work goes behind all that is queued. */
  lemma SubmittedIsLast(p: Pool, id: Id, kind: Kind, p': Pool)
    requires Next(p, Submit(id, kind), p')
    ensures kind == Cpu ==> forall x :: x in p.wq ==> Ahead(p'.wq, x, Work(id))
    ensures kind == SlowIo ==> forall x :: x in p.slowPending ==> Ahead(p'.slowPending, x, id)
  {
    if kind == Cpu {
      forall x | x in p.wq
        ensures Ahead(p'.wq, x, Work(id))
      {
        var i :| 0 <= i < |p.wq| && p.wq[i] == x;
        assert p'.wq[i] == x && p'.wq[|p.wq|] == Work(id);
      }
    } else {
      forall x | x in p.slowPending
        ensures Ahead(p'.slowPending, x, id)
      {
        var i :| 0 <= i < |p.slowPending| && p.slowPending[i] == x;
        assert p'.slowPending[i] == x && p'.slowPending[|p.slowPending|] == id;
      }
    }
  }

  /** No deadlock and no lost work: when every thread sleeps and the loop has nothing to do,
      every submitted item is finished. */
  lemma QuietMeansFinished(p: Pool, id: Id)
    requires Inv(p) && (forall i :: 0 <= i < |p.workers| ==> p.workers[i] == Asleep)
    requires !p.notified && p.batch == [] && p.cancelling.None? && id in p.work
    ensures id in p.finished
  {
    CountNone(p.workers, IsSlow);
    CountNone(p.workers, IsAwake);
    assert p.workers[0] == Asleep && Asleep in p.workers;
    assert Due(p) == 0 && !HeldBack(p);
    assert p.wq == [] && p.slowPending == [];
    assert forall slow :: Working(id, slow) !in multiset(p.workers);
    assert ItemOk(p, id);
  }
}
