/** Group commit under every interleaving. */
module WriteQueueProofs {
  import opened Wrappers
  import opened InternalKeys
  import opened Durability
  import opened DurabilityProofs
  import opened DurableWrites
  import opened WriteQueue

  lemma StartInv(st: State)
    requires Start(st)
    ensures Inv(st.db) && QueueInv(st)
  {
  }

  /** The step of the durability protocol that an event is, if any. */
  ghost function DbStep(st: State, event: Event): Option<Step> {
    match event
    case Switch => Some(SwitchMemtable)
    case StartGroup(count) => if count <= |st.queue|
      && st.queue != [] then Some(Begin(AllOps(Waiting(st)[..count]), Waiting(st)[0].sync)) else None
    case Work(step) => Some(step)
    case FinishGroup => Some(End)
    case Background(step) => Some(step)
    case _ => None
  }

  /** Any other event leaves the database alone. */
  lemma EventIsDbStep(st: State, event: Event, st': State)
    requires NextState(st, event, st')
    ensures match DbStep(st, event) case Some(step) => Next(st.db, step, st'.db) case None => st'.db == st.db
  {
  }

  lemma DbMoves(st: State, event: Event, st': State)
    requires Inv(st.db) && NextState(st, event, st')
    ensures Inv(st'.db)
  {
    EventIsDbStep(st, event, st');
    var step := DbStep(st, event);
    if step.Some? {
      NextKeepsInv(st.db, step.value, st'.db);
    }
  }

  // ---- Events that leave the queue's front alone ----

  lemma SamePhase(st: State, st': State)
    requires PhaseOk(st) && st'.phase == st.phase && st.queue <= st'.queue && st.arrived <= st'.arrived && QueueOk(st)
    requires st'.db.commit.Some? == st.db.commit.Some?
    requires st.db.commit.Some? ==>
               st'.db.commit.value.record == st.db.commit.value.record
               && st'.db.commit.value.sync == st.db.commit.value.sync
    ensures PhaseOk(st')
  {
    if st.phase.Committing? {
      var count := st.phase.count;
      assert forall i :: 0 <= i < count ==> Waiting(st')[i] == Waiting(st)[i];
      assert Waiting(st')[..count] == Waiting(st)[..count];
    }
  }

  lemma SameRanges(st: State, st': State)
    requires RangesOk(st) && st'.before == st.before && st'.numbered == st.numbered && st'.status == st.status
    requires st.arrived <= st'.arrived && Finished(st') == Finished(st) && st'.db.lastSequence == st.db.lastSequence
    ensures RangesOk(st')
  {
    forall id: nat | id < Finished(st')
      ensures RangeOk(st', id) && NumberedOk(st', id)
    {
      assert RangeOk(st, id) && NumberedOk(st, id);
    }
  }

  lemma ArriveKeepsInv(st: State, event: Event, st': State)
    requires QueueInv(st) && event.Arrive? && NextState(st, event, st')
    ensures QueueInv(st')
  {
    SameRanges(st, st');
    SamePhase(st, st');
  }

  lemma SleepKeepsInv(st: State, event: Event, st': State)
    requires QueueInv(st) && (event.FallAsleep? || event.WakeUp? || event.Lead?) && NextState(st, event, st')
    ensures QueueInv(st')
  {
    SameRanges(st, st');
    if !event.Lead? {
      SamePhase(st, st');
    }
  }

  /** The durability protocol's own steps. */
  lemma DbKeepsInv(st: State, event: Event, st': State)
    requires QueueInv(st) && (event.Switch? || event.Work? || event.Background?) && NextState(st, event, st')
    ensures QueueInv(st')
  {
    DbKeepsCommit(st.db, if event.Switch? then SwitchMemtable else event.step, st'.db);
    SameRanges(st, st');
    if !event.Switch? {
      SamePhase(st, st');
    }
  }

  lemma DbKeepsCommit(db: Db, step: Step, db': Db)
    requires Next(db, step, db') && !step.Begin? && !step.End? && !step.Recover?
    ensures db'.lastSequence == db.lastSequence && db'.commit.Some? == db.commit.Some?
    ensures db.commit.Some? ==>
              db'.commit.value.record == db.commit.value.record
              && db'.commit.value.sync == db.commit.value.sync
  {
  }

  lemma StartGroupKeepsInv(st: State, event: Event, st': State)
    requires QueueInv(st) && event.StartGroup? && NextState(st, event, st')
    ensures QueueInv(st')
  {
    var ws, count := Waiting(st), event.count;
    SameRanges(st, st');
    assert Waiting(st') == ws;
    forall i | 0 <= i < count && ws[i].sync
      ensures ws[0].sync
    {
      assert i > 0 ==> Joins(ws, i);
    }
  }

  // ---- Events that finish writers ----

  lemma PoppedIds(st: State, count: nat)
    requires QueueOk(st) && count <= |st.queue|
    ensures forall id: nat :: id in st.queue[..count] <==> Finished(st) <= id < Finished(st) + count
  {
    forall id: nat | Finished(st) <= id < Finished(st) + count
      ensures id in st.queue[..count]
    {
      assert st.queue[..count][id - Finished(st)] == id;
    }
  }

  lemma FinishKeepsOrder(st: State, count: nat, s: Status, numbered: bool, st': State)
    requires QueueOk(st) && Finishes(st, count, s, numbered, st')
    ensures QueueOk(st') && Finished(st') == Finished(st) + count
  {
    PoppedIds(st, count);
  }

  lemma FinishKeepsQueue(st: State, count: nat, s: Status, numbered: bool, st': State)
    requires QueueOk(st) && NoLostWakeup(st) && Finishes(st, count, s, numbered, st')
    ensures QueueOk(st') && NoLostWakeup(st') && Finished(st') == Finished(st) + count
  {
    FinishKeepsOrder(st, count, s, numbered, st');
    PoppedIds(st, count);
    forall id | id in st'.asleep
      ensures Finished(st') < id < |st'.arrived|
    {
      assert id in st.asleep && id !in st.queue[..count];
      assert st'.queue != [] ==> id !in [st'.queue[0]] && st'.queue[0] == Finished(st');
    }
  }

  /** The number before the k-th writer of a group. */
  ghost function Offset(st: State, numbered: bool, k: nat): nat
    requires k <= |st.queue|
  {
    st.db.lastSequence + if numbered then |AllOps(Waiting(st)[..k])| else 0
  }

  lemma OffsetStep(st: State, numbered: bool, k: nat)
    requires k < |st.queue|
    ensures Offset(st, numbered, 0) == st.db.lastSequence
    ensures Offset(st, numbered, k + 1) == Offset(st, numbered, k) + if numbered then |Waiting(st)[k].Ops()| else 0
  {
    var ws := Waiting(st);
    assert ws[..0] == [];
    assert ws[..k + 1][..k] == ws[..k] && ws[..k + 1][k] == ws[k];
  }

  ghost predicate NewAt(st: State, numbered: bool, s: Status, st': State, k: nat)
    requires k < |st.queue|
  {
    var id, w := st.queue[k], Waiting(st)[k];
    && id in st'.before && id in st'.numbered && id in st'.status
    && st'.before[id] == Offset(st, numbered, k)
    && st'.before[id] + st'.numbered[id] == Offset(st, numbered, k + 1)
    && st'.numbered[id] == (if numbered then |w.Ops()| else 0)
    && st'.status[id] == s
  }

  ghost predicate OldAt(st: State, st': State, id: nat) {
    && id in st.before && id in st.numbered && id in st.status
    && id in st'.before && id in st'.numbered && id in st'.status
    && st'.before[id] == st.before[id] && st'.numbered[id] == st.numbered[id] && st'.status[id] == st.status[id]
  }

  lemma NewRange(st: State, count: nat, s: Status, numbered: bool, st': State, k: nat)
    requires Finishes(st, count, s, numbered, st') && k < count
    ensures NewAt(st, numbered, s, st', k)
  {
    assert Numbers(st, numbered, st', k);
    OffsetStep(st, numbered, k);
    assert st.queue[..count][k] == st.queue[k];
  }

  lemma OldRange(st: State, count: nat, s: Status, numbered: bool, st': State, id: nat)
    requires QueueOk(st) && Finishes(st, count, s, numbered, st') && id < Finished(st)
    ensures OldAt(st, st', id)
  {
    PoppedIds(st, count);
  }

  /** The old calls keep their ranges, and the first finished call follows the last one. */
  lemma OldKeepsRange(st: State, numbered: bool, s: Status, st': State, id: nat)
    requires QueueOk(st) && QueueOk(st') && Finished(st') > Finished(st) && st'.arrived == st.arrived && |st.queue| > 0
    requires id < Finished(st) && RangeOk(st, id) && NumberedOk(st, id) && OldAt(st, st', id)
    requires if id + 1 < Finished(st) then OldAt(st, st', id + 1) else NewAt(st, numbered, s, st', 0)
    ensures RangeOk(st', id) && NumberedOk(st', id)
  {
    OffsetStep(st, numbered, 0);
    assert st.queue[0] == Finished(st);
  }

  /** The finished calls follow each other, up to the new LastSequence. */
  lemma NewHasRange(st: State, count: nat, numbered: bool, s: Status, st': State, k: nat)
    requires QueueOk(st) && QueueOk(st') && Finished(st') == Finished(st) + count && st'.arrived == st.arrived
             && k < count <= |st.queue|
    requires NewAt(st, numbered, s, st', k) && (k + 1 < count ==> NewAt(st, numbered, s, st', k + 1))
    requires st'.db.lastSequence == Offset(st, numbered, count)
    requires numbered || s == Failed || Waiting(st)[k].Ops() == []
    ensures RangeOk(st', st.queue[k]) && NumberedOk(st', st.queue[k])
  {
    assert k + 1 < count ==> st.queue[k + 1] == st.queue[k] + 1;
  }

  lemma OldRanges(st: State, count: nat, s: Status, numbered: bool, st': State, id: nat)
    requires QueueOk(st) && QueueOk(st') && RangesOk(st) && Finishes(st, count, s, numbered, st') && 1 <= count
    requires Finished(st') == Finished(st) + count && id < Finished(st)
    ensures RangeOk(st', id) && NumberedOk(st', id)
  {
    assert RangeOk(st, id) && NumberedOk(st, id);
    OldRange(st, count, s, numbered, st', id);
    if id + 1 < Finished(st) {
      OldRange(st, count, s, numbered, st', id + 1);
    } else {
      NewRange(st, count, s, numbered, st', 0);
    }
    OldKeepsRange(st, numbered, s, st', id);
  }

  lemma RangesJoin(st: State, count: nat, st': State)
    requires QueueOk(st) && count <= |st.queue| && Finished(st') == Finished(st) + count
    requires forall id: nat :: id < Finished(st) ==> RangeOk(st', id) && NumberedOk(st', id)
    requires forall k :: 0 <= k < count ==> RangeOk(st', st.queue[k]) && NumberedOk(st', st.queue[k])
    ensures RangesOk(st')
  {
    forall id: nat | id < Finished(st')
      ensures RangeOk(st', id) && NumberedOk(st', id)
    {
      if id >= Finished(st) {
        assert st.queue[id - Finished(st)] == id;
      }
    }
  }

  /** The ranges of the finished writers join up with those before and after them. */
  lemma FinishKeepsInv(st: State, count: nat, s: Status, numbered: bool, st': State)
    requires QueueInv(st) && Finishes(st, count, s, numbered, st') && 1 <= count && st'.db.commit.None?
    requires st'.db.lastSequence == Offset(st, numbered, count)
    requires numbered || s == Failed || (count == 1 && Waiting(st)[0].Ops() == [])
    ensures QueueInv(st')
  {
    FinishKeepsQueue(st, count, s, numbered, st');
    forall id: nat | id < Finished(st)
      ensures RangeOk(st', id) && NumberedOk(st', id)
    {
      OldRanges(st, count, s, numbered, st', id);
    }
    forall k | 0 <= k < count
      ensures NewAt(st, numbered, s, st', k)
    {
      NewRange(st, count, s, numbered, st', k);
    }
    forall k | 0 <= k < count
      ensures RangeOk(st', st.queue[k]) && NumberedOk(st', st.queue[k])
    {
      NewHasRange(st, count, numbered, s, st', k);
    }
    RangesJoin(st, count, st');
  }

  lemma NextKeepsQueueInv(st: State, event: Event, st': State)
    requires QueueInv(st) && NextState(st, event, st')
    ensures QueueInv(st')
  {
    match event
    case Arrive(_) => ArriveKeepsInv(st, event, st');
    case FallAsleep(_) => SleepKeepsInv(st, event, st');
    case WakeUp(_) => SleepKeepsInv(st, event, st');
    case Lead => SleepKeepsInv(st, event, st');
    case Switch => DbKeepsInv(st, event, st');
    case Work(_) => DbKeepsInv(st, event, st');
    case Background(_) => DbKeepsInv(st, event, st');
    case StartGroup(_) => StartGroupKeepsInv(st, event, st');
    case RoomFails => FinishKeepsInv(st, 1, Failed, false, st');
    case PassNull => FinishKeepsInv(st, 1, Ok, false, st');
    case FinishGroup => FinishKeepsInv(st, st.phase.count, if st.db.commit.value.stage.ok then Ok else Failed, true,
      st');
  }

  // ---- Runs ----

  ghost predicate EventAt(run: seq<State>, events: seq<Event>, i: nat) {
    i < |events| && i + 1 < |run| && NextState(run[i], events[i], run[i + 1])
  }

  ghost predicate IsQueueRun(run: seq<State>, events: seq<Event>) {
    && |run| == |events| + 1 && Start(run[0])
    && forall i :: 0 <= i < |events| ==> EventAt(run, events, i)
  }

  lemma {:induction false} QueueRunsKeepInv(run: seq<State>, events: seq<Event>, i: nat)
    requires IsQueueRun(run, events) && i < |run|
    ensures Inv(run[i].db) && QueueInv(run[i])
  {
    if i == 0 {
      StartInv(run[0]);
    } else {
      QueueRunsKeepInv(run, events, i - 1);
      assert EventAt(run, events, i - 1);
      DbMoves(run[i - 1], events[i - 1], run[i]);
      NextKeepsQueueInv(run[i - 1], events[i - 1], run[i]);
    }
  }

  // ---- What callers may rely on ----

  /** Every call is waiting or finished, never both, and what is finished stays as it is: a
      call finishes exactly once. */
  lemma {:induction false} CallsFinishOnce(run: seq<State>, events: seq<Event>, i: nat, j: nat, id: Id)
    requires IsQueueRun(run, events) && i <= j < |run| && id < |run[i].arrived|
    ensures id in run[i].status <==> id !in run[i].queue
    ensures id in run[i].status ==> id in run[j].status && run[j].status[id] == run[i].status[id]
    decreases j - i
  {
    QueueRunsKeepInv(run, events, i);
    WaitingOrFinished(run[i], id);
    if i < j && id in run[i].status {
      CallsFinishOnce(run, events, i, j - 1, id);
      FinishedStaysInRun(run, events, j - 1, id);
    }
  }

  lemma FinishedStaysInRun(run: seq<State>, events: seq<Event>, i: nat, id: Id)
    requires IsQueueRun(run, events) && i < |events| && id in run[i].status
    ensures id in run[i + 1].status && run[i + 1].status[id] == run[i].status[id]
  {
    QueueRunsKeepInv(run, events, i);
    assert EventAt(run, events, i);
    FinishedStays(run[i], events[i], run[i + 1], id);
  }

  lemma WaitingOrFinished(st: State, id: Id)
    requires QueueOk(st) && id < |st.arrived|
    ensures id in st.status <==> id !in st.queue
  {
    if id >= Finished(st) {
      assert st.queue[id - Finished(st)] == id;
    }
  }

  lemma FinishedStays(st: State, event: Event, st': State, id: Id)
    requires QueueOk(st) && NextState(st, event, st') && id in st.status
    ensures id in st'.status && st'.status[id] == st.status[id]
  {
    if event.RoomFails? || event.PassNull? {
      PoppedIds(st, 1);
    } else if event.FinishGroup? {
      PoppedIds(st, st.phase.count);
    }
  }

  /** Sequence numbers follow the order of arrival, without overlap. */
  lemma {:induction false} NumbersFollowArrival(st: State, a: Id, b: Id)
    requires QueueOk(st) && RangesOk(st) && a < b < Finished(st)
    ensures st.before[a] + st.numbered[a] <= st.before[b]
    decreases b
  {
    assert RangeOk(st, b - 1) && b in st.before;
    if a < b - 1 {
      NumbersFollowArrival(st, a, b - 1);
    }
  }

  lemma {:induction false} OpsOfGroup(ws: seq<Writer>, count: nat, k: nat, j: nat)
    requires k < count <= |ws| && j < |ws[k].Ops()|
    ensures |AllOps(ws[..k])| + j < |AllOps(ws[..count])|
    ensures AllOps(ws[..count])[|AllOps(ws[..k])| + j] == ws[k].Ops()[j]
    decreases count
  {
    assert ws[..count][..count - 1] == ws[..count - 1] && ws[..count][count - 1] == ws[count - 1];
    if k < count - 1 {
      OpsOfGroup(ws, count - 1, k, j);
    }
  }

  /** Operation j of a call, with the number its call was given. */
  function NumberedOp(op: Op, before: nat, j: nat): Entry {
    Entry(InternalKey(op.user, before + 1 + j, op.kind), op.value)
  }

  /** A group's record holds every member's operations under the numbers recorded for it. */
  lemma GroupHoldsMember(st: State, st': State, s: Status, count: nat, k: nat, j: nat)
    requires GroupOk(st, count) && k < count && j < |Waiting(st)[k].Ops()|
             && st.db.commit.value.record.sequence == st.db.lastSequence + 1
    requires NewAt(st, true, s, st', k)
    ensures st.db.commit.value.record.Holds(NumberedOp(Waiting(st)[k].Ops()[j], st'.before[st.queue[k]], j))
  {
    RecordHoldsOp(st.db.commit.value.record, Waiting(st), count, k, j);
  }

  lemma RecordHoldsOp(r: Record, ws: seq<Writer>, count: nat, k: nat, j: nat)
    requires k < count <= |ws| && j < |ws[k].Ops()| && r.ops == AllOps(ws[..count]) && 1 <= r.sequence
    ensures r.Holds(NumberedOp(ws[k].Ops()[j], r.sequence - 1 + |AllOps(ws[..k])|, j))
  {
    OpsOfGroup(ws, count, k, j);
  }

  /** When a group finishes with OK, every operation of every member is in the store under
      its own number, at once visible; when it fails, none is visible. */
  lemma FinishedGroupIsVisible(st: State, st': State, k: nat, j: nat)
    requires Inv(st.db) && QueueInv(st) && NextState(st, FinishGroup, st')
    requires k < st.phase.count && j < |Waiting(st)[k].Ops()|
    ensures st.queue[k] in st'.before && st.queue[k] in st'.status
    ensures var e := NumberedOp(Waiting(st)[k].Ops()[j], st'.before[st.queue[k]], j);
            !Readable(st.db, e) && (Readable(st'.db, e) <==> st'.status[st.queue[k]] == Ok)
  {
    var s := if st.db.commit.value.stage.ok then Ok else Failed;
    assert CommitOk(st.db);
    NewRange(st, st.phase.count, s, true, st', k);
    GroupHoldsMember(st, st', s, st.phase.count, k, j);
    EndDecides(st.db, st'.db, NumberedOp(Waiting(st)[k].Ops()[j], st'.before[st.queue[k]], j));
  }

  lemma EndDecides(db: Db, db': Db, e: Entry)
    requires Inv(db) && Next(db, End, db') && db.commit.value.record.Holds(e)
    ensures !Readable(db, e) && (Readable(db', e) <==> db.commit.value.stage.ok)
  {
    GroupsAppearAtOnce(db, End, db', e);
  }

  /** A sync write that returns OK, led by itself or by another writer, survives every crash
      if, and only if, the logs read its operations back. They do if the group's record can be
      read from its log, which it can unless an append to the log had failed. */
  lemma SyncWriterSurvives(st: State, st': State, k: nat, j: nat)
    requires Inv(st.db) && QueueInv(st) && NextState(st, FinishGroup, st')
    requires k < st.phase.count && Waiting(st)[k].sync && j < |Waiting(st)[k].Ops()| && st.db.commit.value.stage.ok
    ensures st.queue[k] in st'.before && st.queue[k] in st'.status && st'.status[st.queue[k]] == Ok
    ensures EndIsSafeIff(st.db, st'.db, NumberedOp(Waiting(st)[k].Ops()[j], st'.before[st.queue[k]], j))
  {
    NewRange(st, st.phase.count, Ok, true, st', k);
    GroupHoldsMember(st, st', Ok, st.phase.count, k, j);
    EndSurvives(st.db, st'.db, NumberedOp(Waiting(st)[k].Ops()[j], st'.before[st.queue[k]], j));
  }

  ghost predicate EndIsSafeIff(db: Db, db': Db, e: Entry)
    requires db.commit.Some? && db.commit.value.stage.Over?
  {
    && (SurvivesEveryCrash(db', e) <==> forall v :: Candidate(db, v) ==> Replays(db, v, e))
    && (ReadBack(db) ==> SurvivesEveryCrash(db', e))
    && (db.commit.value.stage.safe ==> ReadBack(db))
  }

  lemma EndSurvives(db: Db, db': Db, e: Entry)
    requires Inv(db) && Next(db, End, db') && db.commit.value.record.Holds(e)
    requires db.commit.value.stage.ok && db.commit.value.sync
    ensures EndIsSafeIff(db, db', e)
  {
    SyncedWriteSurvivesIff(db, End, db', e);
    if db.commit.value.stage.safe {
      SafeIsReadBack(db);
    }
    if ReadBack(db) {
      forall v | Candidate(db, v)
        ensures Replays(db, v, e)
      {
        ReadBackIsReplayed(db, v, e);
      }
    }
  }

  // ---- Errors ----

  /** An error stays, and nothing new is started: no commit, memtable switch, compaction or
      deletion of files, and a flush only inside a compaction under way. */
  lemma ErrorStays(db: Db, step: Step, db': Db)
    requires db.bgError && Next(db, step, db') && !step.Recover?
    ensures db'.bgError && !(step.Begin? || step.SwitchMemtable? || step.StartMerge? || step.Collect?)
    ensures step.StartFlush? ==> db.merging.Some?
  {
  }

  /** After a background error no group is started any more, and no call succeeds except those
      of a group already being committed. */
  lemma ErrorsAreFinal(st: State, event: Event, st': State)
    requires QueueInv(st) && st.db.bgError && NextState(st, event, st')
    ensures st'.db.bgError && (st'.phase.Committing? ==> st'.phase == st.phase)
    ensures !st.phase.Committing? ==> NoNewSuccess(st, st')
  {
    if event.Background? || event.Work? {
      ErrorStays(st.db, event.step, st'.db);
    }
  }

  ghost predicate NoNewSuccess(st: State, st': State) {
    forall id :: id in st'.status && id !in st.status ==> st'.status[id] == Failed
  }

  /** The group's sync has failed, or that has been recorded. */
  ghost predicate SyncHasFailed(st: State) {
    if st.phase.Committing? then st.db.commit.Some? && st.db.commit.value.stage == Over(false, true, false)
    else st.db.bgError
  }

  lemma FailedSyncSticks(st: State, event: Event, st': State)
    requires QueueInv(st) && SyncHasFailed(st) && NextState(st, event, st')
    ensures SyncHasFailed(st') && NoNewSuccess(st, st') && (event.FinishGroup? ==> !st'.phase.Committing?)
    ensures !st.phase.Committing? ==> !st'.phase.Committing?
  {
    if !st.phase.Committing? {
      ErrorsAreFinal(st, event, st');
    } else if event.Background? {
      BackgroundKeepsStage(st.db, event.step, st'.db);
    }
  }

  lemma BackgroundKeepsStage(db: Db, step: Step, db': Db)
    requires Next(db, step, db') && IsBackground(step)
    ensures db'.commit == db.commit
  {
  }

  lemma FailedSyncIsNoted(st: State, st': State)
    requires QueueInv(st) && NextState(st, Work(SyncFails), st')
    ensures SyncHasFailed(st') && st'.status == st.status
  {
  }

  lemma EventInRun(run: seq<State>, events: seq<Event>, i: nat)
    requires IsQueueRun(run, events) && i < |events|
    ensures QueueInv(run[i]) && NextState(run[i], events[i], run[i + 1])
  {
    QueueRunsKeepInv(run, events, i);
    assert EventAt(run, events, i);
  }

  /** A call that is finished now was so before, with the same status, or fails. */
  ghost predicate OldOrFailed(st: State, st': State, id: Id) {
    && (id in st.status ==> id in st'.status && st'.status[id] == st.status[id])
    && (id in st'.status && id !in st.status ==> st'.status[id] == Failed)
  }

  /** What a failed sync at state first leaves true of a later state. */
  ghost predicate FailedSince(first: State, st: State, id: Id) { SyncHasFailed(st) && OldOrFailed(first, st, id) }

  lemma FailedSyncStep(first: State, st: State, event: Event, st': State, id: Id)
    requires QueueInv(st) && FailedSince(first, st, id) && NextState(st, event, st')
    ensures FailedSince(first, st', id)
    ensures event.FinishGroup? || !st.phase.Committing? ==> !st'.phase.Committing?
  {
    FailedSyncSticks(st, event, st');
    if id in st.status {
      FinishedStays(st, event, st', id);
    }
  }

  lemma FailedSyncInRun(run: seq<State>, events: seq<Event>, i: nat)
    requires IsQueueRun(run, events) && i < |events| && events[i] == Work(SyncFails)
    ensures SyncHasFailed(run[i + 1]) && run[i + 1].status == run[i].status
  {
    EventInRun(run, events, i);
    FailedSyncIsNoted(run[i], run[i + 1]);
  }

  lemma FailedSyncGoesOn(run: seq<State>, events: seq<Event>, first: State, k: nat, id: Id)
    requires IsQueueRun(run, events) && k < |events| && FailedSince(first, run[k], id)
    ensures FailedSince(first, run[k + 1], id)
    ensures events[k].FinishGroup? || !run[k].phase.Committing? ==> !run[k + 1].phase.Committing?
  {
    EventInRun(run, events, k);
    FailedSyncStep(first, run[k], events[k], run[k + 1], id);
  }

  /** From a failed sync on, every call that finishes fails, those of the group itself included. */
  lemma {:induction false} FailedSyncStopsWrites(run: seq<State>, events: seq<Event>, i: nat, j: nat, id: Id)
    requires IsQueueRun(run, events) && i < j < |run| && events[i] == Work(SyncFails)
    ensures SyncHasFailed(run[j]) && OldOrFailed(run[i], run[j], id)
    decreases j
  {
    if i == j - 1 {
      FailedSyncInRun(run, events, i);
    } else {
      FailedSyncStopsWrites(run, events, i, j - 1, id);
      FailedSyncGoesOn(run, events, run[i], j - 1, id);
    }
  }

  lemma AfterFailedSync(run: seq<State>, events: seq<Event>, i: nat, k: nat)
    requires IsQueueRun(run, events) && i < k < |events| && events[i] == Work(SyncFails)
    ensures SyncHasFailed(run[k + 1])
    ensures events[k].FinishGroup? || !run[k].phase.Committing? ==> !run[k + 1].phase.Committing?
  {
    FailedSyncStopsWrites(run, events, i, k, 0);
    FailedSyncGoesOn(run, events, run[i], k, 0);
  }

  /** Once the group has finished, the error stays recorded. */
  lemma {:induction false} FailedSyncIsRecorded(run: seq<State>, events: seq<Event>, i: nat, j: nat, k: nat)
    requires IsQueueRun(run, events) && i < j < k < |run| && events[i] == Work(SyncFails) && events[j] == FinishGroup
    ensures run[k].db.bgError && !run[k].phase.Committing?
    decreases k
  {
    if j < k - 1 {
      FailedSyncIsRecorded(run, events, i, j, k - 1);
    }
    AfterFailedSync(run, events, i, k - 1);
  }

  predicate IsError(step: Step) { step.BuildFails? || step.InstallFails? || step.MergeFails? }

  /** An error is recorded, and the calls from number m on are in no group being committed. */
  ghost predicate NoLaterGroup(st: State, m: nat) {
    st.db.bgError && (st.phase.Committing? ==> Finished(st) + st.phase.count <= m)
  }

  ghost predicate FailsIfLater(st: State, m: nat, id: Id) {
    id in st.status && id >= m ==> st.status[id] == Failed
  }

  lemma LaterCallsFail(st: State, event: Event, st': State, m: nat, id: Id)
    requires QueueInv(st) && NoLaterGroup(st, m) && NextState(st, event, st') && FailsIfLater(st, m, id)
    ensures NoLaterGroup(st', m) && FailsIfLater(st', m, id)
  {
    ErrorsAreFinal(st, event, st');
    if event.FinishGroup? {
      PoppedIds(st, st.phase.count);
    } else if event.RoomFails? || event.PassNull? {
      PoppedIds(st, 1);
    }
    if id in st.status {
      FinishedStays(st, event, st', id);
    }
  }

  lemma FailedJobIsNoted(st: State, step: Step, st': State, id: Id)
    requires QueueInv(st) && IsError(step) && NextState(st, Background(step), st')
    ensures NoLaterGroup(st', |st.arrived|) && FailsIfLater(st', |st.arrived|, id)
  {
  }

  /** A failed flush or compaction is recorded for good, and every call that arrives later fails. */
  lemma {:induction false} FailedJobStopsWrites(run: seq<State>, events: seq<Event>, i: nat, j: nat, id: Id)
    requires IsQueueRun(run, events) && i < j < |run| && events[i].Background? && IsError(events[i].step)
    ensures NoLaterGroup(run[j], |run[i].arrived|) && FailsIfLater(run[j], |run[i].arrived|, id)
    decreases j
  {
    EventInRun(run, events, j - 1);
    if i == j - 1 {
      FailedJobIsNoted(run[i], events[i].step, run[j], id);
    } else {
      FailedJobStopsWrites(run, events, i, j - 1, id);
      LaterCallsFail(run[j - 1], events[j - 1], run[j], |run[i].arrived|, id);
    }
  }

  // ---- Writes without a batch ----

  /** A call without a batch that leads, and has made room, leaves an empty memtable. */
  ghost predicate NullLeaderIsDone(st: State) {
    st.phase == MakingRoom(false) && st.queue != [] && Waiting(st)[0].batch.None? ==> st.db.mem == {}
  }

  lemma NullLeaderStep(st: State, event: Event, st': State)
    requires QueueInv(st) && NullLeaderIsDone(st) && NextState(st, event, st')
    ensures NullLeaderIsDone(st')
  {
    if event.Background? {
      BackgroundKeepsMem(st.db, event.step, st'.db);
    }
    assert event.Arrive? && st.queue != [] ==> Waiting(st')[0] == Waiting(st)[0];
  }

  lemma BackgroundKeepsMem(db: Db, step: Step, db': Db)
    requires Next(db, step, db') && IsBackground(step)
    ensures db'.mem == db.mem
  {
  }

  lemma {:induction false} NullLeadersInRun(run: seq<State>, events: seq<Event>, i: nat)
    requires IsQueueRun(run, events) && i < |run|
    ensures NullLeaderIsDone(run[i])
  {
    if i > 0 {
      NullLeadersInRun(run, events, i - 1);
      EventInRun(run, events, i - 1);
      NullLeaderStep(run[i - 1], events[i - 1], run[i]);
    }
  }

  /** Write(options, nullptr) returns OK as a leader only when all earlier writes have left the
      memtable: this is how a compaction of the memtable is forced. */
  lemma NullWriteEmptiesMemtable(run: seq<State>, events: seq<Event>, i: nat)
    requires IsQueueRun(run, events) && i < |events| && events[i] == PassNull
    ensures run[i].queue != [] && Waiting(run[i])[0].batch.None? && run[i + 1].db.mem == {}
    ensures run[i].queue[0] in run[i + 1].status && run[i + 1].status[run[i].queue[0]] == Ok
  {
    NullLeadersInRun(run, events, i);
    EventInRun(run, events, i);
    assert run[i].queue[..1][0] == run[i].queue[0];
  }
}
