/** DBImpl::Write: the queue of writers, group commit, and the signals between them
    (db/db_impl.cc, db/write_batch.cc), on top of the durability protocol. */
module WriteQueue {
  import opened Wrappers
  import opened Durability

  type Id = nat

  /** A batch's operations and its ByteSize. */
  datatype Batch = Batch(ops: seq<Op>, bytes: nat)

  /** A null batch only waits for the writes before it. */
  datatype Writer = Writer(batch: Option<Batch>, sync: bool)
  {
    function Ops(): seq<Op> { if batch.Some? then batch.value.ops else [] }
    function Bytes(): nat { if batch.Some? then batch.value.bytes else 0 }
  }

  // ---- BuildBatchGroup ----

  const MAX_GROUP := 0x10_0000
  const SMALL_WRITE := 0x2_0000

  function MaxSize(first: nat): nat { if first <= SMALL_WRITE then first + SMALL_WRITE else MAX_GROUP }

  function TotalBytes(ws: seq<Writer>): nat {
    if ws == [] then 0 else TotalBytes(ws[..|ws| - 1]) + ws[|ws| - 1].Bytes()
  }

  /** The operations of a group, in queue order. */
  function AllOps(ws: seq<Writer>): seq<Op> {
    if ws == [] then [] else AllOps(ws[..|ws| - 1]) + ws[|ws| - 1].Ops()
  }

  /** Writer i may join a group led by writer 0. */
  predicate Joins(ws: seq<Writer>, i: nat)
    requires i < |ws|
  {
    && (ws[i].sync ==> ws[0].sync)
    && (ws[i].batch.Some? ==> TotalBytes(ws[..i + 1]) <= MaxSize(ws[0].Bytes()))
  }

  /** The longest prefix of the queue all of whose followers may join. */
  ghost predicate IsGroup(ws: seq<Writer>, count: nat) {
    && 1 <= count <= |ws|
    && (forall i :: 1 <= i < count ==> Joins(ws, i))
    && (count < |ws| ==> !Joins(ws, count))
  }

  lemma GroupIsDetermined(ws: seq<Writer>, a: nat, b: nat)
    requires IsGroup(ws, a) && IsGroup(ws, b)
    ensures a == b
  {
  }

  lemma Alone(w: Writer)
    ensures TotalBytes([w]) == w.Bytes() && AllOps([w]) == w.Ops()
  {
    assert [w][..0] == [] && [w][0] == w;
    assert AllOps([w]) == [] + w.Ops();
    assert TotalBytes([w][..0]) == 0;
  }

  method BuildBatchGroup(ws: seq<Writer>) returns (ops: seq<Op>, count: nat)
    requires ws != [] && ws[0].batch.Some?
    ensures IsGroup(ws, count) && ops == AllOps(ws[..count])
    ensures forall i :: 1 <= i < count && ws[i].batch.Some? ==>
              TotalBytes(ws[..i + 1]) <= if ws[0].Bytes() <= 0x2_0000 then ws[0].Bytes() + 0x2_0000 else 0x10_0000
  {
    var first := ws[0];
    var size := first.batch.value.bytes;
    var maxSize := MAX_GROUP;
    if size <= SMALL_WRITE {
      maxSize := size + SMALL_WRITE;
    }
    ops := first.batch.value.ops;
    count := 1;
    Alone(first);
    assert ws[..1] == [first];
    while count < |ws|
      invariant 1 <= count <= |ws|
      invariant forall i :: 1 <= i < count ==> Joins(ws, i)
      invariant ops == AllOps(ws[..count]) && size == TotalBytes(ws[..count])
    {
      var w := ws[count];
      assert ws[..count + 1][..count] == ws[..count];
      if w.sync && !first.sync {
        break;
      }
      if w.batch.Some? {
        size := size + w.batch.value.bytes;
        if size > maxSize {
          break;
        }
        ops := ops + w.batch.value.ops;
      }
      count := count + 1;
    }
    forall i | 1 <= i < count && ws[i].batch.Some?
      ensures TotalBytes(ws[..i + 1]) <= MaxSize(ws[0].Bytes())
    {
      assert Joins(ws, i);
    }
  }

  // ---- The queue ----

  datatype Status = Ok | Failed

  /** The leader is always the front of the queue. */
  datatype Phase = Resting | MakingRoom(force: bool) | Committing(count: nat)

  /** writers_, the writers waiting on their condition variables, the status of finished
      calls, and (for the specification) LastSequence before each finished call's operations
      were numbered, and how many were numbered. */
  datatype State = State(
    arrived: seq<Writer>,
    queue: seq<Id>,
    asleep: set<Id>,
    phase: Phase,
    status: map<Id, Status>,
    before: map<Id, nat>,
    numbered: map<Id, nat>,
    db: Db)

  datatype Event =
    | Arrive(w: Writer)
    | FallAsleep(id: Id)
    | WakeUp(id: Id)
    | Lead
    | Switch
    | RoomFails
    | PassNull
    | StartGroup(count: nat)
    | Work(step: Step)
    | FinishGroup
    | Background(step: Step)

  ghost function Ids(ids: seq<Id>): set<Id> { set id | id in ids }

  ghost function AllWith(ids: seq<Id>, s: Status): map<Id, Status> { map id | id in ids :: s }

  /** The group is off the queue with its status, and neither its members nor the new front
      of the queue are asleep. */
  ghost predicate Popped(queue: seq<Id>, count: nat, s: Status, asleep: set<Id>, status: map<Id, Status>,
                         rest: seq<Id>, asleep': set<Id>, status': map<Id, Status>) {
    && count <= |queue| && rest == queue[count..]
    && asleep' == asleep - Ids(queue[..count]) - Ids(if rest == [] then [] else [rest[0]])
    && status' == status + AllWith(queue[..count], s)
  }

  /** The loop that pops the group off the queue, sets each follower's status and signals it,
      and then signals the new front. */
  method PopGroup(queue: seq<Id>, last: Id, s: Status, asleep: set<Id>, status: map<Id, Status>, ghost count: nat)
      returns (rest: seq<Id>, asleep': set<Id>, status': map<Id, Status>)
    requires forall i, j :: 0 <= i < j < |queue| ==> queue[i] != queue[j]
    requires 1 <= count <= |queue| && queue[count - 1] == last
    ensures Popped(queue, count, s, asleep, status, rest, asleep', status')
  {
    ghost var n := 0;
    rest, asleep', status' := queue, asleep, status;
    var done := false;
    while !done
      invariant n <= count && rest == queue[n..] && done == (n == count)
      invariant asleep' == asleep - Ids(queue[..n]) && status' == status + AllWith(queue[..n], s)
      decreases count - n
    {
      PoppedOne(queue, n, s, status);
      var ready := rest[0];
      rest := rest[1..];
      asleep' := asleep' - {ready};
      status' := status'[ready := s];
      n := n + 1;
      done := ready == last;
    }
    if rest != [] {
      asleep' := asleep' - {rest[0]};
    }
  }

  lemma PoppedOne(queue: seq<Id>, n: nat, s: Status, status: map<Id, Status>)
    requires n < |queue|
    ensures Ids(queue[..n + 1]) == Ids(queue[..n]) + {queue[n]}
    ensures status + AllWith(queue[..n + 1], s) == (status + AllWith(queue[..n], s))[queue[n] := s]
  {
    assert queue[..n + 1] == queue[..n] + [queue[n]];
  }

  /** The writers in the queue. */
  function Waiting(st: State): (ws: seq<Writer>)
    ensures |ws| == |st.queue|
  {
    seq(|st.queue|, i requires 0 <= i < |st.queue| =>
      if st.queue[i] < |st.arrived| then st.arrived[st.queue[i]] else Writer(None, false))
  }

  /** The first `count` writers finish with status s; their operations have numbers from
      LastSequence + 1 on if `numbered`. */
  ghost predicate Finishes(st: State, count: nat, s: Status, numbered: bool, st': State)
  {
    && count <= |st.queue|
    && Popped(st.queue, count, s, st.asleep, st.status, st'.queue, st'.asleep, st'.status)
    && st'.arrived == st.arrived && st'.phase == Resting
    && st'.before.Keys == st.before.Keys + Ids(st.queue[..count])
    && st'.numbered.Keys == st.numbered.Keys + Ids(st.queue[..count])
    && (forall id :: id in st.before && id !in st.queue[..count] ==> st'.before[id] == st.before[id])
    && (forall id :: id in st.numbered && id !in st.queue[..count] ==> st'.numbered[id] == st.numbered[id])
    && (forall k :: 0 <= k < count ==> Numbers(st, numbered, st', k))
  }

  ghost predicate Numbers(st: State, numbered: bool, st': State, k: nat)
    requires k < |st.queue|
  {
    var id, ws := st.queue[k], Waiting(st);
    && id in st'.before && id in st'.numbered
    && st'.before[id] == st.db.lastSequence + (if numbered then |AllOps(ws[..k])| else 0)
    && st'.numbered[id] == if numbered then |ws[k].Ops()| else 0
  }

  predicate IsCommitWork(step: Step) {
    step.AppendOk? || step.AppendFails? || step.SyncOk? || step.SyncFails? || step.InsertOne? || step.InsertDone?
  }

  predicate IsBackground(step: Step) {
    !IsCommitWork(step) && !step.Begin? && !step.End? && !step.SwitchMemtable? && !step.Recover?
  }

  ghost predicate NextState(st: State, event: Event, st': State) {
    match event
    case Arrive(w) => st' == st.(arrived := st.arrived + [w], queue := st.queue + [|st.arrived|])
    case FallAsleep(id) =>
      id in st.queue && st.queue[0] != id && st' == st.(asleep := st.asleep + {id})
    case WakeUp(id) => st' == st.(asleep := st.asleep - {id})
    case Lead =>
      && st.phase.Resting? && st.queue != [] && st.queue[0] !in st.asleep
      && st' == st.(phase := MakingRoom(Waiting(st)[0].batch.None?))
    case Switch =>
      && st.phase.MakingRoom?
      && Next(st.db, SwitchMemtable, st'.db)
      && st' == st.(phase := MakingRoom(false), db := st'.db)
    case RoomFails =>
      && st.phase.MakingRoom? && st'.db == st.db
      && Finishes(st, 1, Failed, false, st')
    case PassNull =>
      && st.phase == MakingRoom(false) && !st.db.bgError && st.queue != [] && Waiting(st)[0].batch.None?
      && st'.db == st.db && Finishes(st, 1, Ok, false, st')
    case StartGroup(count) =>
      && st.phase == MakingRoom(false) && st.queue != [] && Waiting(st)[0].batch.Some?
      && IsGroup(Waiting(st), count)
      && Next(st.db, Begin(AllOps(Waiting(st)[..count]), Waiting(st)[0].sync), st'.db)
      && st' == st.(phase := Committing(count), db := st'.db)
    case Work(step) =>
      && st.phase.Committing? && IsCommitWork(step)
      && Next(st.db, step, st'.db) && st' == st.(db := st'.db)
    case FinishGroup =>
      && st.phase.Committing? && Next(st.db, End, st'.db)
      && Finishes(st, st.phase.count, if st.db.commit.value.stage.ok then Ok else Failed, true, st')
    case Background(step) =>
      && IsBackground(step)
      && Next(st.db, step, st'.db) && st' == st.(db := st'.db)
  }

  /** A freshly opened database without writers. */
  ghost predicate Start(st: State) {
    Inv(st.db) && st.db.commit.None? && st == State([], [], {}, Resting, map[], map[], map[], st.db)
  }

  // ---- The invariant ----

  /** How many calls have finished. */
  function Finished(st: State): int { |st.arrived| - |st.queue| }

  /** Writers finish in the order of arrival: the queue holds exactly the others. */
  ghost predicate QueueOk(st: State) {
    && |st.queue| <= |st.arrived|
    && (forall i :: 0 <= i < |st.queue| ==> st.queue[i] == Finished(st) + i)
    && (forall id: nat :: id in st.status <==> id < Finished(st))
    && (forall id: nat :: id in st.before <==> id < Finished(st))
    && (forall id: nat :: id in st.numbered <==> id < Finished(st))
  }

  /** Nobody sleeps who is finished or has to lead. */
  ghost predicate NoLostWakeup(st: State) {
    forall id :: id in st.asleep ==> Finished(st) < id < |st.arrived|
  }

  /** The first `count` writers of the queue are the ones being committed. */
  ghost predicate GroupOk(st: State, count: nat) {
    && 1 <= count <= |st.queue|
    && st.db.commit.Some?
    && st.db.commit.value.record.ops == AllOps(Waiting(st)[..count])
    && st.db.commit.value.sync == Waiting(st)[0].sync
    && (forall i :: 0 <= i < count && Waiting(st)[i].sync ==> st.db.commit.value.sync)
  }

  ghost predicate PhaseOk(st: State) {
    match st.phase
    case Resting => st.db.commit.None?
    case MakingRoom(_) => st.queue != [] && st.db.commit.None?
    case Committing(count) => GroupOk(st, count)
  }

  /** Consecutive calls have consecutive ranges of sequence numbers. */
  ghost predicate RangeOk(st: State, id: nat) {
    && id in st.before && id in st.numbered
    && st.before[id] + st.numbered[id] == if id + 1 in st.before then st.before[id + 1] else st.db.lastSequence
  }

  /** A call's operations are numbered all together or not at all, and all if it succeeded. */
  ghost predicate NumberedOk(st: State, id: nat) {
    && id in st.numbered && id in st.status && id < |st.arrived|
    && (st.numbered[id] == |st.arrived[id].Ops()| || (st.numbered[id] == 0 && st.status[id] == Failed))
  }

  ghost predicate RangesOk(st: State) {
    forall id: nat :: id < Finished(st) ==> RangeOk(st, id) && NumberedOk(st, id)
  }

  ghost predicate QueueInv(st: State) {
    && QueueOk(st) && NoLostWakeup(st) && PhaseOk(st) && RangesOk(st)
  }
}
