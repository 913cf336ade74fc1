/** Runs of the durability protocol over real log bytes, in which the append of a first write
    fails and a second, synced write then returns OK. */
module TornWrites {
  import opened Wrappers
  import opened InternalKeys
  import opened LogFormat
  import opened LogWriter
  import opened LogPrefixes
  import opened LogRoundTrip
  import opened TornLogs
  import opened TornReads
  import opened ForeignRecords
  import opened Durability
  import opened DurabilityProofs
  import opened DurableWrites
  import opened WrittenOnly
  import opened LogMedium

  /** A first write that leaves some bytes, with the writer then believing to be at `offset`,
      and the bytes that a second write appends there. */
  datatype Scene = Scene(env: Env, first: seq<Op>, second: Op, left: seq<Byte>, offset: nat, bytes: seq<Byte>)
  {
    function First(): Record { Record(1, first) }
    function Second(): Record { Record(1 + |first|, [second]) }
    function File(): seq<Byte> { left + bytes }
    function TornLog(): Log { Log([], [First()], left, offset, 0) }
    function BothLog(synced: nat): Log { Log([], [First(), Second()], File(), offset + |bytes|, synced) }
    function Entry(): Entry { Second().At(0) }

    function With(log: Log, last: nat, commit: Option<Commit>): Db {
      Db(env, map[1 := log], map[], Version({}, 1, 0, 2), None, {}, None, 1, 2, last, commit, multiset{}, {}, None,
        Free, false, {})
    }

    function Inserted(stage: Stage): Db {
      With(BothLog(|File()|), |first|, Some(Commit(Second(), true, stage))).(mem := {Entry()})
    }

    ghost function State(i: nat): Db {
      match i
      case 0 => With(EMPTY_LOG, 0, None)
      case 1 => With(EMPTY_LOG, 0, Some(Commit(First(), false, Logging)))
      case 2 => With(TornLog(), 0, Some(Commit(First(), false, Over(false, false, false))))
      case 3 => With(TornLog(), |first|, None)
      case 4 => With(TornLog(), |first|, Some(Commit(Second(), true, Logging)))
      case 5 => With(BothLog(0), |first|, Some(Commit(Second(), true, Syncing(false))))
      case 6 => With(BothLog(|File()|), |first|, Some(Commit(Second(), true, Inserting(0, false))))
      case 7 => Inserted(Inserting(1, false))
      case 8 => Inserted(Over(true, false, false))
      case _ => Inserted(Over(true, false, false)).(lastSequence := |first| + 1, commit := None,
                  promised := if Second() in env.read(File()) then Second().Entries() else {})
    }

    function Step(i: nat): Step {
      match i
      case 0 => Begin(first, false)
      case 1 => AppendFails(left, offset)
      case 2 => End
      case 3 => Begin([second], true)
      case 4 => AppendOk
      case 5 => SyncOk
      case 6 => InsertOne
      case 7 => InsertDone
      case _ => End
    }

    ghost function States(): seq<Db> { seq(10, i requires 0 <= i => State(i)) }
    function Steps(): seq<Step> { seq(9, i requires 0 <= i => Step(i)) }

    /** What the medium must allow for it. */
    ghost predicate Possible() {
      && Lawful(env) && env.fits(First()) && env.fits(Second())
      && env.torn(0, First(), left, offset) && env.write(offset, Second()) == bytes
    }
  }

  lemma FirstFailsStep(s: Scene, i: nat)
    requires s.Possible() && i < 4
    ensures Next(s.State(i), s.Step(i), s.State(i + 1))
  {
    assert [] + s.left == s.left;
    assert [] + [s.First()] == [s.First()];
    assert s.With(s.TornLog(), 0, None).logs == map[1 := EMPTY_LOG][1 := s.TornLog()];
  }

  lemma SecondAppendStep(s: Scene)
    requires s.Possible()
    ensures Next(s.State(4), s.Step(4), s.State(5))
  {
    var log := s.BothLog(0);
    assert [s.First()] + [s.Second()] == [s.First(), s.Second()];
    assert map[1 := s.TornLog()][1 := log] == map[1 := log];
  }

  lemma SyncStep(s: Scene)
    ensures Next(s.State(5), s.Step(5), s.State(6))
  {
    var log := s.BothLog(|s.File()|);
    assert map[1 := s.BothLog(0)][1 := log] == map[1 := log];
  }

  lemma InsertStep(s: Scene, i: nat)
    requires 6 <= i < 8
    ensures Next(s.State(i), s.Step(i), s.State(i + 1))
  {
    assert {} + {s.Entry()} == {s.Entry()};
  }

  lemma SyncedIsAll(s: Scene)
    ensures s.BothLog(|s.File()|).Surviving(s.env) == s.env.read(s.File())
  {
    assert s.File()[..|s.File()|] == s.File();
  }

  lemma LastStep(s: Scene)
    ensures Next(s.State(8), s.Step(8), s.State(9))
  {
    SyncedIsAll(s);
    assert forall a: set<Entry> :: {} + a == a;
  }

  lemma SceneIsRun(s: Scene)
    requires s.Possible()
    ensures IsRun(s.States(), s.Steps())
  {
    forall i: nat | i < 9
      ensures StepAt(s.States(), s.Steps(), i)
    {
      if i < 4 {
        FirstFailsStep(s, i);
      } else if i == 4 {
        SecondAppendStep(s);
      } else if i == 5 {
        SyncStep(s);
      } else if i < 8 {
        InsertStep(s, i);
      } else {
        LastStep(s);
      }
    }
  }

  /** The run exists, and the synced write returns OK in it. */
  ghost predicate Acknowledged(s: Scene) {
    && IsRun(s.States(), s.Steps()) && s.Steps()[8] == End
    && s.States()[8].commit == Some(Commit(s.Second(), true, Over(true, false, false)))
  }

  ghost predicate Survives(s: Scene) { SurvivesEveryCrash(s.States()[9], s.Entry()) }

  lemma SceneReplays(s: Scene)
    ensures (forall v :: Candidate(s.State(8), v) ==> Replays(s.State(8), v, s.Entry()))
            <==> exists r :: r in s.env.read(s.File()) && r.Holds(s.Entry())
  {
    SyncedIsAll(s);
    var db := s.State(8);
    assert Candidate(db, db.saved) && forall v :: Candidate(db, v) ==> v == db.saved;
    assert db.logs[1].Keeps(db.env, s.Entry()) <==> exists r :: r in s.env.read(s.File()) && r.Holds(s.Entry());
  }

  /** Whether its entry survives is a matter of the bytes. */
  lemma SceneSurvivesIff(s: Scene)
    requires s.Possible()
    ensures Acknowledged(s)
    ensures Survives(s) <==> exists r :: r in s.env.read(s.File()) && r.Holds(s.Entry())
  {
    SceneIsRun(s);
    SceneReplays(s);
    assert s.Second().Holds(s.Entry());
    EndDecidesInRun(s.States(), s.Steps(), 8, s.Entry());
  }

  // ---- Over log bytes ----

  /** The first record's append lets only k bytes through; the second one succeeds. */
  ghost function SceneOf(sum: Checksum, codec: BatchCodec, first: seq<Op>, second: Op, k: nat): Scene {
    var a, b := codec.encode(Record(1, first)), codec.encode(Record(1 + |first|, [second]));
    Scene(LogEnv(sum, codec), first, second, Cut(Physical(sum, Full, a), k), HEADER_SIZE + |a|,
          Emit(FramingOf(sum), HEADER_SIZE + |a|, b, true))
  }

  ghost predicate IsScene(sum: Checksum, codec: BatchCodec, s: Scene, k: nat) {
    && RoundTrips(codec) && s == SceneOf(sum, codec, s.first, s.second, k)
    && codec.fits(s.First()) && codec.fits(s.Second()) && HEADER_SIZE + |codec.encode(s.First())| <= BLOCK_SIZE
  }

  lemma ShortAppendMayFail(sum: Checksum, a: seq<Byte>, k: nat)
    requires HEADER_SIZE + |a| <= BLOCK_SIZE
    ensures MayLeave(sum, 0, a, Cut(Physical(sum, Full, a), k), HEADER_SIZE + |a|)
  {
    FirstFails(FramingOf(sum), a, k);
    assert FaultAt(0, k).FaultAt?;
  }

  lemma SceneIsPossible(sum: Checksum, codec: BatchCodec, s: Scene, k: nat)
    requires IsScene(sum, codec, s, k)
    ensures s.Possible()
  {
    LogEnvIsLawful(sum, codec);
    ShortAppendMayFail(sum, codec.encode(s.First()), k);
  }

  // ---- Which synced writes are lost ----

  lemma UnderstoodOne(codec: BatchCodec, r: Record)
    requires RoundTrips(codec) && codec.fits(r)
    ensures Understood(codec, []) == [] && Understood(codec, [codec.encode(r)]) == [r]
  {
    assert [codec.encode(r)][1..] == [];
  }

  lemma UnderstoodTwo(codec: BatchCodec, q: Record, r: Record)
    requires RoundTrips(codec) && codec.fits(q) && codec.fits(r)
    ensures Understood(codec, [codec.encode(q), codec.encode(r)]) == [q, r]
  {
    assert [codec.encode(q), codec.encode(r)] == [codec.encode(q)] + [codec.encode(r)];
    UnderstoodOne(codec, q);
    UnderstoodOne(codec, r);
    UnderstoodAppends(codec, [codec.encode(q)], [codec.encode(r)]);
  }

  /** Nothing is missing: both records are read. */
  lemma BothAreRead(sum: Checksum, a: seq<Byte>, b: seq<Byte>)
    requires FitTogether(a, b)
    ensures Records(sum, Physical(sum, Full, a) + Physical(sum, Full, b)) == [a, b]
  {
    var frame := FramingOf(sum);
    OneFragment(frame, 0, a);
    OneFragment(frame, HEADER_SIZE + |a|, b);
    assert [a, b][1..] == [b];
    EncodeOne(frame, HEADER_SIZE + |a|, b);
    assert Encode(frame, 0, [a, b]) == Physical(sum, Full, a) + Physical(sum, Full, b);
    RoundTrip(sum, Physical(sum, Full, a) + Physical(sum, Full, b), 0, [a, b]);
  }

  /** Something is: nothing is read. */
  lemma NeitherIsRead(sum: Checksum, file: seq<Byte>)
    requires |file| <= BLOCK_SIZE && Rejected(sum, file, 0)
    ensures Records(sum, file) == []
  {
    RejectedReads(sum, file, 0);
    NothingBehind(sum, file, 0);
  }

  /** What is read when both records would have fitted into the first block. */
  lemma SceneReads(sum: Checksum, codec: BatchCodec, s: Scene, k: nat, a: seq<Byte>, b: seq<Byte>)
    requires IsScene(sum, codec, s, k) && a == codec.encode(s.First()) && b == codec.encode(s.Second())
             && FitTogether(a, b)
    requires 0 < k < HEADER_SIZE + |a| ==> Rejected(sum, s.File(), 0)
    ensures s.env.read(s.File()) == if k == 0 then [s.Second()] else if k < HEADER_SIZE + |a| then []
            else [s.First(), s.Second()]
  {
    if k == 0 {
      OnlySecondReads(sum, codec, s, a, b);
    } else if k < HEADER_SIZE + |a| {
      NothingReads(sum, codec, s, k, a, b);
    } else {
      BothRead(sum, codec, s, k, a, b);
    }
  }

  lemma NothingReads(sum: Checksum, codec: BatchCodec, s: Scene, k: nat, a: seq<Byte>, b: seq<Byte>)
    requires IsScene(sum, codec, s, k) && a == codec.encode(s.First()) && b == codec.encode(s.Second())
             && FitTogether(a, b)
    requires k < HEADER_SIZE + |a| && Rejected(sum, s.File(), 0)
    ensures s.env.read(s.File()) == []
  {
    OneFragment(FramingOf(sum), HEADER_SIZE + |a|, b);
    NeitherIsRead(sum, s.File());
  }

  lemma BothRead(sum: Checksum, codec: BatchCodec, s: Scene, k: nat, a: seq<Byte>, b: seq<Byte>)
    requires IsScene(sum, codec, s, k) && a == codec.encode(s.First()) && b == codec.encode(s.Second())
             && FitTogether(a, b) && HEADER_SIZE + |a| <= k
    ensures s.env.read(s.File()) == [s.First(), s.Second()]
  {
    OneFragment(FramingOf(sum), HEADER_SIZE + |a|, b);
    assert s.left == Physical(sum, Full, a);
    BothAreRead(sum, a, b);
    UnderstoodTwo(codec, s.First(), s.Second());
  }

  lemma OnlySecondReads(sum: Checksum, codec: BatchCodec, s: Scene, a: seq<Byte>, b: seq<Byte>)
    requires IsScene(sum, codec, s, 0) && a == codec.encode(s.First()) && b == codec.encode(s.Second())
             && FitTogether(a, b)
    ensures s.env.read(s.File()) == [s.Second()]
  {
    OneFragment(FramingOf(sum), HEADER_SIZE + |a|, b);
    assert s.File() == Physical(sum, Full, b);
    NothingLeft(sum, a, b);
    UnderstoodOne(codec, s.Second());
  }

  /** A synced write behind a failed one in the same block survives if, and only if, the failed
      append left nothing or everything. The reader need only reject what it left otherwise. */
  lemma SyncedWriteSurvivesTearIff(sum: Checksum, codec: BatchCodec, s: Scene, k: nat)
    requires IsScene(sum, codec, s, k) && FitTogether(codec.encode(s.First()), codec.encode(s.Second()))
    requires 0 < k < HEADER_SIZE + |codec.encode(s.First())| ==> Rejected(sum, s.File(), 0)
    ensures Acknowledged(s)
    ensures Survives(s) <==> k == 0 || HEADER_SIZE + |codec.encode(s.First())| <= k
  {
    SceneIsPossible(sum, codec, s, k);
    SceneSurvivesIff(s);
    SceneReads(sum, codec, s, k, codec.encode(s.First()), codec.encode(s.Second()));
    assert s.Second().Holds(s.Entry());
    assert s.Second() in [s.First(), s.Second()];
  }

  /** With just the header left, and a longer payload announced than follows, it is lost under
      every checksum. */
  lemma HeaderLeftLosesSyncedWrite(sum: Checksum, codec: BatchCodec, s: Scene)
    requires IsScene(sum, codec, s, HEADER_SIZE) && FitTogether(codec.encode(s.First()), codec.encode(s.Second()))
    requires HEADER_SIZE + |codec.encode(s.Second())| < |codec.encode(s.First())|
    ensures Acknowledged(s) && !Survives(s)
  {
    OneFragment(FramingOf(sum), s.offset, codec.encode(s.Second()));
    HeaderWithoutPayload(sum, codec.encode(s.First()), codec.encode(s.Second()), s.File());
    SceneIsPossible(sum, codec, s, HEADER_SIZE);
    SceneSurvivesIff(s);
    assert s.env.read(s.File()) == [];
  }

  // ---- Entries that nobody wrote ----

  /** The second write's value holds the bytes of a log record, at the place where the reader
      resumes. */
  ghost predicate Smuggles(sum: Checksum, codec: BatchCodec, s: Scene, foreign: Record, x: seq<Byte>, y: seq<Byte>) {
    var size, p := |codec.encode(s.First())|, codec.encode(foreign);
    && codec.encode(s.Second()) == x + Physical(sum, Full, p) + y
    && HEADER_SIZE <= size && size + HEADER_SIZE + |p| <= BLOCK_SIZE
    && |x| == TakenBefore(HEADER_SIZE + size, BLOCK_SIZE) + size - HEADER_SIZE
  }

  lemma ForeignIsRead(sum: Checksum, codec: BatchCodec, s: Scene, foreign: Record, x: seq<Byte>, y: seq<Byte>)
    requires IsScene(sum, codec, s, HEADER_SIZE) && codec.fits(foreign) && Smuggles(sum, codec, s, foreign, x, y)
    requires Rejected(sum, s.File(), 0)
    ensures foreign in s.env.read(s.File())
  {
    var size, p := |codec.encode(s.First())|, codec.encode(foreign);
    assert s.File() + [] == s.File();
    FirstBlock(size);
    ForeignRecordIsRead(sum, s.left, 0, HEADER_SIZE + size, size, x, p, y, [], s.File());
    var records := Records(sum, s.File());
    assert codec.decode(records[0]) == Some(foreign);
    assert Understood(codec, records)[0] == foreign;
  }

  lemma FirstBlock(size: nat)
    requires HEADER_SIZE <= size && HEADER_SIZE + size <= BLOCK_SIZE
    ensures Resume(0) == BLOCK_SIZE && NextBlockAt(HEADER_SIZE + size, BLOCK_SIZE)
  {
    LeftoverAhead(0, HEADER_SIZE + size);
  }

  lemma OnlyTwoKnown(s: Scene, e: Entry)
    requires !s.First().Holds(e) && !s.Second().Holds(e)
    ensures !Known(s.State(9), e)
  {
    var log := s.BothLog(|s.File()|);
    assert forall r :: Recorded(log, r) ==> r == s.First() || r == s.Second();
    assert s.Second().Holds(s.Entry());
  }

  /** A reachable state in which every call so far has returned, and a recovery from it brings
      back an entry that no call wrote. */
  lemma ForeignEntryComesBack(sum: Checksum, codec: BatchCodec, s: Scene, foreign: Record, x: seq<Byte>, y: seq<Byte>,
                              e: Entry)
    requires IsScene(sum, codec, s, HEADER_SIZE) && codec.fits(foreign) && Smuggles(sum, codec, s, foreign, x, y)
    requires Rejected(sum, s.File(), 0)
    requires foreign.Holds(e) && !s.First().Holds(e) && !s.Second().Holds(e)
    ensures Acknowledged(s) && !Known(s.States()[9], e) && !InventsNothing(s.States()[9], s.States()[9].saved)
  {
    SceneIsPossible(sum, codec, s, HEADER_SIZE);
    SceneSurvivesIff(s);
    ForeignIsRead(sum, codec, s, foreign, x, y);
    OnlyTwoKnown(s, e);
    ForeignIsInLog(s, foreign, e);
    InventedInRun(s.States(), s.Steps(), 9, s.State(9).saved, e);
  }

  lemma ForeignIsInLog(s: Scene, foreign: Record, e: Entry)
    requires foreign in s.env.read(s.File()) && foreign.Holds(e)
    ensures WholeLogsRead(s.State(9), s.State(9).saved, e)
  {
    var db := s.State(9);
    assert 1 in db.logs && db.logs[1].file == s.File();
  }
}
