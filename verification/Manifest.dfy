/** Recovering a version from the bytes of a manifest: VersionSet::Recover and
    VersionSet::Builder of db/version_set.cc. */
module Manifests {
  import opened Wrappers
  import opened TableFiles
  import VersionEdits
  import opened LogFormat
  import LogReader
  import LogWriter
  import opened LogRoundTrip
  import opened TornLogs
  import opened EditCodec

  const BLANK := Edit(None, None, None, None, None, [], [], [])

  /** What opening a table file adds to its metadata: its entries. */
  type Opener = FileMeta -> File

  /** The last number of each kind that some record has set. */
  datatype Counters = Counters(log: Option<nat>, prevLog: Option<nat>, nextFile: Option<nat>, lastSequence: Option<nat>)

  function Later(a: Option<nat>, b: Option<nat>): Option<nat> { if b.Some? then b else a }

  function Update(n: Counters, e: Edit): Counters {
    Counters(Later(n.log, e.logNumber), Later(n.prevLog, e.prevLogNumber), Later(n.nextFile, e.nextFile),
      Later(n.lastSequence, e.lastSequence))
  }

  function Updated(edits: seq<Edit>): Counters {
    if edits == [] then Counters(None, None, None, None) else Update(Updated(edits[..|edits| - 1]), edits[|edits| - 1])
  }

  /** log_number, next_file and last_sequence must have been set. */
  predicate Complete(n: Counters) { n.log.Some? && n.nextFile.Some? && n.lastSequence.Some? }

  datatype Numbered = OfLog | OfPrevLog | OfNextFile | OfSequence
  {
    function In(e: Edit): Option<nat> {
      match this
      case OfLog => e.logNumber
      case OfPrevLog => e.prevLogNumber
      case OfNextFile => e.nextFile
      case OfSequence => e.lastSequence
    }

    function Kept(n: Counters): Option<nat> {
      match this
      case OfLog => n.log
      case OfPrevLog => n.prevLog
      case OfNextFile => n.nextFile
      case OfSequence => n.lastSequence
    }
  }

  ghost predicate IsSet(edits: seq<Edit>, which: Numbered) {
    exists i :: 0 <= i < |edits| && which.In(edits[i]).Some?
  }

  /** The value is the one in the last edit that has any. */
  ghost predicate IsLast(edits: seq<Edit>, which: Numbered, value: Option<nat>) {
    match value
    case None => !IsSet(edits, which)
    case Some(_) =>
      exists i :: 0 <= i < |edits| && which.In(edits[i]) == value
                  && forall j :: i < j < |edits| ==> which.In(edits[j]).None?
  }

  lemma {:induction false} UpdatedIsLast(edits: seq<Edit>, which: Numbered)
    ensures IsLast(edits, which, which.Kept(Updated(edits)))
    decreases |edits|
  {
    if edits != [] {
      var n := |edits| - 1;
      var before := which.Kept(Updated(edits[..n]));
      UpdatedIsLast(edits[..n], which);
      if which.In(edits[n]).None? && before.Some? {
        var i :| 0 <= i < n && which.In(edits[..n][i]) == before
                 && forall j :: i < j < n ==> which.In(edits[..n][j]).None?;
        assert which.In(edits[i]) == before;
        forall j | i < j < |edits|
          ensures which.In(edits[j]).None?
        {
          assert j < n ==> edits[..n][j] == edits[j];
        }
      } else if which.In(edits[n]).None? {
        assert forall i :: 0 <= i < n ==> edits[..n][i] == edits[i];
      }
    }
  }

  /** The numbers that a manifest must set. */
  ghost predicate AllSet(edits: seq<Edit>) {
    IsSet(edits, OfLog) && IsSet(edits, OfNextFile) && IsSet(edits, OfSequence)
  }

  ghost predicate LastOf(edits: seq<Edit>, n: Counters) {
    forall which: Numbered :: IsLast(edits, which, which.Kept(n))
  }

  lemma AllAreLast(edits: seq<Edit>)
    ensures LastOf(edits, Updated(edits)) && (Complete(Updated(edits)) <==> AllSet(edits))
  {
    var n := Updated(edits);
    forall which: Numbered
      ensures IsLast(edits, which, which.Kept(n))
    {
      UpdatedIsLast(edits, which);
    }
    assert OfLog.Kept(n) == n.log && OfNextFile.Kept(n) == n.nextFile && OfSequence.Kept(n) == n.lastSequence;
  }

  // ---- Builder::Apply ----

  predicate LevelsOk(e: Edit) {
    && (forall i :: 0 <= i < |e.deletedFiles| ==> e.deletedFiles[i].0 < NUM_LEVELS)
    && (forall i :: 0 <= i < |e.newFiles| ==> e.newFiles[i].0 < NUM_LEVELS)
  }

  /** What the first i deletions, and the first i new files, say about a level. */
  ghost function DeletedAt(e: Edit, l: nat, i: nat): set<nat>
    requires i <= |e.deletedFiles|
  {
    set k | 0 <= k < i && e.deletedFiles[k].0 == l :: e.deletedFiles[k].1
  }

  function AddedAt(e: Edit, l: nat, i: nat, open: Opener): seq<File>
    requires i <= |e.newFiles|
  {
    if i == 0 then []
    else
      var rest, f := AddedAt(e, l, i - 1, open), e.newFiles[i - 1];
      if f.0 == l then rest + [open(f.1)] else rest
  }

  ghost function LevelEditOf(e: Edit, l: nat, open: Opener): VersionEdits.LevelEdit {
    VersionEdits.LevelEdit(DeletedAt(e, l, |e.deletedFiles|), AddedAt(e, l, |e.newFiles|, open))
  }

  ghost function LevelEdits(edits: seq<Edit>, l: nat, open: Opener): seq<VersionEdits.LevelEdit> {
    seq(|edits|, i requires 0 <= i < |edits| => LevelEditOf(edits[i], l, open))
  }

  type States = seq<VersionEdits.LevelState>

  /** Deleted files first, then each new file is added and no longer counts as deleted. */
  method Apply(states: States, e: Edit, open: Opener) returns (states': States)
    requires |states| == NUM_LEVELS && LevelsOk(e)
    ensures |states'| == NUM_LEVELS
    ensures forall l :: 0 <= l < NUM_LEVELS ==> states'[l] == VersionEdits.Apply(states[l], LevelEditOf(e, l, open))
  {
    states' := states;
    for i := 0 to |e.deletedFiles|
      invariant |states'| == NUM_LEVELS
      invariant forall l :: 0 <= l < NUM_LEVELS ==>
                  states'[l] == states[l].(deleted := states[l].deleted + DeletedAt(e, l, i))
    {
      DeletedOne(e, i);
      var l, n := e.deletedFiles[i].0, e.deletedFiles[i].1;
      states' := states'[l := states'[l].(deleted := states'[l].deleted + {n})];
    }
    FirstAddedIs(states', e, |e.newFiles|, open);
    states' := AddFiles(states', e, open);
  }

  lemma DeletedOne(e: Edit, i: nat)
    requires i < |e.deletedFiles|
    ensures forall l: nat :: DeletedAt(e, l, i + 1) == DeletedAt(e, l, i) + if e.deletedFiles[i].0
            == l then {e.deletedFiles[i].1} else {}
  {
  }

  /** The state of a level after the first i new files. */
  ghost function WithAdded(s: VersionEdits.LevelState, e: Edit, l: nat, i: nat, open: Opener): VersionEdits.LevelState
    requires i <= |e.newFiles|
  {
    var added := AddedAt(e, l, i, open);
    VersionEdits.LevelState(s.deleted - VersionEdits.Numbers(added), VersionEdits.InsertFiles(s.added, added))
  }

  ghost predicate AllWithAdded(states: States, e: Edit, i: nat, open: Opener, states': States)
    requires i <= |e.newFiles|
  {
    && |states| == |states'| == NUM_LEVELS
    && forall l :: 0 <= l < NUM_LEVELS ==> states'[l] == WithAdded(states[l], e, l, i, open)
  }

  method AddFiles(states: States, e: Edit, open: Opener) returns (states': States)
    requires |states| == NUM_LEVELS && LevelsOk(e)
    ensures states' == FirstAdded(states, e, |e.newFiles|, open)
  {
    states' := states;
    for i := 0 to |e.newFiles|
      invariant states' == FirstAdded(states, e, i, open)
    {
      states' := AddFile(states', e.newFiles[i].0, open(e.newFiles[i].1));
    }
  }

  function FirstAdded(states: States, e: Edit, i: nat, open: Opener): (states': States)
    requires |states| == NUM_LEVELS && LevelsOk(e) && i <= |e.newFiles|
    ensures |states'| == NUM_LEVELS
  {
    if i == 0 then states
      else AddFile(FirstAdded(states, e, i - 1, open), e.newFiles[i - 1].0, open(e.newFiles[i - 1].1))
  }

  lemma {:induction false} FirstAddedIs(states: States, e: Edit, i: nat, open: Opener)
    requires |states| == NUM_LEVELS && LevelsOk(e) && i <= |e.newFiles|
    ensures AllWithAdded(states, e, i, open, FirstAdded(states, e, i, open))
  {
    var all := FirstAdded(states, e, i, open);
    if i == 0 {
      AddNone(states, e, open);
    } else {
      var k := i - 1;
      FirstAddedIs(states, e, k, open);
      AddStep(states, e, k, open, FirstAdded(states, e, k, open), all);
    }
  }

  /** One new file: it no longer counts as deleted. */
  function AddFile(states: States, l: nat, f: File): States
    requires l < |states|
  {
    states[l := VersionEdits.LevelState(states[l].deleted - {f.number}, VersionEdits.InsertFile(states[l].added, f))]
  }

  lemma AddNone(states: States, e: Edit, open: Opener)
    requires |states| == NUM_LEVELS
    ensures AllWithAdded(states, e, 0, open, states)
  {
    forall l | 0 <= l < NUM_LEVELS
      ensures WithAdded(states[l], e, l, 0, open) == states[l]
    {
      assert VersionEdits.Numbers([]) == {};
    }
  }

  lemma AddStep(states: States, e: Edit, i: nat, open: Opener, was: States, states': States)
    requires i < |e.newFiles| && e.newFiles[i].0 < NUM_LEVELS && AllWithAdded(states, e, i, open, was)
    requires states' == AddFile(was, e.newFiles[i].0, open(e.newFiles[i].1))
    ensures AllWithAdded(states, e, i + 1, open, states')
  {
    var l := e.newFiles[i].0;
    AddedOne(states[l], e, l, i, open);
    OthersKept(states, e, l, i, open);
  }

  lemma AddedOne(s: VersionEdits.LevelState, e: Edit, l: nat, i: nat, open: Opener)
    requires i < |e.newFiles| && e.newFiles[i].0 == l
    ensures var f, was := open(e.newFiles[i].1), WithAdded(s, e, l, i, open);
            WithAdded(s, e, l, i + 1, open) == VersionEdits.LevelState(was.deleted - {f.number},
              VersionEdits.InsertFile(was.added, f))
  {
    var added, f := AddedAt(e, l, i, open), open(e.newFiles[i].1);
    assert (added + [f])[..|added|] == added;
    assert VersionEdits.Numbers(added + [f]) == VersionEdits.Numbers(added) + {f.number};
  }

  lemma OthersKept(states: States, e: Edit, l: nat, i: nat, open: Opener)
    requires |states| == NUM_LEVELS && i < |e.newFiles| && e.newFiles[i].0 == l
    ensures forall m: nat :: m < NUM_LEVELS && m != l ==>
              WithAdded(states[m], e, m, i + 1, open) == WithAdded(states[m], e, m, i, open)
  {
  }

  // ---- Which records can be replayed ----

  function DecodeRecord(record: seq<Byte>): Outcome { ReadFields(BLANK, record) }

  predicate Accepted(record: seq<Byte>, comparator: seq<Byte>) {
    var r := DecodeRecord(record);
    r.error.None? && (r.edit.comparator.Some? ==> r.edit.comparator.value == comparator)
  }

  function EditsOf(records: seq<seq<Byte>>): seq<Edit> {
    seq(|records|, i requires 0 <= i < |records| => DecodeRecord(records[i]).edit)
  }

  predicate AllAccepted(records: seq<seq<Byte>>, comparator: seq<Byte>) {
    forall i :: 0 <= i < |records| ==> Accepted(records[i], comparator)
  }

  /** Levels read from a record exist. */
  lemma {:induction false} ReadLevelsOk(e: Edit, input: seq<Byte>)
    requires LevelsOk(e)
    ensures LevelsOk(ReadFields(e, input).edit)
    decreases |input|
  {
    var tag := Coding.GetNumber(input, false);
    if tag.Some? {
      var f := ReadField(tag.value.value, tag.value.rest);
      if f.Some? {
        SetLevelsOk(e, tag.value.value, tag.value.rest);
        ReadLevelsOk(Set(e, f.value.value), f.value.rest);
      }
    }
  }

  lemma {:induction false} InsertMembers(s: seq<(nat, nat)>, x: (nat, nat))
    ensures forall y :: y in Insert(s, x) ==> y in s || y == x
  {
    if s != [] && !PairLess(s[|s| - 1], x) && s[|s| - 1] != x {
      InsertMembers(s[..|s| - 1], x);
    }
  }

  lemma SetLevelsOk(e: Edit, tag: nat, input: seq<Byte>)
    requires LevelsOk(e) && ReadField(tag, input).Some?
    ensures LevelsOk(Set(e, ReadField(tag, input).value.value))
  {
    var f := ReadField(tag, input).value.value;
    if f.DeletedFile? {
      InsertMembers(e.deletedFiles, (f.level, f.number));
      assert forall y :: y in e.deletedFiles ==> y.0 < NUM_LEVELS;
    }
  }

  // ---- Recovery ----

  ghost predicate Tracks(edits: seq<Edit>, open: Opener, numbers: Counters, states: States) {
    && numbers == Updated(edits) && |states| == NUM_LEVELS
    && forall l :: 0 <= l < NUM_LEVELS ==> states[l] == VersionEdits.ApplyAll(LevelEdits(edits, l, open))
  }

  lemma TracksNone(open: Opener)
    ensures Tracks([], open, Counters(None, None, None, None), seq(NUM_LEVELS, _ => VersionEdits.LevelState({}, [])))
  {
  }

  lemma TracksOne(edits: seq<Edit>, e: Edit, open: Opener, numbers: Counters, states: States, states': States)
    requires Tracks(edits, open, numbers, states) && |states'| == NUM_LEVELS
    requires forall l :: 0 <= l < NUM_LEVELS ==> states'[l] == VersionEdits.Apply(states[l], LevelEditOf(e, l, open))
    ensures Tracks(edits + [e], open, Update(numbers, e), states')
  {
    assert (edits + [e])[..|edits|] == edits;
    forall l | 0 <= l < NUM_LEVELS
      ensures states'[l] == VersionEdits.ApplyAll(LevelEdits(edits + [e], l, open))
    {
      var all := LevelEdits(edits + [e], l, open);
      assert all[..|all| - 1] == LevelEdits(edits, l, open);
    }
  }

  /** The object that decodes the record, and the check of the comparator's name. */
  method DecodeAndCheck(record: seq<Byte>, comparator: seq<Byte>) returns (ok: bool, e: Edit)
    ensures ok == Accepted(record, comparator) && e == DecodeRecord(record).edit && LevelsOk(e)
  {
    var edit := new VersionEdit();
    var error := edit.DecodeFrom(record);
    e := edit.Value();
    ok := error.None? && (e.comparator.None? || e.comparator.value == comparator);
    ReadLevelsOk(BLANK, record);
  }

  /** One more record: it is applied to the builder, and its numbers replace those before. */
  method Take(record: seq<Byte>, comparator: seq<Byte>, open: Opener, ghost records: seq<seq<Byte>>,
              counters: Counters, states: States)
      returns (ok: bool, counters': Counters, states': States)
    requires Tracks(EditsOf(records), open, counters, states)
    ensures ok == Accepted(record, comparator)
    ensures ok ==> Tracks(EditsOf(records + [record]), open, counters', states')
  {
    var e;
    counters', states' := counters, states;
    ok, e := DecodeAndCheck(record, comparator);
    if ok {
      states' := Apply(states, e, open);
      counters' := Update(counters, e);
      TracksOne(EditsOf(records), e, open, counters, states, states');
      assert EditsOf(records + [record]) == EditsOf(records) + [e];
    }
  }

  ghost predicate StillToReplay(goal: (seq<seq<Byte>>, nat), reader: LogReader.Reader, records: seq<seq<Byte>>)
    requires reader.Valid()
    reads reader
  {
    && reader.reports == 0
    && StillToRead(goal, LogReader.StreamOf(reader.sum, reader.file), |reader.file|, records, reader.Offset(), 0)
  }

  /** Reading stops at the first report of a corruption. */
  method NextRecord(reader: LogReader.Reader, ghost goal: (seq<seq<Byte>>, nat), ghost records: seq<seq<Byte>>)
      returns (ok: bool, record: Option<seq<Byte>>)
    requires reader.Valid() && StillToReplay(goal, reader, records)
    modifies reader
    ensures reader.Valid() && (!ok ==> goal.1 > 0)
    ensures ok && record.None? ==> goal == (records, 0)
    ensures ok && record.Some? ==>
              old(reader.Offset()) < reader.Offset() && StillToReplay(goal, reader, records + [record.value])
  {
    ReadOn(goal, LogReader.StreamOf(reader.sum, reader.file), |reader.file|, records, reader.Offset(), 0);
    record := reader.ReadRecord();
    ok := reader.reports == 0;
  }

  lemma NextIsThere(goal: (seq<seq<Byte>>, nat), reader: LogReader.Reader, records: seq<seq<Byte>>, record: seq<Byte>)
    requires reader.Valid() && StillToReplay(goal, reader, records + [record])
    ensures |records| < |goal.0| && goal.0[|records|] == record
  {
    assert (records + [record])[|records|] == record;
  }

  ghost predicate Replayed(records: seq<seq<Byte>>, comparator: seq<Byte>, open: Opener, counters: Counters,
                           states: States) {
    AllAccepted(records, comparator) && Tracks(EditsOf(records), open, counters, states)
  }

  /** One turn of the loop: an error, the end, or one more record. */
  method Turn(reader: LogReader.Reader, comparator: seq<Byte>, open: Opener, counters: Counters, states: States,
              ghost goal: (seq<seq<Byte>>, nat), ghost records: seq<seq<Byte>>)
      returns (ok: bool, more: bool, counters': Counters, states': States, ghost records': seq<seq<Byte>>)
    requires reader.Valid() && StillToReplay(goal, reader, records)
             && Replayed(records, comparator, open, counters, states)
    modifies reader
    ensures reader.Valid()
    ensures !ok ==> !(goal.1 == 0 && AllAccepted(goal.0, comparator))
    ensures ok ==> Replayed(records', comparator, open, counters', states')
    ensures ok && more ==> old(reader.Offset()) < reader.Offset() && StillToReplay(goal, reader, records')
    ensures ok && !more ==> goal == (records', 0)
  {
    var record;
    more, counters', states', records' := false, counters, states, records;
    ok, record := NextRecord(reader, goal, records);
    if ok && record.Some? {
      NextIsThere(goal, reader, records, record.value);
      more, records' := true, records + [record.value];
      ok, counters', states' := Take(record.value, comparator, open, records, counters, states);
    }
  }

  /** VersionSet::Recover, from the manifest's bytes to the builder's state. */
  method Recover(sum: Checksum, file: seq<Byte>, comparator: seq<Byte>, open: Opener)
      returns (ok: bool, counters: Counters, states: States)
    ensures var all := LogReader.ReadAll(LogReader.StreamOf(sum, file), |file|, 0);
            && ok == (all.1 == 0 && AllAccepted(all.0, comparator) && AllSet(EditsOf(all.0)))
            && (ok ==> LastOf(EditsOf(all.0), counters))
            && (ok ==> Tracks(EditsOf(all.0), open, counters, states))
  {
    var reader := new LogReader.Reader(sum, file);
    ghost var goal := LogReader.ReadAll(LogReader.StreamOf(sum, file), |file|, 0);
    ghost var records: seq<seq<Byte>> := [];
    counters, states := Counters(None, None, None, None), seq(NUM_LEVELS, _ => VersionEdits.LevelState({}, []));
    TracksNone(open);
    assert [] + goal.0 == goal.0;
    var more := true;
    while more
      invariant reader.Valid() && reader.sum == sum && reader.file == file
      invariant Replayed(records, comparator, open, counters, states)
      invariant if more then StillToReplay(goal, reader, records) else goal == (records, 0)
      decreases more, |file| - reader.Offset()
    {
      ok, more, counters, states, records := Turn(reader, comparator, open, counters, states, goal, records);
      if !ok {
        return;
      }
    }
    ok := Complete(counters);
    AllAreLast(EditsOf(goal.0));
  }

  // ---- What a crash leaves of a manifest ----

  function EncodedAll(edits: seq<Edit>): (records: seq<seq<Byte>>)
    ensures |records| == |edits| && forall i :: 0 <= i < |edits| ==> records[i] == Encoded(edits[i])
  {
    seq(|edits|, i requires 0 <= i < |edits| => Encoded(edits[i]))
  }

  /** What LogAndApply writes: an edit that fits, with the name of this comparator if any. */
  predicate Written(edits: seq<Edit>, comparator: seq<Byte>) {
    forall i :: 0 <= i < |edits| ==>
      WellFormed(edits[i]) && (edits[i].comparator.Some? ==> edits[i].comparator.value == comparator)
  }

  lemma EncodedIsDecoded(edits: seq<Edit>, comparator: seq<Byte>)
    requires Written(edits, comparator)
    ensures AllAccepted(EncodedAll(edits), comparator) && EditsOf(EncodedAll(edits)) == edits
  {
    forall i | 0 <= i < |edits|
      ensures DecodeRecord(Encoded(edits[i])) == Outcome(edits[i], None)
    {
      DecodeEncoded(BLANK, edits[i]);
      assert [] + edits[i].compactPointers == edits[i].compactPointers;
    }
  }

  lemma ReadsPrefix(sum: Checksum, file: seq<Byte>, records: seq<seq<Byte>>, synced: nat) returns (k: nat)
    requires file <= Encode(FramingOf(sum), 0, records)
    requires synced <= |records| && Encode(FramingOf(sum), 0, records[..synced]) <= file
    ensures synced <= k <= |records|
    ensures LogReader.ReadAll(LogReader.StreamOf(sum, file), |file|, 0) == (records[..k], 0)
  {
    CrashPrefix(sum, file, 0, records);
    k := LogRoundTrip.Complete(|file|, 0, records);
    EarlierRecordsStay(sum, records[..synced], file);
    assert records[..synced] <= records[..k];
  }

  lemma EncodedPrefix(edits: seq<Edit>, k: nat)
    requires k <= |edits|
    ensures EncodedAll(edits[..k]) == EncodedAll(edits)[..k]
  {
    assert forall i :: 0 <= i < k ==> EncodedAll(edits[..k])[i] == Encoded(edits[..k][i]);
  }

  /** A manifest cut off by a crash anywhere behind its synced records recovers: what comes back
      is exactly what the first k edits say, for some k that covers the synced ones. */
  lemma CutManifestRecovers(sum: Checksum, file: seq<Byte>, edits: seq<Edit>, synced: nat, comparator: seq<Byte>)
      returns (k: nat)
    requires Written(edits, comparator) && file <= Encode(FramingOf(sum), 0, EncodedAll(edits))
    requires synced <= |edits| && Encode(FramingOf(sum), 0, EncodedAll(edits[..synced])) <= file
    ensures synced <= k <= |edits|
    ensures var all := LogReader.ReadAll(LogReader.StreamOf(sum, file), |file|, 0);
            all.1 == 0 && AllAccepted(all.0, comparator) && EditsOf(all.0) == edits[..k]
  {
    var records := EncodedAll(edits);
    EncodedPrefix(edits, synced);
    k := ReadsPrefix(sum, file, records, synced);
    EncodedPrefix(edits, k);
    EncodedIsDecoded(edits[..k], comparator);
  }

  /** SaveTo of a level that the builder has tracked from an empty version. */
  ghost function Saved(s: VersionEdits.LevelState): seq<File> {
    VersionEdits.Edited([], s.deleted, VersionEdits.Without(s.added, s.deleted))
  }

  lemma {:induction false} EverAddedPrefix(edits: seq<VersionEdits.LevelEdit>, k: nat)
    requires k <= |edits| && VersionEdits.DistinctNumbers(VersionEdits.EverAdded([], edits))
    ensures VersionEdits.DistinctNumbers(VersionEdits.EverAdded([], edits[..k]))
    decreases |edits|
  {
    if k == |edits| {
      assert edits[..k] == edits;
    } else {
      var n := |edits| - 1;
      VersionEdits.DistinctParts(VersionEdits.EverAdded([], edits[..n]), edits[n].added);
      EverAddedPrefix(edits[..n], k);
      assert edits[..n][..k] == edits[..k];
    }
  }

  /** Every level is the one that applying the first k edits version by version had made. */
  lemma RecoveredLevel(edits: seq<Edit>, k: nat, open: Opener, counters: Counters, states: States, l: nat)
    requires k <= |edits| && l < NUM_LEVELS && Tracks(edits[..k], open, counters, states)
    requires VersionEdits.DistinctNumbers(VersionEdits.EverAdded([], LevelEdits(edits, l, open)))
    ensures Saved(states[l]) == VersionEdits.Stepwise([], LevelEdits(edits[..k], l, open))
  {
    var some := LevelEdits(edits, l, open)[..k];
    assert some == LevelEdits(edits[..k], l, open);
    EverAddedPrefix(LevelEdits(edits, l, open), k);
    VersionEdits.ReplayRebuildsLevel([], some);
  }

  // ---- Which files a version holds ----

  ghost predicate Adds(e: Edit, l: nat, open: Opener, f: File) {
    exists k :: 0 <= k < |e.newFiles| && e.newFiles[k].0 == l && open(e.newFiles[k].1) == f
  }

  predicate Deletes(e: Edit, l: nat, number: nat) { (l, number) in e.deletedFiles }

  /** Some edit adds the file to the level, and no later one deletes its number there. */
  ghost predicate Live(edits: seq<Edit>, l: nat, open: Opener, f: File) {
    exists i :: 0 <= i < |edits| && Adds(edits[i], l, open, f)
                && forall j :: i < j < |edits| ==> !Deletes(edits[j], l, f.number)
  }

  lemma {:induction false} AddedAtIff(e: Edit, l: nat, i: nat, open: Opener, f: File)
    requires i <= |e.newFiles|
    ensures f in AddedAt(e, l, i, open)
       <==> exists k :: 0 <= k < i && e.newFiles[k].0 == l && open(e.newFiles[k].1) == f
  {
    if i > 0 {
      AddedAtIff(e, l, i - 1, open, f);
    }
  }

  lemma EditAt(e: Edit, l: nat, open: Opener, f: File)
    ensures f in LevelEditOf(e, l, open).added <==> Adds(e, l, open, f)
    ensures f.number in LevelEditOf(e, l, open).deleted <==> Deletes(e, l, f.number)
  {
    AddedAtIff(e, l, |e.newFiles|, open, f);
    assert Deletes(e, l, f.number) ==> exists k :: 0 <= k < |e.deletedFiles| && e.deletedFiles[k] == (l, f.number);
  }

  lemma LiveOneMore(edits: seq<Edit>, e: Edit, l: nat, open: Opener, f: File)
    ensures Live(edits + [e], l, open, f)
       <==> Adds(e, l, open, f) || (Live(edits, l, open, f) && !Deletes(e, l, f.number))
  {
    var more := edits + [e];
    assert more[|edits|] == e;
    if Live(edits, l, open, f) && !Deletes(e, l, f.number) {
      var i :| 0 <= i < |edits| && Adds(edits[i], l, open, f)
               && forall j :: i < j < |edits| ==> !Deletes(edits[j], l, f.number);
      assert more[i] == edits[i];
    }
    if Live(more, l, open, f) && !Adds(e, l, open, f) {
      var i :| 0 <= i < |more| && Adds(more[i], l, open, f)
               && forall j :: i < j < |more| ==> !Deletes(more[j], l, f.number);
      assert more[i] == edits[i];
      assert forall j :: i < j < |edits| ==> more[j] == edits[j];
    }
  }

  lemma LiveStep(edits: seq<Edit>, e: Edit, l: nat, open: Opener, f: File)
    requires var all := LevelEdits(edits, l, open);
             var last := LevelEditOf(e, l, open);
             && VersionEdits.DistinctNumbers(VersionEdits.EverAdded([], all) + last.added)
             && (f in VersionEdits.Stepwise([], all) <==> Live(edits, l, open, f))
    ensures var last := LevelEditOf(e, l, open);
            var gone := last.deleted - VersionEdits.Numbers(last.added);
            f in VersionEdits.Edited(VersionEdits.Stepwise([], LevelEdits(edits, l, open)), gone, last.added)
            <==> Live(edits + [e], l, open, f)
  {
    var all, last := LevelEdits(edits, l, open), LevelEditOf(e, l, open);
    VersionEdits.DistinctParts(VersionEdits.EverAdded([], all), last.added);
    VersionEdits.StepwiseMembers([], all);
    EditAt(e, l, open, f);
    LiveOneMore(edits, e, l, open, f);
    assert f in VersionEdits.EverAdded([], all) ==> f.number !in VersionEdits.Numbers(last.added);
  }

  /** Edit by edit, a level holds exactly the files that are live. */
  lemma {:induction false} StepwiseIsLive(edits: seq<Edit>, l: nat, open: Opener, f: File)
    requires VersionEdits.DistinctNumbers(VersionEdits.EverAdded([], LevelEdits(edits, l, open)))
    ensures f in VersionEdits.Stepwise([], LevelEdits(edits, l, open)) <==> Live(edits, l, open, f)
    decreases |edits|
  {
    if edits != [] {
      var n, all := |edits| - 1, LevelEdits(edits, l, open);
      EverAddedPrefix(all, n);
      assert all[..n] == LevelEdits(edits[..n], l, open);
      StepwiseIsLive(edits[..n], l, open, f);
      LiveStep(edits[..n], edits[n], l, open, f);
      assert edits == edits[..n] + [edits[n]];
    }
  }

  /** The recovered version holds at each level exactly the files that some edit has added there
      and no later one has deleted. */
  lemma RecoveredFiles(edits: seq<Edit>, k: nat, open: Opener, counters: Counters, states: States, l: nat, f: File)
    requires k <= |edits| && l < NUM_LEVELS && Tracks(edits[..k], open, counters, states)
    requires VersionEdits.DistinctNumbers(VersionEdits.EverAdded([], LevelEdits(edits, l, open)))
    ensures f in Saved(states[l]) <==> Live(edits[..k], l, open, f)
  {
    RecoveredLevel(edits, k, open, counters, states, l);
    EverAddedPrefix(LevelEdits(edits, l, open), k);
    assert LevelEdits(edits, l, open)[..k] == LevelEdits(edits[..k], l, open);
    StepwiseIsLive(edits[..k], l, open, f);
  }

  /** LogAndApply sets all numbers, so those of the last edit come back. */
  lemma RecoveredCounters(edits: seq<Edit>, k: nat)
    requires 0 < k <= |edits|
    requires var e := edits[k - 1];
             e.logNumber.Some? && e.prevLogNumber.Some? && e.nextFile.Some? && e.lastSequence.Some?
    ensures var e := edits[k - 1]; Updated(edits[..k]) == Counters(e.logNumber, e.prevLogNumber, e.nextFile,
            e.lastSequence)
  {
  }

  ghost predicate Fit(fields: seq<Field>) { forall f :: f in fields ==> f.Fits() }

  method EncodeOne(e: Edit) returns (record: seq<Byte>)
    requires Fit(Fields(e))
    ensures record == Encoded(e)
  {
    var edit := new VersionEdit.Of(e);
    record := edit.EncodeTo([]);
  }

  lemma EncodedNext(edits: seq<Edit>, i: nat)
    requires i < |edits|
    ensures EncodedAll(edits[..i + 1]) == EncodedAll(edits[..i]) + [Encoded(edits[i])]
  {
    var some, more := edits[..i], edits[..i + 1];
    assert |more| == i + 1 && more[i] == edits[i];
    forall j | 0 <= j < i
      ensures EncodedAll(more)[j] == EncodedAll(some)[j]
    {
      assert more[j] == some[j];
    }
  }

  method EncodeAll(edits: seq<Edit>) returns (records: seq<seq<Byte>>)
    requires forall i :: 0 <= i < |edits| ==> Fit(Fields(edits[i]))
    ensures records == EncodedAll(edits)
  {
    records := [];
    for i := 0 to |edits|
      invariant records == EncodedAll(edits[..i])
    {
      EncodedNext(edits, i);
      var record := EncodeOne(edits[i]);
      records := records + [record];
    }
    assert edits[..|edits|] == edits;
  }

  lemma CutAnywhere(sum: Checksum, edits: seq<Edit>, whole: seq<Byte>, cut: nat, file: seq<Byte>, comparator: seq<Byte>)
      returns (k: nat)
    requires Written(edits, comparator) && whole == Encode(FramingOf(sum), 0, EncodedAll(edits))
    requires file == if cut < |whole| then whole[..cut] else whole
    ensures k <= |edits| && (|whole| <= cut ==> k == |edits|)
    ensures var all := LogReader.ReadAll(LogReader.StreamOf(sum, file), |file|, 0);
            all.1 == 0 && AllAccepted(all.0, comparator) && EditsOf(all.0) == edits[..k]
  {
    if |whole| <= cut {
      assert edits[..|edits|] == edits;
      k := CutManifestRecovers(sum, file, edits, |edits|, comparator);
    } else {
      assert EncodedAll(edits[..0]) == [];
      k := CutManifestRecovers(sum, file, edits, 0, comparator);
    }
  }

  /** Edits written, a crash, and the version that opening the database finds. */
  method WriteCrashRecover(sum: Checksum, edits: seq<Edit>, cut: nat, comparator: seq<Byte>, open: Opener)
      returns (ok: bool, counters: Counters, states: States, ghost k: nat)
    requires Written(edits, comparator)
    ensures k <= |edits| && ok == AllSet(edits[..k])
    ensures ok ==> Tracks(edits[..k], open, counters, states) && LastOf(edits[..k], counters)
    ensures |Encode(FramingOf(sum), 0, EncodedAll(edits))| <= cut ==> k == |edits|
  {
    var records := EncodeAll(edits);
    var whole := WriteFile(sum, records);
    var file := if cut < |whole| then whole[..cut] else whole;
    k := CutAnywhere(sum, edits, whole, cut, file, comparator);
    ok, counters, states := Recover(sum, file, comparator, open);
  }

  method WriteFile(sum: Checksum, records: seq<seq<Byte>>) returns (file: seq<Byte>)
    ensures file == Encode(FramingOf(sum), 0, records)
  {
    var w := new LogWriter.Writer(sum, []);
    LogWriter.WriteAll(w, records);
    file := w.dest;
  }
}
