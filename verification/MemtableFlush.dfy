/** Where a flushed memtable goes: Version::PickLevelForMemTableOutput and
    DBImpl::WriteLevel0Table / CompactMemTable. */
module MemtableFlush {
  import opened Wrappers
  import opened TableFiles
  import opened CompactionInputs
  import opened Store

  ghost predicate Touches(files: seq<File>, r: Range) {
    exists f :: f in files && Overlaps(f, r)
  }

  /** The new file may sink from level l to level l + 1. */
  ghost predicate CanSink(levels: seq<seq<File>>, r: Range, maxGrandparentBytes: nat, l: nat)
    requires l + 2 < |levels|
  {
    && !Touches(levels[l + 1], r)
    && TotalFileSize(Overlapping(levels[l + 2], r)) <= maxGrandparentBytes
  }

  /** The file sinks as far as it can, and no further than kMaxMemCompactLevel. */
  ghost predicate SinksTo(levels: seq<seq<File>>, r: Range, maxGrandparentBytes: nat, level: nat)
    requires |levels| == NUM_LEVELS
  {
    && level <= MAX_MEM_COMPACT_LEVEL
    && (Touches(levels[0], r) ==> level == 0)
    && (forall l :: 0 <= l < level ==> CanSink(levels, r, maxGrandparentBytes, l))
    && (!Touches(levels[0], r) && level < MAX_MEM_COMPACT_LEVEL ==> !CanSink(levels, r, maxGrandparentBytes, level))
  }

  method PickLevelForMemTableOutput(levels: seq<seq<File>>, r: Range, maxGrandparentBytes: nat) returns (level: nat)
    requires ValidLevels(levels)
    ensures SinksTo(levels, r, maxGrandparentBytes, level) && FlushLevelOk(levels, level, r)
  {
    level := 0;
    var overlap := SomeFileOverlapsRange(false, levels[0], r);
    if !overlap {
      while level < MAX_MEM_COMPACT_LEVEL
        invariant level <= MAX_MEM_COMPACT_LEVEL
        invariant forall l :: 0 <= l < level ==> CanSink(levels, r, maxGrandparentBytes, l)
        invariant forall l, f :: 0 <= l <= level && f in levels[l] ==> !Overlaps(f, r)
      {
        overlap := SomeFileOverlapsRange(true, levels[level + 1], r);
        if overlap {
          break;
        }
        var overlaps;
        ghost var cover;
        overlaps, cover := GetOverlappingInputs(level + 2, levels[level + 2], r);
        if TotalFileSize(overlaps) > maxGrandparentBytes {
          break;
        }
        level := level + 1;
      }
    }
  }

  /** The step is a flush to the level PickLevelForMemTableOutput picks. */
  ghost predicate FlushChosen(st: Store, step: Step, maxGrandparentBytes: nat) {
    && step.Flush? && |st.levels| == NUM_LEVELS && st.imm.Some?
    && (st.imm.value != []
       ==> SinksTo(st.levels, Span(TableFile(st.nextFile, step.size, st.imm.value)), maxGrandparentBytes, step.target))
  }

  /** CompactMemTable: the immutable memtable becomes a table of the current version. */
  method CompactMemTable(st: Store, size: nat, maxGrandparentBytes: nat) returns (st': Store, ghost step: Step)
    requires Inv(st) && st.imm.Some?
    ensures step.Flush? && Next(st, step, st')
    ensures FlushChosen(st, step, maxGrandparentBytes)
    ensures Inv(st') && Contents(st') == Contents(st) && st'.imm == None
  {
    var t := st.imm.value;
    var level := 0;
    if t == [] {
      st' := st.(imm := None);
    } else {
      var f := TableFile(st.nextFile, size, t);
      level := PickLevelForMemTableOutput(st.levels, Span(f), maxGrandparentBytes);
      st' := st.(imm := None, nextFile := st.nextFile + 1, levels := Placed(st.levels, level, f));
    }
    step := Flush(level, size);
    FlushKeepsInv(st, step, st');
  }
}
