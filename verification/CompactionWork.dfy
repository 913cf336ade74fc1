/** The compaction loop: Compaction::IsBaseLevelForKey of db/version_set.cc and
    DBImpl::DoCompactionWork of db/db_impl.cc. */
module CompactionWork {
  import opened Wrappers
  import opened InternalKeys
  import opened TableFiles
  import opened CompactionInputs

  predicate SpansKey(f: File, user: UserKey) {
    f.smallest.user <= user <= f.largest.user
  }

  /** The full scan that the moving cursors stand for: no file two or more levels below
      the compaction's level spans the key. */
  ghost predicate IsBase(levels: seq<seq<File>>, level: nat, user: UserKey) {
    forall l, f :: level + 2 <= l < |levels| && f in levels[l] ==> !SpansKey(f, user)
  }

  /** Every file a cursor has passed ends before the last key asked for. */
  ghost predicate Passed(files: seq<File>, ptr: nat, lastKey: Option<UserKey>) {
    && ptr <= |files|
    && forall i :: 0 <= i < ptr ==> lastKey.Some? && files[i].largest.user < lastKey.value
  }

  /** The part of class Compaction that answers IsBaseLevelForKey. */
  class Compaction {
    const levels: seq<seq<File>>
    const level: nat
    var levelPtrs: seq<nat>
    ghost var lastKey: Option<UserKey>

    ghost predicate Valid()
      reads this
    {
      && ValidLevels(levels)
      && level + 1 < NUM_LEVELS
      && |levelPtrs| == NUM_LEVELS
      && forall l :: level + 2 <= l < NUM_LEVELS ==> Passed(levels[l], levelPtrs[l], lastKey)
    }

    constructor (levels: seq<seq<File>>, level: nat)
      requires ValidLevels(levels) && level + 1 < NUM_LEVELS
      ensures Valid() && this.levels == levels && this.level == level && lastKey == None
    {
      this.levels, this.level := levels, level;
      levelPtrs := seq(NUM_LEVELS, _ => 0);
      lastKey := None;
    }

    /** On any nondecreasing sequence of keys the cursors answer as a full scan would. */
    method IsBaseLevelForKey(user: UserKey) returns (base: bool)
      requires Valid()
      requires lastKey.Some? ==> lastKey.value <= user
      modifies this
      ensures Valid() && lastKey == Some(user)
      ensures base <==> IsBase(levels, level, user)
    {
      lastKey := Some(user);
      for lvl := level + 2 to NUM_LEVELS
        invariant Valid() && lastKey == Some(user)
        invariant forall l, f :: level + 2 <= l < lvl && f in levels[l] ==> !SpansKey(f, user)
      {
        var files := levels[lvl];
        while levelPtrs[lvl] < |files|
          invariant Valid() && lastKey == Some(user)
          decreases |files| - levelPtrs[lvl]
        {
          var f := files[levelPtrs[lvl]];
          if user <= f.largest.user {
            if user >= f.smallest.user {
              assert f in levels[lvl] && SpansKey(f, user);
              return false;
            }
            break;
          }
          levelPtrs := levelPtrs[lvl := levelPtrs[lvl] + 1];
        }
        NothingSpans(files, levelPtrs[lvl], user);
      }
      return true;
    }
  }

  lemma NothingSpans(files: seq<File>, ptr: nat, user: UserKey)
    requires ValidFiles(files) && Disjoint(files) && ptr <= |files|
    requires forall i :: 0 <= i < ptr ==> files[i].largest.user < user
    requires ptr < |files| ==> user < files[ptr].smallest.user
    ensures forall f :: f in files ==> !SpansKey(f, user)
  {
    forall i | ptr <= i < |files|
      ensures !SpansKey(files[i], user)
    {
      Ordered(files, ptr, i);
    }
  }

  /** Rule (A): a newer entry of the same user key serves every snapshot that this one could. */
  ghost predicate Hidden(input: seq<Entry>, smallestSnapshot: nat, e: Entry) {
    exists x :: x in input && x.ikey.user == e.ikey.user && e.ikey.sequence < x.ikey.sequence <= smallestSnapshot
  }

  /** The deletion-marker rule. */
  ghost predicate Obsolete(levels: seq<seq<File>>, level: nat, smallestSnapshot: nat, e: Entry) {
    e.ikey.kind.Deletion? && e.ikey.sequence <= smallestSnapshot && IsBase(levels, level, e.ikey.user)
  }

  ghost predicate Dropped(levels: seq<seq<File>>, level: nat, input: seq<Entry>, smallestSnapshot: nat, e: Entry) {
    Hidden(input, smallestSnapshot, e) || Obsolete(levels, level, smallestSnapshot, e)
  }

  /** Rule (A) in terms of reads: at no usable snapshot is the entry the newest of the inputs. */
  lemma HiddenIff(input: seq<Entry>, ss: nat, e: Entry)
    requires e in input
    ensures Hidden(input, ss, e) <==> forall s :: ss <= s ==> !IsNewest(Elements(input), e.ikey.user, s, e)
  {
    var top := if ss < e.ikey.sequence then e.ikey.sequence else ss;
    if Hidden(input, ss, e) {
      forall s | ss <= s
        ensures !IsNewest(Elements(input), e.ikey.user, s, e)
      {
        var x :| x in input && x.ikey.user == e.ikey.user && e.ikey.sequence < x.ikey.sequence <= ss;
        assert x in Elements(input) && Visible(x, e.ikey.user, s);
      }
    } else {
      forall x | x in Elements(input) && Visible(x, e.ikey.user, top)
        ensures x.ikey.sequence <= e.ikey.sequence
      {
      }
      assert IsNewest(Elements(input), e.ikey.user, top, e);
    }
  }

  /** An entry is dropped exactly if no usable snapshot shows it among the inputs, or if it is a
      deletion marker that all of them see and no deeper level has a file around its key. */
  lemma DroppedIff(levels: seq<seq<File>>, level: nat, input: seq<Entry>, ss: nat, e: Entry)
    requires e in input
    ensures Dropped(levels, level, input, ss, e) <==>
              (forall s :: ss <= s ==> !IsNewest(Elements(input), e.ikey.user, s, e))
              || (e.ikey.kind.Deletion? && (forall s :: ss <= s ==> Visible(e, e.ikey.user, s))
                  && forall l, f :: level + 2 <= l < |levels| && f in levels[l] ==>
                       e.ikey.user < f.smallest.user || f.largest.user < e.ikey.user)
  {
    HiddenIff(input, ss, e);
    assert Visible(e, e.ikey.user, ss) <==> e.ikey.sequence <= ss;
    assert forall f :: SpansKey(f, e.ikey.user) <==> !(e.ikey.user < f.smallest.user || f.largest.user < e.ikey.user);
  }

  /** The entries of t, a part of the input, that a compaction keeps. */
  ghost function Survivors(levels: seq<seq<File>>, level: nat, input: seq<Entry>, ss: nat, t: seq<Entry>): seq<Entry> {
    if t == [] then [] else
      var n := |t| - 1;
      var rest := Survivors(levels, level, input, ss, t[..n]);
      if Dropped(levels, level, input, ss, t[n]) then rest else rest + [t[n]]
  }

  lemma {:induction false} SurvivorsAre(levels: seq<seq<File>>, level: nat, input: seq<Entry>, ss: nat, t: seq<Entry>)
    ensures forall e :: e in Survivors(levels, level, input, ss, t) <==> e in t && !Dropped(levels, level, input, ss, e)
  {
    if t != [] {
      var n := |t| - 1;
      SurvivorsAre(levels, level, input, ss, t[..n]);
      assert forall e :: e in t <==> e in t[..n] || e == t[n];
    }
  }

  lemma SurvivorsStep(levels: seq<seq<File>>, level: nat, input: seq<Entry>, ss: nat, t: seq<Entry>, e: Entry)
    ensures Survivors(levels, level, input, ss, t + [e])
         == Survivors(levels, level, input, ss, t) + if Dropped(levels, level, input, ss, e) then [] else [e]
  {
    assert (t + [e])[..|t|] == t;
  }

  lemma SurvivorsSnoc(levels: seq<seq<File>>, level: nat, input: seq<Entry>, ss: nat, i: nat)
    requires i < |input|
    ensures Survivors(levels, level, input, ss, input[..i + 1])
         == Survivors(levels, level, input, ss, input[..i])
            + if Dropped(levels, level, input, ss, input[i]) then [] else [input[i]]
  {
    assert input[..i + 1][..i] == input[..i];
  }

  lemma {:induction false} SurvivorsSorted(levels: seq<seq<File>>, level: nat, input: seq<Entry>, ss: nat,
                                           t: seq<Entry>)
    requires Sorted(t)
    ensures Sorted(Survivors(levels, level, input, ss, t))
  {
    if t != [] {
      var n := |t| - 1;
      SurvivorsSorted(levels, level, input, ss, t[..n]);
      SurvivorsAre(levels, level, input, ss, t[..n]);
      var rest := Survivors(levels, level, input, ss, t[..n]);
      forall i | 0 <= i < |rest|
        ensures rest[i].ikey.Less(t[n].ikey)
      {
        assert rest[i] in rest;
        var j :| 0 <= j < n && t[j] == rest[i];
      }
    }
  }

  function Flatten(outputs: seq<seq<Entry>>): seq<Entry> {
    if outputs == [] then [] else Flatten(outputs[..|outputs| - 1]) + outputs[|outputs| - 1]
  }

  /** The loop's one-entry memory decides rule (A): on sorted input the entry just before
      is the oldest of the newer ones. */
  lemma HiddenByPrevious(input: seq<Entry>, i: nat, ss: nat)
    requires Sorted(input) && Unique(Elements(input)) && i < |input|
    ensures Hidden(input, ss, input[i])
            <==> 0 < i && input[i - 1].ikey.user == input[i].ikey.user && input[i - 1].ikey.sequence <= ss
  {
    var e := input[i];
    if Hidden(input, ss, e) {
      var x :| x in input && x.ikey.user == e.ikey.user && e.ikey.sequence < x.ikey.sequence <= ss;
      var j :| 0 <= j < |input| && input[j] == x;
      assert j < i;
      assert j < i - 1 ==> input[j].ikey.Less(input[i - 1].ikey);
      assert input[i - 1].ikey.Less(input[i].ikey);
    }
    if 0 < i && input[i - 1].ikey.user == e.ikey.user && input[i - 1].ikey.sequence <= ss {
      assert input[i - 1] in Elements(input) && e in Elements(input);
      assert input[i - 1].ikey.Less(e.ikey);
    }
  }

  /** The drop decision for entry i, from the loop's memory of the previous entry. */
  method ShouldDrop(c: Compaction, input: seq<Entry>, i: nat, smallestSnapshot: nat,
                    currentUserKey: Option<UserKey>, lastSequence: nat) returns (drop: bool)
    requires c.Valid() && i < |input|
    requires Sorted(input) && Unique(Elements(input)) && smallestSnapshot < MAX_SEQUENCE
    requires c.lastKey.Some? ==> c.lastKey.value <= input[i].ikey.user
    requires i == 0 ==> currentUserKey == None
    requires 0 < i ==> currentUserKey == Some(input[i - 1].ikey.user) && lastSequence == input[i - 1].ikey.sequence
    modifies c
    ensures c.Valid()
    ensures c.lastKey == old(c.lastKey) || c.lastKey == Some(input[i].ikey.user)
    ensures drop <==> Dropped(c.levels, c.level, input, smallestSnapshot, input[i])
  {
    var ikey := input[i].ikey;
    var lastSequenceForKey := lastSequence;
    if currentUserKey != Some(ikey.user) {
      lastSequenceForKey := MAX_SEQUENCE;
    }
    HiddenByPrevious(input, i, smallestSnapshot);
    drop := false;
    if lastSequenceForKey <= smallestSnapshot {
      drop := true;
    } else if ikey.kind.Deletion? && ikey.sequence <= smallestSnapshot {
      drop := c.IsBaseLevelForKey(ikey.user);
    }
  }

  /** DBImpl::DoCompactionWork over the merged input. The byte counts that end an output
      file (ShouldStopBefore, MaxOutputFileSize) are arbitrary choices here. */
  method DoCompactionWork(c: Compaction, input: seq<Entry>, smallestSnapshot: nat,
                          stopBefore: seq<bool>, closeAfter: seq<bool>) returns (outputs: seq<seq<Entry>>)
    requires c.Valid() && c.lastKey == None
    requires Sorted(input) && Unique(Elements(input)) && smallestSnapshot < MAX_SEQUENCE
    requires |stopBefore| == |input| == |closeAfter|
    modifies c
    ensures Flatten(outputs) == Survivors(c.levels, c.level, input, smallestSnapshot, input)
    ensures forall o :: o in outputs ==> o != []
  {
    outputs := [];
    var builder := [];
    var currentUserKey: Option<UserKey> := None;
    var lastSequenceForKey := MAX_SEQUENCE;
    for i := 0 to |input|
      invariant c.Valid()
      invariant c.lastKey.Some? ==> 0 < i && c.lastKey.value <= input[i - 1].ikey.user
      invariant i == 0 ==> currentUserKey == None
      invariant 0 < i ==>
                  currentUserKey == Some(input[i - 1].ikey.user) && lastSequenceForKey == input[i - 1].ikey.sequence
      invariant forall o :: o in outputs ==> o != []
      invariant Flatten(outputs) + builder == Survivors(c.levels, c.level, input, smallestSnapshot, input[..i])
    {
      assert 0 < i ==> input[i - 1].ikey.Less(input[i].ikey);
      var drop := ShouldDrop(c, input, i, smallestSnapshot, currentUserKey, lastSequenceForKey);
      currentUserKey, lastSequenceForKey := Some(input[i].ikey.user), input[i].ikey.sequence;
      SurvivorsSnoc(c.levels, c.level, input, smallestSnapshot, i);
      outputs, builder := Emit(outputs, builder, input[i], drop, stopBefore[i], closeAfter[i]);
    }
    assert input[..|input|] == input;
    if builder != [] {
      outputs, builder := Finish(outputs, builder);
    }
  }

  /** What one iteration does to the output files. */
  method Emit(outputs: seq<seq<Entry>>, builder: seq<Entry>, e: Entry, drop: bool, stopBefore: bool, closeAfter: bool)
      returns (outputs': seq<seq<Entry>>, builder': seq<Entry>)
    requires forall o :: o in outputs ==> o != []
    ensures forall o :: o in outputs' ==> o != []
    ensures Flatten(outputs') + builder' == Flatten(outputs) + builder + if drop then [] else [e]
  {
    outputs', builder' := outputs, builder;
    if stopBefore && builder' != [] {
      outputs', builder' := Finish(outputs', builder');
    }
    if !drop {
      builder' := builder' + [e];
      if closeAfter {
        outputs', builder' := Finish(outputs', builder');
      }
    }
  }

  /** FinishCompactionOutputFile. */
  method Finish(outputs: seq<seq<Entry>>, builder: seq<Entry>) returns (longer: seq<seq<Entry>>, empty: seq<Entry>)
    requires builder != []
    ensures empty == []
    ensures Flatten(longer) == Flatten(outputs) + builder
    ensures longer == outputs + [builder]
  {
    longer, empty := outputs + [builder], [];
    assert longer[..|longer| - 1] == outputs;
  }
}
