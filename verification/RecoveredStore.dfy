/** Recovery does what ordinary operation could have done: the replayed writes, memtable
    switches, and flushes to level 0. So a recovered store is in order, and answers reads from
    the writes that survived. */
module RecoveredStores {
  import opened Wrappers
  import opened InternalKeys
  import opened TableFiles
  import opened CompactionWork
  import opened Store
  import opened StoreReads
  import opened StoreDisks
  import R = Recovery

  // ---- Steps in a row ----

  ghost predicate Leads(st: Store, steps: seq<Step>, st': Store)
    decreases |steps|
  {
    if steps == [] then st' == st
    else
      var n := |steps| - 1;
      exists mid :: Leads(st, steps[..n], mid) && Next(mid, steps[n], st')
  }

  /** What recovery amounts to. */
  predicate IsReplay(step: Step) {
    step.Write? || step.SwitchMemtable? || step.UseUp? || (step.Flush? && step.target == 0)
  }

  predicate AllReplay(steps: seq<Step>) { forall i :: 0 <= i < |steps| ==> IsReplay(steps[i]) }

  lemma LeadsOn(st: Store, steps: seq<Step>, mid: Store, step: Step, st': Store)
    requires Leads(st, steps, mid) && Next(mid, step, st') && AllReplay(steps) && IsReplay(step)
    ensures Leads(st, steps + [step], st') && AllReplay(steps + [step])
  {
    assert (steps + [step])[..|steps|] == steps;
  }

  lemma {:induction false} LeadsKeepReads(st: Store, steps: seq<Step>, st': Store)
    requires Inv(st) && ReadsAgree(st) && Leads(st, steps, st') && AllReplay(steps)
    ensures Inv(st') && ReadsAgree(st')
    decreases |steps|
  {
    if steps != [] {
      var n := |steps| - 1;
      var mid :| Leads(st, steps[..n], mid) && Next(mid, steps[n], st');
      LeadsKeepReads(st, steps[..n], mid);
      NextKeepsReads(mid, steps[n], st');
    }
  }

  // ---- Writes ----

  function LastAfter(last: nat, es: seq<Entry>): nat { if es == [] then last else LastOf(es) }

  /** The entries may be written next, in this order. */
  ghost predicate Writable(last: nat, es: seq<Entry>) {
    Ascending(es) && forall e :: e in es ==> last < e.ikey.sequence < MAX_SEQUENCE
  }

  function Wrote(st: Store, es: seq<Entry>): Store {
    st.(mem := R.MemtableOf(es), lastSequence := LastAfter(st.lastSequence, es), history := st.history + es)
  }

  lemma WritableParts(last: nat, a: seq<Entry>, b: seq<Entry>)
    requires Writable(last, a + b)
    ensures Writable(last, a) && Writable(LastAfter(last, a), b)
  {
    var all := a + b;
    assert forall i :: 0 <= i < |a| ==> all[i] == a[i];
    assert forall i :: 0 <= i < |b| ==> all[|a| + i] == b[i];
    assert forall e :: e in a ==> e in all;
    forall e | e in b
      ensures LastAfter(last, a) < e.ikey.sequence < MAX_SEQUENCE
    {
      assert e in all;
      var i :| 0 <= i < |b| && b[i] == e;
      assert a != [] ==> all[|a| - 1].ikey.sequence < all[|a| + i].ikey.sequence;
    }
  }

  lemma WroteOneMore(st: Store, es: seq<Entry>, e: Entry)
    ensures Wrote(st, es + [e]).mem == InsertEntry(Wrote(st, es).mem, e)
    ensures Wrote(st, es + [e]).history == Wrote(st, es).history + [e]
            && Wrote(st, es + [e]).lastSequence == e.ikey.sequence
  {
    R.MemtableOfOne(es, e);
    assert st.history + (es + [e]) == st.history + es + [e];
  }

  lemma WriteLeads(st: Store, steps: seq<Step>, cur: Store, e: Entry, cur': Store) returns (steps': seq<Step>)
    requires Leads(st, steps, cur) && AllReplay(steps) && cur.lastSequence < e.ikey.sequence < MAX_SEQUENCE
    requires cur' == cur.(mem := InsertEntry(cur.mem, e), lastSequence := e.ikey.sequence, history := cur.history + [e])
    ensures Leads(st, steps', cur') && AllReplay(steps')
  {
    var skip := UseUp(e.ikey.sequence - cur.lastSequence - 1, 0);
    var mid := cur.(lastSequence := e.ikey.sequence - 1);
    LeadsOn(st, steps, cur, skip, mid);
    var write := Write(e.ikey.user, e.ikey.kind, e.value);
    LeadsOn(st, steps + [skip], mid, write, cur');
    steps' := steps + [skip] + [write];
  }

  lemma {:induction false} WritesLead(st: Store, steps: seq<Step>, cur: Store, es: seq<Entry>)
      returns (steps': seq<Step>)
    requires Leads(st, steps, cur) && AllReplay(steps) && cur.mem == [] && Writable(cur.lastSequence, es)
    ensures Leads(st, steps', Wrote(cur, es)) && AllReplay(steps')
    decreases |es|
  {
    if es == [] {
      assert cur.history + es == cur.history;
      assert Wrote(cur, es) == cur;
      steps' := steps;
    } else {
      var n := |es| - 1;
      assert es == es[..n] + [es[n]];
      WritableParts(cur.lastSequence, es[..n], [es[n]]);
      steps' := WritesLead(st, steps, cur, es[..n]);
      WroteOneMore(cur, es[..n], es[n]);
      steps' := WriteLeads(st, steps', Wrote(cur, es[..n]), es[n], Wrote(cur, es));
    }
  }

  // ---- Files ----

  /** One file after the other comes to level 0. */
  function PlacedAll(levels: seq<seq<File>>, files: seq<File>): (after: seq<seq<File>>)
    requires |levels| == NUM_LEVELS
    ensures |after| == NUM_LEVELS
  {
    if files == [] then levels else Placed(PlacedAll(levels, files[..|files| - 1]), 0, files[|files| - 1])
  }

  lemma FlushLeads(st: Store, steps: seq<Step>, cur: Store, f: File, cur': Store) returns (steps': seq<Step>)
    requires Leads(st, steps, cur) && AllReplay(steps) && |cur.levels| == NUM_LEVELS && cur.imm == None
             && cur.nextFile <= f.number
    requires cur.mem != [] && f == TableFile(f.number, f.size, cur.mem)
    requires cur' == cur.(mem := [], levels := Placed(cur.levels, 0, f), nextFile := f.number + 1)
    requires cur.lastSequence < MAX_SEQUENCE
    ensures Leads(st, steps', cur') && AllReplay(steps')
  {
    var a := cur.(mem := [], imm := Some(cur.mem));
    LeadsOn(st, steps, cur, SwitchMemtable, a);
    var b := a.(nextFile := f.number);
    var skip, flush := UseUp(0, f.number - cur.nextFile), Flush(0, f.size);
    LeadsOn(st, steps + [SwitchMemtable], a, skip, b);
    LeadsOn(st, steps + [SwitchMemtable] + [skip], b, flush, cur');
    steps' := steps + [SwitchMemtable] + [skip] + [flush];
  }

  /** The store after some files, with the entries they hold. */
  function Replayed(st: Store, es: seq<Entry>, files: seq<File>, next: nat): Store
    requires |st.levels| == NUM_LEVELS
  {
    st.(levels := PlacedAll(st.levels, files), lastSequence := LastAfter(st.lastSequence, es), nextFile := next,
      history := st.history + es)
  }

  lemma ReplayedOneMore(st: Store, es: seq<Entry>, part: seq<Entry>, files: seq<File>, f: File, next: nat)
    requires |st.levels| == NUM_LEVELS && R.FileOf(part, f) && st.mem == []
    ensures Wrote(Replayed(st, es, files, next), part).(mem := [], levels := Placed(PlacedAll(st.levels, files), 0, f),
            nextFile := f.number + 1)
         == Replayed(st, es + part, files + [f], f.number + 1)
  {
    assert (files + [f])[..|files|] == files;
    assert st.history + (es + part) == st.history + es + part;
    assert (es + part)[|es + part| - 1] == part[|part| - 1];
  }

  lemma FileLeads(st: Store, steps: seq<Step>, es: seq<Entry>, part: seq<Entry>, files: seq<File>, f: File, next: nat,
                  goal: Store)
      returns (steps': seq<Step>)
    requires |st.levels| == NUM_LEVELS && st.mem == [] && st.imm == None && R.FileOf(part, f) && next <= f.number
    requires Leads(st, steps, Replayed(st, es, files, next)) && AllReplay(steps) && Writable(st.lastSequence, es + part)
    requires goal == Replayed(st, es + part, files + [f], f.number + 1)
    ensures Leads(st, steps', goal) && AllReplay(steps')
  {
    var cur := Replayed(st, es, files, next);
    WritableParts(st.lastSequence, es, part);
    steps' := WritesLead(st, steps, cur, part);
    assert part[|part| - 1] in part;
    ReplayedOneMore(st, es, part, files, f, next);
    steps' := FlushLeads(st, steps', Wrote(cur, part), f, goal);
  }

  /** The number after the first k files. */
  function NumberAfter(first: nat, files: seq<File>): nat {
    if files == [] then first else files[|files| - 1].number + 1
  }

  ghost predicate HasPart(parts: seq<seq<Entry>>, files: seq<File>, i: nat) {
    i < |parts| && i < |files| && R.FileOf(parts[i], files[i])
  }

  lemma NextPart(parts: seq<seq<Entry>>, files: seq<File>, k: nat)
    requires k < |parts| == |files|
    ensures Flatten(parts[..k + 1]) == Flatten(parts[..k]) + parts[k] && files[..k + 1] == files[..k] + [files[k]]
  {
    assert parts[..k + 1][..k] == parts[..k];
  }

  lemma NumberIsFree(first: nat, files: seq<File>, k: nat)
    requires k < |files| && R.NumbersAscend(files) && forall f :: f in files ==> first <= f.number
    ensures NumberAfter(first, files[..k]) <= files[k].number
    ensures NumberAfter(first, files[..k + 1]) == files[k].number + 1
  {
    assert files[k] in files;
  }

  /** The store after the first k files. */
  function AfterFiles(st: Store, parts: seq<seq<Entry>>, files: seq<File>, k: nat): Store
    requires |st.levels| == NUM_LEVELS && k <= |parts| == |files|
  {
    Replayed(st, Flatten(parts[..k]), files[..k], NumberAfter(st.nextFile, files[..k]))
  }

  lemma AfterNoFiles(st: Store, parts: seq<seq<Entry>>, files: seq<File>)
    requires |st.levels| == NUM_LEVELS && |parts| == |files|
    ensures AfterFiles(st, parts, files, 0) == st
  {
    assert st.history + [] == st.history;
  }

  lemma AfterNextFile(st: Store, parts: seq<seq<Entry>>, files: seq<File>, n: nat)
    requires |st.levels| == NUM_LEVELS && n < |parts| == |files|
    ensures AfterFiles(st, parts, files, n + 1) == Replayed(st, Flatten(parts[..n]) + parts[n],
            files[..n] + [files[n]], files[n].number + 1)
  {
    NextPart(parts, files, n);
  }

  lemma NextFileLeads(st: Store, steps: seq<Step>, parts: seq<seq<Entry>>, files: seq<File>, n: nat, goal: Store)
      returns (steps': seq<Step>)
    requires |st.levels| == NUM_LEVELS && st.mem == [] && st.imm == None && n < |parts| == |files|
    requires R.NumbersAscend(files) && (forall f :: f in files ==> st.nextFile <= f.number) && HasPart(parts, files, n)
    requires Leads(st, steps, AfterFiles(st, parts, files, n)) && AllReplay(steps)
    requires Writable(st.lastSequence, Flatten(parts[..n + 1])) && goal == AfterFiles(st, parts, files, n + 1)
    ensures Leads(st, steps', goal) && AllReplay(steps')
  {
    AfterNextFile(st, parts, files, n);
    NextPart(parts, files, n);
    NumberIsFree(st.nextFile, files, n);
    steps' := FileLeads(st, steps, Flatten(parts[..n]), parts[n], files[..n], files[n],
      NumberAfter(st.nextFile, files[..n]), goal);
  }

  lemma FewerWritable(last: nat, parts: seq<seq<Entry>>, files: seq<File>, n: nat)
    requires n < |parts| == |files| && Writable(last, Flatten(parts[..n + 1]))
    ensures Writable(last, Flatten(parts[..n]))
  {
    NextPart(parts, files, n);
    WritableParts(last, Flatten(parts[..n]), parts[n]);
  }

  lemma {:induction false} FilesLead(st: Store, parts: seq<seq<Entry>>, files: seq<File>, k: nat, goal: Store)
      returns (steps: seq<Step>)
    requires |st.levels| == NUM_LEVELS && st.mem == [] && st.imm == None && k <= |parts| == |files|
    requires R.NumbersAscend(files) && forall f :: f in files ==> st.nextFile <= f.number
    requires Writable(st.lastSequence, Flatten(parts[..k])) && forall i :: 0 <= i < k ==> HasPart(parts, files, i)
    requires goal == AfterFiles(st, parts, files, k)
    ensures Leads(st, steps, goal) && AllReplay(steps)
  {
    if k == 0 {
      steps := [];
      AfterNoFiles(st, parts, files);
    } else {
      var n := k - 1;
      FewerWritable(st.lastSequence, parts, files, n);
      steps := FilesLead(st, parts, files, n, AfterFiles(st, parts, files, n));
      steps := NextFileLeads(st, steps, parts, files, n, goal);
    }
  }
}
