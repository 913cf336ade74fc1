/** Applying version edits to a level: VersionSet::Builder of db/version_set.cc. */
module VersionEdits {
  import opened TableFiles

  /** BySmallestKey: smallest internal key first, ties broken by file number. */
  predicate BySmallest(f: File, g: File) {
    f.smallest.Less(g.smallest) || (!g.smallest.Less(f.smallest) && f.number < g.number)
  }

  ghost predicate InOrder(fs: seq<File>) {
    forall i, j :: 0 <= i < j < |fs| ==> BySmallest(fs[i], fs[j])
  }

  ghost predicate DistinctNumbers(fs: seq<File>) {
    forall i, j :: 0 <= i < j < |fs| ==> fs[i].number != fs[j].number
  }

  /** The files of a list whose numbers are not deleted. */
  function Without(fs: seq<File>, deleted: set<nat>): (kept: seq<File>)
    ensures forall f :: f in kept <==> f in fs && f.number !in deleted
  {
    if fs == [] then [] else
      var n := |fs| - 1;
      assert forall f :: f in fs <==> f in fs[..n] || f == fs[n];
      if fs[n].number in deleted then Without(fs[..n], deleted) else Without(fs[..n], deleted) + [fs[n]]
  }

  /** Insertion in BySmallest order. */
  function InsertFile(fs: seq<File>, f: File): (out: seq<File>)
    ensures forall g :: g in out <==> g in fs || g == f
  {
    if fs == [] || BySmallest(fs[|fs| - 1], f) then fs + [f]
    else
      var n := |fs| - 1;
      assert forall g :: g in fs <==> g in fs[..n] || g == fs[n];
      InsertFile(fs[..n], f) + [fs[n]]
  }

  function InsertFiles(fs: seq<File>, added: seq<File>): (out: seq<File>)
    ensures forall g :: g in out <==> g in fs || g in added
  {
    if added == [] then fs else
      var n := |added| - 1;
      assert forall g :: g in added <==> g in added[..n] || g == added[n];
      InsertFile(InsertFiles(fs, added[..n]), added[n])
  }

  /** The level that results from deleting some file numbers and adding some files. */
  function Edited(base: seq<File>, deleted: set<nat>, added: seq<File>): (out: seq<File>)
    ensures forall g :: g in out <==> (g in base && g.number !in deleted) || g in added
  {
    InsertFiles(Without(base, deleted), added)
  }

  lemma {:induction false} WithoutKeepsOrder(fs: seq<File>, deleted: set<nat>)
    requires InOrder(fs)
    ensures InOrder(Without(fs, deleted))
  {
    if fs != [] {
      var n := |fs| - 1;
      WithoutKeepsOrder(fs[..n], deleted);
      var rest := Without(fs[..n], deleted);
      forall i | 0 <= i < |rest|
        ensures BySmallest(rest[i], fs[n])
      {
        assert rest[i] in rest;
        var j :| 0 <= j < n && fs[j] == rest[i];
      }
    }
  }

  lemma {:induction false} InsertKeepsOrder(fs: seq<File>, f: File)
    requires InOrder(fs)
    requires forall g :: g in fs ==> g.number != f.number
    ensures InOrder(InsertFile(fs, f))
  {
    if fs == [] || BySmallest(fs[|fs| - 1], f) {
      forall i | 0 <= i < |fs|
        ensures BySmallest(fs[i], f)
      {
        assert i < |fs| - 1 ==> BySmallest(fs[i], fs[|fs| - 1]);
      }
    } else {
      var n := |fs| - 1;
      InsertKeepsOrder(fs[..n], f);
      var rest := InsertFile(fs[..n], f);
      assert fs[n] in fs;
      forall i | 0 <= i < |rest|
        ensures BySmallest(rest[i], fs[n])
      {
        assert rest[i] in rest;
        if rest[i] != f {
          var j :| 0 <= j < n && fs[j] == rest[i];
        }
      }
    }
  }

  /** No added file repeats a number. */
  ghost predicate FreshNumbers(kept: seq<File>, added: seq<File>) {
    && DistinctNumbers(added)
    && forall f, g :: f in kept && g in added ==> f.number != g.number
  }

  lemma {:induction false} InsertFilesKeepsOrder(fs: seq<File>, added: seq<File>)
    requires InOrder(fs) && FreshNumbers(fs, added)
    ensures InOrder(InsertFiles(fs, added))
  {
    if added != [] {
      var n := |added| - 1;
      InsertFilesKeepsOrder(fs, added[..n]);
      assert added[n] in added;
      forall g | g in InsertFiles(fs, added[..n])
        ensures g.number != added[n].number
      {
        if g !in fs {
          var j :| 0 <= j < n && added[j] == g;
        }
      }
      InsertKeepsOrder(InsertFiles(fs, added[..n]), added[n]);
    }
  }

  lemma EditedInOrder(base: seq<File>, deleted: set<nat>, added: seq<File>)
    requires InOrder(base) && FreshNumbers(Without(base, deleted), added)
    ensures InOrder(Edited(base, deleted, added))
  {
    WithoutKeepsOrder(base, deleted);
    InsertFilesKeepsOrder(Without(base, deleted), added);
  }

  /** An ordered list with the right files is the edited list. */
  lemma EditedIs(base: seq<File>, deleted: set<nat>, added: seq<File>, expected: seq<File>)
    requires InOrder(base) && FreshNumbers(Without(base, deleted), added) && InOrder(expected)
    requires forall f :: f in expected <==> (f in base && f.number !in deleted) || f in added
    ensures Edited(base, deleted, added) == expected
  {
    EditedInOrder(base, deleted, added);
    OrderedListsAgree(Edited(base, deleted, added), expected);
  }

  /** An ordered list is determined by its files. */
  lemma {:induction false} OrderedListsAgree(a: seq<File>, b: seq<File>)
    requires InOrder(a) && InOrder(b)
    requires forall f :: f in a <==> f in b
    ensures a == b
  {
    assert b != [] ==> b[0] in b;
    if a != [] {
      assert a[0] in a;
      SameHead(a, b);
      TailMembers(a, b);
      OrderedListsAgree(a[1..], b[1..]);
      assert a == [a[0]] + a[1..] && b == [b[0]] + b[1..];
    }
  }

  lemma SameHead(a: seq<File>, b: seq<File>)
    requires InOrder(a) && InOrder(b) && a != [] && b != []
    requires a[0] in b && b[0] in a
    ensures a[0] == b[0]
  {
    var i :| 0 <= i < |b| && b[i] == a[0];
    var j :| 0 <= j < |a| && a[j] == b[0];
  }

  lemma TailMembers(a: seq<File>, b: seq<File>)
    requires InOrder(a) && InOrder(b) && a != [] && b != [] && a[0] == b[0]
    requires forall f :: f in a <==> f in b
    ensures forall f :: f in a[1..] <==> f in b[1..]
  {
    HeadNotInTail(a);
    HeadNotInTail(b);
    assert forall f :: f in a <==> f == a[0] || f in a[1..];
    assert forall f :: f in b <==> f == b[0] || f in b[1..];
  }

  lemma HeadNotInTail(a: seq<File>)
    requires InOrder(a) && a != []
    ensures a[0] !in a[1..]
  {
    forall i | 1 <= i < |a|
      ensures a[i] != a[0]
    {
      assert BySmallest(a[0], a[i]);
    }
  }

  ghost predicate AllBefore(v: seq<File>, f: File) {
    forall i :: 0 <= i < |v| ==> BySmallest(v[i], f)
  }

  /** SaveTo's loop state: base[..b] and added[..i] are merged into v. */
  ghost predicate Merged(base: seq<File>, b: nat, deleted: set<nat>, added: seq<File>, i: nat, v: seq<File>) {
    && b <= |base| && i <= |added|
    && InOrder(v)
    && (forall g :: g in v <==> (g in base[..b] || g in added[..i]) && g.number !in deleted)
    && (forall k :: b <= k < |base| && base[k].number !in deleted ==> AllBefore(v, base[k]))
    && (forall k :: i <= k < |added| ==> AllBefore(v, added[k]))
  }

  lemma StepBase(base: seq<File>, b: nat, deleted: set<nat>, added: seq<File>, i: nat, v: seq<File>)
    requires Merged(base, b, deleted, added, i, v) && b < |base|
    requires InOrder(base) && InOrder(added) && FreshNumbers(Without(base, deleted), added)
    requires i < |added| ==> !BySmallest(added[i], base[b])
    ensures base[b].number in deleted ==> Merged(base, b + 1, deleted, added, i, v)
    ensures base[b].number !in deleted ==> Merged(base, b + 1, deleted, added, i, v + [base[b]])
  {
    var f := base[b];
    assert base[..b + 1] == base[..b] + [f];
    if f.number !in deleted {
      assert f in Without(base, deleted);
      BeforeAdded(f, added, i);
      forall k | i <= k < |added|
        ensures AllBefore(v + [f], added[k])
      {
        assert AllBefore(v, added[k]);
      }
      assert forall k :: b + 1 <= k < |base| ==> BySmallest(f, base[k]);
    }
  }

  lemma BeforeAdded(f: File, added: seq<File>, i: nat)
    requires InOrder(added) && forall g :: g in added ==> f.number != g.number
    requires i < |added| ==> !BySmallest(added[i], f)
    ensures forall k :: i <= k < |added| ==> BySmallest(f, added[k])
  {
    forall k | i <= k < |added|
      ensures BySmallest(f, added[k])
    {
      assert added[i] in added && BySmallest(f, added[i]);
      assert i < k ==> BySmallest(added[i], added[k]);
    }
  }

  lemma StepAdded(base: seq<File>, b: nat, deleted: set<nat>, added: seq<File>, i: nat, v: seq<File>)
    requires Merged(base, b, deleted, added, i, v) && i < |added|
    requires InOrder(base) && InOrder(added)
    requires b < |base| ==> BySmallest(added[i], base[b])
    ensures added[i].number in deleted ==> Merged(base, b, deleted, added, i + 1, v)
    ensures added[i].number !in deleted ==> Merged(base, b, deleted, added, i + 1, v + [added[i]])
  {
    assert added[..i + 1] == added[..i] + [added[i]];
    forall k | b <= k < |base| && base[k].number !in deleted
      ensures AllBefore(v + [added[i]], base[k])
    {
      assert b < k ==> BySmallest(base[b], base[k]);
    }
  }

  /** Builder::MaybeAddFile. */
  method MaybeAddFile(v: seq<File>, deleted: set<nat>, f: File) returns (v': seq<File>)
    ensures v' == if f.number in deleted then v else v + [f]
  {
    v' := v;
    if f.number !in deleted {
      v' := v' + [f];
    }
  }

  /** Builder::SaveTo for one level: the ordered set of added files is merged into the
      base list, and deleted numbers are left out on the way. */
  method SaveTo(base: seq<File>, deleted: set<nat>, added: seq<File>) returns (v: seq<File>)
    requires InOrder(base) && InOrder(added)
    requires FreshNumbers(Without(base, deleted), added)
    ensures v == Edited(base, deleted, Without(added, deleted))
  {
    v := [];
    var b := 0;
    for i := 0 to |added|
      invariant Merged(base, b, deleted, added, i, v)
    {
      while b < |base| && !BySmallest(added[i], base[b])
        invariant Merged(base, b, deleted, added, i, v)
      {
        StepBase(base, b, deleted, added, i, v);
        v := MaybeAddFile(v, deleted, base[b]);
        b := b + 1;
      }
      StepAdded(base, b, deleted, added, i, v);
      v := MaybeAddFile(v, deleted, added[i]);
    }
    while b < |base|
      invariant Merged(base, b, deleted, added, |added|, v)
    {
      StepBase(base, b, deleted, added, |added|, v);
      v := MaybeAddFile(v, deleted, base[b]);
      b := b + 1;
    }
    assert base[..b] == base && added[..|added|] == added;
    WithoutKeepsDistinct(added, deleted);
    EditedInOrder(base, deleted, Without(added, deleted));
    OrderedListsAgree(v, Edited(base, deleted, Without(added, deleted)));
  }

  lemma {:induction false} WithoutKeepsDistinct(fs: seq<File>, deleted: set<nat>)
    requires DistinctNumbers(fs)
    ensures DistinctNumbers(Without(fs, deleted))
  {
    if fs != [] {
      var n := |fs| - 1;
      WithoutKeepsDistinct(fs[..n], deleted);
      var rest := Without(fs[..n], deleted);
      forall i | 0 <= i < |rest|
        ensures rest[i].number != fs[n].number
      {
        assert rest[i] in rest;
        var j :| 0 <= j < n && fs[j] == rest[i];
      }
    }
  }

  // ---- Manifest replay ----

  /** What one manifest record says about one level. */
  datatype LevelEdit = LevelEdit(deleted: set<nat>, added: seq<File>)

  /** Builder::LevelState: added_files is an ordered set. */
  datatype LevelState = LevelState(deleted: set<nat>, added: seq<File>)

  function Numbers(fs: seq<File>): set<nat> { set f | f in fs :: f.number }

  /** Builder::Apply: deletions first, then an added file cancels its own deletion. */
  ghost function Apply(s: LevelState, e: LevelEdit): LevelState {
    LevelState(s.deleted + e.deleted - Numbers(e.added), InsertFiles(s.added, e.added))
  }

  ghost function ApplyAll(edits: seq<LevelEdit>): LevelState {
    if edits == [] then LevelState({}, [])
    else Apply(ApplyAll(edits[..|edits| - 1]), edits[|edits| - 1])
  }

  /** VersionSet::Recover: one builder takes every record, then the level is saved once. */
  ghost function Recovered(base: seq<File>, edits: seq<LevelEdit>): seq<File> {
    var s := ApplyAll(edits);
    Edited(base, s.deleted, Without(s.added, s.deleted))
  }

  /** LogAndApply: every edit was applied to the version before it. */
  ghost function Stepwise(base: seq<File>, edits: seq<LevelEdit>): seq<File> {
    if edits == [] then base
    else
      var e := edits[|edits| - 1];
      Edited(Stepwise(base, edits[..|edits| - 1]), e.deleted - Numbers(e.added), e.added)
  }

  /** Every file the level ever held, oldest first. */
  ghost function EverAdded(base: seq<File>, edits: seq<LevelEdit>): seq<File> {
    if edits == [] then base
    else EverAdded(base, edits[..|edits| - 1]) + edits[|edits| - 1].added
  }

  lemma {:induction false} AddedMembers(base: seq<File>, edits: seq<LevelEdit>)
    ensures forall g :: g in EverAdded(base, edits) <==> g in base || g in ApplyAll(edits).added
  {
    if edits != [] {
      AddedMembers(base, edits[..|edits| - 1]);
    }
  }

  lemma DistinctParts(a: seq<File>, b: seq<File>)
    requires DistinctNumbers(a + b)
    ensures DistinctNumbers(a) && FreshNumbers(a, b)
  {
    var c := a + b;
    forall i, j | 0 <= i < j < |a|
      ensures a[i].number != a[j].number
    {
      assert c[i] == a[i] && c[j] == a[j];
    }
    forall i, j | 0 <= i < j < |b|
      ensures b[i].number != b[j].number
    {
      assert c[|a| + i] == b[i] && c[|a| + j] == b[j];
    }
    forall f, g | f in a && g in b
      ensures f.number != g.number
    {
      var i :| 0 <= i < |a| && a[i] == f;
      var j :| 0 <= j < |b| && b[j] == g;
      assert c[i] == f && c[|a| + j] == g;
    }
  }

  /** A file is in the stepwise level exactly when some record added it and the builder's
      deletions spare it. */
  lemma {:induction false} StepwiseMembers(base: seq<File>, edits: seq<LevelEdit>)
    requires DistinctNumbers(EverAdded(base, edits))
    ensures forall g :: g in Stepwise(base, edits)
                        <==> g in EverAdded(base, edits) && g.number !in ApplyAll(edits).deleted
  {
    if edits != [] {
      var init, e := edits[..|edits| - 1], edits[|edits| - 1];
      var before := EverAdded(base, init);
      DistinctParts(before, e.added);
      StepwiseMembers(base, init);
      assert forall g :: g in before ==> g.number !in Numbers(e.added);
      assert forall g :: g in e.added ==> g.number in Numbers(e.added);
    }
  }

  lemma {:induction false} StepwiseInOrder(base: seq<File>, edits: seq<LevelEdit>)
    requires InOrder(base) && DistinctNumbers(EverAdded(base, edits))
    ensures InOrder(Stepwise(base, edits))
  {
    if edits != [] {
      var init, e := edits[..|edits| - 1], edits[|edits| - 1];
      DistinctParts(EverAdded(base, init), e.added);
      StepwiseInOrder(base, init);
      StepwiseMembers(base, init);
      EditedInOrder(Stepwise(base, init), e.deleted - Numbers(e.added), e.added);
    }
  }

  lemma {:induction false} BuilderInOrder(base: seq<File>, edits: seq<LevelEdit>)
    requires DistinctNumbers(EverAdded(base, edits))
    ensures InOrder(ApplyAll(edits).added)
    ensures forall f, g :: f in base && g in ApplyAll(edits).added ==> f.number != g.number
  {
    if edits != [] {
      var init, e := edits[..|edits| - 1], edits[|edits| - 1];
      DistinctParts(EverAdded(base, init), e.added);
      BuilderInOrder(base, init);
      AddedMembers(base, init);
      InsertFilesKeepsOrder(ApplyAll(init).added, e.added);
    }
  }

  /** Replaying a manifest through one builder rebuilds exactly the level that applying
      the edits one version at a time produced. */
  lemma ReplayRebuildsLevel(base: seq<File>, edits: seq<LevelEdit>)
    requires InOrder(base) && DistinctNumbers(EverAdded(base, edits))
    ensures Recovered(base, edits) == Stepwise(base, edits)
  {
    var s := ApplyAll(edits);
    StepwiseInOrder(base, edits);
    StepwiseMembers(base, edits);
    AddedMembers(base, edits);
    BuilderInOrder(base, edits);
    RecoveredInOrder(base, s.deleted, s.added);
    OrderedListsAgree(Recovered(base, edits), Stepwise(base, edits));
  }

  lemma RecoveredInOrder(base: seq<File>, deleted: set<nat>, added: seq<File>)
    requires InOrder(base) && InOrder(added)
    requires forall f, g :: f in base && g in added ==> f.number != g.number
    requires forall f, g :: f in added && g in added && f.number == g.number ==> f == g
    ensures InOrder(Edited(base, deleted, Without(added, deleted)))
  {
    var kept := Without(added, deleted);
    WithoutKeepsOrder(added, deleted);
    OrderedAreDistinct(kept);
    EditedInOrder(base, deleted, kept);
  }

  lemma OrderedAreDistinct(fs: seq<File>)
    requires InOrder(fs)
    requires forall f, g :: f in fs && g in fs && f.number == g.number ==> f == g
    ensures DistinctNumbers(fs)
  {
    forall i, j | 0 <= i < j < |fs|
      ensures fs[i].number != fs[j].number
    {
      assert fs[i] in fs && fs[j] in fs && BySmallest(fs[i], fs[j]);
    }
  }

  /** WriteSnapshot starts a new manifest with one record that adds every current file. */
  lemma SnapshotRecordStandsForVersion(current: seq<File>, edits: seq<LevelEdit>)
    requires InOrder(current) && DistinctNumbers(EverAdded(current, edits))
    ensures Recovered([], [LevelEdit({}, current)] + edits) == Stepwise(current, edits)
  {
    SnapshotPrefix(current, edits);
    ReplayRebuildsLevel([], [LevelEdit({}, current)] + edits);
  }

  lemma {:induction false} SnapshotPrefix(current: seq<File>, edits: seq<LevelEdit>)
    requires InOrder(current) && DistinctNumbers(EverAdded(current, edits))
    ensures EverAdded([], [LevelEdit({}, current)] + edits) == EverAdded(current, edits)
    ensures Stepwise([], [LevelEdit({}, current)] + edits) == Stepwise(current, edits)
  {
    var all := [LevelEdit({}, current)] + edits;
    if edits == [] {
      assert all == [LevelEdit({}, current)] && all[..0] == [];
      EditedInOrder([], {}, current);
      OrderedListsAgree(Edited([], {}, current), current);
    } else {
      var init, e := edits[..|edits| - 1], edits[|edits| - 1];
      DistinctParts(EverAdded(current, init), e.added);
      SnapshotPrefix(current, init);
      assert all[..|all| - 1] == [LevelEdit({}, current)] + init;
    }
  }
}
