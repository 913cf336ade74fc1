/** The merging iterator of table/merger.cc: several sorted children seen as one cursor. */
module MergingIterators {
  import opened Wrappers
  import opened InternalKeys

  datatype Direction = Forward | Reverse

  /** merged is the sorted union of children that share no key. */
  ghost predicate IsMerge(children: seq<seq<Entry>>, merged: seq<Entry>) {
    && Sorted(merged)
    && (forall i :: 0 <= i < |children| ==> Sorted(children[i]))
    && (forall e :: e in merged <==> exists i :: 0 <= i < |children| && e in children[i])
    && (forall i, j, e :: 0 <= i < j < |children| && e in children[i] ==> e !in children[j])
  }

  /** How many entries of one child come before position p of the merge. */
  ghost function Rank(child: seq<Entry>, merged: seq<Entry>, p: nat): nat
    requires p <= |merged|
  {
    if p < |merged| then SeekIndex(child, merged[p].ikey) else |child|
  }

  /** Where a child stands when r of its entries lie at or before the cursor and the
      iterator moves backwards; |child| means not valid. */
  function Behind(child: seq<Entry>, r: nat): nat
    requires r <= |child|
  {
    if r == 0 then |child| else r - 1
  }

  lemma SeekIndexIs(t: seq<Entry>, target: InternalKey, i: nat)
    requires i <= |t| && (forall j :: 0 <= j < i ==> t[j].ikey.Less(target)) && (i < |t| ==> !t[i].ikey.Less(target))
    ensures SeekIndex(t, target) == i
  {
  }

  lemma PositionOf(merged: seq<Entry>, e: Entry) returns (k: nat)
    requires Sorted(merged) && e in merged
    ensures k < |merged| && merged[k] == e && SeekIndex(merged, e.ikey) == k
  {
    k :| 0 <= k < |merged| && merged[k] == e;
    SeekIndexIs(merged, e.ikey, k);
  }

  /** Two entries of the merge compare as their positions do. */
  lemma MergedOrder(merged: seq<Entry>, i: nat, j: nat)
    requires Sorted(merged) && i < |merged| && j < |merged|
    ensures merged[i].ikey.Less(merged[j].ikey) <==> i < j
  {
  }

  lemma ChildInMerge(children: seq<seq<Entry>>, merged: seq<Entry>, i: nat, j: nat) returns (k: nat)
    requires IsMerge(children, merged) && i < |children| && j < |children[i]|
    ensures k < |merged| && merged[k] == children[i][j]
  {
    assert children[i][j] in children[i];
    assert children[i][j] in merged;
    k :| 0 <= k < |merged| && merged[k] == children[i][j];
  }

  /** Passing one merged entry moves exactly the child that owns it. */
  lemma RankStep(children: seq<seq<Entry>>, merged: seq<Entry>, i: nat, p: nat)
    requires IsMerge(children, merged) && i < |children| && p < |merged|
    ensures var r := Rank(children[i], merged, p);
            Rank(children[i], merged, p + 1) == if r < |children[i]| && children[i][r] == merged[p] then r + 1 else r
  {
    var child := children[i];
    var r := Rank(child, merged, p);
    var owner := r < |child| && child[r] == merged[p];
    var next := if owner then r + 1 else r;
    if p + 1 < |merged| {
      forall j | 0 <= j < |child|
        ensures child[j].ikey.Less(merged[p + 1].ikey) <==> j < next
      {
        var k := ChildInMerge(children, merged, i, j);
        MergedOrder(merged, k, p);
        MergedOrder(merged, k, p + 1);
        ChildOrder(child, r, j, merged[p].ikey);
      }
      SeekIndexIs(child, merged[p + 1].ikey, next);
    } else {
      LastEntryOwner(children, merged, i);
    }
  }

  lemma LastEntryOwner(children: seq<seq<Entry>>, merged: seq<Entry>, i: nat)
    requires IsMerge(children, merged) && i < |children| && merged != []
    ensures var r := SeekIndex(children[i], merged[|merged| - 1].ikey);
            r == |children[i]| || (r == |children[i]| - 1 && children[i][r] == merged[|merged| - 1])
  {
    var child, p := children[i], |merged| - 1;
    var r := SeekIndex(child, merged[p].ikey);
    if r < |child| {
      var k := ChildInMerge(children, merged, i, r);
      MergedOrder(merged, k, p);
      if r + 1 < |child| {
        var m := ChildInMerge(children, merged, i, r + 1);
        MergedOrder(merged, k, m);
      }
    }
  }

  lemma ChildOrder(child: seq<Entry>, r: nat, j: nat, key: InternalKey)
    requires Sorted(child) && r == SeekIndex(child, key) && j < |child|
    ensures child[j].ikey.Less(key) <==> j < r
  {
    assert r < j ==> child[r].ikey.Less(child[j].ikey);
  }

  lemma RankOfFirst(children: seq<seq<Entry>>, merged: seq<Entry>, i: nat)
    requires IsMerge(children, merged) && i < |children|
    ensures Rank(children[i], merged, 0) == 0
  {
    if children[i] != [] {
      var k := ChildInMerge(children, merged, i, 0);
      MergedOrder(merged, k, 0);
      SeekIndexIs(children[i], merged[0].ikey, 0);
    }
  }

  /** The child that owns a merged entry stands on it. */
  lemma OwnerStandsOn(children: seq<seq<Entry>>, merged: seq<Entry>, p: nat) returns (o: nat)
    requires IsMerge(children, merged) && p < |merged|
    ensures o < |children|
    ensures var r := Rank(children[o], merged, p); r < |children[o]| && children[o][r] == merged[p]
  {
    assert merged[p] in merged;
    o :| 0 <= o < |children| && merged[p] in children[o];
    var k := PositionOf(children[o], merged[p]);
  }

  /** Seeking a child to a target and seeking the merge agree. */
  lemma SeekAgrees(children: seq<seq<Entry>>, merged: seq<Entry>, i: nat, target: InternalKey)
    requires IsMerge(children, merged) && i < |children|
    ensures SeekIndex(children[i], target) == Rank(children[i], merged, SeekIndex(merged, target))
  {
    var child, p := children[i], SeekIndex(merged, target);
    var r := Rank(child, merged, p);
    forall j | 0 <= j < |child|
      ensures child[j].ikey.Less(target) <==> j < r
    {
      var k := ChildInMerge(children, merged, i, j);
      ChildOrder(merged, p, k, target);
      if p < |merged| {
        MergedOrder(merged, k, p);
        ChildOrder(child, r, j, merged[p].ikey);
      }
    }
    SeekIndexIs(child, target, r);
  }

  /** Children standing behind position p + 1, the owner of position p stepped back: all
      stand behind position p. */
  lemma BehindOneLess(children: seq<seq<Entry>>, merged: seq<Entry>, pos: seq<nat>, c: nat, p: nat)
    requires IsMerge(children, merged) && |pos| == |children| && c < |children| && p < |merged|
    requires forall i :: 0 <= i < |children| ==> pos[i] == Behind(children[i], Rank(children[i], merged, p + 1))
    requires pos[c] < |children[c]| && children[c][pos[c]] == merged[p]
    ensures var after := pos[c := Behind(children[c], pos[c])];
            forall i :: 0 <= i < |children| ==> after[i] == Behind(children[i], Rank(children[i], merged, p))
  {
    forall i | 0 <= i < |children|
      ensures i == c ==> pos[c] == Rank(children[c], merged, p)
      ensures i != c ==> Rank(children[i], merged, p + 1) == Rank(children[i], merged, p)
    {
      RankStep(children, merged, i, p);
      assert children[c][pos[c]] in children[c];
      if i == c {
        SeekIndexIs(children[c], merged[p].ikey, pos[c]);
      }
    }
  }

  class MergingIterator {
    const children: seq<seq<Entry>>
    ghost const merged: seq<Entry>
    var pos: seq<nat>
    var current: Option<nat>
    var direction: Direction
    ghost var index: nat

    /** A cursor on `merged`: it stands at `index`, and at |merged| it is not valid. */
    ghost predicate Valid()
      reads this
    {
      && IsMerge(children, merged)
      && |pos| == |children|
      && (forall i :: 0 <= i < |children| ==> pos[i] <= |children[i]|)
      && index <= |merged|
      && (current.None? <==> index == |merged|)
      && (current.Some? ==> Stands(current.value))
      && (current.Some? && direction.Forward? ==>
            forall i :: 0 <= i < |children| ==> pos[i] == Rank(children[i], merged, index))
      && (current.Some? && direction.Reverse? ==>
            forall i :: 0 <= i < |children| ==> pos[i] == Behind(children[i], Rank(children[i], merged, index + 1)))
    }

    ghost predicate Stands(c: nat)
      requires |pos| == |children| && index < |merged|
      reads this
    {
      c < |children| && pos[c] < |children[c]| && children[c][pos[c]] == merged[index]
    }

    constructor (children: seq<seq<Entry>>, ghost merged: seq<Entry>)
      requires IsMerge(children, merged)
      ensures Valid() && index == |merged| && this.children == children && this.merged == merged
    {
      this.children, this.merged := children, merged;
      pos := seq(|children|, i requires 0 <= i < |children| => |children[i]|);
      current, direction, index := None, Forward, |merged|;
    }

    predicate IsValid()
      reads this
    {
      current.Some?
    }

    function Current(): (e: Entry)
      requires Valid() && IsValid()
      reads this
      ensures index < |merged| && e == merged[index]
    {
      children[current.value][pos[current.value]]
    }

    /** FindSmallest: the least key among the valid children. */
    method FindSmallest(ghost p: nat)
      requires IsMerge(children, merged) && |pos| == |children| && p <= |merged|
      requires forall i :: 0 <= i < |children| ==> pos[i] == Rank(children[i], merged, p)
      modifies this`current, this`index
      ensures index == p
      ensures p == |merged| ==> current.None?
      ensures p < |merged| ==> current.Some? && Stands(current.value)
    {
      index := p;
      var smallest: Option<nat> := None;
      for i := 0 to |children|
        invariant index == p
        invariant smallest.None? ==> forall j :: 0 <= j < i ==> pos[j] == |children[j]|
        invariant smallest.Some? ==> smallest.value < |children| && pos[smallest.value] < |children[smallest.value]|
        invariant smallest.Some? ==> forall j :: 0 <= j < i && pos[j] < |children[j]| ==>
                    !children[j][pos[j]].ikey.Less(children[smallest.value][pos[smallest.value]].ikey)
      {
        if pos[i] < |children[i]| {
          if smallest.None? {
            smallest := Some(i);
          } else if children[i][pos[i]].ikey.Less(children[smallest.value][pos[smallest.value]].ikey) {
            smallest := Some(i);
          }
        }
      }
      current := smallest;
      if p < |merged| {
        ghost var o := OwnerStandsOn(children, merged, p);
        ghost var c := smallest.value;
        ghost var k := ChildInMerge(children, merged, c, pos[c]);
        MergedOrder(merged, k, p);
        MergedOrder(merged, p, k);
        ChildOrder(children[c], pos[c], pos[c], merged[p].ikey);
      }
    }

    /** FindLargest: the greatest key among the valid children, all standing before p. */
    method FindLargest(ghost p: nat)
      requires IsMerge(children, merged) && |pos| == |children| && p <= |merged|
      requires forall i :: 0 <= i < |children| ==> pos[i] == Behind(children[i], Rank(children[i], merged, p))
      modifies this`current, this`index
      ensures index == if p == 0 then |merged| else p - 1
      ensures p == 0 ==> current.None?
      ensures p > 0 ==> current.Some? && Stands(current.value)
    {
      index := if p == 0 then |merged| else p - 1;
      var largest: Option<nat> := None;
      var i := |children|;
      while i > 0
        invariant 0 <= i <= |children|
        invariant index == if p == 0 then |merged| else p - 1
        invariant largest.None? ==> forall j :: i <= j < |children| ==> pos[j] == |children[j]|
        invariant largest.Some? ==> largest.value < |children| && pos[largest.value] < |children[largest.value]|
        invariant largest.Some? ==> forall j :: i <= j < |children| && pos[j] < |children[j]| ==>
                    !children[largest.value][pos[largest.value]].ikey.Less(children[j][pos[j]].ikey)
      {
        i := i - 1;
        if pos[i] < |children[i]| {
          if largest.None? {
            largest := Some(i);
          } else if children[largest.value][pos[largest.value]].ikey.Less(children[i][pos[i]].ikey) {
            largest := Some(i);
          }
        }
      }
      current := largest;
      if p == 0 {
        forall j | 0 <= j < |children|
          ensures pos[j] == |children[j]|
        {
          RankOfFirst(children, merged, j);
        }
      } else {
        LargestStandsBefore(p, largest);
      }
    }

    lemma LargestStandsBefore(p: nat, largest: Option<nat>)
      requires IsMerge(children, merged) && |pos| == |children| && 0 < p <= |merged|
      requires forall i :: 0 <= i < |children| ==> pos[i] == Behind(children[i], Rank(children[i], merged, p))
      requires largest.None? ==> forall j :: 0 <= j < |children| ==> pos[j] == |children[j]|
      requires largest.Some? ==> largest.value < |children| && pos[largest.value] < |children[largest.value]|
      requires largest.Some? ==> forall j :: 0 <= j < |children| && pos[j] < |children[j]| ==>
                 !children[largest.value][pos[largest.value]].ikey.Less(children[j][pos[j]].ikey)
      ensures largest.Some? && children[largest.value][pos[largest.value]] == merged[p - 1]
    {
      var o := OwnerStandsOn(children, merged, p - 1);
      RankStep(children, merged, o, p - 1);
      assert pos[o] < |children[o]| && children[o][pos[o]] == merged[p - 1];
      var c := largest.value;
      var k := ChildInMerge(children, merged, c, pos[c]);
      MergedOrder(merged, k, p - 1);
      MergedOrder(merged, p - 1, k);
      if p < |merged| {
        ChildOrder(children[c], Rank(children[c], merged, p), pos[c], merged[p].ikey);
        MergedOrder(merged, k, p);
      }
    }

    // ---- Child iterators ----

    /** Seek on one child. */
    method SeekChild(i: nat, target: InternalKey)
      requires |pos| == |children| && i < |children|
      modifies this`pos
      ensures pos == old(pos)[i := SeekIndex(children[i], target)]
    {
      pos := pos[i := SeekIndex(children[i], target)];
    }

    /** Prev on one valid child; stepping back from the first entry makes it not valid. */
    method PrevChild(i: nat)
      requires |pos| == |children| && i < |children| && pos[i] < |children[i]|
      modifies this`pos
      ensures pos == old(pos)[i := Behind(children[i], old(pos)[i])]
    {
      pos := pos[i := if pos[i] == 0 then |children[i]| else pos[i] - 1];
    }

    // ---- The Iterator interface ----

    method SeekToFirst()
      requires Valid()
      modifies this
      ensures Valid() && index == 0
    {
      pos := seq(|children|, _ => 0);
      forall i | 0 <= i < |children|
        ensures pos[i] == Rank(children[i], merged, 0)
      {
        RankOfFirst(children, merged, i);
      }
      FindSmallest(0);
      direction := Forward;
    }

    method SeekToLast()
      requires Valid()
      modifies this
      ensures Valid() && index == if merged == [] then 0 else |merged| - 1
    {
      pos := seq(|children|, i requires 0 <= i < |children| => Behind(children[i], |children[i]|));
      FindLargest(|merged|);
      direction := Reverse;
    }

    method Seek(target: InternalKey)
      requires Valid()
      modifies this
      ensures Valid() && index == SeekIndex(merged, target)
    {
      ghost var p := SeekIndex(merged, target);
      for i := 0 to |children|
        invariant IsMerge(children, merged) && |pos| == |children|
        invariant forall j :: 0 <= j < i ==> pos[j] == Rank(children[j], merged, p)
      {
        SeekChild(i, target);
        SeekAgrees(children, merged, i, target);
      }
      FindSmallest(p);
      direction := Forward;
    }

    /** The direction switch of Next: every other child moves to its first key past the
        current one. */
    method TurnForward()
      requires Valid() && IsValid() && direction.Reverse?
      modifies this`pos, this`direction
      ensures Valid() && direction.Forward?
    {
      var c := current.value;
      ghost var p := index;
      RankStep(children, merged, c, p);
      OwnerIsCurrent(c);
      for i := 0 to |children|
        invariant |pos| == |children| && pos[c] == Rank(children[c], merged, p) && pos[c] < |children[c]|
        invariant children[c][pos[c]] == merged[p]
        invariant forall j :: 0 <= j < i ==> pos[j] == Rank(children[j], merged, p)
      {
        if i != c {
          var key := children[c][pos[c]].ikey;
          SeekChild(i, key);
          var skip := if pos[i] < |children[i]| && children[i][pos[i]].ikey == key then 1 else 0;
          NoSharedKey(i, c, p);
          pos := pos[i := pos[i] + skip];
        }
      }
      direction := Forward;
    }

    lemma OwnerIsCurrent(c: nat)
      requires Valid() && current == Some(c)
      ensures pos[c] == Rank(children[c], merged, index)
    {
      assert children[c][pos[c]] in children[c];
      SeekIndexIs(children[c], merged[index].ikey, pos[c]);
    }

    /** Children share no key, so no other child can stand on the current one. */
    lemma NoSharedKey(i: nat, c: nat, p: nat)
      requires IsMerge(children, merged) && |pos| == |children| && i < |children| && c < |children| && p < |merged|
      requires i != c && merged[p] in children[c]
      ensures pos[i] < |children[i]| ==> children[i][pos[i]].ikey != merged[p].ikey
    {
      if pos[i] < |children[i]| {
        var k := ChildInMerge(children, merged, i, pos[i]);
        MergedOrder(merged, k, p);
        MergedOrder(merged, p, k);
        assert children[i][pos[i]] in children[i];
      }
    }

    method Next()
      requires Valid() && IsValid()
      modifies this
      ensures Valid() && index == old(index) + 1
    {
      if direction != Forward {
        TurnForward();
      }
      var c := current.value;
      ghost var p := index;
      pos := pos[c := pos[c] + 1];
      forall i | 0 <= i < |children|
        ensures pos[i] == Rank(children[i], merged, p + 1)
      {
        RankStep(children, merged, i, p);
        if i != c {
          NotOwner(i, c, p);
        }
      }
      FindSmallest(p + 1);
    }

    /** Only one child holds the current entry. */
    lemma NotOwner(i: nat, c: nat, p: nat)
      requires IsMerge(children, merged) && i < |children| && c < |children| && i != c && p < |merged|
      requires merged[p] in children[c]
      ensures merged[p] !in children[i]
      ensures Rank(children[i], merged, p + 1) == Rank(children[i], merged, p)
    {
      RankStep(children, merged, i, p);
    }

    /** Seek, then one step back, or to the last entry when nothing is at or past the key. */
    method MoveBefore(i: nat, key: InternalKey)
      requires |pos| == |children| && i < |children|
      modifies this`pos
      ensures pos == old(pos)[i := Behind(children[i], SeekIndex(children[i], key))]
    {
      SeekChild(i, key);
      if pos[i] < |children[i]| {
        PrevChild(i);
      } else {
        pos := pos[i := if children[i] == [] then 0 else |children[i]| - 1];
      }
    }

    /** The direction switch of Prev: every other child moves to its last key before the
        current one. */
    method TurnBackward()
      requires Valid() && IsValid() && direction.Forward?
      modifies this`pos, this`direction
      ensures Valid() && direction.Reverse?
    {
      var c := current.value;
      ghost var p := index;
      RankStep(children, merged, c, p);
      assert children[c][pos[c]] in children[c];
      for i := 0 to |children|
        invariant |pos| == |children| && pos[c] == Rank(children[c], merged, p) && pos[c] < |children[c]|
        invariant children[c][pos[c]] == merged[p]
        invariant forall j :: 0 <= j < i ==> pos[j] == Behind(children[j], Rank(children[j], merged, p + 1))
      {
        if i != c {
          MoveBefore(i, children[c][pos[c]].ikey);
          NotOwner(i, c, p);
        }
      }
      direction := Reverse;
    }

    /** The child that stands at the current entry moves behind it. */
    method PrevOwner(ghost p: nat)
      requires Valid() && IsValid() && direction.Reverse? && p == index
      modifies this`pos
      ensures |pos| == |children|
      ensures forall i :: 0 <= i < |children| ==> pos[i] == Behind(children[i], Rank(children[i], merged, p))
    {
      BehindOneLess(children, merged, pos, current.value, p);
      PrevChild(current.value);
    }

    /** One step back while already moving backwards. */
    method StepBack()
      requires Valid() && IsValid() && direction.Reverse?
      modifies this
      ensures Valid() && index == if old(index) == 0 then |merged| else old(index) - 1
    {
      ghost var p := index;
      PrevOwner(p);
      FindLargest(p);
    }

    method Prev()
      requires Valid() && IsValid()
      modifies this
      ensures Valid() && index == if old(index) == 0 then |merged| else old(index) - 1
    {
      if direction != Reverse {
        TurnBackward();
      }
      StepBack();
    }
  }
}
