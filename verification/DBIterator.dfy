/** The user-level iterator of db/db_iter.cc: one entry per live user key at a sequence
    number, over the merging iterator. */
module DBIterator {
  import opened Wrappers
  import opened InternalKeys
  import opened MergingIterators

  /** Entry j can be seen at the sequence number. */
  ghost predicate Seen(m: seq<Entry>, s: nat, j: nat) {
    j < |m| && m[j].ikey.sequence <= s
  }

  /** Entry j is the newest visible version of its user key, and not a deletion. */
  ghost predicate Live(m: seq<Entry>, s: nat, j: nat) {
    && Seen(m, s, j)
    && m[j].ikey.kind.Put?
    && forall i :: 0 <= i < j && Seen(m, s, i) ==> m[i].ikey.user != m[j].ikey.user
  }

  lemma UsersInOrder(m: seq<Entry>, i: nat, j: nat)
    requires Sorted(m) && i <= j < |m|
    ensures m[i].ikey.user <= m[j].ikey.user
  {
    assert i < j ==> m[i].ikey.Less(m[j].ikey);
  }

  /** A live entry is exactly what a read of its user key returns. */
  lemma LiveIsRead(m: seq<Entry>, s: nat, j: nat)
    requires Sorted(m) && Unique(Elements(m)) && Live(m, s, j)
    ensures View(Elements(m), m[j].ikey.user, s) == Some(m[j].value)
  {
    var es, e := Elements(m), m[j];
    forall x | x in es && Visible(x, e.ikey.user, s)
      ensures x.ikey.sequence <= e.ikey.sequence
    {
      var i :| 0 <= i < |m| && m[i] == x;
      assert Seen(m, s, i) && j <= i;
      assert j < i ==> m[j].ikey.Less(m[i].ikey);
    }
    assert e in es;
    ReadIsDetermined(es, e.ikey.user, s, Newest(es, e.ikey.user, s), Some(e));
  }

  /** Conversely a key that reads as present has a live entry. */
  lemma ReadIsLive(m: seq<Entry>, s: nat, user: UserKey) returns (j: nat)
    requires Sorted(m) && Unique(Elements(m)) && View(Elements(m), user, s).Some?
    ensures Live(m, s, j) && m[j].ikey.user == user
  {
    var es := Elements(m);
    var e := Newest(es, user, s).value;
    assert e in m;
    j :| 0 <= j < |m| && m[j] == e;
    forall i | 0 <= i < j && Seen(m, s, i)
      ensures m[i].ikey.user != user
    {
      assert m[i] in es && m[j] in es;
      assert m[i].ikey.Less(m[j].ikey);
    }
  }

  /** The state of the forward scan: no visible entry before position i can still matter. */
  ghost predicate Scanning(m: seq<Entry>, s: nat, i: nat, floor: UserKey, lo: Option<UserKey>, skip: Option<UserKey>) {
    && (forall j :: i <= j < |m| ==> floor <= m[j].ikey.user)
    && (forall j :: 0 <= j < i && Seen(m, s, j) ==>
          m[j].ikey.user < floor || (skip.Some? && m[j].ikey.user <= skip.value))
    && (skip.Some? ==> (lo.Some? && skip.value <= lo.value)
                       || exists d :: 0 <= d < i && Seen(m, s, d) && m[d].ikey.user == skip.value)
    && (lo.Some? ==> skip.Some? && lo.value <= skip.value)
    && (lo.Some? ==> forall j :: i <= j < |m| && Seen(m, s, j) ==> lo.value <= m[j].ikey.user)
  }

  ghost predicate Wanted(m: seq<Entry>, s: nat, lo: Option<UserKey>, j: nat) {
    Live(m, s, j) && (lo.Some? ==> lo.value < m[j].ikey.user)
  }

  lemma AcceptedIsWanted(m: seq<Entry>, s: nat, i: nat, floor: UserKey, lo: Option<UserKey>, skip: Option<UserKey>)
    requires Sorted(m) && i < |m| && Scanning(m, s, i, floor, lo, skip)
    requires Seen(m, s, i) && m[i].ikey.kind.Put? && (skip.Some? ==> skip.value < m[i].ikey.user)
    ensures Wanted(m, s, lo, i)
  {
  }

  lemma PassedIsUnwanted(m: seq<Entry>, s: nat, i: nat, floor: UserKey, lo: Option<UserKey>, skip: Option<UserKey>)
    requires Sorted(m) && i < |m| && Scanning(m, s, i, floor, lo, skip)
    requires Seen(m, s, i) && skip.Some? && m[i].ikey.user <= skip.value
    ensures !Wanted(m, s, lo, i)
    ensures Scanning(m, s, i + 1, floor, lo, skip)
  {
    if lo.None? || lo.value < skip.value {
      var d :| 0 <= d < i && Seen(m, s, d) && m[d].ikey.user == skip.value;
      UsersInOrder(m, d, i);
    }
  }

  lemma UnseenStep(m: seq<Entry>, s: nat, i: nat, floor: UserKey, lo: Option<UserKey>, skip: Option<UserKey>)
    requires i < |m| && Scanning(m, s, i, floor, lo, skip) && !Seen(m, s, i)
    ensures !Wanted(m, s, lo, i) && Scanning(m, s, i + 1, floor, lo, skip)
  {
  }

  lemma DeletionStep(m: seq<Entry>, s: nat, i: nat, floor: UserKey, lo: Option<UserKey>, skip: Option<UserKey>)
    requires Sorted(m) && i < |m| && Scanning(m, s, i, floor, lo, skip)
    requires Seen(m, s, i) && m[i].ikey.kind.Deletion?
    ensures !Wanted(m, s, lo, i) && Scanning(m, s, i + 1, floor, lo, Some(m[i].ikey.user))
  {
    forall j | 0 <= j < i + 1
      ensures m[j].ikey.user <= m[i].ikey.user
    {
      UsersInOrder(m, j, i);
    }
  }

  /** One turn of FindNextUserEntry: accept the entry, or go on with this skip key. */
  function Examine(e: Entry, s: nat, skip: Option<UserKey>): (r: (bool, Option<UserKey>)) {
    if e.ikey.sequence <= s then
      match e.ikey.kind
      case Deletion => (false, Some(e.ikey.user))
      case Put => (!(skip.Some? && e.ikey.user <= skip.value), skip)
    else
      (false, skip)
  }

  lemma ExamineScans(m: seq<Entry>, s: nat, i: nat, floor: UserKey, lo: Option<UserKey>, skip: Option<UserKey>)
    requires Sorted(m) && i < |m| && Scanning(m, s, i, floor, lo, skip)
    ensures Examine(m[i], s, skip).0 ==> Wanted(m, s, lo, i)
    ensures !Examine(m[i], s, skip).0
            ==> !Wanted(m, s, lo, i) && Scanning(m, s, i + 1, floor, lo, Examine(m[i], s, skip).1)
  {
    if !Seen(m, s, i) {
      UnseenStep(m, s, i, floor, lo, skip);
    } else if m[i].ikey.kind.Deletion? {
      DeletionStep(m, s, i, floor, lo, skip);
    } else if skip.Some? && m[i].ikey.user <= skip.value {
      PassedIsUnwanted(m, s, i, floor, lo, skip);
    } else {
      AcceptedIsWanted(m, s, i, floor, lo, skip);
    }
  }

  /** The forward loop's invariant. */
  ghost predicate ScanState(m: seq<Entry>, s: nat, start: nat, i: nat, floor: UserKey, lo: Option<UserKey>,
                            skip: Option<UserKey>) {
    start <= i && Scanning(m, s, i, floor, lo, skip) && NoneWanted(m, s, lo, start, i)
  }

  lemma ExamineAdvances(m: seq<Entry>, s: nat, start: nat, i: nat, floor: UserKey, lo: Option<UserKey>,
                        skip: Option<UserKey>)
    requires Sorted(m) && i < |m| && ScanState(m, s, start, i, floor, lo, skip)
    ensures Examine(m[i], s, skip).0 ==> Wanted(m, s, lo, i)
    ensures !Examine(m[i], s, skip).0 ==> ScanState(m, s, start, i + 1, floor, lo, Examine(m[i], s, skip).1)
  {
    ExamineScans(m, s, i, floor, lo, skip);
  }

  /** Nothing in m[a..b] is wanted. */
  ghost predicate NoneWanted(m: seq<Entry>, s: nat, lo: Option<UserKey>, a: nat, b: nat) {
    forall j :: a <= j < b ==> !Wanted(m, s, lo, j)
  }

  /** A key that no live entry before position `end` holds, and that sorts before position
      `end`, reads as absent. */
  lemma GapReadsAbsent(m: seq<Entry>, s: nat, user: UserKey, end: nat)
    requires Sorted(m) && Unique(Elements(m)) && end <= |m|
    requires forall j :: 0 <= j < end && Live(m, s, j) ==> m[j].ikey.user != user
    requires end < |m| ==> user < m[end].ikey.user
    ensures View(Elements(m), user, s) == None
  {
    if View(Elements(m), user, s).Some? {
      var j := ReadIsLive(m, s, user);
      UsersInOrder(m, end, j);
    }
  }

  /** Where Next starts scanning, in either direction. */
  lemma NextStartsScanning(m: seq<Entry>, s: nat, start: nat, at: nat)
    requires Sorted(m) && start <= at && Live(m, s, at)
    requires forall j :: start <= j < at ==> !Seen(m, s, j)
    ensures Scanning(m, s, start, m[start].ikey.user, Some(m[at].ikey.user), Some(m[at].ikey.user))
    ensures forall j :: 0 <= j < start ==> m[j].ikey.user <= m[at].ikey.user
  {
    forall j | 0 <= j < |m|
      ensures j <= at ==> m[j].ikey.user <= m[at].ikey.user
      ensures at <= j ==> m[at].ikey.user <= m[j].ikey.user
      ensures start <= j ==> m[start].ikey.user <= m[j].ikey.user
    {
      if j <= at { UsersInOrder(m, j, at); }
      if at <= j { UsersInOrder(m, at, j); }
      if start <= j { UsersInOrder(m, start, j); }
    }
  }

  /** Where Seek starts scanning: nothing visible before the lookup key reaches the target. */
  lemma SeekStartsScanning(m: seq<Entry>, s: nat, target: UserKey)
    requires Sorted(m)
    ensures Scanning(m, s, SeekIndex(m, LookupKey(target, s)), target, None, None)
    ensures forall j :: 0 <= j < SeekIndex(m, LookupKey(target, s)) && Seen(m, s, j) ==> m[j].ikey.user < target
  {
    var i := SeekIndex(m, LookupKey(target, s));
    forall j | i <= j < |m|
      ensures target <= m[j].ikey.user
    {
      UsersInOrder(m, i, j);
    }
  }

  lemma SeekToFirstScans(m: seq<Entry>, s: nat)
    requires Sorted(m) && m != []
    ensures Scanning(m, s, 0, m[0].ikey.user, None, None)
  {
    forall j | 0 <= j < |m|
      ensures m[0].ikey.user <= m[j].ikey.user
    {
      UsersInOrder(m, 0, j);
    }
  }

  /** What the forward scans establish, read off the keys: no present key is passed over. */
  lemma LeastOfAll(m: seq<Entry>, s: nat, end: nat)
    requires Sorted(m) && Unique(Elements(m)) && end <= |m| && NoneWanted(m, s, None, 0, end)
    ensures forall k :: (end < |m| ==> k < m[end].ikey.user) ==> View(Elements(m), k, s) == None
  {
    forall k | end < |m| ==> k < m[end].ikey.user
      ensures View(Elements(m), k, s) == None
    {
      forall j | 0 <= j < end
        ensures !Live(m, s, j)
      {
        assert !Wanted(m, s, None, j);
      }
      GapReadsAbsent(m, s, k, end);
    }
  }

  lemma LeastFrom(m: seq<Entry>, s: nat, lo: UserKey, start: nat, end: nat)
    requires Sorted(m) && Unique(Elements(m)) && end <= |m| && NoneWanted(m, s, None, start, end)
    requires forall j :: 0 <= j < start && Seen(m, s, j) ==> m[j].ikey.user < lo
    ensures forall k :: lo <= k && (end < |m| ==> k < m[end].ikey.user) ==> View(Elements(m), k, s) == None
  {
    forall k | lo <= k && (end < |m| ==> k < m[end].ikey.user)
      ensures View(Elements(m), k, s) == None
    {
      forall j | 0 <= j < end && Live(m, s, j)
        ensures m[j].ikey.user < lo
      {
        assert start <= j ==> !Wanted(m, s, None, j);
      }
      GapReadsAbsent(m, s, k, end);
    }
  }

  lemma LeastAfter(m: seq<Entry>, s: nat, lo: UserKey, start: nat, end: nat)
    requires Sorted(m) && Unique(Elements(m)) && end <= |m| && NoneWanted(m, s, Some(lo), start, end)
    requires forall j :: 0 <= j < start && j < |m| ==> m[j].ikey.user <= lo
    ensures forall k :: lo < k && (end < |m| ==> k < m[end].ikey.user) ==> View(Elements(m), k, s) == None
  {
    forall k | lo < k && (end < |m| ==> k < m[end].ikey.user)
      ensures View(Elements(m), k, s) == None
    {
      forall j | 0 <= j < end && Live(m, s, j)
        ensures m[j].ikey.user <= lo
      {
        assert start <= j ==> !Wanted(m, s, Some(lo), j);
      }
      GapReadsAbsent(m, s, k, end);
    }
  }

  ghost predicate AllFrom(m: seq<Entry>, limit: nat, key: UserKey) {
    forall j :: limit <= j < |m| ==> key <= m[j].ikey.user
  }

  lemma AllFromOneMore(m: seq<Entry>, limit: nat, key: UserKey)
    requires AllFrom(m, limit, key) && 0 < limit <= |m| && key <= m[limit - 1].ikey.user
    ensures AllFrom(m, limit - 1, key)
  {
  }

  lemma AllFromHere(m: seq<Entry>, i: nat)
    requires Sorted(m) && i < |m|
    ensures AllFrom(m, i, m[i].ikey.user)
  {
    forall j | i <= j < |m|
      ensures m[i].ikey.user <= m[j].ikey.user
    {
      UsersInOrder(m, i, j);
    }
  }

  lemma KeysDecrease(m: seq<Entry>, limit: nat, inner: nat, at: nat, valid: bool)
    requires Sorted(m) && limit == (if inner < |m| then inner + 1 else 0) && (valid ==> at < limit)
    ensures valid ==> m[at].ikey.user <= m[inner].ikey.user
  {
    if valid {
      UsersInOrder(m, at, inner);
    }
  }

  /** What the backward scans establish, read off the keys. */
  lemma GreatestBefore(m: seq<Entry>, s: nat, limit: nat, hi: Option<UserKey>, valid: bool, at: nat)
    requires Sorted(m) && Unique(Elements(m)) && limit <= |m| && (valid ==> at < |m|)
    requires forall j :: limit <= j < |m| && Seen(m, s, j) ==> hi.Some? && hi.value <= m[j].ikey.user
    requires forall j :: (if valid then at + 1 else 0) <= j < limit ==> !Live(m, s, j)
    ensures forall k :: (hi.Some? ==> k < hi.value) && (valid ==> m[at].ikey.user < k) ==>
              View(Elements(m), k, s) == None
  {
    forall k | (hi.Some? ==> k < hi.value) && (valid ==> m[at].ikey.user < k)
      ensures View(Elements(m), k, s) == None
    {
      if View(Elements(m), k, s).Some? {
        var j := ReadIsLive(m, s, k);
        assert j < limit && valid;
        UsersInOrder(m, j, at);
      }
    }
  }

  // ---- Scanning backward ----

  /** value_type, saved_key_ and saved_value_ of FindPrevUserEntry. */
  datatype Candidate = Candidate(kind: Kind, key: Option<UserKey>, value: string)

  /** One turn of FindPrevUserEntry: stop in front of this entry, or take it in. */
  function ExamineBack(e: Entry, s: nat, c: Candidate): (r: (bool, Candidate)) {
    if e.ikey.sequence <= s then
      if c.kind.Put? && c.key.Some? && e.ikey.user < c.key.value then (true, c)
      else if e.ikey.kind.Deletion? then (false, Candidate(Deletion, None, ""))
      else (false, Candidate(Put, Some(e.ikey.user), e.value))
    else
      (false, c)
  }

  /** The backward loop's invariant: m[b..limit] is processed, v is the last visible entry
      taken in, and nothing after v is live. */
  ghost predicate BackState(m: seq<Entry>, s: nat, limit: nat, b: nat, c: Candidate, v: Option<nat>) {
    && b <= limit <= |m|
    && (v.None? ==> c.kind.Deletion? && forall j :: b <= j < limit ==> !Seen(m, s, j))
    && (v.Some? ==> Holds(m, s, limit, b, c, v.value))
  }

  ghost predicate Holds(m: seq<Entry>, s: nat, limit: nat, b: nat, c: Candidate, v: nat) {
    && b <= v < limit <= |m| && Seen(m, s, v)
    && c.kind == m[v].ikey.kind
    && (c.kind.Put? ==> c.key == Some(m[v].ikey.user) && c.value == m[v].value)
    && (forall j :: b <= j < v ==> !Seen(m, s, j))
    && (forall j :: v < j < limit ==> !Live(m, s, j))
  }

  lemma BackAdvances(m: seq<Entry>, s: nat, limit: nat, b: nat, c: Candidate, v: Option<nat>) returns (v': Option<nat>)
    requires Sorted(m) && 0 < b && BackState(m, s, limit, b, c, v)
    requires !ExamineBack(m[b - 1], s, c).0
    ensures BackState(m, s, limit, b - 1, ExamineBack(m[b - 1], s, c).1, v')
  {
    var i := b - 1;
    if !Seen(m, s, i) {
      v' := v;
    } else {
      v' := Some(i);
      if v.Some? {
        UsersInOrder(m, i, v.value);
        assert !Live(m, s, v.value);
      }
    }
  }

  /** Moving backwards, the inner iterator stands on the last visible entry before those of
      the current key, or has run off the front. */
  ghost predicate JustBefore(m: seq<Entry>, s: nat, index: nat, at: nat)
    requires at < |m|
  {
    && (forall j :: (if index < |m| then index + 1 else 0) <= j < at ==> !Seen(m, s, j))
    && (index < |m| ==> index < at && m[index].ikey.user < m[at].ikey.user)
  }

  lemma BackStops(m: seq<Entry>, s: nat, limit: nat, b: nat, c: Candidate, v: Option<nat>)
    requires Sorted(m) && BackState(m, s, limit, b, c, v) && c.kind.Put?
    requires b == 0 || ExamineBack(m[b - 1], s, c).0
    ensures v.Some? && Live(m, s, v.value) && JustBefore(m, s, if b == 0 then |m| else b - 1, v.value)
  {
    var at := v.value;
    forall j | 0 <= j < at && Seen(m, s, j)
      ensures m[j].ikey.user != m[at].ikey.user
    {
      assert j < b;
      UsersInOrder(m, j, b - 1);
    }
  }

  lemma BackFindsNothing(m: seq<Entry>, s: nat, limit: nat, c: Candidate, v: Option<nat>)
    requires BackState(m, s, limit, 0, c, v) && c.kind.Deletion?
    ensures forall j :: 0 <= j < limit ==> !Live(m, s, j)
  {
  }

  class DBIter {
    const iter: MergingIterator
    const sequence: nat
    var savedKey: Option<UserKey>
    var savedValue: string
    var direction: Direction
    var valid: bool
    ghost var at: nat

    ghost predicate Valid()
      reads this, iter
    {
      && iter.Valid()
      && (valid ==> Live(iter.merged, sequence, at))
      && (valid && direction.Forward? ==> iter.index == at)
      && (valid && direction.Reverse? ==>
            && savedKey == Some(iter.merged[at].ikey.user)
            && savedValue == iter.merged[at].value
            && JustBefore(iter.merged, sequence, iter.index, at))
    }

    constructor (iter: MergingIterator, sequence: nat)
      requires iter.Valid()
      ensures Valid() && !valid && this.iter == iter && this.sequence == sequence
    {
      this.iter, this.sequence := iter, sequence;
      savedKey, savedValue, direction, valid := None, "", Forward, false;
    }

    function Key(): (k: UserKey)
      requires Valid() && valid
      reads this, iter
      ensures k == iter.merged[at].ikey.user
    {
      if direction.Forward? then iter.Current().ikey.user else savedKey.value
    }

    function Value(): (v: string)
      requires Valid() && valid
      reads this, iter
      ensures v == iter.merged[at].value
    {
      if direction.Forward? then iter.Current().value else savedValue
    }

    /** The answer of a read at this iterator's sequence number. */
    ghost function Read(user: UserKey): Option<string> {
      View(Elements(iter.merged), user, sequence)
    }

    // ---- Scanning forward ----

    /** The loop of FindNextUserEntry; `skip` is None while not skipping. */
    method ScanForward(skip0: Option<UserKey>, ghost floor: UserKey, ghost lo: Option<UserKey>) returns (found: bool)
      requires iter.Valid() && iter.IsValid()
      requires Scanning(iter.merged, sequence, iter.index, floor, lo, skip0)
      modifies iter
      ensures iter.Valid() && old(iter.index) <= iter.index && found == iter.IsValid()
      ensures found ==> Wanted(iter.merged, sequence, lo, iter.index)
      ensures NoneWanted(iter.merged, sequence, lo, old(iter.index), iter.index)
    {
      var skip := skip0;
      while iter.IsValid()
        invariant iter.Valid()
        invariant ScanState(iter.merged, sequence, old(iter.index), iter.index, floor, lo, skip)
        decreases |iter.merged| - iter.index
      {
        var (accept, skip') := Examine(iter.Current(), sequence, skip);
        ExamineAdvances(iter.merged, sequence, old(iter.index), iter.index, floor, lo, skip);
        if accept {
          return true;
        }
        skip := skip';
        iter.Next();
      }
      return false;
    }

    method FindNextUserEntry(skip: Option<UserKey>, ghost floor: UserKey, ghost lo: Option<UserKey>)
      requires iter.Valid() && iter.IsValid() && direction.Forward?
      requires Scanning(iter.merged, sequence, iter.index, floor, lo, skip)
      modifies this, iter
      ensures Valid() && direction.Forward?
      ensures valid ==> at >= old(iter.index) && Wanted(iter.merged, sequence, lo, at)
      ensures NoneWanted(iter.merged, sequence, lo, old(iter.index), if valid then at else |iter.merged|)
    {
      valid := ScanForward(skip, floor, lo);
      savedKey, at := None, iter.index;
    }

    /** How many entries lie at or before the inner iterator, which came from the right. */
    ghost function Limit(): nat
      reads iter
    {
      if iter.index < |iter.merged| then iter.index + 1 else 0
    }

    /** The loop of FindPrevUserEntry. */
    method ScanBackward() returns (c: Candidate, ghost v: Option<nat>)
      requires iter.Valid()
      modifies iter
      ensures iter.Valid()
      ensures BackState(iter.merged, sequence, old(Limit()), Limit(), c, v)
      ensures Limit() == 0 || (c.kind.Put? && ExamineBack(iter.merged[Limit() - 1], sequence, c).0)
    {
      c, v := Candidate(Deletion, None, ""), None;
      ghost var limit, b := Limit(), Limit();
      while iter.IsValid()
        invariant iter.Valid() && b == Limit()
        invariant BackState(iter.merged, sequence, limit, b, c, v)
        decreases b
      {
        var (stop, c') := ExamineBack(iter.Current(), sequence, c);
        if stop {
          return;
        }
        v := BackAdvances(iter.merged, sequence, limit, b, c, v);
        c, b := c', b - 1;
        iter.Prev();
      }
    }

    method FindPrevUserEntry()
      requires iter.Valid() && direction.Reverse?
      modifies this, iter
      ensures Valid()
      ensures valid ==> direction.Reverse? && at < old(Limit())
      ensures forall j :: (if valid then at + 1 else 0) <= j < old(Limit()) ==> !Live(iter.merged, sequence, j)
    {
      var c;
      ghost var v;
      c, v := ScanBackward();
      if c.kind.Deletion? {
        BackFindsNothing(iter.merged, sequence, old(Limit()), c, v);
        valid, savedKey, savedValue, direction := false, None, "", Forward;
      } else {
        BackStops(iter.merged, sequence, old(Limit()), Limit(), c, v);
        valid, savedKey, savedValue := true, c.key, c.value;
        at := v.value;
      }
    }

    // ---- The Iterator interface ----

    /** No two entries below carry the same user key and sequence number. */
    ghost predicate DistinctEntries() {
      Unique(Elements(iter.merged))
    }

    /** The iterator shows a key with the value a read returns, or nothing. */
    ghost predicate ShowsAnswer()
      requires Valid()
      reads this, iter
    {
      valid ==> Read(Key()) == Some(Value())
    }

    lemma CurrentIsAnswer()
      requires Valid() && DistinctEntries()
      ensures ShowsAnswer()
    {
      if valid {
        LiveIsRead(iter.merged, sequence, at);
      }
    }

    /** One past the last position known to hold nothing wanted. */
    ghost function End(): nat
      reads this
    {
      if valid then at else |iter.merged|
    }

    /** Positions on the least present key, if any. */
    method SeekToFirst()
      requires Valid() && DistinctEntries()
      modifies this, iter
      ensures Valid() && ShowsAnswer()
      ensures forall k :: (valid ==> k < Key()) ==> Read(k) == None
    {
      direction, savedValue := Forward, "";
      iter.SeekToFirst();
      if iter.IsValid() {
        SeekToFirstScans(iter.merged, sequence);
        FindNextUserEntry(None, iter.merged[0].ikey.user, None);
      } else {
        valid := false;
      }
      LeastOfAll(iter.merged, sequence, End());
      CurrentIsAnswer();
    }

    /** Positions on the least present key that is not less than the target. */
    method Seek(target: UserKey)
      requires Valid() && DistinctEntries()
      modifies this, iter
      ensures Valid() && ShowsAnswer()
      ensures valid ==> target <= Key()
      ensures forall k :: target <= k && (valid ==> k < Key()) ==> Read(k) == None
    {
      direction, savedValue := Forward, "";
      iter.Seek(LookupKey(target, sequence));
      SeekStartsScanning(iter.merged, sequence, target);
      ghost var start := iter.index;
      if iter.IsValid() {
        FindNextUserEntry(None, target, None);
      } else {
        valid := false;
      }
      LeastFrom(iter.merged, sequence, target, start, End());
      CurrentIsAnswer();
    }

    /** Positions on the greatest present key, if any. */
    method SeekToLast()
      requires Valid() && DistinctEntries()
      modifies this, iter
      ensures Valid() && ShowsAnswer()
      ensures forall k :: (valid ==> Key() < k) ==> Read(k) == None
    {
      direction, savedValue := Reverse, "";
      iter.SeekToLast();
      FindPrevUserEntry();
      GreatestBefore(iter.merged, sequence, |iter.merged|, None, valid, at);
      CurrentIsAnswer();
    }

    /** Turning from backward to forward: step into the entries of the current key. */
    method TurnForward()
      requires Valid() && valid && direction.Reverse?
      modifies this`direction, iter
      ensures iter.Valid() && direction.Forward? && iter.IsValid() && iter.index <= at
      ensures forall j :: iter.index <= j < at ==> !Seen(iter.merged, sequence, j)
    {
      direction := Forward;
      if !iter.IsValid() {
        iter.SeekToFirst();
      } else {
        iter.Next();
      }
      // The inner iterator is valid: the entries of the current key lie ahead of it.
    }

    /** Moves to the next present key: no present key is skipped. */
    method Next()
      requires Valid() && valid && DistinctEntries()
      modifies this, iter
      ensures Valid() && ShowsAnswer()
      ensures valid ==> old(Key()) < Key()
      ensures forall k :: old(Key()) < k && (valid ==> k < Key()) ==> Read(k) == None
    {
      ghost var was := at;
      var skip := Key();
      if direction.Reverse? {
        TurnForward();
      }
      NextStartsScanning(iter.merged, sequence, iter.index, was);
      ghost var start := iter.index;
      FindNextUserEntry(Some(skip), iter.merged[start].ikey.user, Some(skip));
      LeastAfter(iter.merged, sequence, skip, start, End());
      CurrentIsAnswer();
    }

    /** The scan of Prev that leaves the entries of the current key. */
    method LeaveKey(key: UserKey)
      requires iter.Valid() && iter.IsValid() && iter.Current().ikey.user == key
      modifies iter
      ensures iter.Valid()
      ensures iter.IsValid() ==> iter.Current().ikey.user < key
      ensures AllFrom(iter.merged, Limit(), key)
    {
      AllFromHere(iter.merged, iter.index);
      iter.Prev();
      while iter.IsValid() && iter.Current().ikey.user >= key
        invariant iter.Valid()
        invariant AllFrom(iter.merged, Limit(), key)
        decreases Limit()
      {
        AllFromOneMore(iter.merged, Limit(), key);
        iter.Prev();
      }
    }

    /** Moves to the previous present key: no present key is skipped. */
    method Prev()
      requires Valid() && valid && DistinctEntries()
      modifies this, iter
      ensures Valid() && ShowsAnswer()
      ensures valid ==> Key() < old(Key())
      ensures forall k :: k < old(Key()) && (valid ==> Key() < k) ==> Read(k) == None
    {
      ghost var hi := Key();
      if direction.Forward? {
        savedKey := Some(iter.Current().ikey.user);
        LeaveKey(savedKey.value);
        if iter.IsValid() {
          direction := Reverse;
        }
      } else {
        AllFromHere(iter.merged, at);
      }
      ghost var limit := Limit();
      ghost var inner := iter.index;
      if direction.Reverse? {
        FindPrevUserEntry();
        KeysDecrease(iter.merged, limit, inner, at, valid);
      } else {
        valid, savedKey, savedValue := false, None, "";
      }
      GreatestBefore(iter.merged, sequence, limit, Some(hi), valid, at);
      CurrentIsAnswer();
    }
  }
}
