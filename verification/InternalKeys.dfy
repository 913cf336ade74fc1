/** Internal keys and entries, as in db/dbformat.h and db/dbformat.cc.

    User keys are only ever handed to the user comparator, so they are modelled by
    their rank: any finite set of keys under any total order embeds in the integers. */
module InternalKeys {
  import opened Wrappers

  type UserKey = int

  /** kTypeDeletion = 0x0 and kTypeValue = 0x1. */
  datatype Kind = Deletion | Put

  /** kMaxSequenceNumber: the low eight bits of the 64-bit tag hold the kind. */
  const MAX_SEQUENCE: nat := 0xFF_FFFF_FFFF_FFFF

  datatype InternalKey = InternalKey(user: UserKey, sequence: nat, kind: Kind)
  {
    /** PackSequenceAndType. */
    function Tag(): nat { sequence * 256 + if kind.Put? then 1 else 0 }

    /** InternalKeyComparator::Compare(this, other) < 0: increasing user key,
        then decreasing tag. */
    predicate Less(other: InternalKey) {
      user < other.user || (user == other.user && Tag() > other.Tag())
    }
  }

  datatype Entry = Entry(ikey: InternalKey, value: string)

  /** The key a LookupKey packs: kValueTypeForSeek is the largest kind, so the
      target sorts before every entry of the user key with sequence <= snapshot. */
  function LookupKey(user: UserKey, snapshot: nat): InternalKey {
    InternalKey(user, snapshot, Put)
  }

  /** Strictly increasing in internal-key order: what a memtable's skip list and a
      table file store. */
  ghost predicate Sorted(t: seq<Entry>) {
    forall i, j :: 0 <= i < j < |t| ==> t[i].ikey.Less(t[j].ikey)
  }

  /** Every entry of a precedes every entry of b. */
  ghost predicate Precedes(a: seq<Entry>, b: seq<Entry>) {
    forall x, y :: x in a && y in b ==> x.ikey.Less(y.ikey)
  }

  lemma SortedConcat(a: seq<Entry>, b: seq<Entry>)
    ensures Sorted(a + b) <==> Sorted(a) && Sorted(b) && Precedes(a, b)
  {
    var c := a + b;
    assert forall i :: 0 <= i < |a| ==> c[i] == a[i];
    assert forall i :: 0 <= i < |b| ==> b[i] == c[|a| + i];
    if Sorted(c) {
      forall x, y | x in a && y in b
        ensures x.ikey.Less(y.ikey)
      {
        var i :| 0 <= i < |a| && a[i] == x;
        var j :| 0 <= j < |b| && b[j] == y;
        assert c[i].ikey.Less(c[|a| + j].ikey);
      }
      forall i, j | 0 <= i < j < |b|
        ensures b[i].ikey.Less(b[j].ikey)
      {
        assert c[|a| + i].ikey.Less(c[|a| + j].ikey);
      }
    } else if Sorted(a) && Sorted(b) && Precedes(a, b) {
      forall i, j | 0 <= i < j < |c|
        ensures c[i].ikey.Less(c[j].ikey)
      {
        if i < |a| <= j {
          assert c[i] in a && c[j] in b;
        }
      }
    }
  }

  /** Position of the first entry that is not less than the target. */
  function SeekIndex(t: seq<Entry>, target: InternalKey): (i: nat)
    ensures i <= |t|
    ensures forall j :: 0 <= j < i ==> t[j].ikey.Less(target)
    ensures i < |t| ==> !t[i].ikey.Less(target)
  {
    if t == [] || !t[0].ikey.Less(target) then 0 else 1 + SeekIndex(t[1..], target)
  }

  /** MemTable::Get and Table::InternalGet with SaveValue: seek to the lookup key
      and accept the entry found when it has the right user key. */
  function TableGet(t: seq<Entry>, user: UserKey, snapshot: nat): Option<Entry> {
    var i := SeekIndex(t, LookupKey(user, snapshot));
    if i < |t| && t[i].ikey.user == user then Some(t[i]) else None
  }

  /** e is one of the entries of es, for this user key, visible at the snapshot. */
  predicate Visible(e: Entry, user: UserKey, snapshot: nat) {
    e.ikey.user == user && e.ikey.sequence <= snapshot
  }

  /** The newest entry of es visible at a snapshot: the abstract meaning of a read. */
  ghost predicate IsNewest(es: set<Entry>, user: UserKey, snapshot: nat, e: Entry) {
    && e in es
    && Visible(e, user, snapshot)
    && forall x :: x in es && Visible(x, user, snapshot) ==> x.ikey.sequence <= e.ikey.sequence
  }

  ghost predicate ReadsAs(es: set<Entry>, user: UserKey, snapshot: nat, r: Option<Entry>) {
    match r
    case None => forall x :: x in es ==> !Visible(x, user, snapshot)
    case Some(e) => IsNewest(es, user, snapshot, e)
  }

  /** What the user sees: a deletion marker reads as an absent key. */
  function Answer(r: Option<Entry>): Option<string> {
    match r
    case None => None
    case Some(e) => if e.ikey.kind.Put? then Some(e.value) else None
  }

  /** No two entries share a user key and a sequence number. */
  ghost predicate Unique(es: set<Entry>) {
    forall a, b :: a in es && b in es && a.ikey.user == b.ikey.user && a.ikey.sequence == b.ikey.sequence ==> a == b
  }

  ghost function Elements(t: seq<Entry>): set<Entry> { set e | e in t }

  /** One seek answers a read on a sorted table. */
  lemma TableGetReadsTable(t: seq<Entry>, user: UserKey, snapshot: nat)
    requires Sorted(t)
    ensures ReadsAs(Elements(t), user, snapshot, TableGet(t, user, snapshot))
  {
    var target := LookupKey(user, snapshot);
    var i := SeekIndex(t, target);
    forall x | x in t && Visible(x, user, snapshot)
      ensures i < |t| && t[i].ikey.user == user && x.ikey.sequence <= t[i].ikey.sequence
    {
      var j :| 0 <= j < |t| && t[j] == x;
      assert !x.ikey.Less(target);
      assert i <= j;
      assert i < j ==> t[i].ikey.Less(t[j].ikey);
    }
    if i < |t| && t[i].ikey.user == user {
      assert t[i] in t;
    }
  }

  /** Reads are a function of the entries. */
  lemma ReadIsDetermined(es: set<Entry>, user: UserKey, snapshot: nat, a: Option<Entry>, b: Option<Entry>)
    requires Unique(es)
    requires ReadsAs(es, user, snapshot, a) && ReadsAs(es, user, snapshot, b)
    ensures a == b
  {
  }

  lemma FindNewest(es: set<Entry>, user: UserKey, snapshot: nat) returns (r: Option<Entry>)
    ensures ReadsAs(es, user, snapshot, r)
  {
    if es == {} {
      return None;
    }
    var x :| x in es;
    var rest := es - {x};
    r := FindNewest(rest, user, snapshot);
    if Visible(x, user, snapshot) && (r.None? || r.value.ikey.sequence < x.ikey.sequence) {
      r := Some(x);
    }
    assert forall y :: y in es ==> y == x || y in rest;
  }

  /** The read itself, as a function of the entries. */
  ghost function Newest(es: set<Entry>, user: UserKey, snapshot: nat): (r: Option<Entry>)
    ensures ReadsAs(es, user, snapshot, r)
  {
    assert exists r :: ReadsAs(es, user, snapshot, r) by {
      var r := FindNewest(es, user, snapshot);
    }
    var r :| ReadsAs(es, user, snapshot, r);
    r
  }

  /** What a user reading at a snapshot is told. */
  ghost function View(es: set<Entry>, user: UserKey, snapshot: nat): Option<string> {
    Answer(Newest(es, user, snapshot))
  }
}
