/** No digits but the encoder's decode to a given sequence of code points: the decoder, run
    backwards, finds the encoder's states. */
module PunycodeUnique {
  import opened Wrappers
  import opened Punycode

  ghost predicate AreDigits(ds: seq<nat>) { forall i :: 0 <= i < |ds| ==> ds[i] < 36 }

  /** A number has one form. */
  lemma {:induction false} ReadIsDigits(ds: seq<nat>, k: nat, bias: nat)
    requires AreDigits(ds) && ReadNumber(ds, k, bias).Some?
    ensures var r := ReadNumber(ds, k, bias).value; ds[..r.used] == Digits(r.value, k, bias)
    decreases |ds|
  {
    var t := Threshold(k, bias);
    if ds[0] >= t {
      var rest := ReadNumber(ds[1..], k + 36, bias).value;
      ReadIsDigits(ds[1..], k + 36, bias);
      DigitsOf(ds[0], rest.value, k, bias, t);
      assert ds[..1 + rest.used] == [ds[0]] + ds[1..][..rest.used];
    }
  }

  lemma DigitsOf(d: nat, rest: nat, k: nat, bias: nat, t: nat)
    requires t == Threshold(k, bias) <= d < 36
    ensures Digits(d + Times(rest, 36 - t), k, bias) == [d] + Digits(rest, k + 36, bias)
  {
    DivisionIs(rest, 36 - t, d - t);
    assert d + Times(rest, 36 - t) - t == Times(rest, 36 - t) + (d - t);
  }

  // ---- What is kept, by index ----

  lemma {:induction false} BelowIsPrefix(s: seq<nat>, n: nat, j: nat, t: nat)
    requires t <= |s|
    ensures Below(s, n, j, t) <= Kept(s, n, j)
    decreases |s| - t
  {
    if t < |s| {
      BelowIsPrefix(s, n, j, t + 1);
    }
  }

  lemma KeptAt(s: seq<nat>, n: nat, j: nat, q: nat)
    requires q < |s| && !Ahead(s, n, j, q)
    ensures |Below(s, n, j, q)| < |Kept(s, n, j)| && Kept(s, n, j)[|Below(s, n, j, q)|] == s[q]
  {
    BelowIsPrefix(s, n, j, q + 1);
    assert Below(s, n, j, q + 1) == Below(s, n, j, q) + [s[q]];
  }

  lemma {:induction false} BelowMonotone(s: seq<nat>, n: nat, j: nat, t: nat, u: nat)
    requires t <= u <= |s|
    ensures |Below(s, n, j, t)| <= |Below(s, n, j, u)|
    decreases u
  {
    if t < u {
      BelowMonotone(s, n, j, t, u - 1);
    }
  }

  lemma {:induction false} BelowSame(s: seq<nat>, n: nat, j: nat, n': nat, j': nat, t: nat)
    requires t <= |s| && forall q :: 0 <= q < t ==> (Ahead(s, n, j, q) <==> Ahead(s, n', j', q))
    ensures Below(s, n, j, t) == Below(s, n', j', t)
  {
    if t > 0 {
      BelowSame(s, n, j, n', j', t - 1);
      assert Ahead(s, n, j, t - 1) <==> Ahead(s, n', j', t - 1);
    }
  }

  /** The last code point kept before position j. */
  lemma {:induction false} LastKept(s: seq<nat>, n: nat, j: nat) returns (p: nat)
    requires j <= |s| && Position(s, n, j) > 0
    ensures p < j && s[p] <= n && Position(s, n, p) + 1 == Position(s, n, p + 1) == Position(s, n, j)
    ensures forall q :: p < q < j ==> s[q] > n
    decreases j
  {
    PositionStep(s, n, j - 1);
    if s[j - 1] <= n {
      p := j - 1;
    } else {
      p := LastKept(s, n, j - 1);
    }
  }

  lemma {:induction false} FindPosition(s: seq<nat>, n: nat, count: nat, top: nat) returns (j: nat)
    requires top <= |s| && count <= Position(s, n, top)
    ensures j <= top && Position(s, n, j) == count
    decreases top
  {
    if count == Position(s, n, top) {
      j := top;
    } else {
      PositionStep(s, n, top - 1);
      j := FindPosition(s, n, count, top - 1);
    }
  }

  // ---- One insertion, undone ----

  /** No code point beyond n, and n itself only before position i. */
  ghost predicate WellPlaced(d: Decoder) {
    && d.i <= |d.output|
    && forall q :: 0 <= q < |d.output| ==> d.output[q] <= d.n && (d.output[q] == d.n ==> q < d.i)
  }

  /** d' holds one more code point than d: n', at position i' - 1. */
  ghost predicate Inserted(d: Decoder, delta: nat, d': Decoder) {
    && d.n <= d'.n && 0 < d'.i <= |d.output| + 1 && (d.n == d'.n ==> d.i < d'.i)
    && d'.output == InsertAt(d.output, d'.i - 1, d'.n)
    && delta == Steps(d.n, d.i, d'.n, |d.output|, d'.i - 1)
  }

  lemma InsertIsPlaced(d: Decoder, delta: nat)
    requires WellPlaced(d)
    ensures WellPlaced(Insert(d, delta)) && Inserted(d, delta, Insert(d, delta))
  {
    DivisionUndone(d.i + delta, |d.output| + 1);
  }

  lemma InsertCancels(a: seq<nat>, b: seq<nat>, pos: nat, n: nat)
    requires pos <= |a| && pos <= |b| && InsertAt(a, pos, n) == InsertAt(b, pos, n)
    ensures a == b
  {
    var x := InsertAt(a, pos, n);
    assert a == x[..pos] + x[pos + 1..];
    assert b == x[..pos] + x[pos + 1..];
  }

  /** Where the inserted code point stands in s. */
  lemma InsertedAt(s: seq<nat>, d: Decoder, d': Decoder, j': nat) returns (p: nat)
    requires InStep(s, d', j') && 0 < d'.i <= |d.output| + 1 && d'.output == InsertAt(d.output, d'.i - 1, d'.n)
    ensures p < |s| && s[p] == d'.n && InStep(s, d', p + 1) && Position(s, d'.n, p) == d'.i - 1
    ensures d.output == Kept(s, d'.n, p)
  {
    p := LastKept(s, d'.n, j');
    assert SameAhead(s, d'.n, j', d'.n, p + 1);
    KeptSame(s, d'.n, j', d'.n, p + 1, |s|);
    KeptPrefix(s, d'.n, p, p);
    KeptAt(s, d'.n, p + 1, p);
    assert s[p] == d'.output[d'.i - 1];
    KeptInsert(s, d'.n, p, |s|);
    InsertCancels(d.output, Kept(s, d'.n, p), d'.i - 1, d'.n);
  }

  /** What the decoder holds has a place before p in the encoder's order. */
  lemma KeptAreOld(s: seq<nat>, d: Decoder, n': nat, p: nat, q: nat)
    requires WellPlaced(d) && p < |s| && d.output == Kept(s, n', p) && q < |s| && !Ahead(s, n', p, q)
    ensures s[q] <= d.n && (s[q] == d.n ==> |Below(s, n', p, q)| < d.i)
  {
    KeptAt(s, n', p, q);
  }

  /** The decoder's place in s before the insertion. */
  lemma StoodAt(s: seq<nat>, d: Decoder, n': nat, p: nat) returns (j: nat)
    requires WellPlaced(d) && d.n <= n' && p < |s| && d.output == Kept(s, n', p)
    requires d.n == n' ==> d.i <= Position(s, n', p)
    ensures j <= |s| && Position(s, d.n, j) == d.i && (d.n == n' ==> j <= p)
  {
    if d.n == n' {
      j := FindPosition(s, d.n, d.i, p);
    } else {
      forall q | 0 <= q < |s|
        ensures Ahead(s, d.n, |s|, q) <==> Ahead(s, n', p, q)
      {
        if !Ahead(s, n', p, q) {
          KeptAreOld(s, d, n', p, q);
        }
      }
      BelowSame(s, d.n, |s|, n', p, |s|);
      j := FindPosition(s, d.n, d.i, |s|);
    }
  }

  lemma StoodThere(s: seq<nat>, d: Decoder, n': nat, p: nat, j: nat)
    requires WellPlaced(d) && d.n <= n' && p < |s| && d.output == Kept(s, n', p)
    requires j <= |s| && Position(s, d.n, j) == d.i && (d.n == n' ==> j <= p)
    ensures SameAhead(s, d.n, j, n', p)
  {
    forall q | 0 <= q < j
      ensures Ahead(s, d.n, j, q) <==> Ahead(s, n', p, q)
    {
      if !Ahead(s, n', p, q) {
        KeptAreOld(s, d, n', p, q);
      }
    }
    BelowSame(s, d.n, j, n', p, j);
    forall q | j <= q < |s|
      ensures Ahead(s, d.n, j, q) <==> Ahead(s, n', p, q)
    {
      if !Ahead(s, n', p, q) {
        KeptAreOld(s, d, n', p, q);
        BelowMonotone(s, n', p, j, q);
      }
    }
  }

  /** The decoder was in step before the insertion, too, and received the gap to the next one. */
  lemma InsertUndone(s: seq<nat>, d: Decoder, d': Decoder, delta: nat, j': nat) returns (j: nat, p: nat)
    requires WellPlaced(d) && Inserted(d, delta, d') && InStep(s, d', j')
    ensures InStep(s, d, j) && IsNext(s, d.n, j, p) && Gap(s, d.n, d.i, p) == delta
    ensures s[p] == d'.n && Position(s, d'.n, p) + 1 == d'.i && InStep(s, d', p + 1)
  {
    p := InsertedAt(s, d, d', j');
    j := StoodAt(s, d, d'.n, p);
    StoodThere(s, d, d'.n, p, j);
    KeptSame(s, d.n, j, d'.n, p, |s|);
    assert IsNext(s, d'.n, p, p);
    SameNext(s, d'.n, p, d.n, j, p);
  }

  // ---- A whole run, undone ----

  lemma {:induction false} NothingBetween(s: seq<nat>, n: nat, j: nat, k: nat)
    requires j <= k <= |s| && Position(s, n, j) == Position(s, n, k)
    ensures forall q :: j <= q < k ==> s[q] > n
    decreases k
  {
    if j < k {
      PositionGrows(s, n, j, k - 1);
      PositionStep(s, n, k - 1);
      NothingBetween(s, n, j, k - 1);
    }
  }

  lemma InStepOnce(s: seq<nat>, d: Decoder, j: nat, k: nat)
    requires InStep(s, d, j) && InStep(s, d, k)
    ensures SameAhead(s, d.n, j, d.n, k)
  {
    if j <= k {
      NothingBetween(s, d.n, j, k);
    } else {
      NothingBetween(s, d.n, k, j);
    }
  }

  lemma SameDeltas(s: seq<nat>, n0: nat, i0: nat, n: nat, j: nat, k: nat)
    requires SameAhead(s, n, j, n, k)
    ensures Deltas(s, n0, i0, n, j) == Deltas(s, n0, i0, n, k)
  {
    if HasNext(s, n, j) {
      var p := TheNext(s, n, j);
      SameNext(s, n, j, n, k, p);
      DeltasNext(s, n0, i0, n, j, p);
      DeltasNext(s, n0, i0, n, k, p);
    } else if HasNext(s, n, k) {
      SameNext(s, n, k, n, j, TheNext(s, n, k));
    }
  }

  /** At the end everything has been sent. */
  lemma EndsInStep(s: seq<nat>, d: Decoder)
    requires WellPlaced(d) && d.output == s
    ensures InStep(s, d, d.i) && !HasNext(s, d.n, d.i) && Deltas(s, d.n, d.i, d.n, d.i) == []
  {
    KeptAll(s, d.n, d.i, |s|);
    KeptAll(s, d.n, d.i, d.i);
    assert s[..|s|] == s;
    NothingNext(s, d.n, d.i);
  }

  ghost predicate Sends(s: seq<nat>, d: Decoder, j: nat, ds: seq<nat>) {
    ds == EncodeAll(Deltas(s, d.n, d.i, d.n, j), |d.output|, d.i == 0, d.bias)
  }

  lemma EncodeMore(delta: nat, later: seq<int>, points: nat, first: bool, bias: nat, bias': nat)
    requires bias' == Adapt(delta, points + 1, first)
    ensures EncodeAll([delta] + later, points, first, bias)
         == Digits(delta, 36, bias) + EncodeAll(later, points + 1, false, bias')
  {
    assert ([delta] + later)[1..] == later;
  }

  lemma GapsBefore(s: seq<nat>, d: Decoder, d': Decoder, delta: nat, j': nat) returns (j: nat)
    requires WellPlaced(d) && Inserted(d, delta, d') && InStep(s, d', j')
    ensures InStep(s, d, j)
    ensures Deltas(s, d.n, d.i, d.n, j) == [delta] + Deltas(s, d'.n, d'.i, d'.n, j')
  {
    var p;
    j, p := InsertUndone(s, d, d', delta, j');
    InStepOnce(s, d', j', p + 1);
    SameDeltas(s, d'.n, d'.i, d'.n, j', p + 1);
    DeltasNext(s, d.n, d.i, d.n, j, p);
  }

  lemma SentBefore(s: seq<nat>, d: Decoder, d': Decoder, delta: nat, j': nat, rest: seq<nat>) returns (j: nat)
    requires WellPlaced(d) && d' == Insert(d, delta) && InStep(s, d', j') && Sends(s, d', j', rest)
    ensures InStep(s, d, j) && Sends(s, d, j, Digits(delta, 36, d.bias) + rest)
  {
    InsertIsPlaced(d, delta);
    j := GapsBefore(s, d, d', delta, j');
    EncodeMore(delta, Deltas(s, d'.n, d'.i, d'.n, j'), |d.output|, d.i == 0, d.bias, d'.bias);
  }

  lemma RunSplits(d: Decoder, ds: seq<nat>) returns (number: Number, d': Decoder)
    requires ds != [] && AreDigits(ds) && Run(d, ds).Some?
    ensures ReadNumber(ds, 36, d.bias) == Some(number) && 0 < number.used <= |ds|
    ensures d' == Insert(d, number.value) && Run(d', ds[number.used..]) == Run(d, ds)
    ensures ds == Digits(number.value, 36, d.bias) + ds[number.used..]
  {
    number := ReadNumber(ds, 36, d.bias).value;
    d' := Insert(d, number.value);
    ReadIsDigits(ds, 36, d.bias);
    assert ds == ds[..number.used] + ds[number.used..];
  }

  /** Whatever digits decode to s are those that the encoder sends. */
  lemma {:induction false} RunUndone(s: seq<nat>, d: Decoder, ds: seq<nat>) returns (j: nat)
    requires WellPlaced(d) && AreDigits(ds) && Run(d, ds).Some? && Run(d, ds).value.output == s
    ensures InStep(s, d, j) && Sends(s, d, j, ds)
    decreases |ds|
  {
    if ds == [] {
      EndsInStep(s, d);
      j := d.i;
    } else {
      var number, d' := RunSplits(d, ds);
      InsertIsPlaced(d, number.value);
      var j' := RunUndone(s, d', ds[number.used..]);
      j := SentBefore(s, d, d', number.value, j', ds[number.used..]);
    }
  }
}
