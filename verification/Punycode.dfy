/** Punycode: the numbers that the label encoder of libuv's src/idna.c sends, on decoded code
    points, and what a decoder makes of them. */
module Punycode {
  import opened Wrappers

  const MAX_WORD := 0xFFFF_FFFF
  type Word = x: int | 0 <= x <= MAX_WORD

  /** What the UTF-8 decoder returns for malformed input: (unsigned) -1. */
  const INVALID: Word := MAX_WORD

  const DELIMITER: nat := 45   // '-'
  const PREFIX: seq<nat> := [120, 110, 45, 45]   // "xn--"
  const INITIAL_N: nat := 128
  const INITIAL_BIAS: nat := 72

  // ---- Bias adaptation ----

  /** The loop that divides by 35 while delta > 35 * 26 / 2, and 36 for each of its turns. */
  function Damped(delta: nat): (d: nat)
    ensures d <= 455
  {
    if delta > 455 then Damped(delta / 35) else delta
  }

  function Rounds(delta: nat): nat {
    if delta > 455 then 36 + Rounds(delta / 35) else 0
  }

  /** Division, by name. */
  function Quot(x: nat, y: nat): (q: nat)
    requires y > 0
  {
    x / y
  }

  function Rem(x: nat, y: nat): (r: nat)
    requires y > 0
    ensures r < y
  {
    x % y
  }

  /** Multiplication, by repeated addition. */
  function Times(x: nat, y: nat): nat { if x == 0 then 0 else Times(x - 1, y) + y }

  lemma {:induction false} TimesIsProduct(x: nat, y: nat)
    ensures Times(x, y) == x * y
  {
    if x > 0 {
      TimesIsProduct(x - 1, y);
    }
  }

  lemma {:induction false} TimesGrows(x: nat, y: nat)
    requires y > 0
    ensures x <= Times(x, y)
  {
    if x > 0 {
      TimesGrows(x - 1, y);
    }
  }

  lemma DivisionUndone(x: nat, y: nat)
    requires y > 0
    ensures Quot(x, y) <= x && x == Times(Quot(x, y), y) + Rem(x, y)
  {
    assert x == (x / y) * y + x % y;
    TimesIsProduct(x / y, y);
    TimesGrows(x / y, y);
  }

  lemma {:induction false} MoreTimes(a: nat, b: nat, y: nat)
    ensures a <= b ==> Times(a, y) <= Times(b, y)
    ensures a < b ==> Times(a, y) + y <= Times(b, y)
    decreases b
  {
    if a < b {
      MoreTimes(a, b - 1, y);
    }
  }

  /** A quotient and a remainder are determined by the sum they give. */
  lemma DivisionIs(q: nat, y: nat, r: nat)
    requires r < y
    ensures Quot(Times(q, y) + r, y) == q && Rem(Times(q, y) + r, y) == r
  {
    var x := Times(q, y) + r;
    DivisionUndone(x, y);
    MoreTimes(q, Quot(x, y), y);
    MoreTimes(Quot(x, y), q, y);
  }

  function Adapt(delta: nat, points: nat, first: bool): nat
    requires points > 0
  {
    var halved := if first then delta / 700 else delta / 2;
    var grown := halved + Quot(halved, points);
    Rounds(grown) + Quot(36 * Damped(grown), Damped(grown) + 38)
  }

  // ---- Variable-length integers ----

  /** The threshold of the digit at position k. */
  function Threshold(k: nat, bias: nat): (t: nat)
    ensures 1 <= t <= 26
  {
    if k <= bias then 1 else if k - bias > 26 then 26 else k - bias
  }

  /** The digits of q, least significant first. */
  function Digits(q: nat, k: nat, bias: nat): (ds: seq<nat>)
    ensures ds != [] && forall i :: 0 <= i < |ds| ==> ds[i] < 36
    decreases q
  {
    var t := Threshold(k, bias);
    if q < t then [q]
    else
      DivisionUndone(q - t, 36 - t);
      [t + Rem(q - t, 36 - t)] + Digits(Quot(q - t, 36 - t), k + 36, bias)
  }

  datatype Number = Number(value: nat, used: nat)

  /** Each digit below its threshold ends the number. */
  function ReadNumber(ds: seq<nat>, k: nat, bias: nat): (r: Option<Number>)
    ensures r.Some? ==> 0 < r.value.used <= |ds|
    decreases |ds|
  {
    if ds == [] then None
    else
      var t := Threshold(k, bias);
      if ds[0] < t then Some(Number(ds[0], 1))
      else
        match ReadNumber(ds[1..], k + 36, bias)
        case None => None
        case Some(rest) => Some(Number(ds[0] + Times(rest.value, 36 - t), 1 + rest.used))
  }

  lemma {:induction false} NumberRoundTrip(q: nat, k: nat, bias: nat, tail: seq<nat>)
    ensures ReadNumber(Digits(q, k, bias) + tail, k, bias) == Some(Number(q, |Digits(q, k, bias)|))
    decreases q
  {
    var t := Threshold(k, bias);
    if q >= t {
      DivisionUndone(q - t, 36 - t);
      var d, rest := t + Rem(q - t, 36 - t), Quot(q - t, 36 - t);
      NumberRoundTrip(rest, k + 36, bias, tail);
      ReadStep(d, Digits(rest, k + 36, bias) + tail, k, bias, t, rest, |Digits(rest, k + 36, bias)|);
      assert Digits(q, k, bias) + tail == [d] + (Digits(rest, k + 36, bias) + tail);
    }
  }

  lemma ReadStep(d: nat, ds: seq<nat>, k: nat, bias: nat, t: nat, value: nat, used: nat)
    requires t == Threshold(k, bias) <= d && ReadNumber(ds, k + 36, bias) == Some(Number(value, used))
    ensures ReadNumber([d] + ds, k, bias) == Some(Number(d + Times(value, 36 - t), 1 + used))
  {
    assert ([d] + ds)[1..] == ds;
  }

  // ---- The decoder, on numbers ----

  datatype Decoder = Decoder(output: seq<nat>, n: nat, i: nat, bias: nat)

  function InsertAt(s: seq<nat>, pos: nat, n: nat): seq<nat>
    requires pos <= |s|
  {
    s[..pos] + [n] + s[pos..]
  }

  function Insert(d: Decoder, delta: nat): Decoder {
    var points := |d.output| + 1;
    var i := d.i + delta;
    var n, pos := d.n + Quot(i, points), Rem(i, points);
    Decoder(InsertAt(d.output, pos, n), n, pos + 1, Adapt(delta, points, d.i == 0))
  }

  function Run(d: Decoder, ds: seq<nat>): Option<Decoder>
    decreases |ds|
  {
    if ds == [] then Some(d)
    else
      match ReadNumber(ds, 36, d.bias)
      case None => None
      case Some(number) => Run(Insert(d, number.value), ds[number.used..])
  }

  function Start(basic: seq<nat>): Decoder { Decoder(basic, INITIAL_N, 0, INITIAL_BIAS) }

  // ---- What the encoder has dealt with ----

  /** The code point at q is still to be dealt with. */
  predicate Ahead(s: seq<nat>, n: nat, j: nat, q: nat)
    requires q < |s|
  {
    s[q] > n || (s[q] == n && q >= j)
  }

  /** Of the first t code points of s those below n, or equal to n at positions below j. */
  function Below(s: seq<nat>, n: nat, j: nat, t: nat): (kept: seq<nat>)
    requires t <= |s|
    ensures |kept| <= t
  {
    if t == 0 then []
    else if Ahead(s, n, j, t - 1) then Below(s, n, j, t - 1)
    else Below(s, n, j, t - 1) + [s[t - 1]]
  }

  function Kept(s: seq<nat>, n: nat, j: nat): seq<nat> { Below(s, n, j, |s|) }

  /** How many of these stand before position j. */
  function Position(s: seq<nat>, n: nat, j: nat): nat
    requires j <= |s|
  {
    |Below(s, n, j, j)|
  }

  /** Prefixes up to j do not see whether j itself is in. */
  lemma {:induction false} KeptPrefix(s: seq<nat>, n: nat, j: nat, t: nat)
    requires t <= j <= |s|
    ensures Below(s, n, j + 1, t) == Below(s, n, j, t)
  {
    if t > 0 {
      KeptPrefix(s, n, j, t - 1);
    }
  }

  lemma InsertThenAppend(s: seq<nat>, pos: nat, n: nat, tail: seq<nat>)
    requires pos <= |s|
    ensures InsertAt(s + tail, pos, n) == InsertAt(s, pos, n) + tail
  {
    assert (s + tail)[..pos] == s[..pos] && (s + tail)[pos..] == s[pos..] + tail;
  }

  lemma KeptMore(s: seq<nat>, n: nat, j: nat, t: nat, pos: nat)
    requires j + 1 < t <= |s| && pos <= |Below(s, n, j, t - 1)|
    requires Below(s, n, j + 1, t - 1) == if s[j] == n then InsertAt(Below(s, n, j, t - 1), pos, n)
             else Below(s, n, j, t - 1)
    ensures pos <= |Below(s, n, j, t)|
    ensures Below(s, n, j + 1, t) == if s[j] == n then InsertAt(Below(s, n, j, t), pos, n) else Below(s, n, j, t)
  {
    var tail := if s[t - 1] < n then [s[t - 1]] else [];
    InsertThenAppend(Below(s, n, j, t - 1), pos, n, tail);
  }

  /** Moving past position j puts its code point in, if it is n, where it stands in s. */
  lemma {:induction false} KeptInsert(s: seq<nat>, n: nat, j: nat, t: nat)
    requires j < t <= |s|
    ensures Position(s, n, j) <= |Below(s, n, j, t)|
    ensures var was, pos := Below(s, n, j, t), Position(s, n, j);
            Below(s, n, j + 1, t) == if s[j] == n then InsertAt(was, pos, n) else was
  {
    if t == j + 1 {
      KeptPrefix(s, n, j, j);
    } else {
      KeptInsert(s, n, j, t - 1);
      KeptMore(s, n, j, t, Position(s, n, j));
    }
  }

  lemma PositionStep(s: seq<nat>, n: nat, j: nat)
    requires j < |s|
    ensures Position(s, n, j + 1) == Position(s, n, j) + if s[j] <= n then 1 else 0
  {
    KeptPrefix(s, n, j, j);
  }

  ghost predicate SameAhead(s: seq<nat>, n: nat, j: nat, n': nat, j': nat) {
    forall q :: 0 <= q < |s| ==> (Ahead(s, n, j, q) <==> Ahead(s, n', j', q))
  }

  lemma {:induction false} KeptSame(s: seq<nat>, n: nat, j: nat, n': nat, j': nat, t: nat)
    requires t <= |s| && SameAhead(s, n, j, n', j')
    ensures Below(s, n, j, t) == Below(s, n', j', t)
  {
    if t > 0 {
      KeptSame(s, n, j, n', j', t - 1);
      assert Ahead(s, n, j, t - 1) <==> Ahead(s, n', j', t - 1);
    }
  }

  /** What is kept is everything exactly when nothing is ahead. */
  lemma {:induction false} KeptAll(s: seq<nat>, n: nat, j: nat, t: nat)
    requires t <= |s|
    ensures |Below(s, n, j, t)| <= t
    ensures |Below(s, n, j, t)| == t <==> forall q :: 0 <= q < t ==> !Ahead(s, n, j, q)
    ensures |Below(s, n, j, t)| == t ==> Below(s, n, j, t) == s[..t]
  {
    if t > 0 {
      KeptAll(s, n, j, t - 1);
      assert s[..t] == s[..t - 1] + [s[t - 1]];
      assert (forall q :: 0 <= q < t ==> !Ahead(s, n, j, q))
             <==> (forall q :: 0 <= q < t - 1 ==> !Ahead(s, n, j, q)) && !Ahead(s, n, j, t - 1);
    }
  }

  // ---- The numbers an encoder has to send ----

  /** The next code point to send: the smallest one ahead, at its first position. */
  ghost predicate IsNext(s: seq<nat>, n: nat, j: nat, p: nat) {
    && p < |s| && Ahead(s, n, j, p)
    && forall q :: 0 <= q < |s| && Ahead(s, n, j, q) ==> s[p] < s[q] || (s[p] == s[q] && p <= q)
  }

  ghost predicate HasNext(s: seq<nat>, n: nat, j: nat) { exists p :: IsNext(s, n, j, p) }

  ghost function TheNext(s: seq<nat>, n: nat, j: nat): (p: nat)
    requires HasNext(s, n, j)
    ensures IsNext(s, n, j, p)
  {
    var p :| IsNext(s, n, j, p);
    p
  }

  /** How many states the decoder at (n0, i0) has to skip to insert s[p] where it belongs. */
  function Gap(s: seq<nat>, n0: nat, i0: nat, p: nat): int
    requires p < |s|
  {
    Steps(n0, i0, s[p], |Kept(s, s[p], p)|, Position(s, s[p], p))
  }

  /** The distance from decoder state (n0, i0) to (n, pos), with `kept` code points there. */
  function Steps(n0: nat, i0: nat, n: nat, kept: nat, pos: nat): int {
    Times(if n0 <= n then n - n0 else 0, kept + 1) + pos - i0
  }

  lemma NextIsKept(s: seq<nat>, n: nat, j: nat, p: nat)
    requires IsNext(s, n, j, p)
    ensures SameAhead(s, n, j, s[p], p)
    ensures |Kept(s, s[p], p + 1)| == |Kept(s, n, j)| + 1
  {
    KeptSame(s, n, j, s[p], p, |s|);
    KeptInsert(s, s[p], p, |s|);
  }

  /** All numbers to send, in order. */
  ghost function Deltas(s: seq<nat>, n0: nat, i0: nat, n: nat, j: nat): seq<int>
    decreases |s| - |Kept(s, n, j)|
  {
    if HasNext(s, n, j) then
      var p := TheNext(s, n, j);
      NextIsKept(s, n, j, p);
      [Gap(s, n0, i0, p)] + Deltas(s, s[p], Position(s, s[p], p) + 1, s[p], p + 1)
    else []
  }

  /** The encoding of a list of numbers, with the bias adapted after each. */
  function EncodeAll(deltas: seq<int>, points: nat, first: bool, bias: nat): seq<nat>
    decreases |deltas|
  {
    if deltas == [] || deltas[0] < 0 then []
    else Digits(deltas[0], 36, bias) + EncodeAll(deltas[1..], points + 1, false, Adapt(deltas[0], points + 1, first))
  }

  lemma NextIsUnique(s: seq<nat>, n: nat, j: nat, p: nat, n': nat, j': nat, p': nat)
    requires SameAhead(s, n, j, n', j') && IsNext(s, n, j, p) && IsNext(s, n', j', p')
    ensures p == p'
  {
    assert Ahead(s, n', j', p) && Ahead(s, n, j, p');
  }

  lemma SameNext(s: seq<nat>, n: nat, j: nat, n': nat, j': nat, p: nat)
    requires SameAhead(s, n, j, n', j') && IsNext(s, n, j, p)
    ensures IsNext(s, n', j', p)
  {
    assert Ahead(s, n', j', p);
    forall q | 0 <= q < |s| && Ahead(s, n', j', q)
      ensures s[p] < s[q] || (s[p] == s[q] && p <= q)
    {
      assert Ahead(s, n, j, q);
    }
  }

  lemma DeltasNext(s: seq<nat>, n0: nat, i0: nat, n: nat, j: nat, p: nat)
    requires IsNext(s, n, j, p)
    ensures Deltas(s, n0, i0, n, j) == [Gap(s, n0, i0, p)] + Deltas(s, s[p], Position(s, s[p], p) + 1, s[p], p + 1)
  {
    NextIsUnique(s, n, j, p, n, j, TheNext(s, n, j));
  }

  // ---- Decoding what was sent ----

  lemma {:induction false} PositionGrows(s: seq<nat>, n: nat, j: nat, j': nat)
    requires j <= j' <= |s|
    ensures Position(s, n, j) <= Position(s, n, j')
    decreases j' - j
  {
    if j < j' {
      PositionGrows(s, n, j, j' - 1);
      PositionStep(s, n, j' - 1);
    }
  }

  lemma {:induction false} KeptLonger(s: seq<nat>, n: nat, j: nat, t: nat)
    requires t <= |s|
    ensures |Below(s, n, j, t)| <= |Kept(s, n, j)|
    decreases |s| - t
  {
    if t < |s| {
      KeptLonger(s, n, j, t + 1);
    }
  }

  /** The decoder holds what is kept and stands behind the code point at position j - 1. */
  ghost predicate InStep(s: seq<nat>, d: Decoder, j: nat) {
    j <= |s| && d.output == Kept(s, d.n, j) && d.i == Position(s, d.n, j)
  }

  /** What a scan at (n, j) has counted so far. */
  function Counted(s: seq<nat>, d: Decoder, n: nat, j: nat): int
    requires j <= |s|
  {
    Steps(d.n, d.i, n, |d.output|, Position(s, n, j))
  }

  /** The count never goes down on the way to the next code point. */
  lemma CountGrows(s: seq<nat>, d: Decoder, n: nat, j: nat, p: nat)
    requires d.n <= n && j <= |s| && IsNext(s, n, j, p) && d.output == Kept(s, n, j)
    ensures n <= s[p] && Counted(s, d, n, j) <= Counted(s, d, s[p], p)
  {
    KeptLonger(s, n, j, j);
    MoreTimes(n - d.n, s[p] - d.n, |d.output| + 1);
    if s[p] == n {
      PositionGrows(s, n, j, p);
    }
  }

  lemma GapIsCount(s: seq<nat>, d: Decoder, j: nat, p: nat)
    requires InStep(s, d, j) && IsNext(s, d.n, j, p)
    ensures d.n <= s[p] && d.output == Kept(s, s[p], p) && Gap(s, d.n, d.i, p) == Counted(s, d, s[p], p) >= 0
  {
    NextIsKept(s, d.n, j, p);
    KeptSame(s, d.n, j, s[p], p, |s|);
    CountGrows(s, d, d.n, j, p);
    CountStarts(s, d, j);
    GapAsCount(s, d, p);
  }

  lemma CountStarts(s: seq<nat>, d: Decoder, j: nat)
    requires InStep(s, d, j)
    ensures Counted(s, d, d.n, j) == 0
  {
  }

  lemma GapAsCount(s: seq<nat>, d: Decoder, p: nat)
    requires p < |s| && d.n <= s[p] && d.output == Kept(s, s[p], p)
    ensures Gap(s, d.n, d.i, p) == Counted(s, d, s[p], p)
  {
  }

  /** Receiving the gap puts the next code point in its place. */
  lemma InsertNext(s: seq<nat>, d: Decoder, j: nat, p: nat)
    requires InStep(s, d, j) && IsNext(s, d.n, j, p)
    ensures var gap := Gap(s, d.n, d.i, p);
            gap >= 0 &&
            var d' := Insert(d, gap);
            && InStep(s, d', p + 1) && d'.n == s[p] && d'.i == Position(s, s[p], p) + 1
            && |d'.output| == |d.output| + 1 && d'.bias == Adapt(gap, |d.output| + 1, d.i == 0)
  {
    GapIsCount(s, d, j, p);
    KeptInsert(s, s[p], p, |s|);
    PositionStep(s, s[p], p);
    InsertLands(d, s[p], Position(s, s[p], p));
  }

  lemma InsertLands(d: Decoder, n: nat, pos: nat)
    requires d.n <= n && pos <= |d.output| && Steps(d.n, d.i, n, |d.output|, pos) >= 0
    ensures var gap := Steps(d.n, d.i, n, |d.output|, pos);
            Insert(d, gap) == Decoder(InsertAt(d.output, pos, n), n, pos + 1, Adapt(gap, |d.output| + 1, d.i == 0))
  {
    DivisionIs(n - d.n, |d.output| + 1, pos);
  }

  lemma {:induction false} SomeNext(s: seq<nat>, n: nat, j: nat, t: nat) returns (p: nat)
    requires t <= |s| && exists q :: 0 <= q < t && Ahead(s, n, j, q)
    ensures p < t && Ahead(s, n, j, p)
    ensures forall q :: 0 <= q < t && Ahead(s, n, j, q) ==> s[p] < s[q] || (s[p] == s[q] && p <= q)
  {
    if q :| 0 <= q < t - 1 && Ahead(s, n, j, q) {
      p := SomeNext(s, n, j, t - 1);
      if Ahead(s, n, j, t - 1) && s[t - 1] < s[p] {
        p := t - 1;
      }
    } else {
      p := t - 1;
    }
  }

  /** With no next code point, the output is all of s. */
  lemma NothingNext(s: seq<nat>, n: nat, j: nat)
    ensures HasNext(s, n, j) <==> |Kept(s, n, j)| < |s|
    ensures !HasNext(s, n, j) ==> Kept(s, n, j) == s
  {
    KeptAll(s, n, j, |s|);
    if q :| 0 <= q < |s| && Ahead(s, n, j, q) {
      var p := SomeNext(s, n, j, |s|);
      assert IsNext(s, n, j, p);
    }
  }

  /** The decoder, fed with the encoded gaps, ends with s. */
  lemma {:induction false} DecodesTo(s: seq<nat>, d: Decoder, j: nat)
    requires InStep(s, d, j)
    ensures var r := Run(d, EncodeAll(Deltas(s, d.n, d.i, d.n, j), |d.output|, d.i == 0, d.bias));
            r.Some? && r.value.output == s
    decreases |s| - |d.output|
  {
    NothingNext(s, d.n, j);
    if HasNext(s, d.n, j) {
      var p := TheNext(s, d.n, j);
      InsertNext(s, d, j, p);
      DeltasNext(s, d.n, d.i, d.n, j, p);
      var gap := Gap(s, d.n, d.i, p);
      var d' := Insert(d, gap);
      DecodesTo(s, d', p + 1);
      SendOne(d, gap, Deltas(s, d'.n, d'.i, d'.n, p + 1));
    }
  }

  lemma SendOne(d: Decoder, gap: nat, rest: seq<int>)
    ensures var d' := Insert(d, gap);
            Run(d, EncodeAll([gap] + rest, |d.output|, d.i == 0, d.bias)) == Run(d',
              EncodeAll(rest, |d'.output|, d'.i == 0, d'.bias))
  {
    var d' := Insert(d, gap);
    var tail := EncodeAll(rest, |d.output| + 1, false, d'.bias);
    assert ([gap] + rest)[1..] == rest;
    NumberRoundTrip(gap, 36, d.bias, tail);
    var ds := Digits(gap, 36, d.bias);
    assert (ds + tail)[|ds|..] == tail;
  }
}
