/** The decoder that Punycode uses in its proofs does what section 6.2 of RFC 3492 says. */
module PunycodeRfc {
  import opened Wrappers
  import opened Punycode
  import R = Rfc3492

  lemma {:induction false} SameAdaptLoop(delta: nat, k: nat)
    ensures R.AdaptFrom(delta, k) == k + Rounds(delta) + Quot(36 * Damped(delta), Damped(delta) + 38)
    decreases delta
  {
    if delta > 455 {
      SameAdaptLoop(delta / 35, k + 36);
    }
  }

  lemma SameScaled(scaled: nat, points: nat)
    requires points > 0
    ensures R.AdaptFrom(scaled + scaled / points, 0)
         == Rounds(scaled + Quot(scaled, points))
            + Quot(36 * Damped(scaled + Quot(scaled, points)), Damped(scaled + Quot(scaled, points)) + 38)
  {
    SameAdaptLoop(scaled + Quot(scaled, points), 0);
  }

  /** The bias is adapted as section 6.1 says. */
  lemma SameAdapt(delta: nat, points: nat, first: bool)
    requires points > 0
    ensures Adapt(delta, points, first) == R.Adapt(delta, points, first)
  {
    SameScaled(if first then delta / 700 else delta / 2, points);
  }

  lemma SameThreshold(k: nat, bias: nat)
    ensures Threshold(k, bias) == R.Threshold(k, bias)
  {
  }

  /** The text consists of these digits. */
  ghost predicate Spells(text: seq<nat>, ds: seq<nat>) {
    && |text| == |ds|
    && forall i :: 0 <= i < |text| ==> R.DigitValue(text[i]) == Some(ds[i])
  }

  lemma WeightedSum(i: nat, d: nat, rest: nat, w: nat, u: nat)
    ensures i + d * w + rest * (w * u) == i + (d + rest * u) * w
  {
    assert rest * (w * u) == (rest * u) * w;
  }

  ghost predicate ReadsAs(text: seq<nat>, i: nat, w: nat, number: Option<Number>, r: Option<(nat, seq<nat>)>) {
    match number
    case None => r.None?
    case Some(n) => n.used <= |text| && r == Some((i + n.value * w, text[n.used..]))
  }

  lemma ReadsAsMore(text: seq<nat>, i: nat, d: nat, w: nat, u: nat, n: Number, r: Option<(nat, seq<nat>)>)
    requires text != [] && ReadsAs(text[1..], i + d * w, w * u, Some(n), r)
    ensures ReadsAs(text, i, w, Some(Number(d + Times(n.value, u), 1 + n.used)), r)
  {
    TimesIsProduct(n.value, u);
    WeightedSum(i, d, n.value, w, u);
    assert text[1..][n.used..] == text[1 + n.used..];
  }

  /** Adding up digits with their weights gives the same number. */
  lemma {:induction false} SameNumber(text: seq<nat>, ds: seq<nat>, i: nat, w: nat, k: nat, bias: nat)
    requires Spells(text, ds)
    ensures ReadsAs(text, i, w, ReadNumber(ds, k, bias), R.ReadInteger(text, i, w, k, bias))
    decreases |text|
  {
    if ds != [] {
      var t := Threshold(k, bias);
      SameThreshold(k, bias);
      if ds[0] >= t {
        var rest, i', w' := ReadNumber(ds[1..], k + 36, bias), i + ds[0] * w, w * (36 - t);
        SameNumber(text[1..], ds[1..], i', w', k + 36, bias);
        if rest.Some? {
          ReadsAsMore(text, i, ds[0], w, 36 - t, rest.value, R.ReadInteger(text[1..], i', w', k + 36, bias));
        }
      }
    }
  }

  function StateOf(d: Decoder): R.State { R.State(d.output, d.n, d.i, d.bias) }

  lemma SameInsert(d: Decoder, delta: nat)
    ensures StateOf(d).Insert(d.i + delta) == StateOf(Insert(d, delta))
  {
    SameAdapt(delta, |d.output| + 1, d.i == 0);
  }

  lemma {:induction false} SameRun(d: Decoder, text: seq<nat>, ds: seq<nat>)
    requires Spells(text, ds)
    ensures R.DecodeFrom(StateOf(d), text) == match Run(d, ds) case None => None case Some(end) => Some(end.output)
    decreases |text|
  {
    if ds != [] {
      SameNumber(text, ds, d.i, 1, 36, d.bias);
      var number := ReadNumber(ds, 36, d.bias);
      if number.Some? {
        SameInsert(d, number.value.value);
        SameRun(Insert(d, number.value.value), text[number.value.used..], ds[number.value.used..]);
      }
    }
  }

  /** One digit read: it ends the integer, or the rest does. */
  lemma FirstDigit(text: seq<nat>, i: nat, w: nat, k: nat, bias: nat) returns (i': nat, w': nat)
    requires R.ReadInteger(text, i, w, k, bias).Some?
    ensures text != [] && R.DigitValue(text[0]).Some?
    ensures var r := R.ReadInteger(text, i, w, k, bias);
            r.value.1 == text[1..] || r == R.ReadInteger(text[1..], i', w', k + 36, bias)
  {
    i', w' := i + R.DigitValue(text[0]).value * w, w * (36 - R.Threshold(k, bias));
  }

  ghost predicate DigitsUpTo(text: seq<nat>, rest: seq<nat>) {
    && |rest| <= |text| && rest == text[|text| - |rest|..]
    && forall j :: 0 <= j < |text| - |rest| ==> R.DigitValue(text[j]).Some?
  }

  lemma OneMoreDigit(text: seq<nat>, rest: seq<nat>)
    requires text != [] && R.DigitValue(text[0]).Some? && DigitsUpTo(text[1..], rest)
    ensures DigitsUpTo(text, rest)
  {
    forall j | 0 < j < |text| - |rest|
      ensures R.DigitValue(text[j]).Some?
    {
      assert text[1..][j - 1] == text[j];
    }
  }

  lemma {:induction false} IntegerNeedsDigits(text: seq<nat>, i: nat, w: nat, k: nat, bias: nat)
    requires R.ReadInteger(text, i, w, k, bias).Some?
    ensures DigitsUpTo(text, R.ReadInteger(text, i, w, k, bias).value.1)
    decreases |text|
  {
    var r := R.ReadInteger(text, i, w, k, bias);
    var i', w' := FirstDigit(text, i, w, k, bias);
    if r.value.1 != text[1..] {
      IntegerNeedsDigits(text[1..], i', w', k + 36, bias);
      OneMoreDigit(text, r.value.1);
    }
  }

  /** Nothing but digits can be decoded. */
  lemma {:induction false} DecodingNeedsDigits(s: R.State, text: seq<nat>)
    requires R.DecodeFrom(s, text).Some?
    ensures forall j :: 0 <= j < |text| ==> R.DigitValue(text[j]).Some?
    decreases |text|
  {
    if text != [] {
      var (sum, rest) := R.ReadInteger(text, s.i, 1, 36, s.bias).value;
      IntegerNeedsDigits(text, s.i, 1, 36, s.bias);
      DecodingNeedsDigits(s.Insert(sum), rest);
      forall j | 0 <= j < |text|
        ensures R.DigitValue(text[j]).Some?
      {
        if j >= |text| - |rest| {
          assert text[j] == rest[j - (|text| - |rest|)];
        }
      }
    }
  }
}
