/** Punycode as RFC 3492 states it: the parameters of section 5, the bias adaptation of section
    6.1 and the decoder of section 6.2, on the code points of a label. */
module Rfc3492 {
  import opened Wrappers

  const BASE := 36
  const TMIN := 1
  const TMAX := 26
  const SKEW := 38
  const DAMP := 700
  const INITIAL_BIAS := 72
  const INITIAL_N := 128
  const HYPHEN: nat := '-' as nat

  /** The loop of section 6.1: k counts up by the base while delta is too big. */
  function AdaptFrom(delta: nat, k: nat): nat
    decreases delta
  {
    if delta > ((BASE - TMIN) * TMAX) / 2 then AdaptFrom(delta / (BASE - TMIN), k + BASE)
    else k + ((BASE - TMIN + 1) * delta) / (delta + SKEW)
  }

  function Scaled(delta: nat, firstTime: bool): nat {
    if firstTime then delta / DAMP else delta / 2
  }

  function Adapt(delta: nat, numPoints: nat, firstTime: bool): nat
    requires numPoints > 0
  {
    var scaled := Scaled(delta, firstTime);
    AdaptFrom(scaled + scaled / numPoints, 0)
  }

  /** Section 5: letters of either case are 0 to 25, decimal digits 26 to 35. */
  function DigitValue(c: nat): Option<nat> {
    if 'a' as nat <= c <= 'z' as nat then Some(c - 'a' as nat)
    else if 'A' as nat <= c <= 'Z' as nat then Some(c - 'A' as nat)
    else if '0' as nat <= c <= '9' as nat then Some(26 + c - '0' as nat)
    else None
  }

  function Threshold(k: nat, bias: nat): (t: nat)
    ensures TMIN <= t <= TMAX
  {
    if k <= bias + TMIN then TMIN else if k >= bias + TMAX then TMAX else k - bias
  }

  /** The inner loop of section 6.2: i after one variable-length integer, and what is left of the
      input. */
  function ReadInteger(input: seq<nat>, i: nat, w: nat, k: nat, bias: nat): (r: Option<(nat, seq<nat>)>)
    ensures r.Some? ==> i <= r.value.0 && |r.value.1| < |input|
    decreases |input|
  {
    if input == [] then None
    else
      match DigitValue(input[0])
      case None => None
      case Some(digit) =>
        var i', t := i + digit * w, Threshold(k, bias);
        if digit < t then Some((i', input[1..])) else ReadInteger(input[1..], i', w * (BASE - t), k + BASE, bias)
  }

  /** n and i, counted on through the wraps of i, say what to insert and where. */
  datatype State = State(output: seq<nat>, n: nat, i: nat, bias: nat)
  {
    function Insert(sum: nat): State
      requires i <= sum
    {
      var points := |output| + 1;
      var n', i' := n + sum / points, sum % points;
      State(output[..i'] + [n'] + output[i'..], n', i' + 1, Adapt(sum - i, points, i == 0))
    }
  }

  /** The main loop of section 6.2. */
  function DecodeFrom(s: State, input: seq<nat>): Option<seq<nat>>
    decreases |input|
  {
    if input == [] then Some(s.output)
    else
      match ReadInteger(input, s.i, 1, BASE, s.bias)
      case None => None
      case Some((sum, rest)) => DecodeFrom(s.Insert(sum), rest)
  }

  /** How many code points stand before the last delimiter, if there is one. */
  function BeforeDelimiter(text: seq<nat>): (b: Option<nat>)
    ensures b.None? ==> HYPHEN !in text
    ensures b.Some? ==> b.value < |text| && text[b.value] == HYPHEN && HYPHEN !in text[b.value + 1..]
  {
    if text == [] then None
    else if text[|text| - 1] == HYPHEN then Some(|text| - 1)
    else BeforeDelimiter(text[..|text| - 1])
  }

  predicate AllBasic(s: seq<nat>) { forall i :: 0 <= i < |s| ==> s[i] < 0x80 }

  function Decode(text: seq<nat>): Option<seq<nat>> {
    match BeforeDelimiter(text)
    case None => DecodeFrom(State([], INITIAL_N, 0, INITIAL_BIAS), text)
    case Some(b) =>
      if !AllBasic(text[..b]) then None
      else DecodeFrom(State(text[..b], INITIAL_N, 0, INITIAL_BIAS), if b > 0 then text[b + 1..] else text)
  }
}
