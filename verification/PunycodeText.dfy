/** The Punycode form of a label, as text: it decodes to the label, and nothing else does. */
module PunycodeText {
  import opened Wrappers
  import opened Punycode
  import opened PunycodeUnique
  import opened PunycodeRfc
  import Rfc3492

  /** alphabet[d]. */
  function Letter(d: nat): nat { if d < 26 then 97 + d else 48 + d - 26 }

  function Letters(ds: seq<nat>): (text: seq<nat>)
    ensures |text| == |ds| && forall i :: 0 <= i < |ds| ==> text[i] == Letter(ds[i])
  {
    seq(|ds|, i requires 0 <= i < |ds| => Letter(ds[i]))
  }

  lemma {:induction false} EncodedAreDigits(deltas: seq<int>, points: nat, first: bool, bias: nat)
    ensures AreDigits(EncodeAll(deltas, points, first, bias))
    decreases |deltas|
  {
    if deltas != [] && deltas[0] >= 0 {
      EncodedAreDigits(deltas[1..], points + 1, false, Adapt(deltas[0], points + 1, first));
    }
  }

  function Basic(s: seq<nat>): seq<nat> { Kept(s, INITIAL_N, 0) }

  lemma {:induction false} BelowIsBasic(s: seq<nat>, t: nat)
    requires t <= |s|
    ensures Rfc3492.AllBasic(Below(s, INITIAL_N, 0, t))
  {
    if t > 0 {
      BelowIsBasic(s, t - 1);
    }
  }

  /** The literal part of a label: the ASCII characters, and a delimiter if there are any. */
  function Head(s: seq<nat>): seq<nat> { HeadOf(Basic(s)) }

  function HeadOf(basic: seq<nat>): seq<nat> { if basic == [] then [] else basic + [DELIMITER] }

  ghost function Gaps(s: seq<nat>): seq<int> { Deltas(s, INITIAL_N, 0, INITIAL_N, 0) }

  ghost function SentDigits(s: seq<nat>): seq<nat> { EncodeAll(Gaps(s), |Basic(s)|, true, INITIAL_BIAS) }

  /** What the encoder makes of s. */
  ghost function Encoded(s: seq<nat>): seq<nat> { Head(s) + Letters(SentDigits(s)) }

  lemma LettersSpell(ds: seq<nat>)
    requires AreDigits(ds)
    ensures Spells(Letters(ds), ds) && DELIMITER !in Letters(ds)
  {
  }

  /** Without capital letters, only the encoder's letters spell the digits. */
  lemma OnlyLettersSpell(text: seq<nat>, ds: seq<nat>)
    requires Spells(text, ds) && NoCapitals(text)
    ensures AreDigits(ds) && text == Letters(ds)
  {
  }

  lemma IsBehind(text: seq<nat>, a: nat, b: nat)
    ensures a < b < |text| ==> text[b] in text[a + 1..]
  {
    if a < b < |text| {
      assert text[a + 1..][b - a - 1] == text[b];
    }
  }

  lemma LastIsOne(text: seq<nat>, a: nat, b: nat)
    requires a < |text| && b < |text| && text[a] == text[b]
    requires text[a] !in text[a + 1..] && text[b] !in text[b + 1..]
    ensures a == b
  {
    IsBehind(text, a, b);
    IsBehind(text, b, a);
  }

  /** The last delimiter is where the literal part ends. */
  lemma HeadEnds(basic: seq<nat>, tail: seq<nat>)
    requires DELIMITER !in tail
    ensures Rfc3492.BeforeDelimiter(basic + [DELIMITER] + tail) == Some(|basic|)
    ensures Rfc3492.BeforeDelimiter(tail) == None
  {
    var text := basic + [DELIMITER] + tail;
    assert text[|basic|] == DELIMITER && text[|basic| + 1..] == tail;
    LastIsOne(text, |basic|, Rfc3492.BeforeDelimiter(text).value);
  }

  lemma DecodeParts(basic: seq<nat>, tail: seq<nat>)
    requires DELIMITER !in tail && Rfc3492.AllBasic(basic)
    ensures Rfc3492.Decode(HeadOf(basic) + tail) == Rfc3492.DecodeFrom(StateOf(Start(basic)), tail)
  {
    var text := HeadOf(basic) + tail;
    HeadEnds(basic, tail);
    if basic == [] {
      assert text == tail;
    } else {
      assert text[..|basic|] == basic && text[|basic| + 1..] == tail;
    }
  }

  /** The decoder of RFC 3492 undoes the encoder, for every sequence of code points. */
  lemma DecodeEncoded(s: seq<nat>)
    ensures Rfc3492.Decode(Encoded(s)) == Some(s)
  {
    var ds, basic := SentDigits(s), Basic(s);
    EncodedAreDigits(Gaps(s), |basic|, true, INITIAL_BIAS);
    LettersSpell(ds);
    BelowIsBasic(s, |s|);
    DecodeParts(basic, Letters(ds));
    DecodesTo(s, Start(basic), 0);
    SameRun(Start(basic), Letters(ds), ds);
  }

  predicate NoCapitals(text: seq<nat>) { forall i :: 0 <= i < |text| ==> !(65 <= text[i] <= 90) }

  /** What follows the last delimiter. */
  function DigitPart(text: seq<nat>): seq<nat> {
    match Rfc3492.BeforeDelimiter(text)
    case None => text
    case Some(b) => text[b + 1..]
  }

  lemma StartsInStep(s: seq<nat>, basic: seq<nat>, j: nat)
    requires InStep(s, Start(basic), j)
    ensures basic == Basic(s) && Deltas(s, INITIAL_N, 0, INITIAL_N, j) == Gaps(s)
  {
    assert Position(s, INITIAL_N, 0) == 0;
    NothingBetween(s, INITIAL_N, 0, j);
    KeptSame(s, INITIAL_N, 0, INITIAL_N, j, |s|);
    SameDeltas(s, INITIAL_N, 0, INITIAL_N, j, 0);
  }

  /** The digits behind some basic code points are those sent for what they decode to. */
  lemma OnlySentDecode(s: seq<nat>, basic: seq<nat>, text: seq<nat>)
    requires Rfc3492.AllBasic(basic) && NoCapitals(text)
    requires Rfc3492.DecodeFrom(StateOf(Start(basic)), text) == Some(s)
    ensures basic == Basic(s) && text == Letters(SentDigits(s))
  {
    DecodingNeedsDigits(StateOf(Start(basic)), text);
    var ds := seq(|text|, i requires 0 <= i < |text| => Rfc3492.DigitValue(text[i]).value);
    OnlyLettersSpell(text, ds);
    SameRun(Start(basic), text, ds);
    var j := RunUndone(s, Start(basic), ds);
    StartsInStep(s, basic, j);
  }

  lemma DelimiterIsNoDigit(s: Rfc3492.State, text: seq<nat>)
    requires text != [] && text[0] == DELIMITER
    ensures Rfc3492.DecodeFrom(s, text).None?
  {
  }

  lemma OnlyHeadDecodes(text: seq<nat>, b: nat, s: seq<nat>)
    requires 0 < b < |text| && text[b] == DELIMITER && NoCapitals(text[b + 1..]) && Rfc3492.AllBasic(text[..b])
    requires Rfc3492.DecodeFrom(StateOf(Start(text[..b])), text[b + 1..]) == Some(s)
    ensures text == Encoded(s)
  {
    OnlySentDecode(s, text[..b], text[b + 1..]);
    assert text == text[..b] + [text[b]] + text[b + 1..];
  }

  lemma DecodedIsEncoded(text: seq<nat>, s: seq<nat>)
    requires NoCapitals(DigitPart(text)) && Rfc3492.Decode(text) == Some(s)
    ensures text == Encoded(s)
  {
    match Rfc3492.BeforeDelimiter(text)
    case None =>
      OnlySentDecode(s, [], text);
      assert [] + text == text;
    case Some(b) =>
      if b > 0 {
        OnlyHeadDecodes(text, b, s);
      } else {
        DelimiterIsNoDigit(Rfc3492.State(text[..b], INITIAL_N, 0, INITIAL_BIAS), text);
      }
  }

  /** Of all texts without capital letters in their digits, only the encoder's decodes to s. */
  lemma OnlyEncodedDecodes(text: seq<nat>, s: seq<nat>)
    requires NoCapitals(DigitPart(text))
    ensures Rfc3492.Decode(text) == Some(s) <==> text == Encoded(s)
  {
    DecodeEncoded(s);
    if Rfc3492.Decode(text) == Some(s) {
      DecodedIsEncoded(text, s);
    }
  }
}
