/** Labels whose Punycode form is known: two sample strings of section 7.1 of RFC 3492, and a word
    with three letters that are not ASCII. */
module PunycodeSamples {
  import opened Wrappers
  import opened Punycode
  import opened PunycodeRfc
  import opened PunycodeText
  import opened R = Rfc3492

  function Text(s: string): seq<nat> { seq(|s|, i requires 0 <= i < |s| => s[i] as nat) }

  lemma PrefixIsSpelled()
    ensures PREFIX == Text("xn--")
  {
  }

  function Splice(a: seq<nat>, pos: nat, n: nat): seq<nat>
    requires pos <= |a|
  {
    a[..pos] + [n] + a[pos..]
  }

  ghost predicate At(s: State, size: nat, n: nat, i: nat, bias: nat) {
    |s.output| == size && s.n == n && s.i == i && s.bias == bias
  }

  /** The decoder reads one integer and inserts n at the position. */
  ghost predicate Inserts(s: State, input: seq<nat>, s': State, rest: seq<nat>, n: nat, pos: nat, bias: nat) {
    && DecodeFrom(s, input) == DecodeFrom(s', rest)
    && pos <= |s.output| && s'.output == Splice(s.output, pos, n) && At(s', |s.output| + 1, n, pos + 1, bias)
  }

  /** What the sum says: the code point, its position, and the next bias. */
  predicate Wraps(n: nat, i: nat, sum: nat, points: nat, n': nat, pos: nat, bias: nat)
    requires i <= sum && points > 0
  {
    n + sum / points == n' && sum % points == pos && R.Adapt(sum - i, points, i == 0) == bias
  }

  /** The same from the quotients, so that no division is left to work out. */
  lemma WrapsTo(n: nat, i: nat, sum: nat, points: nat, q: nat, pos: nat, scaled: nat, share: nat, bias: nat)
    requires i <= sum && pos < points && sum == q * points + pos
    requires scaled == R.Scaled(sum - i, i == 0) && share * points <= scaled < share * points + points
    requires R.AdaptFrom(scaled + share, 0) == bias
    ensures Wraps(n, i, sum, points, n + q, pos, bias)
  {
    Quotient(sum, points, q, pos);
    Quotient(scaled, points, share, scaled - share * points);
  }

  lemma Quotient(a: nat, b: nat, q: nat, r: nat)
    requires r < b && a == q * b + r
    ensures a / b == q && a % b == r
  {
    Multiple(q, a / b, b, a);
  }

  lemma Multiple(q: nat, q': nat, b: nat, a: nat)
    requires q * b <= a < q * b + b && q' * b <= a < q' * b + b
    ensures q == q'
  {
    NextMultiple(q, q', b);
    NextMultiple(q', q, b);
  }

  lemma {:induction false} NextMultiple(q: nat, q': nat, b: nat)
    ensures q < q' ==> q * b + b <= q' * b
    decreases q'
  {
    if q < q' {
      NextMultiple(q, q' - 1, b);
      assert q' * b == (q' - 1) * b + b;
    }
  }

  lemma InsertOne(s: State, input: seq<nat>, sum: nat, rest: seq<nat>, n: nat, pos: nat, bias: nat, points: nat)
      returns (s': State)
    requires ReadInteger(input, s.i, 1, BASE, s.bias) == Some((sum, rest)) && s.i <= sum
    requires points == |s.output| + 1 && Wraps(s.n, s.i, sum, points, n, pos, bias)
    ensures Inserts(s, input, s', rest, n, pos, bias)
  {
    s' := s.Insert(sum);
  }

  lemma DigitsFollow(basic: seq<nat>, digits: seq<nat>)
    requires DELIMITER !in digits
    ensures DigitPart(HeadOf(basic) + digits) == digits
  {
    HeadEnds(basic, digits);
    assert (basic + [DELIMITER] + digits)[|basic| + 1..] == digits;
    assert [] + digits == digits;
  }

  /** If the digits decode to s, they are its encoding. */
  lemma DigitsAreEncoded(basic: seq<nat>, digits: seq<nat>, s: seq<nat>)
    requires AllBasic(basic) && DELIMITER !in digits && NoCapitals(digits)
    requires DecodeFrom(StateOf(Start(basic)), digits) == Some(s)
    ensures Encoded(s) == HeadOf(basic) + digits
  {
    DigitsFollow(basic, digits);
    DecodeParts(basic, digits);
    DecodedIsEncoded(HeadOf(basic) + digits, s);
  }

  // ---- uebergroesse, with umlauts and sharp s ----

  lemma Size1Wraps()
    ensures Wraps(128, 0, 670, 7, 223, 5, 0)
  {
    WrapsTo(128, 0, 670, 7, 95, 5, 0, 0, 0);
  }

  lemma Size1(s: State, input: seq<nat>) returns (s': State, rest: seq<nat>)
    requires At(s, 6, 128, 0, 72) && input == [102, 116, 97, 55, 112, 119, 98]
    ensures Inserts(s, input, s', rest, 223, 5, 0) && rest == [55, 112, 119, 98]
  {
    rest := [55, 112, 119, 98];
    assert ReadInteger([102, 116, 97, 55, 112, 119, 98], 0, 1, BASE, 72) == Some((670, [55, 112, 119, 98]));
    Size1Wraps();
    s' := InsertOne(s, input, 670, rest, 223, 5, 0, 7);
  }

  lemma Size2Wraps()
    ensures Wraps(223, 6, 189, 8, 246, 5, 26)
  {
    WrapsTo(223, 6, 189, 8, 23, 5, 91, 11, 26);
  }

  lemma Size2(s: State, input: seq<nat>) returns (s': State, rest: seq<nat>)
    requires At(s, 7, 223, 6, 0) && input == [55, 112, 119, 98]
    ensures Inserts(s, input, s', rest, 246, 5, 26) && rest == [119, 98]
  {
    rest := [119, 98];
    assert ReadInteger([55, 112, 119, 98], 6, 1, BASE, 0) == Some((189, [119, 98]));
    Size2Wraps();
    s' := InsertOne(s, input, 189, rest, 246, 5, 26, 8);
  }

  lemma Size3Wraps()
    ensures Wraps(246, 6, 54, 9, 252, 0, 14)
  {
    WrapsTo(246, 6, 54, 9, 6, 0, 24, 2, 14);
  }

  lemma Size3(s: State, input: seq<nat>) returns (s': State, rest: seq<nat>)
    requires At(s, 8, 246, 6, 26) && input == [119, 98]
    ensures Inserts(s, input, s', rest, 252, 0, 14) && rest == []
  {
    rest := [];
    assert ReadInteger([119, 98], 6, 1, BASE, 26) == Some((54, []));
    Size3Wraps();
    s' := InsertOne(s, input, 54, rest, 252, 0, 14, 9);
  }

  lemma SizeOutputs()
    ensures Splice([98, 101, 114, 103, 114, 101], 5, 223) == [98, 101, 114, 103, 114, 223, 101]
    ensures Splice([98, 101, 114, 103, 114, 223, 101], 5, 246) == [98, 101, 114, 103, 114, 246, 223, 101]
    ensures Splice([98, 101, 114, 103, 114, 246, 223, 101], 0, 252) == [252, 98, 101, 114, 103, 114, 246, 223, 101]
  {
  }

  lemma SizeDecodes(s: State, input: seq<nat>)
    requires At(s, 6, 128, 0, 72) && s.output == [98, 101, 114, 103, 114, 101] && input == [102, 116, 97, 55, 112,
             119, 98]
    ensures DecodeFrom(s, input) == Some([252, 98, 101, 114, 103, 114, 246, 223, 101])
  {
    SizeOutputs();
    var s1, rest1 := Size1(s, input);
    var s2, rest2 := Size2(s1, rest1);
    var s3, rest3 := Size3(s2, rest2);
  }

  lemma SizeDigits(basic: seq<nat>, digits: seq<nat>, s: seq<nat>)
    requires basic == [98, 101, 114, 103, 114, 101] && digits == [102, 116, 97, 55, 112, 119, 98]
    requires s == [252, 98, 101, 114, 103, 114, 246, 223, 101]
    ensures Encoded(s) == HeadOf(basic) + digits
  {
    SizeDecodes(StateOf(Start(basic)), digits);
    DigitsAreEncoded(basic, digits, s);
  }

  lemma SizeSpelled()
    ensures HeadOf([98, 101, 114, 103, 114, 101]) + [102, 116, 97, 55, 112, 119, 98] == Text("bergre-fta7pwb")
  {
  }

  lemma SizeIsEncoded()
    ensures Encoded([252, 98, 101, 114, 103, 114, 246, 223, 101]) == Text("bergre-fta7pwb")
  {
    SizeSpelled();
    SizeDigits([98, 101, 114, 103, 114, 101], [102, 116, 97, 55, 112, 119, 98], [252, 98, 101, 114, 103, 114, 246,
      223, 101]);
  }

  // ---- Sample (R) ----

  lemma Speed1Wraps()
    ensures Wraps(128, 0, 12253, 1, 12381, 0, 17)
  {
    WrapsTo(128, 0, 12253, 1, 12253, 0, 17, 17, 17);
  }

  lemma Speed1(s: State, input: seq<nat>) returns (s': State, rest: seq<nat>)
    requires At(s, 0, 128, 0, 72) && input == [100, 57, 106, 117, 97, 117, 52, 49, 97, 119, 99, 122, 99, 122, 112]
    ensures Inserts(s, input, s', rest, 12381, 0, 17) && rest == [117, 97, 117, 52, 49, 97, 119, 99, 122, 99, 122, 112]
  {
    rest := [117, 97, 117, 52, 49, 97, 119, 99, 122, 99, 122, 112];
    assert ReadInteger([100, 57, 106, 117, 97, 117, 52, 49, 97, 119, 99, 122, 99, 122, 112], 0, 1, BASE,
      72) == Some((12253, [117, 97, 117, 52, 49, 97, 119, 99, 122, 99, 122, 112]));
    Speed1Wraps();
    s' := InsertOne(s, input, 12253, rest, 12381, 0, 17, 1);
  }

  lemma Speed2Wraps()
    ensures Wraps(12381, 1, 21, 2, 12391, 1, 10)
  {
    WrapsTo(12381, 1, 21, 2, 10, 1, 10, 5, 10);
  }

  lemma Speed2(s: State, input: seq<nat>) returns (s': State, rest: seq<nat>)
    requires At(s, 1, 12381, 1, 17) && input == [117, 97, 117, 52, 49, 97, 119, 99, 122, 99, 122, 112]
    ensures Inserts(s, input, s', rest, 12391, 1, 10) && rest == [117, 52, 49, 97, 119, 99, 122, 99, 122, 112]
  {
    rest := [117, 52, 49, 97, 119, 99, 122, 99, 122, 112];
    assert ReadInteger([117, 97, 117, 52, 49, 97, 119, 99, 122, 99, 122, 112], 1, 1, BASE, 17) == Some((21, [117, 52,
      49, 97, 119, 99, 122, 99, 122, 112]));
    Speed2Wraps();
    s' := InsertOne(s, input, 21, rest, 12391, 1, 10, 2);
  }

  lemma Speed3Wraps()
    ensures Wraps(12391, 2, 22, 3, 12398, 1, 9)
  {
    WrapsTo(12391, 2, 22, 3, 7, 1, 10, 3, 9);
  }

  lemma Speed3(s: State, input: seq<nat>) returns (s': State, rest: seq<nat>)
    requires At(s, 2, 12391, 2, 10) && input == [117, 52, 49, 97, 119, 99, 122, 99, 122, 112]
    ensures Inserts(s, input, s', rest, 12398, 1, 9) && rest == [52, 49, 97, 119, 99, 122, 99, 122, 112]
  {
    rest := [52, 49, 97, 119, 99, 122, 99, 122, 112];
    assert ReadInteger([117, 52, 49, 97, 119, 99, 122, 99, 122, 112], 2, 1, BASE, 10) == Some((22, [52, 49, 97, 119,
      99, 122, 99, 122, 112]));
    Speed3Wraps();
    s' := InsertOne(s, input, 22, rest, 12398, 1, 9, 3);
  }

  lemma Speed4Wraps()
    ensures Wraps(12398, 2, 302, 4, 12473, 2, 29)
  {
    WrapsTo(12398, 2, 302, 4, 75, 2, 150, 37, 29);
  }

  lemma Speed4(s: State, input: seq<nat>) returns (s': State, rest: seq<nat>)
    requires At(s, 3, 12398, 2, 9) && input == [52, 49, 97, 119, 99, 122, 99, 122, 112]
    ensures Inserts(s, input, s', rest, 12473, 2, 29) && rest == [119, 99, 122, 99, 122, 112]
  {
    rest := [119, 99, 122, 99, 122, 112];
    assert ReadInteger([52, 49, 97, 119, 99, 122, 99, 122, 112], 2, 1, BASE, 9) == Some((302, [119, 99, 122, 99, 122,
      112]));
    Speed4Wraps();
    s' := InsertOne(s, input, 302, rest, 12473, 2, 29, 4);
  }

  lemma Speed5Wraps()
    ensures Wraps(12473, 3, 83, 5, 12489, 3, 20)
  {
    WrapsTo(12473, 3, 83, 5, 16, 3, 40, 8, 20);
  }

  lemma Speed5(s: State, input: seq<nat>) returns (s': State, rest: seq<nat>)
    requires At(s, 4, 12473, 3, 29) && input == [119, 99, 122, 99, 122, 112]
    ensures Inserts(s, input, s', rest, 12489, 3, 20) && rest == [122, 99, 122, 112]
  {
    rest := [122, 99, 122, 112];
    assert ReadInteger([119, 99, 122, 99, 122, 112], 3, 1, BASE, 29) == Some((83, [122, 99, 122, 112]));
    Speed5Wraps();
    s' := InsertOne(s, input, 83, rest, 12489, 3, 20, 5);
  }

  lemma Speed6Wraps()
    ensures Wraps(12489, 4, 69, 6, 12500, 3, 17)
  {
    WrapsTo(12489, 4, 69, 6, 11, 3, 32, 5, 17);
  }

  lemma Speed6(s: State, input: seq<nat>) returns (s': State, rest: seq<nat>)
    requires At(s, 5, 12489, 4, 20) && input == [122, 99, 122, 112]
    ensures Inserts(s, input, s', rest, 12500, 3, 17) && rest == [122, 112]
  {
    rest := [122, 112];
    assert ReadInteger([122, 99, 122, 112], 4, 1, BASE, 20) == Some((69, [122, 112]));
    Speed6Wraps();
    s' := InsertOne(s, input, 69, rest, 12500, 3, 17, 6);
  }

  lemma Speed7Wraps()
    ensures Wraps(12500, 4, 284, 7, 12540, 4, 29)
  {
    WrapsTo(12500, 4, 284, 7, 40, 4, 140, 20, 29);
  }

  lemma Speed7(s: State, input: seq<nat>) returns (s': State, rest: seq<nat>)
    requires At(s, 6, 12500, 4, 17) && input == [122, 112]
    ensures Inserts(s, input, s', rest, 12540, 4, 29) && rest == []
  {
    rest := [];
    assert ReadInteger([122, 112], 4, 1, BASE, 17) == Some((284, []));
    Speed7Wraps();
    s' := InsertOne(s, input, 284, rest, 12540, 4, 29, 7);
  }

  lemma SpeedOutputs()
    ensures Splice([], 0, 12381) == [12381]
    ensures Splice([12381], 1, 12391) == [12381, 12391]
    ensures Splice([12381, 12391], 1, 12398) == [12381, 12398, 12391]
    ensures Splice([12381, 12398, 12391], 2, 12473) == [12381, 12398, 12473, 12391]
    ensures Splice([12381, 12398, 12473, 12391], 3, 12489) == [12381, 12398, 12473, 12489, 12391]
    ensures Splice([12381, 12398, 12473, 12489, 12391], 3, 12500) == [12381, 12398, 12473, 12500, 12489, 12391]
    ensures Splice([12381, 12398, 12473, 12500, 12489, 12391], 4, 12540) == [12381, 12398, 12473, 12500, 12540, 12489,
            12391]
  {
  }

  lemma SpeedDecodes(s: State, input: seq<nat>)
    requires At(s, 0, 128, 0, 72) && s.output == [] && input == [100, 57, 106, 117, 97, 117, 52, 49, 97, 119, 99, 122,
             99, 122, 112]
    ensures DecodeFrom(s, input) == Some([12381, 12398, 12473, 12500, 12540, 12489, 12391])
  {
    SpeedOutputs();
    var s1, rest1 := Speed1(s, input);
    var s2, rest2 := Speed2(s1, rest1);
    var s3, rest3 := Speed3(s2, rest2);
    var s4, rest4 := Speed4(s3, rest3);
    var s5, rest5 := Speed5(s4, rest4);
    var s6, rest6 := Speed6(s5, rest5);
    var s7, rest7 := Speed7(s6, rest6);
  }

  lemma SpeedDigits(basic: seq<nat>, digits: seq<nat>, s: seq<nat>)
    requires basic == [] && digits == [100, 57, 106, 117, 97, 117, 52, 49, 97, 119, 99, 122, 99, 122, 112]
    requires s == [12381, 12398, 12473, 12500, 12540, 12489, 12391]
    ensures Encoded(s) == HeadOf(basic) + digits
  {
    SpeedDecodes(StateOf(Start(basic)), digits);
    DigitsAreEncoded(basic, digits, s);
  }

  lemma SpeedSpelled()
    ensures HeadOf([]) + [100, 57, 106, 117, 97, 117, 52, 49, 97, 119, 99, 122, 99, 122, 112] == Text("d9juau41awczczp")
  {
  }

  lemma SpeedIsEncoded()
    ensures Encoded([12381, 12398, 12473, 12500, 12540, 12489, 12391]) == Text("d9juau41awczczp")
  {
    SpeedSpelled();
    SpeedDigits([], [100, 57, 106, 117, 97, 117, 52, 49, 97, 119, 99, 122, 99, 122, 112], [12381, 12398, 12473, 12500,
      12540, 12489, 12391]);
  }

  // ---- Sample (P) ----

  lemma Koi1Wraps()
    ensures Wraps(128, 0, 110248, 9, 12377, 7, 29)
  {
    WrapsTo(128, 0, 110248, 9, 12249, 7, 157, 17, 29);
  }

  lemma Koi1(s: State, input: seq<nat>) returns (s': State, rest: seq<nat>)
    requires At(s, 8, 128, 0, 72) && input == [55, 56, 51, 103, 117, 101, 54, 113, 122, 48, 55, 53, 97, 122, 109, 53,
             101]
    ensures Inserts(s, input, s', rest, 12377, 7, 29) && rest == [117, 101, 54, 113, 122, 48, 55, 53, 97, 122, 109,
            53, 101]
  {
    rest := [117, 101, 54, 113, 122, 48, 55, 53, 97, 122, 109, 53, 101];
    assert ReadInteger([55, 56, 51, 103, 117, 101, 54, 113, 122, 48, 55, 53, 97, 122, 109, 53, 101], 0, 1, BASE,
      72) == Some((110248, [117, 101, 54, 113, 122, 48, 55, 53, 97, 122, 109, 53, 101]));
    Koi1Wraps();
    s' := InsertOne(s, input, 110248, rest, 12377, 7, 29, 9);
  }

  lemma Koi2Wraps()
    ensures Wraps(12377, 8, 144, 10, 12391, 4, 23)
  {
    WrapsTo(12377, 8, 144, 10, 14, 4, 68, 6, 23);
  }

  lemma Koi2(s: State, input: seq<nat>) returns (s': State, rest: seq<nat>)
    requires At(s, 9, 12377, 8, 29) && input == [117, 101, 54, 113, 122, 48, 55, 53, 97, 122, 109, 53, 101]
    ensures Inserts(s, input, s', rest, 12391, 4, 23) && rest == [54, 113, 122, 48, 55, 53, 97, 122, 109, 53, 101]
  {
    rest := [54, 113, 122, 48, 55, 53, 97, 122, 109, 53, 101];
    assert ReadInteger([117, 101, 54, 113, 122, 48, 55, 53, 97, 122, 109, 53, 101], 8, 1, BASE, 29) == Some((144, [54,
      113, 122, 48, 55, 53, 97, 122, 109, 53, 101]));
    Koi2Wraps();
    s' := InsertOne(s, input, 144, rest, 12391, 4, 23, 10);
  }

  lemma Koi3Wraps()
    ensures Wraps(12391, 5, 405, 11, 12427, 9, 30)
  {
    WrapsTo(12391, 5, 405, 11, 36, 9, 200, 18, 30);
  }

  lemma Koi3(s: State, input: seq<nat>) returns (s': State, rest: seq<nat>)
    requires At(s, 10, 12391, 5, 23) && input == [54, 113, 122, 48, 55, 53, 97, 122, 109, 53, 101]
    ensures Inserts(s, input, s', rest, 12427, 9, 30) && rest == [122, 48, 55, 53, 97, 122, 109, 53, 101]
  {
    rest := [122, 48, 55, 53, 97, 122, 109, 53, 101];
    assert ReadInteger([54, 113, 122, 48, 55, 53, 97, 122, 109, 53, 101], 5, 1, BASE, 23) == Some((405, [122, 48, 55,
      53, 97, 122, 109, 53, 101]));
    Koi3Wraps();
    s' := InsertOne(s, input, 405, rest, 12427, 9, 30, 11);
  }

  lemma Koi4Wraps()
    ensures Wraps(12427, 10, 103715, 12, 21069, 11, 91)
  {
    assert AdaptFrom(45, 72) == 91;
    assert AdaptFrom(1604, 36) == 91;
    WrapsTo(12427, 10, 103715, 12, 8642, 11, 51852, 4321, 91);
  }

  lemma Koi4(s: State, input: seq<nat>) returns (s': State, rest: seq<nat>)
    requires At(s, 11, 12427, 10, 30) && input == [122, 48, 55, 53, 97, 122, 109, 53, 101]
    ensures Inserts(s, input, s', rest, 21069, 11, 91) && rest == [122, 109, 53, 101]
  {
    rest := [122, 109, 53, 101];
    assert ReadInteger([122, 48, 55, 53, 97, 122, 109, 53, 101], 10, 1, BASE, 30) == Some((103715, [122, 109, 53,
      101]));
    Koi4Wraps();
    s' := InsertOne(s, input, 103715, rest, 21069, 11, 91, 12);
  }

  lemma Koi5Wraps()
    ensures Wraps(21069, 12, 131532, 13, 31186, 11, 93)
  {
    assert AdaptFrom(57, 72) == 93;
    assert AdaptFrom(2023, 36) == 93;
    WrapsTo(21069, 12, 131532, 13, 10117, 11, 65760, 5058, 93);
  }

  lemma Koi5(s: State, input: seq<nat>) returns (s': State, rest: seq<nat>)
    requires At(s, 12, 21069, 12, 91) && input == [122, 109, 53, 101]
    ensures Inserts(s, input, s', rest, 31186, 11, 93) && rest == []
  {
    rest := [];
    assert ReadInteger([122, 109, 53, 101], 12, 1, BASE, 91) == Some((131532, []));
    Koi5Wraps();
    s' := InsertOne(s, input, 131532, rest, 31186, 11, 93, 13);
  }

  lemma KoiOutputs()
    ensures Splice([77, 97, 106, 105, 75, 111, 105, 53], 7, 12377) == [77, 97, 106, 105, 75, 111, 105, 12377, 53]
    ensures Splice([77, 97, 106, 105, 75, 111, 105, 12377, 53], 4, 12391) == [77, 97, 106, 105, 12391, 75, 111, 105,
            12377, 53]
    ensures Splice([77, 97, 106, 105, 12391, 75, 111, 105, 12377, 53], 9, 12427) == [77, 97, 106, 105, 12391, 75, 111,
            105, 12377, 12427, 53]
    ensures Splice([77, 97, 106, 105, 12391, 75, 111, 105, 12377, 12427, 53], 11, 21069) == [77, 97, 106, 105, 12391,
            75, 111, 105, 12377, 12427, 53, 21069]
    ensures Splice([77, 97, 106, 105, 12391, 75, 111, 105, 12377, 12427, 53, 21069], 11, 31186) == [77, 97, 106, 105,
            12391, 75, 111, 105, 12377, 12427, 53, 31186, 21069]
  {
  }

  lemma KoiDecodes(s: State, input: seq<nat>)
    requires At(s, 8, 128, 0, 72) && s.output == [77, 97, 106, 105, 75, 111, 105, 53] && input == [55, 56, 51, 103,
             117, 101, 54, 113, 122, 48, 55, 53, 97, 122, 109, 53, 101]
    ensures DecodeFrom(s, input) == Some([77, 97, 106, 105, 12391, 75, 111, 105, 12377, 12427, 53, 31186, 21069])
  {
    KoiOutputs();
    var s1, rest1 := Koi1(s, input);
    var s2, rest2 := Koi2(s1, rest1);
    var s3, rest3 := Koi3(s2, rest2);
    var s4, rest4 := Koi4(s3, rest3);
    var s5, rest5 := Koi5(s4, rest4);
  }

  lemma KoiDigits(basic: seq<nat>, digits: seq<nat>, s: seq<nat>)
    requires basic == [77, 97, 106, 105, 75, 111, 105, 53] && digits == [55, 56, 51, 103, 117, 101, 54, 113, 122, 48,
             55, 53, 97, 122, 109, 53, 101]
    requires s == [77, 97, 106, 105, 12391, 75, 111, 105, 12377, 12427, 53, 31186, 21069]
    ensures Encoded(s) == HeadOf(basic) + digits
  {
    KoiDecodes(StateOf(Start(basic)), digits);
    DigitsAreEncoded(basic, digits, s);
  }

  lemma KoiSpelled()
    ensures HeadOf([77, 97, 106, 105, 75, 111, 105, 53]) + [55, 56, 51, 103, 117, 101, 54, 113, 122, 48, 55, 53, 97,
            122, 109, 53, 101] == Text("MajiKoi5-783gue6qz075azm5e")
  {
  }

  lemma KoiIsEncoded()
    ensures Encoded([77, 97, 106, 105, 12391, 75, 111, 105, 12377, 12427, 53, 31186,
            21069]) == Text("MajiKoi5-783gue6qz075azm5e")
  {
    KoiSpelled();
    KoiDigits([77, 97, 106, 105, 75, 111, 105, 53], [55, 56, 51, 103, 117, 101, 54, 113, 122, 48, 55, 53, 97, 122,
      109, 53, 101], [77, 97, 106, 105, 12391, 75, 111, 105, 12377, 12427, 53, 31186, 21069]);
  }
}
