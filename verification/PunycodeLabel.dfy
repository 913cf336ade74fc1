/** uv__idna_toascii_label of libuv's src/idna.c, and what its output decodes to. */
module PunycodeLabel {
  import opened Wrappers
  import opened Punycode
  import opened PunycodeText
  import PunycodeRfc
  import Rfc3492

  // ---- The encoder ----

  /** What fits into the output buffer. */
  function Cut(text: seq<nat>, room: nat): seq<nat> { if |text| <= room then text else text[..room] }

  /** if (*d < de) *(*d)++ = c. */
  function Put(out: seq<nat>, room: nat, c: nat): seq<nat> { if |out| < room then out + [c] else out }

  lemma PutCut(full: seq<nat>, room: nat, c: nat)
    ensures Put(Cut(full, room), room, c) == Cut(full + [c], room)
  {
  }

  /** The rest of a number is still to be written. */
  ghost predicate ToWrite(goal: seq<nat>, full: seq<nat>, q: nat, k: nat, bias: nat) {
    goal == full + Letters(Digits(q, k, bias))
  }

  lemma DigitsStep(goal: seq<nat>, full: seq<nat>, q: nat, k: nat, bias: nat, t: nat)
    requires ToWrite(goal, full, q, k, bias) && t == Threshold(k, bias) <= q
    ensures var d, rest := t + Rem(q - t, 36 - t), Quot(q - t, 36 - t);
            rest < q && ToWrite(goal, full + [Letter(d)], rest, k + 36, bias)
  {
    var d, rest := t + Rem(q - t, 36 - t), Quot(q - t, 36 - t);
    DivisionUndone(q - t, 36 - t);
    LettersCons(full, d, Digits(rest, k + 36, bias));
  }

  lemma LettersCons(full: seq<nat>, d: nat, ds: seq<nat>)
    ensures full + Letters([d] + ds) == full + [Letter(d)] + Letters(ds)
  {
    assert Letters([d] + ds) == [Letter(d)] + Letters(ds);
  }

  lemma LastDigit(goal: seq<nat>, full: seq<nat>, q: nat, k: nat, bias: nat)
    requires ToWrite(goal, full, q, k, bias) && q < Threshold(k, bias)
    ensures goal == full + [Letter(q)]
  {
    assert Letters([q]) == [Letter(q)];
  }

  /** The loop that writes one number, least significant digit first. */
  method EmitNumber(out: seq<nat>, room: nat, delta: Word, bias: nat, ghost full: seq<nat>)
      returns (out': seq<nat>, ghost full': seq<nat>)
    requires out == Cut(full, room)
    ensures full' == full + Letters(Digits(delta, 36, bias)) && out' == Cut(full', room)
  {
    out', full' := out, full;
    var k: nat, q: nat := 36, delta;
    ghost var goal := full + Letters(Digits(delta, 36, bias));
    while true
      invariant 36 <= k
      invariant out' == Cut(full', room) && ToWrite(goal, full', q, k, bias)
      decreases q
    {
      var t := 1;
      if k > bias {
        t := k - bias;
      }
      if t > 26 {
        t := 26;
      }
      if q < t {
        break;
      }
      var x, y := q - t, 36 - t;
      DigitsStep(goal, full', q, k, bias, t);
      q, t := Quot(x, y), t + Rem(x, y);
      PutCut(full', room, Letter(t));
      out' := Put(out', room, Letter(t));
      full' := full' + [Letter(t)];
      k := k + 36;
    }
    LastDigit(goal, full', q, k, bias);
    PutCut(full', room, Letter(q));
    out' := Put(out', room, Letter(q));
    full' := full' + [Letter(q)];
  }

  /** The bias after a number; its intermediate sums fit into a word. */
  method AdaptBias(delta: Word, h: nat, first: bool) returns (bias: nat)
    requires h > 0
    ensures bias == Adapt(delta, h, first) == Rfc3492.Adapt(delta, h, first)
  {
    PunycodeRfc.SameAdapt(delta, h, first);
    var d := delta / 2;
    if first {
      d := d / 350;
    }
    assert first ==> d == delta / 700;
    ghost var halved := d;
    d := d + Quot(d, h);
    DivisionUndone(halved, h);
    assert d <= MAX_WORD;
    bias := 0;
    ghost var grown := d;
    while d > 455
      invariant d >= 0 && bias + Rounds(d) == Rounds(grown) && Damped(d) == Damped(grown)
    {
      d := d / 35;
      bias := bias + 36;
    }
    bias := bias + Quot(36 * d, d + 38);
  }

  // ---- One pass per code point ----

  /** The scan stands at position j of the pass for n; the decoder is in state d, behind the
      last code point sent, at position jd - 1. */
  ghost predicate Progress(s: seq<nat>, d: Decoder, jd: nat, n: nat, j: nat, h: nat, delta: int, first: bool,
                           bias: nat) {
    && InStep(s, d, jd) && d.n <= n && j <= |s| && SameAhead(s, d.n, jd, n, j)
    && h == |d.output| && bias == d.bias && first == (d.i == 0)
    && delta == Counted(s, d, n, j)
  }

  ghost function Left(s: seq<nat>, d: Decoder, jd: nat): seq<int> { Deltas(s, d.n, d.i, d.n, jd) }

  /** The text so far is the encoding of the gaps so far, which all fit into a word. */
  ghost predicate Written(goal: seq<nat>, gaps: seq<int>, s: seq<nat>, d: Decoder, jd: nat, done: seq<int>,
                          text: seq<nat>) {
    && gaps == done + Left(s, d, jd) && AllFit(done)
    && goal == text + Letters(EncodeAll(Left(s, d, jd), |d.output|, d.i == 0, d.bias))
  }

  ghost predicate AllFit(gaps: seq<int>) { forall k :: 0 <= k < |gaps| ==> gaps[k] <= MAX_WORD }

  lemma ScanPast(s: seq<nat>, d: Decoder, jd: nat, n: nat, j: nat, h: nat, delta: int, first: bool, bias: nat)
    requires Progress(s, d, jd, n, j, h, delta, first, bias) && j < |s| && s[j] != n
    ensures Progress(s, d, jd, n, j + 1, h, if s[j] < n then delta + 1 else delta, first, bias)
  {
    assert forall q :: 0 <= q < |s| ==> (Ahead(s, n, j, q) <==> Ahead(s, n, j + 1, q));
    PositionStep(s, n, j);
  }

  lemma ScanHit(s: seq<nat>, d: Decoder, jd: nat, n: nat, j: nat, h: nat, delta: int, first: bool, bias: nat)
    requires Progress(s, d, jd, n, j, h, delta, first, bias) && j < |s| && s[j] == n
    ensures IsNext(s, d.n, jd, j) && Gap(s, d.n, d.i, j) == delta >= 0
    ensures var d' := Insert(d, delta); Progress(s, d', j + 1, n, j + 1, h + 1, 0, false, Adapt(delta, h + 1, first))
  {
    assert IsNext(s, n, j, j);
    SameNext(s, n, j, d.n, jd, j);
    GapIsCount(s, d, jd, j);
    InsertNext(s, d, jd, j);
    CountStarts(s, Insert(d, delta), j + 1);
  }

  lemma LeftStep(s: seq<nat>, d: Decoder, jd: nat, p: nat)
    requires InStep(s, d, jd) && IsNext(s, d.n, jd, p)
    ensures var gap := Gap(s, d.n, d.i, p);
            gap >= 0 &&
            var d' := Insert(d, gap);
            && Left(s, d, jd) == [gap] + Left(s, d', p + 1)
            && |d'.output| == |d.output| + 1 && d'.i > 0 && d'.bias == Adapt(gap, |d.output| + 1, d.i == 0)
  {
    InsertNext(s, d, jd, p);
    DeltasNext(s, d.n, d.i, d.n, jd, p);
  }

  lemma WriteOne(goal: seq<nat>, gaps: seq<int>, s: seq<nat>, d: Decoder, jd: nat, p: nat, done: seq<int>,
                 text: seq<nat>)
    requires InStep(s, d, jd) && IsNext(s, d.n, jd, p) && Written(goal, gaps, s, d, jd, done, text)
    requires 0 <= Gap(s, d.n, d.i, p) <= MAX_WORD
    ensures var gap := Gap(s, d.n, d.i, p);
            Written(goal, gaps, s, Insert(d, gap), p + 1, done + [gap], text + Letters(Digits(gap, 36, d.bias)))
  {
    var gap := Gap(s, d.n, d.i, p);
    LeftStep(s, d, jd, p);
    WrittenMore(goal, gaps, done, text, gap, Left(s, Insert(d, gap), p + 1), |d.output|, d.i == 0, d.bias);
  }

  lemma WrittenMore(goal: seq<nat>, gaps: seq<int>, done: seq<int>, text: seq<nat>, gap: nat, rest: seq<int>,
                    points: nat, first: bool, bias: nat)
    requires gaps == done + ([gap] + rest) && AllFit(done) && gap <= MAX_WORD
    requires goal == text + Letters(EncodeAll([gap] + rest, points, first, bias))
    ensures gaps == done + [gap] + rest && AllFit(done + [gap])
    ensures goal == text + Letters(Digits(gap, 36, bias))
            + Letters(EncodeAll(rest, points + 1, false, Adapt(gap, points + 1, first)))
  {
    assert done + ([gap] + rest) == done + [gap] + rest;
    WriteGap(text, gap, rest, points, first, bias);
  }

  lemma WriteGap(text: seq<nat>, gap: nat, rest: seq<int>, points: nat, first: bool, bias: nat)
    ensures text + Letters(EncodeAll([gap] + rest, points, first, bias))
         == text + Letters(Digits(gap, 36, bias))
           + Letters(EncodeAll(rest, points + 1, false, Adapt(gap, points + 1, first)))
  {
    assert ([gap] + rest)[1..] == rest;
    LettersJoin(text, Digits(gap, 36, bias), EncodeAll(rest, points + 1, false, Adapt(gap, points + 1, first)));
  }

  lemma LettersJoin(text: seq<nat>, a: seq<nat>, b: seq<nat>)
    ensures text + Letters(a + b) == text + Letters(a) + Letters(b)
  {
    assert Letters(a + b) == Letters(a) + Letters(b);
  }

  lemma PassEnds(s: seq<nat>, d: Decoder, jd: nat, n: nat, h: nat, delta: int, first: bool, bias: nat)
    requires Progress(s, d, jd, n, |s|, h, delta, first, bias)
    ensures Progress(s, d, jd, n + 1, 0, h, delta + 1, first, bias)
  {
    assert forall q :: 0 <= q < |s| ==> (Ahead(s, n, |s|, q) <==> Ahead(s, n + 1, 0, q));
    KeptSame(s, d.n, jd, n, |s|, |s|);
  }

  lemma {:induction false} TimesAdd(a: nat, b: nat, y: nat)
    ensures Times(a + b, y) == Times(a, y) + Times(b, y)
  {
    if b > 0 {
      TimesAdd(a, b - 1, y);
    }
  }

  lemma PassSkips(s: seq<nat>, d: Decoder, jd: nat, n: nat, m: nat, h: nat, delta: int, first: bool, bias: nat)
    requires Progress(s, d, jd, n, 0, h, delta, first, bias)
    requires n <= m && forall q :: 0 <= q < |s| ==> s[q] < n || m <= s[q]
    ensures Progress(s, d, jd, m, 0, h, delta + Times(m - n, h + 1), first, bias)
  {
    assert forall q :: 0 <= q < |s| ==> (Ahead(s, n, 0, q) <==> Ahead(s, m, 0, q));
    TimesAdd(n - d.n, m - n, h + 1);
  }

  /** A count beyond a word, with code points still to send, means a gap beyond a word. */
  lemma TooFar(s: seq<nat>, d: Decoder, jd: nat, n: nat, j: nat, h: nat, delta: int, first: bool, bias: nat,
               gaps: seq<int>, done: seq<int>)
    requires Progress(s, d, jd, n, j, h, delta, first, bias) && gaps == done + Left(s, d, jd)
    requires h < |s| && delta > MAX_WORD
    ensures !AllFit(gaps)
  {
    KeptSame(s, d.n, jd, n, j, |s|);
    NothingNext(s, n, j);
    var p := TheNext(s, n, j);
    CountGrows(s, d, n, j, p);
    SameNext(s, n, j, d.n, jd, p);
    GapIsCount(s, d, jd, p);
    DeltasNext(s, d.n, d.i, d.n, jd, p);
    assert gaps[|done|] == Gap(s, d.n, d.i, p);
  }

  /** With nothing left to send, the count is at most the length of s. */
  lemma NothingLeftIsNear(s: seq<nat>, d: Decoder, jd: nat, n: nat, j: nat, h: nat, delta: int, first: bool, bias: nat)
    requires Progress(s, d, jd, n, j, h, delta, first, bias) && d.n == n
    ensures delta <= |s|
  {
  }

  lemma AllSent(goal: seq<nat>, gaps: seq<int>, s: seq<nat>, d: Decoder, jd: nat, done: seq<int>, text: seq<nat>)
    requires InStep(s, d, jd) && Written(goal, gaps, s, d, jd, done, text) && |d.output| == |s|
    ensures text == goal && AllFit(gaps)
  {
    NothingNext(s, d.n, jd);
    assert Letters([]) == [];
  }

  /** x > ~delta / y is the overflow check for delta + x * y. */
  lemma OverflowCheck(x: nat, y: nat, a: nat)
    requires y > 0
    ensures x > Quot(a, y) <==> Times(x, y) > a
  {
    DivisionUndone(a, y);
    MoreTimes(Quot(a, y), x, y);
    MoreTimes(x, Quot(a, y), y);
  }

  // ---- The method ----

  /** The count of sent code points, or an error. */
  datatype Result = Done(count: nat) | BadInput | TooBig

  /** Where the decoder of what has been written would stand. */
  datatype Sent = Sent(d: Decoder, jd: nat, done: seq<int>, text: seq<nat>)

  ghost predicate Ready(goal: seq<nat>, gaps: seq<int>, s: seq<nat>, g: Sent, n: nat, j: nat, h: nat, delta: int,
                        first: bool, bias: nat) {
    && Progress(s, g.d, g.jd, n, j, h, delta, first, bias)
    && Written(goal, gaps, s, g.d, g.jd, g.done, g.text)
  }

  lemma ReadyHit(goal: seq<nat>, gaps: seq<int>, s: seq<nat>, g: Sent, n: nat, j: nat, h: nat, delta: Word,
                 first: bool, bias: nat)
      returns (g': Sent)
    requires Ready(goal, gaps, s, g, n, j, h, delta, first, bias) && j < |s| && s[j] == n
    ensures Ready(goal, gaps, s, g', n, j + 1, h + 1, 0, false, Adapt(delta, h + 1, first))
    ensures g'.text == g.text + Letters(Digits(delta, 36, bias)) && g'.d.n == n
  {
    ScanHit(s, g.d, g.jd, n, j, h, delta, first, bias);
    InsertNext(s, g.d, g.jd, j);
    WriteOne(goal, gaps, s, g.d, g.jd, j, g.done, g.text);
    g' := Sent(Insert(g.d, delta), j + 1, g.done + [delta], g.text + Letters(Digits(delta, 36, bias)));
  }

  lemma ReadyPast(goal: seq<nat>, gaps: seq<int>, s: seq<nat>, g: Sent, n: nat, j: nat, h: nat, delta: Word,
                  first: bool, bias: nat)
    requires Ready(goal, gaps, s, g, n, j, h, delta, first, bias) && j < |s| && s[j] != n
    ensures Ready(goal, gaps, s, g, n, j + 1, h, if s[j] < n then delta + 1 else delta, first, bias)
  {
    ScanPast(s, g.d, g.jd, n, j, h, delta, first, bias);
  }

  /** An overflow in the middle of a pass: something is left to send, and its gap is too big. */
  lemma ReadyOverflow(goal: seq<nat>, gaps: seq<int>, s: seq<nat>, g: Sent, n: nat, j: nat, h: nat, first: bool,
                      bias: nat)
    requires Ready(goal, gaps, s, g, n, j, h, MAX_WORD, first, bias) && j < |s| && s[j] < n
    requires |s| < MAX_WORD && (h == |s| ==> g.d.n == n)
    ensures !AllFit(gaps)
  {
    ScanPast(s, g.d, g.jd, n, j, h, MAX_WORD, first, bias);
    if g.d.n == n {
      NothingLeftIsNear(s, g.d, g.jd, n, j, h, MAX_WORD, first, bias);
    }
    KeptLonger(s, g.d.n, g.jd, 0);
    TooFar(s, g.d, g.jd, n, j + 1, h, MAX_WORD + 1, first, bias, gaps, g.done);
  }

  /** Writes the number for the code point at j and adapts the bias. */
  method SendPoint(s: seq<nat>, room: nat, n: nat, j: nat, out: seq<nat>, h: nat, delta: Word, first: bool, bias: nat,
                   ghost goal: seq<nat>, ghost gaps: seq<int>, ghost g: Sent)
      returns (out': seq<nat>, bias': nat, ghost g': Sent)
    requires Ready(goal, gaps, s, g, n, j, h, delta, first, bias) && j < |s| && s[j] == n
             && out == Cut(PREFIX + g.text, room)
    ensures Ready(goal, gaps, s, g', n, j + 1, h + 1, 0, false, bias') && out' == Cut(PREFIX + g'.text, room)
            && g'.d.n == n
  {
    g' := ReadyHit(goal, gaps, s, g, n, j, h, delta, first, bias);
    assert PREFIX + g'.text == PREFIX + g.text + Letters(Digits(delta, 36, bias));
    ghost var full;
    out', full := EmitNumber(out, room, delta, bias, PREFIX + g.text);
    bias' := AdaptBias(delta, h + 1, first);
  }

  /** One pass over the input for the code point n. */
  method ScanPass(s: seq<nat>, room: nat, n: nat, out: seq<nat>, h: nat, delta: Word, first: bool, bias: nat,
                  ghost goal: seq<nat>, ghost gaps: seq<int>, ghost g: Sent)
      returns (ok: bool, out': seq<nat>, h': nat, delta': Word, first': bool, bias': nat, ghost g': Sent)
    requires |s| < MAX_WORD && h < |s|
    requires Ready(goal, gaps, s, g, n, 0, h, delta, first, bias) && out == Cut(PREFIX + g.text, room)
    ensures !ok ==> !AllFit(gaps)
    ensures ok ==> Ready(goal, gaps, s, g', n, |s|, h', delta', first', bias') && h <= h' <= |s|
    ensures out' == Cut(PREFIX + g'.text, room)
    ensures ok && n in s ==> h < h' && delta' < MAX_WORD
  {
    out', h', delta', first', bias', g' := out, h, delta, first, bias, g;
    var j := 0;
    while j < |s|
      invariant j <= |s| && h <= h'
      invariant Ready(goal, gaps, s, g', n, j, h', delta', first', bias') && out' == Cut(PREFIX + g'.text, room)
      invariant forall q :: 0 <= q < j && s[q] == n ==> h < h'
      invariant h < h' ==> g'.d.n == n
    {
      var c := s[j];
      if c == n {
        out', bias', g' := SendPoint(s, room, n, j, out', h', delta', first', bias', goal, gaps, g');
        h', delta', first' := h' + 1, 0, false;
      } else if c < n {
        if delta' == MAX_WORD {
          ReadyOverflow(goal, gaps, s, g', n, j, h', first', bias');
          return false, out', h', delta', first', bias', g';
        }
        ReadyPast(goal, gaps, s, g', n, j, h', delta', first', bias');
        delta' := delta' + 1;
      } else {
        ReadyPast(goal, gaps, s, g', n, j, h', delta', first', bias');
      }
      j := j + 1;
    }
    if h < h' {
      NothingLeftIsNear(s, g'.d, g'.jd, n, |s|, h', delta', first', bias');
    }
    ok := true;
  }

  /** The first loop: ASCII characters and others, up to the first malformed one. */
  method CountPoints(s: seq<Word>) returns (ok: bool, h: nat, todo: nat)
    ensures ok <==> INVALID !in s
    ensures ok ==> h == |Basic(s)| && todo == |s| - h
  {
    h, todo := 0, 0;
    for i := 0 to |s|
      invariant h == |Below(s, INITIAL_N, 0, i)| && todo == i - h && INVALID !in s[..i]
    {
      assert s[..i + 1] == s[..i] + [s[i]];
      if s[i] < 128 {
        h := h + 1;
      } else if s[i] == INVALID {
        return false, h, todo;
      } else {
        todo := todo + 1;
      }
    }
    assert s[..|s|] == s;
    ok := true;
  }

  lemma {:induction false} BelowGrows(s: seq<nat>, n: nat, t: nat)
    requires t <= |s|
    ensures Below(s, n, 0, t) <= Kept(s, n, 0)
    decreases |s| - t
  {
    if t < |s| {
      BelowGrows(s, n, t + 1);
    }
  }

  /** The second loop: the ASCII characters, stopping after the last one. */
  method CopyBasic(s: seq<Word>, room: nat, h: nat, out: seq<nat>, ghost full: seq<nat>) returns (out': seq<nat>)
    requires out == Cut(full, room) && h == |Basic(s)|
    ensures out' == Cut(full + Basic(s), room)
  {
    out' := out;
    var x := 0;
    assert full + [] == full;
    for i := 0 to |s|
      invariant x == |Below(s, INITIAL_N, 0, i)| && out' == Cut(full + Below(s, INITIAL_N, 0, i), room)
    {
      if s[i] <= 127 {
        PutCut(full + Below(s, INITIAL_N, 0, i), room, s[i]);
        assert full + Below(s, INITIAL_N, 0, i + 1) == full + Below(s, INITIAL_N, 0, i) + [s[i]];
        out' := Put(out', room, s[i]);
        x := x + 1;
        if x == h {
          BelowGrows(s, INITIAL_N, i + 1);
          return;
        }
      }
    }
  }

  /** The smallest code point from n on. */
  method SmallestFrom(s: seq<Word>, n: nat) returns (m: Word)
    requires INVALID !in s && exists q :: 0 <= q < |s| && s[q] >= n
    ensures n <= m < INVALID && m in s && forall q :: 0 <= q < |s| ==> s[q] < n || m <= s[q]
  {
    m := INVALID;
    for i := 0 to |s|
      invariant forall q :: 0 <= q < i ==> s[q] < n || m <= s[q]
      invariant m == INVALID || (n <= m && m in s)
    {
      if s[i] >= n && s[i] < m {
        m := s[i];
      }
    }
    ghost var q :| 0 <= q < |s| && s[q] >= n;
    assert s[q] in s;
  }

  lemma SomethingFrom(s: seq<nat>, d: Decoder, jd: nat, n: nat, h: nat, delta: int, first: bool, bias: nat)
    requires Progress(s, d, jd, n, 0, h, delta, first, bias) && h < |s|
    ensures exists q :: 0 <= q < |s| && s[q] >= n
  {
    KeptSame(s, d.n, jd, n, 0, |s|);
    NothingNext(s, n, 0);
    assert Ahead(s, n, 0, TheNext(s, n, 0));
  }

  /** delta += (m - n) * (h + 1), unless that overflows. */
  method SkipTo(s: seq<Word>, n: nat, m: Word, h: nat, delta: Word, first: bool, bias: nat,
                ghost goal: seq<nat>, ghost gaps: seq<int>, ghost g: Sent) returns (ok: bool, delta': Word)
    requires Ready(goal, gaps, s, g, n, 0, h, delta, first, bias) && h < |s|
    requires n <= m && forall q :: 0 <= q < |s| ==> s[q] < n || m <= s[q]
    ensures if ok then Ready(goal, gaps, s, g, m, 0, h, delta', first, bias) else !AllFit(gaps)
  {
    var x, y := m - n, h + 1;
    PassSkips(s, g.d, g.jd, n, m, h, delta, first, bias);
    OverflowCheck(x, y, MAX_WORD - delta);
    if x > Quot(MAX_WORD - delta, y) {
      TooFar(s, g.d, g.jd, m, 0, h, delta + Times(x, y), first, bias, gaps, g.done);
      return false, delta;
    }
    return true, delta + Times(x, y);
  }

  lemma StartReady(s: seq<nat>)
    ensures Ready(Encoded(s), Gaps(s), s, Sent(Decoder(Basic(s), INITIAL_N, 0, INITIAL_BIAS), 0, [], Head(s)),
            INITIAL_N, 0, |Basic(s)|, 0, true, INITIAL_BIAS)
  {
    assert Gaps(s) == [] + Gaps(s);
  }

  /** The main loop: one pass per code point, in increasing order. */
  method SendPoints(s: seq<Word>, room: nat, start: seq<nat>, basic: nat)
      returns (ok: bool, out: seq<nat>, ghost text: seq<nat>)
    requires |s| < MAX_WORD && INVALID !in s && start == Cut(PREFIX + Head(s), room) && basic == |Basic(s)|
    ensures ok == AllFit(Gaps(s)) && out == Cut(PREFIX + text, room)
    ensures ok ==> text == Encoded(s)
  {
    ghost var goal, gaps := Encoded(s), Gaps(s);
    var n, bias, first := 128, 72, true;
    var delta: Word, h: nat := 0, basic;
    out := start;
    ghost var g := Sent(Decoder(Basic(s), 128, 0, 72), 0, [], Head(s));
    StartReady(s);
    while h < |s|
      invariant Ready(goal, gaps, s, g, n, 0, h, delta, first, bias) && h <= |s|
      invariant out == Cut(PREFIX + g.text, room)
      decreases |s| - h
    {
      SomethingFrom(s, g.d, g.jd, n, h, delta, first, bias);
      var m := SmallestFrom(s, n);
      ok, delta := SkipTo(s, n, m, h, delta, first, bias, goal, gaps, g);
      if !ok {
        return ok, out, g.text;
      }
      ok, out, h, delta, first, bias, g := ScanPass(s, room, m, out, h, delta, first, bias, goal, gaps, g);
      if !ok {
        return ok, out, g.text;
      }
      PassEnds(s, g.d, g.jd, m, h, delta, first, bias);
      delta, n := delta + 1, m + 1;
    }
    AllSent(goal, gaps, s, g.d, g.jd, g.done, g.text);
    return true, out, g.text;
  }

  /** uv__idna_toascii_label on decoded code points, into a buffer with the given room: the
      output is what fits of a label whose Punycode form decodes to the input. */
  method ToAsciiLabel(s: seq<Word>, room: nat) returns (r: Result, out: seq<nat>)
    requires |s| < MAX_WORD
    ensures r.BadInput? <==> INVALID in s
    ensures r.TooBig? <==> INVALID !in s && !AllFit(Gaps(s))
    ensures r.Done? && Basic(s) == s ==> r.count == |s| && out == Cut(s, room)
    ensures r.Done? && Basic(s) != s
            ==> r.count == 0 && out == Cut(PREFIX + Encoded(s), room) && Rfc3492.Decode(Encoded(s)) == Some(s)
  {
    var ok, h, todo := CountPoints(s);
    if !ok {
      return BadInput, [];
    }
    KeptAll(s, INITIAL_N, 0, |s|);
    assert s[..|s|] == s;
    out := [];
    if todo > 0 {
      out := PutAll(out, room, PREFIX, []);
    }
    ghost var full := if todo > 0 then PREFIX else [];
    out := CopyBasic(s, room, h, out, full);
    if todo == 0 {
      NoGaps(s);
      assert [] + s == s;
      return Done(h), out;
    }
    if h > 0 {
      PutCut(PREFIX + Basic(s), room, DELIMITER);
      out := Put(out, room, DELIMITER);
    }
    assert PREFIX + Head(s) == if h > 0 then PREFIX + Basic(s) + [DELIMITER] else PREFIX + Basic(s);
    ghost var text;
    ok, out, text := SendPoints(s, room, out, h);
    DecodeEncoded(s);
    r := if ok then Done(0) else TooBig;
  }

  /** A literal, character by character. */
  method PutAll(out: seq<nat>, room: nat, text: seq<nat>, ghost full: seq<nat>) returns (out': seq<nat>)
    requires out == Cut(full, room)
    ensures out' == Cut(full + text, room)
  {
    out' := out;
    assert full + text[..0] == full;
    for i := 0 to |text|
      invariant out' == Cut(full + text[..i], room)
    {
      PutCut(full + text[..i], room, text[i]);
      assert full + text[..i + 1] == full + text[..i] + [text[i]];
      out' := Put(out', room, text[i]);
    }
    assert text[..|text|] == text;
  }

  lemma NoGaps(s: seq<nat>)
    requires |Basic(s)| == |s|
    ensures Gaps(s) == []
  {
    NothingNext(s, INITIAL_N, 0);
  }

  // ---- Real labels fit ----

  lemma {:induction false} TimesWider(x: nat, y: nat, z: nat)
    requires y <= z
    ensures Times(x, y) <= Times(x, z)
  {
    if x > 0 {
      TimesWider(x - 1, y, z);
    }
  }

  lemma GapFits(s: seq<nat>, n0: nat, i0: nat, n: nat, j: nat, p: nat, top: nat)
    requires IsNext(s, n, j, p) && s[p] <= top && Times(top, |s|) + |s| <= MAX_WORD
    ensures Gap(s, n0, i0, p) <= MAX_WORD
  {
    NextIsKept(s, n, j, p);
    KeptInsert(s, s[p], p, |s|);
    StepsFit(n0, i0, s[p], |Kept(s, s[p], p)|, Position(s, s[p], p), top, |s|);
  }

  lemma StepsFit(n0: nat, i0: nat, n: nat, kept: nat, pos: nat, top: nat, size: nat)
    requires pos <= kept < size && n <= top && Times(top, size) + size <= MAX_WORD
    ensures Steps(n0, i0, n, kept, pos) <= MAX_WORD
  {
    var skipped := if n0 <= n then n - n0 else 0;
    MoreTimes(skipped, top, size);
    TimesWider(skipped, kept + 1, size);
  }

  lemma {:induction false} GapsFit(s: seq<nat>, n0: nat, i0: nat, n: nat, j: nat, top: nat)
    requires (forall q :: 0 <= q < |s| ==> s[q] <= top) && Times(top, |s|) + |s| <= MAX_WORD
    ensures AllFit(Deltas(s, n0, i0, n, j))
    decreases |s| - |Kept(s, n, j)|
  {
    if HasNext(s, n, j) {
      var p := TheNext(s, n, j);
      NextIsKept(s, n, j, p);
      DeltasNext(s, n0, i0, n, j, p);
      GapFits(s, n0, i0, n, j, p, top);
      GapsFit(s, s[p], Position(s, s[p], p) + 1, s[p], p + 1, top);
    }
  }

  /** No label of up to 3800 Unicode code points is too big. */
  lemma LabelsFit(s: seq<nat>)
    requires |s| <= 3800 && forall q :: 0 <= q < |s| ==> s[q] <= 0x10FFFF
    ensures AllFit(Gaps(s))
  {
    TimesIsProduct(0x10FFFF, |s|);
    GapsFit(s, INITIAL_N, 0, INITIAL_N, 0, 0x10FFFF);
  }
}
