/** Variable-length integers and length-prefixed strings of util/coding.cc. */
module Coding {
  import opened Wrappers
  import opened LogFormat

  const LONG_LIMIT := 0x1_0000_0000_0000_0000
  type Long = x: int | 0 <= x < LONG_LIMIT

  /** A value and the input behind it. */
  datatype Parsed<+T> = Parsed(value: T, rest: seq<Byte>)

  function Got(value: nat, rest: seq<Byte>): Option<Parsed<nat>> { Some(Parsed(value, rest)) }

  // ---- Writing ----

  /** Seven bits a byte, low bits first; all bytes but the last have the high bit set. */
  function Varint(v: nat): (bytes: seq<Byte>)
    ensures 1 <= |bytes|
  {
    if v < 128 then [v] else [v % 128 + 128] + Varint(v / 128)
  }

  /** v | B, stored in one byte. */
  function WithMore(v: nat): Byte { v % 128 + 128 }

  lemma VarintShifts(v: nat)
    ensures v / 0x80 / 0x80 == v / 0x4000 && v / 0x4000 / 0x80 == v / 0x20_0000
            && v / 0x20_0000 / 0x80 == v / 0x1000_0000
  {
  }

  /** EncodeVarint32 and PutVarint32, unrolled. */
  method PutVarint32(dst: seq<Byte>, v: Word) returns (dst': seq<Byte>)
    ensures dst' == dst + Varint(v)
  {
    VarintShifts(v);
    var v1, v2, v3, v4 := v / 0x80, v / 0x4000, v / 0x20_0000, v / 0x1000_0000;
    var buf: seq<Byte>;
    if v < 0x80 {
      buf := [v];
    } else if v < 0x4000 {
      buf := [WithMore(v), v1];
    } else if v < 0x20_0000 {
      buf := [WithMore(v), WithMore(v1), v2];
    } else if v < 0x1000_0000 {
      buf := [WithMore(v), WithMore(v1), WithMore(v2), v3];
    } else {
      buf := [WithMore(v), WithMore(v1), WithMore(v2), WithMore(v3), v4];
    }
    VarintUnrolled(v, v1, v2, v3, v4);
    dst' := dst + buf;
  }

  lemma VarintUnrolled(v: nat, v1: nat, v2: nat, v3: nat, v4: nat)
    requires v < WORD_LIMIT && v1 == v / 0x80 && v2 == v1 / 0x80 && v3 == v2 / 0x80 && v4 == v3 / 0x80
    ensures Varint(v) == if v < 0x80 then [v]
                         else if v < 0x4000 then [WithMore(v), v1]
                         else if v < 0x20_0000 then [WithMore(v), WithMore(v1), v2]
                         else if v < 0x1000_0000 then [WithMore(v), WithMore(v1), WithMore(v2), v3]
                         else [WithMore(v), WithMore(v1), WithMore(v2), WithMore(v3), v4]
  {
    assert v4 < 0x80;
    assert Varint(v3) == if v3 < 0x80 then [v3] else [WithMore(v3)] + Varint(v4);
    assert Varint(v2) == if v2 < 0x80 then [v2] else [WithMore(v2)] + Varint(v3);
    assert Varint(v1) == if v1 < 0x80 then [v1] else [WithMore(v1)] + Varint(v2);
    assert Varint(v) == if v < 0x80 then [v] else [WithMore(v)] + Varint(v1);
  }

  /** EncodeVarint64 and PutVarint64. */
  method PutVarint64(dst: seq<Byte>, v: Long) returns (dst': seq<Byte>)
    ensures dst' == dst + Varint(v)
  {
    var left: nat := v;
    dst' := dst;
    while left >= 128
      invariant dst' + Varint(left) == dst + Varint(v)
    {
      assert dst' + [left % 128 + 128] + Varint(left / 128) == dst' + ([left % 128 + 128] + Varint(left / 128));
      dst' := dst' + [left % 128 + 128];
      left := left / 128;
    }
    dst' := dst' + [left];
  }

  /** PutLengthPrefixedSlice stores the length in 32 bits. */
  function LengthPrefixed(value: seq<Byte>): seq<Byte> { Varint(|value| % WORD_LIMIT) + value }

  // ---- Reading ----

  /** The number in the first bytes, which are at most `most`. */
  function ParseVarint(input: seq<Byte>, most: nat): (r: Option<Parsed<nat>>)
    ensures r.Some? ==> |r.value.rest| < |input|
  {
    if most == 0 || input == [] then None
    else if input[0] < 128 then Got(input[0], input[1..])
    else
      match ParseVarint(input[1..], most - 1)
      case None => None
      case Some(p) => Got(input[0] - 128 + 128 * p.value, p.rest)
  }

  /** Unsigned arithmetic of 64 or 32 bits. */
  function Wrap(x: nat, wide: bool): nat { if wide then x % LONG_LIMIT else x % WORD_LIMIT }

  lemma WrapAdds(a: nat, b: nat, wide: bool)
    ensures Wrap(Wrap(a, wide) + b, wide) == Wrap(a + b, wide)
  {
  }

  /** Five bytes for 32 bits, ten for 64; bits above are cut off. */
  function MostBytes(wide: bool): nat { if wide then 10 else 5 }

  function Wrapped(r: Option<Parsed<nat>>, wide: bool): Option<Parsed<nat>> {
    match r
    case None => None
    case Some(p) => Got(Wrap(p.value, wide), p.rest)
  }

  function GetNumber(input: seq<Byte>, wide: bool): (r: Option<Parsed<nat>>)
    ensures r.Some? ==> |r.value.rest| < |input|
  {
    Wrapped(ParseVarint(input, MostBytes(wide)), wide)
  }

  /** The loop so far: `result` holds the bits below `power`. */
  ghost predicate Reading(goal: Option<Parsed<nat>>, input: seq<Byte>, left: nat, result: nat, power: nat, wide: bool) {
    goal == match ParseVarint(input, left)
            case None => None
            case Some(p) => Got(Wrap(result + power * p.value, wide), p.rest)
  }

  lemma ReadOneByte(goal: Option<Parsed<nat>>, input: seq<Byte>, left: nat, result: nat, power: nat, wide: bool)
    requires Reading(goal, input, left, result, power, wide) && left > 0 && input != []
    ensures var result' := Wrap(result + power * (input[0] % 128), wide);
            if input[0] < 128 then goal == Got(result', input[1..])
            else Reading(goal, input[1..], left - 1, result', power * 128, wide)
  {
    var b := input[0] % 128;
    var next := ParseVarint(input[1..], left - 1);
    if input[0] >= 128 && next.Some? {
      var v := next.value.value;
      Distributes(power, b, v);
      Together(result, power, b, v, wide);
    }
  }

  lemma Distributes(power: nat, b: nat, v: nat)
    ensures power * (b + 128 * v) == power * b + power * 128 * v
  {
  }

  lemma Together(result: nat, power: nat, b: nat, v: nat, wide: bool)
    requires power * (b + 128 * v) == power * b + power * 128 * v
    ensures Wrap(Wrap(result + power * b, wide) + power * 128 * v, wide) == Wrap(result + power * (b + 128 * v), wide)
  {
    WrapAdds(result + power * b, power * 128 * v, wide);
  }

  /** GetVarint32Ptr and GetVarint64Ptr: shifts by 0, 7, ... as long as the limit allows. */
  method GetVarint(input: seq<Byte>, wide: bool) returns (r: Option<Parsed<nat>>)
    ensures r == GetNumber(input, wide)
  {
    var result: nat, power: nat, left, rest := 0, 1, MostBytes(wide), input;
    while left > 0 && rest != []
      invariant Reading(GetNumber(input, wide), rest, left, result, power, wide)
      decreases left
    {
      ReadOneByte(GetNumber(input, wide), rest, left, result, power, wide);
      var byte := rest[0];
      rest, left := rest[1..], left - 1;
      result := Wrap(result + power * (byte % 128), wide);
      if byte < 128 {
        return Got(result, rest);
      }
      power := power * 128;
    }
    return None;
  }

  /** GetLengthPrefixedSlice. */
  function LengthPrefixedSlice(input: seq<Byte>): (r: Option<Parsed<seq<Byte>>>)
    ensures r.Some? ==> |r.value.rest| < |input|
  {
    match GetNumber(input, false)
    case None => None
    case Some(p) => if p.value <= |p.rest| then Some(Parsed(p.rest[..p.value], p.rest[p.value..])) else None
  }

  // ---- Round trips ----

  function Power128(n: nat): nat { if n == 0 then 1 else 128 * Power128(n - 1) }

  lemma {:induction false} VarintIsParsed(v: nat, rest: seq<Byte>, most: nat)
    requires most > 0 && v < Power128(most)
    ensures ParseVarint(Varint(v) + rest, most) == Got(v, rest)
    decreases most
  {
    var input := Varint(v) + rest;
    if v < 128 {
      assert input[1..] == rest;
    } else {
      VarintIsParsed(v / 128, rest, most - 1);
      assert input[1..] == Varint(v / 128) + rest;
    }
  }

  lemma Limits(wide: bool)
    ensures Power128(MostBytes(wide)) > if wide then LONG_LIMIT else WORD_LIMIT
  {
    assert Power128(5) == 0x8_0000_0000;
    assert Power128(10) == 0x40_0000_0000_0000_0000;
  }

  /** A number that fits is read back. */
  lemma NumberIsRead(v: nat, rest: seq<Byte>, wide: bool)
    requires v < if wide then LONG_LIMIT else WORD_LIMIT
    ensures GetNumber(Varint(v) + rest, wide) == Got(v, rest)
  {
    Limits(wide);
    VarintIsParsed(v, rest, MostBytes(wide));
  }

  /** A string is read back exactly if its length fits into 32 bits. */
  lemma LengthPrefixedReadIff(value: seq<Byte>, rest: seq<Byte>)
    ensures LengthPrefixedSlice(LengthPrefixed(value) + rest) == Some(Parsed(value, rest)) <==> |value| < WORD_LIMIT
  {
    var len := |value| % WORD_LIMIT;
    assert LengthPrefixed(value) + rest == Varint(len) + (value + rest);
    NumberIsRead(len, value + rest, false);
    assert |value| < WORD_LIMIT ==> (value + rest)[..len] == value && (value + rest)[len..] == rest;
    assert |value| >= WORD_LIMIT ==> |(value + rest)[..len]| < |value|;
  }
}
