/**
 * The conversion helpers of util.go: decimal text to int8 / int16 through
 * strconv.Atoi and a Go narrowing cast, and the int8 <-> bool encoding of
 * the AllowStopped flag.
 */
module Util {
  import opened GoLib

  /** Go's int8(v): keep the low 8 bits, read them as two's complement. */
  function Wrap8(v: int): (r: int8)
    ensures (r - v) % 256 == 0
    ensures -128 <= v < 128 ==> r == v
  {
    (v + 128) % 256 - 128
  }

  /** Go's int16(v): keep the low 16 bits, read them as two's complement. */
  function Wrap16(v: int): (r: int16)
    ensures (r - v) % 65536 == 0
    ensures -32768 <= v < 32768 ==> r == v
  {
    (v + 32768) % 65536 - 32768
  }

  /** StrToInt8 (util.go): Atoi, then wrap to int8; text Atoi rejects gives 0. */
  function StrToInt8(s: string): (r: int8)
  {
    match Atoi(s)
    case Some(v) => Wrap8(v)
    case None => 0
  }

  /** StrToInt16 (util.go): Atoi, then wrap to int16; text Atoi rejects gives 0. */
  function StrToInt16(s: string): (r: int16)
  {
    match Atoi(s)
    case Some(v) => Wrap16(v)
    case None => 0
  }

  /** Int8ToBool (util.go): only strictly positive values are true. */
  function Int8ToBool(i: int8): (b: bool)
    ensures b <==> i > 0
  {
    if i > 0 then true else false
  }

  /** BoolToInt (util.go): false is 0, true is 1, and Int8ToBool reads it back. */
  function BoolToInt(b: bool): (r: int)
    ensures r == 0 || r == 1
    ensures Int8ToBool(r) == b
  {
    if b == false then 0 else 1
  }

  /**
   * StrToInt8 gives 0 for text that is not a decimal integer, and otherwise
   * the one int8 congruent to the value modulo 256 (a wrap, not a clamp).
   */
  lemma StrToInt8Wraps(s: string)
    ensures Atoi(s).None? ==> StrToInt8(s) == 0
    ensures Atoi(s).Some? ==> (StrToInt8(s) - Atoi(s).value) % 256 == 0
    ensures Atoi(s).Some? && -128 <= Atoi(s).value < 128 ==> StrToInt8(s) == Atoi(s).value
  {
  }

  /**
   * StrToInt16 gives 0 for text that is not a decimal integer, and otherwise
   * the one int16 congruent to the value modulo 65536.
   */
  lemma StrToInt16Wraps(s: string)
    ensures Atoi(s).None? ==> StrToInt16(s) == 0
    ensures Atoi(s).Some? ==> (StrToInt16(s) - Atoi(s).value) % 65536 == 0
    ensures Atoi(s).Some? && -32768 <= Atoi(s).value < 32768 ==> StrToInt16(s) == Atoi(s).value
  {
  }

  /** Every int8 printed with %d is read back by StrToInt8 unchanged. */
  lemma StrToInt8RoundTrip(v: int8)
    ensures StrToInt8(IntToStr(v)) == v
  {
    AtoiIntToStr(v);
  }

  /** Every int16 printed with %d is read back by StrToInt16 unchanged. */
  lemma StrToInt16RoundTrip(v: int16)
    ensures StrToInt16(IntToStr(v)) == v
  {
    AtoiIntToStr(v);
  }

  /** The AllowStopped flag survives BoolToInt, %d, StrToInt8 and Int8ToBool. */
  lemma FlagRoundTrip(b: bool)
    ensures Int8ToBool(StrToInt8(IntToStr(BoolToInt(b)))) == b
  {
    StrToInt8RoundTrip(BoolToInt(b));
  }
}
