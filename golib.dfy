/**
 * Models of the pieces of the Go runtime and standard library that the
 * fan-controller protocol code calls: the fixed-width integer types,
 * strconv.Atoi, fmt's %d verb, and the strings.Split / Join / HasPrefix /
 * TrimPrefix / Trim functions.  A Go string is a sequence of bytes; here it
 * is a `string` whose characters stand for those bytes.
 */
module GoLib {

  type byte = x: int | 0 <= x < 256
  type int8 = x: int | -128 <= x < 128
  type int16 = x: int | -32768 <= x < 32768

  const MinInt64: int := -0x8000_0000_0000_0000
  const MaxInt64: int := 0x7FFF_FFFF_FFFF_FFFF

  datatype Option<+T> = None | Some(value: T)

  // ---------------------------------------------------------------------
  // Bytes and strings

  /** string(d): every byte becomes the character with that code. */
  function BytesToString(d: seq<byte>): (s: string)
    ensures |s| == |d|
    ensures forall i :: 0 <= i < |d| ==> s[i] as int == d[i]
  {
    seq(|d|, i requires 0 <= i < |d| => d[i] as char)
  }

  /** []byte(s): the bytes of a string whose characters are all bytes. */
  function StringToBytes(s: string): (d: seq<byte>)
    ensures |d| == |s|
    ensures forall i :: 0 <= i < |s| ==> d[i] == (s[i] as int) % 256
  {
    seq(|s|, i requires 0 <= i < |s| => (s[i] as int) % 256)
  }

  predicate IsByteString(s: string) {
    forall i :: 0 <= i < |s| ==> s[i] as int < 256
  }

  lemma BytesStringRoundTrip(s: string)
    requires IsByteString(s)
    ensures BytesToString(StringToBytes(s)) == s
  {
  }

  // ---------------------------------------------------------------------
  // strconv.Atoi

  predicate IsDigit(c: char) { '0' <= c <= '9' }

  predicate AllDigits(s: string) {
    forall i :: 0 <= i < |s| ==> IsDigit(s[i])
  }

  /** The value of a run of decimal digits, most significant first. */
  function DigitsValue(s: string): nat
    requires AllDigits(s)
    decreases |s|
  {
    if s == [] then 0
    else DigitsValue(s[..|s| - 1]) * 10 + (s[|s| - 1] as int - '0' as int)
  }

  /**
   * strconv.Atoi: an optional '+' or '-', then one or more decimal digits,
   * whose value fits in a 64-bit int.  Anything else is an error (None).
   */
  function Atoi(s: string): (r: Option<int>)
    ensures r.Some? ==> MinInt64 <= r.value <= MaxInt64
    ensures r.Some? ==> |s| > 0 && (IsDigit(s[0]) || s[0] == '+' || s[0] == '-')
  {
    var signed := |s| > 0 && (s[0] == '+' || s[0] == '-');
    var digits := if signed then s[1..] else s;
    if |digits| == 0 || !AllDigits(digits) then None
    else
      var v: int := if |s| > 0 && s[0] == '-' then -(DigitsValue(digits) as int) else DigitsValue(digits);
      if MinInt64 <= v <= MaxInt64 then Some(v) else None
  }

  // ---------------------------------------------------------------------
  // fmt's %d verb

  function DigitChar(d: int): char
    requires 0 <= d < 10
  {
    ('0' as int + d) as char
  }

  function NatToStr(n: nat): (s: string)
    decreases n
  {
    if n < 10 then [DigitChar(n)] else NatToStr(n / 10) + [DigitChar(n % 10)]
  }

  /** fmt.Sprintf("%d", v): a '-' for negative values, then the decimal digits. */
  function IntToStr(v: int): (s: string)
  {
    if v < 0 then "-" + NatToStr(-v) else NatToStr(v)
  }

  lemma {:induction false} NatToStrDigits(n: nat)
    ensures |NatToStr(n)| > 0 && AllDigits(NatToStr(n))
    ensures DigitsValue(NatToStr(n)) == n
    decreases n
  {
    if n >= 10 {
      NatToStrDigits(n / 10);
      var s := NatToStr(n);
      assert s[..|s| - 1] == NatToStr(n / 10);
    }
  }

  /** The text printed by %d is read back by Atoi as the same value. */
  lemma AtoiIntToStr(v: int)
    requires MinInt64 <= v <= MaxInt64
    ensures Atoi(IntToStr(v)) == Some(v)
  {
    var s := IntToStr(v);
    if v < 0 {
      var n: nat := -v;
      NatToStrDigits(n);
      assert s == "-" + NatToStr(n);
      assert s[0] == '-' && s[1..] == NatToStr(n);
    } else {
      NatToStrDigits(v);
      assert s == NatToStr(v);
      assert IsDigit(s[0]);
    }
  }

  /** %d output is plain ASCII: digits and at most a leading '-'. */
  lemma IntToStrChars(v: int)
    ensures |IntToStr(v)| > 0
    ensures forall i :: 0 <= i < |IntToStr(v)| ==> IsDigit(IntToStr(v)[i]) || IntToStr(v)[i] == '-'
  {
    if v < 0 { NatToStrDigits(-v); } else { NatToStrDigits(v); }
  }

  // ---------------------------------------------------------------------
  // strings

  predicate HasPrefix(s: string, prefix: string) {
    |prefix| <= |s| && s[..|prefix|] == prefix
  }

  /** strings.TrimPrefix: drop `prefix` if s starts with it, else s unchanged. */
  function TrimPrefix(s: string, prefix: string): (r: string)
    ensures HasPrefix(s, prefix) ==> s == prefix + r
    ensures !HasPrefix(s, prefix) ==> r == s
  {
    if HasPrefix(s, prefix) then s[|prefix|..] else s
  }

  /** strings.Trim(s, " "): drop the leading and trailing spaces. */
  function TrimSpaces(s: string): (r: string)
    decreases |s|
  {
    if |s| > 0 && s[0] == ' ' then TrimSpaces(s[1..])
    else if |s| > 0 && s[|s| - 1] == ' ' then TrimSpaces(s[..|s| - 1])
    else s
  }

  predicate AllSpaces(s: string) {
    forall i :: 0 <= i < |s| ==> s[i] == ' '
  }

  /** What is left after trimming is empty exactly when s held only spaces. */
  lemma {:induction false} TrimSpacesEmpty(s: string)
    ensures |TrimSpaces(s)| == 0 <==> AllSpaces(s)
    decreases |s|
  {
    if |s| > 0 && s[0] == ' ' {
      TrimSpacesEmpty(s[1..]);
      assert AllSpaces(s) <==> AllSpaces(s[1..]) by {
        if AllSpaces(s[1..]) {
          forall i | 0 <= i < |s| ensures s[i] == ' ' {
            if i > 0 { assert s[i] == s[1..][i - 1]; }
          }
        }
      }
    } else if |s| > 0 && s[|s| - 1] == ' ' {
      TrimSpacesEmpty(s[..|s| - 1]);
      assert AllSpaces(s) <==> AllSpaces(s[..|s| - 1]) by {
        if AllSpaces(s[..|s| - 1]) {
          forall i | 0 <= i < |s| ensures s[i] == ' ' {
            if i < |s| - 1 { assert s[i] == s[..|s| - 1][i]; }
          }
        }
      }
    }
  }

  /**
   * strings.Split with a non-empty separator: the pieces between the
   * leftmost non-overlapping occurrences of sep.  Split("", sep) == [""].
   */
  function Split(s: string, sep: string): (r: seq<string>)
    requires |sep| > 0
    ensures |r| >= 1
    decreases |s|
  {
    if |s| < |sep| then [s]
    else if s[..|sep|] == sep then [""] + Split(s[|sep|..], sep)
    else
      var rest := Split(s[1..], sep);
      [[s[0]] + rest[0]] + rest[1..]
  }

  /** strings.Join. */
  function Join(parts: seq<string>, sep: string): (r: string)
    decreases |parts|
  {
    if |parts| == 0 then ""
    else if |parts| == 1 then parts[0]
    else parts[0] + sep + Join(parts[1..], sep)
  }

  /** Putting a character in front of the first piece puts it in front of the joined text. */
  lemma JoinConsFirst(c: char, parts: seq<string>, sep: string)
    requires |parts| >= 1
    ensures Join([[c] + parts[0]] + parts[1..], sep) == [c] + Join(parts, sep)
  {
    var q := [[c] + parts[0]] + parts[1..];
    assert q[1..] == parts[1..];
    if |parts| > 1 {
      assert Join(q, sep) == ([c] + parts[0]) + sep + Join(parts[1..], sep);
      assert Join(parts, sep) == parts[0] + sep + Join(parts[1..], sep);
    }
  }

  /** Splitting and joining again gives back the original text. */
  lemma {:induction false} JoinSplit(s: string, sep: string)
    requires |sep| > 0
    ensures Join(Split(s, sep), sep) == s
    decreases |s|
  {
    if |s| < |sep| {
    } else if s[..|sep|] == sep {
      var tail := s[|sep|..];
      JoinSplit(tail, sep);
      SplitSepHead(s, sep);
      JoinEmptyFirst(Split(tail, sep), sep);
      assert s == s[..|sep|] + tail;
    } else {
      JoinSplit(s[1..], sep);
      JoinSplitAtChar(s, sep);
    }
  }

  /** A text that starts with the separator begins with an empty piece. */
  lemma SplitSepHead(s: string, sep: string)
    requires 0 < |sep| <= |s| && s[..|sep|] == sep
    ensures Split(s, sep) == [""] + Split(s[|sep|..], sep)
  {
  }

  /** Joining behind an empty first piece puts the separator in front. */
  lemma JoinEmptyFirst(rest: seq<string>, sep: string)
    requires |rest| >= 1
    ensures Join([""] + rest, sep) == sep + Join(rest, sep)
  {
    var parts := [""] + rest;
    assert parts[1..] == rest;
  }

  /** The step of JoinSplit where the text starts with an ordinary character. */
  lemma JoinSplitAtChar(s: string, sep: string)
    requires 0 < |sep| <= |s| && s[..|sep|] != sep
    requires Join(Split(s[1..], sep), sep) == s[1..]
    ensures Join(Split(s, sep), sep) == s
  {
    var rest := Split(s[1..], sep);
    assert Split(s, sep) == [[s[0]] + rest[0]] + rest[1..];
    JoinConsFirst(s[0], rest, sep);
    assert [s[0]] + s[1..] == s;
  }

  /** A text without the separator's first character is one single piece. */
  lemma {:induction false} SplitNoSep(a: string, sep: string)
    requires |sep| > 0
    requires forall i :: 0 <= i < |a| ==> a[i] != sep[0]
    ensures Split(a, sep) == [a]
    decreases |a|
  {
    if |a| >= |sep| {
      assert a[..|sep|][0] != sep[0];
      SplitNoSep(a[1..], sep);
      assert [a[0]] + a[1..] == a;
    }
  }

  /** A piece free of the separator's first character ends at the first separator. */
  lemma {:induction false} SplitAtSep(a: string, sep: string, b: string)
    requires |sep| > 0
    requires forall i :: 0 <= i < |a| ==> a[i] != sep[0]
    ensures Split(a + sep + b, sep) == [a] + Split(b, sep)
    decreases |a|
  {
    var s := a + sep + b;
    if |a| == 0 {
      assert s[..|sep|] == sep;
      assert s[|sep|..] == b;
    } else {
      assert s[..|sep|][0] == a[0];
      assert s[1..] == a[1..] + sep + b;
      SplitAtSep(a[1..], sep, b);
      assert [a[0]] + a[1..] == a;
    }
  }

  /** Joining pieces free of a one-character separator, then splitting, gives the pieces back. */
  lemma {:induction false} SplitJoin(parts: seq<string>, sep: string)
    requires |sep| == 1 && |parts| >= 1
    requires forall k, i :: 0 <= k < |parts| && 0 <= i < |parts[k]| ==> parts[k][i] != sep[0]
    ensures Split(Join(parts, sep), sep) == parts
    decreases |parts|
  {
    if |parts| == 1 {
      SplitNoSep(parts[0], sep);
    } else {
      SplitJoin(parts[1..], sep);
      assert forall i :: 0 <= i < |parts[0]| ==> parts[0][i] != sep[0];
      SplitAtSep(parts[0], sep, Join(parts[1..], sep));
      assert [parts[0]] + parts[1..] == parts;
    }
  }
}
