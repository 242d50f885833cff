/**
 * The trace tool's hex codec (contrib/rinhash_trace.cpp): `hexDigit`,
 * `parseHex` and `toHex`. Characters are those of the command-line argument;
 * `std::tolower` in the C locale changes only 'A'..'Z'.
 */
module Hex {
  import opened Wrappers
  import opened Lanes

  /** Why `parseHex` throws; the two messages of its `std::runtime_error`s. */
  datatype HexError = OddLength | InvalidHexCharacter

  /** `std::tolower` in the C locale. */
  function ToLowerC(c: char): (l: char)
    ensures 'A' <= c <= 'Z' ==> 'a' <= l <= 'z' && l as int - 'a' as int == c as int - 'A' as int
    ensures !('A' <= c <= 'Z') ==> l == c
  {
    if 'A' <= c <= 'Z' then (c as int - 'A' as int + 'a' as int) as char else c
  }

  predicate IsHexChar(c: char)
  {
    '0' <= c <= '9' || 'a' <= c <= 'f' || 'A' <= c <= 'F'
  }

  /** `hexDigit`: the value of a hex digit of either case, or -1. */
  function HexDigit(c: char): (d: int)
    ensures -1 <= d < 16
    ensures d >= 0 <==> IsHexChar(c)
  {
    if '0' <= c <= '9' then c as int - '0' as int
    else
      var l := ToLowerC(c);
      if 'a' <= l <= 'f' then 10 + (l as int - 'a' as int) else -1
  }

  /** The lower-case digit `std::hex` prints for a value 0..15. */
  function DigitChar(v: nat): (c: char)
    requires v < 16
    ensures IsHexChar(c) && !('A' <= c <= 'Z')
  {
    if v < 10 then ('0' as int + v) as char else ('a' as int + v - 10) as char
  }

  /** `hexDigit` reads back the digit `std::hex` prints. */
  lemma HexDigitOfDigitChar(v: nat)
    requires v < 16
    ensures HexDigit(DigitChar(v)) == v
  {
  }

  /** A digit is read case-insensitively: printing its value gives back the lower-case digit. */
  lemma DigitCharOfHexDigit(c: char)
    requires IsHexChar(c)
    ensures HexDigit(c) >= 0 && DigitChar(HexDigit(c)) == ToLowerC(c)
  {
  }

  /** The pairs of an even-length string, first pair first, as the loop of `parseHex` reads them. */
  function ParsePairs(hex: string): (r: Result<Bytes, HexError>)
    requires |hex| % 2 == 0
    ensures r.Success? ==> |r.value| == |hex| / 2
    ensures r.Failure? ==> r.error == InvalidHexCharacter
    decreases |hex|
  {
    if hex == [] then Success([])
    else
      var hi, lo := HexDigit(hex[0]), HexDigit(hex[1]);
      if hi < 0 || lo < 0 then Failure(InvalidHexCharacter)
      else
        var rest :- ParsePairs(hex[2..]);
        // (hi << 4) | lo with 0 <= lo < 16
        Success([ByteOfInt(hi * 16 + lo)] + rest)
  }

  /** `parseHex`: an odd length is rejected before any character is looked at. */
  function ParseHex(hex: string): (r: Result<Bytes, HexError>)
    ensures |hex| % 2 != 0 ==> r == Failure(OddLength)
    ensures r.Success? ==> |r.value| == |hex| / 2
  {
    if |hex| % 2 != 0 then Failure(OddLength) else ParsePairs(hex)
  }

  /** `parseHex` succeeds exactly on even-length strings of hex digits. */
  lemma {:induction false} ParsePairsAccepts(hex: string)
    requires |hex| % 2 == 0
    ensures ParsePairs(hex).Success? <==> forall i | 0 <= i < |hex| :: IsHexChar(hex[i])
    decreases |hex|
  {
    if hex != [] {
      ParsePairsAccepts(hex[2..]);
      assert forall i | 2 <= i < |hex| :: hex[i] == hex[2..][i - 2];
    }
  }

  lemma ParseHexAccepts(hex: string)
    ensures ParseHex(hex).Success? <==> |hex| % 2 == 0 && forall i | 0 <= i < |hex| :: IsHexChar(hex[i])
  {
    if |hex| % 2 == 0 {
      ParsePairsAccepts(hex);
    }
  }

  /** `toHex`: two lower-case digits per byte, high nibble first (`std::setw(2)`, fill '0'). */
  function ToHex(data: Bytes): (s: string)
    ensures |s| == 2 * |data|
  {
    if data == [] then []
    else [DigitChar(data[0] as int / 16), DigitChar(data[0] as int % 16)] + ToHex(data[1..])
  }

  /** A leading pair of digits followed by a parsable rest parses to its byte and the rest's. */
  lemma ParsePairsStep(hex: string)
    requires |hex| % 2 == 0 && 2 <= |hex| && IsHexChar(hex[0]) && IsHexChar(hex[1])
    requires ParsePairs(hex[2..]).Success?
    ensures ParsePairs(hex)
      == Success([ByteOfInt(HexDigit(hex[0]) * 16 + HexDigit(hex[1]))] + ParsePairs(hex[2..]).value)
  {
  }

  /** The two nibbles of a byte, and the byte they make. */
  lemma ByteDigits(x: Byte) returns (hi: int, lo: int)
    ensures 0 <= hi < 16 && 0 <= lo < 16
    ensures hi == x as int / 16 && lo == x as int % 16
    ensures ByteOfInt(hi * 16 + lo) == x
  {
    hi, lo := x as int / 16, x as int % 16;
    ByteOfIntOfByte(x);
  }

  /** Two printed digits in front of a parsable string parse to their byte in front of its bytes. */
  lemma ParseHexCons(hi: nat, lo: nat, rest: string, tail: Bytes)
    requires hi < 16 && lo < 16 && ParseHex(rest) == Success(tail)
    ensures ParseHex([DigitChar(hi), DigitChar(lo)] + rest) == Success([ByteOfInt(hi * 16 + lo)] + tail)
  {
    var s := [DigitChar(hi), DigitChar(lo)] + rest;
    assert |rest| % 2 == 0;
    assert s[2..] == rest;
    HexDigitOfDigitChar(hi);
    HexDigitOfDigitChar(lo);
    ParsePairsStep(s);
  }

  /** Parsing what `toHex` printed gives the bytes back. */
  lemma {:induction false} ParseHexOfToHex(data: Bytes)
    ensures ParseHex(ToHex(data)) == Success(data)
    decreases |data|
  {
    if data != [] {
      var hi, lo := ByteDigits(data[0]);
      assert ToHex(data) == [DigitChar(hi), DigitChar(lo)] + ToHex(data[1..]);
      ParseHexOfToHex(data[1..]);
      ParseHexCons(hi, lo, ToHex(data[1..]), data[1..]);
      assert [data[0]] + data[1..] == data;
    }
  }

  /** The string with every letter lowered as `std::tolower` would. */
  function LowerC(s: string): (l: string)
    ensures |l| == |s|
    ensures forall i | 0 <= i < |s| :: l[i] == ToLowerC(s[i])
  {
    if s == [] then [] else [ToLowerC(s[0])] + LowerC(s[1..])
  }

  lemma ToHexCons(b: bv8, rest: Bytes)
    ensures ToHex([b] + rest) == [DigitChar(b as int / 16), DigitChar(b as int % 16)] + ToHex(rest)
  {
    assert ([b] + rest)[1..] == rest;
  }

  /** A value 0..255 is its two nibbles, high first. */
  lemma Nibbles(hi: int, lo: int)
    requires 0 <= hi < 16 && 0 <= lo < 16
    ensures (hi * 16 + lo) / 16 == hi && (hi * 16 + lo) % 16 == lo
  {
  }

  /** The byte parsed from a pair of digits prints as those digits in lower case. */
  lemma PairPrintsLower(c0: char, c1: char)
    requires IsHexChar(c0) && IsHexChar(c1)
    ensures var b := ByteOfInt(HexDigit(c0) * 16 + HexDigit(c1));
      [DigitChar(b as int / 16), DigitChar(b as int % 16)] == [ToLowerC(c0), ToLowerC(c1)]
  {
    var hi, lo := HexDigit(c0), HexDigit(c1);
    var n := ByteOfInt(hi * 16 + lo) as int;
    assert n == hi * 16 + lo;
    Nibbles(hi, lo);
    assert n / 16 == hi && n % 16 == lo;
    DigitCharOfHexDigit(c0);
    DigitCharOfHexDigit(c1);
  }

  lemma ParsePairsCons(hex: string)
    requires |hex| % 2 == 0 && hex != [] && ParsePairs(hex).Success?
    ensures IsHexChar(hex[0]) && IsHexChar(hex[1]) && ParsePairs(hex[2..]).Success?
    ensures ParsePairs(hex).value
      == [ByteOfInt(HexDigit(hex[0]) * 16 + HexDigit(hex[1]))] + ParsePairs(hex[2..]).value
  {
  }

  lemma LowerCCons(s: string)
    requires 2 <= |s|
    ensures LowerC(s) == [ToLowerC(s[0]), ToLowerC(s[1])] + LowerC(s[2..])
  {
  }

  /** Printing parsed bytes gives the input back, in lower case. */
  lemma {:induction false} ToHexOfParsePairs(hex: string)
    requires |hex| % 2 == 0 && ParsePairs(hex).Success?
    ensures ToHex(ParsePairs(hex).value) == LowerC(hex)
    decreases |hex|
  {
    if hex != [] {
      ParsePairsCons(hex);
      ToHexOfParsePairs(hex[2..]);
      PairPrintsLower(hex[0], hex[1]);
      ToHexCons(ByteOfInt(HexDigit(hex[0]) * 16 + HexDigit(hex[1])), ParsePairs(hex[2..]).value);
      LowerCCons(hex);
    }
  }

  lemma ToHexOfParseHex(hex: string)
    requires ParseHex(hex).Success?
    ensures ToHex(ParseHex(hex).value) == LowerC(hex)
  {
    ToHexOfParsePairs(hex);
  }
}
