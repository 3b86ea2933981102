/** Python's `str(n)` for integers, `str.isdigit` (ASCII digits only) and `int(s)` on digit strings,
    all over the UTF-8 bytes of the text. */
module Decimal {
  import opened Wrappers
  import opened Bytes

  const MINUS: byte := 0x2D  // '-'

  predicate IsDigit(b: byte) { 0x30 <= b <= 0x39 }

  /** `s.isdigit()`: non-empty and every character a digit. */
  predicate IsDigits(s: seq<byte>) {
    |s| > 0 && forall i :: 0 <= i < |s| ==> IsDigit(s[i])
  }

  /** The decimal digits of n, most significant first, without leading zeros. */
  function Digits(n: nat): (r: seq<byte>)
    decreases n
  {
    if n < 10 then [0x30 + n] else Digits(n / 10) + [0x30 + n % 10]
  }

  /** `str(n)`. */
  function Dec(n: int): seq<byte> {
    if n < 0 then [MINUS] + Digits(-n) else Digits(n)
  }

  /** `int(s)` for a string of digits. */
  function DigitsValue(s: seq<byte>): nat
    requires forall i :: 0 <= i < |s| ==> IsDigit(s[i])
  {
    if s == [] then 0
    else
      assert IsDigit(s[|s| - 1]);
      DigitsValue(s[..|s| - 1]) * 10 + (s[|s| - 1] - 0x30) as nat
  }

  /** `int(s)` for an optionally negative string of digits (leading zeros allowed). */
  function ParseInt(s: seq<byte>): Option<int> {
    if |s| > 0 && s[0] == MINUS && IsDigits(s[1..]) then Some(-(DigitsValue(s[1..]) as int))
    else if IsDigits(s) then Some(DigitsValue(s))
    else None
  }

  /** Digits as the JSON number grammar writes an integer's magnitude: no leading zero but in "0". */
  predicate JsonDigits(s: seq<byte>) {
    IsDigits(s) && (s[0] != 0x30 || |s| == 1)
  }

  /** The integer a JSON integer literal denotes, as `json.loads` reads it; None for anything else. */
  function JsonInt(s: seq<byte>): (r: Option<int>)
    ensures r.Some? ==> ParseInt(s) == r
  {
    if |s| > 0 && s[0] == MINUS then
      if JsonDigits(s[1..]) then Some(-(DigitsValue(s[1..]) as int)) else None
    else if JsonDigits(s) then Some(DigitsValue(s))
    else None
  }

  /** `int(str(n)) == n` and `str(n).isdigit()` for every non-negative n. */
  lemma {:induction false} DigitsRoundTrip(n: nat)
    ensures IsDigits(Digits(n)) && DigitsValue(Digits(n)) == n
    decreases n
  {
    if n >= 10 {
      DigitsRoundTrip(n / 10);
      var s := Digits(n);
      assert s[..|s| - 1] == Digits(n / 10);
    }
  }

  /** The first digit of a positive number is not zero. */
  lemma {:induction false} DigitsLeading(n: nat)
    requires n > 0
    ensures Digits(n)[0] != 0x30
    decreases n
  {
    if n >= 10 {
      DigitsLeading(n / 10);
    }
  }

  /** `str(n)` is a JSON integer literal, and reading it back as one gives n. */
  lemma JsonIntDec(n: int)
    ensures JsonInt(Dec(n)) == Some(n)
  {
    var m := if n < 0 then -n else n;
    DigitsRoundTrip(m);
    if m > 0 {
      DigitsLeading(m);
    }
    if n < 0 {
      assert Dec(n)[1..] == Digits(-n);
    }
  }

  /** `str(n)` is digits, with a leading '-' exactly for negative n: it holds none of the separators
      the wire formats look for. */
  lemma DecCharacters(n: int)
    ensures |Dec(n)| > 0
    ensures forall i :: 0 <= i < |Dec(n)| ==> IsDigit(Dec(n)[i]) || (i == 0 && Dec(n)[i] == MINUS)
    ensures IsDigits(Dec(n)) <==> n >= 0
  {
    DigitsRoundTrip(if n < 0 then -n else n);
    if n < 0 {
      assert !IsDigit(Dec(n)[0]);
    }
  }
}
