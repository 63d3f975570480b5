/** Decimal numbers as Go's `strconv` reads them and `fmt` writes them. */
module Decimal {

  const MAX_INT: int := 0x7FFF_FFFF_FFFF_FFFF
  const MAX_UINT: int := 0xFFFF_FFFF_FFFF_FFFF

  datatype Parsed = Value(n: nat) | Malformed | OutOfRange

  predicate IsDigit(c: char) { '0' <= c <= '9' }
  function DigitValue(c: char): nat requires IsDigit(c) { c as int - '0' as int }

  /** strconv.ParseUint, base 10, after `n`: an overflow ends the scan before later characters
      are seen. */
  function ParseUint(s: string, n: nat): Parsed {
    if s == "" then Value(n)
    else if !IsDigit(s[0]) then Malformed
    else
      var next := n * 10 + DigitValue(s[0]);
      if next > MAX_UINT then OutOfRange else ParseUint(s[1..], next)
  }

  /** strconv.ParseInt: the nearest 64-bit integer comes with the error for a number out of range. */
  datatype ParsedInt = Number(n: int) | BadSyntax | BadRange(nearest: int)

  function ParseInt(s: string): (r: ParsedInt)
    ensures r.Number? ==> -MAX_INT - 1 <= r.n <= MAX_INT
    ensures r.BadRange? ==> r.nearest == MAX_INT || r.nearest == -MAX_INT - 1
  {
    var neg := s != "" && s[0] == '-';
    var digits := if s != "" && s[0] in "+-" then s[1..] else s;
    var clamp := if neg then -MAX_INT - 1 else MAX_INT;
    if digits == "" then BadSyntax
    else match ParseUint(digits, 0)
      case Malformed => BadSyntax
      case OutOfRange => BadRange(clamp)
      case Value(n) =>
        if neg then (if n > MAX_INT + 1 then BadRange(clamp) else Number(0 - n))
        else if n > MAX_INT then BadRange(clamp) else Number(n)
  }

  /** The number that strconv.Atoi returns beside its error. */
  function Atoi(s: string): (r: int)
    ensures -MAX_INT - 1 <= r <= MAX_INT
  {
    match ParseInt(s)
    case Number(n) => n
    case BadSyntax => 0
    case BadRange(nearest) => nearest
  }

  function Digits(n: nat): (s: string)
    ensures s != "" && forall i :: 0 <= i < |s| ==> IsDigit(s[i])
  {
    var last := [(n % 10 + '0' as int) as char];
    if n < 10 then last else Digits(n / 10) + last
  }

  /** fmt.Sprintf("%d", n) */
  function Format(n: int): (s: string)
    ensures s != "" && forall i :: 0 <= i < |s| ==> IsDigit(s[i]) || (i == 0 && s[i] == '-')
  {
    if n < 0 then "-" + Digits(-n) else Digits(n)
  }

  lemma {:induction false} ParseConcat(s: string, t: string, n: nat)
    requires ParseUint(s, n).Value?
    ensures ParseUint(s + t, n) == ParseUint(t, ParseUint(s, n).n)
  {
    if s == "" {
      assert s + t == t;
    } else {
      assert (s + t)[1..] == s[1..] + t;
      ParseConcat(s[1..], t, n * 10 + DigitValue(s[0]));
    }
  }

  lemma {:induction false} DigitsAreRead(n: nat)
    requires n <= MAX_UINT
    ensures ParseUint(Digits(n), 0) == Value(n)
  {
    var c := (n % 10 + '0' as int) as char;
    assert DigitValue(c) == n % 10;
    assert [c][1..] == "";
    if n >= 10 {
      DigitsAreRead(n / 10);
      ParseConcat(Digits(n / 10), [c], 0);
    }
  }

  /** What is written is read back, for every 64-bit integer. */
  lemma FormatIsRead(n: int)
    requires -MAX_INT - 1 <= n <= MAX_INT
    ensures ParseInt(Format(n)) == Number(n)
  {
    if n < 0 {
      DigitsAreRead(-n);
      assert ("-" + Digits(-n))[1..] == Digits(-n);
    } else {
      DigitsAreRead(n);
      assert IsDigit(Digits(n)[0]);
    }
  }
}
