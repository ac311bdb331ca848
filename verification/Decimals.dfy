/** Printing natural numbers and reading integers back: str(n), str.isdigit() and int(s) on ASCII text. */
module Decimals {
  import opened Wrappers
  import opened Search

  predicate IsDigit(c: char) { '0' <= c <= '9' }

  /** str.isdigit() */
  predicate AllDigits(s: string) {
    |s| > 0 && forall i :: 0 <= i < |s| ==> IsDigit(s[i])
  }

  function DigitChar(d: nat): (c: char)
    requires d < 10
    ensures IsDigit(c)
  {
    '0' + d as char
  }

  function ToDecimal(n: nat): (s: string)
    ensures AllDigits(s)
  {
    if n < 10 then [DigitChar(n)] else ToDecimal(n / 10) + [DigitChar(n % 10)]
  }

  function FromDecimal(s: string): nat
    requires forall i :: 0 <= i < |s| ==> IsDigit(s[i])
  {
    if |s| == 0 then 0
    else
      assert IsDigit(s[|s| - 1]);
      FromDecimal(s[..|s| - 1]) * 10 + (s[|s| - 1] as int - '0' as int)
  }

  lemma {:induction false} DecimalRoundTrip(n: nat)
    ensures FromDecimal(ToDecimal(n)) == n
  {
    var s := ToDecimal(n);
    if n < 10 {
      assert s[..0] == [];
    } else {
      DecimalRoundTrip(n / 10);
      assert s[..|s| - 1] == ToDecimal(n / 10);
    }
  }

  lemma DigitsHaveNone(d: string)
    requires AllDigits(d)
    ensures d[|d| - 1] !in "_" && !Has(d, "_")
  {
    assert forall x :: x in d ==> IsDigit(x);
    DisjointHasNone(d, "_");
  }

  predicate IsBlank(c: char) {
    c in " \t\n\r\U{000B}\U{000C}"
  }

  /** int(s) for text without underscores: blanks around it, one sign, digits. */
  function ReadInt(s: string): Result<int> {
    if s != "" && IsBlank(s[0]) then ReadInt(s[1..])
    else if s != "" && IsBlank(s[|s| - 1]) then ReadInt(s[..|s| - 1])
    else if AllDigits(s) then Success(FromDecimal(s))
    else if s != "" && s[0] in "+-" && AllDigits(s[1..]) then
      var n: int := FromDecimal(s[1..]);
      Success(if s[0] == '-' then -n else n)
    else Failure("ValueError")
  }

  /** A printed number is read back. */
  lemma ReadsPrinted(n: nat)
    ensures ReadInt(ToDecimal(n)) == Success(n)
  {
    DecimalRoundTrip(n);
    assert IsDigit(ToDecimal(n)[0]);
  }

  /** A sign before a printed number is read. */
  lemma ReadsSigned(n: nat)
    ensures ReadInt("-" + ToDecimal(n)) == Success(-(n as int)) && ReadInt("+" + ToDecimal(n)) == Success(n)
  {
    DecimalRoundTrip(n);
    ReadsSign("-", ToDecimal(n));
    ReadsSign("+", ToDecimal(n));
  }

  /** And blanks around it are not. */
  lemma SkipsBlanks(n: nat)
    ensures ReadInt(" " + ToDecimal(n)) == Success(n) && ReadInt(ToDecimal(n) + "\n") == Success(n)
  {
    var d := ToDecimal(n);
    ReadsPrinted(n);
    assert (" " + d)[1..] == d;
    assert (d + "\n")[..|d|] == d && IsDigit((d + "\n")[0]);
  }

  lemma ReadsSign(sign: string, d: string)
    requires sign == "-" || sign == "+"
    requires AllDigits(d)
    ensures ReadInt(sign + d) == Success(if sign == "-" then -(FromDecimal(d) as int) else FromDecimal(d))
  {
    var s := sign + d;
    assert s[1..] == d && s[0] == sign[0] && s[|s| - 1] == d[|d| - 1];
    assert IsDigit(d[|d| - 1]) && !IsDigit(s[0]);
  }
}
