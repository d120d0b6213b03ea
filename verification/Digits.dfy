/** Numbers of two and four digits, as text. */
module Digits {

  function Digit(n: int): char
    requires 0 <= n < 10
  {
    '0' + n as char
  }

  function Two(n: int): (s: string)
    requires 0 <= n < 100
    ensures |s| == 2
  {
    [Digit(n / 10), Digit(n % 10)]
  }

  function Four(n: int): (s: string)
    requires 0 <= n < 10000
    ensures |s| == 4
  {
    Two(n / 100) + Two(n % 100)
  }

  predicate IsDigit(c: char) {
    '0' <= c <= '9'
  }

  function DigitValue(c: char): int {
    c as int - '0' as int
  }

  function Value2(s: string, i: nat): int
    requires i + 1 < |s|
  {
    DigitValue(s[i]) * 10 + DigitValue(s[i + 1])
  }

  lemma TwoReads(n: int)
    requires 0 <= n < 100
    ensures IsDigit(Two(n)[0]) && IsDigit(Two(n)[1])
    ensures DigitValue(Two(n)[0]) * 10 + DigitValue(Two(n)[1]) == n
  {
  }

  lemma ValueIsWritten(s: string, i: nat)
    requires i + 1 < |s| && IsDigit(s[i]) && IsDigit(s[i + 1])
    ensures 0 <= Value2(s, i) < 100 && Two(Value2(s, i)) == [s[i], s[i + 1]]
  {
    var a, b := DigitValue(s[i]), DigitValue(s[i + 1]);
    DigitsOf(a, b);
  }

  lemma DigitsOf(a: int, b: int)
    requires 0 <= a < 10 && 0 <= b < 10
    ensures (a * 10 + b) / 10 == a && (a * 10 + b) % 10 == b
  {
  }

  lemma HundredsOf(a: int, b: int)
    requires 0 <= a && 0 <= b < 100
    ensures (a * 100 + b) / 100 == a && (a * 100 + b) % 100 == b
  {
  }
}
