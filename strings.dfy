/** Character-string helpers the bundler relies on: prefix and suffix tests
    (`startsWith`, `endsWith`), the decimal rendering JavaScript template
    strings give a non-negative integer, and `Array.prototype.join`. */
module Strings {

  predicate StartsWith(s: string, prefix: string) {
    |prefix| <= |s| && s[..|prefix|] == prefix
  }

  predicate EndsWith(s: string, suffix: string) {
    |suffix| <= |s| && s[|s| - |suffix|..] == suffix
  }

  predicate IsDigit(c: char) {
    '0' <= c <= '9'
  }

  function Digit(d: nat): char
    requires d < 10
  {
    ((('0' as int) + d) as char)
  }

  /** The text `${n}` produces for a non-negative integer: its decimal
      digits, most significant first, without leading zeros. */
  function Decimal(n: nat): (s: string)
    ensures 1 <= |s|
    ensures n < 10 <==> |s| == 1
    ensures forall i :: 0 <= i < |s| ==> IsDigit(s[i])
    ensures 1 < |s| ==> s[0] != '0'
    decreases n
  {
    if n < 10 then [Digit(n)] else Decimal(n / 10) + [Digit(n % 10)]
  }

  /** Distinct numbers are rendered as distinct strings. */
  lemma {:induction false} DecimalInjective(a: nat, b: nat)
    requires Decimal(a) == Decimal(b)
    ensures a == b
  {
    if a < 10 {
      assert |Decimal(b)| == 1;
      assert Decimal(a)[0] == Digit(a) && Decimal(b)[0] == Digit(b);
    } else {
      var da, db := Decimal(a), Decimal(b);
      assert b >= 10;
      assert da == Decimal(a / 10) + [Digit(a % 10)];
      assert db == Decimal(b / 10) + [Digit(b % 10)];
      assert da[|da| - 1] == Digit(a % 10) && db[|db| - 1] == Digit(b % 10);
      assert a % 10 == b % 10;
      assert da[..|da| - 1] == Decimal(a / 10);
      assert db[..|db| - 1] == Decimal(b / 10);
      DecimalInjective(a / 10, b / 10);
    }
  }

  /** `parts.join(sep)`. */
  function Join(parts: seq<string>, sep: string): string
    decreases |parts|
  {
    if |parts| == 0 then ""
    else if |parts| == 1 then parts[0]
    else parts[0] + sep + Join(parts[1..], sep)
  }
}
