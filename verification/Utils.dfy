/** Small definitions that several models share. */
module Utils {

  datatype Option<T> = None | Some(value: T)

  function GetOr<T>(o: Option<T>, default: T): T {
    if o.Some? then o.value else default
  }

  function Min(a: int, b: int): int {
    if a <= b then a else b
  }

  function Max(a: int, b: int): int {
    if a >= b then a else b
  }

  ghost predicate NoDuplicates<T>(s: seq<T>) {
    forall i, j :: 0 <= i < j < |s| ==> s[i] != s[j]
  }

  /** `str` of a number. */
  function Decimal(n: int): string {
    if n < 0 then "-" + Digits(-n) else Digits(n)
  }

  function Digits(n: nat): string {
    (if n < 10 then "" else Digits(n / 10)) + [DigitChar(n % 10)]
  }

  function DigitChar(d: nat): char
    requires d < 10
  {
    ('0' as int + d) as char
  }

  function DigitOf(c: char): nat {
    if '0' <= c <= '9' then c as int - '0' as int else 0
  }

  /** The number a string of decimal digits stands for. */
  function NumberIn(s: string): nat {
    if s == "" then 0 else 10 * NumberIn(s[..|s| - 1]) + DigitOf(s[|s| - 1])
  }

  lemma DigitReads(d: nat)
    requires d < 10
    ensures DigitOf(DigitChar(d)) == d && (DigitChar(d) == '0' <==> d == 0)
  {
  }

  lemma NumberNext(s: string, c: char)
    ensures NumberIn(s + [c]) == 10 * NumberIn(s) + DigitOf(c)
  {
    hide DigitOf;
    assert (s + [c])[..|s|] == s;
  }

  lemma {:induction false} DigitsHoldNumber(n: nat)
    ensures NumberIn(Digits(n)) == n
  {
    hide NumberIn, DigitChar, DigitOf;
    DigitReads(n % 10);
    NumberNext(if n < 10 then "" else Digits(n / 10), DigitChar(n % 10));
    NoNumber();
    if n >= 10 {
      DigitsHoldNumber(n / 10);
    }
  }

  lemma NoNumber()
    ensures NumberIn("") == 0
  {
  }

  lemma {:induction false} DigitsLength(n: nat)
    ensures |Digits(n)| >= 1
    ensures |Digits(n)| > 1 <==> n >= 10
    ensures |Digits(n)| > 2 <==> n >= 100
    ensures |Digits(n)| > 3 <==> n >= 1000
    ensures n >= 1 ==> Digits(n)[0] != '0'
  {
    hide DigitChar;
    DigitReads(n % 10);
    if n >= 10 {
      DigitsLength(n / 10);
    }
  }

  lemma {:induction false} LeadingZero(s: string)
    ensures NumberIn("0" + s) == NumberIn(s)
  {
    if s == "" {
      assert "0" + s == "0" && "0"[..0] == "";
    } else {
      LeadingZero(s[..|s| - 1]);
      assert ("0" + s)[..|s|] == "0" + s[..|s| - 1];
    }
  }
}
