/** Decimal numerals as the Go standard library prints and reads them: strconv.Itoa, strconv.Atoi. */
module Decimal {
  import opened Options
  const MAX_INT := 0x7FFF_FFFF_FFFF_FFFF
  const MIN_INT := -0x8000_0000_0000_0000


  predicate IsDigit(c: char) {
    '0' <= c <= '9'
  }

  predicate AllDigits(s: string) {
    forall i :: 0 <= i < |s| ==> IsDigit(s[i])
  }

  function DigitValue(c: char): nat
    requires IsDigit(c)
  {
    c as int - '0' as int
  }

  function DigitChar(d: nat): char
    requires d < 10
  {
    ('0' as int + d) as char
  }

  /** The decimal digits of n, most significant first. */
  function NatToString(n: nat): (s: string)
    ensures s != "" && AllDigits(s)
  {
    if n < 10 then [DigitChar(n)] else NatToString(n / 10) + [DigitChar(n % 10)]
  }

  function DigitsValue(s: string): nat
    requires AllDigits(s)
  {
    if s == "" then 0 else DigitsValue(s[..|s| - 1]) * 10 + DigitValue(s[|s| - 1])
  }

  function Itoa(n: int): string {
    if n < 0 then "-" + NatToString(-n) else NatToString(n)
  }

  function InInt64(n: int): Option<int> {
    if MIN_INT <= n <= MAX_INT then Some(n) else None
  }

  /** An optional sign, then at least one digit and nothing else, within the 64-bit range. */
  function Atoi(s: string): Option<int> {
    var body := if s != "" && (s[0] == '-' || s[0] == '+') then s[1..] else s;
    if body == "" || !AllDigits(body) then None
    else InInt64((if s[0] == '-' then -1 else 1) * DigitsValue(body))
  }

  lemma {:induction false} DigitsValueOfNat(n: nat)
    ensures DigitsValue(NatToString(n)) == n
  {
    if n < 10 {
      assert NatToString(n)[..0] == "";
    } else {
      DigitsValueOfNat(n / 10);
      var s := NatToString(n);
      assert s[..|s| - 1] == NatToString(n / 10);
    }
  }

  /** Reading back a printed integer gives the integer. */
  lemma AtoiItoa(n: int)
    requires MIN_INT <= n <= MAX_INT
    ensures Atoi(Itoa(n)) == Some(n)
  {
    var digits := NatToString(if n < 0 then -n else n);
    DigitsValueOfNat(if n < 0 then -n else n);
    if n < 0 {
      assert Itoa(n)[1..] == digits;
    } else {
      assert IsDigit(digits[0]);
    }
  }

  /** A printed integer never spans a line. */
  lemma ItoaHasNoNewline(n: int)
    ensures forall i :: 0 <= i < |Itoa(n)| ==> Itoa(n)[i] == '-' || IsDigit(Itoa(n)[i])
  {
  }

  lemma {:induction false} NatToStringLength(n: nat)
    ensures |NatToString(n)| <= n / 10 + 1
  {
    if n >= 10 {
      NatToStringLength(n / 10);
    }
  }

  /** The length of a printed integer is itself an integer. */
  lemma ItoaLength(n: int)
    requires MIN_INT <= n <= MAX_INT
    ensures |Itoa(n)| <= MAX_INT
  {
    NatToStringLength(if n < 0 then -n else n);
  }
}
