/** Go's decimal and boolean text forms: `fmt.Sprintf("%v", x)`, `strconv.ParseInt(s, 10, 64)`,
    `strconv.ParseUint(s, 10, 64)` and `strconv.ParseBool`. */
module Decimal {
  import opened Wrappers

  const MAX_INT64 := 0x7FFF_FFFF_FFFF_FFFF
  const MIN_INT64 := -0x8000_0000_0000_0000
  const MAX_UINT64 := 0xFFFF_FFFF_FFFF_FFFF

  predicate IsDigit(c: char) {
    '0' <= c <= '9'
  }

  predicate AllDigits(s: string) {
    forall i :: 0 <= i < |s| ==> IsDigit(s[i])
  }

  function DigitChar(d: nat): (c: char)
    requires d < 10
    ensures IsDigit(c) && DigitValue(c) == d
  {
    '0' + d as char
  }

  function DigitValue(c: char): (d: nat)
    requires IsDigit(c)
    ensures d < 10
  {
    (c - '0') as nat
  }

  function Digits(n: nat): (s: string)
    ensures s != "" && AllDigits(s)
  {
    if n < 10 then [DigitChar(n)] else Digits(n / 10) + [DigitChar(n % 10)]
  }

  function Value(s: string): nat
    requires AllDigits(s)
  {
    if s == "" then 0 else 10 * Value(s[..|s| - 1]) + DigitValue(s[|s| - 1])
  }

  lemma {:induction false} ValueOfDigits(n: nat)
    ensures Value(Digits(n)) == n
  {
    if n < 10 {
      assert Digits(n)[..0] == "";
    } else {
      ValueOfDigits(n / 10);
      assert Digits(n)[..|Digits(n)| - 1] == Digits(n / 10);
    }
  }

  /** The digits are the decimal ones, the last first taken off. */
  lemma {:induction false} DigitsAreDecimal(n: nat, d: nat)
    requires d < 10
    ensures Digits(d) == ["0123456789"[d]]
    ensures 0 < n ==> Digits(10 * n + d) == Digits(n) + ["0123456789"[d]]
  {
    assert DigitChar(d) == "0123456789"[d];
    if 0 < n {
      assert (10 * n + d) / 10 == n && (10 * n + d) % 10 == d;
    }
  }

  /** Different numbers print differently. */
  lemma {:induction false} DigitsInjective(m: nat, n: nat)
    ensures Digits(m) == Digits(n) <==> m == n
  {
    ValueOfDigits(m);
    ValueOfDigits(n);
  }

  function PrintInt(i: int): string {
    if i < 0 then "-" + Digits(-i) else Digits(i)
  }

  function ParseUint(s: string): Option<nat> {
    if s == "" || !AllDigits(s) || Value(s) > MAX_UINT64 then None else Some(Value(s))
  }

  function ParseInt(s: string): Option<int> {
    var unsigned := if s != "" && s[0] in "+-" then s[1..] else s;
    if unsigned == "" || !AllDigits(unsigned) then None
    else
      var i: int := if s[0] == '-' then -(Value(unsigned) as int) else Value(unsigned);
      if MIN_INT64 <= i <= MAX_INT64 then Some(i) else None
  }

  function PrintBool(b: bool): string {
    if b then "true" else "false"
  }

  function ParseBool(s: string): Option<bool> {
    if s in ["1", "t", "T", "true", "TRUE", "True"] then Some(true)
    else if s in ["0", "f", "F", "false", "FALSE", "False"] then Some(false)
    else None
  }

  predicate FitsInt64(i: int) {
    MIN_INT64 <= i <= MAX_INT64
  }

  lemma {:induction false} ParseOfUnsigned(digits: string, n: nat)
    requires digits != "" && AllDigits(digits) && Value(digits) == n
    ensures ParseInt(digits) == if FitsInt64(n) then Some(n) else None
  {
    assert IsDigit(digits[0]);
  }

  lemma {:induction false} ParseOfNegative(digits: string, i: int)
    requires digits != "" && AllDigits(digits) && Value(digits) == -i
    ensures ParseInt("-" + digits) == if FitsInt64(i) then Some(i) else None
  {
    assert ("-" + digits)[1..] == digits;
  }

  /** Every 64-bit integer survives printing and parsing; every other integer is refused. */
  lemma {:induction false} ParseOfPrintInt(i: int)
    ensures ParseInt(PrintInt(i)) == if FitsInt64(i) then Some(i) else None
  {
    if i < 0 {
      ValueOfDigits(-i);
      ParseOfNegative(Digits(-i), i);
    } else {
      ValueOfDigits(i);
      ParseOfUnsigned(Digits(i), i);
    }
  }

  /** `s` is a number of 64 bits in decimal digits, with a sign or without. */
  ghost predicate Int64Text(s: string, i: int) {
    FitsInt64(i) && exists digits :: SignedText(s, digits, i)
  }

  predicate SignedText(s: string, digits: string, i: int) {
    && digits != "" && AllDigits(digits)
    && (((s == digits || s == "+" + digits) && i == Value(digits))
        || (s == "-" + digits && i == -(Value(digits) as int)))
  }

  lemma {:induction false} ParseOfSigned(s: string, digits: string, i: int)
    requires SignedText(s, digits, i)
    ensures ParseInt(s) == if FitsInt64(i) then Some(i) else None
  {
    if s == digits {
      ParseOfUnsigned(digits, i);
    } else if s == "+" + digits {
      assert s[1..] == digits;
    } else {
      ParseOfNegative(digits, i);
    }
  }

  /** What strconv.ParseInt accepts, and as what. */
  lemma {:induction false} ParseIntExactly(s: string, i: int)
    ensures ParseInt(s) == Some(i) <==> Int64Text(s, i)
  {
    if ParseInt(s) == Some(i) {
      var digits := if s != "" && s[0] in "+-" then s[1..] else s;
      assert s == digits || s == [s[0]] + digits;
      assert SignedText(s, digits, i);
    }
    if digits :| SignedText(s, digits, i) {
      ParseOfSigned(s, digits, i);
    }
  }

  lemma {:induction false} ParseOfPrintUint(n: nat)
    ensures ParseUint(Digits(n)) == if n <= MAX_UINT64 then Some(n) else None
  {
    ValueOfDigits(n);
  }

  /** What strconv.ParseBool and strconv.ParseUint accept. */
  lemma {:induction false} ParseBoolExactly(s: string)
    ensures ParseBool(s) == Some(true) <==> s in {"1", "t", "T", "true", "TRUE", "True"}
    ensures ParseBool(s) == Some(false) ==> s in {"0", "f", "F", "false", "FALSE", "False"}
    ensures ParseBool(s) == None ==> s !in {"0", "f", "F", "false", "FALSE", "False"}
  {
  }

  lemma {:induction false} ParseUintExactly(s: string, n: nat)
    ensures ParseUint(s) == Some(n) <==> s != "" && AllDigits(s) && Value(s) == n && n < 0x1_0000_0000_0000_0000
  {
  }

  lemma ParseOfPrintBool(b: bool)
    ensures ParseBool(PrintBool(b)) == Some(b)
  {
    assert "true" in ["1", "t", "T", "true", "TRUE", "True"];
    assert "false" in ["0", "f", "F", "false", "FALSE", "False"];
    assert "false" !in ["1", "t", "T", "true", "TRUE", "True"] by {
      assert |"false"| == 5 && "false"[0] == 'f';
    }
  }
}
