/**
  Decimal numerals: strconv.FormatUint and strconv.Itoa, and strconv.Atoi, which reads
  an optional sign, then at least one digit, leading zeros allowed.
 */
module Numerals {
  import opened Fields

  datatype Option<+T> = None | Some(value: T)

  function Digit(d: nat): (c: char)
    requires d < 10
    ensures '0' <= c <= '9' && c as int - '0' as int == d
  {
    ('0' as int + d) as char
  }

  predicate AllDigits(s: string) {
    forall c | c in s :: '0' <= c <= '9'
  }

  function Format(n: nat): (s: string)
    ensures s != "" && AllDigits(s)
  {
    if n < 10 then [Digit(n)] else Format(n / 10) + [Digit(n % 10)]
  }

  function Value(s: string): nat
    requires AllDigits(s)
  {
    if s == "" then 0 else
      var last := |s| - 1;
      assert s[last] in s && forall c | c in s[..last] :: c in s;
      Value(s[..last]) * 10 + (s[last] as int - '0' as int)
  }

  function Itoa(i: int): string {
    if i < 0 then "-" + Format(-i) else Format(i)
  }

  function Atoi(s: string): Option<int> {
    if s == "" then None else
      var signed := s[0] == '-' || s[0] == '+';
      var digits := if signed then s[1..] else s;
      if digits == "" || !AllDigits(digits) then None
      else Some(if s[0] == '-' then 0 - Value(digits) else Value(digits))
  }

  lemma {:induction false} ValueOfFormat(n: nat)
    ensures Value(Format(n)) == n
  {
    var s := Format(n);
    if n < 10 {
      assert s[..0] == "";
      assert Value(s) == Value(s[..0]) * 10 + n;
    } else {
      ValueOfFormat(n / 10);
      assert s[..|s| - 1] == Format(n / 10);
    }
  }

  lemma FormatIsAlnum(n: nat)
    ensures Alnum(Format(n)) && Atoi(Format(n)) == Some(n)
  {
    var s := Format(n);
    assert s[0] in s;
    ValueOfFormat(n);
  }

  /** A numeral is written without leading zeros. */
  lemma {:induction false} FormatIsCanonical(n: nat)
    ensures Format(n)[0] == '0' <==> n == 0
    ensures n < 10 <==> |Format(n)| == 1
  {
    if n >= 10 { FormatIsCanonical(n / 10); }
  }

  /** Digits are read as their value, also with leading zeros ... */
  lemma AtoiOfDigits(digits: string)
    requires digits != "" && AllDigits(digits)
    ensures Atoi(digits) == Some(Value(digits)) && Atoi("0" + digits) == Some(Value(digits))
  {
    LeadingZero(digits);
    assert digits[0] in digits;
    hide Value;
  }

  /** ... and so are signed ones ... */
  lemma AtoiOfSigned(sign: char, digits: string)
    requires digits != "" && AllDigits(digits) && (sign == '+' || sign == '-')
    ensures Atoi([sign] + digits) == Some(if sign == '-' then 0 - Value(digits) else Value(digits))
  {
    var s := [sign] + digits;
    assert s[1..] == digits && s[0] == sign;
    hide Value, AllDigits;
  }

  /** ... and nothing else. */
  lemma OnlyNumeralsAreRead(s: string)
    ensures Atoi(s).Some? ==> exists d: string :: d != "" && AllDigits(d) && (s == d || s == "+" + d || s == "-" + d)
  {
    hide Value;
    if Atoi(s).Some? {
      var d := if s[0] == '-' || s[0] == '+' then s[1..] else s;
      assert d != "" && AllDigits(d) && (s == d || s == "+" + d || s == "-" + d);
    }
  }

  lemma {:induction false} LeadingZero(digits: string)
    requires AllDigits(digits)
    ensures AllDigits("0" + digits) && Value("0" + digits) == Value(digits)
    decreases |digits|
  {
    var s := "0" + digits;
    if digits == "" {
      assert s[..0] == "";
    } else {
      var last := |digits| - 1;
      assert s[..|s| - 1] == "0" + digits[..last];
      assert forall c | c in digits[..last] :: c in digits;
      LeadingZero(digits[..last]);
    }
  }

  lemma FormatInjective(m: nat, n: nat)
    ensures Format(m) == Format(n) <==> m == n
  {
    ValueOfFormat(m);
    ValueOfFormat(n);
  }

  lemma AtoiOfItoa(i: int)
    ensures Atoi(Itoa(i)) == Some(i)
  {
    if i < 0 {
      var s := Itoa(i);
      assert s[1..] == Format(-i);
      ValueOfFormat(-i);
    } else {
      FormatIsAlnum(i);
    }
  }

  /** An alphanumeric id has no sign, so what Atoi reads from it is not negative. */
  lemma AlnumIsUnsigned(s: string)
    requires Alnum(s) && Atoi(s).Some?
    ensures Atoi(s).value >= 0
  {
    assert s[0] in s;
  }
}
