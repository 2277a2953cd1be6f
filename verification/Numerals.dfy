/** Decimal numerals, as `u64::to_string` writes and `str::parse::<u64>` reads them. */
module Numerals {
  import opened MachineWords
  import opened Options

  function ToDecimal(n: nat): (text: string)
    ensures text != "" && forall i :: 0 <= i < |text| ==> '0' <= text[i] <= '9'
  {
    if n < 10 then ['0' + n as char] else ToDecimal(n / 10) + ['0' + (n % 10) as char]
  }

  predicate AllDigits(text: string) {
    forall i :: 0 <= i < |text| ==> '0' <= text[i] <= '9'
  }

  function DecimalValue(digits: string): nat
    requires AllDigits(digits)
  {
    if digits == "" then 0
    else 10 * DecimalValue(digits[..|digits| - 1]) + (digits[|digits| - 1] - '0') as nat
  }

  /** At least one digit, after at most one plus sign, and no overflow. */
  function ParseU64(text: string): Option<nat> {
    var digits := if 1 < |text| && text[0] == '+' then text[1..] else text;
    if digits != "" && AllDigits(digits) && DecimalValue(digits) < WORD
    then Some(DecimalValue(digits))
    else None
  }

  lemma {:induction false} ValueOfDecimal(n: nat)
    ensures DecimalValue(ToDecimal(n)) == n
  {
    if 10 <= n {
      var text := ToDecimal(n);
      assert text[..|text| - 1] == ToDecimal(n / 10);
      ValueOfDecimal(n / 10);
    } else {
      assert ToDecimal(n)[..0] == "";
    }
  }

  /** Reading back a written number gives the number, for every 64-bit number. */
  lemma ParseUndoesToDecimal(n: nat)
    requires n < WORD
    ensures ParseU64(ToDecimal(n)) == Some(n)
  {
    ValueOfDecimal(n);
    assert ToDecimal(n)[0] != '+';
  }

  predicate AllZeros(text: string) {
    forall i :: 0 <= i < |text| ==> text[i] == '0'
  }

  lemma {:induction false} LeadingZerosCountNothing(zeros: string, digits: string)
    requires AllZeros(zeros) && AllDigits(digits)
    ensures AllDigits(zeros + digits) && DecimalValue(zeros + digits) == DecimalValue(digits)
  {
    var text := zeros + digits;
    if digits != "" {
      assert text[..|text| - 1] == zeros + digits[..|digits| - 1];
      LeadingZerosCountNothing(zeros, digits[..|digits| - 1]);
    } else if zeros != "" {
      assert text[..|text| - 1] == zeros[..|zeros| - 1] + "";
      LeadingZerosCountNothing(zeros[..|zeros| - 1], "");
    }
  }

  lemma OneMoreDigit(n: nat, digit: char)
    requires '0' <= digit <= '9'
    ensures var d := (digit - '0') as nat;
      ToDecimal(10 * n + d) == (if n == 0 then "" else ToDecimal(n)) + [digit]
  {
    var d := (digit - '0') as nat;
    assert (10 * n + d) / 10 == n && (10 * n + d) % 10 == d;
    assert '0' + d as char == digit;
  }

  lemma {:induction false} DigitsAreWritten(digits: string) returns (zeros: string)
    requires digits != "" && AllDigits(digits)
    ensures AllZeros(zeros) && digits == zeros + ToDecimal(DecimalValue(digits))
  {
    hide ToDecimal;
    var front, last := digits[..|digits| - 1], digits[|digits| - 1];
    assert digits == front + [last];
    OneMoreDigit(DecimalValue(front), last);
    if front == "" {
      return "";
    }
    zeros := DigitsAreWritten(front);
    if DecimalValue(front) == 0 {
      OneMoreDigit(0, '0');
      return front;
    }
    assert digits == zeros + (ToDecimal(DecimalValue(front)) + [last]);
  }

  lemma SignedDigitsParse(sign: string, digits: string)
    requires (sign == "" || sign == "+") && digits != "" && AllDigits(digits)
    ensures ParseU64(sign + digits) == if DecimalValue(digits) < WORD then Some(DecimalValue(digits)) else None
  {
    hide DecimalValue;
    assert '0' <= digits[0] <= '9';
    assert "" + digits == digits && ("+" + digits)[1..] == digits;
  }

  lemma WrittenParses(sign: string, zeros: string, n: nat)
    requires n < WORD && (sign == "" || sign == "+") && AllZeros(zeros)
    ensures ParseU64(sign + zeros + ToDecimal(n)) == Some(n)
  {
    hide ToDecimal, DecimalValue, ParseU64;
    var digits := zeros + ToDecimal(n);
    LeadingZerosCountNothing(zeros, ToDecimal(n));
    ValueOfDecimal(n);
    SignedDigitsParse(sign, digits);
    assert sign + zeros + ToDecimal(n) == sign + digits;
  }

  lemma ParsedIsSignedDigits(text: string) returns (sign: string, digits: string)
    requires ParseU64(text).Some?
    ensures (sign == "" || sign == "+") && text == sign + digits
    ensures digits != "" && AllDigits(digits) && DecimalValue(digits) == ParseU64(text).value < WORD
  {
    hide DecimalValue;
    if 1 < |text| && text[0] == '+' {
      return "+", text[1..];
    }
    return "", text;
  }

  lemma JoinAssociates(a: string, b: string, c: string)
    ensures a + (b + c) == a + b + c
  {
  }

  lemma ParsedWasWritten(text: string) returns (sign: string, zeros: string)
    requires ParseU64(text).Some?
    ensures (sign == "" || sign == "+") && AllZeros(zeros) && ParseU64(text).value < WORD
    ensures text == sign + zeros + ToDecimal(ParseU64(text).value)
  {
    hide ToDecimal, DecimalValue, ParseU64;
    var digits;
    sign, digits := ParsedIsSignedDigits(text);
    zeros := DigitsAreWritten(digits);
    JoinAssociates(sign, zeros, ToDecimal(ParseU64(text).value));
  }

  /** A text reads as a number exactly if it is that number written, after zeros and at most one plus sign. */
  lemma ParseIff(text: string, n: nat)
    ensures ParseU64(text) == Some(n) <==>
      n < WORD && exists sign, zeros ::
        (sign == "" || sign == "+") && AllZeros(zeros) && text == sign + zeros + ToDecimal(n)
  {
    hide ToDecimal, ParseU64;
    if ParseU64(text) == Some(n) {
      var sign, zeros := ParsedWasWritten(text);
    }
    forall sign, zeros |
      n < WORD && (sign == "" || sign == "+") && AllZeros(zeros) && text == sign + zeros + ToDecimal(n)
      ensures ParseU64(text) == Some(n)
    {
      WrittenParses(sign, zeros, n);
    }
  }
}
