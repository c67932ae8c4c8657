/** Decimal numbers of the Redis serialization protocol: printing through a digit buffer, parsing
    with an overflow test, and the text they agree on. */
module RespNumber {
  import opened Prelude

  const INT64_MAX := 0x7fff_ffff_ffff_ffff
  const INT64_MIN := -0x8000_0000_0000_0000
  const SIZE_LIMIT := 0x1_0000_0000_0000_0000
  const DIGITS := 32

  /** The caller's output string. */
  class Output {
    var bytes: string

    constructor ()
      ensures bytes == ""
    {
      bytes := "";
    }

    method Append(text: string)
      modifies this
      ensures bytes == old(bytes) + text
    {
      bytes := bytes + text;
    }
  }

  predicate IsDigit(c: char) {
    '0' <= c <= '9'
  }

  predicate AllDigits(s: string) {
    forall i :: 0 <= i < |s| ==> IsDigit(s[i])
  }

  /** The number a digit string denotes. */
  function Magnitude(s: string): nat
    requires AllDigits(s)
  {
    if s == "" then 0 else Magnitude(s[..|s| - 1]) * 10 + (s[|s| - 1] as int - '0' as int)
  }

  function Body(text: string): string {
    if text != "" && text[0] == '-' then text[1..] else text
  }

  /** An optional minus sign and at least one digit, denoting a 64-bit signed integer. */
  function NumberText(text: string): Option<int> {
    var negative := text != "" && text[0] == '-';
    var body := Body(text);
    if body == "" || !AllDigits(body) then None
    else
      var value: int := if negative then -1 * Magnitude(body) else Magnitude(body);
      if INT64_MIN <= value <= INT64_MAX then Some(value) else None
  }

  lemma {:induction false} MagnitudeGrows(s: string, n: nat)
    requires AllDigits(s) && n <= |s|
    ensures AllDigits(s[..n]) && Magnitude(s[..n]) <= Magnitude(s)
    decreases |s| - n
  {
    if n == |s| {
      assert s[..n] == s;
    } else {
      MagnitudeGrows(s, n + 1);
      assert s[..n + 1][..n] == s[..n];
    }
  }

  lemma NoDigits()
    ensures Magnitude("") == 0
  {
  }

  /** One more digit. */
  lemma DigitAppends(s: string, n: nat)
    requires n < |s| && AllDigits(s[..n]) && IsDigit(s[n])
    ensures AllDigits(s[..n + 1]) && Magnitude(s[..n + 1]) == Magnitude(s[..n]) * 10 + (s[n] as int - '0' as int)
  {
    assert s[..n + 1][..n] == s[..n];
  }

  /** The digit loop with its division test for overflow. */
  method ParseSignedNumber(text: string) returns (ok: bool, value: int)
    ensures NumberText(text) == if ok then Some(value) else None
  {
    hide Magnitude;
    if text == "" {
      return false, 0;
    }
    var index := 0;
    var negative := text[index] == '-';
    if negative {
      index := index + 1;
      if index == |text| {
        return false, 0;
      }
    }
    ghost var body := Body(text);
    ghost var start := index;
    assert body == text[start..];
    NoDigits();
    assert body[..0] == "";
    var magnitude := 0;
    var limit := if negative then -INT64_MIN else INT64_MAX;
    while index < |text|
      invariant start <= index <= |text|
      invariant AllDigits(body[..index - start]) && magnitude == Magnitude(body[..index - start]) <= limit
    {
      var ch := text[index];
      assert ch == body[index - start];
      if ch < '0' || ch > '9' {
        return false, 0;
      }
      var digit := ch as int - '0' as int;
      DigitAppends(body, index - start);
      if magnitude > (limit - digit) / 10 {
        if AllDigits(body) { MagnitudeGrows(body, index - start + 1); }
        return false, 0;
      }
      magnitude := magnitude * 10 + digit;
      index := index + 1;
    }
    assert body[..index - start] == body;
    return true, if negative then -magnitude else magnitude;
  }

  // -------------------------------------------------------------------- printing

  function DigitChar(d: nat): char
    requires d < 10
  {
    (d + '0' as int) as char
  }

  function UnsignedText(n: nat): string {
    if n < 10 then [DigitChar(n)] else UnsignedText(n / 10) + [DigitChar(n % 10)]
  }

  function SignedText(v: int): string {
    if v < 0 then "-" + UnsignedText(-v) else UnsignedText(v)
  }

  lemma {:induction false} UnsignedTextDenotes(n: nat)
    ensures UnsignedText(n) != "" && AllDigits(UnsignedText(n)) && Magnitude(UnsignedText(n)) == n
  {
    var text := UnsignedText(n);
    if n < 10 {
      assert text[..0] == "";
    } else {
      UnsignedTextDenotes(n / 10);
      assert text[..|text| - 1] == UnsignedText(n / 10);
    }
  }

  /** Printing then parsing is the identity exactly on the 64-bit signed integers, both ends included. */
  lemma PrintThenParse(v: int)
    ensures NumberText(SignedText(v)) == if -0x8000_0000_0000_0000 <= v <= 0x7fff_ffff_ffff_ffff then Some(v) else None
  {
    UnsignedTextDenotes(if v < 0 then -v else v);
    if v < 0 {
      assert SignedText(v)[1..] == UnsignedText(-v);
    } else {
      assert IsDigit(UnsignedText(v)[0]);
    }
  }

  function Zeros(k: nat): (r: string)
    ensures |r| == k && forall i :: 0 <= i < k ==> r[i] == '0'
  {
    seq(k, i => '0')
  }

  /** A digit string is zeros and then the decimal text of the number it denotes. */
  lemma {:induction false} DigitsSpelled(s: string) returns (k: nat)
    requires s != "" && AllDigits(s)
    ensures s == Zeros(k) + UnsignedText(Magnitude(s))
    decreases |s|
  {
    var front, digit := s[..|s| - 1], s[|s| - 1];
    var m := Magnitude(front);
    assert Magnitude(s) == 10 * m + (digit as int - '0' as int);
    assert DigitChar(digit as int - '0' as int) == digit;
    if front == "" {
      k := 0;
    } else {
      k := DigitsSpelled(front);
      if m == 0 {
        k := k + 1;
      }
    }
    assert s == front + [digit];
    assert s == Zeros(k) + UnsignedText(Magnitude(s));
  }

  lemma {:induction false} ZerosDenoteNothing(k: nat, n: nat)
    ensures AllDigits(Zeros(k) + UnsignedText(n)) && Magnitude(Zeros(k) + UnsignedText(n)) == n
    decreases n
  {
    UnsignedTextDenotes(n);
    var s := Zeros(k) + UnsignedText(n);
    if n < 10 {
      assert s[..|s| - 1] == Zeros(k);
      OnlyZeros(k);
    } else {
      assert s[..|s| - 1] == Zeros(k) + UnsignedText(n / 10);
      ZerosDenoteNothing(k, n / 10);
    }
  }

  lemma {:induction false} OnlyZeros(k: nat)
    ensures AllDigits(Zeros(k)) && Magnitude(Zeros(k)) == 0
  {
    if k > 0 {
      assert Zeros(k)[..k - 1] == Zeros(k - 1);
      OnlyZeros(k - 1);
    }
  }

  /** The texts of a number: any zeros before its digits, and a minus sign before those unless it is positive,
      which zero may have and may lack. */
  ghost predicate TextOf(text: string, v: int) {
    || (v >= 0 && exists k :: text == Zeros(k) + UnsignedText(v))
    || (v <= 0 && exists k :: text == "-" + (Zeros(k) + UnsignedText(-v)))
  }

  lemma DigitsRead(k: nat, n: nat)
    ensures var digits := Zeros(k) + UnsignedText(n);
            && NumberText(digits) == (if n <= INT64_MAX then Some(n) else None)
            && NumberText("-" + digits) == (if n <= -INT64_MIN then Some(-1 * n) else None)
  {
    ZerosDenoteNothing(k, n);
    UnsignedTextDenotes(n);
    hide Magnitude, UnsignedText, AllDigits;
    var digits := Zeros(k) + UnsignedText(n);
    assert digits != "" && IsDigit(digits[0]) by { FirstIsDigit(digits); }
    assert ("-" + digits)[1..] == digits;
  }

  lemma FirstIsDigit(s: string)
    requires s != "" && AllDigits(s)
    ensures IsDigit(s[0])
  {
  }

  lemma ReadHasText(text: string)
    requires NumberText(text).Some?
    ensures TextOf(text, NumberText(text).value)
  {
    hide UnsignedText, Magnitude, AllDigits;
    var k := DigitsSpelled(Body(text));
    assert text[0] == '-' ==> text == "-" + Body(text);
  }

  /** The parser accepts exactly the texts of the 64-bit signed integers. */
  lemma NumberHasText(text: string, v: int)
    ensures NumberText(text) == Some(v)
            <==> -0x8000_0000_0000_0000 <= v <= 0x7fff_ffff_ffff_ffff && TextOf(text, v)
  {
    hide UnsignedText, Magnitude, AllDigits;
    if NumberText(text) == Some(v) {
      ReadHasText(text);
    } else if v >= 0 && exists k :: text == Zeros(k) + UnsignedText(v) {
      var k :| text == Zeros(k) + UnsignedText(v);
      DigitsRead(k, v);
    } else if v <= 0 && exists k :: text == "-" + (Zeros(k) + UnsignedText(-v)) {
      var k :| text == "-" + (Zeros(k) + UnsignedText(-v));
      DigitsRead(k, -v);
    }
  }

  /** Parsing then printing is not: leading zeros and a negative zero are accepted. */
  lemma ParseForgets()
    ensures NumberText("-0") == Some(0) && NumberText("007") == Some(7)
    ensures SignedText(0) != "-0" && SignedText(7) != "007"
  {
    assert "-0"[1..] == "0";
    assert "0"[..0] == "";
    assert "007"[..2] == "00" && "00"[..1] == "0";
    assert Magnitude("0") == 0 && Magnitude("00") == 0 && Magnitude("007") == 7;
  }

  function Pow10(k: nat): nat {
    if k == 0 then 1 else 10 * Pow10(k - 1)
  }

  /** Dividing by ten leaves a number of one digit less. */
  lemma OneDigitLess(m: nat, k: nat)
    requires 0 < m < Pow10(k)
    ensures k > 0 && m / 10 < Pow10(k - 1)
  {
  }

  lemma SizesHaveTwentyDigits()
    ensures SIZE_LIMIT <= Pow10(20)
  {
    assert Pow10(5) == 100_000;
    assert Pow10(10) == 10_000_000_000;
    assert Pow10(15) == 1_000_000_000_000_000;
  }

  /** The digits that are still to be written. */
  function Leading(m: nat): string {
    if m == 0 then "" else UnsignedText(m)
  }

  lemma LastDigit(m: nat)
    ensures UnsignedText(m) == Leading(m / 10) + [DigitChar(m % 10)]
  {
  }

  /** The do-while loop of both printing routines: digits from the end of the buffer backwards. */
  method WriteDigits(digits: array<char>, value: nat) returns (current: nat)
    requires digits.Length == DIGITS && value < SIZE_LIMIT
    modifies digits
    ensures 1 <= current < DIGITS && digits[current..] == UnsignedText(value)
  {
    hide Pow10, UnsignedText;
    var magnitude: nat := value;
    current := DIGITS - 1;
    digits[current] := DigitChar(magnitude % 10);
    SizesHaveTwentyDigits();
    if magnitude > 0 { OneDigitLess(magnitude, 20); }
    LastDigit(magnitude);
    magnitude := magnitude / 10;
    assert digits[current..] == [DigitChar(value % 10)];
    while magnitude != 0
      invariant 12 <= current < DIGITS && (magnitude == 0 || magnitude < Pow10(current - 12))
      invariant UnsignedText(value) == Leading(magnitude) + digits[current..]
      decreases magnitude
    {
      ghost var written := digits[current..];
      OneDigitLess(magnitude, current - 12);
      LastDigit(magnitude);
      assert Leading(magnitude) + written == Leading(magnitude / 10) + ([DigitChar(magnitude % 10)] + written);
      current := current - 1;
      digits[current] := DigitChar(magnitude % 10);
      assert digits[current..] == [DigitChar(magnitude % 10)] + written;
      magnitude := magnitude / 10;
    }
  }

  method AppendUnsignedInteger(value: nat, out: Output)
    requires value < 0x1_0000_0000_0000_0000
    modifies out
    ensures out.bytes == old(out.bytes) + UnsignedText(value)
  {
    var digits := new char[DIGITS];
    var current := WriteDigits(digits, value);
    out.Append(digits[current..]);
  }

  method AppendSignedInteger(value: int, out: Output)
    requires INT64_MIN <= value <= INT64_MAX
    modifies out
    ensures out.bytes == old(out.bytes) + SignedText(value)
  {
    var digits := new char[DIGITS];
    var negative := value < 0;
    var magnitude := if negative then -(value + 1) + 1 else value;
    var current := WriteDigits(digits, magnitude);
    ghost var written := digits[current..];
    if negative {
      current := current - 1;
      digits[current] := '-';
      assert digits[current..] == "-" + written;
    }
    out.Append(digits[current..]);
  }

  /** DecimalLength counts exactly the characters that printing will append. */
  method DecimalLength(value: nat) returns (length: nat)
    ensures length == |UnsignedText(value)|
  {
    var left := value;
    length := 1;
    while left >= 10
      invariant length >= 1 && |UnsignedText(value)| == length - 1 + |UnsignedText(left)|
    {
      left := left / 10;
      length := length + 1;
    }
  }
}
