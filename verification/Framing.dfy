/** How a message carries its destination through the ring: "%d," in front of the payload. */
module Framing {

  const INT32_MIN := -2147483648
  const INT32_MAX := 2147483647

  predicate Int32(d: int) {
    INT32_MIN <= d <= INT32_MAX
  }

  predicate IsDigit(c: char) {
    '0' <= c <= '9'
  }

  predicate IsSpace(c: char) {
    c == ' ' || '\t' <= c <= '\r'
  }

  predicate AllDigits(s: string) {
    forall i :: 0 <= i < |s| ==> IsDigit(s[i])
  }

  function DigitChar(d: nat): (c: char)
    requires d < 10
    ensures IsDigit(c) && DigitValue(c) == d
  {
    ('0' as int + d) as char
  }

  function DigitValue(c: char): (d: nat)
    requires IsDigit(c)
    ensures d < 10
  {
    c as int - '0' as int
  }

  /** The number that a run of digits denotes. */
  function Value(s: string): nat
    requires AllDigits(s)
  {
    if s == "" then 0 else Value(s[..|s| - 1]) * 10 + DigitValue(s[|s| - 1])
  }

  /** Decimal digits without leading zeros. */
  function Digits(n: nat): (s: string)
    ensures |s| >= 1 && AllDigits(s) && Value(s) == n
  {
    if n < 10 then [DigitChar(n)] else
      var s := Digits(n / 10) + [DigitChar(n % 10)];
      assert s[..|s| - 1] == Digits(n / 10);
      s
  }

  function Pow10(k: nat): (p: nat)
    ensures p >= 1
  {
    if k == 0 then 1 else 10 * Pow10(k - 1)
  }

  /** k digits are enough exactly for the numbers below 10 to the power k. */
  lemma {:induction false} DigitCount(n: nat, k: nat)
    requires k >= 1
    ensures |Digits(n)| <= k <==> n < Pow10(k)
  {
    if n >= 10 {
      if k > 1 {
        DigitCount(n / 10, k - 1);
      }
    }
  }

  /** What "%d" prints. */
  function Printed(d: int): (s: string)
    ensures |s| >= 1
  {
    if d < 0 then "-" + Digits(-d) else Digits(d)
  }

  /** What is put in front of a payload for destination d. */
  function Header(d: int): (s: string)
    ensures |s| >= 2 && s[|s| - 1] == ','
    ensures forall i :: 0 <= i < |s| - 1 ==> s[i] == '-' || IsDigit(s[i])
  {
    Printed(d) + ","
  }

  /** The bound of the comma search is met, and is tight, for 32-bit destinations; the last place
      that is searched is needed exactly for the most negative ones. */
  lemma CommaPosition(d: int)
    ensures Int32(d) ==> |Header(d)| - 1 <= 11
    ensures Int32(d) ==> (|Header(d)| - 1 == 11 <==> d <= -1_000_000_000)
    ensures |Header(d)| - 1 < 12 <==> -10_000_000_000 < d < 100_000_000_000
  {
    assert Pow10(9) == 1_000_000_000 && Pow10(10) == 10_000_000_000 && Pow10(11) == 100_000_000_000 by {
      assert Pow10(3) == 1000;
      assert Pow10(6) == 1000000;
    }
    if d < 0 {
      DigitCount(-d, 9);
      DigitCount(-d, 10);
    } else {
      DigitCount(d, 10);
      DigitCount(d, 11);
    }
  }

  // ---- Reading the destination back ----

  /** The first position from i on that is not white space. */
  function AfterSpaces(s: string, i: nat): (j: nat)
    requires i <= |s|
    ensures i <= j <= |s|
    decreases |s| - i
  {
    if i < |s| && IsSpace(s[i]) then AfterSpaces(s, i + 1) else i
  }

  /** The end of the run of digits that starts at i. */
  function AfterDigits(s: string, i: nat): (j: nat)
    requires i <= |s|
    ensures i <= j <= |s| && AllDigits(s[i..j])
    decreases |s| - i
  {
    if i < |s| && IsDigit(s[i]) then
      var j := AfterDigits(s, i + 1);
      assert forall k :: i < k < j ==> s[k] == s[i + 1..j][k - i - 1];
      j
    else
      i
  }

  lemma ValueGrows(s: string, i: nat, j: nat)
    requires i <= j < |s| && AllDigits(s[i..j]) && IsDigit(s[j])
    ensures AllDigits(s[i..j + 1]) && Value(s[i..j + 1]) == Value(s[i..j]) * 10 + DigitValue(s[j])
  {
    assert s[i..j + 1][..j - i] == s[i..j];
    assert forall k :: 0 <= k < j + 1 - i && k < j - i ==> s[i..j + 1][k] == s[i..j][k];
  }

  /** What "%d" reads from the start of a text; without a number the variable keeps its value. */
  function Scanned(s: string, previous: int): int {
    var start := AfterSpaces(s, 0);
    var negative := start < |s| && s[start] == '-';
    var from := if start < |s| && (s[start] == '-' || s[start] == '+') then start + 1 else start;
    var end := AfterDigits(s, from);
    if end == from then previous
    else if negative then -(Value(s[from..end]) as int)
    else Value(s[from..end])
  }

  lemma {:induction false} DigitsEnd(s: string, i: nat, j: nat)
    requires i <= j < |s| && AllDigits(s[i..j]) && !IsDigit(s[j])
    ensures AfterDigits(s, i) == j
    decreases j - i
  {
    if i < j {
      assert s[i..j][0] == s[i];
      assert s[i + 1..j] == s[i..j][1..];
      DigitsEnd(s, i + 1, j);
    }
  }

  /** The position of the first comma among the first n characters, n if there is none. */
  function FirstComma(s: string, n: nat): (i: nat)
    requires n <= |s|
    ensures i <= n && (i < n ==> s[i] == ',') && forall k :: 0 <= k < i ==> s[k] != ','
  {
    if n == 0 then 0 else
      var i := FirstComma(s, n - 1);
      if i < n - 1 || s[n - 1] == ',' then i else n
  }

  /** Whatever follows the header, be it a payload with digits and commas or old bytes, the scan
      finds the destination. */
  lemma ScanReadsHeader(d: int, rest: string, previous: int)
    ensures Scanned(Header(d) + rest, previous) == d
  {
    var s := Header(d) + rest;
    var sign := if d < 0 then 1 else 0;
    var digits := Digits(if d < 0 then -d else d);
    var end := sign + |digits|;
    assert s[sign..end] == digits;
    assert s[end] == ',';
    assert !IsSpace(s[0]) && (s[0] == '-' <==> d < 0) && s[0] != '+' by {
      assert s[0] == if d < 0 then '-' else digits[0];
      assert IsDigit(digits[0]);
    }
    DigitsEnd(s, sign, end);
  }

  lemma {:induction false} SpacesEnd(s: string, i: nat, j: nat)
    requires i <= j <= |s| && (forall k :: i <= k < j ==> IsSpace(s[k])) && (j < |s| ==> !IsSpace(s[j]))
    ensures AfterSpaces(s, i) == j
    decreases j - i
  {
    if i < j {
      SpacesEnd(s, i + 1, j);
    }
  }

  lemma DigitsEndHere(s: string, i: nat, j: nat)
    requires i <= j <= |s| && AllDigits(s[i..j]) && (j < |s| ==> !IsDigit(s[j]))
    ensures AfterDigits(s, i) == j
  {
    if j < |s| {
      DigitsEnd(s, i, j);
    } else {
      assert s[i..j] == s[i..];
      DigitsToTheEnd(s, i);
    }
  }

  lemma {:induction false} DigitsToTheEnd(s: string, i: nat)
    requires i <= |s| && AllDigits(s[i..])
    ensures AfterDigits(s, i) == |s|
    decreases |s| - i
  {
    if i < |s| {
      assert s[i..][0] == s[i];
      assert s[i + 1..] == s[i..][1..];
      DigitsToTheEnd(s, i + 1);
    }
  }

  /** The scan of any text: white space, at most one sign and a run of digits. The digits give the number, and
      without digits the variable keeps its value. */
  lemma ScanReadsNumber(spaces: string, sign: string, digits: string, rest: string, previous: int)
    requires (forall k :: 0 <= k < |spaces| ==> IsSpace(spaces[k])) && sign in {"", "-", "+"} && AllDigits(digits)
    requires rest != "" ==> !IsDigit(rest[0])
    requires sign == digits == "" && rest != "" ==> !IsSpace(rest[0]) && rest[0] != '-' && rest[0] != '+'
    ensures Scanned(spaces + sign + digits + rest, previous)
            == if digits == "" then previous else if sign == "-" then -(Value(digits) as int) else Value(digits)
  {
    var s := spaces + sign + digits + rest;
    var start, from, end := |spaces|, |spaces| + |sign|, |spaces| + |sign| + |digits|;
    PartsOfNumber(spaces, sign, digits, rest);
    SpacesEnd(s, 0, start);
    DigitsEndHere(s, from, end);
    ScannedBetween(s, start, from, end, previous);
  }

  lemma PartsOfNumber(spaces: string, sign: string, digits: string, rest: string)
    requires (forall k :: 0 <= k < |spaces| ==> IsSpace(spaces[k])) && sign in {"", "-", "+"} && AllDigits(digits)
    requires rest != "" ==> !IsDigit(rest[0])
    requires sign == digits == "" && rest != "" ==> !IsSpace(rest[0]) && rest[0] != '-' && rest[0] != '+'
    ensures var s, start, from, end := spaces + sign + digits + rest, |spaces|, |spaces| + |sign|, |spaces| + |sign| + |digits|;
            && (forall k :: 0 <= k < start ==> IsSpace(s[k])) && (start < |s| ==> !IsSpace(s[start]))
            && (end < |s| ==> !IsDigit(s[end])) && s[from..end] == digits
            && (sign == "-" <==> start < |s| && s[start] == '-')
            && (sign == "+" <==> start < |s| && s[start] == '+')
  {
    var s := spaces + sign + digits + rest;
    var start, from, end := |spaces|, |spaces| + |sign|, |spaces| + |sign| + |digits|;
    assert sign != "" ==> s[start] == sign[0];
    assert sign == "" && digits != "" ==> s[start] == digits[0] && IsDigit(digits[0]);
    assert sign == digits == "" && rest != "" ==> s[start] == rest[0];
    assert end < |s| ==> s[end] == rest[0];
  }

  lemma ScannedBetween(s: string, start: nat, from: nat, end: nat, previous: int)
    requires AfterSpaces(s, 0) == start
    requires from == if start < |s| && (s[start] == '-' || s[start] == '+') then start + 1 else start
    requires end == AfterDigits(s, from)
    ensures Scanned(s, previous)
            == if end == from then previous
               else if s[start] == '-' then -(Value(s[from..end]) as int) else Value(s[from..end])
  {
  }

  /** How many places of a buffer the search for the comma covers. */
  function Places(buffer: string): (n: nat)
    ensures n <= |buffer| && n <= 12 && (n == 12 || n == |buffer|)
  {
    if |buffer| < 12 then |buffer| else 12
  }

  /** The two ends agree: for every 32-bit destination, every payload and every leftover behind
      it, the scan gives the destination and the search the end of the header. */
  lemma FrameRoundTrip(d: int, payload: string, leftover: string, previous: int)
    requires Int32(d)
    ensures var s := Header(d) + payload + leftover;
            var i := FirstComma(s, Places(s));
            && Scanned(s, previous) == d
            && i < Places(s) && i + 1 == |Header(d)|
            && s[i + 1..|Header(d)| + |payload|] == payload
  {
    var s := Header(d) + payload + leftover;
    assert s == Header(d) + (payload + leftover);
    ScanReadsHeader(d, payload + leftover, previous);
    CommaPosition(d);
    assert s[|Header(d)| - 1] == ',';
    assert forall k :: 0 <= k < |Header(d)| - 1 ==> s[k] == Header(d)[k] && s[k] != ',';
  }
}
