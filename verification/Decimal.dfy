/**
 Decimal text: what %d prints (sections 7.19.6.1 of ISO C99) and what atoi and the %d of
 sscanf read (sections 7.20.1.2 and 7.19.6.2), for numbers that fit an int.
 */
module Decimal {

  const INT_MAX: int := 2147483647
  const INT_MIN: int := -2147483648

  predicate IsInt(x: int) { INT_MIN <= x <= INT_MAX }

  predicate IsDigit(c: char) { '0' <= c <= '9' }

  predicate IsSpace(c: char) { c in " \t\n\r" || c == 11 as char || c == 12 as char }

  function DigitChar(d: nat): (c: char)
    requires d < 10
    ensures IsDigit(c)
  {
    '0' + d as char
  }

  function DigitValue(c: char): (d: nat)
    requires IsDigit(c)
    ensures d < 10 && DigitChar(d) == c
  {
    (c - '0') as nat
  }

  function Digits(n: nat): (s: string)
    ensures s != [] && forall i | 0 <= i < |s| :: IsDigit(s[i])
  {
    if n < 10 then [DigitChar(n)] else Digits(n / 10) + [DigitChar(n % 10)]
  }

  /** The text that %d prints. */
  function Print(x: int): (s: string)
    ensures s != []
  {
    if x < 0 then "-" + Digits(-x) else Digits(x)
  }

  // ---- The decimal notation of a number, defined on the text alone ----

  predicate AllDigits(s: string) {
    forall i | 0 <= i < |s| :: IsDigit(s[i])
  }

  /** Digits without a leading zero, except for the numeral of zero itself. */
  predicate IsNumeral(s: string) {
    s != [] && AllDigits(s) && (s[0] == '0' ==> |s| == 1)
  }

  /** The positional value of digits. */
  function NumeralValue(s: string): nat
    requires AllDigits(s)
  {
    if s == [] then 0 else 10 * NumeralValue(s[..|s| - 1]) + (s[|s| - 1] - '0') as nat
  }

  /** s is the decimal notation of x. */
  predicate IsDecimal(s: string, x: int) {
    if x < 0 then s != [] && s[0] == '-' && IsNumeral(s[1..]) && NumeralValue(s[1..]) == -x
    else IsNumeral(s) && NumeralValue(s) == x
  }

  lemma {:induction false} DigitsAreNumeral(n: nat)
    ensures IsNumeral(Digits(n)) && NumeralValue(Digits(n)) == n
  {
    if n < 10 {
      assert NumeralValue([]) == 0;
    } else {
      DigitsAreNumeral(n / 10);
      assert Digits(n)[..|Digits(n)| - 1] == Digits(n / 10);
    }
  }

  lemma {:induction false} NumeralIsDigits(s: string)
    requires IsNumeral(s)
    ensures s == Digits(NumeralValue(s))
  {
    var head, last := s[..|s| - 1], s[|s| - 1];
    var d := (last - '0') as nat;
    assert s == head + [last] && d < 10 && last == DigitChar(d);
    if head == [] {
      assert NumeralValue(head) == 0;
    } else {
      assert head[0] == s[0];
      NumeralIsDigits(head);
      var v := NumeralValue(head);
      assert v == 0 ==> head == [DigitChar(0)];
      assert Digits(10 * v + d) == Digits(v) + [DigitChar(d)] by { assert (10 * v + d) / 10 == v; }
    }
  }

  /** %d prints the decimal notation of x, and there is no other. */
  lemma PrintIsDecimal(s: string, x: int)
    ensures IsDecimal(s, x) <==> s == Print(x)
  {
    DigitsAreNumeral(if x < 0 then -x else x);
    if IsDecimal(s, x) {
      if x < 0 {
        NumeralIsDigits(s[1..]);
        assert s == ['-'] + s[1..];
      } else {
        NumeralIsDigits(s);
      }
    } else if x < 0 {
      assert Print(x)[1..] == Digits(-x);
    }
  }

  // ---- Reading ----

  /** Reads digits from the front, continuing a number that starts with value acc. */
  function ReadDigits(s: string, acc: nat): (r: (nat, string))
    ensures |r.1| <= |s|
  {
    if s != [] && IsDigit(s[0]) then ReadDigits(s[1..], 10 * acc + DigitValue(s[0])) else (acc, s)
  }

  function SkipSpaces(s: string): (r: string)
    ensures |r| <= |s|
  {
    if s != [] && IsSpace(s[0]) then SkipSpaces(s[1..]) else s
  }

  datatype Scanned = NoNumber | Number(value: int, rest: string)

  /** One %d conversion: spaces, an optional sign, and at least one digit. */
  function ScanInt(s: string): Scanned {
    var t := SkipSpaces(s);
    var signed := t != [] && (t[0] == '-' || t[0] == '+');
    var u := if signed then t[1..] else t;
    if u == [] || !IsDigit(u[0]) then NoNumber
    else
      var (n, rest) := ReadDigits(u, 0);
      Number(if signed && t[0] == '-' then -(n as int) else n as int, rest)
  }

  function Atoi(s: string): int {
    match ScanInt(s)
    case NoNumber => 0
    case Number(value, _) => value
  }

  /** The text goes on with something that is not a digit, or ends. */
  predicate NoDigitFirst(s: string) {
    s == [] || !IsDigit(s[0])
  }

  lemma {:induction false} ReadsValue(digits: string, rest: string)
    requires AllDigits(digits)
    ensures ReadDigits(digits + rest, 0) == ReadDigits(rest, NumeralValue(digits))
  {
    if digits == [] {
      assert digits + rest == rest;
    } else {
      var head, more := digits[..|digits| - 1], [digits[|digits| - 1]] + rest;
      assert digits + rest == head + more;
      ReadsValue(head, more);
      assert more[1..] == rest;
    }
  }

  lemma {:induction false} SkipsSpaces(spaces: string, text: string)
    requires forall i | 0 <= i < |spaces| :: IsSpace(spaces[i])
    requires text == [] || !IsSpace(text[0])
    ensures SkipSpaces(spaces + text) == text
  {
    if spaces == [] {
      assert spaces + text == text;
    } else {
      assert (spaces + text)[1..] == spaces[1..] + text;
      SkipsSpaces(spaces[1..], text);
    }
  }

  lemma ScanSigned(sign: string, digits: string, rest: string)
    requires sign == "" || sign == "-" || sign == "+"
    requires digits != [] && AllDigits(digits) && NoDigitFirst(rest)
    ensures !IsSpace((sign + (digits + rest))[0])
    ensures ScanInt(sign + (digits + rest)) == Number((if sign == "-" then -1 else 1) * NumeralValue(digits), rest)
  {
    var u := digits + rest;
    ReadsValue(digits, rest);
    assert u[0] == digits[0] && ReadDigits(u, 0) == (NumeralValue(digits), rest);
    if sign == "" {
      assert sign + u == u;
    } else {
      assert (sign + u)[0] == sign[0] && (sign + u)[1..] == u;
    }
  }

  /** What %d reads: any spaces, a sign or none, and all the digits that follow, with leading zeros or without. */
  lemma ScansNumber(spaces: string, sign: string, digits: string, rest: string)
    requires forall i | 0 <= i < |spaces| :: IsSpace(spaces[i])
    requires sign == "" || sign == "-" || sign == "+"
    requires digits != [] && AllDigits(digits) && NoDigitFirst(rest)
    ensures ScanInt(spaces + (sign + (digits + rest)))
            == Number((if sign == "-" then -1 else 1) * NumeralValue(digits), rest)
  {
    ScanSigned(sign, digits, rest);
    ScanSkipsSpaces(spaces, sign + (digits + rest));
  }

  lemma ScanSkipsSpaces(spaces: string, text: string)
    requires forall i | 0 <= i < |spaces| :: IsSpace(spaces[i])
    requires text != [] && !IsSpace(text[0])
    ensures ScanInt(spaces + text) == ScanInt(text)
  {
    SkipsSpaces(spaces, text);
  }

  lemma ScanDecimal(text: string, x: int, rest: string)
    requires IsDecimal(text, x) && NoDigitFirst(rest)
    ensures ScanInt(text + rest) == Number(x, rest)
  {
    if x < 0 {
      ScanSigned("-", text[1..], rest);
      assert text + rest == "-" + (text[1..] + rest);
    } else {
      ScanSigned("", text, rest);
      assert text + rest == "" + (text + rest);
    }
  }

  /** Round trip: %d reads back exactly what %d printed, and leaves what follows. */
  lemma ScanPrinted(x: int, rest: string)
    requires NoDigitFirst(rest)
    ensures ScanInt(Print(x) + rest) == Number(x, rest)
  {
    PrintIsDecimal(Print(x), x);
    ScanDecimal(Print(x), x, rest);
  }

  lemma AtoiPrinted(x: int, rest: string)
    requires NoDigitFirst(rest)
    ensures Atoi(Print(x) + rest) == x
    ensures Atoi(Print(x)) == x
  {
    ScanPrinted(x, rest);
    ScanPrinted(x, []);
    assert Print(x) + [] == Print(x);
  }

  lemma AtoiDecimal(text: string, x: int)
    requires IsDecimal(text, x)
    ensures Atoi(text) == x
  {
    ScanDecimal(text, x, []);
    assert text + [] == text;
  }

  /** Leading spaces do not matter to %d. */
  lemma ScanAfterSpace(s: string)
    ensures ScanInt(" " + s) == ScanInt(s)
  {
  }

  function Pow10(k: nat): nat {
    if k == 0 then 1 else 10 * Pow10(k - 1)
  }

  /** A number has at most k digits if and only if it is below 10 to the k. */
  lemma {:induction false} DigitsLength(n: nat, k: nat)
    requires k > 0
    ensures |Digits(n)| <= k <==> n < Pow10(k)
    decreases k
  {
    if k == 1 {
    } else if n < 10 {
      assert Pow10(k) >= 10 by { Pow10Positive(k - 1); }
    } else {
      DigitsLength(n / 10, k - 1);
    }
  }

  lemma {:induction false} Pow10Positive(k: nat)
    ensures Pow10(k) >= 1
  {
    if k == 0 {
    } else {
      Pow10Positive(k - 1);
    }
  }
}
