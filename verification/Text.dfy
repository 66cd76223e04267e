/** C strings: bytes written as characters, up to a terminating zero. */
module Text {

  /** A byte of text; nothing below depends on there being only 256 of them. */
  type Ch = char

  const NUL: Ch := '\0'

  /** The first position of `c` in `s`, or the length of `s` if there is none. */
  function Find(s: seq<Ch>, c: Ch): (i: nat)
    ensures i <= |s|
    ensures i < |s| ==> s[i] == c
    ensures forall j :: 0 <= j < i ==> s[j] != c
  {
    if s == [] || s[0] == c then 0 else 1 + Find(s[1..], c)
  }

  /** Where `c` first occurs is determined by there being no earlier occurrence. */
  lemma FindIs(s: seq<Ch>, c: Ch, i: nat)
    requires i <= |s| && (i < |s| ==> s[i] == c) && forall j :: 0 <= j < i ==> s[j] != c
    ensures Find(s, c) == i
  {
  }

  /** The C string starting at the head of `s`. */
  function CStr(s: seq<Ch>): (r: seq<Ch>)
    ensures |r| <= |s| && NUL !in r
  {
    s[..Find(s, NUL)]
  }

  function Lower(c: Ch): Ch {
    if 'A' <= c <= 'Z' then c + ('a' - 'A') else c
  }

  function LowerAll(s: seq<Ch>): (r: seq<Ch>)
    ensures |r| == |s|
    ensures forall i :: 0 <= i < |s| ==> r[i] == Lower(s[i])
  {
    seq(|s|, i requires 0 <= i < |s| => Lower(s[i]))
  }

  /** Two characters agree up to the case of ASCII letters. */
  predicate SameLetter(a: Ch, b: Ch) {
    a == b || ('A' <= a <= 'Z' && a as int + 32 == b as int) || ('A' <= b <= 'Z' && b as int + 32 == a as int)
  }

  lemma SameLetterIsLower(a: Ch, b: Ch)
    requires Lower(b) == b
    ensures Lower(a) == b <==> SameLetter(a, b)
  {
  }

  // ---- decimal numbers ----------------------------------------------------------------------------------------------

  predicate IsDigit(c: Ch) {
    '0' <= c <= '9'
  }

  function Digit(c: Ch): nat
    requires IsDigit(c)
  {
    c as int - '0' as int
  }

  /** The value of the leading digits of `s` appended to those already read. */
  function Digits(s: seq<Ch>, acc: nat): nat
    decreases |s|
  {
    if s == [] || !IsDigit(s[0]) then acc else Digits(s[1..], 10 * acc + Digit(s[0]))
  }

  predicate IsSpace(c: Ch) {
    c == ' ' || '\t' <= c <= '\r'
  }

  /** atoi: leading white space, an optional sign, and digits up to the first other character. */
  function Atoi(s: seq<Ch>): int
    decreases |s|
  {
    if s == [] then 0
    else if IsSpace(s[0]) then Atoi(s[1..])
    else if s[0] == '-' then 0 - Digits(s[1..], 0)
    else if s[0] == '+' then Digits(s[1..], 0)
    else Digits(s, 0)
  }

  function DigitChar(d: nat): (c: Ch)
    requires d < 10
    ensures IsDigit(c) && Digit(c) == d
  {
    ('0' as int + d) as char
  }

  function Decimal(n: nat): (s: seq<Ch>)
    ensures |s| > 0 && forall i :: 0 <= i < |s| ==> IsDigit(s[i])
  {
    if n < 10 then [DigitChar(n)] else Decimal(n / 10) + [DigitChar(n % 10)]
  }

  lemma {:induction false} DigitsAppend(s: seq<Ch>, c: Ch, acc: nat)
    requires IsDigit(c) && forall i :: 0 <= i < |s| ==> IsDigit(s[i])
    ensures Digits(s + [c], acc) == 10 * Digits(s, acc) + Digit(c)
    decreases |s|
  {
    if s == [] {
      assert (s + [c])[1..] == [];
    } else {
      assert (s + [c])[1..] == s[1..] + [c];
      DigitsAppend(s[1..], c, 10 * acc + Digit(s[0]));
    }
  }

  lemma {:induction false} DigitsOfDecimal(n: nat)
    ensures Digits(Decimal(n), 0) == n
  {
    if n < 10 {
      assert Decimal(n)[1..] == [];
    } else {
      DigitsOfDecimal(n / 10);
      DigitsAppend(Decimal(n / 10), DigitChar(n % 10), 0);
    }
  }

  /** Reading back a printed number gives the number. */
  lemma AtoiDecimal(n: nat)
    ensures Atoi(Decimal(n)) == n
  {
    DigitsOfDecimal(n);
    assert IsDigit(Decimal(n)[0]);
  }

  // ---- what atoi reads ----------------------------------------------------------------------------------------------

  /** The number that decimal digits stand for, last digit by last digit. */
  function Number(digits: seq<Ch>): nat
    requires forall i :: 0 <= i < |digits| ==> '0' <= digits[i] <= '9'
  {
    if digits == [] then 0
    else 10 * Number(digits[..|digits| - 1]) + (digits[|digits| - 1] as int - '0' as int)
  }

  lemma {:induction false} DigitsAre(digits: seq<Ch>, rest: seq<Ch>)
    requires forall i :: 0 <= i < |digits| ==> '0' <= digits[i] <= '9'
    requires rest == [] || !('0' <= rest[0] <= '9')
    ensures Digits(digits + rest, 0) == Number(digits)
  {
    DigitsStop(digits, rest, 0);
    DigitsNumber(digits);
  }

  lemma {:induction false} DigitsStop(digits: seq<Ch>, rest: seq<Ch>, acc: nat)
    requires forall i :: 0 <= i < |digits| ==> IsDigit(digits[i])
    requires rest == [] || !IsDigit(rest[0])
    ensures Digits(digits + rest, acc) == Digits(digits, acc)
    decreases |digits|
  {
    if digits == [] {
      assert digits + rest == rest;
    } else {
      assert (digits + rest)[1..] == digits[1..] + rest;
      DigitsStop(digits[1..], rest, 10 * acc + Digit(digits[0]));
    }
  }

  lemma {:induction false} DigitsNumber(digits: seq<Ch>)
    requires forall i :: 0 <= i < |digits| ==> '0' <= digits[i] <= '9'
    ensures Digits(digits, 0) == Number(digits)
    decreases |digits|
  {
    if digits != [] {
      var k := |digits| - 1;
      DigitsNumber(digits[..k]);
      DigitsAppend(digits[..k], digits[k], 0);
      assert digits[..k] + [digits[k]] == digits;
    }
  }

  /** The white space of the C library: space, and tab to carriage return. */
  predicate White(c: Ch) {
    c as int == 32 || 9 <= c as int <= 13
  }

  lemma {:induction false} WhiteIsSkipped(white: seq<Ch>, s: seq<Ch>)
    requires forall i :: 0 <= i < |white| ==> White(white[i])
    ensures Atoi(white + s) == Atoi(s)
    decreases |white|
  {
    if white == [] {
      assert white + s == s;
    } else {
      assert (white + s)[1..] == white[1..] + s;
      WhiteIsSkipped(white[1..], s);
    }
  }

  /**
   atoi on every string, taken apart: white space, perhaps a sign, digits, and a rest that does not go on with a digit.
   The value is that of the digits, negative behind a minus, and 0 if there are none.
   */
  lemma AtoiReads(white: seq<Ch>, sign: seq<Ch>, digits: seq<Ch>, rest: seq<Ch>)
    requires (forall i :: 0 <= i < |white| ==> White(white[i])) && (sign == "" || sign == "-" || sign == "+")
    requires (forall i :: 0 <= i < |digits| ==> '0' <= digits[i] <= '9') && (rest == [] || !('0' <= rest[0] <= '9'))
    requires sign == "" && digits == "" && rest != [] ==> !White(rest[0]) && rest[0] != '-' && rest[0] != '+'
    ensures Atoi(white + (sign + (digits + rest))) == if sign == "-" then 0 - Number(digits) else Number(digits)
  {
    WhiteIsSkipped(white, sign + (digits + rest));
    DigitsAre(digits, rest);
    var body := digits + rest;
    if sign == "" {
      assert sign + body == body;
      if digits != [] { assert body[0] == digits[0]; } else { assert body == rest; }
    } else {
      assert (sign + body)[1..] == body;
    }
  }
}
