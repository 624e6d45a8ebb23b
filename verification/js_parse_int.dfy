/**
 * JavaScript's global `parseInt(string)` called without a radix, as the priority scorer uses it:
 * skip leading whitespace, read an optional sign, switch to base 16 after a `0x`/`0X` prefix,
 * then read the longest run of digits of that base. No digits gives NaN, modelled as None.
 * Values are exact integers; JavaScript rounds ones beyond 2^53 to the nearest double,
 * which never changes how they compare with 0, 1 or 5.
 */
module JsParseInt {
  import opened Wrappers
  import opened JsText

  /** The value of a character read as a base-36 digit, or 36 when it is not one. */
  function DigitValue(c: char): (d: nat)
    ensures d <= 36
    ensures d < 10 <==> IsDecimalDigit(c)
  {
    if '0' <= c <= '9' then c as int - '0' as int
    else if 'a' <= c <= 'z' then c as int - 'a' as int + 10
    else if 'A' <= c <= 'Z' then c as int - 'A' as int + 10
    else 36
  }

  predicate IsDigitIn(c: char, radix: nat) {
    DigitValue(c) < radix
  }

  predicate AllDigitsIn(s: string, radix: nat) {
    forall i :: 0 <= i < |s| ==> IsDigitIn(s[i], radix)
  }

  /** The length of the longest prefix of `s` made of digits of `radix`. */
  function DigitRun(s: string, radix: nat): (n: nat)
    ensures n <= |s|
    ensures AllDigitsIn(s[..n], radix)
    ensures n < |s| ==> !IsDigitIn(s[n], radix)
  {
    if |s| > 0 && IsDigitIn(s[0], radix) then
      var n := 1 + DigitRun(s[1..], radix);
      assert s[..n] == [s[0]] + s[1..][..n - 1];
      n
    else 0
  }

  /** The number a string of digits denotes in `radix`, most significant digit first. */
  function ValueIn(digits: string, radix: nat): nat
  {
    if |digits| == 0 then 0
    else ValueIn(digits[..|digits| - 1], radix) * radix + DigitValue(digits[|digits| - 1])
  }

  /** The text after an optional leading sign. */
  function AfterSign(t: string): string {
    if |t| > 0 && (t[0] == '-' || t[0] == '+') then t[1..] else t
  }

  /** What `parseInt` reads after skipping whitespace and an optional sign. */
  function Unsigned(s: string): string {
    AfterSign(TrimStart(s))
  }

  predicate IsNegative(s: string) {
    var t := TrimStart(s);
    |t| > 0 && t[0] == '-'
  }

  predicate HasHexPrefix(u: string) {
    |u| >= 2 && u[0] == '0' && (u[1] == 'x' || u[1] == 'X')
  }

  function Radix(u: string): nat {
    if HasHexPrefix(u) then 16 else 10
  }

  /** The digits `parseInt` converts, read from the unsigned text `u`. */
  function Digits(u: string): (d: string)
    ensures AllDigitsIn(d, Radix(u))
  {
    var body := if HasHexPrefix(u) then u[2..] else u;
    body[..DigitRun(body, Radix(u))]
  }

  /** The number read from the unsigned text `u`, negated when a minus sign preceded it. */
  function ParseUnsigned(u: string, negative: bool): (r: Option<int>)
    ensures r.Some? ==> |u| > 0 && IsDecimalDigit(u[0])
    ensures r.Some? && r.value < 0 ==> negative
  {
    var d := Digits(u);
    if |d| == 0 then None
    else
      assert IsDigitIn(d[0], Radix(u));
      assert !HasHexPrefix(u) ==> u[0] == d[0];
      var v: int := ValueIn(d, Radix(u));
      Some(if negative then -v else v)
  }

  /** `parseInt(s)`; None stands for NaN. */
  function ParseInt(s: string): (r: Option<int>)
    ensures r.Some? ==> |Unsigned(s)| > 0 && IsDecimalDigit(Unsigned(s)[0])
    ensures r.Some? && r.value < 0 ==> IsNegative(s)
  {
    ParseUnsigned(Unsigned(s), IsNegative(s))
  }

  /** Text whose first character after whitespace and sign is not a decimal digit is NaN. */
  lemma NaNWithoutLeadingDigit(s: string)
    requires |Unsigned(s)| == 0 || !IsDecimalDigit(Unsigned(s)[0])
    ensures ParseInt(s) == None
  {
  }

  lemma {:induction false} DigitRunOfDigits(digits: string, rest: string, radix: nat)
    requires AllDigitsIn(digits, radix)
    requires |rest| == 0 || !IsDigitIn(rest[0], radix)
    ensures DigitRun(digits + rest, radix) == |digits|
    decreases |digits|
  {
    if |digits| > 0 {
      assert (digits + rest)[1..] == digits[1..] + rest;
      DigitRunOfDigits(digits[1..], rest, radix);
    } else {
      assert digits + rest == rest;
    }
  }

  lemma {:induction false} ValueOfDecimal(n: nat)
    ensures AllDigitsIn(NatToString(n), 10)
    ensures ValueIn(NatToString(n), 10) == n
  {
    if n >= 10 {
      ValueOfDecimal(n / 10);
      var s := NatToString(n);
      assert s[..|s| - 1] == NatToString(n / 10);
    }
  }

  function HexDigitChar(d: nat): (c: char)
    requires d < 16
    ensures DigitValue(c) == d
  {
    if d < 10 then (('0' as int) + d) as char else (('a' as int) + d - 10) as char
  }

  /** The lower-case hexadecimal rendering of a non-negative integer. */
  function NatToHex(n: nat): (r: string)
    ensures |r| > 0 && AllDigitsIn(r, 16)
  {
    if n < 16 then [HexDigitChar(n)] else NatToHex(n / 16) + [HexDigitChar(n % 16)]
  }

  lemma {:induction false} ValueOfHex(n: nat)
    ensures ValueIn(NatToHex(n), 16) == n
  {
    if n >= 16 {
      ValueOfHex(n / 16);
      var s := NatToHex(n);
      assert s[..|s| - 1] == NatToHex(n / 16);
    }
  }

  /** Whitespace and a sign in front of a numeral are what `parseInt` strips before reading it. */
  lemma UnsignedAfterWhitespace(ws: string, sign: string, u: string)
    requires AllWhitespace(ws)
    requires sign == "" || sign == "-" || sign == "+"
    requires |u| > 0 && IsDecimalDigit(u[0])
    ensures Unsigned(ws + sign + u) == u
    ensures IsNegative(ws + sign + u) <==> sign == "-"
  {
    var x := sign + u;
    assert ws + sign + u == ws + x;
    assert x[0] == (if sign == "" then u[0] else sign[0]);
    TrimStartAfterWhitespace(ws, x);
    AfterSignOfSign(sign, u);
  }

  lemma AfterSignOfSign(sign: string, u: string)
    requires sign == "" || sign == "-" || sign == "+"
    requires |u| > 0 && IsDecimalDigit(u[0])
    ensures AfterSign(sign + u) == u
  {
    if sign != "" {
      assert (sign + u)[1..] == u;
    } else {
      assert sign + u == u;
    }
  }

  /** A decimal numeral not followed by a digit (nor by `x` after a lone `0`) is read whole. */
  lemma DigitsOfDecimal(m: nat, rest: string)
    requires |rest| == 0 || !IsDecimalDigit(rest[0])
    requires m == 0 ==> |rest| == 0 || (rest[0] != 'x' && rest[0] != 'X')
    ensures !HasHexPrefix(NatToString(m) + rest)
    ensures Digits(NatToString(m) + rest) == NatToString(m)
  {
    var digits := NatToString(m);
    var u := digits + rest;
    assert u[0] == digits[0];
    if |digits| == 1 {
      assert |u| >= 2 ==> u[1] == rest[0];
    } else {
      assert u[1] == digits[1];
    }
    ValueOfDecimal(m);
    DigitRunOfDigits(digits, rest, 10);
    assert u[..|digits|] == digits;
  }

  /**
   * An integer written in decimal after optional whitespace, and followed by anything that does
   * not extend the numeral, parses to itself. A `0` directly followed by `x` or `X` would start a
   * hexadecimal numeral instead.
   */
  lemma ParseLeadingDecimal(ws: string, n: int, rest: string)
    requires AllWhitespace(ws)
    requires |rest| == 0 || !IsDecimalDigit(rest[0])
    requires n == 0 ==> |rest| == 0 || (rest[0] != 'x' && rest[0] != 'X')
    ensures ParseInt(ws + IntToString(n) + rest) == Some(n)
  {
    var m: nat := if n < 0 then -n else n;
    var sign := if n < 0 then "-" else "";
    var u := NatToString(m) + rest;
    SignedText(ws, n, rest);
    UnsignedAfterWhitespace(ws, sign, u);
    ParseUnsignedDecimal(m, rest, n < 0);
  }

  /** The decimal text of `n` is a minus sign for a negative `n`, then the digits of its magnitude. */
  lemma SignedText(ws: string, n: int, rest: string)
    ensures ws + IntToString(n) + rest
         == ws + (if n < 0 then "-" else "") + (NatToString(if n < 0 then -n else n) + rest)
  {
    var sign := if n < 0 then "-" else "";
    var d := NatToString(if n < 0 then -n else n);
    assert IntToString(n) == sign + d;
    assert ws + (sign + d) + rest == ws + sign + (d + rest);
  }

  lemma ParseUnsignedDecimal(m: nat, rest: string, negative: bool)
    requires |rest| == 0 || !IsDecimalDigit(rest[0])
    requires m == 0 ==> |rest| == 0 || (rest[0] != 'x' && rest[0] != 'X')
    ensures ParseUnsigned(NatToString(m) + rest, negative) == Some(if negative then -(m as int) else m as int)
  {
    DigitsOfDecimal(m, rest);
    ValueOfDecimal(m);
  }

  lemma DigitsOfHex(prefix: string, digits: string, rest: string)
    requires prefix == "0x" || prefix == "0X"
    requires AllDigitsIn(digits, 16)
    requires |rest| == 0 || !IsDigitIn(rest[0], 16)
    ensures HasHexPrefix(prefix + digits + rest)
    ensures Digits(prefix + digits + rest) == digits
  {
    var u := prefix + digits + rest;
    assert u[0] == '0' && u[1] == prefix[1];
    assert u[2..] == digits + rest;
    DigitRunOfDigits(digits, rest, 16);
    assert (digits + rest)[..|digits|] == digits;
  }

  /** `0x` or `0X` followed by hexadecimal digits parses in base 16, with or without a sign. */
  lemma ParseLeadingHex(ws: string, sign: string, prefix: string, n: nat, rest: string)
    requires AllWhitespace(ws)
    requires sign == "" || sign == "-" || sign == "+"
    requires prefix == "0x" || prefix == "0X"
    requires |rest| == 0 || !IsDigitIn(rest[0], 16)
    ensures ParseInt(ws + sign + prefix + NatToHex(n) + rest) == Some(if sign == "-" then -(n as int) else n)
  {
    var u := prefix + NatToHex(n) + rest;
    RegroupText(ws + sign, prefix, NatToHex(n), rest);
    assert u[0] == '0';
    UnsignedAfterWhitespace(ws, sign, u);
    ParseUnsignedHex(prefix, n, rest, sign == "-");
  }

  lemma RegroupText(a: string, b: string, c: string, d: string)
    ensures a + b + c + d == a + (b + c + d)
  {
  }

  lemma ParseUnsignedHex(prefix: string, n: nat, rest: string, negative: bool)
    requires prefix == "0x" || prefix == "0X"
    requires |rest| == 0 || !IsDigitIn(rest[0], 16)
    ensures ParseUnsigned(prefix + NatToHex(n) + rest, negative) == Some(if negative then -(n as int) else n as int)
  {
    DigitsOfHex(prefix, NatToHex(n), rest);
    ValueOfHex(n);
  }

  lemma {:induction false} DigitRunBeforeWhitespace(b: string, w: string, radix: nat)
    requires radix <= 16
    requires AllWhitespace(w)
    ensures DigitRun(b + w, radix) == DigitRun(b, radix)
    ensures (b + w)[..DigitRun(b, radix)] == b[..DigitRun(b, radix)]
    decreases |b|
  {
    var n := DigitRun(b, radix);
    if |b| == 0 {
      assert b + w == w;
      assert |w| > 0 ==> !IsDigitIn(w[0], radix) by {
        assert |w| > 0 ==> IsWhitespace(w[0]);
      }
    } else if IsDigitIn(b[0], radix) {
      assert (b + w)[1..] == b[1..] + w;
      DigitRunBeforeWhitespace(b[1..], w, radix);
    }
  }

  /** `parseInt` already ignores whatever trailing whitespace `trim` would remove. */
  lemma ParseIgnoresTrailingWhitespace(s: string)
    ensures ParseInt(TrimEnd(s)) == ParseInt(s)
  {
    var e := TrimEnd(s);
    var w := s[|e|..];
    assert s == e + w;
    if |TrimStart(e)| == 0 {
      TrimStartOfWhitespaceTail(e, w);
      NaNWithoutLeadingDigit(s);
      NaNWithoutLeadingDigit(e);
    } else {
      ParseBeforeWhitespace(e, w);
    }
  }

  lemma ParseBeforeWhitespace(e: string, w: string)
    requires |TrimStart(e)| > 0 && AllWhitespace(w)
    ensures ParseInt(e + w) == ParseInt(e)
  {
    var te := TrimStart(e);
    TrimStartBeforeWhitespace(e, w);
    AfterSignBeforeWhitespace(te, w);
    ParseUnsignedBeforeWhitespace(AfterSign(te), w, IsNegative(e));
  }

  lemma AfterSignBeforeWhitespace(t: string, w: string)
    requires |t| > 0
    ensures AfterSign(t + w) == AfterSign(t) + w
    ensures (t + w)[0] == t[0]
  {
    if t[0] == '-' || t[0] == '+' {
      assert (t + w)[1..] == t[1..] + w;
    }
  }

  lemma ParseUnsignedBeforeWhitespace(u: string, w: string, negative: bool)
    requires AllWhitespace(w)
    ensures ParseUnsigned(u + w, negative) == ParseUnsigned(u, negative)
  {
    DigitsBeforeWhitespace(u, w);
  }

  lemma {:induction false} TrimStartOfWhitespaceTail(x: string, w: string)
    requires TrimStart(x) == [] && AllWhitespace(w)
    ensures TrimStart(x + w) == []
    decreases |x|
  {
    if |x| > 0 {
      assert (x + w)[1..] == x[1..] + w;
      TrimStartOfWhitespaceTail(x[1..], w);
    } else {
      assert x + w == w;
      TrimStartOfWhitespace(w);
    }
  }

  lemma {:induction false} TrimStartBeforeWhitespace(x: string, w: string)
    requires |TrimStart(x)| > 0
    ensures TrimStart(x + w) == TrimStart(x) + w
    decreases |x|
  {
    if IsWhitespace(x[0]) {
      assert (x + w)[1..] == x[1..] + w;
      TrimStartBeforeWhitespace(x[1..], w);
    }
  }

  /** Whitespace after the unsigned text never becomes part of the digits `parseInt` reads. */
  lemma DigitsBeforeWhitespace(u: string, w: string)
    requires AllWhitespace(w)
    ensures HasHexPrefix(u + w) == HasHexPrefix(u)
    ensures Digits(u + w) == Digits(u)
  {
    var v := u + w;
    if |u| >= 2 {
      assert v[0] == u[0] && v[1] == u[1];
    } else if |u| == 1 && |w| > 0 {
      assert v[1] == w[0] && IsWhitespace(w[0]);
    } else if |u| == 0 && |w| > 0 {
      assert v[0] == w[0] && IsWhitespace(w[0]);
    }
    var b := if HasHexPrefix(u) then u[2..] else u;
    assert (if HasHexPrefix(v) then v[2..] else v) == b + w;
    DigitRunBeforeWhitespace(b, w, Radix(u));
  }

  lemma AllWhitespaceAppend(a: string, b: string)
    requires AllWhitespace(a) && AllWhitespace(b)
    ensures AllWhitespace(a + b)
  {
  }

  lemma {:induction false} TrimStartOfWhitespace(s: string)
    requires AllWhitespace(s)
    ensures TrimStart(s) == []
    decreases |s|
  {
    if |s| > 0 {
      TrimStartOfWhitespace(s[1..]);
    }
  }

  /** Hence parsing the trimmed reply is the same as parsing the raw reply. */
  lemma ParseIgnoresTrim(s: string)
    ensures ParseInt(Trim(s)) == ParseInt(s)
  {
    ParseIgnoresTrailingWhitespace(TrimStart(s));
    ParseIgnoresLeadingWhitespace(s);
  }

  lemma ParseIgnoresLeadingWhitespace(s: string)
    ensures ParseInt(TrimStart(s)) == ParseInt(s)
  {
    var t := TrimStart(s);
    if |t| > 0 {
      assert TrimStart(t) == t;
    }
  }
}
