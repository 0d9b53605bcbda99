/**
  Character- and string-level behaviour of the JavaScript built-ins the
  application relies on: the `\s` character class, `toLowerCase` (over
  ASCII), `String.prototype.includes`, `parseInt`, `Number(string)`, and the
  `join`/`split` pair used to build CSV lines.
 */
module Text {
  import opened Common

  /**
    The characters JavaScript's `\s` matches: the ECMAScript WhiteSpace and
    LineTerminator productions. The same set is what `parseInt` and `Number`
    trim.
   */
  predicate IsSpace(c: char) {
    || c == ' ' || c == '\t' || c == '\n' || c == '\U{000B}' || c == '\U{000C}' || c == '\r'
    || c == '\U{00A0}' || c == '\U{1680}' || ('\U{2000}' <= c <= '\U{200A}')
    || c == '\U{2028}' || c == '\U{2029}' || c == '\U{202F}' || c == '\U{205F}'
    || c == '\U{3000}' || c == '\U{FEFF}'
  }

  /** No character of `s` is whitespace. */
  predicate NoSpace(s: string) {
    forall i :: 0 <= i < |s| ==> !IsSpace(s[i])
  }

  /** JavaScript's `\d`: the ASCII decimal digits. */
  predicate IsDigit(c: char) {
    '0' <= c <= '9'
  }

  predicate AllDigits(s: string) {
    forall i :: 0 <= i < |s| ==> IsDigit(s[i])
  }

  /** `toLowerCase` on one character, restricted to ASCII letters. */
  function LowerChar(c: char): (d: char)
    ensures IsSpace(d) <==> IsSpace(c)
    ensures 'A' <= c <= 'Z' ==> 'a' <= d <= 'z' && d as int - c as int == 32
    ensures !('A' <= c <= 'Z') ==> d == c
  {
    if 'A' <= c <= 'Z' then (c as int + 32) as char else c
  }

  /** `toLowerCase` on a string, character by character. */
  function Lower(s: string): (r: string)
    ensures |r| == |s|
    ensures forall i :: 0 <= i < |s| ==> r[i] == LowerChar(s[i])
  {
    seq(|s|, i requires 0 <= i < |s| => LowerChar(s[i]))
  }

  /** `needle` occurs in `hay` starting at index `i`. */
  predicate OccursAt(hay: string, needle: string, i: int) {
    0 <= i <= |hay| - |needle| && hay[i..i + |needle|] == needle
  }

  /** `hay.includes(needle)`: `needle` occurs in `hay` at some position. */
  predicate Contains(hay: string, needle: string) {
    exists i | 0 <= i <= |hay| :: OccursAt(hay, needle, i)
  }

  /** Every string includes the empty string. */
  lemma ContainsEmpty(hay: string)
    ensures Contains(hay, "")
  {
    assert OccursAt(hay, "", 0);
  }

  /** A substring of a substring is a substring. */
  lemma ContainsTransitive(c: string, b: string, a: string)
    requires Contains(c, b) && Contains(b, a)
    ensures Contains(c, a)
  {
    var i :| 0 <= i <= |c| && OccursAt(c, b, i);
    var j :| 0 <= j <= |b| && OccursAt(b, a, j);
    forall k | 0 <= k < |a|
      ensures c[i + j + k] == a[k]
    {
      assert a[k] == b[j + k] == c[i..i + |b|][j + k];
    }
    assert c[i + j..i + j + |a|] == a;
    assert OccursAt(c, a, i + j);
  }

  function DigitChar(d: nat): (c: char)
    requires d < 10
    ensures IsDigit(c)
  {
    ['0', '1', '2', '3', '4', '5', '6', '7', '8', '9'][d]
  }

  function DigitValue(c: char): (d: nat)
    requires IsDigit(c)
    ensures d < 10 && DigitChar(d) == c
  {
    c as int - '0' as int
  }

  /** The value of a string of decimal digits (most significant first). */
  function DecimalValue(s: string): nat
    requires AllDigits(s)
  {
    if s == [] then 0 else DecimalValue(s[..|s| - 1]) * 10 + DigitValue(s[|s| - 1])
  }

  /** JavaScript's `String(n)` for a non-negative integer. */
  function NatToDecimal(n: nat): (s: string)
    ensures |s| > 0 && AllDigits(s)
    ensures DecimalValue(s) == n
  {
    if n < 10 then [DigitChar(n)]
    else
      var s := NatToDecimal(n / 10) + [DigitChar(n % 10)];
      assert s[..|s| - 1] == NatToDecimal(n / 10);
      s
  }

  /** Drop leading whitespace. */
  function TrimStart(s: string): (r: string)
    ensures |r| <= |s|
    ensures r == [] || !IsSpace(r[0])
  {
    if s != [] && IsSpace(s[0]) then TrimStart(s[1..]) else s
  }

  /** `TrimStart` keeps a suffix and drops whitespace only. */
  lemma {:induction false} TrimStartDropsSpaces(s: string)
    ensures TrimStart(s) == s[|s| - |TrimStart(s)|..]
    ensures forall i :: 0 <= i < |s| - |TrimStart(s)| ==> IsSpace(s[i])
    decreases |s|
  {
    if s != [] && IsSpace(s[0]) {
      TrimStartDropsSpaces(s[1..]);
    }
  }

  /** Drop trailing whitespace. */
  function TrimEnd(s: string): (r: string)
    ensures |r| <= |s| && r == s[..|r|]
    ensures r == [] || !IsSpace(r[|r| - 1])
    ensures forall i :: |r| <= i < |s| ==> IsSpace(s[i])
  {
    if s != [] && IsSpace(s[|s| - 1]) then TrimEnd(s[..|s| - 1]) else s
  }

  /** The longest prefix of `s` made of decimal digits. */
  function DigitPrefix(s: string): (r: string)
    ensures AllDigits(r) && |r| <= |s| && r == s[..|r|]
    ensures |r| < |s| ==> !IsDigit(s[|r|])
  {
    if s != [] && IsDigit(s[0]) then [s[0]] + DigitPrefix(s[1..]) else []
  }

  /**
    Split an optional leading sign off `s`: the sign is -1 for `-`, and +1
    for `+` or no sign.
   */
  function SplitSign(s: string): (r: (int, string))
    ensures r.0 == -1 || r.0 == 1
    ensures |r.1| <= |s|
  {
    if s != [] && s[0] == '-' then (-1, s[1..])
    else if s != [] && s[0] == '+' then (1, s[1..])
    else (1, s)
  }

  /** Text a number can be read from: a digit first, or a sign and then a digit. */
  predicate StartsNumeric(t: string) {
    || (t != [] && IsDigit(t[0]))
    || (|t| >= 2 && (t[0] == '-' || t[0] == '+') && IsDigit(t[1]))
  }

  /** Text that starts with a minus sign. */
  predicate StartsWithMinus(t: string) {
    t != [] && t[0] == '-'
  }

  /**
    `parseInt(s)` with the default radix on decimal text: leading whitespace
    is skipped, an optional sign is read, then the longest run of digits;
    `None` stands for `NaN` (no digit at all).
   */
  function ParseInt(s: string): (r: Option<int>)
    ensures r.Some? <==> StartsNumeric(TrimStart(s))
    ensures r.Some? && !StartsWithMinus(TrimStart(s)) ==> r.value >= 0
  {
    var (sign, body) := SplitSign(TrimStart(s));
    var digits := DigitPrefix(body);
    if digits == [] then None else Some(sign * DecimalValue(digits))
  }

  /** `parseInt` reads back the decimal text of every natural number. */
  lemma ParseIntDecimal(n: nat)
    ensures ParseInt(NatToDecimal(n)) == Some(n)
  {
    var s := NatToDecimal(n);
    assert TrimStart(s) == s by {
      assert !IsSpace(s[0]);
    }
    assert SplitSign(s) == (1, s);
    DigitPrefixOfDigits(s);
  }

  /** The digit prefix of an all-digit string is the whole string. */
  lemma {:induction false} DigitPrefixOfDigits(s: string)
    requires AllDigits(s)
    ensures DigitPrefix(s) == s
  {
    if s != [] {
      DigitPrefixOfDigits(s[1..]);
    }
  }

  /** Leading whitespace in front of text that starts with something else is skipped entirely. */
  lemma {:induction false} TrimStartRun(ws: string, t: string)
    requires forall i :: 0 <= i < |ws| ==> IsSpace(ws[i])
    requires t == [] || !IsSpace(t[0])
    ensures TrimStart(ws + t) == t
    decreases |ws|
  {
    if ws == [] {
      assert ws + t == t;
    } else {
      assert (ws + t)[1..] == ws[1..] + t;
      TrimStartRun(ws[1..], t);
    }
  }

  /** The digit prefix stops at the first character that is not a digit. */
  lemma {:induction false} DigitPrefixStops(d: string, rest: string)
    requires AllDigits(d)
    requires rest == [] || !IsDigit(rest[0])
    ensures DigitPrefix(d + rest) == d
    decreases |d|
  {
    if d == [] {
      assert d + rest == rest;
    } else {
      assert (d + rest)[1..] == d[1..] + rest;
      assert (d + rest)[0] == d[0];
      DigitPrefixStops(d[1..], rest);
      assert [d[0]] + d[1..] == d;
    }
  }

  /** The value a sign text in front of a number gives it. */
  function Signed(sign: string, v: real): real {
    if sign == "-" then -v else v
  }

  /** A sign text in front of text that does not start with a sign is split off again. */
  lemma SplitSignOf(sign: string, u: string)
    requires sign == "" || sign == "+" || sign == "-"
    requires u != [] && u[0] != '-' && u[0] != '+'
    ensures SplitSign(sign + u) == (if sign == "-" then -1 else 1, u)
  {
    if sign == "" {
      assert sign + u == u;
    } else {
      assert (sign + u)[0] == sign[0];
      assert (sign + u)[1..] == u;
    }
  }

  /** Concatenation regrouped to the right. */
  lemma Regroup(a: string, b: string, c: string, e: string)
    ensures a + b + c + e == a + (b + (c + e))
  {
  }

  /** Decimal text followed by anything starts with a digit. */
  lemma DecimalStart(n: nat, rest: string)
    ensures (NatToDecimal(n) + rest)[0] == NatToDecimal(n)[0]
    ensures IsDigit(NatToDecimal(n)[0])
  {
  }

  /**
    `parseInt` on whitespace, an optional sign, the decimal text of `n` and
    any text that does not start with a digit reads the signed `n` and
    ignores the rest.
   */
  lemma ParseIntReads(ws: string, sign: string, n: nat, rest: string)
    requires forall i :: 0 <= i < |ws| ==> IsSpace(ws[i])
    requires sign == "" || sign == "+" || sign == "-"
    requires rest == [] || !IsDigit(rest[0])
    ensures ParseInt(ws + sign + NatToDecimal(n) + rest) == Some(if sign == "-" then -(n as int) else n as int)
  {
    var d := NatToDecimal(n);
    var body := sign + (d + rest);
    DecimalStart(n, rest);
    calc {
      ParseInt(ws + sign + d + rest);
      { Regroup(ws, sign, d, rest); }
      ParseInt(ws + body);
      { SignedTextStartsUnspaced(sign, d + rest); ParseIntSkipsSpaces(ws, body); }
      ParseInt(body);
      { ParseIntOfSigned(sign, d, rest); }
      Some((if sign == "-" then -1 else 1) * DecimalValue(d));
      Some(if sign == "-" then -(n as int) else n as int);
    }
  }

  /** Leading whitespace does not change what `parseInt` reads. */
  lemma ParseIntSkipsSpaces(ws: string, t: string)
    requires forall i :: 0 <= i < |ws| ==> IsSpace(ws[i])
    requires t != [] && !IsSpace(t[0])
    ensures ParseInt(ws + t) == ParseInt(t)
  {
    TrimStartRun(ws, t);
    TrimStartRun([], t);
    assert [] + t == t;
  }

  /** `parseInt` on a sign, a digit run and a non-digit rest reads the signed run. */
  lemma ParseIntOfSigned(sign: string, d: string, rest: string)
    requires sign == "" || sign == "+" || sign == "-"
    requires d != [] && AllDigits(d)
    requires rest == [] || !IsDigit(rest[0])
    ensures ParseInt(sign + (d + rest)) == Some((if sign == "-" then -1 else 1) * DecimalValue(d))
  {
    var t := sign + (d + rest);
    assert (d + rest)[0] == d[0];
    SignedTextStartsUnspaced(sign, d + rest);
    TrimStartRun([], t);
    assert [] + t == t;
    SignedDigitsSplit(sign, d, rest);
  }

  /** Text starting with a sign or a digit does not start with whitespace. */
  lemma SignedTextStartsUnspaced(sign: string, u: string)
    requires sign == "" || sign == "+" || sign == "-"
    requires u != [] && IsDigit(u[0])
    ensures !IsSpace((sign + u)[0])
  {
    if sign == "" {
      assert (sign + u)[0] == u[0];
    } else {
      assert (sign + u)[0] == sign[0];
    }
    LiteralCharNotSpace((sign + u)[0]);
  }

  /** A sign, a digit run and a non-digit rest split into the sign and exactly that run. */
  lemma SignedDigitsSplit(sign: string, d: string, rest: string)
    requires sign == "" || sign == "+" || sign == "-"
    requires d != [] && AllDigits(d)
    requires rest == [] || !IsDigit(rest[0])
    ensures SplitSign(sign + (d + rest)) == (if sign == "-" then -1 else 1, d + rest)
    ensures DigitPrefix(d + rest) == d
  {
    assert (d + rest)[0] == d[0];
    SplitSignOf(sign, d + rest);
    DigitPrefixStops(d, rest);
  }

  /**
    `Number` on an optionally signed decimal literal with a fraction part,
    `whole.frac`, reads the signed value `whole + frac / 10^|frac|`.
   */
  lemma ParseNumberReads(sign: string, whole: nat, frac: string)
    requires sign == "" || sign == "+" || sign == "-"
    requires AllDigits(frac)
    ensures ParseNumber(sign + NatToDecimal(whole) + "." + frac)
      == Some(Signed(sign, whole as real + FractionValue(frac)))
  {
    UnsignedWithFraction(whole, frac);
    SignedLiteral(sign, whole, frac, whole as real + FractionValue(frac));
  }

  /** The signed literal `whole.frac` reads as its unsigned value `v` with the sign applied. */
  lemma SignedLiteral(sign: string, whole: nat, frac: string, v: real)
    requires sign == "" || sign == "+" || sign == "-"
    requires AllDigits(frac)
    requires UnsignedDecimal(NatToDecimal(whole) + ("." + frac)) == Some(v)
    ensures ParseNumber(sign + NatToDecimal(whole) + "." + frac) == Some(Signed(sign, v))
  {
    var d := NatToDecimal(whole);
    var body := d + ("." + frac);
    Regroup(sign, d, ".", frac);
    DecimalStart(whole, "." + frac);
    LiteralNeedsNoTrim(sign, d, frac, sign + body);
    SignedDecimalOf(sign, body, v);
  }

  /** A signed literal `d.frac` has nothing to trim, so `Number` reads it as a signed literal. */
  lemma LiteralNeedsNoTrim(sign: string, d: string, frac: string, t: string)
    requires sign == "" || sign == "+" || sign == "-"
    requires d != [] && IsDigit(d[0])
    requires AllDigits(frac)
    requires t == sign + (d + ("." + frac))
    ensures ParseNumber(t) == SignedDecimal(t)
  {
    LiteralFirstNotSpace(sign, d, "." + frac, t);
    LiteralLastNotSpace(sign + d, frac, t);
    ParseNumberOfTrimmed(t);
  }

  /** A sign (or none) and then a digit: the first character is not whitespace. */
  lemma LiteralFirstNotSpace(sign: string, d: string, rest: string, t: string)
    requires sign == "" || sign == "+" || sign == "-"
    requires d != [] && IsDigit(d[0])
    requires t == sign + (d + rest)
    ensures t != [] && !IsSpace(t[0])
  {
    if sign == "" {
      assert t[0] == d[0];
    } else {
      assert t[0] == sign[0];
    }
    LiteralCharNotSpace(t[0]);
  }

  /** A `.` followed by digits: the last character is not whitespace. */
  lemma LiteralLastNotSpace(front: string, frac: string, t: string)
    requires AllDigits(frac)
    requires t == front + ("." + frac)
    ensures t != [] && !IsSpace(t[|t| - 1])
  {
    if frac == [] {
      assert t[|t| - 1] == '.';
    } else {
      assert t[|t| - 1] == frac[|frac| - 1];
    }
    LiteralCharNotSpace(t[|t| - 1]);
  }

  /** No character of a number literal is whitespace. */
  lemma LiteralCharNotSpace(c: char)
    requires IsDigit(c) || c == '+' || c == '-' || c == '.'
    ensures !IsSpace(c)
  {
  }

  /** A sign in front of an unsigned literal gives the literal's value that sign. */
  lemma SignedDecimalOf(sign: string, body: string, v: real)
    requires sign == "" || sign == "+" || sign == "-"
    requires body != [] && body[0] != '-' && body[0] != '+'
    requires UnsignedDecimal(body) == Some(v)
    ensures SignedDecimal(sign + body) == Some(Signed(sign, v))
  {
    SplitSignOf(sign, body);
  }

  /** `Number` on text with nothing to trim reads it as a signed literal. */
  lemma ParseNumberOfTrimmed(t: string)
    requires t != [] && !IsSpace(t[0]) && !IsSpace(t[|t| - 1])
    ensures ParseNumber(t) == SignedDecimal(t)
  {
    assert TrimStart(t) == t;
    assert TrimEnd(t) == t;
  }

  /** The decimal text of `whole`, a `.` and more digits read as the whole part plus the scaled fraction. */
  lemma UnsignedWithFraction(whole: nat, frac: string)
    requires AllDigits(frac)
    ensures UnsignedDecimal(NatToDecimal(whole) + ("." + frac)) == Some(whole as real + FractionValue(frac))
  {
    DigitsWithFraction(NatToDecimal(whole), frac);
  }

  /** Digits, a `.` and more digits read as the digits' value plus the scaled fraction. */
  lemma DigitsWithFraction(d: string, frac: string)
    requires d != [] && AllDigits(d)
    requires AllDigits(frac)
    ensures UnsignedDecimal(d + ("." + frac)) == Some(DecimalValue(d) as real + FractionValue(frac))
  {
    var u := d + ("." + frac);
    assert DigitPrefix(u) == d by { DigitPrefixStops(d, "." + frac); }
    var rest := u[|d|..];
    assert rest[0] == '.' && rest[1..] == frac by { assert rest == "." + frac; }
  }

  /** Ten to the power `k`. */
  function Pow10(k: nat): (p: nat)
    ensures p >= 1
  {
    if k == 0 then 1 else 10 * Pow10(k - 1)
  }

  /** The value of the digits after a decimal point: `frac / 10^|frac|`. */
  function FractionValue(frac: string): real
    requires AllDigits(frac)
  {
    DecimalValue(frac) as real / Pow10(|frac|) as real
  }

  /**
    An unsigned decimal literal as `Number` reads it: digits, optionally a
    `.` and more digits, with at least one digit in all.
   */
  function UnsignedDecimal(u: string): (r: Option<real>)
  {
    var whole := DigitPrefix(u);
    var rest := u[|whole|..];
    if rest == [] then
      if whole == [] then None else Some(DecimalValue(whole) as real)
    else if rest[0] != '.' || !AllDigits(rest[1..]) || (whole == [] && |rest| == 1) then None
    else
      var frac := rest[1..];
      Some(DecimalValue(whole) as real + FractionValue(frac))
  }

  /**
    `Number(s)` on decimal text: surrounding whitespace is trimmed, a blank
    string is 0, an optional sign precedes an unsigned decimal literal, and
    anything else is `NaN` (`None`).
   */
  function ParseNumber(s: string): (r: Option<real>)
    ensures (forall i :: 0 <= i < |s| ==> IsSpace(s[i])) ==> r == Some(0.0)
  {
    TrimStartDropsSpaces(s);
    var t := TrimEnd(TrimStart(s));
    if t == [] then Some(0.0) else SignedDecimal(t)
  }

  /** An optional sign followed by an unsigned decimal literal; `None` for anything else. */
  function SignedDecimal(t: string): Option<real> {
    var (sign, body) := SplitSign(t);
    match UnsignedDecimal(body)
    case None => None
    case Some(v) => Some(if sign < 0 then -v else v)
  }

  /** `Number` reads back the decimal text of every natural number. */
  lemma ParseNumberDecimal(n: nat)
    ensures ParseNumber(NatToDecimal(n)) == Some(n as real)
  {
    var s := NatToDecimal(n);
    TrimDigits(s);
    assert SplitSign(s) == (1, s);
    UnsignedDecimalOfDigits(s);
    assert ParseNumber(s) == Some(DecimalValue(s) as real);
  }

  /** Trimming leaves a non-empty digit string alone. */
  lemma TrimDigits(s: string)
    requires s != [] && AllDigits(s)
    ensures TrimStart(s) == s && TrimEnd(s) == s
  {
    assert IsDigit(s[0]) && IsDigit(s[|s| - 1]);
    assert !IsSpace(s[0]) && !IsSpace(s[|s| - 1]);
  }

  /** A non-empty digit string is read as its decimal value. */
  lemma UnsignedDecimalOfDigits(s: string)
    requires s != [] && AllDigits(s)
    ensures UnsignedDecimal(s) == Some(DecimalValue(s) as real)
  {
    DigitPrefixOfDigits(s);
    assert s[|s|..] == [];
  }

  /** `parts.join(sep)` for a one-character separator. */
  function Join(parts: seq<string>, sep: char): string {
    if parts == [] then ""
    else if |parts| == 1 then parts[0]
    else parts[0] + [sep] + Join(parts[1..], sep)
  }

  /** `s.split(sep)` for a one-character separator: always at least one piece. */
  function Split(s: string, sep: char): (r: seq<string>)
    ensures |r| >= 1
  {
    if s == [] then [""]
    else
      var rest := Split(s[1..], sep);
      if s[0] == sep then [""] + rest else [[s[0]] + rest[0]] + rest[1..]
  }

  /** A piece free of the separator splits into itself alone. */
  lemma {:induction false} SplitPlain(p: string, sep: char)
    requires sep !in p
    ensures Split(p, sep) == [p]
  {
    if p != [] {
      SplitPlain(p[1..], sep);
      assert [p[0]] + p[1..] == p;
    }
  }

  /** Splitting stops at the first separator. */
  lemma {:induction false} SplitAtSeparator(p: string, sep: char, t: string)
    requires sep !in p
    ensures Split(p + [sep] + t, sep) == [p] + Split(t, sep)
  {
    if p == [] {
      assert p + [sep] + t == [sep] + t;
      assert ([sep] + t)[1..] == t;
    } else {
      SplitAtSeparator(p[1..], sep, t);
      assert (p + [sep] + t)[1..] == p[1..] + [sep] + t;
      assert [p[0]] + p[1..] == p;
    }
  }

  /**
    Joining pieces that do not contain the separator and splitting the result
    again gives back the pieces.
   */
  lemma {:induction false} SplitJoin(parts: seq<string>, sep: char)
    requires |parts| >= 1
    requires forall i :: 0 <= i < |parts| ==> sep !in parts[i]
    ensures Split(Join(parts, sep), sep) == parts
    decreases |parts|
  {
    if |parts| == 1 {
      SplitPlain(parts[0], sep);
    } else {
      SplitJoin(parts[1..], sep);
      SplitAtSeparator(parts[0], sep, Join(parts[1..], sep));
      assert [parts[0]] + parts[1..] == parts;
    }
  }
}
