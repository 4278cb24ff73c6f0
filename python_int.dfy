/** Python's `int(s, base)` on strings for bases 10 and 16, restricted to ASCII
    text, and the digit formatting it inverts (`str(n)`, `hex(n)`,
    `format(n, 'b')`). The grammar follows CPython: surrounding whitespace is
    ignored, one optional sign, for base 16 an optional `0x`/`0X` prefix that
    may be followed by one underscore, then digits with single underscores
    allowed between them. */
module PyInt {
  import opened Common

  /** The ASCII whitespace `int()` skips around the number: space, tab, line
      feed, carriage return, vertical tab and form feed. */
  predicate IsSpace(c: char)
  {
    c == ' ' || c == '\t' || c == '\n' || c == '\r' || c == '\U{0B}' || c == '\U{0C}'
  }

  function TrimLeft(s: string): string
  {
    if |s| > 0 && IsSpace(s[0]) then TrimLeft(s[1..]) else s
  }

  function TrimRight(s: string): string
  {
    if |s| > 0 && IsSpace(s[|s| - 1]) then TrimRight(s[..|s| - 1]) else s
  }

  function Strip(s: string): string
  {
    TrimRight(TrimLeft(s))
  }

  /** The value of a digit or letter (letters of either case count from 10);
      36 for any other character. */
  function DigitValue(c: char): nat
  {
    if '0' <= c <= '9' then (c as int - '0' as int) as nat
    else if 'a' <= c <= 'z' then (c as int - 'a' as int + 10) as nat
    else if 'A' <= c <= 'Z' then (c as int - 'A' as int + 10) as nat
    else 36
  }

  predicate IsDigitIn(c: char, base: nat)
  {
    DigitValue(c) < base
  }

  /** Digits of `base`, possibly with single underscores between two digits. */
  predicate WellFormedDigits(d: string, base: nat)
  {
    && |d| > 0
    && IsDigitIn(d[0], base)
    && IsDigitIn(d[|d| - 1], base)
    && (forall i :: 0 <= i < |d| ==> d[i] == '_' || IsDigitIn(d[i], base))
    && (forall i :: 0 <= i < |d| - 1 ==> d[i] != '_' || d[i + 1] != '_')
  }

  /** The number the digits of `d` denote in `base`, underscores skipped. */
  function DigitsValue(d: string, base: nat): nat
  {
    if |d| == 0 then 0
    else if d[|d| - 1] == '_' then DigitsValue(d[..|d| - 1], base)
    else DigitsValue(d[..|d| - 1], base) * base + DigitValue(d[|d| - 1])
  }

  predicate HasHexPrefix(s: string)
  {
    |s| >= 2 && s[0] == '0' && (s[1] == 'x' || s[1] == 'X')
  }

  /** The sign-free part of a stripped string. */
  function Unsigned(t: string): string
  {
    if |t| > 0 && (t[0] == '+' || t[0] == '-') then t[1..] else t
  }

  /** The digit part after the optional base-16 prefix and its one underscore. */
  function DigitPart(u: string, base: nat): string
  {
    if base == 16 && HasHexPrefix(u) then
      (if |u| > 2 && u[2] == '_' then u[3..] else u[2..])
    else u
  }

  /** `int(s, base)`: the value, or None where Python raises ValueError. */
  function ParseInt(s: string, base: nat): (r: Option<int>)
    requires base == 10 || base == 16
    ensures |Strip(s)| == 0 ==> r.None?
    ensures r.Some? ==> |Strip(s)| > 0 && IsDigitIn(Strip(s)[|Strip(s)| - 1], base)
    ensures r.Some? && r.value < 0 ==> Strip(s)[0] == '-'
  {
    var t := Strip(s);
    var d := DigitPart(Unsigned(t), base);
    if WellFormedDigits(d, base) then
      var v: int := DigitsValue(d, base);
      Some(if |t| > 0 && t[0] == '-' then -v else v)
    else None
  }

  /** The bases the model formats in: binary, decimal and hexadecimal. */
  predicate IsBase(base: nat)
  {
    base == 2 || base == 10 || base == 16
  }

  function DigitChar(d: nat): char
    requires d < 16
  {
    if d < 10 then ('0' as int + d) as char else ('a' as int + d - 10) as char
  }

  lemma DigitCharValue(d: nat)
    requires d < 16
    ensures DigitValue(DigitChar(d)) == d && DigitChar(d) != '_'
    ensures d < 10 ==> '0' <= DigitChar(d) <= '9'
    ensures d < 2 ==> DigitChar(d) == '0' || DigitChar(d) == '1'
  {
  }

  /** The digits of `n` in `base`, most significant first, lower-case letters,
      no leading zero (`str(n)`, `format(n, 'x')`, `format(n, 'b')`). */
  function Format(n: nat, base: nat): (s: string)
    requires IsBase(base)
    ensures |s| >= 1
  {
    if n < base then [DigitChar(n)] else Format(n / base, base) + [DigitChar(n % base)]
  }

  /** Formatting produces well-formed digits that read back as `n`. */
  lemma FormatValue(n: nat, base: nat)
    requires IsBase(base)
    ensures WellFormedDigits(Format(n, base), base)
    ensures DigitsValue(Format(n, base), base) == n
  {
    FormatDigits(n, base);
    FormatReadsBack(n, base);
  }

  lemma {:induction false} FormatReadsBack(n: nat, base: nat)
    requires IsBase(base)
    ensures DigitsValue(Format(n, base), base) == n
  {
    if n < base {
      DigitCharValue(n);
    } else {
      var q, m := n / base, n % base;
      FormatReadsBack(q, base);
      DigitCharValue(m);
      FormatStep(n, base);
      DigitsValueSnoc(Format(q, base), DigitChar(m), base);
    }
  }

  lemma FormatStep(n: nat, base: nat)
    requires IsBase(base) && n >= base
    ensures Format(n, base) == Format(n / base, base) + [DigitChar(n % base)]
    ensures n == (n / base) * base + n % base
  {
    if base == 2 {
      assert n == (n / 2) * 2 + n % 2;
    } else if base == 10 {
      assert n == (n / 10) * 10 + n % 10;
    } else {
      assert n == (n / 16) * 16 + n % 16;
    }
  }

  lemma DigitsValueSnoc(p: string, c: char, base: nat)
    requires c != '_'
    ensures DigitsValue(p + [c], base) == DigitsValue(p, base) * base + DigitValue(c)
  {
    assert (p + [c])[..|p|] == p;
  }

  /** Every character of a formatted number is a digit of its base. */
  lemma {:induction false} FormatDigits(n: nat, base: nat)
    requires IsBase(base)
    ensures forall i :: 0 <= i < |Format(n, base)| ==> IsDigitIn(Format(n, base)[i], base)
  {
    if n < base {
      DigitCharValue(n);
    } else {
      FormatDigits(n / base, base);
      DigitCharValue(n % base);
    }
  }

  lemma StripUnspaced(s: string)
    requires |s| > 0 && !IsSpace(s[0]) && !IsSpace(s[|s| - 1])
    ensures Strip(s) == s
  {
  }

  /** `int(str(n)) == n` for every non-negative n. */
  lemma DecimalRoundTrip(n: nat)
    ensures ParseInt(Format(n, 10), 10) == Some(n)
  {
    var s := Format(n, 10);
    FormatValue(n, 10);
    StripUnspaced(s);
  }

  /** `int(hex(n), 16) == n` for every non-negative n. */
  lemma HexRoundTrip(n: nat)
    ensures ParseInt("0x" + Format(n, 16), 16) == Some(n)
  {
    var d := Format(n, 16);
    var s := "0x" + d;
    FormatValue(n, 16);
    StripUnspaced(s);
    assert Unsigned(s) == s;
    assert s[2..] == d;
    DigitCharValue(0);
    assert d[0] != '_';
  }

  /** Whatever base 10 accepts, base 16 accepts too, with the same sign and the
      same digits read in base 16: the decimal reading of a string is never the
      one `int(s, 16)` rejects. */
  lemma DecimalImpliesHex(s: string)
    requires ParseInt(s, 10).Some?
    ensures ParseInt(s, 16).Some?
    ensures var t := Strip(s); var d := Unsigned(t);
      ParseInt(s, 16).value == (if |t| > 0 && t[0] == '-' then -(DigitsValue(d, 16) as int) else DigitsValue(d, 16))
  {
    var u := Unsigned(Strip(s));
    assert DigitPart(u, 10) == u;
    assert WellFormedDigits(u, 10);
    assert !HasHexPrefix(u) by {
      if |u| >= 2 {
        assert u[1] == '_' || IsDigitIn(u[1], 10);
      }
    }
    assert DigitPart(u, 16) == u;
  }
}
