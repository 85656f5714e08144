/**
 * Characters and numerals as the C library sees them in the "C" locale:
 * the <cctype> classifications, upper-casing, and decimal and hexadecimal
 * numerals (what sscanf, atoi, std::to_string and a hex-formatted stream
 * read and write).
 */
module Text {
  import opened FixedWidth
  import opened Wrappers

  /** isspace: space, \t, \n, \v, \f and \r. */
  predicate IsSpace(c: char)
  {
    c == ' ' || c == '\t' || c == '\n' || c == '\U{0B}' || c == '\U{0C}' || c == '\r'
  }

  /** The two characters the assembler's readers skip: space and tab. */
  predicate IsBlank(c: char)
  {
    c == ' ' || c == '\t'
  }

  predicate IsDigit(c: char)
  {
    '0' <= c <= '9'
  }

  predicate IsAlpha(c: char)
  {
    'A' <= c <= 'Z' || 'a' <= c <= 'z'
  }

  /** isxdigit: a decimal digit or a letter A-F in either case. */
  predicate IsHexDigit(c: char)
  {
    IsDigit(c) || 'A' <= c <= 'F' || 'a' <= c <= 'f'
  }

  /** toupper: lower-case letters map to upper case, everything else is unchanged. */
  function ToUpper(c: char): (u: char)
    ensures IsHexDigit(c) <==> IsHexDigit(u)
    ensures IsSpace(c) <==> IsSpace(u)
    ensures IsHexDigit(u) ==> IsDigit(u) || 'A' <= u <= 'F'
  {
    if 'a' <= c <= 'z' then (c as int - 'a' as int + 'A' as int) as char else c
  }

  /** The value of a hexadecimal digit, either case. */
  function HexDigitValue(c: char): (v: nat)
    requires IsHexDigit(c)
    ensures v < 16
  {
    if IsDigit(c) then c as int - '0' as int
    else if 'A' <= c <= 'F' then 10 + (c as int - 'A' as int)
    else 10 + (c as int - 'a' as int)
  }

  /** The upper-case digit a hex-formatted stream prints for v. */
  function HexChar(v: nat): (c: char)
    requires v < 16
    ensures IsHexDigit(c) && HexDigitValue(c) == v && ToUpper(c) == c
  {
    if v < 10 then ('0' as int + v) as char else ('A' as int + (v - 10)) as char
  }

  function Pow16(n: nat): (r: nat)
    ensures r >= 1
  {
    if n == 0 then 1 else 16 * Pow16(n - 1)
  }

  /** The value of a string of hexadecimal digits, most significant first. */
  function HexValue(s: string): (v: nat)
    requires forall i :: 0 <= i < |s| ==> IsHexDigit(s[i])
    ensures v < Pow16(|s|)
  {
    if |s| == 0 then 0 else 16 * HexValue(s[..|s| - 1]) + HexDigitValue(s[|s| - 1])
  }

  /** v as exactly `width` upper-case hex digits (the low `width` digits, zero-padded). */
  function HexDigits(v: nat, width: nat): (s: string)
    ensures |s| == width
  {
    if width == 0 then [] else HexDigits(v / 16, width - 1) + [HexChar(v % 16)]
  }

  /** Every character of HexDigits is an upper-case hex digit. */
  lemma {:induction false} HexDigitsAreDigits(v: nat, width: nat)
    ensures forall i :: 0 <= i < width ==> IsHexDigit(HexDigits(v, width)[i]) && ToUpper(HexDigits(v, width)[i]) == HexDigits(v, width)[i]
  {
    if width > 0 {
      HexDigitsAreDigits(v / 16, width - 1);
    }
  }

  /** Printing v in `width` hex digits and reading them back gives v, when v fits. */
  lemma {:induction false} HexDigitsValue(v: nat, width: nat)
    requires v < Pow16(width)
    ensures forall i :: 0 <= i < width ==> IsHexDigit(HexDigits(v, width)[i])
    ensures HexValue(HexDigits(v, width)) == v
  {
    HexDigitsAreDigits(v, width);
    if width > 0 {
      HexDigitsValue(v / 16, width - 1);
      var s := HexDigits(v, width);
      assert s[..|s| - 1] == HexDigits(v / 16, width - 1);
    }
  }

  /** The number of digits std::hex prints for v: at least `width`, more when v needs them. */
  function HexWidth(v: nat, width: nat): (w: nat)
    ensures w >= width && v < Pow16(w)
    decreases v - Pow16(width)
  {
    if v < Pow16(width) then width else HexWidth(v, width + 1)
  }

  /** `std::setw(width) << std::setfill('0') << std::hex << std::uppercase << v`. */
  function Hex(v: nat, width: nat): (s: string)
    ensures |s| >= width
  {
    HexDigits(v, HexWidth(v, width))
  }

  /** What Hex prints is upper-case hex digits, at least `width` of them, whose value is v. */
  lemma HexNumeral(v: nat, width: nat)
    ensures forall i :: 0 <= i < |Hex(v, width)| ==> IsHexDigit(Hex(v, width)[i]) && ToUpper(Hex(v, width)[i]) == Hex(v, width)[i]
    ensures HexValue(Hex(v, width)) == v
  {
    HexDigitsAreDigits(v, HexWidth(v, width));
    HexDigitsValue(v, HexWidth(v, width));
  }

  /** When HexWidth widens the field, the value needs every digit of it. */
  lemma {:induction false} HexWidthMinimal(v: nat, width: nat)
    ensures HexWidth(v, width) > width ==> Pow16(HexWidth(v, width) - 1) <= v
    decreases v - Pow16(width)
  {
    if v >= Pow16(width) {
      HexWidthMinimal(v, width + 1);
    }
  }

  /** A value that needs all `width` digits does not start with a 0. */
  lemma {:induction false} HexLeadingDigit(v: nat, width: nat)
    requires 0 < width && Pow16(width - 1) <= v < Pow16(width)
    ensures HexDigits(v, width)[0] != '0'
    decreases width
  {
    if width == 1 {
      assert HexDigits(v, 1) == [HexChar(v % 16)];
    } else {
      assert Pow16(width - 1) == 16 * Pow16(width - 2);
      assert Pow16(width - 2) <= v / 16 < Pow16(width - 1);
      HexLeadingDigit(v / 16, width - 1);
      assert HexDigits(v, width)[0] == HexDigits(v / 16, width - 1)[0];
    }
  }

  /** std::hex pads only up to the field width: a wider numeral has no leading 0. */
  lemma HexNoLeadingZero(v: nat, width: nat)
    ensures |Hex(v, width)| > width ==> Hex(v, width)[0] != '0'
  {
    HexWidthMinimal(v, width);
    if HexWidth(v, width) > width {
      HexLeadingDigit(v, HexWidth(v, width));
    }
  }

  /** The value of a string of decimal digits. */
  function DecimalValue(s: string): (v: nat)
    requires forall i :: 0 <= i < |s| ==> IsDigit(s[i])
  {
    if |s| == 0 then 0
    else
      assert IsDigit(s[|s| - 1]);
      10 * DecimalValue(s[..|s| - 1]) + (s[|s| - 1] as int - '0' as int)
  }

  /** std::to_string of a non-negative number: its decimal digits, no leading zeros. */
  function Decimal(v: nat): (s: string)
    ensures |s| > 0 && forall i :: 0 <= i < |s| ==> IsDigit(s[i])
    ensures DecimalValue(s) == v
  {
    var last := [('0' as int + v % 10) as char];
    if v < 10 then last
    else
      var s := Decimal(v / 10) + last;
      assert s[..|s| - 1] == Decimal(v / 10);
      s
  }

  /** True when s is non-empty and every character is a decimal digit. */
  predicate AllDigits(s: string)
  {
    |s| > 0 && forall i :: 0 <= i < |s| ==> IsDigit(s[i])
  }

  /** The decimal numeral of a number is all digits and never has a leading zero unless it is "0". */
  lemma DecimalShape(v: nat)
    ensures AllDigits(Decimal(v))
    ensures Decimal(v)[0] == '0' ==> v == 0
  {
    if v >= 10 {
      DecimalShape(v / 10);
    }
  }

  /** The number of leading white-space characters, as the scanf family skips them. */
  function SkipSpace(s: string): (n: nat)
    ensures n <= |s| && forall i :: 0 <= i < n ==> IsSpace(s[i])
    ensures n < |s| ==> !IsSpace(s[n])
  {
    if |s| == 0 || !IsSpace(s[0]) then 0 else 1 + SkipSpace(s[1..])
  }

  /** The length of the leading run of hex digits, at most `width` long (a scanf field width). */
  function HexRun(s: string, width: nat): (n: nat)
    ensures n <= |s| && n <= width && forall i :: 0 <= i < n ==> IsHexDigit(s[i])
    ensures n < |s| && n < width ==> !IsHexDigit(s[n])
  {
    if |s| == 0 || width == 0 || !IsHexDigit(s[0]) then 0 else 1 + HexRun(s[1..], width - 1)
  }

  /** The length of the optional sign that opens a scanned integer field. */
  function SignLength(t: string): (n: nat)
    ensures n <= 1 && n <= |t|
    ensures n == 1 <==> |t| > 0 && (t[0] == '+' || t[0] == '-')
  {
    if |t| > 0 && (t[0] == '+' || t[0] == '-') then 1 else 0
  }

  /** A "0x" or "0X" base prefix that still fits in the `width` characters left of the field. */
  predicate HexPrefix(u: string, width: nat)
  {
    width >= 2 && |u| >= 2 && u[0] == '0' && (u[1] == 'x' || u[1] == 'X')
  }

  /**
   * The magnitude of a scanned hex field after its sign, with `width`
   * characters left: the digits after a "0x" prefix (none is 0, since the
   * prefix's 0 was read), or otherwise a non-empty run of digits.
   */
  function HexMagnitude(u: string, width: nat): (r: Option<nat>)
    ensures r.Some? ==> r.value < Pow16(width)
    ensures !HexPrefix(u, width) ==> (r.None? <==> HexRun(u, width) == 0)
  {
    if HexPrefix(u, width) then
      var n := HexRun(u[2..], width - 2);
      HexValueBound(u[2..][..n], width);
      Some(HexValue(u[2..][..n]))
    else
      var n := HexRun(u, width);
      HexValueBound(u[..n], width);
      if n == 0 then None else Some(HexValue(u[..n]))
  }

  /**
   * A `%<width>X` conversion into an unsigned int, as the C library scans
   * it: leading white space is skipped; the field is an optional sign, an
   * optional "0x" or "0X" after a 0, and hex digits, all counted in the
   * width. The conversion fails when the field holds no digit (the 0 of a
   * prefix counts as one). A minus sign negates the value modulo 2^32, as
   * strtoul does before the value is stored in 32 bits.
   */
  function ScanHex(s: string, width: nat): (r: Option<nat>)
    requires 0 < width <= 8
    ensures r.Some? ==> r.value < TWO_32
  {
    ScanField(s[SkipSpace(s)..], width)
  }

  /** The field of a `%<width>X` conversion, from its first character that is not white space. */
  function ScanField(t: string, width: nat): (r: Option<nat>)
    requires 0 < width <= 8
    ensures r.Some? ==> r.value < TWO_32
    ensures |t| == 0 ==> r.None?
    ensures |t| > 0 && !IsHexDigit(t[0]) && t[0] != '+' && t[0] != '-' ==> r.None?
    ensures SignLength(t) == 0 && r.Some? ==> r.value < Pow16(width)
  {
    var sign := SignLength(t);
    var magnitude := HexMagnitude(t[sign..], width - sign);
    PowMonotone(width - sign, 8);
    Pow16Eight();
    match magnitude
    case None => None
    case Some(v) => Some(if sign == 1 && t[0] == '-' then (TWO_32 - v) % TWO_32 else v)
  }

  lemma HexValueBound(s: string, width: nat)
    requires |s| <= width && forall i :: 0 <= i < |s| ==> IsHexDigit(s[i])
    ensures HexValue(s) < Pow16(width)
  {
    PowMonotone(|s|, width);
  }

  lemma {:induction false} PowMonotone(m: nat, n: nat)
    requires m <= n
    ensures Pow16(m) <= Pow16(n)
    decreases n - m
  {
    if m < n {
      PowMonotone(m, n - 1);
    }
  }

  /** Eight hex digits are exactly the 32-bit range. */
  lemma Pow16Eight()
    ensures Pow16(8) == TWO_32
  {
    assert Pow16(2) == 0x100;
    assert Pow16(4) == 0x1_0000;
    assert Pow16(6) == 0x100_0000;
  }

  /** Scanning a field of exactly `width` digits reads their value, whatever follows. */
  lemma {:induction false} ScanHexDigits(v: nat, width: nat, rest: string)
    requires 0 < width <= 8 && v < Pow16(width)
    ensures ScanHex(HexDigits(v, width) + rest, width) == Some(v)
  {
    HexDigitsAreDigits(v, width);
    HexDigitsValue(v, width);
    ScanDigits(HexDigits(v, width), rest, width);
  }

  /**
   * A field that opens with a run of hex digits, which fills the width or
   * is followed by nothing or by white space, scans to the run's value.
   */
  lemma {:induction false} ScanDigits(digits: string, rest: string, width: nat)
    requires 0 < |digits| <= width <= 8 && forall i :: 0 <= i < |digits| ==> IsHexDigit(digits[i])
    requires |digits| == width || rest == [] || IsSpace(rest[0])
    ensures ScanHex(digits + rest, width) == Some(HexValue(digits))
  {
    var s := digits + rest;
    assert s[0] == digits[0];
    assert SkipSpace(s) == 0 && s[0..] == s;
    assert SignLength(s) == 0 && s[0..] == s;
    MagnitudeOfDigits(digits, rest, width);
  }

  lemma {:induction false} HexRunFull(digits: string, rest: string, width: nat)
    requires |digits| == width && forall i :: 0 <= i < |digits| ==> IsHexDigit(digits[i])
    ensures HexRun(digits + rest, width) == width
    decreases width
  {
    if width > 0 {
      assert (digits + rest)[1..] == digits[1..] + rest;
      HexRunFull(digits[1..], rest, width - 1);
    }
  }

  /** A run of hex digits no longer than the field width is read whole. */
  lemma {:induction false} HexRunAll(digits: string, width: nat)
    requires |digits| <= width && forall i :: 0 <= i < |digits| ==> IsHexDigit(digits[i])
    ensures HexRun(digits, width) == |digits|
    decreases |digits|
  {
    if |digits| > 0 {
      HexRunAll(digits[1..], width - 1);
    }
  }

  /** A value below 16^m is printed in at most m digits when the width asks for no more. */
  lemma {:induction false} HexWidthBound(v: nat, width: nat, m: nat)
    requires width <= m && v < Pow16(m)
    ensures HexWidth(v, width) <= m
    decreases m - width
  {
    if v >= Pow16(width) {
      HexWidthBound(v, width + 1, m);
    }
  }

  /** The printed hex numeral of a 32-bit value is read back by a `%8X` conversion. */
  lemma {:induction false} ScanHexNumeral(v: nat, width: nat)
    requires 0 < width <= 8 && v < Pow16(8)
    ensures ScanHex(Hex(v, width), 8) == Some(v)
  {
    var s := Hex(v, width);
    HexNumeral(v, width);
    HexWidthBound(v, width, 8);
    assert s + [] == s;
    ScanDigits(s, [], 8);
  }

  /** Leading white space in front of a field is skipped. */
  lemma {:induction false} ScanHexSpace(c: char, s: string, width: nat)
    requires IsSpace(c) && 0 < width <= 8
    ensures ScanHex([c] + s, width) == ScanHex(s, width)
  {
    var t := [c] + s;
    assert t[1..] == s;
    assert SkipSpace(t) == 1 + SkipSpace(s);
    assert t[SkipSpace(t)..] == s[SkipSpace(s)..];
  }

  /** A run of hex digits followed by anything but a hex digit is read up to its end. */
  lemma {:induction false} HexRunStops(digits: string, rest: string, width: nat)
    requires |digits| <= width && forall i :: 0 <= i < |digits| ==> IsHexDigit(digits[i])
    requires rest == [] || !IsHexDigit(rest[0])
    ensures HexRun(digits + rest, width) == |digits|
    decreases |digits|
  {
    if |digits| > 0 {
      assert (digits + rest)[1..] == digits[1..] + rest;
      HexRunStops(digits[1..], rest, width - 1);
    } else {
      assert digits + rest == rest;
    }
  }

  /** A run of digits that fills the width or ends before nothing or white space is the field's magnitude. */
  lemma {:induction false} MagnitudeOfDigits(digits: string, rest: string, width: nat)
    requires 0 < |digits| <= width && forall i :: 0 <= i < |digits| ==> IsHexDigit(digits[i])
    requires |digits| == width || rest == [] || IsSpace(rest[0])
    ensures HexMagnitude(digits + rest, width) == Some(HexValue(digits))
  {
    var u := digits + rest;
    if |digits| >= 2 {
      assert u[1] == digits[1];
    } else if |u| >= 2 && width >= 2 {
      assert u[1] == rest[0];
    }
    assert !HexPrefix(u, width);
    if |digits| == width {
      HexRunFull(digits, rest, width);
    } else {
      HexRunStops(digits, rest, width);
    }
    assert u[..|digits|] == digits;
  }

  /** After a "0x" prefix, the digits up to the end of the field are its magnitude. */
  lemma {:induction false} MagnitudeAfterPrefix(x: char, digits: string, rest: string, width: nat)
    requires x == 'x' || x == 'X'
    requires |digits| + 2 <= width && forall i :: 0 <= i < |digits| ==> IsHexDigit(digits[i])
    requires rest == [] || IsSpace(rest[0])
    ensures HexMagnitude(['0', x] + digits + rest, width) == Some(HexValue(digits))
  {
    var u := ['0', x] + digits + rest;
    assert HexPrefix(u, width);
    assert u[2..] == digits + rest;
    HexRunStops(digits, rest, width - 2);
    assert (digits + rest)[..|digits|] == digits;
  }

  /**
   * A sign takes one character of the width: "-" and up to seven digits
   * scan to the negated value modulo 2^32, "+" and the digits to the value.
   */
  lemma {:induction false} ScanHexSigned(sign: char, digits: string, rest: string)
    requires sign == '+' || sign == '-'
    requires 0 < |digits| <= 7 && forall i :: 0 <= i < |digits| ==> IsHexDigit(digits[i])
    requires rest == [] || IsSpace(rest[0])
    ensures ScanHex([sign] + digits + rest, 8)
      == Some(if sign == '-' then (TWO_32 - HexValue(digits)) % TWO_32 else HexValue(digits))
  {
    var s := [sign] + digits + rest;
    assert SkipSpace(s) == 0 && s[0..] == s;
    assert s[1..] == digits + rest;
    MagnitudeOfDigits(digits, rest, 7);
    SignedField(s, 8, HexValue(digits));
  }

  /** A field opening with a sign: the magnitude after it, negated modulo 2^32 for "-". */
  lemma {:induction false} SignedField(t: string, width: nat, v: nat)
    requires 0 < width <= 8 && |t| > 0 && (t[0] == '+' || t[0] == '-')
    requires HexMagnitude(t[1..], width - 1) == Some(v)
    ensures ScanField(t, width) == Some(if t[0] == '-' then (TWO_32 - v) % TWO_32 else v)
  {
    assert SignLength(t) == 1;
  }

  /** The "0x" prefix takes two characters of the width: "0x" and up to six digits scan to their value. */
  lemma {:induction false} ScanHexPrefixed(x: char, digits: string, rest: string)
    requires x == 'x' || x == 'X'
    requires |digits| <= 6 && forall i :: 0 <= i < |digits| ==> IsHexDigit(digits[i])
    requires rest == [] || IsSpace(rest[0])
    ensures ScanHex(['0', x] + digits + rest, 8) == Some(HexValue(digits))
  {
    var s := ['0', x] + digits + rest;
    assert SkipSpace(s) == 0 && s[0..] == s;
    assert SignLength(s) == 0 && s[0..] == s;
    MagnitudeAfterPrefix(x, digits, rest, 8);
  }

  /** The length of the leading run of decimal digits. */
  function DigitRun(s: string): (n: nat)
    ensures n <= |s| && forall i :: 0 <= i < n ==> IsDigit(s[i])
    ensures n < |s| ==> !IsDigit(s[n])
  {
    if |s| == 0 || !IsDigit(s[0]) then 0 else 1 + DigitRun(s[1..])
  }

  /** The length of the leading run of characters that are not white space: one word. */
  function WordRun(s: string): (n: nat)
    ensures n <= |s| && forall i :: 0 <= i < n ==> !IsSpace(s[i])
    ensures n < |s| ==> IsSpace(s[n])
  {
    if |s| == 0 || IsSpace(s[0]) then 0 else 1 + WordRun(s[1..])
  }

  /** The index of the first c in s, or |s| when there is none (std::find). */
  function IndexOf(s: string, c: char): (n: nat)
    ensures n <= |s| && forall i :: 0 <= i < n ==> s[i] != c
    ensures n < |s| ==> s[n] == c
  {
    if |s| == 0 || s[0] == c then 0 else 1 + IndexOf(s[1..], c)
  }
}
