/**
 The clock text: the remaining seconds written as `"%02d:%02d"` of the
 minutes and the seconds within the minute, into a 6-byte buffer (so at
 most 5 characters survive), and the glyph slot each character selects.

 Division and remainder follow C (truncation toward zero) and `%02d`
 follows printf (a minus sign for negatives, zero padding to width 2), so
 the text is defined for every `int`; only the clamp range gives the
 5-character `MM:SS` shape.
 */
module Clock {

  import Glyphs

  /** C's `/` for a positive divisor: truncates toward zero. */
  function CDiv(a: int, d: int): (q: int)
    requires d > 0
    ensures a >= 0 ==> q * d <= a < q * d + d
    ensures a < 0 ==> q * d - d < a <= q * d
  {
    if a >= 0 then a / d else -((-a) / d)
  }

  /** C's `%` for a positive divisor: takes the sign of the dividend. */
  function CRem(a: int, d: int): (r: int)
    requires d > 0
    ensures a == CDiv(a, d) * d + r
    ensures a >= 0 ==> 0 <= r < d
    ensures a < 0 ==> -d < r <= 0
  {
    a - CDiv(a, d) * d
  }

  predicate IsDigit(c: char) {
    '0' as int <= c as int <= '9' as int
  }

  /** The character of decimal digit `d`. */
  function DigitChar(d: int): (c: char)
    requires 0 <= d < 10
    ensures IsDigit(c)
    ensures c as int - '0' as int == d
  {
    ('0' as int + d) as char
  }

  /** The number a string of decimal digits denotes. */
  function DigitsValue(s: string): (n: nat)
    requires forall i :: 0 <= i < |s| ==> IsDigit(s[i])
  {
    if s == [] then 0
    else
      assert IsDigit(s[|s| - 1]);
      DigitsValue(s[..|s| - 1]) * 10 + (s[|s| - 1] as int - '0' as int)
  }

  /** The shortest decimal writing of `n`: digits only, no leading zero, denoting `n`. */
  function Decimal(n: nat): (s: string)
    ensures 1 <= |s|
    ensures forall i :: 0 <= i < |s| ==> IsDigit(s[i])
    ensures s[0] == '0' ==> n == 0 && |s| == 1
    ensures DigitsValue(s) == n
  {
    if n < 10 then [DigitChar(n)]
    else
      var prefix := Decimal(n / 10);
      var s := prefix + [DigitChar(n % 10)];
      assert s[..|s| - 1] == prefix;
      s
  }

  /** printf's `%02d`: the decimal writing, with a leading `-` if negative, zero-padded to 2. */
  function Pad02(n: int): (s: string)
    ensures 2 <= |s|
    ensures n >= 0 ==> forall i :: 0 <= i < |s| ==> IsDigit(s[i])
    ensures n >= 0 ==> DigitsValue(s) == n
    ensures 0 <= n < 10 ==> |s| == 2
    ensures n >= 10 ==> s[0] != '0'
    ensures n < 0 ==> s[0] == '-'
    ensures n < 0 ==> forall i :: 1 <= i < |s| ==> IsDigit(s[i])
    ensures n < 0 ==> DigitsValue(s[1..]) == -n && s[1] != '0'
  {
    var plain := if n >= 0 then Decimal(n) else "-" + Decimal(-n);
    assert n < 0 ==> plain[1..] == Decimal(-n);
    if |plain| < 2 then
      var s := "0" + plain;
      assert s[..|s| - 1] == "0";
      s
    else plain
  }

  /** `snprintf` into a buffer of `size` bytes keeps the first `size - 1` characters at most. */
  function Truncate(s: string, size: nat): (t: string)
    requires size >= 1
    ensures |t| <= size - 1
    ensures t <= s
    ensures |s| < size ==> t == s
    ensures |s| >= size ==> |t| == size - 1
  {
    if |s| < size then s else s[..size - 1]
  }

  /** `MAX_BLOCKS`: the glyphs of the clock text `MM:SS`, and the characters it keeps. */
  const Blocks: int := 5

  /** The text the timer window shows for `seconds`. */
  function Format(seconds: int): (text: string)
    ensures |text| <= Blocks
  {
    Truncate(Pad02(CDiv(seconds, 60)) + ":" + Pad02(CRem(seconds, 60)), Blocks + 1)
  }

  /** The seconds a 5-character `MM:SS` text denotes. */
  function Parse(text: string): (seconds: int)
    requires |text| == Blocks
    requires IsDigit(text[0]) && IsDigit(text[1]) && IsDigit(text[3]) && IsDigit(text[4])
  {
    DigitsValue(text[..2]) * 60 + DigitsValue(text[3..])
  }

  /** Two-digit values pad to exactly their two digits. */
  lemma Pad02TwoDigits(n: int)
    requires 0 <= n < 100
    ensures Pad02(n) == [DigitChar(n / 10), DigitChar(n % 10)]
  {
    if n >= 10 {
      assert Decimal(n) == Decimal(n / 10) + [DigitChar(n % 10)];
      assert Decimal(n / 10) == [DigitChar(n / 10)];
    } else {
      assert Decimal(n) == [DigitChar(n)];
    }
  }

  /**
   Inside the clamp range the text is exactly two minute digits, a colon
   and two second digits.
   */
  lemma {:induction false} FormatShape(seconds: int)
    requires 0 <= seconds <= 5940
    ensures Format(seconds) == [DigitChar(seconds / 60 / 10), DigitChar(seconds / 60 % 10), ':',
                                DigitChar(seconds % 60 / 10), DigitChar(seconds % 60 % 10)]
  {
    Pad02TwoDigits(seconds / 60);
    Pad02TwoDigits(seconds % 60);
  }

  /** A two-digit string denotes ten times its first digit plus its second. */
  lemma DigitsValuePair(s: string)
    requires |s| == 2 && IsDigit(s[0]) && IsDigit(s[1])
    ensures DigitsValue(s) == (s[0] as int - '0' as int) * 10 + (s[1] as int - '0' as int)
  {
    assert s[..1] == [s[0]];
    assert s[..1][..0] == [];
    assert DigitsValue(s[..1]) == s[0] as int - '0' as int;
  }

  /** Reading the text back gives the seconds it was made from. */
  lemma {:induction false} ParseFormat(seconds: int)
    requires 0 <= seconds <= 5940
    ensures |Format(seconds)| == Blocks
    ensures Format(seconds)[2] == ':'
    ensures IsDigit(Format(seconds)[0]) && IsDigit(Format(seconds)[1])
    ensures IsDigit(Format(seconds)[3]) && IsDigit(Format(seconds)[4])
    ensures Parse(Format(seconds)) == seconds
  {
    FormatShape(seconds);
    var text := Format(seconds);
    DigitsValuePair(text[..2]);
    DigitsValuePair(text[3..]);
  }

  lemma FormatExample90()
    ensures Format(90) == "01:30"
  {
    FormatShape(90);
    assert 90 / 60 == 1 && 90 % 60 == 30;
    assert DigitChar(0) == '0' && DigitChar(1) == '1' && DigitChar(3) == '3';
  }

  lemma FormatExample0()
    ensures Format(0) == "00:00"
  {
    FormatShape(0);
    assert DigitChar(0) == '0';
  }

  lemma FormatExampleCeiling()
    ensures Format(5940) == "99:00"
  {
    FormatShape(5940);
    assert DigitChar(0) == '0' && DigitChar(9) == '9';
  }

  /** The glyph slot a clock character selects: its distance from `'0'`. */
  function GlyphIndex(c: char): (idx: int)
    ensures IsDigit(c) ==> 0 <= idx < 10
    ensures c == ':' ==> idx == Glyphs.ColonSlot
  {
    c as int - '0' as int
  }

  /** Every character of an in-range clock text selects a glyph slot that exists. */
  lemma FormatSlots(seconds: int, i: int)
    requires 0 <= seconds <= 5940 && 0 <= i < Blocks
    ensures i < |Format(seconds)|
    ensures Glyphs.ValidSlot(GlyphIndex(Format(seconds)[i]))
    ensures i == 2 <==> GlyphIndex(Format(seconds)[i]) == Glyphs.ColonSlot
  {
    FormatShape(seconds);
  }

  /** The slot of block `i` for an in-range value: minute tens, minute units, colon, second tens, second units. */
  lemma FormatSlotValues(seconds: int)
    requires 0 <= seconds <= 5940
    ensures |Format(seconds)| == Blocks
    ensures GlyphIndex(Format(seconds)[0]) == seconds / 60 / 10
    ensures GlyphIndex(Format(seconds)[1]) == seconds / 60 % 10
    ensures GlyphIndex(Format(seconds)[2]) == Glyphs.ColonSlot
    ensures GlyphIndex(Format(seconds)[3]) == seconds % 60 / 10
    ensures GlyphIndex(Format(seconds)[4]) == seconds % 60 % 10
  {
    FormatShape(seconds);
  }
}
