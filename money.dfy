/** Monetary amounts as the report prints them. The record holds each amount
    as exact integer cents; `FormatAmount` is the `,.2f` format of that
    amount, and `ParseAmount` reads it back. */
module Money {
  import opened Wrappers
  import opened Decimal

  /** A non-negative amount of cents: the whole units grouped by commas, a
      point, and exactly two digits of cents. */
  function UnsignedText(m: nat): (s: string)
    ensures 4 <= |s| && IsDigit(s[0]) && s[|s| - 3] == '.' && AllDigits(s[|s| - 2..])
    ensures Unpadded(s)
  {
    var whole := Group(NatToDigits(m / 100));
    var s := whole + "." + Pad2(m % 100);
    assert s[|s| - 2..] == Pad2(m % 100);
    assert s[0] == whole[0];
    assert |whole| > 1 ==> s[1] == whole[1];
    s
  }

  /** The whole units carry no leading zero: a text starting with `0` has
      the point right after it. */
  predicate Unpadded(t: string) {
    2 <= |t| && (t[0] == '0' ==> t[1] == '.')
  }

  /** The text after a leading minus sign, or all of it. */
  function Magnitude(s: string): string {
    if 1 <= |s| && s[0] == '-' then s[1..] else s
  }

  /** `format(cents / 100, ",.2f")`: a minus sign before a negative amount,
      then its magnitude as `UnsignedText` writes it. */
  function FormatAmount(cents: int): (s: string)
    ensures 4 <= |s| && s[|s| - 3] == '.' && AllDigits(s[|s| - 2..])
    ensures s[0] == '-' <==> cents < 0
    ensures Unpadded(Magnitude(s))
  {
    if cents < 0 then "-" + UnsignedText(-cents) else UnsignedText(cents)
  }

  /** Reads an amount written as `FormatAmount` writes it; anything else is None. */
  function ParseAmount(s: string): Option<int>
  {
    if 1 <= |s| && s[0] == '-' then
      match ParseUnsigned(s[1..])
      case Some(v) => Some(0 - v)
      case None => None
    else ParseUnsigned(s)
  }

  /** Reads grouped whole units, a point and two digits of cents. */
  function ParseUnsigned(m: string): Option<nat>
  {
    if |m| < 4 || m[|m| - 3] != '.' then None
    else
      var whole, frac := m[..|m| - 3], m[|m| - 2..];
      if !GroupedDigits(whole) || !AllDigits(frac) then None
      else Some(GroupedValue(whole) * 100 + DigitsValue(frac))
  }

  /** Grouped whole units, a point and two digits read back as cents. */
  lemma UnsignedReads(whole: string, frac: string)
    requires GroupedDigits(whole) && |frac| == 2 && AllDigits(frac)
    ensures ParseUnsigned(whole + "." + frac) == Some(GroupedValue(whole) * 100 + DigitsValue(frac))
  {
    var t := whole + "." + frac;
    assert |t| == |whole| + 3 && t[|t| - 3] == '.';
    assert t[..|t| - 3] == whole;
    assert t[|t| - 2..] == frac;
    UnsignedParts(t, whole, frac);
  }

  lemma UnsignedParts(m: string, whole: string, frac: string)
    requires 4 <= |m| && m[|m| - 3] == '.' && m[..|m| - 3] == whole && m[|m| - 2..] == frac
    requires GroupedDigits(whole) && AllDigits(frac)
    ensures ParseUnsigned(m) == Some(GroupedValue(whole) * 100 + DigitsValue(frac))
  {
  }

  lemma UnsignedRoundTrip(m: nat)
    ensures ParseUnsigned(UnsignedText(m)) == Some(m)
  {
    UnsignedReads(Group(NatToDigits(m / 100)), Pad2(m % 100));
  }

  /** Text starting with a digit reads as unsigned; a minus sign before it
      negates what it reads as. */
  lemma SignReads(t: string)
    requires 1 <= |t| && IsDigit(t[0])
    ensures ParseAmount(t) == ParseUnsigned(t)
    ensures ParseUnsigned(t).Some? ==> ParseAmount("-" + t) == Some(0 - ParseUnsigned(t).value)
  {
    assert ("-" + t)[1..] == t;
  }

  /** Printing an amount loses nothing: the text reads back as the same cents. */
  lemma AmountRoundTrip(cents: int)
    ensures ParseAmount(FormatAmount(cents)) == Some(cents)
  {
    var m := if cents < 0 then -cents else cents;
    UnsignedRoundTrip(m);
    SignReads(UnsignedText(m));
  }

  /** An unsigned text that reads as some amount and has no leading zero
      is the text `UnsignedText` writes for that amount. */
  lemma UnsignedCanonical(t: string)
    requires ParseUnsigned(t).Some? && Unpadded(t)
    ensures UnsignedText(ParseUnsigned(t).value) == t
  {
    var whole, frac := t[..|t| - 3], t[|t| - 2..];
    UnsignedParts(t, whole, frac);
    WholeUnpadded(t, whole);
    UnsignedTextOf(ParseUnsigned(t).value, whole, frac);
    assert t == whole + "." + frac;
  }

  /** The text of the cents that unpadded grouped units and two digits denote. */
  lemma UnsignedTextOf(m: nat, whole: string, frac: string)
    requires GroupedDigits(whole) && (whole[0] == '0' ==> |whole| == 1)
    requires |frac| == 2 && AllDigits(frac) && m == GroupedValue(whole) * 100 + DigitsValue(frac)
    ensures UnsignedText(m) == whole + "." + frac
  {
    var q, r := GroupedValue(whole), DigitsValue(frac);
    DivModOf(q, r, 100);
    assert m / 100 == q && m % 100 == r;
    GroupCanonical(whole);
    Pad2Canonical(frac);
    assert Group(NatToDigits(m / 100)) == whole && Pad2(m % 100) == frac;
  }

  /** Without a leading zero in the text, the whole units have none. */
  lemma WholeUnpadded(t: string, whole: string)
    requires Unpadded(t) && 4 <= |t| && whole == t[..|t| - 3] && GroupedDigits(whole)
    ensures whole[0] == '0' ==> |whole| == 1
  {
    if 2 <= |whole| {
      assert t[1] == whole[1];
      GroupedChars(whole, 1);
    }
  }

  /** Text that reads as an amount, has no leading zero and no minus sign
      before zero is exactly the text `FormatAmount` writes for it; with
      `AmountRoundTrip`, `FormatAmount` is the one writer of amounts. */
  lemma AmountCanonical(s: string, cents: int)
    requires ParseAmount(s) == Some(cents) && Unpadded(Magnitude(s))
    requires 1 <= |s| && s[0] == '-' ==> cents != 0
    ensures FormatAmount(cents) == s
  {
    if 1 <= |s| && s[0] == '-' {
      NegativeCanonical(s, cents);
    } else {
      NonNegativeCanonical(s, cents);
    }
  }

  /** `AmountCanonical` for a text with a minus sign. */
  lemma NegativeCanonical(s: string, cents: int)
    requires 1 <= |s| && s[0] == '-' && ParseAmount(s) == Some(cents) && Unpadded(s[1..]) && cents != 0
    ensures FormatAmount(cents) == s
  {
    var t := s[1..];
    var v := ParseUnsigned(t).value;
    assert cents + v == 0;
    UnsignedCanonical(t);
    NegativeText(cents, v);
    assert "-" + t == s;
  }

  /** `AmountCanonical` for a text without one. */
  lemma NonNegativeCanonical(s: string, cents: int)
    requires !(1 <= |s| && s[0] == '-') && ParseAmount(s) == Some(cents) && Unpadded(s)
    ensures FormatAmount(cents) == s
  {
    assert ParseUnsigned(s).value == cents;
    UnsignedCanonical(s);
  }

  lemma NegativeText(cents: int, v: nat)
    requires cents + v == 0 && v > 0
    ensures FormatAmount(cents) == "-" + UnsignedText(v)
  {
  }
}
