/** Decimal text of integers as Python prints them: `str(n)`, fixed-width
    zero padding, and the thousands grouping of the `,` format option.
    Every writer here comes with the reader that undoes it. */
module Decimal {
  import opened Wrappers

  predicate IsDigit(c: char) {
    '0' <= c <= '9'
  }

  predicate AllDigits(s: string) {
    forall i :: 0 <= i < |s| ==> IsDigit(s[i])
  }

  function DigitValue(c: char): (d: nat)
    requires IsDigit(c)
    ensures d < 10
  {
    c as int - '0' as int
  }

  function DigitChar(d: nat): (c: char)
    requires d < 10
    ensures IsDigit(c) && DigitValue(c) == d
  {
    ('0' as int + d) as char
  }

  function Pow10(k: nat): (p: nat)
    ensures p >= 1
  {
    if k == 0 then 1 else 10 * Pow10(k - 1)
  }

  lemma Pow10Small()
    ensures Pow10(2) == 100 && Pow10(3) == 1000
  {
    assert Pow10(1) == 10;
  }

  /** The number a string of decimal digits denotes, most significant digit
      first; the empty string denotes 0. */
  function DigitsValue(s: string): (v: nat)
    requires AllDigits(s)
    ensures v < Pow10(|s|)
  {
    if s == [] then 0
    else
      var v' := DigitsValue(s[..|s| - 1]);
      assert v' <= Pow10(|s| - 1) - 1;
      assert v' * 10 <= Pow10(|s| - 1) * 10 - 10;
      v' * 10 + DigitValue(s[|s| - 1])
  }

  lemma {:induction false} DigitsValueAppend(a: string, b: string)
    requires AllDigits(a) && AllDigits(b)
    ensures AllDigits(a + b)
    ensures DigitsValue(a + b) == DigitsValue(a) * Pow10(|b|) + DigitsValue(b)
    decreases |b|
  {
    if b == [] {
      assert a + b == a;
    } else {
      var b' := b[..|b| - 1];
      var c := b[|b| - 1];
      assert (a + b)[..|a + b| - 1] == a + b';
      assert (a + b)[|a + b| - 1] == c;
      assert b'[..] + [c] == b && b[..|b| - 1] == b';
      DigitsValueAppend(a, b');
      ShiftDigit(DigitsValue(a), Pow10(|b'|), DigitsValue(b'), DigitValue(c));
    }
  }

  /** One more digit appended to `a * p + b`. */
  lemma ShiftDigit(a: int, p: int, b: int, d: int)
    ensures (a * p + b) * 10 + d == a * (10 * p) + (b * 10 + d)
  {
  }

  /** Quotient and remainder by a positive divisor are unique. */
  lemma DivModOf(q: int, r: int, n: int)
    requires n > 0 && 0 <= r < n
    ensures (q * n + r) / n == q && (q * n + r) % n == r
  {
    var x := q * n + r;
    var k := x / n - q;
    assert k * n == r - x % n;
    MultipleBound(k, n);
  }

  lemma MultipleBound(k: int, n: int)
    requires n > 0
    ensures k >= 1 ==> k * n >= n
    ensures k <= -1 ==> k * n <= -n
  {
    assert k * n - n == (k - 1) * n;
    assert k * n + n == (k + 1) * n;
  }

  /** `str(n)` for a non-negative int: the shortest digit string, "0" for zero. */
  function NatToDigits(n: nat): (s: string)
    ensures 1 <= |s| && AllDigits(s) && DigitsValue(s) == n
    ensures s[0] == '0' ==> s == "0"
    decreases n
  {
    if n < 10 then [DigitChar(n)]
    else
      var p := NatToDigits(n / 10);
      var c := DigitChar(n % 10);
      assert (p + [c])[..|p|] == p;
      p + [c]
  }

  /** The digits of a value are the only canonical (no leading zero) digit
      string denoting it. */
  lemma {:induction false} NatToDigitsCanonical(s: string)
    requires 1 <= |s| && AllDigits(s) && (s[0] == '0' ==> s == "0")
    ensures NatToDigits(DigitsValue(s)) == s
    decreases |s|
  {
    if |s| == 1 {
      assert s[..0] == [];
      assert DigitChar(DigitValue(s[0])) == s[0];
    } else {
      var p := s[..|s| - 1];
      var c := s[|s| - 1];
      NatToDigitsCanonical(p);
      assert NatToDigits(0) == [DigitChar(0)];
      assert p[0] == s[0] != '0';
      assert DigitsValue(p) >= 1;
      DivModOf(DigitsValue(p), DigitValue(c), 10);
      assert DigitChar(DigitValue(c)) == c;
      assert p + [c] == s;
    }
  }

  /** `str(i)` for any int: a minus sign before the digits of a negative value. */
  function IntToString(i: int): (s: string)
  {
    if i < 0 then "-" + NatToDigits(-i) else NatToDigits(i)
  }

  /** Reads back what `IntToString` writes. */
  function ParseInt(s: string): Option<int>
  {
    if 2 <= |s| && s[0] == '-' && AllDigits(s[1..]) then Some(0 - DigitsValue(s[1..]))
    else if 1 <= |s| && AllDigits(s) then Some(DigitsValue(s))
    else None
  }

  lemma IntRoundTrip(i: int)
    ensures ParseInt(IntToString(i)) == Some(i)
  {
    var s := IntToString(i);
    if i < 0 {
      assert s[1..] == NatToDigits(-i);
    } else {
      assert !IsDigit('-');
    }
  }

  /** Exactly two digits, zero-padded: strftime's `%m` and `%d`, and the
      fractional part of the `.2f` format. */
  function Pad2(n: nat): (s: string)
    requires n < 100
    ensures |s| == 2 && AllDigits(s) && DigitsValue(s) == n
  {
    var s := [DigitChar(n / 10), DigitChar(n % 10)];
    assert s[..1] == [s[0]] && [s[0]][..0] == [];
    s
  }

  /** Exactly four digits, zero-padded: strftime's `%Y`. */
  function Pad4(n: nat): (s: string)
    requires n < 10000
    ensures |s| == 4 && AllDigits(s) && DigitsValue(s) == n
  {
    DigitsValueAppend(Pad2(n / 100), Pad2(n % 100));
    Pow10Small();
    Pad2(n / 100) + Pad2(n % 100)
  }

  lemma Pad2Canonical(s: string)
    requires |s| == 2 && AllDigits(s)
    ensures Pad2(DigitsValue(s)) == s
  {
    assert s[..1] == [s[0]] && [s[0]][..0] == [];
    assert DigitChar(DigitValue(s[0])) == s[0];
    assert DigitChar(DigitValue(s[1])) == s[1];
  }

  lemma Pad4Canonical(s: string)
    requires |s| == 4 && AllDigits(s)
    ensures Pad4(DigitsValue(s)) == s
  {
    var hi, lo := s[..2], s[2..];
    assert hi + lo == s;
    DigitsValueAppend(hi, lo);
    Pow10Small();
    var n := DigitsValue(s);
    assert n == DigitsValue(hi) * 100 + DigitsValue(lo);
    DivModOf(DigitsValue(hi), DigitsValue(lo), 100);
    assert n / 100 == DigitsValue(hi) && n % 100 == DigitsValue(lo);
    Pad2Canonical(hi);
    Pad2Canonical(lo);
  }

  /** A well-formed grouped integer: one to three leading digits, then any
      number of groups made of a comma and exactly three digits. */
  predicate GroupedDigits(g: string)
    ensures GroupedDigits(g) ==> 1 <= |g| && IsDigit(g[0])
    decreases |g|
  {
    if |g| <= 3 then 1 <= |g| && AllDigits(g)
    else g[|g| - 4] == ',' && AllDigits(g[|g| - 3..]) && GroupedDigits(g[..|g| - 4])
  }

  /** The number a grouped integer denotes, commas ignored. */
  function GroupedValue(g: string): nat
    requires GroupedDigits(g)
    decreases |g|
  {
    if |g| <= 3 then DigitsValue(g)
    else GroupedValue(g[..|g| - 4]) * 1000 + DigitsValue(g[|g| - 3..])
  }

  /** The `,` option of Python's format mini-language applied to a digit
      string: a comma between every three digits counted from the right. */
  function Group(s: string): (g: string)
    requires 1 <= |s| && AllDigits(s)
    ensures GroupedDigits(g) && GroupedValue(g) == DigitsValue(s)
    ensures |g| == |s| + (|s| - 1) / 3 && g[0] == s[0]
    decreases |s|
  {
    if |s| <= 3 then s
    else
      var head, tail := s[..|s| - 3], s[|s| - 3..];
      GroupSplit(s, head, tail);
      GroupJoin(Group(head), tail);
      Group(head) + "," + tail
  }

  /** The digits of a grouped integer with its commas taken out; grouping
      them again gives the grouped integer back. */
  function Ungroup(g: string): (s: string)
    requires GroupedDigits(g)
    ensures 1 <= |s| && AllDigits(s) && DigitsValue(s) == GroupedValue(g)
    ensures s[0] == g[0] && (|g| > 1 ==> |s| > 1)
    ensures Group(s) == g
    decreases |g|
  {
    if |g| <= 3 then g
    else
      var h, t := g[..|g| - 4], g[|g| - 3..];
      GroupSnoc(Ungroup(h), t);
      assert g == h + "," + t;
      Ungroup(h) + t
  }

  /** Three more digits after a digit string group as one more group. */
  lemma GroupSnoc(u: string, t: string)
    requires 1 <= |u| && AllDigits(u) && |t| == 3 && AllDigits(t)
    ensures AllDigits(u + t) && DigitsValue(u + t) == DigitsValue(u) * 1000 + DigitsValue(t)
    ensures Group(u + t) == Group(u) + "," + t
  {
    var s := u + t;
    assert s[..|s| - 3] == u && s[|s| - 3..] == t;
    DigitsValueAppend(u, t);
    Pow10Small();
  }

  /** A grouped integer holds only digits and commas. */
  lemma {:induction false} GroupedChars(g: string, i: nat)
    requires GroupedDigits(g) && i < |g|
    ensures g[i] == ',' || IsDigit(g[i])
    decreases |g|
  {
    if |g| > 3 && i < |g| - 4 {
      GroupedChars(g[..|g| - 4], i);
    }
  }

  /** A grouped integer without leading zeros is the grouping of `str` of
      its value. */
  lemma GroupCanonical(g: string)
    requires GroupedDigits(g) && (g[0] == '0' ==> |g| == 1)
    ensures Group(NatToDigits(GroupedValue(g))) == g
  {
    var s := Ungroup(g);
    NatToDigitsCanonical(s);
  }

  /** The last three digits of a longer digit string split off. */
  lemma GroupSplit(s: string, head: string, tail: string)
    requires 3 < |s| && AllDigits(s) && head == s[..|s| - 3] && tail == s[|s| - 3..]
    ensures AllDigits(head) && AllDigits(tail) && |tail| == 3
    ensures DigitsValue(s) == DigitsValue(head) * 1000 + DigitsValue(tail)
    ensures |head| + (|head| - 1) / 3 + 4 == |s| + (|s| - 1) / 3
  {
    assert head + tail == s;
    DigitsValueAppend(head, tail);
    Pow10Small();
    ThirdStep(|head| - 1);
  }

  lemma ThirdStep(n: int)
    requires n >= 0
    ensures (n + 3) / 3 == n / 3 + 1
  {
    DivModOf(n / 3 + 1, n % 3, 3);
  }

  /** A comma and three more digits extend a grouped integer. */
  lemma GroupJoin(h: string, tail: string)
    requires GroupedDigits(h) && |tail| == 3 && AllDigits(tail)
    ensures GroupedDigits(h + "," + tail)
    ensures GroupedValue(h + "," + tail) == GroupedValue(h) * 1000 + DigitsValue(tail)
  {
    var g := h + "," + tail;
    assert g[..|g| - 4] == h && g[|g| - 3..] == tail;
  }
}
