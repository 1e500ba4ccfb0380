/** Decimal notation of natural numbers: written in ASCII digits, read in the decimal digits of any script. */
module Digits {
  import opened Wrappers

  function DigitChar(d: nat): char
    requires d < 10
  {
    '0' + d as char
  }

  /** Where the runs of ten decimal digits beyond ASCII start in Unicode 15.0. */
  const ZEROS: seq<int> := LOW_ZEROS + MIDDLE_ZEROS + HIGH_ZEROS

  const LOW_ZEROS: seq<int> := [
    0x660, 0x6F0, 0x7C0, 0x966, 0x9E6, 0xA66, 0xAE6, 0xB66, 0xBE6, 0xC66, 0xCE6, 0xD66, 0xDE6, 0xE50, 0xED0,
    0xF20, 0x1040, 0x1090, 0x17E0, 0x1810, 0x1946, 0x19D0, 0x1A80, 0x1A90, 0x1B50, 0x1BB0, 0x1C40, 0x1C50
  ]

  const MIDDLE_ZEROS: seq<int> := [
    0xA620, 0xA8D0, 0xA900, 0xA9D0, 0xA9F0, 0xAA50, 0xABF0, 0xFF10, 0x104A0, 0x10D30, 0x11066, 0x110F0,
    0x11136, 0x111D0, 0x112F0, 0x11450, 0x114D0, 0x11650, 0x116C0
  ]

  const HIGH_ZEROS: seq<int> := [
    0x11730, 0x118E0, 0x11950, 0x11C50, 0x11D50, 0x11DA0, 0x11F50, 0x16A60, 0x16AC0, 0x16B50, 0x1D7CE,
    0x1D7D8, 0x1D7E2, 0x1D7EC, 0x1D7F6, 0x1E140, 0x1E2F0, 0x1E4F0, 0x1E950, 0x1FBF0
  ]

  const RUNS: nat := 67

  lemma RunsAreCounted()
    ensures |ZEROS| == RUNS
  {
    assert |LOW_ZEROS| == 28 && |MIDDLE_ZEROS| == 19 && |HIGH_ZEROS| == 20;
  }

  function Zero(i: nat): int
    requires i < RUNS
  {
    RunsAreCounted();
    ZEROS[i]
  }

  /** The value of c in one of the first n runs of digits beyond ASCII. */
  function DigitIn(c: char, n: nat): (d: Option<nat>)
    requires n <= RUNS
    ensures d.Some? ==> d.value < 10
  {
    if n == 0 then None
    else if Zero(n - 1) <= c as int < Zero(n - 1) + 10 then Some(c as int - Zero(n - 1))
    else DigitIn(c, n - 1)
  }

  predicate IsPlainDigit(c: char) { '0' <= c <= '9' }

  predicate IsDigit(c: char) { IsPlainDigit(c) || DigitIn(c, RUNS).Some? }

  predicate AllPlainDigits(s: string) {
    forall i :: 0 <= i < |s| ==> IsPlainDigit(s[i])
  }

  predicate AllDigits(s: string) {
    forall i :: 0 <= i < |s| ==> IsDigit(s[i])
  }

  function DigitValue(c: char): nat
    requires IsDigit(c)
  {
    if IsPlainDigit(c) then (c - '0') as nat else DigitIn(c, RUNS).value
  }

  lemma RunsAreElsewhere(z: int)
    requires z in ZEROS
    ensures 0x660 <= z <= 0x1090 || 0x17E0 <= z <= 0x1C50 || 0xA620 <= z
  {
    if z in LOW_ZEROS {
      assert 0x660 <= z <= 0x1090 || 0x17E0 <= z <= 0x1C50;
    } else {
      assert z in MIDDLE_ZEROS || z in HIGH_ZEROS;
    }
  }

  /** Places no run of digits beyond ASCII touches; the marks and white space of texts lie here. */
  predicate OffRuns(c: int) { c < 0x660 || c == 0x1680 || 0x2000 <= c <= 0x3000 }

  lemma RunMisses(i: nat, c: int)
    requires i < RUNS && OffRuns(c)
    ensures !(Zero(i) <= c < Zero(i) + 10)
  {
    RunsAreCounted();
    RunsAreElsewhere(ZEROS[i]);
  }

  lemma {:induction false} NoDigitIn(c: char, n: nat)
    requires n <= RUNS && OffRuns(c as int)
    ensures DigitIn(c, n).None?
  {
    if n > 0 {
      RunMisses(n - 1, c as int);
      NoDigitIn(c, n - 1);
    }
  }

  /** There are no digits beyond ASCII below U+0660, at U+1680, and from U+2000 to U+3000. */
  lemma OnlyPlainDigits(c: char)
    requires OffRuns(c as int)
    ensures IsDigit(c) <==> IsPlainDigit(c)
  {
    NoDigitIn(c, RUNS);
  }

  function Decimal(n: nat): (s: string)
    ensures |s| > 0 && AllDigits(s) && AllPlainDigits(s)
  {
    if n < 10 then [DigitChar(n)] else Decimal(n / 10) + [DigitChar(n % 10)]
  }

  function Value(s: string): nat
    requires AllDigits(s)
  {
    if s == [] then 0 else 10 * Value(s[..|s| - 1]) + DigitValue(s[|s| - 1])
  }

  /** n in decimal, padded with zeros to at least `width` characters. */
  function Padded(n: nat, width: nat): (s: string)
    ensures AllDigits(s) && |s| >= width
  {
    var digits := Decimal(n);
    if |digits| >= width then digits else Zeros(width - |digits|) + digits
  }

  function Zeros(k: nat): (s: string)
    ensures |s| == k && AllDigits(s)
  {
    if k == 0 then "" else "0" + Zeros(k - 1)
  }

  /** A number below a power of ten has at most that many digits. */
  lemma {:induction false} DecimalWidth(n: nat, k: nat)
    requires k > 0
    ensures |Decimal(n)| <= k <==> n < Power10(k)
    decreases k
  {
    if n >= 10 {
      if k == 1 {
        assert Power10(1) == 10;
      } else {
        DecimalWidth(n / 10, k - 1);
      }
    }
  }

  lemma {:induction false} ValueOfDecimal(n: nat)
    ensures Value(Decimal(n)) == n
  {
    if n >= 10 {
      ValueOfDecimal(n / 10);
      assert Decimal(n)[..|Decimal(n)| - 1] == Decimal(n / 10);
    } else {
      assert Decimal(n)[..0] == [];
    }
  }

  lemma DigitsAppend(s: string, t: string)
    ensures AllDigits(s + t) <==> AllDigits(s) && AllDigits(t)
  {
    forall i | 0 <= i < |t| ensures t[i] == (s + t)[|s| + i] {}
    forall i | 0 <= i < |s| ensures s[i] == (s + t)[i] {}
  }

  lemma ValueOfLast(s: string, init: string, last: char)
    requires s == init + [last] && AllDigits(s)
    ensures AllDigits(init) && IsDigit(last) && Value(s) == 10 * Value(init) + DigitValue(last)
  {
    assert s[..|s| - 1] == init && s[|s| - 1] == last;
  }

  lemma {:induction false} ValueAppend(s: string, t: string)
    requires AllDigits(s) && AllDigits(t)
    ensures AllDigits(s + t) && Value(s + t) == Value(s) * Power10(|t|) + Value(t)
  {
    DigitsAppend(s, t);
    if t == [] {
      assert s + t == s;
    } else {
      var init, last := t[..|t| - 1], t[|t| - 1];
      assert t == init + [last] && s + t == (s + init) + [last];
      ValueOfLast(s + t, s + init, last);
      ValueOfLast(t, init, last);
      ValueAppend(s, init);
      TimesTen(Value(s), Power10(|init|));
    }
  }

  lemma TimesTen(x: nat, y: nat)
    ensures x * (10 * y) == 10 * (x * y)
  {
  }

  function Power10(k: nat): (p: nat)
    ensures p > 0
  {
    if k == 0 then 1 else 10 * Power10(k - 1)
  }

  lemma {:induction false} ValueOfZeros(k: nat)
    ensures Value(Zeros(k)) == 0
  {
    if k > 0 {
      ValueOfZeros(k - 1);
      ValueAppend("0", Zeros(k - 1));
      assert "0"[..0] == [];
    }
  }

  /** Padding does not change the number. */
  lemma ValueOfPadded(n: nat, width: nat)
    ensures Value(Padded(n, width)) == n
  {
    ValueOfDecimal(n);
    if |Decimal(n)| < width {
      ValueOfZeros(width - |Decimal(n)|);
      LeadingZeros(Zeros(width - |Decimal(n)|), Decimal(n));
    }
  }

  lemma LeadingZeros(zeros: string, digits: string)
    requires AllDigits(zeros) && AllDigits(digits) && Value(zeros) == 0
    ensures AllDigits(zeros + digits) && Value(zeros + digits) == Value(digits)
  {
    ValueAppend(zeros, digits);
  }
}
