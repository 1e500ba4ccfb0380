/** Amounts as text: the Spanish rendering of a money field and the reading of what is typed. */
module MoneyText {
  import opened Wrappers
  import opened Digits

  // ---- The three accepted syntaxes ----

  /** Length of the longest prefix of digits. */
  function DigitRun(s: string): (k: nat)
    ensures k <= |s| && AllDigits(s[..k]) && (k < |s| ==> !IsDigit(s[k]))
  {
    if s != "" && IsDigit(s[0]) then
      var k := DigitRun(s[1..]);
      assert forall i :: 0 <= i < k + 1 ==> s[i] == if i == 0 then s[0] else s[1..][..k][i - 1];
      k + 1
    else 0
  }

  /** Position of the first comma, or the length when there is none. */
  function CommaAt(s: string): (k: nat)
    ensures k <= |s| && ',' !in s[..k] && (k < |s| ==> s[k] == ',')
  {
    if s == "" || s[0] == ',' then 0 else 1 + CommaAt(s[1..])
  }

  /** The marks of a money text, the sign and white space are no digits in any script. */
  lemma MarksAreNoDigits(c: char)
    requires c in ".,-" || IsSpace(c)
    ensures !IsDigit(c)
  {
    OnlyPlainDigits(c);
  }

  /** Nothing, or the mark followed by one or two digits. */
  predicate IsFraction(s: string, mark: char) {
    s == "" || (2 <= |s| <= 3 && s[0] == mark && AllDigits(s[1..]))
  }

  /** One to three digits, then groups of a dot and three digits. */
  predicate IsGrouped(s: string) {
    || (1 <= |s| <= 3 && AllDigits(s))
    || (|s| > 4 && s[|s| - 4] == '.' && AllDigits(s[|s| - 3..]) && IsGrouped(s[..|s| - 4]))
  }

  /** 1500 or 1500.5 or 1500.50 */
  predicate IsCanonical(s: string) {
    DigitRun(s) > 0 && IsFraction(s[DigitRun(s)..], '.')
  }

  /** 1.500 or 1.500,5 or 1.500,50 */
  predicate IsLocalized(s: string) {
    IsGrouped(s[..CommaAt(s)]) && IsFraction(s[CommaAt(s)..], ',')
  }

  /** 1500 or 1500,5 or 1500,50 */
  predicate IsLocalizedDecimal(s: string) {
    DigitRun(s) > 0 && IsFraction(s[DigitRun(s)..], ',')
  }

  // ---- Normalization ----

  /** What str.strip takes away. */
  predicate IsSpace(c: char) {
    || c == ' ' || '\t' <= c <= '\r' || '\U{1C}' <= c <= '\U{1F}'
    || c == '\U{85}' || c == '\U{A0}' || c == '\U{1680}' || '\U{2000}' <= c <= '\U{200A}'
    || c == '\U{2028}' || c == '\U{2029}' || c == '\U{202F}' || c == '\U{205F}' || c == '\U{3000}'
  }

  function StripLeft(s: string): string {
    if s != "" && IsSpace(s[0]) then StripLeft(s[1..]) else s
  }

  function StripRight(s: string): string {
    if s != "" && IsSpace(s[|s| - 1]) then StripRight(s[..|s| - 1]) else s
  }

  /** Dots removed, then commas turned into dots. */
  function Delocalized(s: string): string {
    if s == "" then ""
    else (if s[0] == '.' then "" else if s[0] == ',' then "." else [s[0]]) + Delocalized(s[1..])
  }

  /** None is the validation error. */
  function NormalizeLocalizedMoney(value: string): Option<string> {
    var text := StripRight(StripLeft(value));
    if text == "" then Some("")
    else if IsCanonical(text) then Some(text)
    else if IsLocalized(text) || IsLocalizedDecimal(text) then Some(Delocalized(text))
    else None
  }

  // ---- Reading and rendering amounts in cents ----

  function FractionCents(digits: string): nat
    requires AllDigits(digits)
  {
    if |digits| == 1 then 10 * Value(digits) else Value(digits)
  }

  /** The amount a canonical text denotes. */
  function CentsOf(text: string): nat
    requires IsCanonical(text)
  {
    var k := DigitRun(text);
    100 * Value(text[..k]) + if k == |text| then 0 else FractionCents(text[k + 1..])
  }

  /** What the field makes of a typed text: nothing when it is empty or invalid. */
  function Read(value: string): Option<nat> {
    match NormalizeLocalizedMoney(value)
    case Some(text) => if IsCanonical(text) then Some(CentsOf(text)) else None
    case None => None
  }

  /** n with a dot between groups of three digits. */
  function GroupedDecimal(n: nat): string {
    if n < 1000 then Decimal(n) else GroupedDecimal(n / 1000) + "." + Padded(n % 1000, 3)
  }

  function Abs(x: int): nat { if x < 0 then -x else x }

  /**
   * The initial value of a money field. The sign is that of the integer part read as
   * an int, so an amount above -1,00 loses it.
   */
  function Render(cents: int): string {
    var n := Abs(cents);
    (if cents <= -100 then "-" else "") + GroupedDecimal(n / 100) + "," + Padded(n % 100, 2)
  }

  // ---- Pieces ----

  lemma {:induction false} DigitRunOf(digits: string, rest: string)
    requires AllDigits(digits) && (rest == "" || !IsDigit(rest[0]))
    ensures DigitRun(digits + rest) == |digits|
  {
    if digits == "" {
      assert digits + rest == rest;
    } else {
      assert (digits + rest)[1..] == digits[1..] + rest;
      DigitRunOf(digits[1..], rest);
    }
  }

  lemma {:induction false} CommaAtOf(s: string, rest: string)
    requires ',' !in s && (rest == "" || rest[0] == ',')
    ensures CommaAt(s + rest) == |s|
  {
    if s == "" {
      assert s + rest == rest;
    } else {
      assert (s + rest)[1..] == s[1..] + rest;
      CommaAtOf(s[1..], rest);
    }
  }

  lemma {:induction false} DelocalizedAppend(s: string, t: string)
    ensures Delocalized(s + t) == Delocalized(s) + Delocalized(t)
  {
    if s == "" {
      assert s + t == t;
    } else {
      assert (s + t)[1..] == s[1..] + t;
      DelocalizedAppend(s[1..], t);
    }
  }

  lemma {:induction false} DelocalizedDigits(s: string)
    requires AllDigits(s)
    ensures Delocalized(s) == s
  {
    if s != "" {
      assert IsDigit(s[0]);
      MarksAreNoDigits('.');
      MarksAreNoDigits(',');
      DelocalizedDigits(s[1..]);
      assert s == [s[0]] + s[1..];
    }
  }

  lemma DelocalizedFraction(s: string)
    requires IsFraction(s, ',')
    ensures Delocalized(s) == (if s == "" then "" else "." + s[1..]) && IsFraction(Delocalized(s), '.')
  {
    if s != "" { DelocalizedDigits(s[1..]); }
  }

  lemma NoCommaInDigits(s: string)
    requires AllDigits(s)
    ensures ',' !in s
  {
    MarksAreNoDigits(',');
    forall i | 0 <= i < |s| ensures s[i] != ',' { assert IsDigit(s[i]); }
  }

  lemma {:induction false} GroupedPlain(s: string)
    requires IsGrouped(s)
    ensures ',' !in s && s != "" && Delocalized(s) != "" && AllDigits(Delocalized(s))
  {
    if 1 <= |s| <= 3 && AllDigits(s) {
      NoCommaInDigits(s);
      DelocalizedDigits(s);
    } else {
      var init, group := s[..|s| - 4], s[|s| - 3..];
      GroupedPlain(init);
      NoCommaInDigits(group);
      DelocalizedDigits(group);
      assert s == init + ("." + group);
      DelocalizedAppend(init, "." + group);
      assert ("." + group)[1..] == group;
    }
  }

  /** Digits followed by a fraction are canonical, with the digits in front. */
  lemma CanonicalParts(digits: string, fraction: string)
    requires AllDigits(digits) && digits != "" && IsFraction(fraction, '.')
    ensures IsCanonical(digits + fraction) && DigitRun(digits + fraction) == |digits|
  {
    MarksAreNoDigits('.');
    DigitRunOf(digits, fraction);
    assert (digits + fraction)[|digits|..] == fraction;
  }

  /** Normalizing a localized text gives a canonical one. */
  lemma DelocalizedIsCanonical(s: string)
    requires IsLocalized(s) || IsLocalizedDecimal(s)
    ensures IsCanonical(Delocalized(s))
  {
    var k := if IsLocalized(s) then CommaAt(s) else DigitRun(s);
    var whole, fraction := s[..k], s[k..];
    assert s == whole + fraction;
    if IsLocalized(s) { GroupedPlain(whole); } else { DelocalizedDigits(whole); }
    DelocalizedAppend(whole, fraction);
    DelocalizedFraction(fraction);
    CanonicalParts(Delocalized(whole), Delocalized(fraction));
  }

  lemma CanonicalEnds(s: string)
    requires IsCanonical(s)
    ensures s != "" && !IsSpace(s[0]) && !IsSpace(s[|s| - 1]) && StripRight(StripLeft(s)) == s
  {
    var k := DigitRun(s);
    assert IsDigit(s[..k][0]);
    if k < |s| { assert IsDigit(s[k..][1..][|s| - k - 2]); } else { assert IsDigit(s[..k][k - 1]); }
    DigitEnds(s);
  }

  /** Stripping leaves a text alone that starts and ends with digits. */
  lemma DigitEnds(s: string)
    requires s != "" && IsDigit(s[0]) && IsDigit(s[|s| - 1])
    ensures !IsSpace(s[0]) && !IsSpace(s[|s| - 1]) && StripRight(StripLeft(s)) == s
  {
    if IsSpace(s[0]) { MarksAreNoDigits(s[0]); }
    if IsSpace(s[|s| - 1]) { MarksAreNoDigits(s[|s| - 1]); }
  }

  // ---- Main results ----

  /** Normalization gives the empty text or a canonical one. */
  lemma NormalizedIsCanonical(value: string)
    requires NormalizeLocalizedMoney(value).Some?
    ensures var text := NormalizeLocalizedMoney(value).value; text == "" || IsCanonical(text)
  {
    var text := StripRight(StripLeft(value));
    if text != "" && !IsCanonical(text) { DelocalizedIsCanonical(text); }
  }

  lemma NormalizeIsIdempotent(value: string)
    requires NormalizeLocalizedMoney(value).Some?
    ensures var text := NormalizeLocalizedMoney(value).value; NormalizeLocalizedMoney(text) == Some(text)
  {
    NormalizedIsCanonical(value);
    var text := NormalizeLocalizedMoney(value).value;
    if text != "" { CanonicalEnds(text); }
  }

  /** A dot with one or two digits after it is a decimal point, never a group separator. */
  lemma DecimalPointIsNotLocalized(s: string)
    requires IsCanonical(s) && DigitRun(s) < |s|
    ensures !IsLocalized(s) && !IsLocalizedDecimal(s)
  {
    var k := DigitRun(s);
    assert s[k] == s[k..][0] == '.';
    CanonicalHasNoComma(s);
    assert CommaAt(s) == |s| && s[..|s|] == s;
    LateDotIsNotGrouped(s, k);
  }

  lemma LateDotIsNotGrouped(s: string, k: nat)
    requires k < |s| <= k + 3 && s[k] == '.' && AllDigits(s[..k])
    ensures !IsGrouped(s)
  {
    MarksAreNoDigits(s[k]);
    if |s| > 4 { assert IsDigit(s[..k][|s| - 4]); }
  }

  /** A text that is both canonical and localized is plain digits, and both readings give it as it is. */
  lemma ReadingsAgree(s: string)
    requires IsCanonical(s) && (IsLocalized(s) || IsLocalizedDecimal(s))
    ensures AllDigits(s) && Delocalized(s) == s
  {
    var k := DigitRun(s);
    if k < |s| {
      DecimalPointIsNotLocalized(s);
      assert false;
    } else {
      assert s[..k] == s;
      DelocalizedDigits(s);
    }
  }

  lemma DecimalLength(n: nat)
    ensures n < 10 ==> |Decimal(n)| == 1
    ensures n < 100 ==> |Decimal(n)| <= 2
    ensures n < 1000 ==> |Decimal(n)| <= 3
  {
    if 10 <= n < 100 {
      assert |Decimal(n / 10)| == 1;
    } else if 100 <= n < 1000 {
      assert |Decimal(n / 10 / 10)| == 1;
      assert |Decimal(n / 10)| == 2;
    }
  }

  lemma PaddedLength(n: nat, width: nat)
    requires (width == 2 && n < 100) || (width == 3 && n < 1000)
    ensures |Padded(n, width)| == width
  {
    DecimalLength(n);
  }

  lemma IsGroupedAppend(init: string, group: string)
    requires IsGrouped(init) && AllDigits(group) && |group| == 3
    ensures IsGrouped(init + "." + group)
  {
    GroupedStart(init);
    var s := init + "." + group;
    assert |s| > 4 && s[..|s| - 4] == init && s[|s| - 3..] == group && s[|s| - 4] == '.';
  }

  lemma DelocalizedGroup(init: string, group: string)
    requires AllDigits(group)
    ensures Delocalized(init + "." + group) == Delocalized(init) + group
  {
    DelocalizedDigits(group);
    DelocalizedAppend(init + ".", group);
    DelocalizedAppend(init, ".");
    DelocalizedDot();
  }

  lemma DelocalizedDot()
    ensures Delocalized(".") == ""
  {
    assert "."[1..] == "";
  }

  lemma ThousandsAndGroup(n: nat, thousands: string, group: string)
    requires AllDigits(thousands) && AllDigits(group) && |group| == 3
    requires Value(thousands) == n / 1000 && Value(group) == n % 1000
    ensures AllDigits(thousands + group) && Value(thousands + group) == n
  {
    ValueAppend(thousands, group);
    assert Power10(3) == 1000 by { assert Power10(1) == 10; assert Power10(2) == 100; }
  }

  lemma {:induction false} GroupedDecimalReads(n: nat)
    ensures IsGrouped(GroupedDecimal(n))
    ensures AllDigits(Delocalized(GroupedDecimal(n))) && Value(Delocalized(GroupedDecimal(n))) == n
  {
    if n < 1000 {
      DecimalLength(n);
      DelocalizedDigits(Decimal(n));
      ValueOfDecimal(n);
    } else {
      var init, group := GroupedDecimal(n / 1000), Padded(n % 1000, 3);
      GroupedDecimalReads(n / 1000);
      PaddedLength(n % 1000, 3);
      ValueOfPadded(n % 1000, 3);
      IsGroupedAppend(init, group);
      DelocalizedGroup(init, group);
      ThousandsAndGroup(n, Delocalized(init), group);
    }
  }

  lemma LocalizedSyntax(grouped: string, fraction: string)
    requires IsGrouped(grouped) && AllDigits(fraction) && |fraction| == 2
    ensures IsLocalized(grouped + "," + fraction)
  {
    var s, tail := grouped + "," + fraction, "," + fraction;
    GroupedPlain(grouped);
    assert s == grouped + tail;
    CommaAtOf(grouped, tail);
    assert s[..|grouped|] == grouped && s[|grouped|..] == tail;
    assert tail[1..] == fraction;
  }

  lemma DelocalizedParts(grouped: string, fraction: string)
    requires AllDigits(fraction) && |fraction| == 2
    ensures Delocalized(grouped + "," + fraction) == Delocalized(grouped) + "." + fraction
  {
    var tail := "," + fraction;
    assert grouped + "," + fraction == grouped + tail;
    DelocalizedAppend(grouped, tail);
    DelocalizedCents(fraction, tail);
    assert Delocalized(grouped) + ("." + fraction) == Delocalized(grouped) + "." + fraction;
  }

  lemma DelocalizedCents(fraction: string, tail: string)
    requires AllDigits(fraction) && |fraction| == 2 && tail == "," + fraction
    ensures Delocalized(tail) == "." + fraction
  {
    assert tail[1..] == fraction;
    DelocalizedDigits(fraction);
  }

  lemma NormalizesLocalized(s: string)
    requires s != "" && StripRight(StripLeft(s)) == s && ',' in s && IsLocalized(s)
    ensures NormalizeLocalizedMoney(s) == Some(Delocalized(s))
  {
    CommaIsNotCanonical(s);
  }

  lemma LocalizedParts(grouped: string, fraction: string)
    requires IsGrouped(grouped) && AllDigits(fraction) && |fraction| == 2
    ensures NormalizeLocalizedMoney(grouped + "," + fraction) == Some(Delocalized(grouped) + "." + fraction)
  {
    var s := grouped + "," + fraction;
    assert s[|grouped|] == ',';
    LocalizedSyntax(grouped, fraction);
    RenderEnds(grouped, fraction);
    NormalizesLocalized(s);
    DelocalizedParts(grouped, fraction);
  }

  /** The rendering of a non-negative amount normalizes to digits, a dot and two digits. */
  lemma RenderNormalizes(cents: nat)
    ensures var whole, fraction := Delocalized(GroupedDecimal(cents / 100)), Padded(cents % 100, 2);
            NormalizeLocalizedMoney(Render(cents)) == Some(whole + "." + fraction)
            && |fraction| == 2 && whole != "" && AllDigits(whole)
  {
    GroupedDecimalReads(cents / 100);
    PaddedLength(cents % 100, 2);
    RenderedParts(cents, GroupedDecimal(cents / 100), Padded(cents % 100, 2));
  }

  lemma RenderedParts(cents: nat, grouped: string, fraction: string)
    requires grouped == GroupedDecimal(cents / 100) && fraction == Padded(cents % 100, 2)
    requires IsGrouped(grouped) && |fraction| == 2
    ensures NormalizeLocalizedMoney(Render(cents)) == Some(Delocalized(grouped) + "." + fraction)
    ensures Delocalized(grouped) != ""
  {
    GroupedPlain(grouped);
    LocalizedParts(grouped, fraction);
    RenderOfNat(cents, grouped, fraction);
  }

  lemma RenderOfNat(cents: nat, grouped: string, fraction: string)
    requires grouped == GroupedDecimal(cents / 100) && fraction == Padded(cents % 100, 2)
    ensures Render(cents) == grouped + "," + fraction
  {
    assert "" + grouped == grouped;
  }

  lemma FractionHasNoComma(s: string)
    requires IsFraction(s, '.')
    ensures ',' !in s
  {
    if s != "" {
      NoCommaInDigits(s[1..]);
      assert s == [s[0]] + s[1..];
    }
  }

  lemma CanonicalHasNoComma(s: string)
    requires IsCanonical(s)
    ensures ',' !in s
  {
    var r := DigitRun(s);
    NoCommaInDigits(s[..r]);
    FractionHasNoComma(s[r..]);
    assert s == s[..r] + s[r..];
  }

  lemma CommaIsNotCanonical(s: string)
    requires ',' in s
    ensures !IsCanonical(s)
  {
    if IsCanonical(s) { CanonicalHasNoComma(s); }
  }

  lemma RenderEnds(grouped: string, fraction: string)
    requires IsGrouped(grouped) && AllDigits(fraction) && |fraction| == 2
    ensures var s := grouped + "," + fraction; StripRight(StripLeft(s)) == s
  {
    var s := grouped + "," + fraction;
    GroupedStart(grouped);
    assert s[0] == grouped[0];
    assert IsDigit(fraction[1]) && s[|s| - 1] == fraction[1];
    DigitEnds(s);
  }

  lemma {:induction false} GroupedStart(s: string)
    requires IsGrouped(s)
    ensures s != "" && IsDigit(s[0])
  {
    if !(1 <= |s| <= 3 && AllDigits(s)) { GroupedStart(s[..|s| - 4]); }
  }

  lemma ReadOfRender(cents: nat)
    ensures Read(Render(cents)) == Some(cents)
  {
    RenderNormalizes(cents);
    var whole, fraction := Delocalized(GroupedDecimal(cents / 100)), Padded(cents % 100, 2);
    GroupedDecimalReads(cents / 100);
    ValueOfPadded(cents % 100, 2);
    ReadOfParts(Render(cents), whole, fraction, cents);
  }

  lemma ReadOfParts(value: string, whole: string, fraction: string, cents: nat)
    requires AllDigits(whole) && whole != "" && AllDigits(fraction) && |fraction| == 2
    requires NormalizeLocalizedMoney(value) == Some(whole + "." + fraction)
    requires Value(whole) == cents / 100 && Value(fraction) == cents % 100
    ensures Read(value) == Some(cents)
  {
    CentsOfParts(whole, fraction);
    ReadOfNormalized(value, whole + "." + fraction);
  }

  lemma ReadOfNormalized(value: string, text: string)
    requires NormalizeLocalizedMoney(value) == Some(text) && IsCanonical(text)
    ensures Read(value) == Some(CentsOf(text))
  {
  }

  lemma CentsOfParts(whole: string, fraction: string)
    requires AllDigits(whole) && whole != "" && AllDigits(fraction) && |fraction| == 2
    ensures IsCanonical(whole + "." + fraction)
    ensures CentsOf(whole + "." + fraction) == 100 * Value(whole) + Value(fraction)
  {
    assert ("." + fraction)[1..] == fraction;
    CanonicalParts(whole, "." + fraction);
    var text := whole + "." + fraction;
    assert text == whole + ("." + fraction);
    assert text[..|whole|] == whole && text[|whole| + 1..] == fraction;
  }

  /** A text that starts with a minus sign is never accepted. */
  lemma MinusIsRefused(s: string)
    ensures Read("-" + s).None?
  {
    var text := StripRight("-" + s);
    assert StripLeft("-" + s) == "-" + s;
    MinusStays(s);
    MarksAreNoDigits('-');
    assert text[0] == '-' && DigitRun(text) == 0;
    if IsLocalized(text) {
      GroupedStart(text[..CommaAt(text)]);
      assert false;
    }
  }

  lemma {:induction false} MinusStays(s: string)
    ensures StripRight("-" + s) != "" && StripRight("-" + s)[0] == '-'
  {
    if s == "" {
      assert "-" + s == "-";
    } else {
      assert ("-" + s)[..|"-" + s| - 1] == "-" + s[..|s| - 1];
      MinusStays(s[..|s| - 1]);
    }
  }

  /**
   * Reading back what the field displays gives the amount exactly when it is not negative.
   * A negative amount is either refused or, above -1,00, read as its absolute value.
   */
  lemma RoundTripExactly(cents: int)
    ensures (Read(Render(cents)).Some? && Read(Render(cents)).value as int == cents) <==> cents >= 0
  {
    if cents >= 0 {
      ReadOfRender(cents);
    } else if cents > -100 {
      assert Render(cents) == Render(-cents);
      ReadOfRender(-cents);
    } else {
      assert Render(cents) == "-" + (GroupedDecimal(-cents / 100) + "," + Padded(-cents % 100, 2));
      MinusIsRefused(GroupedDecimal(-cents / 100) + "," + Padded(-cents % 100, 2));
    }
  }
}
