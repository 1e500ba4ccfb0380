/**
 What an accepted money text means. A text is accepted exactly when it is written in one of the forms below, in the
 decimal digits of any script, and then it is read as the amount its parts denote.
 */
module MoneyReading {
  import opened Wrappers
  import opened Digits
  import opened MoneyText

  /** Digits, possibly groups of three more after dots, possibly a decimal mark and one or two digits. */
  datatype Amount = Amount(head: string, groups: seq<string>, mark: string, fraction: string)

  predicate WellFormed(x: Amount) {
    && x.head != "" && AllDigits(x.head)
    && (x.groups != [] ==> |x.head| <= 3)
    && (forall i :: 0 <= i < |x.groups| ==> |x.groups[i]| == 3 && AllDigits(x.groups[i]))
    && AllDigits(x.fraction)
    && (|| (x.mark == "" && x.fraction == "")
        || (x.mark == "," && 1 <= |x.fraction| <= 2)
        || (x.mark == "." && 1 <= |x.fraction| <= 2 && x.groups == []))
  }

  /** Groups written behind the head, a dot before each. */
  function Dotted(head: string, groups: seq<string>): string {
    if groups == [] then head else Dotted(head, groups[..|groups| - 1]) + ("." + groups[|groups| - 1])
  }

  /** The same digits without the dots. */
  function Joined(head: string, groups: seq<string>): string {
    if groups == [] then head else Joined(head, groups[..|groups| - 1]) + groups[|groups| - 1]
  }

  function Tail(x: Amount): string { x.mark + x.fraction }

  function Written(x: Amount): string { Dotted(x.head, x.groups) + Tail(x) }

  lemma {:induction false} JoinedDigits(head: string, groups: seq<string>)
    requires AllDigits(head) && head != ""
    requires forall i :: 0 <= i < |groups| ==> |groups[i]| == 3 && AllDigits(groups[i])
    ensures AllDigits(Joined(head, groups)) && Joined(head, groups) != ""
  {
    if groups != [] {
      var init, last := groups[..|groups| - 1], groups[|groups| - 1];
      JoinedDigits(head, init);
      DigitsAppend(Joined(head, init), last);
    }
  }

  /** The first decimal digit counts ten cents each, the second one each. */
  function Decimals(fraction: string): nat
    requires AllDigits(fraction)
  {
    (if |fraction| >= 1 then 10 * DigitValue(fraction[0]) else 0)
    + if |fraction| >= 2 then DigitValue(fraction[1]) else 0
  }

  /** Units count a hundred cents each. */
  function Denoted(x: Amount): nat
    requires WellFormed(x)
  {
    JoinedDigits(x.head, x.groups);
    100 * Value(Joined(x.head, x.groups)) + Decimals(x.fraction)
  }

  // ---- What is written is read ----------------------------------------------------------

  lemma {:induction false} DottedIsGrouped(head: string, groups: seq<string>)
    requires 1 <= |head| <= 3 && AllDigits(head)
    requires forall i :: 0 <= i < |groups| ==> |groups[i]| == 3 && AllDigits(groups[i])
    ensures IsGrouped(Dotted(head, groups)) && Delocalized(Dotted(head, groups)) == Joined(head, groups)
    decreases |groups|
  {
    if groups == [] {
      DelocalizedDigits(head);
    } else {
      var init, last := groups[..|groups| - 1], groups[|groups| - 1];
      DottedIsGrouped(head, init);
      var s := Dotted(head, init);
      assert Dotted(head, groups) == s + "." + last;
      IsGroupedAppend(s, last);
      DelocalizedGroup(s, last);
    }
  }

  lemma {:induction false} GroupedIsDotted(s: string) returns (head: string, groups: seq<string>)
    requires IsGrouped(s)
    ensures 1 <= |head| <= 3 && AllDigits(head)
    ensures forall i :: 0 <= i < |groups| ==> |groups[i]| == 3 && AllDigits(groups[i])
    ensures Dotted(head, groups) == s
    decreases |s|
  {
    if 1 <= |s| <= 3 && AllDigits(s) {
      head, groups := s, [];
    } else {
      var init, last := s[..|s| - 4], s[|s| - 3..];
      var h, g := GroupedIsDotted(init);
      head, groups := h, g + [last];
      assert groups[..|groups| - 1] == g;
      assert s == init + ("." + last);
    }
  }

  lemma {:induction false} DottedStart(head: string, groups: seq<string>) returns (rest: string)
    requires groups != [] && forall i :: 0 <= i < |groups| ==> |groups[i]| == 3
    ensures Dotted(head, groups) == head + rest && |rest| >= 4 && rest[0] == '.'
    decreases |groups|
  {
    var init, last := groups[..|groups| - 1], groups[|groups| - 1];
    if init == [] {
      rest := "." + last;
    } else {
      var before := DottedStart(head, init);
      rest := before + ("." + last);
      assert Dotted(head, groups) == Dotted(head, init) + ("." + last);
    }
  }

  function PointTail(fraction: string): string { if fraction == "" then "" else "." + fraction }

  /** The value of canonical digits and decimals. */
  lemma CentsOfForm(w: string, fraction: string)
    requires AllDigits(w) && w != "" && AllDigits(fraction) && |fraction| <= 2
    ensures IsCanonical(w + PointTail(fraction))
    ensures CentsOf(w + PointTail(fraction)) == 100 * Value(w) + Decimals(fraction)
  {
    var tail := PointTail(fraction);
    if fraction != "" { assert tail[1..] == fraction; }
    CanonicalParts(w, tail);
    var text := w + tail;
    assert text[..|w|] == w;
    if fraction != "" {
      assert text[|w| + 1..] == fraction;
      ValueOfTwo(fraction);
    }
  }

  lemma ValueOfTwo(fraction: string)
    requires AllDigits(fraction) && 1 <= |fraction| <= 2
    ensures FractionCents(fraction) == Decimals(fraction)
  {
    if |fraction| == 1 {
      ValueOfOne(fraction, fraction[0]);
    } else {
      var init, last := [fraction[0]], fraction[1];
      assert fraction == init + [last];
      ValueOfLast(fraction, init, last);
      ValueOfOne(init, fraction[0]);
    }
  }

  lemma ValueOfOne(s: string, c: char)
    requires s == [c] && IsDigit(c)
    ensures AllDigits(s) && Value(s) == DigitValue(c)
  {
    assert s[..0] == "";
  }

  /** A text that starts and ends with digits is not changed by stripping. */
  lemma WrittenEnds(x: Amount)
    requires WellFormed(x)
    ensures var t := Written(x); t != "" && IsDigit(t[0]) && IsDigit(t[|t| - 1])
  {
    var t := Written(x);
    DottedEnds(x.head, x.groups);
    if x.mark != "" { assert t[|t| - 1] == x.fraction[|x.fraction| - 1]; }
  }

  lemma {:induction false} DottedEnds(head: string, groups: seq<string>)
    requires AllDigits(head) && head != ""
    requires forall i :: 0 <= i < |groups| ==> |groups[i]| == 3 && AllDigits(groups[i])
    ensures var t := Dotted(head, groups); t != "" && IsDigit(t[0]) && IsDigit(t[|t| - 1])
    decreases |groups|
  {
    if groups != [] {
      var init, last := groups[..|groups| - 1], groups[|groups| - 1];
      DottedEnds(head, init);
      assert IsDigit(last[2]);
    }
  }

  lemma FormIsRead(t: string, w: string, fraction: string, text: string)
    requires AllDigits(w) && w != "" && AllDigits(fraction) && |fraction| <= 2 && text == w + PointTail(fraction)
    requires NormalizeLocalizedMoney(t) == Some(text)
    ensures Read(t) == Some(100 * Value(w) + Decimals(fraction))
  {
    CentsOfForm(w, fraction);
    ReadOfNormalized(t, text);
  }

  /** Plain digits, with a decimal point or without: the text is its own normal form. */
  lemma PlainIsNormal(x: Amount, t: string)
    requires WellFormed(x) && x.groups == [] && x.mark != "," && t == Written(x)
    ensures NormalizeLocalizedMoney(t) == Some(t) && t == x.head + PointTail(x.fraction)
  {
    CentsOfForm(x.head, x.fraction);
    WrittenEnds(x);
    DigitEnds(t);
    assert Tail(x) == PointTail(x.fraction);
  }

  /** Groups or a comma: the text is localized, not canonical, and loses its dots. */
  lemma LocalizedForm(x: Amount)
    requires WellFormed(x) && (x.groups != [] || x.mark == ",")
    ensures !IsCanonical(Written(x)) && (IsLocalized(Written(x)) || IsLocalizedDecimal(Written(x)))
  {
    var t, tail := Written(x), Tail(x);
    MarksAreNoDigits(',');
    if |x.head| <= 3 {
      DottedIsGrouped(x.head, x.groups);
      GroupedPlain(Dotted(x.head, x.groups));
      CommaAtOf(Dotted(x.head, x.groups), tail);
      assert t[..|Dotted(x.head, x.groups)|] == Dotted(x.head, x.groups);
      assert t[|Dotted(x.head, x.groups)|..] == tail;
    } else {
      DigitRunOf(x.head, tail);
      assert t[|x.head|..] == tail;
    }
    if tail != "" { assert tail[1..] == x.fraction; }
    if x.mark == "," {
      assert t[|Dotted(x.head, x.groups)|] == ',';
      CommaIsNotCanonical(t);
    } else {
      MarksAreNoDigits('.');
      var rest := DottedStart(x.head, x.groups);
      assert t == x.head + rest;
      DigitRunOf(x.head, rest);
      assert t[|x.head|..] == rest;
    }
  }

  lemma DelocalizedForm(x: Amount)
    requires WellFormed(x) && (x.groups != [] || x.mark == ",")
    ensures Delocalized(Written(x)) == Joined(x.head, x.groups) + PointTail(x.fraction)
  {
    var tail := Tail(x);
    DelocalizedAppend(Dotted(x.head, x.groups), tail);
    if x.groups == [] {
      DelocalizedDigits(x.head);
    } else {
      DottedIsGrouped(x.head, x.groups);
    }
    if tail != "" {
      assert tail[1..] == x.fraction;
      DelocalizedDigits(x.fraction);
    }
  }

  lemma LocalizedIsNormalized(x: Amount, t: string, w: string, text: string)
    requires WellFormed(x) && (x.groups != [] || x.mark == ",") && t == Written(x)
    requires w == Joined(x.head, x.groups) && text == w + PointTail(x.fraction)
    ensures NormalizeLocalizedMoney(t) == Some(text)
  {
    WrittenEnds(x);
    DigitEnds(t);
    LocalizedForm(x);
    DelocalizedForm(x);
  }

  /** The normal form of every form: its digits without dots, and a decimal point. */
  lemma NormalForm(x: Amount, t: string, w: string, text: string)
    requires WellFormed(x) && t == Written(x) && w == Joined(x.head, x.groups) && text == w + PointTail(x.fraction)
    ensures NormalizeLocalizedMoney(t) == Some(text)
  {
    if x.groups == [] && x.mark != "," {
      PlainIsNormal(x, t);
    } else {
      LocalizedIsNormalized(x, t, w, text);
    }
  }

  /** Every form is read as the amount it denotes. */
  lemma WrittenIsRead(x: Amount, t: string)
    requires WellFormed(x) && t == Written(x)
    ensures Read(t) == Some(Denoted(x))
  {
    JoinedDigits(x.head, x.groups);
    var w := Joined(x.head, x.groups);
    ReadByParts(x, t, w, w + PointTail(x.fraction));
  }

  lemma ReadByParts(x: Amount, t: string, w: string, text: string)
    requires WellFormed(x) && t == Written(x) && w == Joined(x.head, x.groups) && text == w + PointTail(x.fraction)
    requires AllDigits(w) && w != ""
    ensures Read(t) == Some(100 * Value(w) + Decimals(x.fraction))
  {
    NormalForm(x, t, w, text);
    FormIsRead(t, w, x.fraction, text);
  }

  // ---- What is read is written ----------------------------------------------------------

  lemma ParseDigits(t: string, comma: bool) returns (x: Amount)
    requires if comma then IsLocalizedDecimal(t) else IsCanonical(t)
    ensures WellFormed(x) && Written(x) == t
  {
    var k := DigitRun(t);
    if k == |t| {
      x := Amount(t, [], "", "");
      assert t[..k] == t;
    } else {
      x := Amount(t[..k], [], if comma then "," else ".", t[k + 1..]);
      assert t[k..][1..] == t[k + 1..];
      assert t == t[..k] + ([t[k]] + t[k + 1..]);
      assert t[k] == t[k..][0];
    }
  }

  lemma ParseLocalized(t: string) returns (x: Amount)
    requires IsLocalized(t)
    ensures WellFormed(x) && Written(x) == t
  {
    var k := CommaAt(t);
    var head, groups := GroupedIsDotted(t[..k]);
    if k == |t| {
      x := Amount(head, groups, "", "");
      assert t[..k] == t;
    } else {
      x := Amount(head, groups, ",", t[k + 1..]);
      assert t[k..][1..] == t[k + 1..];
      assert t == t[..k] + ([t[k]] + t[k + 1..]);
    }
  }

  lemma ReadIsWritten(t: string) returns (x: Amount)
    requires t != "" && StripRight(StripLeft(t)) == t && NormalizeLocalizedMoney(t).Some?
    ensures WellFormed(x) && Written(x) == t
  {
    if IsCanonical(t) {
      x := ParseDigits(t, false);
    } else if IsLocalized(t) {
      x := ParseLocalized(t);
    } else {
      x := ParseDigits(t, true);
    }
  }

  predicate AllSpaces(s: string) {
    forall i :: 0 <= i < |s| ==> IsSpace(s[i])
  }

  lemma {:induction false} StripLeftSplits(s: string) returns (left: string)
    ensures AllSpaces(left) && s == left + StripLeft(s)
    ensures StripLeft(s) != "" ==> !IsSpace(StripLeft(s)[0])
  {
    if s != "" && IsSpace(s[0]) {
      var rest := StripLeftSplits(s[1..]);
      left := [s[0]] + rest;
    } else {
      left := "";
    }
  }

  lemma {:induction false} StripRightSplits(s: string) returns (right: string)
    ensures AllSpaces(right) && s == StripRight(s) + right
    ensures StripRight(s) != "" ==> !IsSpace(StripRight(s)[|StripRight(s)| - 1]) && StripRight(s)[0] == s[0]
  {
    if s != "" && IsSpace(s[|s| - 1]) {
      var rest := StripRightSplits(s[..|s| - 1]);
      right := rest + [s[|s| - 1]];
    } else {
      right := "";
    }
  }

  lemma {:induction false} StripsLeft(left: string, t: string)
    requires AllSpaces(left) && (t == "" || !IsSpace(t[0]))
    ensures StripLeft(left + t) == t
  {
    if left == "" {
      assert left + t == t;
    } else {
      assert (left + t)[1..] == left[1..] + t;
      StripsLeft(left[1..], t);
    }
  }

  lemma {:induction false} StripsRight(t: string, right: string)
    requires AllSpaces(right) && (t == "" || !IsSpace(t[|t| - 1]))
    ensures StripRight(t + right) == t
  {
    if right == "" {
      assert t + right == t;
    } else {
      assert (t + right)[..|t + right| - 1] == t + right[..|right| - 1];
      StripsRight(t, right[..|right| - 1]);
    }
  }

  /** The value is an amount in one of its forms, with white space around it. */
  ghost predicate Says(value: string, x: Amount) {
    exists left, right :: AllSpaces(left) && AllSpaces(right) && value == left + Written(x) + right
  }

  lemma SaidIsRead(value: string, x: Amount)
    requires WellFormed(x) && Says(value, x)
    ensures Read(value) == Some(Denoted(x))
  {
    var left, right :| AllSpaces(left) && AllSpaces(right) && value == left + Written(x) + right;
    var t := Written(x);
    WrittenEnds(x);
    DigitEnds(t);
    assert value == left + (t + right);
    StripsLeft(left, t + right);
    StripsRight(t, right);
    WrittenIsRead(x, t);
    ReadsTrimmed(value, t);
  }

  lemma ReadsTrimmed(value: string, t: string)
    requires StripRight(StripLeft(value)) == t && StripRight(StripLeft(t)) == t
    ensures Read(value) == Read(t)
  {
  }

  /** The reading theorem: a typed text is read exactly as what it says, and refused exactly if it says nothing. */
  lemma ReadExactly(value: string, cents: nat)
    ensures Read(value) == Some(cents) <==> exists x :: WellFormed(x) && Says(value, x) && Denoted(x) == cents
    ensures Read(value).None? <==> !exists x :: WellFormed(x) && Says(value, x)
  {
    if Read(value).Some? {
      var t := StripRight(StripLeft(value));
      var left := StripLeftSplits(value);
      var right := StripRightSplits(StripLeft(value));
      assert value == left + t + right;
      TrimmedAgain(t);
      var x := ReadIsWritten(t);
      assert Says(value, x);
    }
    forall x | WellFormed(x) && Says(value, x) ensures Read(value) == Some(Denoted(x)) {
      SaidIsRead(value, x);
    }
  }

  lemma TrimmedAgain(t: string)
    requires t == "" || (!IsSpace(t[0]) && !IsSpace(t[|t| - 1]))
    ensures StripRight(StripLeft(t)) == t
  {
  }

  lemma ReadsAs(x: Amount, t: string, cents: nat)
    requires WellFormed(x) && t == Written(x) && Denoted(x) == cents
    ensures Read(t) == Some(cents)
  {
    WrittenIsRead(x, t);
  }

  lemma ZeroAppended(x: Amount, t: string, u: string, y: Amount)
    requires WellFormed(x) && |x.fraction| == 1 && t == Written(x) && u == t + "0"
    requires y == x.(fraction := x.fraction + "0")
    ensures WellFormed(y) && u == Written(y) && Denoted(y) == Denoted(x)
  {
  }

  /** One decimal digit is tenths: a zero behind it changes nothing, whatever form the rest has. */
  lemma TrailingZero(x: Amount, t: string, u: string)
    requires WellFormed(x) && |x.fraction| == 1 && t == Written(x) && u == t + "0"
    ensures Read(t) == Some(Denoted(x)) && Read(u) == Some(Denoted(x))
  {
    var y, cents := x.(fraction := x.fraction + "0"), Denoted(x);
    ZeroAppended(x, t, u, y);
    ReadsAs(x, t, cents);
    ReadsAs(y, u, cents);
  }

  lemma Ungrouped(x: Amount, w: string, y: Amount)
    requires WellFormed(x) && x.mark != "." && w == Joined(x.head, x.groups) && y == x.(head := w, groups := [])
    ensures WellFormed(y) && Written(y) == w + Tail(x) && Denoted(y) == Denoted(x)
  {
    JoinedDigits(x.head, x.groups);
    assert Dotted(w, []) == w && Joined(w, []) == w;
  }

  /** Dots between groups of three change nothing. */
  lemma GroupsAreIgnored(x: Amount, t: string, u: string)
    requires WellFormed(x) && x.mark != "." && t == Written(x) && u == Joined(x.head, x.groups) + Tail(x)
    ensures Read(t) == Some(Denoted(x)) && Read(u) == Some(Denoted(x))
  {
    var w, cents := Joined(x.head, x.groups), Denoted(x);
    var y := x.(head := w, groups := []);
    Ungrouped(x, w, y);
    ReadsAs(x, t, cents);
    ReadsAs(y, u, cents);
  }

  /** A decimal comma means what a decimal point means. */
  lemma MarksMeanTheSame(x: Amount, y: Amount, t: string, u: string)
    requires WellFormed(x) && x.mark == "." && y == x.(mark := ",") && t == Written(x) && u == Written(y)
    ensures WellFormed(y) && Read(t) == Some(Denoted(x)) && Read(u) == Some(Denoted(x))
  {
    var cents := Denoted(x);
    ReadsAs(x, t, cents);
    ReadsAs(y, u, cents);
  }
}
