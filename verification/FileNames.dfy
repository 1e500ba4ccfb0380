/** Names under which the Kobo attachment worker stores its downloads. */
module FileNames {
  import opened Wrappers
  import opened Digits

  predicate IsHex(c: char) { '0' <= c <= '9' || 'a' <= c <= 'f' }

  /** The 32 hexadecimal digits of a UUID. */
  type Token = s: string | |s| == 32 && (forall i :: 0 <= i < |s| ==> IsHex(s[i]))
    witness "00000000000000000000000000000000"

  datatype Mime = Jpeg | Png

  function Extension(mime: Mime): (e: string)
    ensures |e| == 3
  {
    match mime case Jpeg => "jpg" case Png => "png"
  }

  predicate IsSafe(c: char) {
    'A' <= c <= 'Z' || 'a' <= c <= 'z' || '0' <= c <= '9' || c == '_' || c == '-'
  }

  predicate AllSafe(s: string) {
    forall i :: 0 <= i < |s| ==> IsSafe(s[i])
  }

  /** Every maximal run of unsafe characters becomes one dash. */
  function Dashed(s: string, inRun: bool): (r: string)
    ensures AllSafe(r)
  {
    if s == [] then []
    else if IsSafe(s[0]) then [s[0]] + Dashed(s[1..], false)
    else (if inRun then "" else "-") + Dashed(s[1..], true)
  }

  predicate IsEdge(c: char) { c == '-' || c == '_' }

  function StripLeft(s: string): (r: string)
    ensures AllSafe(s) ==> AllSafe(r)
  {
    if s != [] && IsEdge(s[0]) then StripLeft(s[1..]) else s
  }

  function StripRight(s: string): (r: string)
    ensures AllSafe(s) ==> AllSafe(r)
  {
    if s != [] && IsEdge(s[|s| - 1]) then StripRight(s[..|s| - 1]) else s
  }

  function Fallback(pk: nat): string { "attachment-" + Decimal(pk) }

  function SafeIdentifier(externalId: string, pk: nat): string {
    var identifier := if externalId == "" then Fallback(pk) else externalId;
    var safe := StripRight(StripLeft(Dashed(identifier, false)));
    if safe == "" then Fallback(pk) else safe
  }

  function SafeFilename(externalId: string, pk: nat, mime: Mime, attempt: Option<Token>): string {
    var stem := "kobo-" + SafeIdentifier(externalId, pk);
    match attempt
    case Some(token) => stem + "-" + token + "." + Extension(mime)
    case None => stem + "." + Extension(mime)
  }

  /** The characters a token occupies in a name: the 32 before the extension. */
  function TokenPart(name: string): string {
    if |name| < 36 then "" else name[|name| - 36..|name| - 4]
  }

  /** The token of an attempt can be read back from the name it stores under. */
  lemma TokenOfFilename(externalId: string, pk: nat, mime: Mime, token: Token)
    ensures TokenPart(SafeFilename(externalId, pk, mime, Some(token))) == token
  {
    var stem := "kobo-" + SafeIdentifier(externalId, pk) + "-";
    var name := SafeFilename(externalId, pk, mime, Some(token));
    var extension := "." + Extension(mime);
    assert name == stem + token + extension;
    assert |extension| == 4;
  }

  /** Names are injective in the token, whatever row and type they are for. */
  lemma FilenamesDistinct(x: string, pk: nat, mime: Mime, token: Token,
                          x': string, pk': nat, mime': Mime, token': Token)
    requires token != token'
    ensures SafeFilename(x, pk, mime, Some(token)) != SafeFilename(x', pk', mime', Some(token'))
  {
    TokenOfFilename(x, pk, mime, token);
    TokenOfFilename(x', pk', mime', token');
  }

  lemma SafeIdentifierShape(externalId: string, pk: nat)
    ensures SafeIdentifier(externalId, pk) != "" && AllSafe(SafeIdentifier(externalId, pk))
  {
    assert AllSafe("attachment-");
    assert AllPlainDigits(Decimal(pk));
    assert forall i :: 0 <= i < |Decimal(pk)| ==> IsPlainDigit(Decimal(pk)[i]);
  }

  lemma TokenIsSafe(token: Token)
    ensures AllSafe(token)
  {
    forall i | 0 <= i < |token| ensures IsSafe(token[i]) { assert IsHex(token[i]); }
  }

  lemma ComponentShape(body: string, extension: string)
    requires AllSafe(body) && |extension| == 4 && '/' !in extension
    ensures var name := body + extension;
            AllSafe(name[..|name| - 4]) && name[|name| - 4..] == extension && '/' !in name
  {
    var name := body + extension;
    assert name[..|name| - 4] == body;
    assert name[|name| - 4..] == extension;
    forall i | 0 <= i < |name| ensures name[i] != '/' {
      if i < |body| { assert IsSafe(body[i]); } else { assert name[i] == extension[i - |body|]; }
    }
  }

  lemma SafeAppend(s: string, t: string)
    requires AllSafe(s) && AllSafe(t)
    ensures AllSafe(s + t)
  {
  }

  /**
   * Whatever the external identifier holds (slashes, dots, nothing at all), the
   * name is one path component: safe characters before a dot and the extension.
   */
  lemma FilenameIsOneComponent(externalId: string, pk: nat, mime: Mime, attempt: Option<Token>)
    ensures var name := SafeFilename(externalId, pk, mime, attempt);
            && |name| > 9
            && AllSafe(name[..|name| - 4])
            && name[|name| - 4..] == "." + Extension(mime)
            && '/' !in name
  {
    SafeIdentifierShape(externalId, pk);
    var safe := SafeIdentifier(externalId, pk);
    SafeAppend("kobo-", safe);
    var stem := "kobo-" + safe;
    if attempt.Some? {
      TokenIsSafe(attempt.value);
      SafeAppend(stem, "-");
      SafeAppend(stem + "-", attempt.value);
      assert SafeFilename(externalId, pk, mime, attempt)
          == (stem + "-" + attempt.value) + ("." + Extension(mime));
      ComponentShape(stem + "-" + attempt.value, "." + Extension(mime));
    } else {
      assert SafeFilename(externalId, pk, mime, attempt) == stem + ("." + Extension(mime));
      ComponentShape(stem, "." + Extension(mime));
    }
  }

  // ---- What is kept of the identifier ----

  /** Letters and digits, the characters that are never replaced nor stripped. */
  predicate IsWordChar(c: char) { 'A' <= c <= 'Z' || 'a' <= c <= 'z' || '0' <= c <= '9' }

  function WordChars(s: string): string {
    if s == "" then "" else (if IsWordChar(s[0]) then [s[0]] else "") + WordChars(s[1..])
  }

  lemma {:induction false} WordCharsAppend(s: string, t: string)
    ensures WordChars(s + t) == WordChars(s) + WordChars(t)
  {
    if s == "" {
      assert s + t == t;
    } else {
      var word, rest, more := if IsWordChar(s[0]) then [s[0]] else "", WordChars(s[1..]), WordChars(t);
      WordCharsAppend(s[1..], t);
      assert (s + t)[1..] == s[1..] + t && (s + t)[0] == s[0];
      assert word + (rest + more) == (word + rest) + more;
    }
  }

  lemma {:induction false} DashedKeepsWords(s: string, inRun: bool)
    ensures WordChars(Dashed(s, inRun)) == WordChars(s)
  {
    if s != "" {
      var dash, rest := if IsSafe(s[0]) then [s[0]] else if inRun then "" else "-", Dashed(s[1..], !IsSafe(s[0]));
      DashedKeepsWords(s[1..], !IsSafe(s[0]));
      WordCharsAppend(dash, rest);
      if dash != "" { assert dash[1..] == ""; }
    }
  }

  lemma {:induction false} StripLeftKeepsWords(s: string)
    ensures WordChars(StripLeft(s)) == WordChars(s)
    ensures StripLeft(s) == "" || !IsEdge(StripLeft(s)[0])
  {
    if s != "" && IsEdge(s[0]) { StripLeftKeepsWords(s[1..]); }
  }

  lemma {:induction false} StripRightKeepsWords(s: string)
    ensures WordChars(StripRight(s)) == WordChars(s)
    ensures StripRight(s) == "" || (!IsEdge(StripRight(s)[|StripRight(s)| - 1]) && StripRight(s)[0] == s[0])
  {
    if s != "" && IsEdge(s[|s| - 1]) {
      var init, last := s[..|s| - 1], s[|s| - 1..];
      StripRightKeepsWords(init);
      assert s == init + last && last[1..] == "";
      WordCharsAppend(init, last);
    }
  }

  lemma WordEnds(s: string)
    requires AllSafe(s) && s != "" && !IsEdge(s[0])
    ensures WordChars(s) != ""
  {
  }

  /** Every run of unsafe characters becomes one dash, and safe characters stay. */
  lemma {:induction false} RunsBecomeDashes(s: string, run: string, rest: string, inRun: bool)
    requires AllSafe(s) && run != "" && (forall i :: 0 <= i < |run| ==> !IsSafe(run[i]))
    requires rest == "" || IsSafe(rest[0])
    requires s == "" ==> !inRun
    ensures Dashed(s + run + rest, inRun) == s + "-" + Dashed(rest, false)
  {
    if s == "" {
      assert s + run + rest == run + rest;
      DashForRun(run, rest);
    } else {
      assert (s + run + rest)[1..] == s[1..] + run + rest;
      RunsBecomeDashes(s[1..], run, rest, false);
      assert s + "-" + Dashed(rest, false) == [s[0]] + (s[1..] + "-" + Dashed(rest, false));
    }
  }

  lemma DashForRun(run: string, rest: string)
    requires run != "" && (forall i :: 0 <= i < |run| ==> !IsSafe(run[i]))
    requires rest == "" || IsSafe(rest[0])
    ensures Dashed(run + rest, false) == "-" + Dashed(rest, false)
  {
    assert (run + rest)[1..] == run[1..] + rest;
    RunGoesOn(run[1..], rest);
  }

  lemma {:induction false} RunGoesOn(run: string, rest: string)
    requires (forall i :: 0 <= i < |run| ==> !IsSafe(run[i])) && (rest == "" || IsSafe(rest[0]))
    ensures Dashed(run + rest, true) == Dashed(rest, false)
  {
    if run == "" {
      assert run + rest == rest;
    } else {
      assert (run + rest)[1..] == run[1..] + rest;
      RunGoesOn(run[1..], rest);
    }
  }

  lemma {:induction false} SafeStays(s: string)
    requires AllSafe(s)
    ensures Dashed(s, false) == s
  {
    if s != "" {
      SafeStays(s[1..]);
      assert s == [s[0]] + s[1..];
    }
  }

  /** An identifier that is fit for a name already is used as it is. */
  lemma FitIdentifierIsKept(externalId: string, pk: nat)
    requires externalId != ""
    requires forall i :: 0 <= i < |externalId| ==> IsWordChar(externalId[i]) || externalId[i] in "-_"
    requires IsWordChar(externalId[0]) && IsWordChar(externalId[|externalId| - 1])
    ensures SafeIdentifier(externalId, pk) == externalId
  {
    SafeStays(externalId);
  }

  lemma FallbackIsFit(pk: nat)
    ensures AllSafe(Fallback(pk)) && IsWordChar(Fallback(pk)[0]) && IsWordChar(Fallback(pk)[|Fallback(pk)| - 1])
  {
    SafeIdentifierShape("", pk);
    assert AllSafe("attachment-");
    var digits := Decimal(pk);
    assert IsPlainDigit(digits[|digits| - 1]);
    forall i | 0 <= i < |digits| ensures IsSafe(digits[i]) { assert IsPlainDigit(digits[i]); }
    SafeAppend("attachment-", digits);
  }

  /**
   * The identifier in the name has the letters and digits of the external one, in order and none
   * left out; the fallback is used exactly when there are none. It is fit, so naming is idempotent.
   */
  lemma IdentifierKeepsWords(externalId: string, pk: nat)
    ensures var safe := SafeIdentifier(externalId, pk);
            && (if WordChars(externalId) != "" then WordChars(safe) == WordChars(externalId) else safe == Fallback(pk))
            && safe != "" && AllSafe(safe) && IsWordChar(safe[0]) && IsWordChar(safe[|safe| - 1])
            && SafeIdentifier(safe, pk) == safe
  {
    var dashed := Dashed(externalId, false);
    var stripped := StripRight(StripLeft(dashed));
    DashedKeepsWords(externalId, false);
    StripLeftKeepsWords(dashed);
    StripRightKeepsWords(StripLeft(dashed));
    FallbackIsFit(pk);
    FitIdentifierIsKept(Fallback(pk), pk);
    if stripped != "" {
      WordEnds(stripped);
      FitIdentifierIsKept(stripped, pk);
    }
  }
}
