/** Reservation of human-readable codes such as PRJ-000042, and the inspector of their sequences. */
module OperationalCodes {
  import opened Wrappers
  import opened Digits

  const WIDTH: nat := 6

  const NAMESPACES: seq<string> := ["project", "donation", "fund_allocation", "expense", "expense_request"]

  function ExpectedPrefix(namespace: string): Option<string> {
    if namespace == "project" then Some("PRJ")
    else if namespace == "donation" then Some("DON")
    else if namespace == "fund_allocation" then Some("ASG")
    else if namespace == "expense" then Some("GAS")
    else if namespace == "expense_request" then Some("SGS")
    else None
  }

  datatype Sequence = Sequence(prefix: string, nextValue: int)

  datatype Error = UnsupportedNamespace | WrongPrefix | NoTransaction | MissingRow | InconsistentRow | DuplicateCode

  datatype Reservation = Reserved(code: string) | Refused(error: Error)

  datatype Status = OkEmpty | Ok | MissingSequence | LaggingSequence | InvalidSequence

  datatype Report = Report(
    namespace: string, prefix: string, total: nat, canonical: nat, noncanonical: nat,
    maximum: Option<nat>, sequence: Option<Sequence>, status: Status)

  // ---- Codes ----

  function Format(prefix: string, n: nat): string { prefix + "-" + Padded(n, WIDTH) }

  // The five coded models, and what the first save of each asks for.

  datatype Entity = Project | Donation | FundAllocation | Expense | ExpenseRequest

  function NamespaceOf(entity: Entity): string {
    match entity
    case Project => "project"
    case Donation => "donation"
    case FundAllocation => "fund_allocation"
    case Expense => "expense"
    case ExpenseRequest => "expense_request"
  }

  function PrefixOf(entity: Entity): string {
    match entity
    case Project => "PRJ"
    case Donation => "DON"
    case FundAllocation => "ASG"
    case Expense => "GAS"
    case ExpenseRequest => "SGS"
  }

  /** Every model asks with the prefix its namespace expects, and the inspector looks at exactly these namespaces. */
  lemma EntitiesFit(entity: Entity)
    ensures ExpectedPrefix(NamespaceOf(entity)) == Some(PrefixOf(entity))
    ensures NamespaceOf(entity) in NAMESPACES
  {
    var i := match entity
      case Project => 0 case Donation => 1 case FundAllocation => 2 case Expense => 3 case ExpenseRequest => 4;
    assert NAMESPACES[i] == NamespaceOf(entity);
  }

  /** The only namespaces with a prefix are those of the five models. */
  lemma OnlyEntitiesAreSupported(namespace: string)
    ensures ExpectedPrefix(namespace).Some? <==> exists entity :: namespace == NamespaceOf(entity)
    ensures namespace in NAMESPACES <==> exists entity :: namespace == NamespaceOf(entity)
  {
    if ExpectedPrefix(namespace).Some? || namespace in NAMESPACES {
      assert namespace in {NamespaceOf(Project), NamespaceOf(Donation), NamespaceOf(FundAllocation),
                           NamespaceOf(Expense), NamespaceOf(ExpenseRequest)};
    }
    forall entity | namespace == NamespaceOf(entity)
      ensures ExpectedPrefix(namespace).Some? && namespace in NAMESPACES
    {
      EntitiesFit(entity);
    }
  }

  /** No two models ever issue the same code. */
  lemma CodesTellEntities(x: Entity, y: Entity, m: nat, n: nat)
    requires x != y
    ensures Format(PrefixOf(x), m) != Format(PrefixOf(y), n)
  {
    assert Format(PrefixOf(x), m)[..3] == PrefixOf(x);
    assert Format(PrefixOf(y), n)[..3] == PrefixOf(y);
    PrefixesDiffer(x, y);
  }

  lemma PrefixesDiffer(x: Entity, y: Entity)
    requires x != y
    ensures PrefixOf(x) != PrefixOf(y)
  {
    assert "PRJ"[0] == 'P' && "DON"[0] == 'D' && "ASG"[0] == 'A' && "GAS"[0] == 'G' && "SGS"[0] == 'S';
  }

  /** The number in a code made of the prefix, a dash and digits. */
  function NumberIn(prefix: string, code: string): Option<nat> {
    if |code| > |prefix| + 1 && code[..|prefix|] == prefix && code[|prefix|] == '-'
       && AllDigits(code[|prefix| + 1..])
    then Some(Value(code[|prefix| + 1..]))
    else None
  }

  /** Codes with a positive number are canonical, whatever their padding. */
  predicate IsCanonical(prefix: string, code: string) {
    NumberIn(prefix, code).Some? && NumberIn(prefix, code).value > 0
  }

  function Numbers(prefix: string, codes: seq<string>): seq<nat> {
    if codes == [] then []
    else
      var last := codes[|codes| - 1];
      Numbers(prefix, codes[..|codes| - 1]) + if IsCanonical(prefix, last) then [NumberIn(prefix, last).value] else []
  }

  lemma NumberOfFormat(prefix: string, n: nat)
    ensures NumberIn(prefix, Format(prefix, n)) == Some(n)
  {
    var code := Format(prefix, n);
    var digits := Padded(n, WIDTH);
    assert code == prefix + ("-" + digits);
    assert code[..|prefix|] == prefix && code[|prefix|] == '-';
    assert code[|prefix| + 1..] == digits;
    ValueOfPadded(n, WIDTH);
  }

  /** Codes have six digits up to 999999, and as many as the number has beyond. */
  lemma CodeLength(prefix: string, n: nat)
    ensures n < 1000000 ==> |Format(prefix, n)| == |prefix| + 1 + 6
    ensures n >= 1000000 ==> Format(prefix, n) == prefix + "-" + Decimal(n)
  {
    DecimalWidth(n, 6);
    assert Power10(3) == 1000;
    assert Power10(6) == 1000000;
  }

  /** Different numbers never give the same code, even past the padded width. */
  lemma FormatIsInjective(prefix: string, m: nat, n: nat)
    requires Format(prefix, m) == Format(prefix, n)
    ensures m == n
  {
    NumberOfFormat(prefix, m);
    NumberOfFormat(prefix, n);
  }

  lemma {:induction false} NumbersMember(prefix: string, codes: seq<string>, code: string)
    requires code in codes && IsCanonical(prefix, code)
    ensures NumberIn(prefix, code).value in Numbers(prefix, codes)
  {
    var init, last := codes[..|codes| - 1], codes[|codes| - 1];
    if code != last {
      assert codes == init + [last];
      NumbersMember(prefix, init, code);
    }
  }

  // ---- Inspection ----

  predicate IsMaximum(maximum: Option<nat>, numbers: seq<nat>) {
    match maximum
    case None => numbers == []
    case Some(m) => m in numbers && forall n :: n in numbers ==> n <= m
  }

  function SequenceStatus(maximum: Option<nat>, sequence: Option<Sequence>, prefix: string): Status {
    if sequence.Some? && (sequence.value.prefix != prefix || sequence.value.nextValue <= 0) then InvalidSequence
    else if maximum.None? then
      if sequence.None? || sequence.value.nextValue == 1 then OkEmpty else Ok
    else if sequence.None? then MissingSequence
    else if sequence.value.nextValue <= maximum.value then LaggingSequence
    else Ok
  }

  predicate IsSafe(status: Status) { status == Ok || status == OkEmpty }

  /** With a sequence row, the status is safe exactly when the row is sound and ahead of every canonical code. */
  lemma SafeExactly(maximum: Option<nat>, numbers: seq<nat>, sequence: Sequence, prefix: string)
    requires IsMaximum(maximum, numbers)
    ensures IsSafe(SequenceStatus(maximum, Some(sequence), prefix)) <==>
              && sequence.prefix == prefix && sequence.nextValue >= 1
              && forall n :: n in numbers ==> n < sequence.nextValue
  {
  }

  /** What each status says, by the canonical numbers of the table and its sequence row. */
  lemma StatusExactly(maximum: Option<nat>, numbers: seq<nat>, sequence: Option<Sequence>, prefix: string)
    requires IsMaximum(maximum, numbers)
    ensures var status := SequenceStatus(maximum, sequence, prefix);
      var sound := sequence.Some? && sequence.value.prefix == prefix && sequence.value.nextValue >= 1;
      && (status == InvalidSequence <==> sequence.Some? && !sound)
      && (status == MissingSequence <==> sequence.None? && exists n :: n in numbers)
      && (status == LaggingSequence <==> sound && exists n :: n in numbers && sequence.value.nextValue <= n)
      && (status == OkEmpty <==> numbers == [] && (sequence.None? || (sound && sequence.value.nextValue == 1)))
      && (status == Ok <==> && sound && !(numbers == [] && sequence.value.nextValue == 1)
                            && forall n :: n in numbers ==> n < sequence.value.nextValue)
  {
    if maximum.Some? { assert maximum.value in numbers; }
    if numbers != [] { assert numbers[0] in numbers; }
  }

  // ---- One namespace over time ----

  /** The codes of a table and its sequence row. */
  datatype Table = Table(codes: seq<string>, sequence: Option<Sequence>)

  function Issuable(t: Table, prefix: string): (ok: bool) {
    t.sequence.Some? && t.sequence.value.prefix == prefix && t.sequence.value.nextValue >= 1
  }

  /** Saving a new row: its code is reserved in the same transaction. */
  function Issue(t: Table, prefix: string): Table
    requires Issuable(t, prefix)
  {
    var n := t.sequence.value.nextValue;
    Table(t.codes + [Format(prefix, n)], Some(Sequence(prefix, n + 1)))
  }

  /** The save itself: a code that is already taken violates its unique column, and everything is rolled back. */
  function Save(t: Table, prefix: string): Option<Table> {
    if !Issuable(t, prefix) || Format(prefix, t.sequence.value.nextValue) in t.codes then None
    else Some(Issue(t, prefix))
  }

  /** k saves in a row, or None when one of them is refused. */
  function SaveMany(t: Table, prefix: string, k: nat): Option<Table> {
    if k == 0 then Some(t)
    else
      match SaveMany(t, prefix, k - 1)
      case None => None
      case Some(before) => Save(before, prefix)
  }

  /** What the inspector reports as safe for a table that has a sequence row. */
  predicate Ahead(t: Table, prefix: string) {
    && Issuable(t, prefix)
    && forall m :: m in Numbers(prefix, t.codes) ==> m < t.sequence.value.nextValue
  }

  /** From a safe table the next code is new, reads back as its number, and the table stays safe. */
  lemma IssuedCodeIsNew(t: Table, prefix: string)
    requires Ahead(t, prefix)
    ensures var code := Format(prefix, t.sequence.value.nextValue);
            && code !in t.codes
            && NumberIn(prefix, code) == Some(t.sequence.value.nextValue)
            && Issue(t, prefix).codes == t.codes + [code]
            && Ahead(Issue(t, prefix), prefix)
  {
    var n := t.sequence.value.nextValue;
    var code := Format(prefix, n);
    NumberOfFormat(prefix, n);
    if code in t.codes { NumbersMember(prefix, t.codes, code); }
    var codes := t.codes + [code];
    assert codes[..|codes| - 1] == t.codes;
    assert Numbers(prefix, codes) == Numbers(prefix, t.codes) + [n];
  }

  predicate NoDuplicates(s: seq<string>) {
    forall i, j :: 0 <= i < j < |s| ==> s[i] != s[j]
  }

  /** `later` adds codes to `earlier`, all of them new and different from one another. */
  predicate AddsNewCodes(earlier: seq<string>, later: seq<string>) {
    && |earlier| <= |later|
    && later[..|earlier|] == earlier
    && NoDuplicates(later[|earlier|..])
    && (forall i :: |earlier| <= i < |later| ==> later[i] !in earlier)
  }

  lemma AddsOneMore(earlier: seq<string>, later: seq<string>, code: string)
    requires AddsNewCodes(earlier, later) && code !in later
    ensures AddsNewCodes(earlier, later + [code])
  {
    var n := |earlier|;
    assert (later + [code])[..n] == later[..n];
    assert (later + [code])[n..] == later[n..] + [code];
    forall x | x in earlier ensures x in later {
      var i :| 0 <= i < n && earlier[i] == x;
      assert later[..n][i] == x;
    }
  }

  /** The codes of t and those of the numbers lo .. hi - 1, and no others. */
  predicate Extends(t: Table, prefix: string, codes: seq<string>, lo: nat, hi: nat) {
    && AddsNewCodes(t.codes, codes)
    && |codes| == |t.codes| + hi - lo
    && (forall c :: c in codes && c !in t.codes ==> IsIssued(prefix, c, hi))
  }

  /** The code of a number below hi. */
  predicate IsIssued(prefix: string, c: string, hi: nat) {
    && NumberIn(prefix, c).Some? && NumberIn(prefix, c).value < hi
    && c == Format(prefix, NumberIn(prefix, c).value)
  }

  predicate CodesFree(codes: seq<string>, prefix: string, lo: nat, hi: nat) {
    forall m: nat :: lo <= m < hi ==> Format(prefix, m) !in codes
  }

  lemma OneMoreFree(codes: seq<string>, prefix: string, lo: nat, hi: nat)
    requires lo <= hi
    ensures CodesFree(codes, prefix, lo, hi + 1) <==> CodesFree(codes, prefix, lo, hi) && Format(prefix, hi) !in codes
  {
  }

  /** r is what k saves make of t. */
  predicate IsSaved(t: Table, prefix: string, k: nat, r: Table)
    requires Issuable(t, prefix)
  {
    var next := t.sequence.value.nextValue;
    Issuable(r, prefix) && r.sequence.value.nextValue == next + k && Extends(t, prefix, r.codes, next, next + k)
  }

  /**
   * k saves in a row all succeed exactly when none of the next k codes is taken; until then
   * the sequence advances by one each time and the codes are new.
   */
  lemma {:induction false} SavesSucceedExactly(t: Table, prefix: string, k: nat)
    requires Issuable(t, prefix)
    ensures var next := t.sequence.value.nextValue;
            SaveMany(t, prefix, k).Some? <==> CodesFree(t.codes, prefix, next, next + k)
    ensures SaveMany(t, prefix, k).Some? ==> IsSaved(t, prefix, k, SaveMany(t, prefix, k).value)
  {
    SavesNeedFreeCodes(t, prefix, k, t.sequence.value.nextValue);
    SavesAreSaved(t, prefix, k);
  }

  lemma {:induction false} SavesNeedFreeCodes(t: Table, prefix: string, k: nat, next: nat)
    requires Issuable(t, prefix) && next == t.sequence.value.nextValue
    ensures SaveMany(t, prefix, k).Some? <==> CodesFree(t.codes, prefix, next, next + k)
  {
    if k > 0 {
      SavesNeedFreeCodes(t, prefix, k - 1, next);
      OneMoreFree(t.codes, prefix, next, next + k - 1);
      var before := SaveMany(t, prefix, k - 1);
      if before.Some? { NextSave(t, prefix, k - 1, before.value); }
    }
  }

  lemma {:induction false} SavesAreSaved(t: Table, prefix: string, k: nat)
    requires Issuable(t, prefix)
    ensures SaveMany(t, prefix, k).Some? ==> IsSaved(t, prefix, k, SaveMany(t, prefix, k).value)
  {
    if k > 0 {
      SavesAreSaved(t, prefix, k - 1);
      var before := SaveMany(t, prefix, k - 1);
      if before.Some? { OneMoreSave(t, prefix, k - 1, before.value); }
    }
  }

  lemma NextSave(t: Table, prefix: string, k: nat, before: Table)
    requires Issuable(t, prefix) && SaveMany(t, prefix, k) == Some(before)
    ensures Save(before, prefix).Some? <==> Format(prefix, t.sequence.value.nextValue + k) !in t.codes
  {
    SavesAreSaved(t, prefix, k);
    OneMoreSave(t, prefix, k, before);
  }

  lemma OneMoreSave(t: Table, prefix: string, k: nat, before: Table)
    requires Issuable(t, prefix) && IsSaved(t, prefix, k, before)
    ensures Save(before, prefix).Some? <==> Format(prefix, t.sequence.value.nextValue + k) !in t.codes
    ensures Save(before, prefix).Some? ==> IsSaved(t, prefix, k + 1, Save(before, prefix).value)
  {
    var n: nat := before.sequence.value.nextValue;
    var code := Format(prefix, n);
    NumberOfFormat(prefix, n);
    if code in t.codes {
      var i :| 0 <= i < |t.codes| && t.codes[i] == code;
      assert before.codes[..|t.codes|][i] == code;
    } else {
      assert code !in before.codes;
      AddsOneMore(t.codes, before.codes, code);
      IssuedCodesGrow(prefix, n);
    }
  }

  lemma IssuedCodesGrow(prefix: string, n: nat)
    ensures IsIssued(prefix, Format(prefix, n), n + 1)
    ensures forall c :: IsIssued(prefix, c, n) ==> IsIssued(prefix, c, n + 1)
  {
    NumberOfFormat(prefix, n);
  }

  /** From a safe table every save succeeds, whatever their number, and the table stays safe. */
  lemma {:induction false} SafeTablesSave(t: Table, prefix: string, k: nat)
    requires Ahead(t, prefix)
    ensures SaveMany(t, prefix, k).Some? && Ahead(SaveMany(t, prefix, k).value, prefix)
  {
    if k > 0 {
      SafeTablesSave(t, prefix, k - 1);
      IssuedCodeIsNew(SaveMany(t, prefix, k - 1).value, prefix);
    }
  }

  lemma {:induction false} NumberMember(prefix: string, codes: seq<string>, n: nat) returns (code: string)
    requires n in Numbers(prefix, codes)
    ensures code in codes && NumberIn(prefix, code) == Some(n)
  {
    var init, last := codes[..|codes| - 1], codes[|codes| - 1];
    assert codes == init + [last];
    if n in Numbers(prefix, init) { code := NumberMember(prefix, init, n); } else { code := last; }
  }

  /** Some code has this number, but is not the one that would be issued for it. */
  predicate SpelledOtherwise(codes: seq<string>, prefix: string, n: nat) {
    exists code :: code in codes && code != Format(prefix, n) && NumberIn(prefix, code) == Some(n)
  }

  /**
   * A lagging sequence does not get past the maximum cleanly: either a save is refused for a code
   * already taken, or the maximum is issued again beside a code that spells it differently.
   */
  lemma LaggingStopsOrRepeats(t: Table, prefix: string, maximum: nat)
    requires Issuable(t, prefix) && IsMaximum(Some(maximum), Numbers(prefix, t.codes))
    requires SequenceStatus(Some(maximum), t.sequence, prefix) == LaggingSequence
    ensures var saved := SaveMany(t, prefix, maximum - t.sequence.value.nextValue + 1);
            saved.None? || SpelledOtherwise(t.codes, prefix, maximum)
  {
    var next: nat := t.sequence.value.nextValue;
    SavesPastMaximum(t, prefix, next, maximum, maximum - next + 1);
  }

  lemma SavesPastMaximum(t: Table, prefix: string, next: nat, maximum: nat, k: nat)
    requires Issuable(t, prefix) && next == t.sequence.value.nextValue && k == maximum - next + 1
    requires next <= maximum && maximum in Numbers(prefix, t.codes)
    ensures SaveMany(t, prefix, k).Some? ==> SpelledOtherwise(t.codes, prefix, maximum)
  {
    SavesNeedFreeCodes(t, prefix, k, next);
    if CodesFree(t.codes, prefix, next, next + k) {
      MaximumIsSpelledOtherwise(t.codes, prefix, next, maximum);
    }
  }

  /** A maximum whose own code is free is that of a code spelled otherwise. */
  lemma MaximumIsSpelledOtherwise(codes: seq<string>, prefix: string, next: nat, maximum: nat)
    requires maximum in Numbers(prefix, codes) && next <= maximum && CodesFree(codes, prefix, next, maximum + 1)
    ensures SpelledOtherwise(codes, prefix, maximum)
  {
    var code := NumberMember(prefix, codes, maximum);
  }

  // ---- The services ----

  class CodeRegistry {
    var codes: map<string, seq<string>>
    var sequences: map<string, Sequence>

    constructor ()
      ensures codes == map[] && sequences == map[]
    {
      codes, sequences := map[], map[];
    }

    function TableOf(namespace: string): Table
      reads this
    {
      Table(if namespace in codes then codes[namespace] else [],
            if namespace in sequences then Some(sequences[namespace]) else None)
    }

    method ReserveOperationalCode(namespace: string, prefix: string, inTransaction: bool) returns (r: Reservation)
      modifies this`sequences
      ensures r == if ExpectedPrefix(namespace).None? then Refused(UnsupportedNamespace)
                   else if prefix != ExpectedPrefix(namespace).value then Refused(WrongPrefix)
                   else if !inTransaction then Refused(NoTransaction)
                   else if namespace !in old(sequences) then Refused(MissingRow)
                   else if !Issuable(old(TableOf(namespace)), prefix) then Refused(InconsistentRow)
                   else Reserved(Format(prefix, old(sequences)[namespace].nextValue))
      ensures r.Refused? ==> sequences == old(sequences)
      ensures r.Reserved? ==>
                && Issuable(old(TableOf(namespace)), prefix)
                && TableOf(namespace).sequence == Issue(old(TableOf(namespace)), prefix).sequence
                && sequences.Keys == old(sequences).Keys
                && (forall other :: other in sequences && other != namespace ==>
                      sequences[other] == old(sequences)[other])
    {
      var expected := ExpectedPrefix(namespace);
      if expected.None? {
        return Refused(UnsupportedNamespace);
      }
      if prefix != expected.value {
        return Refused(WrongPrefix);
      }
      if !inTransaction {
        return Refused(NoTransaction);
      }
      if namespace !in sequences {
        return Refused(MissingRow);
      }
      var sequence := sequences[namespace];
      if sequence.prefix != prefix || sequence.nextValue < 1 {
        return Refused(InconsistentRow);
      }
      var value := sequence.nextValue;
      sequence := sequence.(nextValue := value + 1);
      sequences := sequences[namespace := sequence];
      r := Reserved(Format(prefix, value));
    }

    /** First save of a row of one of the models: its prefix always fits, so only the sequence or the code refuse. */
    method SaveFirst(entity: Entity) returns (r: Reservation)
      modifies this
      ensures r.Reserved? <==> Save(old(TableOf(NamespaceOf(entity))), PrefixOf(entity)).Some?
      ensures r.Refused? ==> codes == old(codes) && sequences == old(sequences)
      ensures forall other :: other != NamespaceOf(entity) ==> TableOf(other) == old(TableOf(other))
      ensures r.Reserved? ==>
                && Save(old(TableOf(NamespaceOf(entity))), PrefixOf(entity)) == Some(TableOf(NamespaceOf(entity)))
                && r.code in TableOf(NamespaceOf(entity)).codes
    {
      EntitiesFit(entity);
      r := SaveNew(NamespaceOf(entity), PrefixOf(entity));
    }

    /** First save of a row in one of the coded tables, in one transaction. */
    method SaveNew(namespace: string, prefix: string) returns (r: Reservation)
      modifies this
      ensures r.Reserved? <==> ExpectedPrefix(namespace) == Some(prefix) && Save(old(TableOf(namespace)), prefix).Some?
      ensures r.Refused? ==> codes == old(codes) && sequences == old(sequences)
      ensures forall other :: other != namespace ==> TableOf(other) == old(TableOf(other))
      ensures r.Reserved? ==>
                && Save(old(TableOf(namespace)), prefix) == Some(TableOf(namespace))
                && r.code == TableOf(namespace).codes[|TableOf(namespace).codes| - 1]
    {
      var savepoint := sequences;
      r := ReserveOperationalCode(namespace, prefix, true);
      if r.Reserved? {
        var existing := if namespace in codes then codes[namespace] else [];
        if r.code in existing {
          sequences := savepoint;
          return Refused(DuplicateCode);
        }
        codes := codes[namespace := existing + [r.code]];
      }
    }

    /** The numbers of the canonical codes of one table, and how many codes there are. */
    method Scan(prefix: string, table: seq<string>) returns (total: nat, canonical: seq<nat>)
      ensures total == |table| && canonical == Numbers(prefix, table)
    {
      total, canonical := 0, [];
      for i := 0 to |table|
        invariant total == i && canonical == Numbers(prefix, table[..i])
      {
        assert table[..i + 1][..i] == table[..i];
        total := total + 1;
        var number := NumberIn(prefix, table[i]);
        if number.Some? && number.value > 0 {
          canonical := canonical + [number.value];
        }
      }
      assert table[..|table|] == table;
    }

    method Maximum(numbers: seq<nat>) returns (maximum: Option<nat>)
      ensures IsMaximum(maximum, numbers)
    {
      maximum := None;
      for i := 0 to |numbers|
        invariant IsMaximum(maximum, numbers[..i])
      {
        assert numbers[..i + 1] == numbers[..i] + [numbers[i]];
        if maximum.None? || numbers[i] > maximum.value {
          maximum := Some(numbers[i]);
        }
      }
      assert numbers[..|numbers|] == numbers;
    }

    /** One report per namespace, from the codes in its table and its sequence row. */
    method InspectOperationalCodeSequences() returns (reports: seq<Report>)
      ensures |reports| == |NAMESPACES|
      ensures forall i :: 0 <= i < |reports| ==> IsReport(reports[i], NAMESPACES[i], TableOf(NAMESPACES[i]))
    {
      reports := [];
      for i := 0 to |NAMESPACES|
        invariant |reports| == i
        invariant forall k :: 0 <= k < i ==> IsReport(reports[k], NAMESPACES[k], TableOf(NAMESPACES[k]))
      {
        var namespace := NAMESPACES[i];
        KnownNamespace(i);
        var prefix := ExpectedPrefix(namespace).value;
        var table := TableOf(namespace);
        var total, canonical := Scan(prefix, table.codes);
        var maximum := Maximum(canonical);
        NumbersAreFewer(prefix, table.codes);
        var status := SequenceStatus(maximum, table.sequence, prefix);
        reports := reports
          + [Report(namespace, prefix, total, |canonical|, total - |canonical|, maximum, table.sequence, status)];
      }
    }
  }

  lemma KnownNamespace(i: nat)
    requires i < |NAMESPACES|
    ensures ExpectedPrefix(NAMESPACES[i]).Some?
  {
  }

  lemma {:induction false} NumbersAreFewer(prefix: string, codes: seq<string>)
    ensures |Numbers(prefix, codes)| <= |codes|
  {
    if codes != [] { NumbersAreFewer(prefix, codes[..|codes| - 1]); }
  }

  predicate IsReport(r: Report, namespace: string, table: Table) {
    && r.namespace == namespace
    && Some(r.prefix) == ExpectedPrefix(namespace)
    && r.total == |table.codes|
    && r.canonical == |Numbers(r.prefix, table.codes)|
    && r.canonical + r.noncanonical == r.total
    && IsMaximum(r.maximum, Numbers(r.prefix, table.codes))
    && r.sequence == table.sequence
    && r.status == SequenceStatus(r.maximum, r.sequence, r.prefix)
  }

  /** In a table reported safe every save succeeds with a new code, and the table would be reported safe again. */
  lemma ReportedSafeIssuesNewCodes(r: Report, namespace: string, table: Table, k: nat)
    requires IsReport(r, namespace, table) && IsSafe(r.status) && table.sequence.Some?
    ensures SaveMany(table, r.prefix, k).Some?
    ensures var after := SaveMany(table, r.prefix, k).value;
            && |after.codes| == |table.codes| + k
            && AddsNewCodes(table.codes, after.codes)
            && forall m :: IsMaximum(m, Numbers(r.prefix, after.codes))
                           ==> IsSafe(SequenceStatus(m, after.sequence, r.prefix))
  {
    SafeExactly(r.maximum, Numbers(r.prefix, table.codes), table.sequence.value, r.prefix);
    SafeTablesSave(table, r.prefix, k);
    SavesSucceedExactly(table, r.prefix, k);
    var after := SaveMany(table, r.prefix, k).value;
    forall m | IsMaximum(m, Numbers(r.prefix, after.codes))
      ensures IsSafe(SequenceStatus(m, after.sequence, r.prefix))
    {
      SafeExactly(m, Numbers(r.prefix, after.codes), after.sequence.value, r.prefix);
    }
  }

  /**
   * What a safe report promises: every number of saves succeeds exactly when there is a sequence
   * row. Without one an empty table is reported safe as well, and its first save is refused.
   */
  lemma SafeReportMeansSavesExactly(r: Report, namespace: string, table: Table)
    requires IsReport(r, namespace, table) && IsSafe(r.status)
    ensures (forall k: nat :: SaveMany(table, r.prefix, k).Some?) <==> table.sequence.Some?
    ensures table.sequence.None? ==> r.status == OkEmpty && Save(table, r.prefix).None?
  {
    if table.sequence.Some? {
      forall k: nat ensures SaveMany(table, r.prefix, k).Some? {
        ReportedSafeIssuesNewCodes(r, namespace, table, k);
      }
    } else {
      NoSequenceNoSave(table, r.prefix);
      assert SaveMany(table, r.prefix, 1).None?;
      assert r.status == SequenceStatus(r.maximum, None, r.prefix);
    }
  }

  lemma NoSequenceNoSave(table: Table, prefix: string)
    requires table.sequence.None?
    ensures Save(table, prefix).None? && SaveMany(table, prefix, 1).None?
  {
    assert SaveMany(table, prefix, 0) == Some(table);
  }

  /** A table without codes and without a sequence row is reported safe, and takes no row. */
  lemma EmptyWithoutSequence(namespace: string)
    requires ExpectedPrefix(namespace).Some?
    ensures var prefix := ExpectedPrefix(namespace).value;
            var table := Table([], None);
            var report := Report(namespace, prefix, 0, 0, 0, None, None, OkEmpty);
            IsReport(report, namespace, table) && IsSafe(report.status) && SaveMany(table, prefix, 1).None?
  {
    var prefix := ExpectedPrefix(namespace).value;
    assert SaveMany(Table([], None), prefix, 0) == Some(Table([], None));
  }
}
