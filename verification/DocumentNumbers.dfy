/** Document numbers (apps/web/lib/db-helpers.ts): rendering a numbering rule, and deriving the
    next sequence value from the numbers already stored. Years and sequence values are naturals. */
module DocumentNumbers {
  import opened Numbers
  import opened Optional

  // ---------------------------------------------------------------- decimal text

  predicate IsDigit(c: char) {
    '0' <= c <= '9'
  }

  predicate AllDigits(s: string) {
    forall k :: 0 <= k < |s| ==> IsDigit(s[k])
  }

  function Digit(d: nat): char
    requires d < 10
  {
    ('0' as int + d) as char
  }

  lemma IsDigitIff(c: char)
    ensures IsDigit(c) <==> c in "0123456789"
    ensures IsDigit(c) <==> exists d: nat :: d < 10 && c == Digit(d)
  {
    if IsDigit(c) {
      var d := c as int - '0' as int;
      assert c == Digit(d);
    }
  }

  /** `String(n)`. */
  function Decimal(n: nat): string {
    if n < 10 then [Digit(n)] else Decimal(n / 10) + [Digit(n % 10)]
  }

  /** `Number.parseInt(s, 10)` on a string of digits. */
  function Parse(s: string): nat
    requires AllDigits(s)
  {
    if s == [] then 0 else Parse(s[..|s| - 1]) * 10 + (s[|s| - 1] as int - '0' as int)
  }

  function Zeros(k: nat): string {
    seq(k, _ => '0')
  }

  /** `s.padStart(width, '0')`. */
  function PadStart(s: string, width: nat): string {
    if |s| >= width then s else Zeros(width - |s|) + s
  }

  /** `s.slice(-d)`: the last d characters, but the whole string when d is zero. */
  function LastChars(s: string, d: nat): string {
    if d == 0 || |s| <= d then s else s[|s| - d..]
  }

  function Pow10(k: nat): nat {
    if k == 0 then 1 else 10 * Pow10(k - 1)
  }

  lemma {:induction false} ParseDecimal(n: nat)
    ensures AllDigits(Decimal(n)) && |Decimal(n)| >= 1
    ensures Parse(Decimal(n)) == n
  {
    if n < 10 {
      assert Decimal(n)[..0] == [];
    } else {
      ParseDecimal(n / 10);
      assert Decimal(n)[..|Decimal(n)| - 1] == Decimal(n / 10);
    }
  }

  lemma {:induction false} ParseZeros(k: nat, s: string)
    requires AllDigits(s)
    ensures AllDigits(Zeros(k) + s)
    ensures Parse(Zeros(k) + s) == Parse(s)
  {
    var t := Zeros(k) + s;
    if s != [] {
      ParseZeros(k, s[..|s| - 1]);
      assert t[..|t| - 1] == Zeros(k) + s[..|s| - 1];
    } else if k > 0 {
      ParseZeros(k - 1, s);
      assert t[..|t| - 1] == Zeros(k - 1) + s;
    } else {
      assert t == s;
    }
  }

  /** Padded printing is undone by parsing, whatever the width. */
  lemma ParsePadded(n: nat, width: nat)
    ensures AllDigits(PadStart(Decimal(n), width)) && PadStart(Decimal(n), width) != []
    ensures Parse(PadStart(Decimal(n), width)) == n
  {
    ParseDecimal(n);
    if |Decimal(n)| < width {
      ParseZeros(width - |Decimal(n)|, Decimal(n));
    }
  }

  lemma {:induction false} DecimalLength(n: nat, k: nat)
    ensures |Decimal(n)| > k <==> k == 0 || n >= Pow10(k)
  {
    ParseDecimal(n);
    if k > 0 {
      DecimalLength(n / 10, k - 1);
      PowIsPositive(k - 1);
    }
  }

  lemma {:induction false} PowIsPositive(k: nat)
    ensures Pow10(k) >= 1
  {
    if k > 0 {
      PowIsPositive(k - 1);
    }
  }

  /** Padding fills up to the width and never cuts. */
  lemma PadStartLength(s: string, width: nat)
    ensures |PadStart(s, width)| == if |s| >= width then |s| else width
    ensures PadStart(s, width)[|PadStart(s, width)| - |s|..] == s
  {
  }

  /** r is what the last d decimal places of n hold, and q the rest. */
  predicate SplitsAt(n: nat, d: nat, q: nat, r: nat) {
    n == q * Pow10(d) + r && r < Pow10(d)
  }

  lemma LastCharsStep(n: nat, d: nat)
    requires 0 < d < |Decimal(n)|
    ensures LastChars(Decimal(n), d) == (if d == 1 then "" else LastChars(Decimal(n / 10), d - 1)) + [Digit(n % 10)]
  {
  }

  lemma ParseSnoc(s: string, d: nat)
    requires AllDigits(s) && d < 10
    ensures AllDigits(s + [Digit(d)]) && Parse(s + [Digit(d)]) == Parse(s) * 10 + d
  {
    assert (s + [Digit(d)])[..|s|] == s;
  }

  lemma TenTimes(q: nat, p: nat)
    ensures q * (10 * p) == 10 * (q * p)
  {
  }

  /** One more digit at the end. */
  lemma AppendDigit(before: string, n: nat, d: nat, q: nat)
    requires AllDigits(before) && SplitsAt(n / 10, d, q, Parse(before))
    ensures var s := before + [Digit(n % 10)];
            AllDigits(s) && SplitsAt(n, d + 1, q, Parse(s))
  {
    ParseSnoc(before, n % 10);
    TenTimes(q, Pow10(d));
  }

  lemma ShortNumber(n: nat, d: nat)
    requires 0 < |Decimal(n)| <= d
    ensures AllDigits(Decimal(n)) && SplitsAt(n, d, 0, Parse(Decimal(n)))
  {
    ParseDecimal(n);
    DecimalLength(n, d);
  }

  /** The last d characters of a number are its last d decimal places. */
  lemma {:induction false} LastDigits(n: nat, d: nat) returns (q: nat)
    requires d > 0
    ensures AllDigits(LastChars(Decimal(n), d)) && SplitsAt(n, d, q, Parse(LastChars(Decimal(n), d)))
  {
    if |Decimal(n)| <= d {
      q := 0;
      ShortNumber(n, d);
    } else {
      LastCharsStep(n, d);
      if d == 1 {
        q := n / 10;
        AppendDigit("", n, 0, q);
      } else {
        q := LastDigits(n / 10, d - 1);
        AppendDigit(LastChars(Decimal(n / 10), d - 1), n, d - 1, q);
      }
    }
  }

  // ---------------------------------------------------------------- rules

  datatype Part =
    | FolderCode
    | Literal(value: string)
    | Year(digits: nat)
    | Sequence(digits: nat, initial: int)

  function RenderYear(year: nat, digits: nat): string {
    if digits >= 4 then PadStart(Decimal(year), 4) else LastChars(Decimal(year), digits)
  }

  function RenderPart(part: Part, folder: string, year: nat, sequence: nat): string {
    match part
    case FolderCode => folder
    case Literal(value) => value
    case Year(digits) => RenderYear(year, digits)
    case Sequence(digits, _) => PadStart(Decimal(sequence), digits)
  }

  /** `parts.map(renderPart).join('')`. */
  function Render(parts: seq<Part>, folder: string, year: nat, sequence: nat): string {
    if parts == [] then []
    else RenderPart(parts[0], folder, year, sequence) + Render(parts[1..], folder, year, sequence)
  }

  /** The first SEQUENCE part's initial value; the default is 1. */
  function FirstInitial(parts: seq<Part>): int {
    if parts == [] then 1 else if parts[0].Sequence? then parts[0].initial else FirstInitial(parts[1..])
  }

  /** FOLDER_CODE-YEAR-SEQUENCE, the shape of the default rule. */
  function DashedRule(yearDigits: nat, sequenceDigits: nat, initial: int): seq<Part> {
    [FolderCode, Literal("-"), Year(yearDigits), Literal("-"), Sequence(sequenceDigits, initial)]
  }

  /** The rule that apps/web/prisma/seed.ts installs. */
  function SeededRule(): seq<Part> {
    DashedRule(4, 5, 1)
  }

  /** A year with four or more digits asked for is not cut, and reads back; with fewer it is cut to its
      last digits. */
  lemma YearMeaning(year: nat, digits: nat)
    ensures AllDigits(RenderYear(year, digits))
    ensures digits >= 4 ==> |RenderYear(year, digits)| >= 4 && Parse(RenderYear(year, digits)) == year
    ensures 0 < digits < 4 ==> exists q :: SplitsAt(year, digits, q, Parse(RenderYear(year, digits)))
  {
    ParseDecimal(year);
    ParsePadded(year, 4);
    PadStartLength(Decimal(year), 4);
    if 0 < digits < 4 {
      var q := LastDigits(year, digits);
    }
  }

  // ---------------------------------------------------------------- the next sequence value

  function Prefix(folder: string, year: nat): string {
    folder + "-" + Decimal(year) + "-"
  }

  /** `number` counts towards the bucket `prefix`: it is the prefix followed by digits only. */
  predicate Counts(number: string, prefix: string) {
    prefix < number && AllDigits(number[|prefix|..])
  }

  function SequenceOf(number: string, prefix: string): nat
    requires Counts(number, prefix)
  {
    Parse(number[|prefix|..])
  }

  function HighestUsed(rows: seq<string>, prefix: string): nat {
    if rows == [] then 0
    else
      var before := HighestUsed(rows[..|rows| - 1], prefix);
      var number := rows[|rows| - 1];
      if Counts(number, prefix) && SequenceOf(number, prefix) > before then SequenceOf(number, prefix) else before
  }

  function NextAfter(max: nat, initial: int): nat {
    if max == 0 then Max(1, initial) else max + 1
  }

  function Next(rows: seq<string>, prefix: string, initial: int): nat {
    NextAfter(HighestUsed(rows, prefix), initial)
  }

  /** The scan finds the greatest sequence value in the bucket, whatever the order of the rows. */
  lemma {:induction false} HighestUsedMeaning(rows: seq<string>, prefix: string)
    ensures forall r :: r in rows && Counts(r, prefix) ==> SequenceOf(r, prefix) <= HighestUsed(rows, prefix)
    ensures HighestUsed(rows, prefix) == 0
         || exists r :: r in rows && Counts(r, prefix) && SequenceOf(r, prefix) == HighestUsed(rows, prefix)
  {
    if rows != [] {
      var before, last := rows[..|rows| - 1], rows[|rows| - 1];
      HighestUsedMeaning(before, prefix);
      assert rows == before + [last];
      if HighestUsed(rows, prefix) != 0 && HighestUsed(rows, prefix) == HighestUsed(before, prefix) {
        var r :| r in before && Counts(r, prefix) && SequenceOf(r, prefix) == HighestUsed(before, prefix);
        assert r in rows;
      }
    }
  }

  /** One more than the greatest value in the bucket, or the initial value, but 1 at least, where the
      bucket holds no positive one. */
  lemma NextMeaning(rows: seq<string>, prefix: string, initial: int)
    ensures (forall r :: r in rows && Counts(r, prefix) ==> SequenceOf(r, prefix) == 0) ==>
              Next(rows, prefix, initial) == if initial >= 1 then initial else 1
    ensures forall r :: r in rows && Counts(r, prefix) ==> SequenceOf(r, prefix) < Next(rows, prefix, initial)
    ensures (exists r :: r in rows && Counts(r, prefix) && SequenceOf(r, prefix) > 0) ==>
              exists r :: r in rows && Counts(r, prefix) && SequenceOf(r, prefix) == Next(rows, prefix, initial) - 1
  {
    HighestUsedMeaning(rows, prefix);
  }

  /** The loop of `nextSequence`; the prefix filter is the database's `startsWith`. */
  method NextSequence(rows: seq<string>, folder: string, year: nat, initial: int) returns (next: nat)
    ensures next == Next(rows, Prefix(folder, year), initial)
    ensures next >= 1
  {
    var prefix := Prefix(folder, year);
    var max: nat := 0;
    for i := 0 to |rows|
      invariant max == HighestUsed(rows[..i], prefix)
    {
      assert rows[..i + 1][..i] == rows[..i];
      if !(prefix <= rows[i]) {
        continue;
      }
      var tail := rows[i][|prefix|..];
      if tail == "" || !AllDigits(tail) {
        continue;
      }
      var n := Parse(tail);
      if n > max {
        max := n;
      }
    }
    assert rows[..|rows|] == rows;
    next := if max == 0 then Max(1, initial) else max + 1;
  }

  predicate HasSequence(parts: seq<Part>) {
    exists k :: 0 <= k < |parts| && parts[k].Sequence?
  }

  /** `evaluateNumberRule` for parts already in order; `given` is the context's sequence value, for
      previews. */
  method EvaluateNumberRule(parts: seq<Part>, folder: string, year: nat, given: Option<nat>, rows: seq<string>)
    returns (number: string)
    // only a rule that has a sequence, evaluated without a value for it, looks at the stored numbers
    ensures HasSequence(parts) && given.None? ==> number == Number(parts, folder, year, rows)
    ensures given.Some? ==> number == Render(parts, folder, year, given.value)
    ensures !HasSequence(parts) ==> forall n :: number == Render(parts, folder, year, n)
  {
    var sequence := if given.Some? then given.value else 0;
    if HasSequence(parts) && given.None? {
      sequence := NextSequence(rows, folder, year, FirstInitial(parts));
    }
    if !HasSequence(parts) {
      forall n
        ensures Render(parts, folder, year, sequence) == Render(parts, folder, year, n)
      {
        SequenceDoesNotMatter(parts, folder, year, sequence, n);
      }
    }
    number := Render(parts, folder, year, sequence);
  }

  lemma {:induction false} SequenceDoesNotMatter(parts: seq<Part>, folder: string, year: nat, m: nat, n: nat)
    requires !HasSequence(parts)
    ensures Render(parts, folder, year, m) == Render(parts, folder, year, n)
  {
    if parts != [] {
      assert !parts[0].Sequence?;
      assert forall k :: 0 <= k < |parts| - 1 ==> parts[1..][k] == parts[k + 1];
      SequenceDoesNotMatter(parts[1..], folder, year, m, n);
    }
  }

  function Number(parts: seq<Part>, folder: string, year: nat, rows: seq<string>): string {
    Render(parts, folder, year, Next(rows, Prefix(folder, year), FirstInitial(parts)))
  }

  // ---------------------------------------------------------------- new numbers are new

  function DashedNumber(folder: string, yearText: string, sequenceText: string): string {
    folder + "-" + yearText + "-" + sequenceText
  }

  lemma DashedRuleRenders(yd: nat, sd: nat, initial: int, folder: string, year: nat, sequence: nat)
    ensures Render(DashedRule(yd, sd, initial), folder, year, sequence)
         == DashedNumber(folder, RenderYear(year, yd), PadStart(Decimal(sequence), sd))
    ensures FirstInitial(DashedRule(yd, sd, initial)) == initial
  {
    var parts := DashedRule(yd, sd, initial);
    var p1, p2, p3, p4 := parts[1..], parts[2..], parts[3..], parts[4..];
    assert p1[1..] == p2 && p2[1..] == p3 && p3[1..] == p4 && p4[1..] == [];
    assert Render(p4, folder, year, sequence) == PadStart(Decimal(sequence), sd);
    assert Render(p3, folder, year, sequence) == "-" + Render(p4, folder, year, sequence);
    assert Render(p2, folder, year, sequence) == RenderYear(year, yd) + Render(p3, folder, year, sequence);
    assert Render(p1, folder, year, sequence) == "-" + Render(p2, folder, year, sequence);
    assert FirstInitial(p4) == initial && FirstInitial(p3) == initial && FirstInitial(p2) == initial;
  }

  /** When the year is rendered as the prefix spells it, a rendered number counts towards its own
      bucket with its own sequence value. */
  lemma RenderedCounts(folder: string, year: nat, sequence: nat, sd: nat)
    ensures var number := DashedNumber(folder, Decimal(year), PadStart(Decimal(sequence), sd));
            Counts(number, Prefix(folder, year)) && SequenceOf(number, Prefix(folder, year)) == sequence
  {
    ParsePadded(sequence, sd);
    var prefix, tail := Prefix(folder, year), PadStart(Decimal(sequence), sd);
    var number := DashedNumber(folder, Decimal(year), tail);
    assert number == prefix + tail;
    assert number[|prefix|..] == tail;
  }

  /** When it is not, no rendered number ever counts. */
  lemma RenderedNeverCounts(folder: string, year: nat, yearText: string, tail: string)
    requires AllDigits(yearText) && yearText != Decimal(year)
    ensures !Counts(DashedNumber(folder, yearText, tail), Prefix(folder, year))
  {
    ParseDecimal(year);
    var prefix, number := Prefix(folder, year), DashedNumber(folder, yearText, tail);
    var y, f := Decimal(year), |folder| + 1;
    assert forall k :: 0 <= k < |y| ==> prefix[f + k] == y[k];
    assert forall k :: 0 <= k < |yearText| ==> number[f + k] == yearText[k];
    assert prefix[f + |y|] == '-' && number[f + |yearText|] == '-';
    // the first place where the two spellings part
    if |y| < |yearText| {
      assert number[f + |y|] == yearText[|y|] != prefix[f + |y|];
    } else if |yearText| < |y| {
      assert prefix[f + |yearText|] == y[|yearText|] != number[f + |yearText|];
    } else {
      var k :| 0 <= k < |y| && y[k] != yearText[k];
      assert prefix[f + k] != number[f + k];
    }
  }

  lemma YearTextIsDigits(year: nat, digits: nat)
    ensures AllDigits(RenderYear(year, digits))
  {
    ParseDecimal(year);
    ParsePadded(year, 4);
  }

  /** The number for the next registration is not stored yet. */
  ghost predicate IsFresh(parts: seq<Part>, folder: string, year: nat, rows: seq<string>) {
    Number(parts, folder, year, rows) !in rows
  }

  ghost predicate AlwaysFresh(parts: seq<Part>, folder: string, year: nat) {
    forall rows :: IsFresh(parts, folder, year, rows)
  }

  /** Rules of the default shape give a number that is not stored, for every set of stored numbers,
      exactly when the year is rendered as the bucket prefix spells it. */
  lemma FreshIff(yd: nat, sd: nat, initial: int, folder: string, year: nat)
    ensures AlwaysFresh(DashedRule(yd, sd, initial), folder, year) <==> RenderYear(year, yd) == Decimal(year)
  {
    var parts, prefix := DashedRule(yd, sd, initial), Prefix(folder, year);
    if RenderYear(year, yd) == Decimal(year) {
      forall rows
        ensures IsFresh(parts, folder, year, rows)
      {
        var next := Next(rows, prefix, initial);
        DashedRuleRenders(yd, sd, initial, folder, year, next);
        RenderedCounts(folder, year, next, sd);
        HighestUsedMeaning(rows, prefix);
      }
    } else {
      var next := Next([], prefix, initial);
      DashedRuleRenders(yd, sd, initial, folder, year, next);
      YearTextIsDigits(year, yd);
      RenderedNeverCounts(folder, year, RenderYear(year, yd), PadStart(Decimal(next), sd));
      var rows := [Number(parts, folder, year, [])];
      assert rows[..0] == [];
      assert !IsFresh(parts, folder, year, rows);
    }
  }

  /** When that is: with four or more year digits from the year 1000 on; with one, two or three
      digits only for years that short; with zero digits always. */
  lemma {:induction false} YearIsSpelledOutIff(year: nat, digits: nat)
    ensures RenderYear(year, digits) == Decimal(year) <==>
            digits == 0 || (if digits >= 4 then year >= 1000 else year < Pow10(digits))
  {
    DecimalLength(year, 3);
    DecimalLength(year, digits);
    assert Pow10(3) == 1000;
  }

  /** The seeded rule: numbers are always new exactly from the year 1000 on. */
  lemma SeededRuleFreshIff(folder: string, year: nat)
    ensures AlwaysFresh(SeededRule(), folder, year) <==> year >= 1000
  {
    FreshIff(4, 5, 1, folder, year);
    YearIsSpelledOutIff(year, 4);
  }

  // ---------------------------------------------------------------- runs of registrations

  /** `after` still holds every number of `before` and the one registered from it, and possibly
      numbers registered elsewhere. */
  ghost predicate Registers(parts: seq<Part>, folder: string, year: nat, before: seq<string>, after: seq<string>) {
    (forall r :: r in before ==> r in after) && Number(parts, folder, year, before) in after
  }

  ghost predicate IsRun(parts: seq<Part>, folder: string, year: nat, states: seq<seq<string>>) {
    forall i :: 0 < i < |states| ==> Registers(parts, folder, year, states[i - 1], states[i])
  }

  lemma RegisteringRaisesNext(yd: nat, sd: nat, initial: int, folder: string, year: nat,
                              before: seq<string>, after: seq<string>)
    requires RenderYear(year, yd) == Decimal(year)
    requires Registers(DashedRule(yd, sd, initial), folder, year, before, after)
    ensures Next(before, Prefix(folder, year), initial) < Next(after, Prefix(folder, year), initial)
  {
    var prefix := Prefix(folder, year);
    var next := Next(before, prefix, initial);
    DashedRuleRenders(yd, sd, initial, folder, year, next);
    RenderedCounts(folder, year, next, sd);
    HighestUsedMeaning(after, prefix);
  }

  /** Over any run of registrations in one folder and year the sequence values strictly increase,
      also when other numbers are stored in between. */
  lemma {:induction false} SequencesIncrease(yd: nat, sd: nat, initial: int, folder: string, year: nat,
                                             states: seq<seq<string>>, i: nat, j: nat)
    requires RenderYear(year, yd) == Decimal(year)
    requires IsRun(DashedRule(yd, sd, initial), folder, year, states)
    requires i < j < |states|
    ensures Next(states[i], Prefix(folder, year), initial) < Next(states[j], Prefix(folder, year), initial)
  {
    RegisteringRaisesNext(yd, sd, initial, folder, year, states[j - 1], states[j]);
    if i < j - 1 {
      SequencesIncrease(yd, sd, initial, folder, year, states, i, j - 1);
    }
  }

  // ---------------------------------------------------------------- registering an object

  const ATTEMPTS := 3

  /** The numbers stored when the rule is evaluated, and when the object is inserted. */
  datatype Attempt = Attempt(seen: seq<string>, stored: seq<string>)

  /** `number` is unique in the database: an insert with a stored number fails. */
  predicate Refused(parts: seq<Part>, folder: string, year: nat, a: Attempt) {
    Number(parts, folder, year, a.seen) in a.stored
  }

  datatype Outcome = Created(number: string) | GaveUp

  /** The retry loop around the rule when an object is registered without a number. */
  method RegisterObject(parts: seq<Part>, folder: string, year: nat, attempts: nat -> Attempt)
    returns (outcome: Outcome, failed: nat)
    ensures forall k: nat :: k < failed ==> Refused(parts, folder, year, attempts(k))
    ensures outcome.GaveUp? ==> failed == ATTEMPTS
    ensures outcome.Created? ==> failed < ATTEMPTS && !Refused(parts, folder, year, attempts(failed))
    ensures outcome.Created? ==> outcome.number == Number(parts, folder, year, attempts(failed).seen)
  {
    failed := 0;
    while failed < ATTEMPTS
      invariant failed <= ATTEMPTS
      invariant forall k: nat :: k < failed ==> Refused(parts, folder, year, attempts(k))
    {
      var attempt := attempts(failed);
      var candidate := EvaluateNumberRule(parts, folder, year, None, attempt.seen);
      if candidate !in attempt.stored {
        return Created(candidate), failed;
      }
      failed := failed + 1;
    }
    outcome := GaveUp;
  }

  /** When the year is rendered as the prefix spells it, an attempt is refused only for a number
      that somebody else stored after the scan. */
  lemma RefusalNeedsARace(yd: nat, sd: nat, initial: int, folder: string, year: nat, a: Attempt)
    requires RenderYear(year, yd) == Decimal(year)
    requires Refused(DashedRule(yd, sd, initial), folder, year, a)
    ensures exists number :: number in a.stored && number !in a.seen && Counts(number, Prefix(folder, year))
  {
    var parts, prefix := DashedRule(yd, sd, initial), Prefix(folder, year);
    var next := Next(a.seen, prefix, initial);
    FreshIff(yd, sd, initial, folder, year);
    assert IsFresh(parts, folder, year, a.seen);
    DashedRuleRenders(yd, sd, initial, folder, year, next);
    RenderedCounts(folder, year, next, sd);
  }

  ghost predicate NoneCounts(rows: seq<string>, prefix: string) {
    forall r :: r in rows ==> !Counts(r, prefix)
  }

  /** When the year is spelled differently, the rule gives one and the same number whatever is
      stored, and storing it changes nothing about that. */
  lemma OtherwiseNumbersRepeat(yd: nat, sd: nat, initial: int, folder: string, year: nat, rows: seq<string>)
    requires RenderYear(year, yd) != Decimal(year) && NoneCounts(rows, Prefix(folder, year))
    ensures var parts := DashedRule(yd, sd, initial);
            var number := Number(parts, folder, year, rows);
            number == Number(parts, folder, year, []) && NoneCounts(rows + [number], Prefix(folder, year))
  {
    var prefix := Prefix(folder, year);
    var next := Next([], prefix, initial);
    HighestUsedMeaning(rows, prefix);
    DashedRuleRenders(yd, sd, initial, folder, year, next);
    YearTextIsDigits(year, yd);
    RenderedNeverCounts(folder, year, RenderYear(year, yd), PadStart(Decimal(next), sd));
  }

  ghost predicate AllRefused(parts: seq<Part>, folder: string, year: nat, attempts: nat -> Attempt) {
    forall k: nat :: k < ATTEMPTS ==> Refused(parts, folder, year, attempts(k))
  }

  /** So that number can be registered once: with it stored every attempt is refused, and without it
      the first one gets through. Stored numbers are not deleted meanwhile. */
  lemma OtherwiseGivesUpIff(yd: nat, sd: nat, initial: int, folder: string, year: nat, attempts: nat -> Attempt)
    requires RenderYear(year, yd) != Decimal(year)
    requires forall k: nat :: k < ATTEMPTS ==> NoneCounts(attempts(k).seen, Prefix(folder, year))
    requires forall k: nat, r :: k < ATTEMPTS && r in attempts(0).stored ==> r in attempts(k).stored
    ensures AllRefused(DashedRule(yd, sd, initial), folder, year, attempts)
       <==> Number(DashedRule(yd, sd, initial), folder, year, []) in attempts(0).stored
  {
    var parts := DashedRule(yd, sd, initial);
    forall k: nat | k < ATTEMPTS
      ensures Number(parts, folder, year, attempts(k).seen) == Number(parts, folder, year, [])
    {
      OtherwiseNumbersRepeat(yd, sd, initial, folder, year, attempts(k).seen);
    }
    if AllRefused(parts, folder, year, attempts) {
      assert Refused(parts, folder, year, attempts(0));
    }
  }
}
