/**
 * Quick-entry parsing and the list of selectable earnings periods.
 *
 * `parseEntry` reads a line of the form `TICKER M/D/YYYY: note` with the pattern
 * `^([A-Z]{1,5})\s+(\d{1,2}\/\d{1,2}\/\d{4}):\s*(.+)$` (case-insensitive) applied to the
 * trimmed input. Here the pattern is a left-to-right scanner whose every step takes a
 * maximal run of one character class, which is what the backtracking matcher settles on
 * for this pattern; `EntryShape` states the pattern's language directly and the two
 * lemmas `ParseEntrySound` and `ParseEntryComplete` tie the scanner to it.
 */
module EntryParser {
  import opened Wrappers
  import opened Text
  import opened Decimal

  datatype ParsedEntry = ParsedEntry(ticker: string, date: string, note: string)

  predicate AllLetters(s: string) {
    forall i :: 0 <= i < |s| ==> IsAsciiLetter(s[i])
  }

  predicate IsSlash(c: char) {
    c == '/'
  }

  predicate IsColon(c: char) {
    c == ':'
  }

  /** The digit counts of `\d{1,2}`, `\d{1,2}` and `\d{4}`. */
  predicate DateFields(month: string, day: string, year: string) {
    && 1 <= |month| <= 2 && AllDigits(month)
    && 1 <= |day| <= 2 && AllDigits(day)
    && |year| == 4 && AllDigits(year)
  }

  /** `\d{1,2}\/\d{1,2}\/\d{4}:` followed by `rest`. */
  predicate DateShape(s: string, month: string, day: string, year: string, rest: string) {
    s == month + "/" + day + "/" + year + ":" + rest && DateFields(month, day, year)
  }

  /** `\s*(.+)$`: a whitespace gap, then a non-empty note free of line terminators. */
  predicate NoteShape(s: string, gap2: string, note: string) {
    s == gap2 + note && AllSpace(gap2) && |note| >= 1 && NoLineTerminator(note)
  }

  /**
   * The strings matched by the pattern, cut into its pieces: ticker letters, the `\s+`
   * gap, month, day, year, the `\s*` gap after the colon, and the `.+` note (`.` refuses
   * line terminators; the anchors make the pieces cover all of `t`).
   */
  predicate EntryShape(t: string, ticker: string, gap: string, month: string, day: string, year: string, gap2: string, note: string) {
    && t == ticker + gap + month + "/" + day + "/" + year + ":" + gap2 + note
    && 1 <= |ticker| <= 5 && AllLetters(ticker)
    && |gap| >= 1 && AllSpace(gap)
    && DateFields(month, day, year)
    && AllSpace(gap2) && |note| >= 1 && NoLineTerminator(note)
  }

  /**
   * One field of the pattern: the maximal run of `p` at the start of `s`, accepted when
   * its length is within `lo..hi` and the character after it satisfies `stop`. The result
   * is the run and the rest of `s`, which starts with that character.
   */
  function Lead(s: string, p: char -> bool, lo: nat, hi: nat, stop: char -> bool): (r: Option<(string, string)>)
    ensures r.Some? ==>
      && s == r.value.0 + r.value.1
      && lo <= |r.value.0| <= hi
      && (forall i :: 0 <= i < |r.value.0| ==> p(r.value.0[i]))
      && r.value.1 != [] && stop(r.value.1[0]) && !p(r.value.1[0])
  {
    var n := Span(s, p);
    if lo <= n <= hi && n < |s| && stop(s[n]) then
      assert s == s[..n] + s[n..];
      Some((s[..n], s[n..]))
    else None
  }

  /** A run that fits the field, followed by its stop character, is exactly what `Lead` takes. */
  lemma LeadOf(x: string, y: string, p: char -> bool, lo: nat, hi: nat, stop: char -> bool)
    requires forall i :: 0 <= i < |x| ==> p(x[i])
    requires lo <= |x| <= hi
    requires y != [] && stop(y[0]) && !p(y[0])
    ensures Lead(x + y, p, lo, hi, stop) == Some((x, y))
  {
    SpanAppend(x, y, p);
    assert (x + y)[..|x|] == x && (x + y)[|x|..] == y;
  }

  /** `${year}-${String(month).padStart(2, "0")}-${String(day).padStart(2, "0")}` after `Number` read each field. */
  function FormatDate(year: string, month: string, day: string): string
    requires AllDigits(year) && AllDigits(month) && AllDigits(day)
  {
    NatToDecimal(DigitsValue(year)) + "-" + PadStart(NatToDecimal(DigitsValue(month)), 2) + "-" + PadStart(NatToDecimal(DigitsValue(day)), 2)
  }

  /** The date part of the pattern: month, day and year, and what follows the colon. */
  function ParseDate(s: string): Option<(string, string, string, string)> {
    match Lead(s, IsDigit, 1, 2, IsSlash)
    case None => None
    case Some((month, r1)) =>
      match Lead(r1[1..], IsDigit, 1, 2, IsSlash)
      case None => None
      case Some((day, r2)) =>
        match Lead(r2[1..], IsDigit, 4, 4, IsColon)
        case None => None
        case Some((year, r3)) => Some((month, day, year, r3[1..]))
  }

  /** `\s*(.+)$` with a greedy `\s*`: the note is what follows the leading whitespace. */
  function ParseNote(s: string): Option<string> {
    var note := TrimStart(s);
    if note == [] || !NoLineTerminator(note) then None else Some(note)
  }

  /** `parseEntry`: `None` is the `null` the source returns when the pattern does not match. */
  function ParseEntry(input: string): Option<ParsedEntry> {
    ParseLine(Trim(input))
  }

  /** The pattern applied to the already trimmed line `t`. */
  function ParseLine(t: string): Option<ParsedEntry> {
    match Lead(t, IsAsciiLetter, 1, 5, IsSpace)
    case None => None
    case Some((ticker, r)) =>
      match ParseDate(TrimStart(r))
      case None => None
      case Some((month, day, year, rest)) =>
        match ParseNote(rest)
        case None => None
        case Some(note) => Some(ParsedEntry(ToUpper(ticker), FormatDate(year, month, day), Trim(note)))
  }

  /** The date text regrouped the way the scanner consumes it, one field at a time. */
  lemma DateNested(month: string, day: string, year: string, rest: string)
    ensures month + "/" + day + "/" + year + ":" + rest == month + ("/" + (day + ("/" + (year + (":" + rest)))))
  {
  }

  lemma ParseDateSound(s: string)
    requires ParseDate(s).Some?
    ensures var d := ParseDate(s).value; DateShape(s, d.0, d.1, d.2, d.3)
  {
    var l1 := Lead(s, IsDigit, 1, 2, IsSlash).value;
    var l2 := Lead(l1.1[1..], IsDigit, 1, 2, IsSlash).value;
    var l3 := Lead(l2.1[1..], IsDigit, 4, 4, IsColon).value;
    DateOfFields(s, l1.0, l1.1, l2.0, l2.1, l3.0, l3.1);
  }

  lemma DateOfFields(s: string, month: string, r1: string, day: string, r2: string, year: string, r3: string)
    requires s == month + r1 && r1 != [] && r1[0] == '/' && r1[1..] == day + r2
    requires r2 != [] && r2[0] == '/' && r2[1..] == year + r3
    requires r3 != [] && r3[0] == ':'
    ensures s == month + "/" + day + "/" + year + ":" + r3[1..]
  {
    assert r3 == ":" + r3[1..];
    assert r2 == "/" + r2[1..];
    assert r1 == "/" + r1[1..];
    DateNested(month, day, year, r3[1..]);
  }

  lemma ParseDateComplete(s: string, month: string, day: string, year: string, rest: string)
    requires DateShape(s, month, day, year, rest)
    ensures ParseDate(s) == Some((month, day, year, rest))
  {
    var r3 := ":" + rest;
    var r2 := "/" + (year + r3);
    var r1 := "/" + (day + r2);
    DateNested(month, day, year, rest);
    LeadOf(month, r1, IsDigit, 1, 2, IsSlash);
    assert r1[1..] == day + r2;
    LeadOf(day, r2, IsDigit, 1, 2, IsSlash);
    assert r2[1..] == year + r3;
    LeadOf(year, r3, IsDigit, 4, 4, IsColon);
    assert r3[1..] == rest;
  }

  lemma ParseNoteSound(s: string) returns (gap2: string)
    requires ParseNote(s).Some?
    ensures NoteShape(s, gap2, ParseNote(s).value)
  {
    var note := ParseNote(s).value;
    gap2 := s[..|s| - |note|];
    assert s == gap2 + note;
  }

  /** When the note ends in a non-space, any split into gap and note is accepted, with the same trimmed note. */
  lemma ParseNoteComplete(s: string, gap2: string, note: string)
    requires NoteShape(s, gap2, note) && !IsSpace(note[|note| - 1])
    ensures ParseNote(s).Some? && Trim(ParseNote(s).value) == Trim(note)
  {
    TrimStartAfterSpaces(gap2, note);
    NoteAfterLeadingSpaces(note);
  }

  /** A note that ends in a non-space keeps a non-empty, single-line text after `trimStart()`, which trims like the note. */
  lemma NoteAfterLeadingSpaces(note: string)
    requires |note| >= 1 && NoLineTerminator(note) && !IsSpace(note[|note| - 1])
    ensures TrimStart(note) != [] && NoLineTerminator(TrimStart(note)) && Trim(TrimStart(note)) == Trim(note)
  {
    var k := Span(note, IsSpace);
    SpanStopsAt(note, IsSpace, |note| - 1);
    NoLineTerminatorSuffix(note, k);
    SplitAt(note, k);
    TrimAfterSpaces(note[..k], note[k..]);
  }

  lemma EntryNested(ticker: string, gap: string, month: string, day: string, year: string, gap2: string, note: string)
    ensures ticker + gap + month + "/" + day + "/" + year + ":" + gap2 + note
         == ticker + (gap + (month + "/" + day + "/" + year + ":" + (gap2 + note)))
  {
  }

  /** The three stages of `ParseLine`, run one after the other on an accepted line. */
  lemma ParseLineStages(t: string) returns (ticker: string, r: string, month: string, day: string, year: string, rest: string, note: string)
    requires ParseLine(t).Some?
    ensures Lead(t, IsAsciiLetter, 1, 5, IsSpace) == Some((ticker, r))
    ensures ParseDate(TrimStart(r)) == Some((month, day, year, rest))
    ensures ParseNote(rest) == Some(note)
    ensures DateFields(month, day, year)
    ensures ParseLine(t).value == ParsedEntry(ToUpper(ticker), FormatDate(year, month, day), Trim(note))
  {
    var l := Lead(t, IsAsciiLetter, 1, 5, IsSpace).value;
    ticker, r := l.0, l.1;
    var d := ParseDate(TrimStart(r)).value;
    month, day, year, rest := d.0, d.1, d.2, d.3;
    note := ParseNote(rest).value;
    ParseDateSound(TrimStart(r));
  }

  lemma ParseLineOfStages(t: string, ticker: string, r: string, month: string, day: string, year: string, rest: string, note: string)
    requires Lead(t, IsAsciiLetter, 1, 5, IsSpace) == Some((ticker, r))
    requires ParseDate(TrimStart(r)) == Some((month, day, year, rest))
    requires ParseNote(rest) == Some(note)
    ensures ParseLine(t) == Some(ParsedEntry(ToUpper(ticker), FormatDate(year, month, day), Trim(note)))
  {
  }

  lemma ParseLineSound(t: string) returns (ticker: string, gap: string, month: string, day: string, year: string, gap2: string, note: string)
    requires ParseLine(t).Some?
    ensures EntryShape(t, ticker, gap, month, day, year, gap2, note)
    ensures ParseLine(t).value == ParsedEntry(ToUpper(ticker), FormatDate(year, month, day), Trim(note))
  {
    var r, rest;
    ticker, r, month, day, year, rest, note := ParseLineStages(t);
    var s1 := TrimStart(r);
    gap := r[..|r| - |s1|];
    assert r == gap + s1 by { SplitAt(r, |r| - |s1|); }
    ParseDateSound(s1);
    gap2 := ParseNoteSound(rest);
    EntryNested(ticker, gap, month, day, year, gap2, note);
  }

  lemma ParseLineComplete(t: string, ticker: string, gap: string, month: string, day: string, year: string, gap2: string, note: string)
    requires EntryShape(t, ticker, gap, month, day, year, gap2, note)
    requires !IsSpace(t[|t| - 1])
    ensures ParseLine(t) == Some(ParsedEntry(ToUpper(ticker), FormatDate(year, month, day), Trim(note)))
  {
    var r := TickerStage(t, ticker, gap, month, day, year, gap2, note);
    DateStage(t, ticker, gap, month, day, year, gap2, note, r);
    EntryLastChar(t, ticker, gap, month, day, year, gap2, note);
    ParseNoteComplete(gap2 + note, gap2, note);
    ParseLineOfStages(t, ticker, r, month, day, year, gap2 + note, ParseNote(gap2 + note).value);
  }

  lemma TickerStage(t: string, ticker: string, gap: string, month: string, day: string, year: string, gap2: string, note: string) returns (r: string)
    requires EntryShape(t, ticker, gap, month, day, year, gap2, note)
    ensures Lead(t, IsAsciiLetter, 1, 5, IsSpace) == Some((ticker, r))
    ensures r == gap + (month + "/" + day + "/" + year + ":" + (gap2 + note))
  {
    r := gap + (month + "/" + day + "/" + year + ":" + (gap2 + note));
    EntryNested(ticker, gap, month, day, year, gap2, note);
    LeadOf(ticker, r, IsAsciiLetter, 1, 5, IsSpace);
  }

  lemma DateStage(t: string, ticker: string, gap: string, month: string, day: string, year: string, gap2: string, note: string, r: string)
    requires EntryShape(t, ticker, gap, month, day, year, gap2, note)
    requires r == gap + (month + "/" + day + "/" + year + ":" + (gap2 + note))
    ensures ParseDate(TrimStart(r)) == Some((month, day, year, gap2 + note))
  {
    var s1 := month + "/" + day + "/" + year + ":" + (gap2 + note);
    assert IsDigit(month[0]) && s1[0] == month[0];
    TrimStartPastGap(gap, s1);
    ParseDateComplete(s1, month, day, year, gap2 + note);
  }

  /** Leading whitespace before a non-space is exactly what `trimStart()` removes. */
  lemma TrimStartPastGap(gap: string, s: string)
    requires AllSpace(gap) && s != [] && !IsSpace(s[0])
    ensures TrimStart(gap + s) == s
  {
    TrimStartAfterSpaces(gap, s);
  }

  lemma SplitAt(s: string, k: nat)
    requires k <= |s|
    ensures s == s[..k] + s[k..]
  {
  }

  lemma EntryLastChar(t: string, ticker: string, gap: string, month: string, day: string, year: string, gap2: string, note: string)
    requires EntryShape(t, ticker, gap, month, day, year, gap2, note)
    ensures |t| >= |note| >= 1 && t[|t| - 1] == note[|note| - 1]
  {
    EntryNested(ticker, gap, month, day, year, gap2, note);
    var rest := gap2 + note;
    var s1 := month + "/" + day + "/" + year + ":" + rest;
    var r := gap + s1;
    assert t[|t| - 1] == r[|r| - 1];
    assert r[|r| - 1] == s1[|s1| - 1];
    assert s1[|s1| - 1] == rest[|rest| - 1];
  }

  /** Whatever `ParseEntry` accepts has the pattern's shape, and the result is built from its pieces. */
  lemma ParseEntrySound(input: string) returns (ticker: string, gap: string, month: string, day: string, year: string, gap2: string, note: string)
    requires ParseEntry(input).Some?
    ensures EntryShape(Trim(input), ticker, gap, month, day, year, gap2, note)
    ensures ParseEntry(input).value == ParsedEntry(ToUpper(ticker), FormatDate(year, month, day), Trim(note))
  {
    ticker, gap, month, day, year, gap2, note := ParseLineSound(Trim(input));
  }

  /** Whatever has the pattern's shape is accepted, with the result built from its pieces. */
  lemma ParseEntryComplete(input: string, ticker: string, gap: string, month: string, day: string, year: string, gap2: string, note: string)
    requires EntryShape(Trim(input), ticker, gap, month, day, year, gap2, note)
    ensures ParseEntry(input) == Some(ParsedEntry(ToUpper(ticker), FormatDate(year, month, day), Trim(note)))
  {
    var t := Trim(input);
    assert |t| >= 1 by {
      EntryNested(ticker, gap, month, day, year, gap2, note);
    }
    ParseLineComplete(t, ticker, gap, month, day, year, gap2, note);
  }

  /** The ticker of an accepted entry is one to five upper-case ASCII letters. */
  lemma ParsedTicker(input: string)
    requires ParseEntry(input).Some?
    ensures var p := ParseEntry(input).value;
      1 <= |p.ticker| <= 5 && forall i :: 0 <= i < |p.ticker| ==> 'A' <= p.ticker[i] <= 'Z'
  {
    var ticker, gap, month, day, year, gap2, note := ParseEntrySound(input);
    UpperTicker(ticker);
  }

  /** The note of an accepted entry is non-empty, trimmed at both ends and on a single line. */
  lemma ParsedNote(input: string)
    requires ParseEntry(input).Some?
    ensures var p := ParseEntry(input).value;
      && p.note != [] && !IsSpace(p.note[0]) && !IsSpace(p.note[|p.note| - 1])
      && NoLineTerminator(p.note)
  {
    var ticker, gap, month, day, year, gap2, note := ParseEntrySound(input);
    EntryLastChar(Trim(input), ticker, gap, month, day, year, gap2, note);
    TrimmedNote(note);
  }

  lemma UpperTicker(ticker: string)
    requires AllLetters(ticker)
    ensures forall i :: 0 <= i < |ticker| ==> 'A' <= ToUpper(ticker)[i] <= 'Z'
  {
  }

  lemma TrimmedNote(note: string)
    requires |note| >= 1 && NoLineTerminator(note) && !IsSpace(note[|note| - 1])
    ensures Trim(note) != [] && NoLineTerminator(Trim(note))
  {
    var lo := TrimIsSlice(note);
    var n := Trim(note);
    forall i | 0 <= i < |n| ensures !IsLineTerminator(n[i]) {
      assert n[i] == note[lo + i];
    }
  }

  /** A one- or two-digit field written with two digits. */
  function TwoDigits(s: string): string {
    if |s| == 1 then "0" + s else s
  }

  /**
   * For a year without a leading zero the date is the ten-character `YYYY-MM-DD` text of
   * the matched digits: month and day are padded but never range-checked.
   */
  lemma FormatDateDigits(year: string, month: string, day: string)
    requires DateFields(month, day, year) && year[0] != '0'
    ensures FormatDate(year, month, day) == year + "-" + TwoDigits(month) + "-" + TwoDigits(day)
    ensures |FormatDate(year, month, day)| == 10
  {
    DecimalOfDigits(year);
    PadTwoDigits(month);
    PadTwoDigits(day);
  }

  /**
   * A year written with leading zeros loses them on the way through `Number`: "0025"
   * becomes "25", and the date is shorter than the ten characters of `YYYY-MM-DD`.
   */
  lemma YearLosesLeadingZeros(zeros: string, year: string, month: string, day: string)
    requires DateFields(month, day, zeros + year) && |zeros| >= 1 && AllZeros(zeros) && Canonical(year)
    ensures FormatDate(zeros + year, month, day) == year + "-" + TwoDigits(month) + "-" + TwoDigits(day)
    ensures |FormatDate(zeros + year, month, day)| < 10
  {
    LeadingZerosValue(zeros, year);
    DecimalOfDigits(year);
    PadTwoDigits(month);
    PadTwoDigits(day);
  }

  /**
   * Any one- or two-digit month and day are accepted and copied, padded, into the date:
   * nothing checks that they name a real calendar day.
   */
  lemma ParseEntryDate(input: string, ticker: string, gap: string, month: string, day: string, year: string, gap2: string, note: string)
    requires EntryShape(Trim(input), ticker, gap, month, day, year, gap2, note) && year[0] != '0'
    ensures ParseEntry(input).Some?
    ensures ParseEntry(input).value.date == year + "-" + TwoDigits(month) + "-" + TwoDigits(day)
  {
    ParseEntryComplete(input, ticker, gap, month, day, year, gap2, note);
    FormatDateDigits(year, month, day);
  }

  /** The label `Q${q} ${year}`. */
  function Period(q: int, year: int): string {
    "Q" + IntToDecimal(q) + " " + IntToDecimal(year)
  }

  /**
   * The twelve labels `generateEarningsPeriods` produces for the current year `y`: index
   * `i` holds quarter `4 - i % 4` of year `y + 1 - i / 4`.
   */
  function EarningsPeriods(y: int): (r: seq<string>)
    ensures |r| == 12
  {
    seq(12, i requires 0 <= i < 12 => Period(4 - i % 4, y + 1 - i / 4))
  }

  /** `generateEarningsPeriods`, with the clock's current year passed in. */
  method GenerateEarningsPeriods(currentYear: int) returns (periods: seq<string>)
    ensures periods == EarningsPeriods(currentYear)
  {
    periods := [];
    var year := currentYear + 1;
    while year >= currentYear - 1
      invariant currentYear - 2 <= year <= currentYear + 1
      invariant periods == EarningsPeriods(currentYear)[..4 * (currentYear + 1 - year)]
    {
      var q := 4;
      while q >= 1
        invariant 0 <= q <= 4
        invariant periods == EarningsPeriods(currentYear)[..4 * (currentYear + 1 - year) + 4 - q]
      {
        EarningsPeriodsStep(currentYear, q, year, 4 * (currentYear + 1 - year) + 4 - q);
        periods := periods + [Period(q, year)];
        q := q - 1;
      }
      year := year - 1;
    }
  }

  /** Entry `n` of the list is quarter `q` of `year` when `n` counts the quarters before it. */
  lemma EarningsPeriodsStep(y: int, q: int, year: int, n: int)
    requires 1 <= q <= 4 && y - 1 <= year <= y + 1
    requires n == 4 * (y + 1 - year) + 4 - q
    ensures 0 <= n < 12
    ensures EarningsPeriods(y)[..n + 1] == EarningsPeriods(y)[..n] + [Period(q, year)]
  {
    assert n % 4 == 4 - q && n / 4 == y + 1 - year;
    assert EarningsPeriods(y)[n] == Period(q, year);
  }

  /** Quarters one to four are written with a single digit, so the label splits back into quarter and year. */
  lemma PeriodInjective(q1: int, y1: int, q2: int, y2: int)
    requires 1 <= q1 <= 4 && 1 <= q2 <= 4
    requires Period(q1, y1) == Period(q2, y2)
    ensures q1 == q2 && y1 == y2
  {
    var a, b := Period(q1, y1), Period(q2, y2);
    assert IntToDecimal(q1) == [a[1]] && IntToDecimal(q2) == [b[1]];
    assert a[3..] == IntToDecimal(y1) && b[3..] == IntToDecimal(y2);
    IntToDecimalInjective(q1, q2);
    IntToDecimalInjective(y1, y2);
  }

  /** The list names every quarter of the previous, current and next year, and nothing else. */
  lemma EarningsPeriodsCover(y: int, q: int, year: int)
    requires 1 <= q <= 4
    ensures Period(q, year) in EarningsPeriods(y) <==> y - 1 <= year <= y + 1
  {
    if y - 1 <= year <= y + 1 {
      PeriodListed(y, q, year);
    }
    if Period(q, year) in EarningsPeriods(y) {
      ListedPeriodInRange(y, q, year);
    }
  }

  lemma PeriodListed(y: int, q: int, year: int)
    requires 1 <= q <= 4 && y - 1 <= year <= y + 1
    ensures Period(q, year) in EarningsPeriods(y)
  {
    var i := 4 * (y + 1 - year) + 4 - q;
    assert i % 4 == 4 - q && i / 4 == y + 1 - year;
    assert EarningsPeriods(y)[i] == Period(q, year);
  }

  lemma ListedPeriodInRange(y: int, q: int, year: int)
    requires 1 <= q <= 4 && Period(q, year) in EarningsPeriods(y)
    ensures y - 1 <= year <= y + 1
  {
    var i :| 0 <= i < 12 && EarningsPeriods(y)[i] == Period(q, year);
    var q', year' := SlotOf(y, i);
    PeriodInjective(q, year, q', year');
  }

  /** The quarter and year that entry `i` of the list names. */
  lemma SlotOf(y: int, i: int) returns (q: int, year: int)
    requires 0 <= i < 12
    ensures 1 <= q <= 4 && y - 1 <= year <= y + 1
    ensures EarningsPeriods(y)[i] == Period(q, year)
  {
    q, year := 4 - i % 4, y + 1 - i / 4;
    Index4(i);
    PeriodAt(y, i, q, year);
  }

  /** Index `i` of the list is quarter slot `i % 4` of year slot `i / 4`. */
  lemma Index4(i: int)
    requires 0 <= i < 12
    ensures 0 <= i % 4 < 4 && 0 <= i / 4 < 3 && i == 4 * (i / 4) + i % 4
  {
  }

  /** No label appears twice. */
  lemma EarningsPeriodsDistinct(y: int, i: int, j: int)
    requires 0 <= i < j < 12
    ensures EarningsPeriods(y)[i] != EarningsPeriods(y)[j]
  {
    var qi, yi, qj, yj := SlotsApart(y, i, j);
    PeriodsApart(qi, yi, qj, yj);
  }

  /** The quarter and year at two distinct indices, which differ in one or the other. */
  lemma SlotsApart(y: int, i: int, j: int) returns (qi: int, yi: int, qj: int, yj: int)
    requires 0 <= i < j < 12
    ensures 1 <= qi <= 4 && 1 <= qj <= 4 && (qi != qj || yi != yj)
    ensures EarningsPeriods(y)[i] == Period(qi, yi) && EarningsPeriods(y)[j] == Period(qj, yj)
  {
    IndicesApart(i, j);
    qi, yi, qj, yj := 4 - i % 4, y + 1 - i / 4, 4 - j % 4, y + 1 - j / 4;
    PeriodAt(y, i, qi, yi);
    PeriodAt(y, j, qj, yj);
  }

  lemma PeriodAt(y: int, i: int, q: int, year: int)
    requires 0 <= i < 12 && q == 4 - i % 4 && year == y + 1 - i / 4
    ensures EarningsPeriods(y)[i] == Period(q, year)
  {
  }

  lemma PeriodsApart(q1: int, y1: int, q2: int, y2: int)
    requires 1 <= q1 <= 4 && 1 <= q2 <= 4 && (q1 != q2 || y1 != y2)
    ensures Period(q1, y1) != Period(q2, y2)
  {
    if Period(q1, y1) == Period(q2, y2) {
      PeriodInjective(q1, y1, q2, y2);
    }
  }

  /** Two distinct indices differ in their quarter or in their year. */
  lemma IndicesApart(i: int, j: int)
    requires 0 <= i < j < 12
    ensures 0 <= i % 4 < 4 && 0 <= j % 4 < 4
    ensures i % 4 != j % 4 || i / 4 != j / 4
  {
    Index4(i);
    Index4(j);
  }

  /** The list opens with the last quarter of next year and closes with the first quarter of last year. */
  lemma EarningsPeriodsEnds(y: int)
    ensures EarningsPeriods(y)[0] == "Q4 " + IntToDecimal(y + 1)
    ensures EarningsPeriods(y)[11] == "Q1 " + IntToDecimal(y - 1)
  {
    PeriodAt(y, 0, 4, y + 1);
    PeriodAt(y, 11, 1, y - 1);
    PeriodText(4, "4", y + 1);
    PeriodText(1, "1", y - 1);
  }

  /** A label whose quarter is written `d`. */
  lemma PeriodText(q: int, d: string, year: int)
    requires 1 <= q <= 4 && d == [('0' as int + q) as char]
    ensures Period(q, year) == "Q" + d + " " + IntToDecimal(year)
  {
    assert IntToDecimal(q) == d;
  }
}
