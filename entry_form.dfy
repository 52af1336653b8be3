/**
 * The form that adds a research entry: its submit handler checks the fields in a fixed order,
 * asks who is signed in, builds the normalised row, and either clears the form or shows the
 * database's error. The sign-in lookup and the insert are outside the model: their answers are
 * parameters of `Submit`.
 */
module EntryForm {
  import opened Wrappers
  import opened Text

  const TickerMissing := "Please enter a ticker"
  const DateMissing := "Please select a date"
  const NoteMissing := "Please enter a note"
  const PeriodMissing := "Please select an earnings period"
  const LoggedOut := "You must be logged in to add entries"

  /** The row handed to `insert` on the `entries` table. */
  datatype Row = Row(
    userId: string,
    ticker: string,
    entryDate: string,
    source: Option<string>,
    note: string,
    flag: Option<string>,
    earningsPeriod: string)

  /**
   * The four checks, in order: the first that fails names its message, and the form passes
   * (`None`) only when the ticker and the note are not blank and the date and the period are
   * not empty. A field is blank when it is all whitespace, which is when `trim()` leaves
   * nothing (`Text.TrimEmpty`).
   */
  function Validate(ticker: string, entryDate: string, note: string, period: string): (r: Option<string>)
    ensures r.None? <==> !AllSpace(ticker) && entryDate != [] && !AllSpace(note) && period != []
    ensures r == Some(TickerMissing) <==> AllSpace(ticker)
    ensures r == Some(DateMissing) <==> !AllSpace(ticker) && entryDate == []
    ensures r == Some(NoteMissing) <==> !AllSpace(ticker) && entryDate != [] && AllSpace(note)
    ensures r == Some(PeriodMissing) <==> !AllSpace(ticker) && entryDate != [] && !AllSpace(note) && period == []
  {
    if AllSpace(ticker) then Some(TickerMissing)
    else if entryDate == [] then Some(DateMissing)
    else if AllSpace(note) then Some(NoteMissing)
    else if period == [] then Some(PeriodMissing)
    else None
  }

  /** `s || null`: the empty string is falsy and becomes `null`. */
  function OrNull(s: string): (r: Option<string>)
    ensures r.None? <==> s == []
    ensures r.Some? ==> r.value == s
  {
    if s == [] then None else Some(s)
  }

  /** The row built from the form's fields for the signed-in user. */
  function BuildRow(userId: string, ticker: string, entryDate: string, source: string, note: string,
                    flag: string, period: string): Row
  {
    Row(userId, Trim(ToUpper(ticker)), entryDate, OrNull(Trim(source)), Trim(note), OrNull(flag), period)
  }

  /** The row's ticker is the trimmed ticker in upper case: no whitespace at its ends and no lower-case ASCII letter. */
  lemma RowTicker(ticker: string)
    requires !AllSpace(ticker)
    ensures Trim(ToUpper(ticker)) == ToUpper(Trim(ticker))
    ensures var t := Trim(ToUpper(ticker));
      t != [] && !IsSpace(t[0]) && !IsSpace(t[|t| - 1]) && forall i :: 0 <= i < |t| ==> !('a' <= t[i] <= 'z')
  {
    TrimOfUpper(ticker);
    TrimEmpty(ticker);
  }

  /**
   * A row built from fields that passed the checks is well formed: its ticker and note are
   * non-empty and trimmed, its source is absent exactly when the source field is blank and
   * otherwise trimmed, and its flag is absent exactly when none was picked.
   */
  lemma RowOfValidForm(userId: string, ticker: string, entryDate: string, source: string, note: string,
                       flag: string, period: string)
    requires Validate(ticker, entryDate, note, period).None?
    ensures var r := BuildRow(userId, ticker, entryDate, source, note, flag, period);
      && r.ticker == ToUpper(Trim(ticker)) && r.ticker != []
      && r.note != [] && !IsSpace(r.note[0]) && !IsSpace(r.note[|r.note| - 1])
      && (r.source.None? <==> AllSpace(source))
      && (r.source.Some? ==> r.source.value == Trim(source))
      && (r.flag.None? <==> flag == [])
      && r.entryDate == entryDate && r.earningsPeriod == period && r.userId == userId
  {
    RowTicker(ticker);
    TrimEmpty(note);
    TrimEmpty(source);
  }

  /** The component's state: the six fields, whether a submit is in flight, and the error shown. */
  class Form {
    var ticker: string
    var entryDate: string
    var source: string
    var note: string
    var flag: string
    var period: string
    var loading: bool
    var error: Option<string>

    /** Every field starts empty, nothing is loading and no error is shown. */
    constructor ()
      ensures ticker == [] && entryDate == [] && source == [] && note == [] && flag == [] && period == []
      ensures !loading && error.None?
    {
      ticker, entryDate, source, note, flag, period := [], [], [], [], [], [];
      loading, error := false, None;
    }

    /** The reset after a successful insert: every field but the period becomes empty. */
    method Clear()
      modifies this
      ensures ticker == [] && entryDate == [] && source == [] && note == [] && flag == []
      ensures period == old(period) && loading == old(loading) && error == old(error)
    {
      ticker, entryDate, source, note, flag := [], [], [], [], [];
    }

    /**
     * `handleSubmit`. `user` is the signed-in user's id, if any; `insertError` is the message
     * of the error the insert reports, if any. `row` is what was sent to the database and
     * `added` says whether `onEntryAdded` was called. A failed check returns before `loading`
     * is touched; every path past the checks ends with `loading` false again.
     */
    method Submit(user: Option<string>, insertError: Option<string>) returns (row: Option<Row>, added: bool)
      modifies this
      ensures var v := Validate(old(ticker), old(entryDate), old(note), old(period));
        && (v.Some? ==> error == v)
        && (v.None? && user.None? ==> error == Some(LoggedOut))
        && (row.Some? <==> v.None? && user.Some?)
        && (row.Some? ==> row.value == BuildRow(user.value, old(ticker), old(entryDate), old(source),
                                                old(note), old(flag), old(period)))
      ensures row.Some? ==> error == insertError
      ensures added <==> row.Some? && insertError.None?
      ensures added ==> ticker == [] && entryDate == [] && source == [] && note == [] && flag == []
      ensures !added ==> (ticker, entryDate, source, note, flag) == old((ticker, entryDate, source, note, flag))
      ensures period == old(period)
      ensures Validate(old(ticker), old(entryDate), old(note), old(period)).Some? ==> loading == old(loading)
      ensures Validate(old(ticker), old(entryDate), old(note), old(period)).None? ==> !loading
    {
      row, added := None, false;
      error := None;
      if AllSpace(ticker) {
        error := Some(TickerMissing);
        return;
      }
      if entryDate == [] {
        error := Some(DateMissing);
        return;
      }
      if AllSpace(note) {
        error := Some(NoteMissing);
        return;
      }
      if period == [] {
        error := Some(PeriodMissing);
        return;
      }
      loading := true;
      if user.None? {
        error := Some(LoggedOut);
        loading := false;
        return;
      }
      row := Some(BuildRow(user.value, ticker, entryDate, source, note, flag, period));
      if insertError.Some? {
        error := insertError;
      } else {
        Clear();
        added := true;
      }
      loading := false;
    }
  }

  /** A submit that adds the entry leaves a form that fails its first check until a ticker is typed again. */
  lemma AddedFormRejected(entryDate: string, note: string, period: string)
    ensures Validate([], entryDate, note, period) == Some(TickerMissing)
  {
    assert Trim([]) == [];
  }
}
