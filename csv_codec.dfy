/**
 * CSV import and export of transactions. Import checks each parsed row in a
 * fixed order, stops at a row's first problem, and accepts the batch only when
 * no row has one. Export projects each transaction onto a row of text fields.
 * Row numbers count the header as row 1, so the first data row is row 2.
 */
module CsvCodec {
  import opened Wrappers
  import opened Text
  import opened Numbers
  import opened Dates
  import opened Transactions

  /** A parsed CSV record; an absent column reads as the empty string. */
  datatype CsvRow = CsvRow(date: string, amount: string, description: string, kind: string)

  /** The first problem found in a row, with the field text the message quotes. */
  datatype RowProblem =
    | MissingFields
    | BadDateFormat(date: string)
    | BadDate(date: string)
    | BadAmount(amountText: string)
    | BadType(typeText: string)
    | SignMismatch(kind: TransactionType, amount: int)
    | EmptyDescription

  /** What checking one row gives: its problem, or the transaction fields it carries. */
  datatype RowOutcome = Rejected(problem: RowProblem) | Accepted(draft: Draft)

  /** A row error: the row's number in the file and its problem. */
  datatype RowFailure = RowFailure(rowNumber: nat, problem: RowProblem)

  /** Why a batch is refused: the row errors, or no rows at all. */
  datatype CsvError = ValidationErrors(errors: seq<RowFailure>) | NoValidTransactions

  /** The text of a type, when it names one. */
  function TypeOf(text: string): Option<TransactionType>
  {
    if text == "Deposit" then Some(Deposit)
    else if text == "Withdrawal" then Some(Withdrawal)
    else None
  }

  lemma TypeOfName(kind: TransactionType)
    ensures TypeOf(TypeName(kind)) == Some(kind)
  {
  }

  /** The sign a type demands of its amount. */
  predicate SignMatches(amount: int, kind: TransactionType)
  {
    if kind == Deposit then amount > 0 else amount < 0
  }

  /**
   * The checks of one row, in order: a missing field, the date shape, the
   * date itself, a non-zero amount, the type, the sign against the type, and a
   * description that is not blank.
   */
  function CheckRow(row: CsvRow): (r: RowOutcome)
    ensures r.Accepted? ==>
      && r.draft.date == row.date && IsValidIsoDate(row.date)
      && ParseCents(row.amount) == Some(r.draft.amount) && r.draft.amount != 0
      && TypeOf(row.kind) == Some(r.draft.kind) && SignMatches(r.draft.amount, r.draft.kind)
      && r.draft.description == Trim(row.description) && r.draft.description != []
  {
    if row.date == [] || row.amount == [] || row.description == [] || row.kind == [] then
      Rejected(MissingFields)
    else if !HasIsoShape(row.date) then
      Rejected(BadDateFormat(row.date))
    else if !IsCalendarDay(IsoComponents(row.date)) then
      Rejected(BadDate(row.date))
    else if ParseCents(row.amount).None? || ParseCents(row.amount).value == 0 then
      Rejected(BadAmount(row.amount))
    else if TypeOf(row.kind).None? then
      Rejected(BadType(row.kind))
    else
      var amount, kind := ParseCents(row.amount).value, TypeOf(row.kind).value;
      if !SignMatches(amount, kind) then Rejected(SignMismatch(kind, amount))
      else if Trim(row.description) == [] then Rejected(EmptyDescription)
      else Accepted(Draft(row.date, amount, Trim(row.description), kind))
  }

  /** A row is accepted exactly when every check passes. */
  lemma CheckRowAcceptedIff(row: CsvRow)
    ensures CheckRow(row).Accepted? <==>
      && IsValidIsoDate(row.date)
      && ParseCents(row.amount).Some? && ParseCents(row.amount).value != 0
      && TypeOf(row.kind).Some? && SignMatches(ParseCents(row.amount).value, TypeOf(row.kind).value)
      && Trim(row.description) != []
  {
    if IsValidIsoDate(row.date) && TypeOf(row.kind).Some? && Trim(row.description) != [] {
      assert row.date != [] && row.kind != [] && row.description != [];
      if ParseCents(row.amount).Some? {
        ParseCentsNonEmpty(row.amount);
      }
    }
  }

  lemma ParseCentsNonEmpty(s: string)
    requires ParseCents(s).Some?
    ensures s != []
  {
  }

  /** An empty field is reported as missing, whatever else is wrong with the row. */
  lemma EmptyFieldIsMissing(row: CsvRow)
    requires row.date == [] || row.amount == [] || row.description == [] || row.kind == []
    ensures CheckRow(row) == Rejected(MissingFields)
  {
  }

  /** A description of white space only passes the missing-field check but is refused last. */
  lemma BlankDescriptionRefused(row: CsvRow)
    requires IsValidIsoDate(row.date) && TypeOf(row.kind).Some?
    requires ParseCents(row.amount).Some? && SignMatches(ParseCents(row.amount).value, TypeOf(row.kind).value)
    requires row.description != [] && AllWhitespace(row.description)
    ensures CheckRow(row) == Rejected(EmptyDescription)
  {
    ParseCentsNonEmpty(row.amount);
  }

  /** The message text of a problem. */
  function ProblemText(p: RowProblem): string
  {
    match p
    case MissingFields => "Missing required fields"
    case BadDateFormat(date) => "Invalid date format. Expected YYYY-MM-DD, got " + date
    case BadDate(date) => "Invalid date: " + date
    case BadAmount(amount) => "Invalid amount. Must be a non-zero number, got " + amount
    case BadType(kind) => "Invalid type. Must be 'Deposit' or 'Withdrawal', got " + kind
    case SignMismatch(kind, amount) =>
      "Amount sign doesn't match type. " + TypeName(kind) + " should be "
      + (if kind == Deposit then "positive" else "negative") + ", got " + RenderCents(amount)
    case EmptyDescription => "Description cannot be empty"
  }

  function RowPrefix(rowNumber: nat): string
  {
    "Row " + NatToString(rowNumber) + ": "
  }

  /** The line a row error prints as: its row number, then the problem. */
  function RowMessage(f: RowFailure): (m: string)
    ensures |RowPrefix(f.rowNumber)| <= |m| && m[..|RowPrefix(f.rowNumber)|] == RowPrefix(f.rowNumber)
  {
    RowPrefix(f.rowNumber) + ProblemText(f.problem)
  }

  /** The row errors written one per line, in order. */
  function RowMessages(errors: seq<RowFailure>): (lines: seq<string>)
    ensures |lines| == |errors|
    ensures forall i :: 0 <= i < |errors| ==> lines[i] == RowMessage(errors[i])
  {
    if errors == [] then [] else [RowMessage(errors[0])] + RowMessages(errors[1..])
  }

  function Join(parts: seq<string>, sep: char): string
  {
    if parts == [] then "" else if |parts| == 1 then parts[0] else parts[0] + [sep] + Join(parts[1..], sep)
  }

  /** The message of the error the import throws. */
  function ErrorMessage(e: CsvError): string
  {
    match e
    case ValidationErrors(errors) => "CSV validation errors:\n" + Join(RowMessages(errors), '\n')
    case NoValidTransactions => "No valid transactions found in CSV file"
  }

  /** The outcome of every row, in row order. */
  function Outcomes(rows: seq<CsvRow>): (os: seq<RowOutcome>)
    ensures |os| == |rows|
  {
    if rows == [] then [] else Outcomes(rows[..|rows| - 1]) + [CheckRow(rows[|rows| - 1])]
  }

  /** Outcome `i` is the check of row `i`; an accepted row has a non-zero amount of the right sign. */
  lemma {:induction false} OutcomeAt(rows: seq<CsvRow>, i: nat)
    requires i < |rows|
    ensures Outcomes(rows)[i] == CheckRow(rows[i])
    ensures Outcomes(rows)[i].Accepted? ==>
      Outcomes(rows)[i].draft.amount != 0 && SignMatches(Outcomes(rows)[i].draft.amount, Outcomes(rows)[i].draft.kind)
  {
    if i < |rows| - 1 {
      OutcomeAt(rows[..|rows| - 1], i);
    }
  }

  /** The errors of the rejected rows, in row order, numbered as the file shows them. */
  function ErrorsOf(os: seq<RowOutcome>): (errors: seq<RowFailure>)
    ensures |errors| <= |os|
  {
    if os == [] then []
    else
      var n := |os| - 1;
      ErrorsOf(os[..n]) + (if os[n].Rejected? then [RowFailure(n + 2, os[n].problem)] else [])
  }

  /** The transactions of the accepted rows, in row order, under the given ids and times. */
  function Converted(os: seq<RowOutcome>, ids: seq<string>, createdAts: seq<int>): (ts: seq<Transaction>)
    requires |ids| >= |os| && |createdAts| >= |os|
    ensures |ts| <= |os|
  {
    if os == [] then []
    else
      var n := |os| - 1;
      Converted(os[..n], ids, createdAts)
        + (if os[n].Accepted? then [Stamp(os[n].draft, ids[n], createdAts[n])] else [])
  }

  /**
   * The verdict of `validateAndConvertCsvRows` on the row outcomes: any row
   * error refuses the whole batch with every error; a batch with no accepted
   * row is refused as having no transactions.
   */
  function Decide(os: seq<RowOutcome>, ids: seq<string>, createdAts: seq<int>): Result<seq<Transaction>, CsvError>
    requires |ids| >= |os| && |createdAts| >= |os|
  {
    var errors := ErrorsOf(os);
    var ts := Converted(os, ids, createdAts);
    if errors != [] then Failure(ValidationErrors(errors))
    else if ts == [] then Failure(NoValidTransactions)
    else Success(ts)
  }

  /** `validateAndConvertCsvRows` as a whole: check every row, then decide. */
  function ValidateRows(rows: seq<CsvRow>, ids: seq<string>, createdAts: seq<int>): Result<seq<Transaction>, CsvError>
    requires |ids| >= |rows| && |createdAts| >= |rows|
  {
    Decide(Outcomes(rows), ids, createdAts)
  }

  /** The loop of `validateAndConvertCsvRows`, with the ids and times it draws given as inputs. */
  method ValidateAndConvertCsvRows(rows: seq<CsvRow>, ids: seq<string>, createdAts: seq<int>)
    returns (r: Result<seq<Transaction>, CsvError>)
    requires |ids| == |rows| && |createdAts| == |rows|
    ensures r == ValidateRows(rows, ids, createdAts)
  {
    var transactions: seq<Transaction> := [];
    var errors: seq<RowFailure> := [];
    var i := 0;
    while i < |rows|
      invariant 0 <= i <= |rows|
      invariant errors == ErrorsOf(Outcomes(rows[..i]))
      invariant transactions == Converted(Outcomes(rows[..i]), ids, createdAts)
    {
      var outcome := CheckRow(rows[i]);
      ghost var done := Outcomes(rows[..i]);
      assert rows[..i + 1][..i] == rows[..i];
      assert Outcomes(rows[..i + 1]) == done + [outcome];
      assert (done + [outcome])[..i] == done;
      if outcome.Rejected? {
        errors := errors + [RowFailure(i + 2, outcome.problem)];
      } else {
        transactions := transactions + [Stamp(outcome.draft, ids[i], createdAts[i])];
      }
      i := i + 1;
    }
    assert rows[..|rows|] == rows;
    if |errors| > 0 {
      return Failure(ValidationErrors(errors));
    }
    if |transactions| == 0 {
      return Failure(NoValidTransactions);
    }
    return Success(transactions);
  }

  /** There are no row errors exactly when every row passes its checks. */
  lemma {:induction false} ErrorsOfEmptyIff(os: seq<RowOutcome>)
    ensures ErrorsOf(os) == [] <==> forall i :: 0 <= i < |os| ==> os[i].Accepted?
  {
    if os != [] {
      var n := |os| - 1;
      ErrorsOfEmptyIff(os[..n]);
      assert forall i :: 0 <= i < n ==> os[..n][i] == os[i];
    }
  }

  /**
   * Each error names a rejected row by its number (index + 2) and carries that
   * row's problem; the numbers strictly increase, so no row has two errors; and
   * every rejected row has its error.
   */
  lemma {:induction false} ErrorsOfNumbered(os: seq<RowOutcome>)
    ensures forall k :: 0 <= k < |ErrorsOf(os)| ==>
      var e := ErrorsOf(os)[k];
      2 <= e.rowNumber < |os| + 2 && os[e.rowNumber - 2] == Rejected(e.problem)
    ensures forall k, l :: 0 <= k < l < |ErrorsOf(os)| ==> ErrorsOf(os)[k].rowNumber < ErrorsOf(os)[l].rowNumber
    ensures forall i :: 0 <= i < |os| && os[i].Rejected? ==> RowFailure(i + 2, os[i].problem) in ErrorsOf(os)
  {
    if os != [] {
      var n := |os| - 1;
      ErrorsOfNumbered(os[..n]);
      assert forall i :: 0 <= i < n ==> os[..n][i] == os[i];
    }
  }

  /** When every row passes, row `i` becomes transaction `i`, under id `i` and time `i`. */
  lemma {:induction false} ConvertedOfValid(os: seq<RowOutcome>, ids: seq<string>, createdAts: seq<int>)
    requires |ids| >= |os| && |createdAts| >= |os|
    requires forall i :: 0 <= i < |os| ==> os[i].Accepted?
    ensures |Converted(os, ids, createdAts)| == |os|
    ensures forall i :: 0 <= i < |os| ==>
      Converted(os, ids, createdAts)[i] == Stamp(os[i].draft, ids[i], createdAts[i])
  {
    if os != [] {
      var n := |os| - 1;
      assert forall i :: 0 <= i < n ==> os[..n][i] == os[i];
      ConvertedOfValid(os[..n], ids, createdAts);
    }
  }

  /**
   * All or nothing, on the outcomes: the verdict is a success exactly when
   * there are outcomes and every one is accepted; then transaction `i` is
   * draft `i` stamped with id `i` and time `i`.
   */
  lemma DecideAllOrNothing(os: seq<RowOutcome>, ids: seq<string>, createdAts: seq<int>)
    requires |ids| == |os| && |createdAts| == |os|
    ensures Decide(os, ids, createdAts).Success? <==>
      os != [] && forall i :: 0 <= i < |os| ==> os[i].Accepted?
    ensures Decide(os, ids, createdAts).Success? ==>
      var ts := Decide(os, ids, createdAts).value;
      && |ts| == |os|
      && forall i :: 0 <= i < |os| ==> ts[i] == Stamp(os[i].draft, ids[i], createdAts[i])
    ensures os == [] ==> Decide(os, ids, createdAts) == Failure(NoValidTransactions)
    ensures ErrorsOf(os) != [] ==> Decide(os, ids, createdAts) == Failure(ValidationErrors(ErrorsOf(os)))
  {
    ErrorsOfEmptyIff(os);
    if forall i :: 0 <= i < |os| ==> os[i].Accepted? {
      ConvertedOfValid(os, ids, createdAts);
    }
  }

  /**
   * All or nothing: the batch is accepted exactly when it has rows and every row
   * passes its checks; then it gives one transaction per row, in row order,
   * carrying that row's fields, with a non-zero amount of the sign its type
   * demands.
   */
  lemma ValidateRowsAllOrNothing(rows: seq<CsvRow>, ids: seq<string>, createdAts: seq<int>)
    requires |ids| == |rows| && |createdAts| == |rows|
    ensures ValidateRows(rows, ids, createdAts).Success? <==>
      rows != [] && forall i :: 0 <= i < |rows| ==> CheckRow(rows[i]).Accepted?
    ensures ValidateRows(rows, ids, createdAts).Success? ==>
      var ts := ValidateRows(rows, ids, createdAts).value;
      && |ts| == |rows|
      && forall i :: 0 <= i < |rows| ==>
        && ts[i] == Stamp(CheckRow(rows[i]).draft, ids[i], createdAts[i])
        && ts[i].amount != 0 && SignMatches(ts[i].amount, ts[i].kind)
  {
    var os := Outcomes(rows);
    forall i | 0 <= i < |rows|
      ensures os[i] == CheckRow(rows[i])
    {
      OutcomeAt(rows, i);
    }
    assert ValidateRows(rows, ids, createdAts) == Decide(os, ids, createdAts);
    DecideAllOrNothing(os, ids, createdAts);
  }

  /** The export row of a transaction: its date, amount text, description and type. */
  function ToCsvRow(t: Transaction): CsvRow
  {
    CsvRow(t.date, RenderCents(t.amount), t.description, TypeName(t.kind))
  }

  /** `transactionsToCsv` before the text is written: one row per transaction, in order. */
  function TransactionsToCsv(ts: seq<Transaction>): (rows: seq<CsvRow>)
    ensures |rows| == |ts|
    ensures forall i :: 0 <= i < |ts| ==> rows[i] == ToCsvRow(ts[i])
  {
    if ts == [] then [] else [ToCsvRow(ts[0])] + TransactionsToCsv(ts[1..])
  }

  /** A transaction the import could have produced. */
  predicate WellFormed(t: Transaction)
  {
    && IsValidIsoDate(t.date)
    && t.amount != 0 && SignMatches(t.amount, t.kind)
    && t.description != [] && Trim(t.description) == t.description
  }

  /** The export row of a well-formed transaction passes every check and gives back its fields. */
  lemma RowRoundTrip(t: Transaction)
    requires WellFormed(t)
    ensures CheckRow(ToCsvRow(t)) == Accepted(DraftOf(t))
  {
    RenderCentsRoundTrip(t.amount);
    TypeOfName(t.kind);
    CheckRowAcceptedIff(ToCsvRow(t));
  }

  /**
   * Exporting well-formed transactions and importing the rows gives back the
   * same transactions, up to the new ids and creation times.
   */
  lemma ExportImportRoundTrip(ts: seq<Transaction>, ids: seq<string>, createdAts: seq<int>)
    requires ts != [] && forall i :: 0 <= i < |ts| ==> WellFormed(ts[i])
    requires |ids| == |ts| && |createdAts| == |ts|
    ensures var r := ValidateRows(TransactionsToCsv(ts), ids, createdAts);
      && r.Success? && |r.value| == |ts|
      && forall i :: 0 <= i < |ts| ==> DraftOf(r.value[i]) == DraftOf(ts[i])
  {
    ExportedRowsAccepted(ts);
    AcceptedRowsGiveBack(TransactionsToCsv(ts), ts, ids, createdAts);
  }

  /** Rows that each pass with the fields of a transaction import as those transactions' fields. */
  lemma AcceptedRowsGiveBack(rows: seq<CsvRow>, ts: seq<Transaction>, ids: seq<string>, createdAts: seq<int>)
    requires rows != [] && |ts| == |rows| && |ids| == |rows| && |createdAts| == |rows|
    requires forall i :: 0 <= i < |rows| ==> CheckRow(rows[i]) == Accepted(DraftOf(ts[i]))
    ensures var r := ValidateRows(rows, ids, createdAts);
      && r.Success? && |r.value| == |ts|
      && forall i :: 0 <= i < |ts| ==> DraftOf(r.value[i]) == DraftOf(ts[i])
  {
    ValidateRowsAllOrNothing(rows, ids, createdAts);
    var r := ValidateRows(rows, ids, createdAts);
    forall i | 0 <= i < |ts|
      ensures DraftOf(r.value[i]) == DraftOf(ts[i])
    {
      assert r.value[i] == Stamp(DraftOf(ts[i]), ids[i], createdAts[i]);
    }
  }

  /** Every export row of well-formed transactions is accepted with the fields it came from. */
  lemma ExportedRowsAccepted(ts: seq<Transaction>)
    requires forall i :: 0 <= i < |ts| ==> WellFormed(ts[i])
    ensures forall i :: 0 <= i < |ts| ==> CheckRow(TransactionsToCsv(ts)[i]) == Accepted(DraftOf(ts[i]))
  {
    forall i | 0 <= i < |ts| ensures CheckRow(TransactionsToCsv(ts)[i]) == Accepted(DraftOf(ts[i])) {
      RowRoundTrip(ts[i]);
    }
  }
}
