/**
 * Field validators for a transaction about to be committed, and the composite
 * check that collects their messages in a fixed order.
 */
module Validation {
  import opened Text
  import opened Numbers
  import opened Dates
  import opened Transactions

  /** `{ valid: true }` or `{ valid: false, error }`. */
  datatype Check = Valid | Invalid(error: string)

  /** The message list a check contributes: none, or its one error. */
  function Messages(c: Check): (m: seq<string>)
    ensures |m| <= 1 && (m == [] <==> c.Valid?)
  {
    if c.Valid? then [] else [c.error]
  }

  /** `validateTransactionAmount`: non-zero, positive for a deposit, negative for a withdrawal. */
  function ValidateTransactionAmount(amount: int, kind: TransactionType): (c: Check)
    ensures c.Valid? <==> amount != 0 && (amount > 0 <==> kind == Deposit)
    ensures amount == 0 ==> c == Invalid("Amount must be a non-zero number")
  {
    if amount == 0 then Invalid("Amount must be a non-zero number")
    else if (amount > 0) != (kind == Deposit) then
      Invalid(TypeName(kind) + " amount must be " + (if kind == Deposit then "positive" else "negative"))
    else Valid
  }

  /**
   * `validateWithdrawalBalance`: the amount must be negative and must leave a
   * balance of at least zero.
   */
  function ValidateWithdrawalBalance(amount: int, currentBalance: int): (c: Check)
    ensures c.Valid? <==> amount < 0 && currentBalance + amount >= 0
    ensures amount >= 0 ==> c == Invalid("Withdrawal amount must be negative")
  {
    if amount >= 0 then Invalid("Withdrawal amount must be negative")
    else if currentBalance + amount < 0 then
      Invalid("Insufficient balance. Available: " + SignedFixed2(currentBalance)
        + ", Attempted: " + Fixed2(-amount))
    else Valid
  }

  /**
   * `validateTransactionDate`: the shape first, then a real calendar day, then
   * not later than `today`; the first failing test gives the message.
   */
  function ValidateTransactionDate(date: string, today: CalendarDate): (c: Check)
    ensures c.Valid? <==> IsValidIsoDate(date) && !IsAfter(IsoComponents(date), today)
    ensures !HasIsoShape(date) ==> c == Invalid("Date must be in YYYY-MM-DD format")
    ensures HasIsoShape(date) && !IsValidIsoDate(date) ==> c == Invalid("Invalid date")
    ensures IsValidIsoDate(date) && IsAfter(IsoComponents(date), today) ==>
      c == Invalid("Transaction date cannot be in the future")
  {
    if !HasIsoShape(date) then Invalid("Date must be in YYYY-MM-DD format")
    else if !IsCalendarDay(IsoComponents(date)) then Invalid("Invalid date")
    else if IsAfter(IsoComponents(date), today) then Invalid("Transaction date cannot be in the future")
    else Valid
  }

  /** Today itself is never in the future. */
  lemma TodayIsAccepted(date: string, today: CalendarDate)
    requires IsValidIsoDate(date) && IsoComponents(date) == today
    ensures ValidateTransactionDate(date, today) == Valid
  {
  }

  /** `validateTransactionDescription`: between 1 and 200 characters once trimmed. */
  function ValidateTransactionDescription(description: string): (c: Check)
    ensures c.Valid? <==> 1 <= |Trim(description)| <= 200
  {
    var trimmed := Trim(description);
    if |trimmed| == 0 then Invalid("Description is required")
    else if |trimmed| > 200 then Invalid("Description must be 200 characters or less")
    else Valid
  }

  /** Leading and trailing white space never changes the verdict on a description. */
  lemma DescriptionIgnoresSurroundingWhitespace(w1: string, d: string, w2: string)
    requires AllWhitespace(w1) && AllWhitespace(w2)
    ensures ValidateTransactionDescription(w1 + d + w2) == ValidateTransactionDescription(d)
  {
    TrimIgnoresSurroundingWhitespace(w1, d, w2);
  }

  /**
   * The messages `validateTransaction` collects: amount, then balance (for a
   * withdrawal only), then date, then description.
   */
  function TransactionErrors(t: Draft, currentBalance: int, today: CalendarDate): seq<string>
  {
    var afterAmount := Messages(ValidateTransactionAmount(t.amount, t.kind));
    var afterBalance := if t.kind == Withdrawal
      then afterAmount + Messages(ValidateWithdrawalBalance(t.amount, currentBalance))
      else afterAmount;
    var afterDate := afterBalance + Messages(ValidateTransactionDate(t.date, today));
    afterDate + Messages(ValidateTransactionDescription(t.description))
  }

  /** Pushes a check's error, when it has one, onto the collected messages. */
  method PushError(errors: seq<string>, check: Check) returns (r: seq<string>)
    ensures r == errors + Messages(check)
  {
    r := errors;
    if check.Invalid? {
      r := r + [check.error];
    }
  }

  /** `validateTransaction`: pushes each failing check's message in turn. */
  method ValidateTransaction(t: Draft, currentBalance: int, today: CalendarDate)
    returns (valid: bool, errors: seq<string>)
    ensures errors == TransactionErrors(t, currentBalance, today)
    ensures valid <==> errors == []
  {
    errors := [];
    var amountCheck := ValidateTransactionAmount(t.amount, t.kind);
    errors := PushError(errors, amountCheck);
    assert errors == Messages(amountCheck);
    if t.kind == Withdrawal {
      var balanceCheck := ValidateWithdrawalBalance(t.amount, currentBalance);
      errors := PushError(errors, balanceCheck);
    }
    var dateCheck := ValidateTransactionDate(t.date, today);
    errors := PushError(errors, dateCheck);
    var descriptionCheck := ValidateTransactionDescription(t.description);
    errors := PushError(errors, descriptionCheck);
    valid := errors == [];
  }

  /** A draft is valid exactly when every check that applies to it passes. */
  lemma TransactionValidIffChecksPass(t: Draft, currentBalance: int, today: CalendarDate)
    ensures TransactionErrors(t, currentBalance, today) == [] <==>
      && t.amount != 0 && (t.amount > 0 <==> t.kind == Deposit)
      && (t.kind == Withdrawal ==> currentBalance + t.amount >= 0)
      && IsValidIsoDate(t.date) && !IsAfter(IsoComponents(t.date), today)
      && 1 <= |Trim(t.description)| <= 200
    ensures |TransactionErrors(t, currentBalance, today)| <= 4
  {
  }

  /** A deposit's messages do not depend on the current balance at all. */
  lemma DepositIgnoresBalance(t: Draft, balance1: int, balance2: int, today: CalendarDate)
    requires t.kind == Deposit
    ensures TransactionErrors(t, balance1, today) == TransactionErrors(t, balance2, today)
  {
  }

  /** A withdrawal with a non-negative amount collects the sign error and then the negativity error. */
  lemma NonNegativeWithdrawalTwoErrors(t: Draft, currentBalance: int, today: CalendarDate)
    requires t.kind == Withdrawal && t.amount >= 0
    ensures var errors := TransactionErrors(t, currentBalance, today);
      && |errors| >= 2
      && errors[0] == ValidateTransactionAmount(t.amount, t.kind).error
      && errors[1] == "Withdrawal amount must be negative"
  {
    var amountCheck := ValidateTransactionAmount(t.amount, t.kind);
    var balanceCheck := ValidateWithdrawalBalance(t.amount, currentBalance);
    assert amountCheck.Invalid? && balanceCheck.Invalid?;
    var afterBalance := [amountCheck.error, balanceCheck.error];
    assert Messages(amountCheck) + Messages(balanceCheck) == afterBalance;
    var rest := Messages(ValidateTransactionDate(t.date, today)) + Messages(ValidateTransactionDescription(t.description));
    assert TransactionErrors(t, currentBalance, today) == afterBalance + rest;
  }
}
