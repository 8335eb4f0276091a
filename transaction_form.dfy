/**
 * The add/edit transaction form: the rules its fields must satisfy, the
 * conversion of the entered amount back to euros, and the submit decision
 * that either refuses an overdrawing withdrawal or sends an add or an update
 * to the store.
 */
module TransactionForm {
  import opened Wrappers
  import opened Text
  import opened Dates
  import opened Transactions
  import opened ExchangeRates
  import opened Validation
  import opened StoreViews
  import opened TransactionService

  /** The form's fields: the amount in the selected currency, always entered positive. */
  datatype FormData = FormData(amount: real, description: string, date: string, kind: TransactionType)

  /**
   * `transactionSchema`: an amount of at least 0.01, a description of 1 to 200
   * characters as typed (not trimmed), a date of the YYYY-MM-DD shape that
   * names a real day no later than today. The type is one of the two by
   * construction.
   */
  predicate SchemaAccepts(data: FormData, today: CalendarDate)
  {
    && data.amount >= 0.01
    && 1 <= |data.description| <= 200
    && HasIsoShape(data.date)
    && ParseLocalIsoDate(data.date).Some?
    && !IsAfter(ParseLocalIsoDate(data.date).value.date, today)
  }

  /**
   * On a date of the right shape from year 100 on, the schema's date rule and
   * the date validator accept the same dates.
   */
  lemma SchemaDateAgreesWithValidation(data: FormData, today: CalendarDate)
    requires HasIsoShape(data.date) && IsoComponents(data.date).year >= MinLocalYear
    ensures (ParseLocalIsoDate(data.date).Some? && !IsAfter(ParseLocalIsoDate(data.date).value.date, today))
      <==> ValidateTransactionDate(data.date, today).Valid?
  {
    ParseLocalIsoDateOfShaped(data.date);
  }

  /**
   * The two disagree on descriptions: one space passes the schema's untrimmed
   * length rule but not the trimmed one of the description validator.
   */
  lemma SchemaKeepsBlankDescription(data: FormData, today: CalendarDate)
    requires SchemaAccepts(data, today) && data.description == " "
    ensures ValidateTransactionDescription(data.description).Invalid?
  {
    assert AllWhitespace(data.description);
  }

  /**
   * `convertToEUR`: without rates, for the euro, or for a currency whose rate
   * is missing or zero, the amount is already in euros; otherwise it is
   * divided by the rate.
   */
  function ConvertToEUR(amount: real, rates: Option<Rates>, selectedCurrency: string): (r: real)
    ensures rates.None? || selectedCurrency == "EUR" ==> r == amount
  {
    if rates.None? || selectedCurrency == "EUR" then amount
    else if selectedCurrency !in rates.value || rates.value[selectedCurrency] == 0.0 then amount
    else amount / rates.value[selectedCurrency]
  }

  /**
   * Converting to euros and back, or from euros and back, gives the amount
   * again: the two conversions fall back to the identity in the same cases.
   */
  lemma ConvertToEURInvertsConvert(amount: real, rates: Rates, currency: string)
    ensures ConvertCurrency(ConvertToEUR(amount, Some(rates), currency), currency, rates) == amount
    ensures ConvertToEUR(ConvertCurrency(amount, currency, rates), Some(rates), currency) == amount
  {
    if currency != "EUR" && currency in rates && rates[currency] != 0.0 {
      var rate := rates[currency];
      assert amount / rate * rate == amount;
      assert amount * rate / rate == amount;
    }
  }

  /** What submitting leads to: a refusal with the figures it quotes, an add, or an update. */
  datatype SubmitCommand =
    | Reject(available: int, attempted: int)
    | Add(draft: Draft)
    | Update(id: string, updates: Updates)

  /** The accepted fields, with the amount converted to euro cents. */
  datatype Entry = Entry(amountEUR: int, description: string, date: string, kind: TransactionType)

  /** Editing an existing transaction, rather than adding a new one, possibly pre-filled from another. */
  predicate IsEditMode(transaction: Option<Transaction>, reuse: Option<Transaction>)
  {
    transaction.Some? && reuse.None?
  }

  /** The amount stored: positive for a deposit, negative for a withdrawal. */
  function SignedAmount(e: Entry): int
  {
    if e.kind == Deposit then e.amountEUR else -e.amountEUR
  }

  /** The balance the withdrawal is checked against: without the edited transaction when editing. */
  function AdjustedBalance(currentBalance: int, transaction: Option<Transaction>, reuse: Option<Transaction>): int
  {
    if IsEditMode(transaction, reuse) then currentBalance - transaction.value.amount else currentBalance
  }

  function Abs(x: int): nat
  {
    if x < 0 then -x else x
  }

  /** The update an edit sends: every field of the entry. */
  function FullUpdate(d: Draft): Updates
  {
    Updates(Some(d.date), Some(d.amount), Some(d.description), Some(d.kind))
  }

  /** The decision `onSubmit` takes. */
  function SubmitDecision(e: Entry, currentBalance: int, transaction: Option<Transaction>, reuse: Option<Transaction>): SubmitCommand
  {
    var amount := SignedAmount(e);
    var adjusted := AdjustedBalance(currentBalance, transaction, reuse);
    if e.kind == Withdrawal && adjusted + amount < 0 then Reject(adjusted, Abs(amount))
    else
      var d := Draft(e.date, amount, e.description, e.kind);
      if IsEditMode(transaction, reuse) then Update(transaction.value.id, FullUpdate(d))
      else Add(d)
  }

  /**
   * `onSubmit`: signs the amount; a withdrawal that would take the adjusted
   * balance below zero is refused; otherwise an edit updates the original
   * transaction and anything else, a re-used one included, adds a new one.
   */
  method OnSubmit(e: Entry, currentBalance: int, transaction: Option<Transaction>, reuse: Option<Transaction>)
    returns (cmd: SubmitCommand)
    ensures cmd == SubmitDecision(e, currentBalance, transaction, reuse)
  {
    var transactionAmount := if e.kind == Deposit then e.amountEUR else -e.amountEUR;
    if e.kind == Withdrawal {
      var adjustedBalance := if IsEditMode(transaction, reuse) then currentBalance - transaction.value.amount
        else currentBalance;
      var newBalance := adjustedBalance + transactionAmount;
      if newBalance < 0 {
        return Reject(adjustedBalance, Abs(transactionAmount));
      }
    }
    var d := Draft(e.date, transactionAmount, e.description, e.kind);
    if IsEditMode(transaction, reuse) {
      cmd := Update(transaction.value.id, FullUpdate(d));
    } else {
      cmd := Add(d);
    }
  }

  /**
   * The three outcomes: a refusal exactly for a withdrawal that overdraws the
   * adjusted balance, quoting that balance and the amount; otherwise an update
   * of the original id exactly in edit mode, and an add of the signed entry
   * otherwise.
   */
  lemma SubmitOutcomes(e: Entry, currentBalance: int, transaction: Option<Transaction>, reuse: Option<Transaction>)
    ensures var cmd := SubmitDecision(e, currentBalance, transaction, reuse);
      var adjusted := AdjustedBalance(currentBalance, transaction, reuse);
      && (cmd.Reject? <==> e.kind == Withdrawal && adjusted + SignedAmount(e) < 0)
      && (cmd.Reject? ==> cmd.available == adjusted && cmd.attempted == Abs(e.amountEUR))
      && (cmd.Update? <==> !cmd.Reject? && IsEditMode(transaction, reuse))
      && (cmd.Update? ==>
            cmd.id == transaction.value.id
            && cmd.updates == FullUpdate(Draft(e.date, SignedAmount(e), e.description, e.kind)))
      && (cmd.Add? <==> !cmd.Reject? && !IsEditMode(transaction, reuse))
      && (cmd.Add? ==> cmd.draft == Draft(e.date, SignedAmount(e), e.description, e.kind))
  {
  }

  /** A deposit is never refused. */
  lemma DepositNeverRejected(e: Entry, currentBalance: int, transaction: Option<Transaction>, reuse: Option<Transaction>)
    requires e.kind == Deposit
    ensures !SubmitDecision(e, currentBalance, transaction, reuse).Reject?
  {
  }

  /**
   * For a positive entered amount, the signed amount passes the amount
   * validator, and a withdrawal is refused exactly when the withdrawal-balance
   * validator refuses it against the adjusted balance.
   */
  lemma SubmitAgreesWithValidators(e: Entry, currentBalance: int, transaction: Option<Transaction>, reuse: Option<Transaction>)
    requires e.amountEUR > 0
    ensures ValidateTransactionAmount(SignedAmount(e), e.kind).Valid?
    ensures e.kind == Withdrawal ==>
      var adjusted := AdjustedBalance(currentBalance, transaction, reuse);
      (SubmitDecision(e, currentBalance, transaction, reuse).Reject?
       <==> ValidateWithdrawalBalance(SignedAmount(e), adjusted).Invalid?)
  {
  }

  /**
   * A withdrawal the form lets through never leaves the store's balance below
   * zero: neither the add it sends nor, when the edited transaction is the
   * store's record with that id and ids are distinct, the update.
   */
  lemma AcceptedWithdrawalKeepsBalance(
    e: Entry, ts: seq<Transaction>, transaction: Option<Transaction>, reuse: Option<Transaction>,
    id: string, createdAt: int, k: nat)
    requires e.kind == Withdrawal
    requires !SubmitDecision(e, Balance(ts), transaction, reuse).Reject?
    requires IsEditMode(transaction, reuse) ==> k < |ts| && ts[k] == transaction.value
    requires forall i, j :: 0 <= i < j < |ts| ==> ts[i].id != ts[j].id
    ensures var cmd := SubmitDecision(e, Balance(ts), transaction, reuse);
      && (cmd.Add? ==> Balance(ts + [Stamp(cmd.draft, id, createdAt)]) >= 0)
      && (cmd.Update? ==> Balance(UpdateId(ts, cmd.id, cmd.updates)) >= 0)
  {
    var cmd := SubmitDecision(e, Balance(ts), transaction, reuse);
    if cmd.Add? {
      BalanceAppend(ts, Stamp(cmd.draft, id, createdAt));
    } else {
      var d := Draft(e.date, SignedAmount(e), e.description, e.kind);
      assert ts[k] in ts;
      assert FindIndex(ts, cmd.id) == k by {
        var f := FindIndex(ts, cmd.id);
        assert ts[f].id == ts[k].id;
      }
      UpdateFirstIsUpdateAll(ts, cmd.id, cmd.updates);
      MergeFullUpdate(ts[k], d);
      BalanceReplace(ts, k, Merge(ts[k], cmd.updates));
    }
  }
}
