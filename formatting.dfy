/** Display helpers: amounts with a currency symbol, colour classes, input dates. */
module Formatting {
  import opened Wrappers
  import opened Numbers
  import opened Currency

  /**
   * `formatCurrency`: the currency symbol, then `Math.abs(amount).toFixed(2)`.
   * The sign is dropped; colour carries it instead.
   */
  function FormatCurrency(cents: int, currency: string := DefaultCurrency): (r: string)
    ensures var symbol := GetCurrencySymbol(currency);
      && |r| >= |symbol| + 4
      && r[..|symbol|] == symbol
      && r[|r| - 3] == '.'
      && AllDigits(r[|symbol|..|r| - 3]) && AllDigits(r[|r| - 2..])
  {
    var symbol := GetCurrencySymbol(currency);
    var digits := Fixed2(if cents < 0 then -cents else cents);
    var r := symbol + digits;
    assert r[|symbol|..|r| - 3] == digits[..|digits| - 3];
    assert r[|r| - 2..] == digits[|digits| - 2..];
    r
  }

  /** An amount and its negation are shown the same way. */
  lemma FormatCurrencyIgnoresSign(cents: int, currency: string)
    ensures FormatCurrency(cents, currency) == FormatCurrency(-cents, currency)
  {
  }

  /** The text after the symbol reads back as the magnitude of the amount. */
  lemma FormatCurrencyReadsBack(cents: int, currency: string)
    ensures var symbol := GetCurrencySymbol(currency);
      ParseCents(FormatCurrency(cents, currency)[|symbol|..]) == Some(if cents < 0 then -cents else cents)
  {
    var symbol := GetCurrencySymbol(currency);
    var m := if cents < 0 then -cents else cents;
    assert FormatCurrency(cents, currency)[|symbol|..] == Fixed2(m);
    Fixed2RoundTrip(m);
  }

  /** Without a currency the output starts with the euro sign. */
  lemma FormatCurrencyDefaultsToEuro(cents: int)
    ensures FormatCurrency(cents)[..1] == "€"
  {
  }

  /** `getAmountColorClass`. */
  function AmountColorClass(cents: int): (cls: string)
    ensures cls == "text-income" <==> cents > 0
    ensures cls == "text-expense" <==> cents < 0
    ensures cls == "text-text" <==> cents == 0
  {
    if cents > 0 then "text-income" else if cents < 0 then "text-expense" else "text-text"
  }

  /** `formatDateForInput` on a string: the string as it is. */
  function FormatDateForInput(date: string): (r: string)
    ensures r == date
  {
    date
  }
}
