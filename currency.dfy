/** Currency codes and the symbols shown before amounts. */
module Currency {

  const DefaultCurrency: string := "EUR"

  /** The codes the currency selector offers. */
  const SelectableCurrencies: seq<string> := ["EUR", "USD", "GBP", "KES"]

  /** `CURRENCY_SYMBOL`. */
  const CurrencySymbols: map<string, string> :=
    map["EUR" := "€", "USD" := "$", "GBP" := "£", "KES" := "KSh"]

  /** `getCurrencySymbol`: the table entry, or the code itself for an unknown code. */
  function GetCurrencySymbol(currency: string := DefaultCurrency): (symbol: string)
    ensures currency in CurrencySymbols ==> symbol == CurrencySymbols[currency]
    ensures currency !in CurrencySymbols ==> symbol == currency
  {
    if currency in CurrencySymbols then CurrencySymbols[currency] else currency
  }

  /** Every code the selector offers has its own symbol, so the fallback is never used for one. */
  lemma SelectableCodesHaveSymbols()
    ensures forall c :: c in SelectableCurrencies ==> c in CurrencySymbols
    ensures forall c, d ::
      c in SelectableCurrencies && d in SelectableCurrencies && c != d ==>
        GetCurrencySymbol(c) != GetCurrencySymbol(d)
  {
  }

  /** Called without an argument, the lookup gives the euro sign. */
  lemma DefaultSymbolIsEuro()
    ensures GetCurrencySymbol() == "€"
  {
  }
}
