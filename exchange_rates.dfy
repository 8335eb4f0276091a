/**
 * Exchange rates against the euro: conversion of a euro amount, the rate of
 * one currency, the rates used when the rate source cannot be reached, and the
 * five-minute cache in front of that source. The clock reading and the outcome
 * of the request to the rate source are inputs.
 */
module ExchangeRates {
  import opened Wrappers

  /** Rates by currency code: units of the currency per euro. */
  type Rates = map<string, real>

  /** How long cached rates stay usable, in milliseconds: five minutes. */
  const CacheDuration: int := 5 * 60 * 1000

  /** The rates used when the rate source cannot be reached. */
  function FallbackRates(): (rates: Rates)
    ensures rates.Keys == {"EUR", "USD", "GBP", "KES"}
    ensures rates["EUR"] == 1.0
  {
    map["EUR" := 1.0, "USD" := 1.08, "GBP" := 0.85, "KES" := 140.0]
  }

  /** What the request to the rate source gave: its rate table, or a failure of any kind. */
  datatype FetchOutcome = Fetched(data: Rates) | FetchFailed

  /**
   * `fetchExchangeRates`: the fetched table over a euro rate of 1, which a euro
   * entry in the table overrides; the fallback table when the request failed.
   */
  function FetchRates(outcome: FetchOutcome): (rates: Rates)
    ensures "EUR" in rates
    ensures outcome.FetchFailed? ==> rates == FallbackRates()
    ensures outcome.Fetched? ==>
      && rates.Keys == outcome.data.Keys + {"EUR"}
      && (forall c :: c in outcome.data ==> rates[c] == outcome.data[c])
      && ("EUR" !in outcome.data ==> rates["EUR"] == 1.0)
  {
    match outcome
    case Fetched(data) => map["EUR" := 1.0] + data
    case FetchFailed => FallbackRates()
  }

  /**
   * `convertCurrency`: euros into the target currency. The euro itself, and a
   * currency whose rate is missing or zero, keep the euro amount.
   */
  function ConvertCurrency(amountEUR: real, targetCurrency: string, rates: Rates): (r: real)
    ensures targetCurrency == "EUR" ==> r == amountEUR
    ensures targetCurrency !in rates || rates[targetCurrency] == 0.0 ==> r == amountEUR
  {
    if targetCurrency == "EUR" then amountEUR
    else if targetCurrency !in rates || rates[targetCurrency] == 0.0 then amountEUR
    else amountEUR * rates[targetCurrency]
  }

  /** `getExchangeRate`: 1 for the euro and for a missing currency, otherwise the table's rate, even 0. */
  function GetExchangeRate(currency: string, rates: Rates): (rate: real)
    ensures currency == "EUR" || currency !in rates ==> rate == 1.0
    ensures currency != "EUR" && currency in rates ==> rate == rates[currency]
  {
    if currency == "EUR" then 1.0
    else if currency in rates then rates[currency]
    else 1.0
  }

  /**
   * Converting is multiplying by the currency's rate, except for a currency
   * listed with a zero rate: conversion keeps the amount there, while the rate
   * read back is 0.
   */
  lemma ConvertIsScaleByRate(amountEUR: real, currency: string, rates: Rates)
    ensures ConvertCurrency(amountEUR, currency, rates) == amountEUR * GetExchangeRate(currency, rates)
      <==> currency == "EUR" || currency !in rates || rates[currency] != 0.0 || amountEUR == 0.0
  {
  }

  /** Converting is linear in the amount. */
  lemma ConvertIsLinear(a: real, b: real, currency: string, rates: Rates)
    ensures ConvertCurrency(a + b, currency, rates)
      == ConvertCurrency(a, currency, rates) + ConvertCurrency(b, currency, rates)
  {
    if currency != "EUR" && currency in rates && rates[currency] != 0.0 {
      var rate := rates[currency];
      assert (a + b) * rate == a * rate + b * rate;
    }
  }

  /** Whether a rate table cached at `timestamp` may still be used at `now`. */
  predicate IsFresh(timestamp: int, now: int)
  {
    now - timestamp < CacheDuration
  }

  /** The rate cache: the stored table and the time it was stored. */
  class RateCache {
    var cached: Option<Rates>
    var timestamp: Option<int>

    constructor ()
      ensures cached == None && timestamp == None
    {
      cached := None;
      timestamp := None;
    }

    /** `getCachedRates`: the stored table, when both it and its time are stored and it is fresh. */
    function CachedRates(now: int): (r: Option<Rates>)
      reads this
      ensures r.Some? <==> cached.Some? && timestamp.Some? && IsFresh(timestamp.value, now)
      ensures r.Some? ==> r == cached
    {
      if cached.Some? && timestamp.Some? && IsFresh(timestamp.value, now) then cached else None
    }

    /** `cacheRates`: stores the table with the current time. */
    method CacheRates(rates: Rates, now: int)
      modifies this
      ensures cached == Some(rates) && timestamp == Some(now)
    {
      cached := Some(rates);
      timestamp := Some(now);
    }

    /**
     * `getExchangeRates`: a fresh cached table is returned as it is and the
     * source is not consulted; otherwise the source's table, or the fallback
     * table, is stored with the current time and returned.
     */
    method GetExchangeRates(now: int, outcome: FetchOutcome) returns (rates: Rates)
      modifies this
      ensures old(CachedRates(now)).Some? ==>
        rates == old(CachedRates(now)).value && cached == old(cached) && timestamp == old(timestamp)
      ensures old(CachedRates(now)).None? ==>
        rates == FetchRates(outcome) && cached == Some(rates) && timestamp == Some(now)
      ensures CachedRates(now) == Some(rates)
    {
      var fromCache := CachedRates(now);
      if fromCache.Some? {
        return fromCache.value;
      }
      rates := FetchRates(outcome);
      CacheRates(rates, now);
    }

    /**
     * Two reads in a row: when the first one had to go to the source, a second
     * one less than five minutes later gets the same table back, whatever the
     * source would have said.
     */
    method ReadTwice(now1: int, outcome1: FetchOutcome, now2: int, outcome2: FetchOutcome)
      returns (rates1: Rates, rates2: Rates)
      modifies this
      ensures old(CachedRates(now1)).None? && now2 - now1 < CacheDuration ==>
        rates1 == FetchRates(outcome1) && rates2 == rates1
    {
      rates1 := GetExchangeRates(now1, outcome1);
      rates2 := GetExchangeRates(now2, outcome2);
    }
  }
}
