/**
 * `CurrencyService`: a rate table built once from the decoded JSON rates, and read-only
 * lookups on it. Rates are exact reals.
 */
module Currency {
  import opened Wrappers
  import opened PhpString
  import opened OrderedMap

  /** `$baseCurrency`. */
  const BaseCurrency: string := "INR"

  /** The constructor's `array_merge(['INR' => 1], $rates)`. */
  function RateTable(rates: Entries<real>): Entries<real> {
    Merge([(BaseCurrency, 1.0)], rates)
  }

  /** `getAvailableCurrencies`. */
  function AvailableCurrencies(table: Entries<real>): seq<string> {
    Keys(table)
  }

  /** `getExchangeRate`: the rate of the upper-cased code, `null` when absent. */
  function GetExchangeRate(table: Entries<real>, currency: string): Option<real> {
    Get(table, ToUpper(currency))
  }

  /**
   * `convert`: the code is looked up exactly as given (not upper-cased); an absent code gives
   * `null`, the base currency gives the amount back, any other code the amount times its rate.
   */
  function Convert(table: Entries<real>, amount: real, toCurrency: string): (r: Option<real>)
    ensures r.None? <==> toCurrency !in Keys(table)
    ensures r.Some? && toCurrency == BaseCurrency ==> r.value == amount
    ensures r.Some? && toCurrency != BaseCurrency ==> r.value == amount * Get(table, toCurrency).value
  {
    match Get(table, toCurrency)
    case None => None
    case Some(rate) => if toCurrency == BaseCurrency then Some(amount) else Some(amount * rate)
  }

  /** `isValidCurrency`: the upper-cased code is in the table. */
  predicate IsValidCurrency(table: Entries<real>, currency: string) {
    ToUpper(currency) in Keys(table)
  }

  /** `getValidationRulesArray`: the codes in table order, joined by `,`. */
  function ValidationRulesArray(table: Entries<real>): string {
    Implode(",", AvailableCurrencies(table))
  }

  // ---------------------------------------------------------------------------
  // Properties of the rate table

  /** `INR` is always the first code, whatever the JSON holds. */
  lemma RateTableStartsWithBase(rates: Entries<real>)
    ensures |AvailableCurrencies(RateTable(rates))| >= 1
    ensures AvailableCurrencies(RateTable(rates))[0] == BaseCurrency
    ensures AvailableCurrencies(RateTable(rates)) == [BaseCurrency] + NewKeys([BaseCurrency], rates)
  {
    MergeKeys([(BaseCurrency, 1.0)], rates);
    assert Keys([(BaseCurrency, 1.0)]) == [BaseCurrency];
  }

  /**
   * The base rate is 1 unless the JSON gives one, which then overrides it in the first
   * position; every other code has exactly its JSON rate.
   */
  lemma RateTableRates(rates: Entries<real>, code: string)
    requires DistinctKeys(rates)
    ensures code != BaseCurrency ==> Get(RateTable(rates), code) == Get(rates, code)
    ensures code == BaseCurrency ==>
      Get(RateTable(rates), code) == if code in Keys(rates) then Get(rates, code) else Some(1.0)
  {
    MergeGet([(BaseCurrency, 1.0)], rates, code);
  }

  /** The table holds each code once. */
  lemma RateTableDistinct(rates: Entries<real>)
    ensures DistinctKeys(RateTable(rates))
  {
    MergeDistinct([(BaseCurrency, 1.0)], rates);
  }

  /** Converting into the base currency is the identity for every table built by the constructor. */
  lemma ConvertBase(rates: Entries<real>, amount: real)
    ensures Convert(RateTable(rates), amount, BaseCurrency) == Some(amount)
  {
    RateTableStartsWithBase(rates);
  }

  /** `isValidCurrency` and `getExchangeRate` agree: a code is valid exactly when it has a rate. */
  lemma ValidIffRate(table: Entries<real>, currency: string)
    ensures IsValidCurrency(table, currency) <==> GetExchangeRate(table, currency).Some?
  {
  }

  /** Upper-casing is all the difference: a code valid in lower case need not convert. */
  lemma ValidButNotConvertible()
    ensures IsValidCurrency(RateTable([("USD", 83.0)]), "usd")
    ensures Convert(RateTable([("USD", 83.0)]), 1.0, "usd") == None
  {
    var table := RateTable([("USD", 83.0)]);
    RateTableStartsWithBase([("USD", 83.0)]);
    assert Keys([("USD", 83.0)]) == ["USD"];
    NewKeysOfFresh([BaseCurrency], [("USD", 83.0)]);
    assert AvailableCurrencies(table) == ["INR", "USD"];
    assert ToUpper("usd") == "USD";
  }

  /** When no code contains `,`, splitting the rule string on `,` gives back the codes in order. */
  lemma ValidationRulesSplit(rates: Entries<real>)
    requires forall i :: 0 <= i < |rates| ==> ',' !in rates[i].0
    ensures Explode(',', ValidationRulesArray(RateTable(rates))) == AvailableCurrencies(RateTable(rates))
  {
    var codes := AvailableCurrencies(RateTable(rates));
    RateTableStartsWithBase(rates);
    forall i | 0 <= i < |codes| ensures ',' !in codes[i] {
      if i > 0 {
        NewKeysFrom([BaseCurrency], rates, codes[i]);
      }
    }
    ExplodeImplode(',', codes);
  }

  /** A code the rule string lists (and that the validator therefore admits) always converts. */
  lemma ListedCurrencyConverts(rates: Entries<real>, code: string, amount: real)
    requires forall i :: 0 <= i < |rates| ==> ',' !in rates[i].0
    requires code in Explode(',', ValidationRulesArray(RateTable(rates)))
    ensures Convert(RateTable(rates), amount, code).Some?
  {
    ValidationRulesSplit(rates);
  }
}
