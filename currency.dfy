// The supported-currency predicate and the fixed exchange-rate table.

module Currency {
  import opened Base

  const USD: string := "USD"
  const EUR: string := "EUR"
  const INR: string := "INR"

  /** The currencies an account may be opened in or a transfer may name. */
  function IsSupportedCurrency(currency: string): (r: bool)
    ensures r <==> currency == USD || currency == EUR || currency == INR
  {
    match currency
    case "USD" => true
    case "EUR" => true
    case "INR" => true
    case _ => false
  }

  /** Value of one unit of each currency, in rupees. */
  const FxRateINR: map<string, int> := map["INR" := 1, "USD" := 83, "EUR" := 90]

  /**
   * Converts `amount` minor units of `fromCurrency` into `toCurrency` at the
   * rate FxRateINR[from] / FxRateINR[to], rounding to the nearest whole unit
   * with halves rounded away from zero. `ok` is false when either currency has
   * no rate, and the amount is then 0.
   */
  function ConvertAmount(amount: int, fromCurrency: string, toCurrency: string): (r: (int, bool))
    ensures !r.1 ==> r.0 == 0
    ensures r.1 && amount >= 0 ==> r.0 >= 0
    ensures r.1 && amount <= 0 ==> r.0 <= 0
  {
    if fromCurrency !in FxRateINR || toCurrency !in FxRateINR then (0, false)
    else (RoundDiv(amount * FxRateINR[fromCurrency], FxRateINR[toCurrency]), true)
  }

  /** n / d rounded to the nearest integer, halves away from zero (Go's math.Round). */
  function RoundDiv(n: int, d: int): (q: int)
    requires d > 0
    ensures -d <= 2 * (n - q * d) <= d
    ensures n >= 0 ==> 0 <= q
    ensures n <= 0 ==> q <= 0
  {
    if n >= 0 then (2 * n + d) / (2 * d) else -((2 * -n + d) / (2 * d))
  }

  /** A conversion succeeds exactly for the supported currencies. */
  lemma ConvertibleIffSupported(amount: int, fromCurrency: string, toCurrency: string)
    ensures ConvertAmount(amount, fromCurrency, toCurrency).1
        <==> IsSupportedCurrency(fromCurrency) && IsSupportedCurrency(toCurrency)
  {
  }

  /**
   * A successful conversion is the nearest whole amount in the target
   * currency: it differs from the exact value by at most half a unit, and a
   * non-negative amount never becomes negative.
   */
  lemma ConvertAmountNearest(amount: int, fromCurrency: string, toCurrency: string)
    requires ConvertAmount(amount, fromCurrency, toCurrency).1
    ensures var to := ConvertAmount(amount, fromCurrency, toCurrency).0;
            var rf, rt := FxRateINR[fromCurrency], FxRateINR[toCurrency];
            -rt <= 2 * (amount * rf - to * rt) <= rt && (amount >= 0 ==> to >= 0)
  {
    var rf, rt := FxRateINR[fromCurrency], FxRateINR[toCurrency];
    assert rf >= 1 && rt >= 1;
    var to := RoundDiv(amount * rf, rt);
    if amount >= 0 {
      assert amount * rf >= 0;
    }
  }

  /** Same-currency conversion is the identity. */
  lemma ConvertSameCurrency(amount: int, currency: string)
    requires IsSupportedCurrency(currency)
    ensures ConvertAmount(amount, currency, currency) == (amount, true)
  {
    var d := FxRateINR[currency];
    assert d >= 1;
    var q := RoundDiv(amount * d, d);
    assert -d <= 2 * (amount * d - q * d) <= d;
    assert -d <= 2 * d * (amount - q) <= d;
  }
}
