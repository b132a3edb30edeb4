/** The `Currency` facade: service and currency selection and the rate refresh,
    as effects on the configuration store. */
module CurrencyProvider {
  import opened Wrappers
  import opened ConfigStore
  import opened ExchangeServices

  /** What a provider's `getExchangeRate` resolves with. */
  datatype Quote = Quote(symbol: string, rate: real)

  /** Whatever a provider rejects with; it is passed on unchanged. */
  datatype ProviderError = ProviderError(reason: string)

  /** `CurrencyExchangeRate`: the record a refresh resolves with. */
  datatype ExchangeRate = ExchangeRate(code: Option<Value>, symbol: string, rate: real)

  /** The network call `getExchangeRate(currency)` of the chosen provider's
      client, taken as a parameter. */
  type RateOracle = (Provider, Option<Value>) -> Result<Quote, ProviderError>

  /** `updateCurrencyRate` on a store: ask the provider chosen by "exchange" for
      the rate of the currency stored under "currency". On success the answer's
      symbol and rate are stored under "symbol" and "rate", nothing else
      changes, and the record carries the currency that was asked for; on
      failure the error is passed on and the store is left as it was. */
  function Refresh(store: Store, rates: RateOracle): (out: (Result<ExchangeRate, ProviderError>, Store))
    ensures var asked := rates(ResolveProvider(Get(store, ExchangeKey)), Get(store, CurrencyKey));
            asked.Failure? ==> out.0 == Failure(asked.error) && out.1 == store
    ensures var asked := rates(ResolveProvider(Get(store, ExchangeKey)), Get(store, CurrencyKey));
            asked.Success? ==>
              && out.0 == Success(ExchangeRate(Get(store, CurrencyKey), asked.value.symbol, asked.value.rate))
              && out.1.Keys == store.Keys + {SymbolKey, RateKey}
              && out.1[SymbolKey] == Text(asked.value.symbol)
              && out.1[RateKey] == Number(asked.value.rate)
              && (forall k :: k in store && k != SymbolKey && k != RateKey ==> out.1[k] == store[k])
  {
    var currency := Get(store, CurrencyKey);
    match rates(ResolveProvider(Get(store, ExchangeKey)), currency)
    case Failure(e) => (Failure(e), store)
    case Success(q) =>
      (Success(ExchangeRate(currency, q.symbol, q.rate)),
       store[SymbolKey := Text(q.symbol)][RateKey := Number(q.rate)])
  }

  /** A refresh does not touch the selection it is based on, so refreshing again
      with the same provider answers asks the same question and changes nothing
      more. */
  lemma RefreshRepeatable(store: Store, rates: RateOracle)
    ensures var (r, after) := Refresh(store, rates);
            Get(after, ExchangeKey) == Get(store, ExchangeKey) &&
            Get(after, CurrencyKey) == Get(store, CurrencyKey) &&
            Refresh(after, rates) == (r, after)
  {
    var (r, after) := Refresh(store, rates);
    assert Get(after, ExchangeKey) == Get(store, ExchangeKey);
    assert Get(after, CurrencyKey) == Get(store, CurrencyKey);
    var asked := rates(ResolveProvider(Get(store, ExchangeKey)), Get(store, CurrencyKey));
    assert rates(ResolveProvider(Get(after, ExchangeKey)), Get(after, CurrencyKey)) == asked;
    var (r', after') := Refresh(after, rates);
    if asked.Success? {
      assert after'.Keys == after.Keys;
      assert forall k :: k in after ==> after'[k] == after[k];
      assert after' == after;
    }
  }

  class Currency {
    /** The configuration store the facade reads and writes. */
    var config: Store

    constructor (config: Store)
      ensures this.config == config
    {
      this.config := config;
    }

    /** `getSelectedService`: what is stored under "exchange", or nothing
      (JavaScript `undefined`) when no service was ever selected. */
    function GetSelectedService(): (v: Option<Value>)
      reads this
      ensures v == None <==> ExchangeKey !in config
      ensures v.Some? ==> config[ExchangeKey] == v.value
    {
      Get(config, ExchangeKey)
    }

    /** `getExchangeService`: the provider for the stored service code,
      BitcoinAverage exactly when "bitcoinaverage" is stored. */
    function GetExchangeService(): (p: Provider)
      reads this
      ensures p == BitcoinAverage <==> ExchangeKey in config && config[ExchangeKey] == Text("bitcoinaverage")
    {
      ResolveProvider(GetSelectedService())
    }

    /** `getSelectedCurrency`: what is stored under "currency", or nothing. */
    function GetSelectedCurrency(): (v: Option<Value>)
      reads this
      ensures v == None <==> CurrencyKey !in config
      ensures v.Some? ==> config[CurrencyKey] == v.value
    {
      Get(config, CurrencyKey)
    }

    /** `getSelectedCurrencyRate`, before `parseFloat`: what is stored under
      "rate", or nothing. */
    function GetSelectedCurrencyRate(): (v: Option<Value>)
      reads this
      ensures v == None <==> RateKey !in config
      ensures v.Some? ==> config[RateKey] == v.value
    {
      Get(config, RateKey)
    }

    /** `setSelectedService`: stores the code under "exchange", unchecked. */
    method SetSelectedService(code: string)
      modifies this
      ensures config == old(config)[ExchangeKey := Text(code)]
      ensures GetSelectedService() == Some(Text(code))
      ensures GetExchangeService() == ResolveProvider(Some(Text(code)))
    {
      config := config[ExchangeKey := Text(code)];
    }

    /** `setSelectedCurrency`: stores the code under "currency", then refreshes
      the rate for it; the refresh's outcome is not reported. */
    method SetSelectedCurrency(code: string, rates: RateOracle)
      modifies this
      ensures config == Refresh(old(config)[CurrencyKey := Text(code)], rates).1
      ensures GetSelectedCurrency() == Some(Text(code))
      ensures GetSelectedService() == old(GetSelectedService())
    {
      config := config[CurrencyKey := Text(code)];
      var _ := UpdateCurrencyRate(rates);
    }

    /** `updateCurrencyRate` */
    method UpdateCurrencyRate(rates: RateOracle) returns (r: Result<ExchangeRate, ProviderError>)
      modifies this
      ensures (r, config) == Refresh(old(config), rates)
    {
      var service := GetExchangeService();
      var currency := GetSelectedCurrency();
      var answer := rates(service, currency);
      match answer
      case Failure(e) =>
        r := Failure(e);
      case Success(q) =>
        config := config[SymbolKey := Text(q.symbol)];
        config := config[RateKey := Number(q.rate)];
        r := Success(ExchangeRate(currency, q.symbol, q.rate));
    }
  }
}
