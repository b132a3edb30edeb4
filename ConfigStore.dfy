/** The persisted key-value settings the currency facade reads and writes. */
module ConfigStore {
  import opened Wrappers

  /** A stored setting: the facade stores strings (service and currency codes,
      symbols) and the numeric exchange rate. */
  datatype Value = Text(text: string) | Number(number: real)

  type Store = map<string, Value>

  const ExchangeKey := "exchange"
  const CurrencyKey := "currency"
  const SymbolKey := "symbol"
  const RateKey := "rate"

  /** `config.get(key)`: the stored value, or `None` when the key was never set. */
  function Get(store: Store, key: string): Option<Value>
  {
    if key in store then Some(store[key]) else None
  }
}
