# Currency facade of the FairPocket wallet, modelled in Dafny

The `Currency` provider of the wallet app lets the UI pick an exchange-rate
service (Blockchain.info or BitcoinAverage), select a fiat currency, refresh
and cache its exchange rate in the configuration store, look up a display
symbol for a currency code, and format amounts for display. This project
models that provider:

- `NumberFormat.dfy` — the string part of `formatNumber`: the first `.` of
  the fixed-point rendering becomes the separator, and the source's `while`
  loop drops trailing `'0'` characters, never at or before index
  `indexOf(separator) + minDecimals`. The input is the string `toFixed`
  produced. `IndexOf` follows JavaScript's `indexOf` (first occurrence, `-1`
  when absent). The loop is a method proved against the specification
  function `TrimTrailingZeros`, whose contract is shown to determine it.
- `CurrencySymbols.dfy` — the `CURRENCY_SYMBOLS` table and
  `getCurrencySymbol`, which falls back to the code itself.
- `ExchangeServices.dfy` — the two offered services and the provider choice
  of `getExchangeService`, which falls back to Blockchain.
- `CurrencyProvider.dfy` — the class `Currency` over the configuration store
  (a `map<string, Value>` field), with `setSelectedService`,
  `setSelectedCurrency` and `updateCurrencyRate` as methods that change it.
  The provider's `getExchangeRate` is a parameter (`RateOracle`) that
  answers with a quote or an error. `Refresh` is the pure specification of a
  refresh.
- `ConfigStore.dfy`, `Wrappers.dfy` — stored values, key names, `Option`
  and `Result`.

One behaviour is kept as the code has it. With `minDecimals` 0 every
fraction digit can be trimmed, and the separator stays as the last
character: `"1.00"` with 2 and 0 gives `"1."` (`TrailingSeparatorKept`).
At least `minDecimals` digits remain after the separator when the string is
a well-formed fixed-point rendering and the separator is one character that
is neither a digit nor `-` and lies in the Basic Multilingual Plane
(`FormattedFixedPoint`). Otherwise the code bounds the cut by
`indexOf(separator) + minDecimals`, which keeps fewer digits:

- a separator of several characters keeps only `minDecimals - |separator| + 1`
  digits: `"1.5000"` with `", "` and (4, 2) gives `"1, 5"`
  (`MultiCharacterSeparator`);
- a missing separator gives an index of `-1`;
- a separator that also occurs earlier, such as a `-` separator on a negative
  amount, is found too early.

The model follows the code in all these cases.

## Model

| member | source | states |
|---|---|---|
| `NumberFormat.IndexOfFrom` | app/providers/currency/currency.ts:129 | the result is `-1` or an index at or after the start where the pattern occurs, and the pattern occurs nowhere between the start and the result (nowhere at all when `-1`) |
| `NumberFormat.TrimTrailingZeros` | app/providers/currency/currency.ts:129-139 | the trimmed string is a prefix of its input; every removed character is `'0'`; if anything was removed, the length is still at least `bound + 1`; trimming stops only at the bound, at a last character other than `'0'`, or at the empty string |
| `NumberFormat.TrimTrailingZerosUnique` | app/providers/currency/currency.ts:129-139 | any prefix with those four properties is the trimmed string, so they specify the trim completely |
| `NumberFormat.TrimTrailingZerosIdempotent` | app/providers/currency/currency.ts:131-134 | trimming an already trimmed string changes nothing |
| `NumberFormat.ReplaceFirstDot` | app/providers/currency/currency.ts:124 | a string without `.` comes back unchanged; otherwise the first `.` is replaced by the separator and the rest is kept |
| `NumberFormat.Formatted` | app/providers/currency/currency.ts:123-143 | both bounds default to 2; with `minDecimals >= maxDecimals` the result is the separator-substituted string, untrimmed; in every case it is a prefix of that string, only `'0'`s were removed, and if anything was removed its length is at least `indexOf(separator) + minDecimals + 1`; when trimming applies it stopped at that bound, at a last character other than `'0'`, or at the empty string, so the contract determines the result |
| `NumberFormat.FormatNumber` | app/providers/currency/currency.ts:123-143 | the source's loop, with `endIndex` kept at the last index and both bounds defaulting to 2, returns exactly `Formatted` of its inputs |
| `NumberFormat.SubstitutedFixedPoint` | app/providers/currency/currency.ts:124-129 | on `int "." frac`, a one-character separator that is neither a digit nor `-` replaces the point, and `indexOf` then finds it right after the integer part |
| `NumberFormat.FormattedFixedPoint` | app/providers/currency/currency.ts:123-143 | on a well-formed fixed-point string and a one-character separator that is not a digit, not `-` and inside the Basic Multilingual Plane, the result is the integer part, the separator and a prefix of the fraction digits: all `maxDecimals` digits when `minDecimals >= maxDecimals`, otherwise at least `minDecimals`; only `'0'` digits are dropped; the last kept digit is not `'0'` unless exactly `minDecimals` remain |
| `NumberFormat.TrailingSeparatorKept` | app/providers/currency/currency.ts:129-139 | `"1.00"` with separator `.`, max 2 and min 0 becomes `"1."`: the separator is left at the end |
| `NumberFormat.TrimsDownToMinDecimals` | app/providers/currency/currency.ts:129-139 | `"1.5000"` with (4, 2) becomes `"1.50"` |
| `NumberFormat.KeepsNonZeroDigits` | app/providers/currency/currency.ts:124-139 | `"1.2345"` with `,` and (4, 2) becomes `"1,2345"` |
| `NumberFormat.EqualBoundsKeepAllDigits` | app/providers/currency/currency.ts:126-127 | `"1.00"` with (2, 2) stays `"1.00"` |
| `NumberFormat.MultiCharacterSeparator` | app/providers/currency/currency.ts:129-139 | `"1.5000"` with `", "` and (4, 2) becomes `"1, 5"`; with the default bounds `"1.5000"` is returned untrimmed |
| `CurrencySymbols.GetCurrencySymbol` | app/providers/currency/currency.ts:112-118 | total; a code outside the sixteen known codes is returned unchanged; a known code gets a glyph of one or two characters that differs from the code |
| `CurrencySymbols.SymbolTableEntries` | app/providers/currency/currency.ts:14-31 | the exact glyph for each of the sixteen codes USD … BTC |
| `ExchangeServices.AvailableServices` | app/providers/currency/currency.ts:39-41 | always the same two services in declaration order: `blockchain`/Blockchain.info, then `bitcoinaverage`/BitcoinAverage |
| `ExchangeServices.ResolveProvider` | app/providers/currency/currency.ts:50-56 | BitcoinAverage exactly when the stored code is `"bitcoinaverage"`; Blockchain for `"blockchain"`, for nothing stored and for any other value |
| `ExchangeServices.ResolveOfferedAndDefault` | app/providers/currency/currency.ts:9-12 | selecting an offered service resolves to that service; an unknown code resolves like no selection, to the first offered service |
| `CurrencyProvider.Refresh` | app/providers/currency/currency.ts:92-110 | the provider chosen by `exchange` is asked for the stored `currency`; on success the result carries that currency and the provider's symbol and rate, `symbol` and `rate` are written and no other key changes; on failure the provider's error is returned and the store is unchanged |
| `CurrencyProvider.RefreshRepeatable` | app/providers/currency/currency.ts:92-110 | a refresh leaves `exchange` and `currency` as they were, so a second refresh with the same provider answers gives the same result and store |
| `CurrencyProvider.Currency.constructor` | app/providers/currency/currency.ts:36-37 | the facade works on the given store |
| `CurrencyProvider.Currency.GetSelectedService` | app/providers/currency/currency.ts:43-45 | the value stored under `exchange`, and nothing exactly when that key was never set |
| `CurrencyProvider.Currency.GetSelectedCurrency` | app/providers/currency/currency.ts:61-63 | the value stored under `currency`, and nothing exactly when that key was never set |
| `CurrencyProvider.Currency.GetSelectedCurrencyRate` | app/providers/currency/currency.ts:65-69 | the value stored under `rate`, and nothing exactly when that key was never set |
| `CurrencyProvider.Currency.GetExchangeService` | app/providers/currency/currency.ts:47-59 | BitcoinAverage exactly when the store holds `"bitcoinaverage"` under `exchange` |
| `CurrencyProvider.Currency.SetSelectedService` | app/providers/currency/currency.ts:79-82 | the code is written, unchecked, under `exchange` and no other key changes; `GetSelectedService` then gives that code, and the provider is then the one `ResolveProvider` gives for that code |
| `CurrencyProvider.Currency.SetSelectedCurrency` | app/providers/currency/currency.ts:84-90 | the code is written under `currency`, then a refresh runs on the new store and its outcome is dropped; the selected currency is the new code and the service selection is unchanged |
| `CurrencyProvider.Currency.UpdateCurrencyRate` | app/providers/currency/currency.ts:92-110 | the returned outcome and the new store are exactly those of `Refresh` on the old store |

## Left out

- `toFixed` rounding and the float behaviour of `value`: the model starts from the fixed-point string `toFixed` produced. The `RangeError` that `toFixed` throws for `maxDecimals` outside 0..100 is not modelled either: the model returns a string for any `maxDecimals`.
- NumberFormat.Formatted: lengths and indices count characters, not the UTF-16 code units JavaScript counts. A separator outside the Basic Multilingual Plane is one character here and two units in JavaScript, so the model keeps one fraction digit more than the source (`"1.5000"` with `"\U{1F600}"` and (4, 2): source `"1😀5"`, model `"1😀50"`).
- NumberFormat.FormatNumber: the same difference as `Formatted`; its loop counts characters where the source's `length`, `substr` and `[endIndex]` count UTF-16 code units.
- CurrencyProvider.Currency.GetSelectedCurrencyRate: returns the raw stored value; the `parseFloat` the source applies to it is floating-point behaviour and is not modelled.
- JavaScript numbers: `maxDecimals`/`minDecimals` are integers (fractional values are not modelled), and a stored rate is a `real` that the model never computes with.
- Replacement patterns such as `$&` in `separator`: the separator is inserted literally.
- Angular dependency injection and the concrete Blockchain.info and BitcoinAverage clients: they are network code. The provider choice is a two-valued `Provider`, and the rate call is the `RateOracle` parameter.
- Asynchrony: fire-and-forget writes, `Promise.all`, the order in which writes complete, and racing refreshes. The writes are taken to be sequential and immediate.
- Configuration store failures: `get` and `set` always succeed in the model. The never-settling promises of `getExchangeService` and `getAvailableCurrencies` when `get` rejects are therefore not modelled either.
- `getAvailableCurrencies`: it passes the provider's answer through and has no logic of its own.
- The fluent `return this` of the setters.
- NumberFormat.FormattedFixedPoint: stated only for at least one fraction digit, `minDecimals >= 0` and a separator inside the Basic Multilingual Plane; the other inputs are covered by the general contracts of `Formatted`.
