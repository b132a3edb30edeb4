/** The static table of display glyphs and the lookup with its fallback. */
module CurrencySymbols {

  /** The sixteen currency codes the table knows. */
  const KnownCodes: set<string> :=
    {"USD", "EUR", "CRC", "GBP", "ILS", "INR", "JPY", "KRW",
     "NGN", "PHP", "PLN", "PYG", "THB", "UAH", "VND", "BTC"}

  /** `CURRENCY_SYMBOLS`: currency code to display glyph. */
  const Symbols: map<string, string> := map[
    "USD" := "$",
    "EUR" := "\U{20AC}",
    "CRC" := "\U{20A1}",
    "GBP" := "\U{00A3}",
    "ILS" := "\U{20AA}",
    "INR" := "\U{20B9}",
    "JPY" := "\U{00A5}",
    "KRW" := "\U{20A9}",
    "NGN" := "\U{20A6}",
    "PHP" := "\U{20B1}",
    "PLN" := "z\U{0142}",
    "PYG" := "\U{20B2}",
    "THB" := "\U{0E3F}",
    "UAH" := "\U{20B4}",
    "VND" := "\U{20AB}",
    "BTC" := "\U{0243}"
  ]

  /** `getCurrencySymbol`: total; a known code gets its short glyph, which
      differs from the code, and any other code is returned unchanged. */
  function GetCurrencySymbol(currency: string): (r: string)
    ensures currency !in KnownCodes ==> r == currency
    ensures currency in KnownCodes ==> r != currency && 1 <= |r| <= 2
  {
    if currency in Symbols then Symbols[currency] else currency
  }

  /** The glyph of each of the sixteen listed codes. */
  lemma SymbolTableEntries()
    ensures GetCurrencySymbol("USD") == "$"
    ensures GetCurrencySymbol("EUR") == "\U{20AC}"
    ensures GetCurrencySymbol("CRC") == "\U{20A1}"
    ensures GetCurrencySymbol("GBP") == "\U{00A3}"
    ensures GetCurrencySymbol("ILS") == "\U{20AA}"
    ensures GetCurrencySymbol("INR") == "\U{20B9}"
    ensures GetCurrencySymbol("JPY") == "\U{00A5}"
    ensures GetCurrencySymbol("KRW") == "\U{20A9}"
    ensures GetCurrencySymbol("NGN") == "\U{20A6}"
    ensures GetCurrencySymbol("PHP") == "\U{20B1}"
    ensures GetCurrencySymbol("PLN") == "z\U{0142}"
    ensures GetCurrencySymbol("PYG") == "\U{20B2}"
    ensures GetCurrencySymbol("THB") == "\U{0E3F}"
    ensures GetCurrencySymbol("UAH") == "\U{20B4}"
    ensures GetCurrencySymbol("VND") == "\U{20AB}"
    ensures GetCurrencySymbol("BTC") == "\U{0243}"
  {
  }
}
