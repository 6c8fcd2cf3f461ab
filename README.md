# Real-estate catalogue: currency core, in Dafny

This project models the logic of a small real-estate catalogue site. The
site shows property prices, stored in Thai baht (THB), in a currency the
visitor picks.

- `Currency` (lib/currency.ts) models the fixed set of currency codes, taken
  from the rate file's keys `THB, USD, EUR, RUB` in that order.
- It models the validation of an exchange-rate table read from untyped JSON.
  This is a loop over the rate keys that stops at the first bad rate, and the
  error names that key.
- It models the default table, which is validated when the module loads.
- It models conversion from THB, which is the amount times the target rate.
- It models the finiteness guard of the currency formatter, and the
  composition that converts and then formats.
- `PropertyCard` (components/PropertyCard.tsx) models which contact channels
  a card shows, in which order. It also models each link's address, its
  caption, and whether the link opens a new tab.
- `HomePage` (app/page.tsx) models how the page picks its display currency
  from the cookie value, falling back to THB.
- `JsValues` holds the parts of JavaScript the code relies on. A number is a
  real when finite, or else is tagged NaN, +Infinity or -Infinity.
  Multiplication follows IEEE-754 for those special values. The module also
  has untyped values for `unknown`, truthiness, `typeof` and property reads.
- `Wrappers` has `Option`, `Result` and `Outcome`. A thrown error becomes a
  `Failure` that carries a structured `Error`. `Currency.Message` gives the
  exact text of each error.

Modelling choices:

- The default parameters (`locale`, `rates`) become `Option` parameters.
  `None` stands for an omitted or undefined argument.
- The rate file `exchange_rates.json` is not part of this model. Its contents,
  `RATES_FILE`, are THB 1, USD 0.0286, EUR 0.0263 and RUB 2.57. These values
  are the ones lib/currency.test.ts:64-71 implies for the default table.
  `DEFAULT_EXCHANGE_RATES` is that constant after validation, and the lemma
  `RatesFilePassesValidation` shows that this validation succeeds.
- `Intl.NumberFormat` is not modelled. It enters the two formatting functions
  as a parameter of type `Formatter`.
- The cookie read is not modelled. Its result enters `CurrentCurrency` as an
  `Option<string>`.
- A lookup of a key that is missing from a caller-supplied table gives
  `undefined` in JavaScript, and `x * undefined` is NaN. `RateFor` models
  that. A table without the target currency therefore makes
  `formatPriceFromThb` fail with the "amount" error.

Arrays pass the object guard on lib/currency.ts:47-49, because `typeof []`
is "object" and arrays are truthy. They are then rejected because their
`THB` property is undefined (`Currency.ArraysFailOnFirstKey`).

## Model

| member | source | states |
|---|---|---|
| JsValues.Mul | lib/currency.ts:86 | the product is finite exactly when both factors are, and is then the real product; NaN absorbs |
| JsValues.MulCommutes | lib/currency.ts:86 | the JavaScript product used for conversion is commutative, including its NaN and infinity cases |
| JsValues.Get | lib/currency.ts:55 | an own property of an object reads as its value; every other read gives undefined |
| Currency.InvalidRateMessageInjective | lib/currency.ts:58 | rate errors for different codes have different messages |
| Currency.Message | lib/currency.ts:25-103 | the shape error says "must be an object", a rate error's text contains the offending currency code, and an amount error's text contains the parameter name ("amountInThb", "amount") |
| Currency.IsFiniteNumber | lib/currency.ts:16-18 | true exactly for a number value that is neither NaN nor infinite |
| Currency.AssertAmountInThb | lib/currency.ts:23-27 | passes exactly for a finite amount; otherwise the error names "amountInThb" |
| Currency.IsCurrencyCode | lib/currency.ts:35-37 | true exactly for THB, USD, EUR and RUB |
| Currency.IsCurrencyCodeRejectsOthers | lib/currency.test.ts:50-56 | the four codes are accepted; "GBP", the case variant "thb" and "" are rejected |
| Currency.CodesAreDefaultTableKeys | lib/currency.ts:35-37 | a string is a supported code exactly when it is a key of the default table |
| Currency.PassesObjectGuard | lib/currency.ts:47-49 | the guard (refuse a falsy value or one whose typeof is not "object") lets through exactly objects and arrays; null, primitives and functions are refused |
| Currency.IsValidRate | lib/currency.ts:57 | a rate read passes exactly when it is a finite number greater than zero; a missing key (undefined), a string, NaN, an infinity, zero and negatives fail |
| Currency.FirstInvalidRate | lib/currency.ts:54-59 | returns the index of a key whose rate is invalid while all earlier ones are valid, or none exactly when every rate is valid |
| Currency.ValidatedRates | lib/currency.ts:46-65 | a shape error exactly for a value the guard refuses. Success exactly when every rate key has a positive finite rate. The result then holds exactly the rate keys, with the input's values, all positive and finite |
| Currency.ValidationNamesFirstInvalidKey | lib/currency.ts:54-59 | for an object, the rate error names c exactly when c is the first rate key, in file order, with an invalid rate |
| Currency.FirstInvalidRateReadsOnlyKeys | lib/currency.ts:54-55 | the search depends only on the rates read for the keys it walks |
| Currency.ValidationReadsOnlyRateKeys | lib/currency.ts:51-64 | inputs that agree on the guard and on the rates of the rate keys validate alike |
| Currency.ExtraKeysAreIgnored | lib/currency.ts:52-64 | adding or changing a property that is not a rate key changes neither the error nor the table |
| Currency.RatesObject | lib/currency.ts:64 | the object a table is: the table's keys, each holding that key's rate as a number |
| Currency.ValidationIsIdempotent | lib/currency.ts:52-64 | validating a validated table succeeds and returns the same table |
| Currency.ArraysFailOnFirstKey | lib/currency.ts:47-58 | an array passes the object guard and is rejected as lacking a THB rate |
| Currency.ValidateExchangeRates | lib/currency.ts:46-65 | the loop over the rate keys, with its early exit, returns or throws exactly what ValidatedRates describes |
| Currency.RatesFilePassesValidation | lib/currency.ts:70 | validating the rate file when the module loads succeeds, and the result is the constant `DEFAULT_EXCHANGE_RATES` with the file's four rates |
| Currency.DefaultRatesAreValid | lib/currency.ts:70 | the default table has exactly the rate keys, all rates positive and finite, and THB at 1 |
| Currency.ValidationExamples | lib/currency.test.ts:34-41 | a table with EUR at 0 and no RUB is rejected naming EUR, the first bad key; null and a number are rejected as not objects |
| Currency.RatesOrDefault | lib/currency.ts:83 | the table passed is used as it is; an omitted table means the default one, which is validated and has THB at 1 |
| Currency.RateFor | lib/currency.ts:86 | the right operand of the product: the table's entry for a present key, NaN (JavaScript's `x * undefined`) for a missing one |
| Currency.ConvertFromThb | lib/currency.ts:80-87 | fails exactly for a non-finite amount, with the "amountInThb" error. For any table, validated or not, the result is finite exactly when the rate is, and is then the amount times the rate. With a validated table (given or default) the rate is always finite |
| Currency.ConversionKeepsSign | lib/currency.ts:80-87 | with a validated table a finite amount converts, and the result is positive, zero or negative exactly when the amount is |
| Currency.ConversionIsLinearAndMonotone | lib/currency.ts:80-87 | with a validated table, converting a sum gives the sum of the conversions, and larger amounts convert to larger ones |
| Currency.ConversionToThbIsIdentity | lib/currency.ts:86 | with a THB rate of 1, converting a finite amount to THB returns it unchanged |
| Currency.DefaultConversionExamples | lib/currency.test.ts:64-76 | with the default table, 1000 THB converts to 1000, 28.6, 26.3 and 2570; NaN fails naming "amountInThb" |
| Currency.LocaleOrDefault | lib/currency.ts:100 | the locale passed is used as it is; an omitted locale means "ru-RU" |
| Currency.FormatCurrency | lib/currency.ts:97-112 | fails exactly for a non-finite amount, with the "amount" error. Otherwise the result is the formatter's text for the given locale, or for "ru-RU" when none is given |
| Currency.FormatPriceFromThb | lib/currency.ts:123-131 | a non-finite amount fails with the conversion error ("amountInThb"), not the formatting one. A finite amount whose rate is not finite fails with the "amount" error. Otherwise the result is the formatter's text for amount times rate |
| Currency.PriceFormattingWithValidTable | lib/currency.ts:123-131 | with a validated table, formatting a price succeeds exactly for a finite amount |
| PropertyCard.ContactHref | components/PropertyCard.tsx:19-29 | email gets "mailto:", phone gets "tel:", and telegram, whatsapp and line use the value unchanged |
| PropertyCard.ContactHrefInjective | components/PropertyCard.tsx:19-29 | within a channel, different values give different addresses |
| PropertyCard.ContactLabel | components/PropertyCard.tsx:34-40 | telegram → "Telegram", whatsapp → "WhatsApp", line → "LINE", phone → "Телефон", email → "Email" |
| PropertyCard.ContactLabelInjective | components/PropertyCard.tsx:34-40 | different channels have different captions |
| PropertyCard.LinkTarget | components/PropertyCard.tsx:108 | no target exactly for phone and email; "_blank" for every other channel |
| PropertyCard.LinkRel | components/PropertyCard.tsx:109 | no rel exactly for phone and email; "noreferrer noopener" for every other channel |
| PropertyCard.NewTabExactlyForMessengerLinks | components/PropertyCard.tsx:108-109 | a link has no target exactly when its address gains a scheme (phone, email) and exactly when it has no rel. Every other link gets "_blank" and "noreferrer noopener" |
| PropertyCard.IsShown | components/PropertyCard.tsx:49 | an entry is shown exactly when its value is present and `Boolean(value)` holds, that is, the string is not empty |
| PropertyCard.VisibleContacts | components/PropertyCard.tsx:48-49 | every shown entry comes from the input and has a non-empty value, and every input entry with a non-empty value is shown |
| PropertyCard.VisibleContactsKeepsOrder | components/PropertyCard.tsx:48-49 | filtering commutes with concatenation, so shown entries keep their relative order |
| PropertyCard.NoVisibleContactsWithoutValues | components/PropertyCard.tsx:49 | when no entry has a non-empty value (in particular for empty contacts) nothing is shown |
| PropertyCard.RenderContact | components/PropertyCard.tsx:98-113 | an entry renders a link exactly when its value is non-empty |
| PropertyCard.RenderContacts | components/PropertyCard.tsx:98-114 | for entries that all have values, one link per entry, in order. The null branch never fires |
| PropertyCard.ContactLinks | components/PropertyCard.tsx:48-116 | one link per shown contact, in order, each with its channel's address, caption, target and rel |
| PropertyCard.ExampleContactsAllVisible | components/PropertyCard.test.tsx:35-39 | the test fixture's three contacts are all shown, in order |
| PropertyCard.ContactLinksExample | components/PropertyCard.test.tsx:58-70 | the fixture gives exactly the telegram, phone and email links with the expected addresses and captions; empty contacts give none |
| HomePage.CurrentCurrency | app/page.tsx:14-23 | the result is always a supported code. It is the cookie's value exactly when that value is a supported code, and THB otherwise (absent, empty or unknown) |
| HomePage.FallbackCases | app/page.tsx:18-19 | an absent cookie, "", "GBP" and "usd" all give THB |
| HomePage.StoredCodeIsReadBack | app/page.tsx:18-22 | any supported code stored in the cookie is returned unchanged |
| HomePage.CurrentCurrencyIsStable | app/page.tsx:18-22 | storing the chosen currency back in the cookie does not change the choice |

## Left out

- `Intl.NumberFormat` output (currency symbol, separators, two fraction digits). It is a locale-data-driven library outside the model, and enters as the `Formatter` parameter. A locale it rejects (a thrown RangeError) is not modelled either.
- IEEE-754 rounding, overflow of a product to infinity, and signed zero: finite numbers are exact reals. The conversion tests' `toBeCloseTo` tolerances therefore become exact equalities.
- Currency.ConvertFromThb: no 64-bit overflow to ±Infinity, because finite numbers are unbounded reals. With a validated table the result is always finite; in JavaScript an extreme amount could overflow.
- The contents of `exchange_rates.json` and `data.json`, which are not part of this model. The rate file is the constant `RATES_FILE` described above. The key order of the object that validation returns is not modelled, because the table is a map.
- `getProperties` (lib/properties.ts:26-28), which is a bare cast of the JSON data. `PropertyItem` is not modelled; only its contacts' entries are, as a sequence of channel/value pairs in the object's order.
- `Object.entries` on values that hold `null` or non-strings: the entries carry `Option<string>` as the declared type allows.
- JSX rendering, the `useState` image-failure fallback, `next/image`, `key` props, the price line of the card (line 47, which is `formatPriceFromThb` with the default locale and rates), `cn` from lib/utils.ts, and components/Price.tsx.
- The `cookies()` read (app/page.tsx:15-16), the cookie writes and `router.refresh()` of the currency selectors, and the page layout.
- `getSupportedCurrencies`, which the currency selectors import but lib/currency.ts does not define.
- Symbol and BigInt values among the untyped inputs to validation. They fail the object guard like other primitives.
