/**
 * Currency conversion and formatting (lib/currency.ts): the exchange-rate
 * table keyed by the supported currency codes, its validation, conversion
 * from the base currency THB, and the guard of the locale-aware formatter.
 */
module Currency {

  import opened Wrappers
  import opened JsValues

  /** The keys of the rate file, in the file's order. */
  const RATE_KEYS: seq<string> := ["THB", "USD", "EUR", "RUB"]

  const DEFAULT_LOCALE: string := "ru-RU"

  /** A supported currency code: one of the keys of the rate file. */
  type CurrencyCode = c: string | c in RATE_KEYS witness "THB"

  /** A rate table: for each code, how much of that currency one THB buys. */
  type ExchangeRates = map<string, Number>

  /** The errors the module throws. */
  datatype Error =
    | RatesNotAnObject
    | InvalidRate(currency: string)
    | InvalidAmount(parameter: string)

  /** `word` occurs somewhere in `text`. */
  ghost predicate Mentions(text: string, word: string) {
    exists i :: 0 <= i <= |text| - |word| && word <= text[i..]
  }

  /**
   * The text of the thrown error: a rate error names the offending
   * currency, an amount error the offending parameter.
   */
  function Message(e: Error): (m: string)
    ensures e.RatesNotAnObject? ==> Mentions(m, "must be an object")
    ensures e.InvalidRate? ==> Mentions(m, e.currency)
    ensures e.InvalidAmount? ==> Mentions(m, e.parameter)
  {
    match e
    case RatesNotAnObject =>
      var m := "exchange rates must be an object";
      assert "must be an object" <= m[15..];
      m
    case InvalidRate(c) =>
      var m := "exchange rate for " + c + " must be a positive finite number";
      assert m[18..][..|c|] == c;
      m
    case InvalidAmount(p) =>
      var m := p + " must be a finite number";
      assert m[0..][..|p|] == p;
      m
  }

  /** Distinct offending currencies give distinct rate messages. */
  lemma InvalidRateMessageInjective(a: string, b: string)
    requires Message(InvalidRate(a)) == Message(InvalidRate(b))
    ensures a == b
  {
    var m := Message(InvalidRate(a));
    assert |a| == |b|;
    assert a == m[18..18 + |a|];
    assert b == Message(InvalidRate(b))[18..18 + |b|];
  }

  // ---------------------------------------------------------------------
  // Guards
  // ---------------------------------------------------------------------

  /** `isFiniteNumber`: a value of type number that is neither NaN nor infinite. */
  predicate IsFiniteNumber(v: Value)
    ensures IsFiniteNumber(v) <==> v.Num? && v.n.Finite?
  {
    TypeOf(v) == "number" && v.n.Finite?
  }

  /** `assertAmountInThb`: throws unless the amount is finite. */
  function AssertAmountInThb(amountInThb: Number): (r: Outcome<Error>)
    ensures r.Pass? <==> amountInThb.Finite?
    ensures r.Fail? ==> r.error == InvalidAmount("amountInThb")
  {
    if !IsFiniteNumber(Num(amountInThb)) then Fail(InvalidAmount("amountInThb")) else Pass
  }

  /** `isCurrencyCode`: membership of the raw string among the rate keys. */
  predicate IsCurrencyCode(value: string)
    ensures IsCurrencyCode(value) <==>
      value == "THB" || value == "USD" || value == "EUR" || value == "RUB"
  {
    value in RATE_KEYS
  }

  /** The code guard rejects unknown codes, case variants and the empty string. */
  lemma IsCurrencyCodeRejectsOthers()
    ensures IsCurrencyCode("THB") && IsCurrencyCode("USD")
    ensures IsCurrencyCode("EUR") && IsCurrencyCode("RUB")
    ensures !IsCurrencyCode("GBP") && !IsCurrencyCode("thb") && !IsCurrencyCode("")
  {
  }

  // ---------------------------------------------------------------------
  // Validation
  // ---------------------------------------------------------------------

  /**
   * The guard at the top of `validateExchangeRates`: it lets through
   * exactly plain objects and arrays (null, primitives and functions are
   * refused).
   */
  predicate PassesObjectGuard(v: Value)
    ensures PassesObjectGuard(v) <==> v.Obj? || v.Arr?
  {
    !(!Truthy(v) || TypeOf(v) != "object")
  }

  /** The per-key check: the rate read is a positive finite number. */
  predicate IsValidRate(v: Value)
    ensures IsValidRate(v) <==> v.Num? && v.n.Finite? && v.n.value > 0.0
  {
    IsFiniteNumber(v) && v.n.value > 0.0
  }

  /** The index of the first key whose rate fails the per-key check. */
  function FirstInvalidRate(rates: Value, keys: seq<string>): (r: Option<nat>)
    ensures r.Some? ==> r.value < |keys| && !IsValidRate(Get(rates, keys[r.value]))
    ensures r.Some? ==> forall j :: 0 <= j < r.value ==> IsValidRate(Get(rates, keys[j]))
    ensures r.None? <==> forall j :: 0 <= j < |keys| ==> IsValidRate(Get(rates, keys[j]))
  {
    if keys == [] then None
    else if !IsValidRate(Get(rates, keys[0])) then Some(0)
    else match FirstInvalidRate(rates, keys[1..])
      case None => None
      case Some(i) => Some(i + 1)
  }

  /** A table as validation produces it: exactly the rate keys, each rate positive and finite. */
  ghost predicate IsValidTable(t: ExchangeRates) {
    && (forall k :: k in t <==> k in RATE_KEYS)
    && (forall k :: k in t ==> t[k].Finite? && t[k].value > 0.0)
  }

  /**
   * What `validateExchangeRates` returns or throws: a non-object is
   * rejected, then the first rate key (in file order) whose rate is
   * missing, not a number, not finite or not positive is reported, and
   * otherwise the rates of exactly the rate keys are copied.
   */
  function ValidatedRates(rates: Value): (r: Result<ExchangeRates, Error>)
    ensures r == Failure(RatesNotAnObject) <==> !PassesObjectGuard(rates)
    ensures r.Success? ==> IsValidTable(r.value)
    ensures r.Success? ==> forall k :: k in r.value ==> Num(r.value[k]) == Get(rates, k)
    ensures r.Success? <==>
      PassesObjectGuard(rates) && forall k :: k in RATE_KEYS ==> IsValidRate(Get(rates, k))
  {
    if !PassesObjectGuard(rates) then Failure(RatesNotAnObject)
    else match FirstInvalidRate(rates, RATE_KEYS)
      case Some(i) => Failure(InvalidRate(RATE_KEYS[i]))
      case None => Success(map k | k in RATE_KEYS :: Get(rates, k).n)
  }

  /**
   * A rate error names the first rate key, in file order, whose rate is
   * invalid, and no other key.
   */
  lemma ValidationNamesFirstInvalidKey(rates: Value, c: string)
    requires PassesObjectGuard(rates)
    ensures ValidatedRates(rates) == Failure(InvalidRate(c)) <==>
      exists i :: 0 <= i < |RATE_KEYS| && RATE_KEYS[i] == c
        && !IsValidRate(Get(rates, c))
        && forall j :: 0 <= j < i ==> IsValidRate(Get(rates, RATE_KEYS[j]))
  {
    if ValidatedRates(rates) == Failure(InvalidRate(c)) {
      var i := FirstInvalidRate(rates, RATE_KEYS).value;
      assert RATE_KEYS[i] == c;
    }
    if exists i :: 0 <= i < |RATE_KEYS| && RATE_KEYS[i] == c
        && !IsValidRate(Get(rates, c))
        && forall j :: 0 <= j < i ==> IsValidRate(Get(rates, RATE_KEYS[j]))
    {
      var i :| 0 <= i < |RATE_KEYS| && RATE_KEYS[i] == c
        && !IsValidRate(Get(rates, c))
        && forall j :: 0 <= j < i ==> IsValidRate(Get(rates, RATE_KEYS[j]));
      var f := FirstInvalidRate(rates, RATE_KEYS);
      assert f.Some?;
      assert f.value == i;
    }
  }

  /** FirstInvalidRate only looks at the rates read for the given keys. */
  lemma {:induction false} FirstInvalidRateReadsOnlyKeys(a: Value, b: Value, keys: seq<string>)
    requires forall k :: k in keys ==> Get(a, k) == Get(b, k)
    ensures FirstInvalidRate(a, keys) == FirstInvalidRate(b, keys)
  {
    if keys != [] {
      FirstInvalidRateReadsOnlyKeys(a, b, keys[1..]);
    }
  }

  /** Validation only looks at the guard and at the rates read for the rate keys. */
  lemma ValidationReadsOnlyRateKeys(a: Value, b: Value)
    requires PassesObjectGuard(a) == PassesObjectGuard(b)
    requires forall k :: k in RATE_KEYS ==> Get(a, k) == Get(b, k)
    ensures ValidatedRates(a) == ValidatedRates(b)
  {
    FirstInvalidRateReadsOnlyKeys(a, b, RATE_KEYS);
    if ValidatedRates(a).Success? {
      assert ValidatedRates(a).value == ValidatedRates(b).value;
    }
  }

  /** Adding or changing a property that is not a rate key changes nothing: extra keys are dropped. */
  lemma ExtraKeysAreIgnored(props: map<string, Value>, key: string, extra: Value)
    requires key !in RATE_KEYS
    ensures ValidatedRates(Obj(props[key := extra])) == ValidatedRates(Obj(props))
  {
    ValidationReadsOnlyRateKeys(Obj(props[key := extra]), Obj(props));
  }

  /** The JavaScript object a rate table is. */
  function RatesObject(t: ExchangeRates): (v: Value)
    ensures v.Obj? && v.properties.Keys == t.Keys
    ensures forall k :: k in t ==> v.properties[k] == Num(t[k])
  {
    Obj(map k | k in t :: Num(t[k]))
  }

  /** Validating a validated table again succeeds with the same table. */
  lemma ValidationIsIdempotent(rates: Value, t: ExchangeRates)
    requires ValidatedRates(rates) == Success(t)
    ensures ValidatedRates(RatesObject(t)) == Success(t)
  {
    var v := RatesObject(t);
    forall k | k in RATE_KEYS
      ensures Get(v, k) == Get(rates, k)
    {
      assert k in t;
    }
    ValidationReadsOnlyRateKeys(v, rates);
  }

  /** An array passes the object guard and is then reported as lacking THB. */
  lemma ArraysFailOnFirstKey(elements: seq<Value>)
    ensures ValidatedRates(Arr(elements)) == Failure(InvalidRate("THB"))
  {
    assert !IsValidRate(Get(Arr(elements), RATE_KEYS[0]));
  }

  /**
   * `validateExchangeRates`: walks the rate keys in order, copying each
   * rate into a fresh table and stopping at the first invalid one.
   */
  method ValidateExchangeRates(rates: Value) returns (r: Result<ExchangeRates, Error>)
    ensures r == ValidatedRates(rates)
  {
    if !Truthy(rates) || TypeOf(rates) != "object" {
      return Failure(RatesNotAnObject);
    }
    var normalized: ExchangeRates := map[];
    for i := 0 to |RATE_KEYS|
      invariant normalized.Keys == set j | 0 <= j < i :: RATE_KEYS[j]
      invariant forall k :: k in normalized ==> Num(normalized[k]) == Get(rates, k)
      invariant forall j :: 0 <= j < i ==> IsValidRate(Get(rates, RATE_KEYS[j]))
    {
      var currency := RATE_KEYS[i];
      var rate := Get(rates, currency);
      if !IsFiniteNumber(rate) || rate.n.value <= 0.0 {
        ghost var first := FirstInvalidRate(rates, RATE_KEYS);
        assert first.Some? && first.value == i;
        return Failure(InvalidRate(currency));
      }
      normalized := normalized[currency := rate.n];
    }
    assert FirstInvalidRate(rates, RATE_KEYS).None?;
    assert normalized == map k | k in RATE_KEYS :: Get(rates, k).n by {
      assert forall k :: k in normalized <==> k in RATE_KEYS;
      assert forall k :: k in normalized ==> normalized[k] == Get(rates, k).n;
    }
    return Success(normalized);
  }

  // ---------------------------------------------------------------------
  // The default table
  // ---------------------------------------------------------------------

  /** The contents of the rate file that the module loads. */
  const RATES_FILE: Value := Obj(map[
    "THB" := Num(Finite(1.0)),
    "USD" := Num(Finite(0.0286)),
    "EUR" := Num(Finite(0.0263)),
    "RUB" := Num(Finite(2.57))])

  /** `DEFAULT_EXCHANGE_RATES`: the table the module holds once the rate file has been validated. */
  const DEFAULT_EXCHANGE_RATES: ExchangeRates := map[
    "THB" := Finite(1.0), "USD" := Finite(0.0286),
    "EUR" := Finite(0.0263), "RUB" := Finite(2.57)]

  /** Every rate of the rate file is a positive finite number. */
  lemma RatesFileRatesAreValid()
    ensures FirstInvalidRate(RATES_FILE, RATE_KEYS).None?
  {
    assert IsValidRate(Get(RATES_FILE, RATE_KEYS[0]));
    assert IsValidRate(Get(RATES_FILE, RATE_KEYS[1]));
    assert IsValidRate(Get(RATES_FILE, RATE_KEYS[2]));
    assert IsValidRate(Get(RATES_FILE, RATE_KEYS[3]));
  }

  /** The rate file passes validation when the module loads, giving the default table. */
  lemma RatesFilePassesValidation()
    ensures ValidatedRates(RATES_FILE) == Success(DEFAULT_EXCHANGE_RATES)
  {
    RatesFileRatesAreValid();
    var got := map k | k in RATE_KEYS :: Get(RATES_FILE, k).n;
    assert forall k :: k in got <==> k in DEFAULT_EXCHANGE_RATES;
    assert got == DEFAULT_EXCHANGE_RATES;
  }

  lemma DefaultRatesAreValid()
    ensures IsValidTable(DEFAULT_EXCHANGE_RATES)
    ensures DEFAULT_EXCHANGE_RATES["THB"] == Finite(1.0)
  {
    RatesFilePassesValidation();
  }

  /** The supported codes are exactly the keys of the default table. */
  lemma CodesAreDefaultTableKeys(value: string)
    ensures IsCurrencyCode(value) <==> value in DEFAULT_EXCHANGE_RATES
  {
  }

  /** The validation examples of the module's own tests. */
  lemma ValidationExamples()
    ensures ValidatedRates(Obj(map[
      "THB" := Num(Finite(1.0)), "USD" := Num(Finite(0.0286)), "EUR" := Num(Finite(0.0))]))
      == Failure(InvalidRate("EUR"))
    ensures ValidatedRates(Null) == Failure(RatesNotAnObject)
    ensures ValidatedRates(Num(Finite(3.0))) == Failure(RatesNotAnObject)
  {
    var v := Obj(map[
      "THB" := Num(Finite(1.0)), "USD" := Num(Finite(0.0286)), "EUR" := Num(Finite(0.0))]);
    assert IsValidRate(Get(v, RATE_KEYS[0])) && IsValidRate(Get(v, RATE_KEYS[1]));
    assert !IsValidRate(Get(v, RATE_KEYS[2]));
  }

  // ---------------------------------------------------------------------
  // Conversion and formatting
  // ---------------------------------------------------------------------

  /** The table in effect: the one passed, or the default when the argument is omitted. */
  function RatesOrDefault(rates: Option<ExchangeRates>): (t: ExchangeRates)
    ensures rates.Some? ==> t == rates.value
    ensures rates.None? ==> IsValidTable(t) && t["THB"] == Finite(1.0)
  {
    if rates.Some? then rates.value
    else DefaultRatesAreValid(); DEFAULT_EXCHANGE_RATES
  }

  /**
   * The operand `rates[currency]` of the product: the table's entry, or
   * NaN when the key is missing (JavaScript's `x * undefined`).
   */
  function RateFor(rates: ExchangeRates, currency: string): (r: Number)
    ensures currency !in rates ==> r.NaN?
    ensures currency in rates ==> r == rates[currency]
  {
    if currency in rates then rates[currency] else NaN
  }

  /** `convertFromThb`: the amount times the target currency's rate. */
  function ConvertFromThb(amountInThb: Number, currency: CurrencyCode, rates: Option<ExchangeRates>)
    : (r: Result<Number, Error>)
    ensures r.Failure? <==> !amountInThb.Finite?
    ensures r.Failure? ==> r.error == InvalidAmount("amountInThb")
    ensures r.Success? && IsValidTable(RatesOrDefault(rates)) ==>
      r.value == Finite(amountInThb.value * RatesOrDefault(rates)[currency].value)
    ensures r.Success? ==> (r.value.Finite? <==> RateFor(RatesOrDefault(rates), currency).Finite?)
    ensures r.Success? && RateFor(RatesOrDefault(rates), currency).Finite? ==>
      r.value == Finite(amountInThb.value * RateFor(RatesOrDefault(rates), currency).value)
  {
    var table := RatesOrDefault(rates);
    match AssertAmountInThb(amountInThb)
    case Fail(e) => Failure(e)
    case Pass => Success(Mul(amountInThb, RateFor(table, currency)))
  }

  /** Multiplying by a positive rate keeps the sign. */
  lemma PositiveFactorKeepsSign(x: real, rate: real)
    requires rate > 0.0
    ensures (x * rate > 0.0 <==> x > 0.0) && (x * rate == 0.0 <==> x == 0.0) && (x * rate < 0.0 <==> x < 0.0)
  {
    if x > 0.0 { assert x * rate > 0.0; }
    else if x < 0.0 { assert (-x) * rate > 0.0; }
  }

  /** Multiplication distributes over a sum of amounts. */
  lemma FactorDistributes(x: real, y: real, rate: real)
    ensures (x + y) * rate == x * rate + y * rate
  {
  }

  /** Multiplying by a positive rate keeps the order. */
  lemma PositiveFactorKeepsOrder(x: real, y: real, rate: real)
    requires rate > 0.0 && x <= y
    ensures x * rate <= y * rate
  {
    PositiveFactorKeepsSign(y - x, rate);
    FactorDistributes(y - x, x, rate);
  }

  /** With a validated table the converted amount has the sign of the original. */
  lemma ConversionKeepsSign(x: real, currency: CurrencyCode, t: ExchangeRates)
    requires IsValidTable(t)
    ensures ConvertFromThb(Finite(x), currency, Some(t)).Success?
    ensures var y := ConvertFromThb(Finite(x), currency, Some(t)).value.value;
      (y > 0.0 <==> x > 0.0) && (y == 0.0 <==> x == 0.0) && (y < 0.0 <==> x < 0.0)
  {
    assert currency in t;
    PositiveFactorKeepsSign(x, t[currency].value);
  }

  /** Conversion with a validated table is additive and order-preserving. */
  lemma ConversionIsLinearAndMonotone(x: real, y: real, currency: CurrencyCode, t: ExchangeRates)
    requires IsValidTable(t)
    ensures var cx := ConvertFromThb(Finite(x), currency, Some(t)).value.value;
      var cy := ConvertFromThb(Finite(y), currency, Some(t)).value.value;
      && ConvertFromThb(Finite(x + y), currency, Some(t)).value.value == cx + cy
      && (x <= y ==> cx <= cy)
  {
    assert currency in t;
    var rate := t[currency].value;
    FactorDistributes(x, y, rate);
    if x <= y { PositiveFactorKeepsOrder(x, y, rate); }
  }

  /** With a THB rate of 1, converting a finite amount to THB gives it back. */
  lemma ConversionToThbIsIdentity(x: real, t: ExchangeRates)
    requires "THB" in t && t["THB"] == Finite(1.0)
    ensures ConvertFromThb(Finite(x), "THB", Some(t)) == Success(Finite(x))
  {
  }

  /** The default table converts the tests' 1000 THB to 1000, 28.6, 26.3 and 2570, and rejects NaN. */
  lemma DefaultConversionExamples(c: CurrencyCode)
    ensures ConvertFromThb(Finite(1000.0), c, None) == Success(Finite(
      if c == "THB" then 1000.0 else if c == "USD" then 28.6 else if c == "EUR" then 26.3 else 2570.0))
    ensures ConvertFromThb(NaN, c, None) == Failure(InvalidAmount("amountInThb"))
  {
  }

  /**
   * The locale-aware formatter (`Intl.NumberFormat` with two fraction
   * digits) given a locale, a code and a finite amount; it is outside the
   * model and enters as a parameter.
   */
  type Formatter = (string, CurrencyCode, real) -> string

  /** The locale in effect: the one passed, or "ru-RU" when the argument is omitted. */
  function LocaleOrDefault(locale: Option<string>): (l: string)
    ensures locale.Some? ==> l == locale.value
    ensures locale.None? ==> l == "ru-RU"
  {
    if locale.Some? then locale.value else DEFAULT_LOCALE
  }

  /** `formatCurrency`: rejects a non-finite amount, else hands it to the formatter. */
  function FormatCurrency(amount: Number, currency: CurrencyCode, locale: Option<string>, format: Formatter)
    : (r: Result<string, Error>)
    ensures r.Failure? <==> !amount.Finite?
    ensures r.Failure? ==> r.error == InvalidAmount("amount")
    ensures r.Success? ==> r.value == format(LocaleOrDefault(locale), currency, amount.value)
  {
    if !IsFiniteNumber(Num(amount)) then Failure(InvalidAmount("amount"))
    else Success(format(LocaleOrDefault(locale), currency, amount.value))
  }

  /** `formatPriceFromThb`: conversion followed by formatting in the target currency. */
  function FormatPriceFromThb(
    amountInThb: Number, currency: CurrencyCode, locale: Option<string>,
    rates: Option<ExchangeRates>, format: Formatter): (r: Result<string, Error>)
    ensures !amountInThb.Finite? ==> r == Failure(InvalidAmount("amountInThb"))
    ensures amountInThb.Finite? && !RateFor(RatesOrDefault(rates), currency).Finite? ==>
      r == Failure(InvalidAmount("amount"))
    ensures amountInThb.Finite? && RateFor(RatesOrDefault(rates), currency).Finite? ==>
      r == Success(format(LocaleOrDefault(locale), currency,
                          amountInThb.value * RateFor(RatesOrDefault(rates), currency).value))
  {
    var converted :- ConvertFromThb(amountInThb, currency, rates);
    FormatCurrency(converted, currency, Some(LocaleOrDefault(locale)), format)
  }

  /** With a validated table, a finite amount is always formatted, and a non-finite one never. */
  lemma PriceFormattingWithValidTable(
    amountInThb: Number, currency: CurrencyCode, locale: Option<string>,
    t: ExchangeRates, format: Formatter)
    requires IsValidTable(t)
    ensures FormatPriceFromThb(amountInThb, currency, locale, Some(t), format).Success?
      <==> amountInThb.Finite?
  {
    assert currency in t;
  }
}
