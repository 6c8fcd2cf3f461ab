/** The currency choice of the catalogue page (app/page.tsx). */
module HomePage {

  import opened Wrappers
  import Currency

  const FALLBACK_CURRENCY: Currency.CurrencyCode := "THB"

  /**
   * `getCurrentCurrency` given the value of the currency cookie (None when
   * the cookie is absent): a supported code is used, anything else falls
   * back to THB.
   */
  function CurrentCurrency(cookieValue: Option<string>): (c: Currency.CurrencyCode)
    ensures Currency.IsCurrencyCode(c)
    ensures cookieValue.Some? && Currency.IsCurrencyCode(cookieValue.value) ==> c == cookieValue.value
    ensures !(cookieValue.Some? && Currency.IsCurrencyCode(cookieValue.value)) ==> c == "THB"
  {
    if cookieValue.None? || cookieValue.value == "" || !Currency.IsCurrencyCode(cookieValue.value) then
      FALLBACK_CURRENCY
    else
      cookieValue.value
  }

  /** An absent, empty or unsupported cookie gives THB. */
  lemma FallbackCases()
    ensures CurrentCurrency(None) == "THB"
    ensures CurrentCurrency(Some("")) == "THB"
    ensures CurrentCurrency(Some("GBP")) == "THB"
    ensures CurrentCurrency(Some("usd")) == "THB"
  {
  }

  /** A code written to the cookie is read back unchanged. */
  lemma StoredCodeIsReadBack(c: Currency.CurrencyCode)
    ensures CurrentCurrency(Some(c)) == c
  {
  }

  /** Writing the chosen currency back to the cookie does not change the choice. */
  lemma CurrentCurrencyIsStable(cookieValue: Option<string>)
    ensures CurrentCurrency(Some(CurrentCurrency(cookieValue))) == CurrentCurrency(cookieValue)
  {
  }
}
