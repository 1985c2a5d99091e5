/**
 * The service catalog: which service codes exist, the payment-provider price
 * each one carries, and the ordered list of display-name prefixes that the
 * fuzzy matcher tries. The router hard-codes one catalog (`PRICE_BY_SKU` and
 * the three `startsWith` tests); here it is a value, so that properties can be
 * stated for every catalog and checked for the one the router ships.
 */
module Catalog {
  import opened Wrappers

  /** A price reference; JavaScript treats a missing or empty one as falsy,
      which marks the service as free. */
  type PriceRef = Option<string>

  predicate IsPaid(price: PriceRef) {
    price.Some? && price.value != []
  }

  /** The code is in the catalog and carries a price. */
  predicate IsPaidCode(c: ServiceCatalog, code: string) {
    code in c.prices && IsPaid(c.prices[code])
  }

  /** A normalized token that starts with `prefix` resolves to `code`. */
  datatype FuzzyRule = FuzzyRule(prefix: string, code: string)

  datatype ServiceCatalog = ServiceCatalog(prices: map<string, PriceRef>, rules: seq<FuzzyRule>)

  /** Every fuzzy rule names a catalog code, and no code contains the comma
      that separates codes in the session metadata. */
  predicate WellFormed(c: ServiceCatalog) {
    && (forall i :: 0 <= i < |c.rules| ==> c.rules[i].code in c.prices)
    && (forall code :: code in c.prices ==> ',' !in code)
  }

  /** The catalog the router ships with. */
  const Shipped: ServiceCatalog := ServiceCatalog(
    map[
      "INTFMT" := Some("price_1Sku587uZCk6xNoP3Kmujdxi"),
      "COVER" := Some("price_1Sku677uZCk6xNoP7kwzbTKE"),
      "KDPPREP" := Some("price_1Sku787uZCk6xNoP7PbsdNnw")
    ],
    [
      FuzzyRule("interior formatting", "INTFMT"),
      FuzzyRule("cover design", "COVER"),
      FuzzyRule("kdp upload preparation", "KDPPREP")
    ])

  lemma {:induction false} ShippedCodes()
    ensures Shipped.prices.Keys == {"INTFMT", "COVER", "KDPPREP"} && |Shipped.prices.Keys| == 3
  {
  }

  /** Every shipped code is written in upper-case letters only, so the
      upper-cased token of an exact match can equal it. */
  lemma {:induction false} ShippedCodesAreUpperCase(code: string)
    requires code in Shipped.prices
    ensures forall i :: 0 <= i < |code| ==> 'A' <= code[i] <= 'Z'
  {
    ShippedCodes();
  }

  /** The shipped catalog is well formed, has three codes, and every one of
      them is paid. */
  lemma {:induction false} ShippedCatalog()
    ensures WellFormed(Shipped)
    ensures Shipped.prices.Keys == {"INTFMT", "COVER", "KDPPREP"} && |Shipped.prices.Keys| == 3
    ensures forall code :: code in Shipped.prices ==> IsPaid(Shipped.prices[code])
  {
    ShippedCodes();
  }
}
