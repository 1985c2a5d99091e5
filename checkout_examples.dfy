/**
 * A complete paid checkout with the shipped catalog.
 */
module CheckoutExamples {
  import opened Wrappers
  import opened Text
  import opened Catalog
  import opened SkuParser
  import opened LineItems
  import opened Checkout
  import ParserExamples

  /** Two paid codes give one line item each, in order. */
  lemma {:induction false} TwoPaidItems(c: ServiceCatalog, a: string, b: string)
    requires IsPaidCode(c, a) && IsPaidCode(c, b)
    ensures PricedItems(c, [a, b]) == [LineItem(c.prices[a].value, 1), LineItem(c.prices[b].value, 1)]
  {
    assert [a, b][..1] == [a];
    assert [a][..0] == [];
  }

  /** A valid id and a list of two paid codes ask the provider for a session
      with both line items and the list itself as metadata. */
  lemma {:induction false} CheckoutOfTwoCodes(cfg: Config, c: ServiceCatalog, sid: string, a: string, b: string)
    requires sid != [] && |sid| <= MaxSidLength && Trim(sid) == sid
    requires Trim(a + "," + b) == a + "," + b
    requires ParseSkus(c, a + "," + b) == Ok([a, b])
    requires IsPaidCode(c, a) && IsPaidCode(c, b)
    ensures HandleCheckout(cfg, c, sid, a + "," + b, "") == CreateSession(SessionRequest(
      "payment",
      [LineItem(c.prices[a].value, 1), LineItem(c.prices[b].value, 1)],
      PaidSuccessUrl(cfg, sid),
      CancelUrl(cfg, sid),
      Metadata(sid, a + "," + b),
      None))
  {
    TwoPaidItems(c, a, b);
    assert Join([a, b], ',') == a + [','] + Join([b], ',');
  }

  // Facts about the literal query values, kept in a lemma of their own so
  // that the proof of `PaidCheckout` reasons about names rather than characters.
  lemma {:induction false} PaidCheckoutInputs(sid: string, services: string, a: string, b: string)
    requires sid == "sub-42" && services == "INTFMT,COVER" && a == "INTFMT" && b == "COVER"
    ensures services == a + "," + b
    ensures sid != [] && |sid| <= MaxSidLength && Trim(sid) == sid && Trim(services) == services
  {
    assert !IsSpace(services[0]) && !IsSpace(services[|services| - 1]);
    TrimOfTrimmed(services);
    assert !IsSpace(sid[0]) && !IsSpace(sid[|sid| - 1]);
    TrimOfTrimmed(sid);
  }

  // The shipped prices of the two codes, kept apart for the same reason.
  lemma {:induction false} PaidCheckoutPrices(a: string, b: string)
    requires a == "INTFMT" && b == "COVER"
    ensures IsPaidCode(Shipped, a) && IsPaidCode(Shipped, b)
    ensures Shipped.prices[a].value == "price_1Sku587uZCk6xNoP3Kmujdxi"
    ensures Shipped.prices[b].value == "price_1Sku677uZCk6xNoP7kwzbTKE"
  {
  }

  /** Interior formatting and cover design, paid together. */
  lemma {:induction false} PaidCheckout(cfg: Config, sid: string, services: string)
    requires sid == "sub-42" && services == "INTFMT,COVER"
    ensures HandleCheckout(cfg, Shipped, sid, services, "") == CreateSession(SessionRequest(
      "payment",
      [LineItem("price_1Sku587uZCk6xNoP3Kmujdxi", 1), LineItem("price_1Sku677uZCk6xNoP7kwzbTKE", 1)],
      PaidSuccessUrl(cfg, sid),
      CancelUrl(cfg, sid),
      Metadata(sid, services),
      None))
  {
    var a, b := "INTFMT", "COVER";
    PaidCheckoutInputs(sid, services, a, b);
    PaidCheckoutPrices(a, b);
    ParserExamples.TwoCodes(services);
    CheckoutOfTwoCodes(cfg, Shipped, sid, a, b);
  }
}
