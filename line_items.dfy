/**
 * `buildLineItems`: one payment line item, quantity 1, per selected code
 * whose price is set, in the order of the codes; a code outside the catalog
 * aborts the build, a code whose price is falsy is skipped.
 */
module LineItems {
  import opened Wrappers
  import opened Catalog
  import opened Failures

  datatype LineItem = LineItem(price: string, quantity: nat)

  /** The line items a list of codes contributes: codes outside the catalog
      and free codes contribute nothing. */
  function PricedItems(c: ServiceCatalog, skus: seq<string>): (items: seq<LineItem>)
    ensures |items| <= |skus|
    ensures forall k :: 0 <= k < |items| ==> items[k].quantity == 1 && items[k].price != []
  {
    if skus == [] then []
    else
      var sku := skus[|skus| - 1];
      PricedItems(c, skus[..|skus| - 1]) +
        (if IsPaidCode(c, sku) then [LineItem(c.prices[sku].value, 1)] else [])
  }

  /** The position of the first code that is not in the catalog. */
  function FirstUnknown(c: ServiceCatalog, skus: seq<string>): (k: nat)
    requires exists j :: 0 <= j < |skus| && skus[j] !in c.prices
    ensures k < |skus| && skus[k] !in c.prices
    ensures forall j :: 0 <= j < k ==> skus[j] in c.prices
  {
    if skus[0] !in c.prices then 0
    else
      var j :| 0 <= j < |skus| && skus[j] !in c.prices;
      assert skus[1..][j - 1] == skus[j];
      1 + FirstUnknown(c, skus[1..])
  }

  /** What `buildLineItems` returns or throws: it succeeds exactly when every
      code is in the catalog, and otherwise names the first code that is not. */
  function BuildResult(c: ServiceCatalog, skus: seq<string>): (r: Result<seq<LineItem>, Failure>)
    ensures r.Ok? <==> forall j :: 0 <= j < |skus| ==> skus[j] in c.prices
    ensures r.Ok? ==> |r.value| <= |skus|
    ensures r.Err? ==> r.error.UnknownSku?
    ensures r.Err? ==> exists k :: 0 <= k < |skus| && skus[k] == r.error.sku && skus[k] !in c.prices
                                 && forall j :: 0 <= j < k ==> skus[j] in c.prices
  {
    if forall j :: 0 <= j < |skus| ==> skus[j] in c.prices then Ok(PricedItems(c, skus))
    else Err(UnknownSku(skus[FirstUnknown(c, skus)]))
  }

  /** The loop of `buildLineItems`: throws on the first unknown code, skips
      free codes, and pushes `{price, quantity: 1}` for every other code. */
  method BuildLineItems(c: ServiceCatalog, skus: seq<string>) returns (r: Result<seq<LineItem>, Failure>)
    ensures r == BuildResult(c, skus)
  {
    var lineItems: seq<LineItem> := [];
    var i := 0;
    while i < |skus|
      invariant 0 <= i <= |skus|
      invariant forall j :: 0 <= j < i ==> skus[j] in c.prices
      invariant lineItems == PricedItems(c, skus[..i])
    {
      var sku := skus[i];
      assert skus[..i + 1][..i] == skus[..i];
      if sku !in c.prices {
        return Err(UnknownSku(sku));
      }
      var priceId := c.prices[sku];
      if !IsPaid(priceId) {
        i := i + 1;
        continue;
      }
      lineItems := lineItems + [LineItem(priceId.value, 1)];
      i := i + 1;
    }
    assert skus[..i] == skus;
    return Ok(lineItems);
  }

  /** Line items of a concatenation are the concatenation of line items. */
  lemma {:induction false} PricedItemsAppend(c: ServiceCatalog, xs: seq<string>, ys: seq<string>)
    ensures PricedItems(c, xs + ys) == PricedItems(c, xs) + PricedItems(c, ys)
    decreases |ys|
  {
    if ys == [] {
      assert xs + ys == xs;
    } else {
      var n := |ys| - 1;
      assert (xs + ys)[..|xs + ys| - 1] == xs + ys[..n];
      PricedItemsAppend(c, xs, ys[..n]);
    }
  }

  /** No line item at all exactly when no selected code is paid: the order
      is free. */
  lemma {:induction false} NoItemsIffAllFree(c: ServiceCatalog, skus: seq<string>)
    ensures PricedItems(c, skus) == [] <==>
      forall j :: 0 <= j < |skus| ==> !IsPaidCode(c, skus[j])
    decreases |skus|
  {
    if skus != [] {
      var n := |skus| - 1;
      NoItemsIffAllFree(c, skus[..n]);
      assert forall j :: 0 <= j < n ==> skus[..n][j] == skus[j];
    }
  }

  /** The selected codes that carry a price, in selection order. */
  function PaidCodes(c: ServiceCatalog, skus: seq<string>): (paid: seq<string>)
    ensures |paid| <= |skus|
    ensures forall k :: 0 <= k < |paid| ==> IsPaidCode(c, paid[k])
    ensures forall x :: x in paid <==> x in skus && IsPaidCode(c, x)
  {
    if skus == [] then []
    else
      var sku := skus[|skus| - 1];
      PaidCodes(c, skus[..|skus| - 1]) + (if IsPaidCode(c, sku) then [sku] else [])
  }

  /** Item k is the price of the k-th paid code: exactly one item per paid
      code, in selection order, and nothing for free codes. */
  lemma {:induction false} ItemsFollowPaidCodes(c: ServiceCatalog, skus: seq<string>)
    ensures |PricedItems(c, skus)| == |PaidCodes(c, skus)|
    ensures forall k :: 0 <= k < |PaidCodes(c, skus)| ==>
      PricedItems(c, skus)[k] == LineItem(c.prices[PaidCodes(c, skus)[k]].value, 1)
    decreases |skus|
  {
    if skus != [] {
      ItemsFollowPaidCodes(c, skus[..|skus| - 1]);
    }
  }

  /** When every selected code is paid, nothing is skipped. */
  lemma {:induction false} AllPaidKeepsEveryCode(c: ServiceCatalog, skus: seq<string>)
    requires forall j :: 0 <= j < |skus| ==> IsPaidCode(c, skus[j])
    ensures PaidCodes(c, skus) == skus
    decreases |skus|
  {
    if skus != [] {
      var n := |skus| - 1;
      AllPaidKeepsEveryCode(c, skus[..n]);
      assert skus[..n] + [skus[n]] == skus;
    }
  }
}
