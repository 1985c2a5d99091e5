/**
 * The decision part of the `/checkout` handler: validate the submission id,
 * parse the services, build the line items, and then either redirect a free
 * order straight to the success page or describe the checkout session to
 * request from the payment provider. Every error thrown on the way becomes
 * the generic 500 response.
 */
module Checkout {
  import opened Wrappers
  import opened Text
  import opened Catalog
  import opened SkuParser
  import opened LineItems

  const MaxSidLength: nat := 200

  const MissingSidMessage := "Missing submission ID (sid parameter)"
  const InvalidSidMessage := "Invalid submission ID"
  const NoServicesMessage := "No services selected"
  const CheckoutFailedMessage :=
    "Failed to start checkout. Please try again or contact support if the problem persists."

  /** What the handler takes from its deployment: the SUCCESS_URL and
      CANCEL_URL environment variables, and `encodeURIComponent`. */
  datatype Config = Config(successUrl: string, cancelUrl: string, encode: string -> string)

  datatype Metadata = Metadata(submissionId: string, selectedSkus: string)

  /** The argument of the payment provider's session-creation call. */
  datatype SessionRequest = SessionRequest(
    mode: string,
    lineItems: seq<LineItem>,
    successUrl: string,
    cancelUrl: string,
    metadata: Metadata,
    customerEmail: Option<string>)

  /** What the handler does with the request. `CreateSession` stands for the
      provider call whose answer the handler then redirects to. */
  datatype Response =
    | BadRequest(message: string)            // status 400
    | SeeOther(location: string)             // status 303
    | CreateSession(request: SessionRequest)
    | ServerError(message: string)           // status 500

  /** `url` is `page` followed by the query parameter `sid` set to `id`. */
  predicate CarriesSid(url: string, page: string, id: string) {
    && |page| + 5 + |id| <= |url|
    && url[..|page|] == page
    && url[|page|..|page| + 5] == "?sid="
    && url[|page| + 5..|page| + 5 + |id|] == id
  }

  /** The thank-you page of an order with nothing to pay: the success page
      with the encoded id, marked free. */
  function FreeUrl(cfg: Config, sid: string): (url: string)
    ensures CarriesSid(url, cfg.successUrl, cfg.encode(sid))
    ensures |url| == |cfg.successUrl| + 5 + |cfg.encode(sid)| + 10 && url[|url| - 10..] == "&free=true"
  {
    cfg.successUrl + "?sid=" + cfg.encode(sid) + "&free=true"
  }

  /** Where the provider sends a paid order: the success page with the
      encoded id and the provider's session-id placeholder. */
  function PaidSuccessUrl(cfg: Config, sid: string): (url: string)
    ensures CarriesSid(url, cfg.successUrl, cfg.encode(sid))
    ensures |url| == |cfg.successUrl| + 5 + |cfg.encode(sid)| + 33
    ensures url[|url| - 33..] == "&session_id={CHECKOUT_SESSION_ID}"
  {
    cfg.successUrl + "?sid=" + cfg.encode(sid) + "&session_id={CHECKOUT_SESSION_ID}"
  }

  /** Where the provider sends an abandoned order: the cancel page with the
      encoded id and nothing after it. */
  function CancelUrl(cfg: Config, sid: string): (url: string)
    ensures CarriesSid(url, cfg.cancelUrl, cfg.encode(sid))
    ensures |url| == |cfg.cancelUrl| + 5 + |cfg.encode(sid)|
  {
    cfg.cancelUrl + "?sid=" + cfg.encode(sid)
  }

  /** The success page can tell a free order from a paid one. */
  lemma {:induction false} FreeAndPaidUrlsDiffer(cfg: Config, sid: string)
    ensures FreeUrl(cfg, sid) != PaidSuccessUrl(cfg, sid)
  {
  }

  /** Ids that encode differently, as `encodeURIComponent` does for any two
      different ids, give different return URLs: every page the customer
      comes back to identifies the submission. */
  lemma {:induction false} UrlsIdentifySubmission(cfg: Config, sid1: string, sid2: string)
    requires cfg.encode(sid1) != cfg.encode(sid2)
    ensures FreeUrl(cfg, sid1) != FreeUrl(cfg, sid2)
    ensures PaidSuccessUrl(cfg, sid1) != PaidSuccessUrl(cfg, sid2)
    ensures CancelUrl(cfg, sid1) != CancelUrl(cfg, sid2)
  {
    var e1, e2 := cfg.encode(sid1), cfg.encode(sid2);
    if |e1| == |e2| {
      var n := |cfg.successUrl| + 5;
      assert FreeUrl(cfg, sid1)[n..n + |e1|] == e1;
      assert FreeUrl(cfg, sid2)[n..n + |e2|] == e2;
      assert PaidSuccessUrl(cfg, sid1)[n..n + |e1|] == e1;
      assert PaidSuccessUrl(cfg, sid2)[n..n + |e2|] == e2;
      var m := |cfg.cancelUrl| + 5;
      assert CancelUrl(cfg, sid1)[m..m + |e1|] == e1;
      assert CancelUrl(cfg, sid2)[m..m + |e2|] == e2;
    }
  }

  /** The handler on the query values `sid`, `services` and `email`, each the
      empty string when absent. */
  function HandleCheckout(cfg: Config, c: ServiceCatalog, sidParam: string, servicesParam: string, emailParam: string): (r: Response)
    ensures r == BadRequest(MissingSidMessage) <==> Trim(sidParam) == []
    ensures r == BadRequest(InvalidSidMessage) <==> |Trim(sidParam)| > MaxSidLength
    ensures r.BadRequest? ==> r.message in {MissingSidMessage, InvalidSidMessage, NoServicesMessage}
    ensures r.ServerError? ==> r.message == CheckoutFailedMessage
    ensures r.CreateSession? ==> r.request.lineItems != [] && r.request.metadata.submissionId == Trim(sidParam)
  {
    var sid := Trim(sidParam);
    var services := Trim(servicesParam);
    var email := if emailParam == [] then None else Some(Trim(emailParam));
    if sid == [] then BadRequest(MissingSidMessage)
    else if |sid| > MaxSidLength then BadRequest(InvalidSidMessage)
    else
      match ParseSkus(c, services)
      case Err(_) => ServerError(CheckoutFailedMessage)
      case Ok(skus) =>
        if skus == [] then BadRequest(NoServicesMessage)
        else
          match BuildResult(c, skus)
          case Err(_) => ServerError(CheckoutFailedMessage)
          case Ok(lineItems) =>
            if lineItems == [] then SeeOther(FreeUrl(cfg, sid))
            else
              CreateSession(SessionRequest(
                "payment",
                lineItems,
                PaidSuccessUrl(cfg, sid),
                CancelUrl(cfg, sid),
                Metadata(sid, Join(skus, ',')),
                if email.Some? && email.value != [] then email else None))
  }

  predicate ValidSid(sidParam: string) {
    Trim(sidParam) != [] && |Trim(sidParam)| <= MaxSidLength
  }

  /** In a well-formed catalog the builder never meets a code it does not
      know in the parser's output: its unknown-code error is unreachable. */
  lemma {:induction false} BuilderAcceptsParsedCodes(c: ServiceCatalog, services: string)
    requires WellFormed(c) && ParseSkus(c, services).Ok?
    ensures BuildResult(c, ParseSkus(c, services).value) == Ok(PricedItems(c, ParseSkus(c, services).value))
  {
    ParsedCodesAreCatalogCodes(c, services);
  }

  /** With a valid id, the handler answers 500 exactly when the parser or
      the builder throws, and 400 "No services selected" exactly when the
      parse is empty. */
  lemma {:induction false} ErrorResponses(cfg: Config, c: ServiceCatalog, sidParam: string, servicesParam: string, emailParam: string)
    requires ValidSid(sidParam)
    ensures var r := HandleCheckout(cfg, c, sidParam, servicesParam, emailParam);
      var parsed := ParseSkus(c, Trim(servicesParam));
      && (r.ServerError? <==> parsed.Err? || (parsed.value != [] && BuildResult(c, parsed.value).Err?))
      && (r == BadRequest(NoServicesMessage) <==> parsed == Ok([]))
      && (r.BadRequest? ==> r.message == NoServicesMessage)
  {
  }

  /** In a well-formed catalog the handler answers 500 exactly when parsing
      fails. */
  lemma {:induction false} ServerErrorIffParseFails(cfg: Config, c: ServiceCatalog, sidParam: string, servicesParam: string, emailParam: string)
    requires WellFormed(c) && ValidSid(sidParam)
    ensures HandleCheckout(cfg, c, sidParam, servicesParam, emailParam).ServerError? <==>
      ParseSkus(c, Trim(servicesParam)).Err?
  {
    var services := Trim(servicesParam);
    if ParseSkus(c, services).Ok? {
      BuilderAcceptsParsedCodes(c, services);
    }
  }

  /** In a well-formed catalog the handler redirects to the free thank-you
      page exactly when the id is valid and the parse selects at least one
      service but no paid one; the location carries the encoded id. */
  lemma {:induction false} FreeRedirectIffNothingToPay(cfg: Config, c: ServiceCatalog, sidParam: string, servicesParam: string, emailParam: string)
    requires WellFormed(c)
    ensures var r := HandleCheckout(cfg, c, sidParam, servicesParam, emailParam);
      var parsed := ParseSkus(c, Trim(servicesParam));
      r.SeeOther? <==>
        ValidSid(sidParam) && parsed.Ok? && parsed.value != [] &&
        forall j :: 0 <= j < |parsed.value| ==> !IsPaidCode(c, parsed.value[j])
    ensures HandleCheckout(cfg, c, sidParam, servicesParam, emailParam).SeeOther? ==>
      HandleCheckout(cfg, c, sidParam, servicesParam, emailParam).location == FreeUrl(cfg, Trim(sidParam))
  {
    var services := Trim(servicesParam);
    if ValidSid(sidParam) && ParseSkus(c, services).Ok? {
      var skus := ParseSkus(c, services).value;
      BuilderAcceptsParsedCodes(c, services);
      NoItemsIffAllFree(c, skus);
    }
  }

  /** In a well-formed catalog the handler asks for a payment session
      exactly when the id is valid and the parse succeeds with at least one
      paid code. */
  lemma {:induction false} CreateSessionIff(cfg: Config, c: ServiceCatalog, sidParam: string, servicesParam: string, emailParam: string)
    requires WellFormed(c)
    ensures var r := HandleCheckout(cfg, c, sidParam, servicesParam, emailParam);
      var parsed := ParseSkus(c, Trim(servicesParam));
      r.CreateSession? <==>
        ValidSid(sidParam) && parsed.Ok? &&
        exists j :: 0 <= j < |parsed.value| && IsPaidCode(c, parsed.value[j])
  {
    var services := Trim(servicesParam);
    if ValidSid(sidParam) && ParseSkus(c, services).Ok? {
      BuilderAcceptsParsedCodes(c, services);
      NoItemsIffAllFree(c, ParseSkus(c, services).value);
    }
  }

  /** A session request carries the line items of the parsed codes, one per
      paid code in order, the trimmed id, and metadata from which the parsed
      code list is recovered by splitting at commas. */
  lemma {:induction false} SessionRequestRecordsSelection(cfg: Config, c: ServiceCatalog, sidParam: string, servicesParam: string, emailParam: string)
    requires WellFormed(c)
    requires HandleCheckout(cfg, c, sidParam, servicesParam, emailParam).CreateSession?
    ensures var req := HandleCheckout(cfg, c, sidParam, servicesParam, emailParam).request;
      var parsed := ParseSkus(c, Trim(servicesParam));
      && parsed.Ok? && parsed.value != []
      && req.mode == "payment"
      && req.lineItems == PricedItems(c, parsed.value)
      && |req.lineItems| == |PaidCodes(c, parsed.value)| > 0
      && req.metadata == Metadata(Trim(sidParam), Join(parsed.value, ','))
      && Split(req.metadata.selectedSkus, ',') == parsed.value
      && req.successUrl == PaidSuccessUrl(cfg, Trim(sidParam))
      && req.cancelUrl == CancelUrl(cfg, Trim(sidParam))
      && req.customerEmail == (if Trim(emailParam) == [] then None else Some(Trim(emailParam)))
  {
    var services := Trim(servicesParam);
    var skus := ParseSkus(c, services).value;
    BuilderAcceptsParsedCodes(c, services);
    ItemsFollowPaidCodes(c, skus);
    forall k | 0 <= k < |skus| ensures ',' !in skus[k] {
      assert skus[k] in c.prices;
    }
    SplitJoin(skus, ',');
  }

  /** With the shipped catalog, where every code is paid, a valid request
      never takes the free redirect. */
  lemma {:induction false} ShippedNeverFree(cfg: Config, sidParam: string, servicesParam: string, emailParam: string)
    ensures !HandleCheckout(cfg, Shipped, sidParam, servicesParam, emailParam).SeeOther?
  {
    ShippedCatalog();
    FreeRedirectIffNothingToPay(cfg, Shipped, sidParam, servicesParam, emailParam);
    var parsed := ParseSkus(Shipped, Trim(servicesParam));
    if parsed.Ok? && parsed.value != [] {
      ParsedCodesAreCatalogCodes(Shipped, Trim(servicesParam));
      assert IsPaidCode(Shipped, parsed.value[0]);
    }
  }
}
