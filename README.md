# Checkout router: service parsing, line items and the checkout decision

This project models the core of a small checkout router (`index.js`). The
router receives the answers of an order form as query values and does three
things:

- It turns the `services` value into a list of service codes (`parseSkus`).
- It turns the codes into payment line items (`buildLineItems`).
- It decides what the `/checkout` handler answers: a 400 with a message, a
  303 redirect to the free thank-you page, a request for a payment session,
  or the generic 500.

The model is written in Dafny, and the properties the router relies on are
proved about it.

The modules follow the structure of the source:

- `Text` (`text.dfy`): the JavaScript string operations the router uses.
  - `trim` and `trimStart`/`trimEnd` use the exact ECMAScript whitespace set.
  - `replace(/\s+/g, ' ')` is `CollapseSpaces`.
  - `toUpperCase` and `toLowerCase` map ASCII letters only.
  - `split` and `join` take a one-character separator.
- `Catalog` (`catalog.dfy`): the price table `PRICE_BY_SKU` and the three
  `startsWith` rules. They form one catalog value, so every property is stated
  for any catalog and then checked for the shipped one (`Shipped`). A price is
  an `Option<string>`; a missing or empty price is the falsy price of a free
  service.
- `Failures` (`failures.dfy`): the errors the two helpers throw.
- `SkuParser` (`sku_parser.dfy`): `parseSkus` as a pipeline of functions that
  return a `Result`:
  - tokenization (`Tokens`);
  - normalization (`Normalize`);
  - per-token resolution (`Resolve`, exact code first, then the first
    matching rule);
  - the per-token map with its throw (`ResolveAll`);
  - deduplication in insertion order (`Dedup`);
  - the two bounds.
- `LineItems` (`line_items.dfy`): `buildLineItems` is the `BuildLineItems`
  method with its loop. It is proved equal to the `BuildResult`
  specification, and the items are described by `PricedItems` and
  `PaidCodes`.
- `Checkout` (`checkout.dfy`): the handler's decision as the pure function
  `HandleCheckout`. Its `CreateSession` result is the argument the handler
  passes to the payment provider's session-creation call.
- `ParserExamples` and `CheckoutExamples`: the shipped catalog on the inputs
  the order form sends. These include:
  - codes in any letter case;
  - display names with odd spacing, capitals or an appended price;
  - a truncated name;
  - lists with two codes or a repeated service;
  - a complete paid checkout.

Two points where the source's behaviour is easy to misread:

- Errors thrown by `parseSkus` (input too long, unknown service, too many
  services) and by `buildLineItems` are not answered with a 400. They fall
  into the handler's `catch` and become the generic 500 with the "Failed to
  start checkout" message (`index.js:254-263`). `HandleCheckout`,
  `ErrorResponses` and `ServerErrorIffParseFails` state this.
- The exact-match test `upperService in PRICE_BY_SKU` is modelled as key
  membership. An upper-cased token cannot name any of the inherited object
  properties, which are all spelled with lower-case letters, so this loses
  nothing.

## Model

| member | source | states |
|---|---|---|
| Text.Trim | index.js:58 | the result has no whitespace at either end |
| Text.TrimStartIsSuffix | index.js:58 | `trimStart` keeps a suffix and drops only whitespace |
| Text.TrimEndIsPrefix | index.js:58 | `trimEnd` keeps a prefix and drops only whitespace |
| Text.TrimKeepsCharacters | index.js:58 | trimming introduces no character, so a comma-free piece stays comma-free |
| Text.TrimEmptyIff | index.js:59 | a trimmed piece is empty, and so dropped by `filter(Boolean)`, exactly when it was all whitespace |
| Text.TrimOfTrimmed | index.js:182 | a value with no whitespace at its ends is left as it is by `trim` |
| Text.TrimPadded | index.js:58 | whitespace around a string does not survive `trim` |
| Text.ToUpper | index.js:69 | `toUpperCase` keeps the length and maps each character by the ASCII rule |
| Text.ToLower | index.js:79 | `toLowerCase` keeps the length and maps each character by the ASCII rule |
| Text.LowerOfUpper | index.js:79 | lower-casing forgets an earlier upper-casing |
| Text.UpperTrim | index.js:79 | upper-casing commutes with `trim` |
| Text.UpperCollapse | index.js:79 | upper-casing commutes with collapsing whitespace runs |
| Text.CollapseSpaces | index.js:79 | `replace(/\s+/g, ' ')` leaves a single-spaced string that is empty only for empty input |
| Text.CollapseIdempotent | index.js:79 | collapsing whitespace twice is collapsing once |
| Text.CollapseAppend | index.js:79 | collapsing works piecewise across a boundary after a non-space character |
| Text.CollapseIgnoresRunLength | index.js:79 | a whitespace run of any length or kind between two words collapses like one space |
| Text.Split | index.js:57 | `split(',')` gives at least one piece and no piece holds the separator |
| Text.SplitAppend | index.js:57 | splitting at a separator concatenates the piece lists of both sides |
| Text.JoinSplit | index.js:57 | joining the pieces of a split gives back the input |
| Text.Join | index.js:239 | `join(',')` starts with the first piece and is at least as long as every piece |
| Text.SplitJoin | index.js:239 | splitting the `join(',')` of comma-free codes gives back the codes |
| Catalog.ShippedCatalog | index.js:24-28 | the shipped catalog is well formed, has three codes, and every code is paid |
| Catalog.ShippedCodesAreUpperCase | index.js:24-28 | every shipped code is spelled in upper-case letters, so an exact match on the upper-cased token can find it |
| SkuParser.Clean | index.js:58-59 | the tokens are no more than the pieces, nonempty and trimmed |
| SkuParser.Tokens | index.js:56-59 | `split(',').map(trim).filter(Boolean)` gives no more tokens than pieces, each nonempty and comma-free |
| SkuParser.TokensAreTrimmedPieces | index.js:56-59 | every token is nonempty, trimmed and comma-free |
| SkuParser.TokensAppend | index.js:56-59 | a comma splits the token list: tokens never span a comma |
| SkuParser.TokensOfSegment | index.js:56-59 | a comma-free stretch gives its trimmed self, or nothing when it is all whitespace |
| SkuParser.TokensEmptyIff | index.js:56-59 | there are no tokens exactly when the value holds only commas and whitespace |
| SkuParser.TokensIgnoreRepeatedComma | index.js:56-59 | a doubled comma between tokens changes nothing |
| SkuParser.TokensIgnoreLeadingComma | index.js:56-59 | a leading comma changes nothing |
| SkuParser.TokensIgnoreTrailingComma | index.js:56-59 | a trailing comma changes nothing |
| SkuParser.TokensIgnorePadding | index.js:56-59 | whitespace around a token changes nothing |
| SkuParser.Normalize | index.js:79 | the normal form is no longer than the token and holds no upper-case letter |
| SkuParser.NormalizeIsNormal | index.js:79 | a normal form is single-spaced, has no whitespace at its ends and no upper-case letter |
| SkuParser.NormalFormIsFixed | index.js:79 | a string already in normal form is its own normalization |
| SkuParser.NormalizeIdempotent | index.js:79 | normalizing twice is normalizing once |
| SkuParser.NormalizeIgnoresRunLength | index.js:79 | the length of a whitespace run inside a token does not matter to its normal form |
| SkuParser.NormalizeExtends | index.js:79-96 | text appended after a name only extends its normal form, so a name that passes a `startsWith` test still passes it with a price appended |
| SkuParser.NormalizeIgnoresCase | index.js:79 | normalization does not see letter case |
| SkuParser.FirstMatch | index.js:82-96 | no rule matches exactly when the result is none; otherwise the result is the code of the first rule whose prefix the normal form starts with |
| SkuParser.ResolvePrecedence | index.js:68-96 | an exact match of the upper-cased token wins; otherwise the first matching rule decides, and a token no rule matches is unknown |
| SkuParser.ResolveIgnoresCase | index.js:68-96 | tokens that agree once upper-cased resolve alike on both paths |
| SkuParser.Resolve | index.js:68-105 | one token of the map: in a well-formed catalog every code it resolves to is a catalog key |
| SkuParser.ResolveAll | index.js:65-106 | the map succeeds exactly when every token resolves, and then holds each token's code in token order; otherwise it throws an unknown-service error |
| SkuParser.ResolveAllStopsAtFirstUnresolved | index.js:98-105 | the throw names the first token, in input order, that no rule resolves |
| SkuParser.Dedup | index.js:109 | `[...new Set(skus)]` has no repeats, the same members as its input, and is no longer |
| SkuParser.DedupKeepsFirstOccurrenceOrder | index.js:109 | deduplicated codes appear in the order of their first occurrence |
| SkuParser.DedupOfDistinct | index.js:109 | a list without repeats passes deduplication unchanged |
| SkuParser.ParseSkus | index.js:48-122 | an empty value gives no codes; the too-long error comes exactly for a value over 500 characters; a successful parse has no repeated code and at most 20 codes |
| SkuParser.ParsedCodesComeFromTokens | index.js:65-109 | a successful parse holds exactly the codes the tokens resolve to, and no more codes than tokens |
| SkuParser.ParseIsDedupOfResolved | index.js:65-121 | a successful parse is the per-token map, which then succeeded, with its repeats removed |
| SkuParser.ParsedCodesKeepFirstOccurrenceOrder | index.js:109 | the parsed codes are ordered by where each first appears among the tokens' codes |
| SkuParser.ParsedCodesAreCatalogCodes | index.js:70-109 | in a well-formed catalog every parsed code is a catalog key, and there are no more codes than keys |
| SkuParser.UnknownServiceIsFirstUnresolved | index.js:98-105 | an unknown-service failure names the first unresolvable token in input order |
| SkuParser.TooManyCountsDistinctCodes | index.js:117-119 | the count bound sees distinct codes only: tokens that resolve into at most 20 codes never trigger it, however often each one repeats |
| SkuParser.ShippedNeverTooMany | index.js:117-119 | with the shipped three-code catalog the count bound never fires |
| SkuParser.ParseDependsOnlyOnTokens | index.js:49-59 | within the length bound two values with the same tokens parse alike |
| SkuParser.FillerSelectsNothing | index.js:49-59 | within the length bound the parse selects nothing exactly when the value is only commas and whitespace |
| LineItems.PricedItems | index.js:130-156 | there are no more items than codes, and every item has quantity 1 and a nonempty price |
| LineItems.FirstUnknown | index.js:133-137 | the position of the first code outside the catalog; every earlier code is a catalog key |
| LineItems.BuildResult | index.js:130-156 | the build succeeds exactly when every code is a catalog key, with no more items than codes; otherwise it throws naming the first code outside the catalog |
| LineItems.BuildLineItems | index.js:130-156 | the loop throws on the first code outside the catalog, and otherwise returns the priced items of the codes |
| LineItems.PricedItemsAppend | index.js:133-155 | the items of a concatenation are the concatenation of the items |
| LineItems.NoItemsIffAllFree | index.js:142-145 | there is no line item exactly when no selected code has a price |
| LineItems.PaidCodes | index.js:141-150 | no more codes than were selected, every one of them carries a price, and a code is among them exactly when it was selected and carries a price |
| LineItems.ItemsFollowPaidCodes | index.js:147-150 | item k is `{price, quantity: 1}` for the k-th paid code: one per paid code, in order |
| LineItems.AllPaidKeepsEveryCode | index.js:141-150 | when every code is paid none is skipped |
| Checkout.HandleCheckout | index.js:182-226 | the missing-id 400 comes exactly for an empty trimmed id and the invalid-id 400 exactly for one over 200 characters; each 400 and 500 carries its fixed message; a session request has line items and records the trimmed id |
| Checkout.FreeUrl | index.js:224 | the free thank-you URL is the success page, `?sid=` and the encoded id, ending in `&free=true` |
| Checkout.PaidSuccessUrl | index.js:235 | the paid success URL is the success page, `?sid=` and the encoded id, ending in the session-id placeholder |
| Checkout.CancelUrl | index.js:236 | the cancel URL is the cancel page, `?sid=` and the encoded id, and nothing more |
| Checkout.FreeAndPaidUrlsDiffer | index.js:224-235 | the success page can tell a free order from a paid one |
| Checkout.UrlsIdentifySubmission | index.js:224-236 | ids that encode differently give different free, success and cancel URLs |
| Checkout.BuilderAcceptsParsedCodes | index.js:216-217 | in a well-formed catalog the builder never throws on the parser's codes |
| Checkout.ErrorResponses | index.js:207-217 | with a valid id the answer is 500 exactly when parsing or building throws, the no-services 400 exactly when the parse is empty, and no other 400 is given |
| Checkout.ServerErrorIffParseFails | index.js:254-263 | in a well-formed catalog and with a valid id the 500 is answered exactly when parsing fails |
| Checkout.FreeRedirectIffNothingToPay | index.js:219-226 | the 303 to the free page happens exactly when the id is valid and the parse selects services none of which is paid; the location carries the id |
| Checkout.CreateSessionIff | index.js:196-243 | the session request is made exactly when the id is valid and the parse succeeds with at least one paid code |
| Checkout.SessionRequestRecordsSelection | index.js:231-243 | a session request is in payment mode, has one item per paid parsed code, records the id and the comma-joined codes (which split back into the codes), carries both return URLs, and carries the email only when it is nonempty |
| Checkout.ShippedNeverFree | index.js:219-226 | with the shipped catalog the free redirect never happens |
| ParserExamples.NotShippedCode | index.js:24-28 | no string shorter than 5 or longer than 7 characters is a shipped code |
| ParserExamples.LowerCaseCode | index.js:68-73 | `intfmt` resolves to `INTFMT` by exact match |
| ParserExamples.ShippedFuzzyMatch | index.js:79-96 | a token that cannot be a code resolves through the first rule its normal form starts with |
| ParserExamples.DisplayName | index.js:88-91 | `cover design` resolves to `COVER` |
| ParserExamples.DisplayNameCapitalized | index.js:88-91 | `Cover Design` resolves to `COVER` |
| ParserExamples.DisplayNameWideSpacing | index.js:79-91 | `cover   design` resolves to `COVER` |
| ParserExamples.DisplayNameWithPrice | index.js:79-91 | `Cover Design — $149` resolves to `COVER` |
| ParserExamples.DisplayNameAsSent | index.js:79-91 | `Cover   Design — $149` resolves to `COVER` |
| ParserExamples.ExactShippedCode | index.js:68-73 | every shipped code, as written, resolves to itself by exact match |
| ParserExamples.SameNormalForm | index.js:79-96 | two tokens that cannot be codes and share a normal form resolve alike |
| ParserExamples.ShortTokenUnknown | index.js:98-105 | no token shorter than 5 characters, nor one of 8 to 11 characters, resolves in the shipped catalog |
| ParserExamples.TruncatedName | index.js:98-105 | `Cover Desig` makes the parse throw an unknown-service error naming it |
| ParserExamples.ParseOfTwoCodes | index.js:48-122 | two different codes that each resolve to themselves parse to those codes in order |
| ParserExamples.TwoCodes | index.js:48-122 | `INTFMT,COVER` parses to `["INTFMT", "COVER"]` |
| ParserExamples.ParseOfRepeat | index.js:109 | two entries that resolve to the same code parse to that one code |
| ParserExamples.RepeatedService | index.js:109 | `COVER,cover design` parses to `["COVER"]` |
| CheckoutExamples.TwoPaidItems | index.js:133-155 | two paid codes give one item each, in order |
| CheckoutExamples.CheckoutOfTwoCodes | index.js:231-243 | a valid id and two paid codes give a session request with both items and the list as metadata |
| CheckoutExamples.PaidCheckout | index.js:177-243 | `sid=sub-42&services=INTFMT,COVER` gives a session request for the two shipped prices, with the id and the list as metadata and no email |

## Left out

- The Express application is not modelled. This covers the router, the rate limiter, `dotenv`, the `/health` and 404 routes and `app.listen` (`index.js:1-21`, `index.js:158-171`, `index.js:267-290`). They are transport and process setup.
- The payment provider's `sessions.create` call and the redirect to `session.url` are not modelled (`index.js:231-252`). The model stops at the request value the handler would send. A failure of that call also ends in the generic 500; the model does not show that path.
- Logging (`console.log` and `console.error`) and the `Date.now()` timing are left out. They play no part in control flow.
- `SERVICE_NAMES` is left out, because it is read only for logging.
- `encodeURIComponent` is a function-valued field of `Config`. The `SUCCESS_URL` and `CANCEL_URL` environment values are string fields of `Config`.
- Query values are taken as strings, with an absent value passed as the empty string. A repeated query key, which Express turns into an array that `String(...)` joins with commas, is not modelled.
- Text.ToUpper: maps ASCII letters only, not the full Unicode case mapping of `toUpperCase`.
- Text.ToLower: maps ASCII letters only, not the full Unicode case mapping of `toLowerCase`.
- Lengths are counted in Unicode code points, not in the UTF-16 code units that JavaScript's `length` counts. The 500 and 200 bounds therefore differ from the source's for text outside the Basic Multilingual Plane.
- Error messages of thrown errors are not modelled beyond their kind and the offending token or code. The handler never shows them to the client.
