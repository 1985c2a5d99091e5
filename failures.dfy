/** The errors the router's parser and line-item builder throw. Each is
    raised with `throw new Error(...)` and ends in the handler's generic
    500 response; only the kind and the offending input are kept here. */
module Failures {

  datatype Failure =
    | InputTooLong                  // "Services parameter too long (max 500 characters)"
    | UnknownService(token: string) // "Unknown service: <token>"
    | TooManyServices               // "Too many services (max 20 per order)"
    | UnknownSku(sku: string)       // "Unknown service SKU: <sku>"
}
