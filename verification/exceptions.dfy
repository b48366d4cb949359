/**
 * The exceptions the sitemap classes throw (lib/SitemapException/), as one
 * error type. Each constructor names the situation; `Class` gives the PHP
 * exception class that carries it.
 */
module Exceptions {

  datatype ExceptionClass =
    | InvalidParameter   // SitemapInvalidParameterException
    | MaximumEntries     // SitemapMaximumEntriesException
    | Validation         // SitemapValidationException
    | InvalidCallback    // SitemapInvalidCallbackException

  datatype Error =
    | MalformedEntry                          // the entry handed to addEntry is not an array
    | RequiredMissing(node: string)           // a required node is absent or empty
    | FallbackMissing                         // a validation callback registered without a fallback
    | TooManyEntries(limit: nat)              // the entry list is full
    | ValidationFailed(node: string)          // validation failed and the fallback is the sentinel
    | CallbackPrefixMissing(prefix: string)   // prefix required for every callback but absent
  {
    function Class(): ExceptionClass {
      match this
      case MalformedEntry => InvalidParameter
      case RequiredMissing(_) => InvalidParameter
      case FallbackMissing => InvalidParameter
      case TooManyEntries(_) => MaximumEntries
      case ValidationFailed(_) => Validation
      case CallbackPrefixMissing(_) => InvalidCallback
    }
  }
}
