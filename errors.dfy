/**
 * How a feed ingestion can end, in undersea-lib.
 *
 * `FeedError` has one variant, for a failed HTTP transfer. The two `unwrap`
 * calls in the ingestion code abort the program instead of returning an error;
 * the model keeps them apart from `FeedError` as a `Panicked` outcome that says
 * which unwrap gave way.
 */
module Errors {

  /** The library's only error kind: the feed could not be fetched. */
  datatype FeedError = NetworkError

  /** The `unwrap` that panicked. */
  datatype PanicSite =
    | UnreadableChannel   // `Channel::read_from(..).unwrap()` on a document that is not RSS
    | BadPublishDate      // `pub_date().unwrap()` or `parse_from_rfc2822(..).unwrap()`

  /** Result of an ingestion: a value, a returned error, or a panic. */
  datatype Outcome<+T> =
    | Done(value: T)
    | Failed(error: FeedError)
    | Panicked(site: PanicSite)
}
